/** What one Epoch's Result is, what its carryIn should have been, and how a chain of Results carries
    from the Distributor's deploy on. */
module Carry {
  import opened Wrappers
  import opened History
  import opened Merkle
  import opened Alloc
  import opened Roots
  import opened EndBlock
  import opened Records
  import Replay
  import Sorting
  import Tree

  /** Everything an Engine reads, at one tip. */
  datatype World = World(
    history: seq<Transfer>, exclusions: seq<Exclusion>, dist: Distributor,
    chain: uint64 -> Block, tip: Block, devWallet: Address, keccak: Keccak)

  ghost predicate Sound(w: World) {
    && Roots.WellFormed(w.dist) && w.dist.tip == w.tip.number && w.tip == w.chain(w.tip.number)
    && forall n: uint64 :: w.chain(n).number == n && w.chain(n).timestamp >= 0
  }

  /** Where an expected carryIn came from: the Epoch whose carryOut it is, if any, and how many Epochs'
      funding was added to that. */
  datatype CarrySource = CarrySource(base: Option<nat>, skipped: nat) | OwnPosted

  datatype EpochResult = EpochResult(
    epoch: nat, endBlock: Option<Block>, skipped: bool, funded: Five, carryIn: Five, expectedCarryIn: Five,
    carryFrom: CarrySource, posted: Option<RootPosted>, totals: Five, carryOut: Five, totalWeight: int,
    excluded: seq<Address>, root: Option<Hash>, allocations: seq<Allocation>)

  /** The deploy block is stamped within e's hour. */
  predicate IsDeployEpoch(w: World, e: nat) {
    3600 * e <= w.chain(w.dist.deployed).timestamp < 3600 * (e + 1)
  }

  /** The Epoch of the deploy block, before which nothing is funded. */
  function First(w: World): (e: nat)
    requires Sound(w)
    ensures IsDeployEpoch(w, e)
  {
    w.chain(w.dist.deployed).timestamp / EPOCH_SECONDS
  }

  function Known(f: Five): (r: Amounts)
    ensures forall t :: 0 <= t < 5 ==> r[t] == Some(f[t])
  {
    seq(5, t requires 0 <= t < 5 => Some(f[t]))
  }

  predicate NonNegative(f: Five) {
    forall t :: 0 <= t < 5 ==> f[t] >= 0
  }

  /** What the Allocations are computed over: the posted carryIn when a Root stands. */
  function CarryInOf(posted: Option<RootPosted>, expected: Five): Five {
    if posted.Some? then posted.value.carryIn else expected
  }

  function ParamsOf(w: World, id: nat, carryIn: Five): Params {
    Params(id, w.devWallet, Known(w.dist.book(id).funded), Known(carryIn))
  }

  lemma ParamsPayable(w: World, id: nat, carryIn: Five)
    requires NonNegative(carryIn)
    ensures Payable(ParamsOf(w, id, carryIn))
    ensures forall t :: 0 <= t < 5 ==>
      BaseOf(ParamsOf(w, id, carryIn))[t] == w.dist.book(id).funded[t] + carryIn[t]
  {
  }

  // ------------------------------------------------------------------ one Result

  /** The rules over p and hs, in the fields of a Result. */
  ghost predicate Allocates(w: World, p: Params, hs: seq<Holder>, r: EpochResult) {
    && InRange(p.epoch) && AllPositive(hs) && Payable(p)
    && var rows := AllRows(p, hs);
    && r.totalWeight == TotalWeight(p, hs)
    && r.allocations == Kept(rows)
    && (forall t :: 0 <= t < 5 ==> r.totals[t] == SumOf(rows, t))
    && (forall t :: 0 <= t < 5 ==> r.totals[t] + r.carryOut[t] == BaseOf(p)[t])
    && (r.root.None? <==> r.allocations == [])
    && (r.root.Some? ==>
          var claims := ClaimsOf(p.epoch, r.allocations);
          Tree.AllEncodable(claims) && r.root.value == Tree.RootOf(w.keccak, Tree.EncodedAll(claims)))
  }

  /** hs are the Holders of an Epoch, which the rules accept. */
  ghost predicate Closes(w: World, id: nat, hs: seq<Holder>) {
    InRange(id) && Replay.IsOutcome(Success(hs), w.history, w.exclusions, WindowOf(id))
  }

  ghost predicate IsExcluded(w: World, id: nat, excluded: seq<Address>) {
    && InRange(id)
    && Sorting.StrictlySortedBy(excluded, (a: Address) => a)
    && forall a: Address :: a in excluded <==> Excluded(w.exclusions, a, WindowOf(id).end)
  }

  /** r is the Epoch rebuilt, all but its end block: its book, its Holders, and what the rules make of
      them over the posted carryIn, or the expected one. */
  ghost predicate IsResult(w: World, id: nat, posted: Option<RootPosted>, expected: Five,
                           from: CarrySource, r: EpochResult)
  {
    && r.epoch == id && r.posted == posted && r.expectedCarryIn == expected && r.carryFrom == from
    && r.skipped == w.dist.book(id).skipped && r.funded == w.dist.book(id).funded
    && r.carryIn == CarryInOf(posted, expected) && NonNegative(r.carryIn)
    && IsExcluded(w, id, r.excluded)
    && exists hs :: Closes(w, id, hs) && Allocates(w, ParamsOf(w, id, r.carryIn), hs, r)
  }

  lemma ClosesOnce(w: World, id: nat, hs: seq<Holder>, ks: seq<Holder>)
    requires Closes(w, id, hs) && Closes(w, id, ks)
    ensures hs == ks
  {
    Replay.OutcomeUnique(Success(hs), Success(ks), w.history, w.exclusions, WindowOf(id));
  }

  lemma AllocatesOnce(w: World, p: Params, hs: seq<Holder>, r: EpochResult, s: EpochResult)
    requires Allocates(w, p, hs, r) && Allocates(w, p, hs, s)
    ensures r.totalWeight == s.totalWeight && r.allocations == s.allocations
    ensures r.totals == s.totals && r.carryOut == s.carryOut && r.root == s.root
  {
    forall t | 0 <= t < 5 ensures r.totals[t] == s.totals[t] && r.carryOut[t] == s.carryOut[t] {
    }
  }

  /** r with nothing said of its end block or of what its carryIn should have been. */
  function Bare(r: EpochResult): EpochResult {
    r.(endBlock := None, expectedCarryIn := NOTHING, carryFrom := OwnPosted)
  }

  /** An Epoch computed over one carryIn is computed one way, whatever was expected of it. */
  lemma SameInputs(w: World, id: nat, posted: Option<RootPosted>, e: Five, from: CarrySource, r: EpochResult,
                   f: Five, fromf: CarrySource, s: EpochResult)
    requires IsResult(w, id, posted, e, from, r) && IsResult(w, id, posted, f, fromf, s)
    requires CarryInOf(posted, e) == CarryInOf(posted, f)
    ensures Bare(r) == Bare(s)
  {
    hide Allocates, Closes, Tree.RootOf;
    var hs :| Closes(w, id, hs) && Allocates(w, ParamsOf(w, id, r.carryIn), hs, r);
    var ks :| Closes(w, id, ks) && Allocates(w, ParamsOf(w, id, s.carryIn), ks, s);
    ClosesOnce(w, id, hs, ks);
    AllocatesOnce(w, ParamsOf(w, id, r.carryIn), hs, r, s);
    Sorting.StrictlySortedIsUnique(r.excluded, s.excluded, (a: Address) => a);
  }

  /** Per token, what an Epoch allocates and what it carries out is what it was funded and carried in,
      and neither is negative. */
  lemma ResultConserves(w: World, id: nat, posted: Option<RootPosted>, expected: Five, from: CarrySource,
                        r: EpochResult, t: nat)
    requires IsResult(w, id, posted, expected, from, r) && t < 5
    ensures r.totals[t] + r.carryOut[t] == r.funded[t] + r.carryIn[t]
    ensures r.totals[t] >= 0 && r.carryOut[t] >= 0
  {
    var p := ParamsOf(w, id, r.carryIn);
    var hs :| Closes(w, id, hs) && Allocates(w, p, hs, r);
    ParamsPayable(w, id, r.carryIn);
    RowsBetween(p, hs, t);
  }

  lemma RowsBetween(p: Params, hs: seq<Holder>, t: nat)
    requires InRange(p.epoch) && AllPositive(hs) && Payable(p) && t < 5
    ensures 0 <= SumOf(AllRows(p, hs), t) <= BaseOf(p)[t]
  {
    AllRowsNonNegative(p, hs);
    SumBounds(AllRows(p, hs), t);
    if hs != [] {
      DustBound(p, hs, BaseOf(p), t);
    }
  }

  lemma ClosesInOrder(w: World, id: nat, hs: seq<Holder>)
    requires Closes(w, id, hs)
    ensures Sorting.StrictlySortedBy(hs, (h: Holder) => h.account)
  {
  }

  /** A Result pays each Holder of the Epoch what it is due of the Epoch's funding and of the carryIn it was
      posted with, or was expected to carry. */
  lemma ResultIsDue(w: World, id: nat, posted: Option<RootPosted>, expected: Five, from: CarrySource, r: EpochResult)
    returns (p: Params, hs: seq<Holder>, rows: seq<Allocation>)
    requires IsResult(w, id, posted, expected, from, r)
    ensures r.carryIn == if posted.Some? then posted.value.carryIn else expected
    ensures Closes(w, id, hs) && p == Params(id, w.devWallet, Known(w.dist.book(id).funded), Known(r.carryIn))
    ensures Payable(p) && AllDue(p, hs, rows, r.allocations) && r.totalWeight == SumWeights(rows)
    ensures r.root.Some? ==>
      var claims := ClaimsOf(id, r.allocations);
      Tree.AllEncodable(claims) && r.root.value == Tree.RootOf(w.keccak, Tree.EncodedAll(claims))
    ensures r.root.None? <==> r.allocations == []
  {
    p := ParamsOf(w, id, r.carryIn);
    hs :| Closes(w, id, hs) && Allocates(w, p, hs, r);
    rows := AllRows(p, hs);
    ClosesInOrder(w, id, hs);
    KeptAreDue(p, hs);
    RowsAreDue(p, hs);
  }

  // ------------------------------------------------------------------ what was expected

  /** The funding of the Epochs lo..hi - 1. */
  function Funding(w: World, lo: nat, hi: nat, t: nat): nat
    requires t < 5
  {
    if hi <= lo then 0 else Funding(w, lo, hi - 1, t) + w.dist.book(hi - 1).funded[t]
  }

  /** carry with the funding of the Epochs lo..hi - 1. */
  function Plus(w: World, carry: Five, lo: nat, hi: nat): (r: Five)
    ensures forall t :: 0 <= t < 5 ==> r[t] == carry[t] + Funding(w, lo, hi, t)
  {
    seq(5, t requires 0 <= t < 5 => carry[t] + Funding(w, lo, hi, t))
  }

  lemma PlusNone(w: World, carry: Five, lo: nat)
    ensures Plus(w, carry, lo, lo) == carry
  {
  }

  lemma PlusOne(w: World, carry: Five, lo: nat, hi: nat, next: Five)
    requires lo <= hi && forall t :: 0 <= t < 5 ==> next[t] == Plus(w, carry, lo, hi)[t] + w.dist.book(hi).funded[t]
    ensures next == Plus(w, carry, lo, hi + 1)
  {
  }

  /** What id should have been posted with: the carryOut of the previous rooted Epoch, recomputed over
      its own posted carryIn, with the funding of every Epoch between; without one, the funding of
      everything since deploy. */
  ghost predicate IsExpected(w: World, id: nat, carry: Five, from: CarrySource)
    requires Sound(w)
  {
    match PreviousOf(w.dist.book, w.dist.stream, id)
    case None => First(w) <= id && carry == Plus(w, NOTHING, First(w), id) && from == CarrySource(None, id - First(w))
    case Some(p) =>
      && p.id < id && from == CarrySource(Some(p.id), id - (p.id + 1))
      && exists r :: IsResult(w, p.id, Some(p), p.carryIn, OwnPosted, r) && carry == Plus(w, r.carryOut, p.id + 1, id)
  }

  /** b is the Epoch's end block. */
  ghost predicate EndsAt(w: World, id: nat, b: Block) {
    && InRange(id)
    && b == w.chain(b.number) && b.number < w.tip.number
    && b.timestamp < WindowOf(id).end <= w.chain(b.number + 1).timestamp
    && (NonDecreasing(w.chain) ==> IsLastBefore(w.chain, w.tip.number, WindowOf(id).end, b))
  }

  ghost predicate IsComputed(w: World, id: nat, r: EpochResult)
    requires Sound(w)
  {
    && r.endBlock.Some? && EndsAt(w, id, r.endBlock.value) && Served(w.dist, id, r.endBlock.value.number + 1)
    && IsExpected(w, id, r.expectedCarryIn, r.carryFrom)
    && IsResult(w, id, Standing(w.dist.book, w.dist.stream, id), r.expectedCarryIn, r.carryFrom, r)
  }

  /** Only one carry and one source are expected of an Epoch. */
  lemma ExpectedOnce(w: World, id: nat, e: Five, from: CarrySource, f: Five, fromf: CarrySource)
    requires Sound(w) && IsExpected(w, id, e, from) && IsExpected(w, id, f, fromf)
    ensures e == f && from == fromf
  {
    hide IsResult, PreviousOf, Sound;
    match PreviousOf(w.dist.book, w.dist.stream, id) {
      case None =>
      case Some(p) =>
        var r :| IsResult(w, p.id, Some(p), p.carryIn, OwnPosted, r) && e == Plus(w, r.carryOut, p.id + 1, id);
        var s :| IsResult(w, p.id, Some(p), p.carryIn, OwnPosted, s) && f == Plus(w, s.carryOut, p.id + 1, id);
        SameInputs(w, p.id, Some(p), p.carryIn, OwnPosted, r, p.carryIn, OwnPosted, s);
        assert Bare(r).carryOut == Bare(s).carryOut;
    }
  }

  /** The rules can be applied to an Epoch over carryIn: the history is accepted, and every row fits a
      claim. */
  ghost predicate Can(w: World, id: nat, carryIn: Five) {
    exists hs :: Closes(w, id, hs) && Fits(w, ParamsOf(w, id, carryIn), hs)
  }

  ghost predicate Fits(w: World, p: Params, hs: seq<Holder>) {
    && InRange(p.epoch) && AllPositive(hs) && Payable(p)
    && Tree.AllEncodable(ClaimsOf(p.epoch, Kept(AllRows(p, hs))))
  }

  /** An Epoch that has a Result can be rebuilt. */
  lemma ResultCan(w: World, id: nat, posted: Option<RootPosted>, expected: Five, from: CarrySource, r: EpochResult)
    requires IsResult(w, id, posted, expected, from, r)
    ensures Can(w, id, CarryInOf(posted, expected))
  {
    hide Closes;
    var p := ParamsOf(w, id, r.carryIn);
    var hs :| Closes(w, id, hs) && Allocates(w, p, hs, r);
    if r.root.None? {
      assert Kept(AllRows(p, hs)) == [];
    }
    assert Fits(w, p, hs);
  }

  // ------------------------------------------------------------------ a chain of Results

  /** The Epoch after the last link. */
  function After(w: World, links: seq<EpochResult>): nat
    requires Sound(w)
  {
    if links == [] then First(w) else links[|links| - 1].epoch + 1
  }

  function LastCarry(links: seq<EpochResult>): Five {
    if links == [] then NOTHING else links[|links| - 1].carryOut
  }

  /** What the links leave for id: the last one's carryOut and the funding since. */
  function Rolled(w: World, links: seq<EpochResult>, id: nat): Five
    requires Sound(w)
  {
    Plus(w, LastCarry(links), After(w, links), id)
  }

  function SourceAt(w: World, links: seq<EpochResult>, id: nat): CarrySource
    requires Sound(w)
  {
    CarrySource(if links == [] then None else Some(links[|links| - 1].epoch),
                if After(w, links) <= id then id - After(w, links) else 0)
  }

  /** The k-th link is its Epoch computed over its own posted carryIn, and expected to have been posted
      with what the links before it leave. */
  ghost predicate IsLink(w: World, links: seq<EpochResult>, k: nat)
    requires Sound(w) && k < |links|
  {
    var r := links[k];
    && r.endBlock.None? && r.posted.Some?
    && r.posted == Standing(w.dist.book, w.dist.stream, r.epoch)
    && IsResult(w, r.epoch, r.posted, Rolled(w, links[..k], r.epoch), SourceAt(w, links[..k], r.epoch), r)
  }

  ghost predicate Ascending(links: seq<EpochResult>) {
    forall i, j :: 0 <= i < j < |links| ==> links[i].epoch < links[j].epoch
  }

  /** One link for every rooted Epoch from deploy to before id, in order. */
  ghost predicate IsLinks(w: World, links: seq<EpochResult>, id: nat)
    requires Sound(w)
  {
    && Ascending(links)
    && (forall k :: 0 <= k < |links| ==> First(w) <= links[k].epoch < id && IsLink(w, links, k))
    && (forall e: nat :: First(w) <= e < id && Standing(w.dist.book, w.dist.stream, e).Some? ==>
          exists k :: 0 <= k < |links| && links[k].epoch == e)
  }

  ghost predicate IsWalk(w: World, target: nat, rs: seq<EpochResult>)
    requires Sound(w)
  {
    && rs != [] && First(w) <= target
    && var links, last := rs[..|rs| - 1], rs[|rs| - 1];
    && IsLinks(w, links, target)
    && last.endBlock.Some? && EndsAt(w, target, last.endBlock.value)
    && Served(w.dist, target, last.endBlock.value.number + 1)
    && IsResult(w, target, Standing(w.dist.book, w.dist.stream, target), Rolled(w, links, target),
                SourceAt(w, links, target), last)
  }

  lemma NoLinks(w: World)
    requires Sound(w)
    ensures IsLinks(w, [], First(w)) && Rolled(w, [], First(w)) == NOTHING
    ensures SourceAt(w, [], First(w)) == CarrySource(None, 0)
  {
    PlusNone(w, NOTHING, First(w));
  }

  /** An Epoch without a Root adds its funding and no link. */
  lemma UnrootedStep(w: World, links: seq<EpochResult>, id: nat, next: Five)
    requires Sound(w) && IsLinks(w, links, id) && First(w) <= id
    requires Standing(w.dist.book, w.dist.stream, id).None?
    requires forall t :: 0 <= t < 5 ==> next[t] == Rolled(w, links, id)[t] + w.dist.book(id).funded[t]
    ensures IsLinks(w, links, id + 1) && next == Rolled(w, links, id + 1)
    ensures SourceAt(w, links, id).CarrySource?
    ensures SourceAt(w, links, id + 1) == CarrySource(SourceAt(w, links, id).base, SourceAt(w, links, id).skipped + 1)
  {
    hide IsLink, Standing, Sound;
    assert links != [] ==> links[|links| - 1].epoch < id;
    PlusOne(w, LastCarry(links), After(w, links), id, next);
  }

  lemma LinksGrow(w: World, links: seq<EpochResult>, link: EpochResult, k: nat)
    requires Sound(w) && k < |links| && IsLink(w, links, k)
    ensures IsLink(w, links + [link], k)
  {
    assert (links + [link])[..k] == links[..k];
  }

  /** A rooted Epoch adds one link, and the carry starts again from its carryOut. */
  lemma RootedStep(w: World, links: seq<EpochResult>, id: nat, link: EpochResult)
    requires Sound(w) && IsLinks(w, links, id) && First(w) <= id
    requires link.endBlock.None? && Standing(w.dist.book, w.dist.stream, id).Some?
    requires IsResult(w, id, Standing(w.dist.book, w.dist.stream, id), Rolled(w, links, id),
                      SourceAt(w, links, id), link)
    ensures IsLinks(w, links + [link], id + 1) && Rolled(w, links + [link], id + 1) == link.carryOut
    ensures SourceAt(w, links + [link], id + 1) == CarrySource(Some(id), 0)
  {
    hide IsResult, Rolled, SourceAt, Standing;
    var more := links + [link];
    forall k | 0 <= k < |more| ensures First(w) <= more[k].epoch < id + 1 && IsLink(w, more, k) {
      if k < |links| {
        LinksGrow(w, links, link, k);
      } else {
        LastLink(w, links, id, link);
      }
    }
    LinkFields(w, id, Standing(w.dist.book, w.dist.stream, id), Rolled(w, links, id), SourceAt(w, links, id), link);
    AllLinked(w, links, id, link);
    RolledAnew(w, links, link);
  }

  lemma LinkFields(w: World, id: nat, posted: Option<RootPosted>, expected: Five, from: CarrySource, r: EpochResult)
    requires IsResult(w, id, posted, expected, from, r)
    ensures r.epoch == id && r.posted == posted && r.expectedCarryIn == expected && r.carryFrom == from
    ensures r.funded == w.dist.book(id).funded && r.carryIn == CarryInOf(posted, expected)
    ensures InRange(id) && NonNegative(r.carryIn) && NonNegative(r.carryOut)
  {
    forall t | 0 <= t < 5 ensures r.carryOut[t] >= 0 {
      ResultConserves(w, id, posted, expected, from, r, t);
    }
  }

  lemma AllLinked(w: World, links: seq<EpochResult>, id: nat, link: EpochResult)
    requires Sound(w) && IsLinks(w, links, id) && link.epoch == id
    ensures forall e: nat :: First(w) <= e < id + 1 && Standing(w.dist.book, w.dist.stream, e).Some? ==>
      exists k :: 0 <= k < |links + [link]| && (links + [link])[k].epoch == e
  {
    hide IsLink, Standing;
    forall e: nat | First(w) <= e < id + 1 && Standing(w.dist.book, w.dist.stream, e).Some?
      ensures exists k :: 0 <= k < |links + [link]| && (links + [link])[k].epoch == e
    {
      if e < id {
        var k :| 0 <= k < |links| && links[k].epoch == e;
        assert (links + [link])[k].epoch == e;
      } else {
        assert (links + [link])[|links|].epoch == e;
      }
    }
  }

  lemma LastLink(w: World, links: seq<EpochResult>, id: nat, link: EpochResult)
    requires Sound(w) && link.endBlock.None? && Standing(w.dist.book, w.dist.stream, id).Some?
    requires IsResult(w, id, Standing(w.dist.book, w.dist.stream, id), Rolled(w, links, id),
                      SourceAt(w, links, id), link)
    ensures link.epoch == id && IsLink(w, links + [link], |links|)
  {
    assert (links + [link])[..|links|] == links;
  }

  lemma RolledAnew(w: World, links: seq<EpochResult>, link: EpochResult)
    requires Sound(w)
    ensures Rolled(w, links + [link], link.epoch + 1) == link.carryOut
    ensures SourceAt(w, links + [link], link.epoch + 1) == CarrySource(Some(link.epoch), 0)
  {
    PlusNone(w, link.carryOut, link.epoch + 1);
  }

  // ------------------------------------------------------------------ a Walk and a Compute

  /** No Root stands from before the Distributor could be funded. */
  ghost predicate SinceDeploy(w: World)
    requires Sound(w)
  {
    forall id: nat :: Standing(w.dist.book, w.dist.stream, id).Some? ==> First(w) <= id
  }

  /** The links through the k-th are the links before its Epoch and the link itself. */
  lemma LinksBefore(w: World, links: seq<EpochResult>, id: nat, k: nat)
    requires Sound(w) && IsLinks(w, links, id) && k < |links|
    ensures IsLinks(w, links[..k], links[k].epoch)
  {
    hide IsResult, Rolled, SourceAt, Standing, Sound, IsLink, First;
    var some := links[..k];
    forall i | 0 <= i < k ensures First(w) <= some[i].epoch < links[k].epoch && IsLink(w, some, i) {
      assert some[..i] == links[..i];
      SameLink(w, links, some, i);
    }
    forall e: nat | First(w) <= e < links[k].epoch && Standing(w.dist.book, w.dist.stream, e).Some?
      ensures exists i :: 0 <= i < k && some[i].epoch == e
    {
      var i :| 0 <= i < |links| && links[i].epoch == e;
      assert some[i].epoch == e;
    }
  }

  lemma SameLink(w: World, links: seq<EpochResult>, some: seq<EpochResult>, i: nat)
    requires Sound(w) && i < |some| <= |links| && some[..i] == links[..i] && some[i] == links[i] && IsLink(w, links, i)
    ensures IsLink(w, some, i)
  {
  }

  /** The last link is the previous standing Root, and there is none before the first. */
  lemma LastIsPrevious(w: World, links: seq<EpochResult>, id: nat)
    requires Sound(w) && Orderly(w.dist.book, w.dist.stream) && SinceDeploy(w) && IsLinks(w, links, id)
    ensures PreviousOf(w.dist.book, w.dist.stream, id) == if links == [] then None else links[|links| - 1].posted
    ensures links != [] ==>
      links[|links| - 1].posted.Some? && links[|links| - 1].posted.value.id == links[|links| - 1].epoch
  {
    hide IsResult, Rolled, SourceAt, Orderly, PreviousOf;
    var book, s := w.dist.book, w.dist.stream;
    PreviousIsFound(book, s, id);
    var p := PreviousOf(book, s, id);
    if links != [] {
      var last := links[|links| - 1];
      assert IsLink(w, links, |links| - 1);
      assert Standing(book, s, last.epoch).Some?;
    }
    if p.Some? {
      var k :| 0 <= k < |links| && links[k].epoch == p.value.id;
    }
  }

  /** What Compute expects of an Epoch is what a Walk that reaches it has carried there. */
  lemma ExpectedIsRolled(w: World, links: seq<EpochResult>, id: nat, carry: Five, from: CarrySource)
    requires Sound(w) && Orderly(w.dist.book, w.dist.stream) && SinceDeploy(w)
    requires IsLinks(w, links, id) && IsExpected(w, id, carry, from)
    ensures carry == Rolled(w, links, id) && from == SourceAt(w, links, id)
  {
    hide Orderly, PreviousOf, SinceDeploy, IsResult, Sound, Ascending, Standing, Plus;
    LastIsPrevious(w, links, id);
    if links != [] {
      var last := links[|links| - 1];
      var p := last.posted.value;
      var r :| IsResult(w, p.id, Some(p), p.carryIn, OwnPosted, r) && carry == Plus(w, r.carryOut, p.id + 1, id);
      assert IsLink(w, links, |links| - 1);
      var before := links[..|links| - 1];
      SameInputs(w, p.id, Some(p), p.carryIn, OwnPosted, r, Rolled(w, before, p.id), SourceAt(w, before, p.id), last);
      assert Bare(r).carryOut == Bare(last).carryOut;
    }
  }

  lemma SameEndBlock(w: World, id: nat, b: Block, c: Block)
    requires Sound(w) && NonDecreasing(w.chain) && EndsAt(w, id, b) && EndsAt(w, id, c)
    ensures b == c
  {
    assert w.chain(b.number).timestamp < WindowOf(id).end;
    assert w.chain(c.number).timestamp < WindowOf(id).end;
  }

  lemma SameResult(w: World, id: nat, posted: Option<RootPosted>, e: Five, from: CarrySource,
                   r: EpochResult, s: EpochResult)
    requires IsResult(w, id, posted, e, from, r) && IsResult(w, id, posted, e, from, s)
    ensures r.(endBlock := None) == s.(endBlock := None)
  {
    SameInputs(w, id, posted, e, from, r, e, from, s);
    assert Bare(r).epoch == Bare(s).epoch;
    var bare := Bare(r);
    assert r.(endBlock := None) == bare.(expectedCarryIn := e, carryFrom := from);
    assert s.(endBlock := None) == bare.(expectedCarryIn := e, carryFrom := from);
  }

  /** Which end block goes with a Result changes nothing else of it. */
  lemma BlockMakesNoOdds(w: World, id: nat, posted: Option<RootPosted>, expected: Five, from: CarrySource,
                         r: EpochResult, b: Option<Block>)
    requires IsResult(w, id, posted, expected, from, r)
    ensures IsResult(w, id, posted, expected, from, r.(endBlock := b))
  {
    var s := r.(endBlock := b);
    var hs :| Closes(w, id, hs) && Allocates(w, ParamsOf(w, id, r.carryIn), hs, r);
    assert Allocates(w, ParamsOf(w, id, s.carryIn), hs, s);
  }

  /** Two walks that reach an Epoch leave it the same carry. */
  lemma SameRolled(w: World, links: seq<EpochResult>, more: seq<EpochResult>, id: nat)
    requires Sound(w) && IsLinks(w, links, id) && IsLinks(w, more, id)
    requires First(w) <= id
    ensures Rolled(w, links, id) == Rolled(w, more, id)
  {
    hide IsLinks, Standing, Ascending, Sound, Rolled, SourceAt, IsResult, First;
    SameLast(w, links, more, id);
    SameLast(w, more, links, id);
    RolledFrom(w, links, id);
    RolledFrom(w, more, id);
    if links != [] {
      var r, s := links[|links| - 1], more[|more| - 1];
      var e := r.epoch;
      var before, earlier := links[..|links| - 1], more[..|more| - 1];
      SameInputs(w, e, r.posted, Rolled(w, before, e), SourceAt(w, before, e), r,
                 Rolled(w, earlier, e), SourceAt(w, earlier, e), s);
      assert Bare(r).carryOut == Bare(s).carryOut;
    }
  }

  lemma SameLast(w: World, links: seq<EpochResult>, more: seq<EpochResult>, id: nat)
    requires Sound(w) && IsLinks(w, links, id) && IsLinks(w, more, id)
    ensures links != [] ==> more != [] && links[|links| - 1].epoch <= more[|more| - 1].epoch
    ensures links != [] ==> IsLink(w, links, |links| - 1) && links[|links| - 1].epoch < id
  {
    hide IsResult, Rolled, SourceAt, Standing;
    if links != [] {
      var last := links[|links| - 1];
      assert IsLink(w, links, |links| - 1);
      var k :| 0 <= k < |more| && more[k].epoch == last.epoch;
    }
  }

  /** A rooted Epoch a walk has passed can be rebuilt over its posted carryIn. */
  lemma LinkCan(w: World, links: seq<EpochResult>, target: nat, id: nat)
    requires Sound(w) && IsLinks(w, links, target) && First(w) <= id < target
    requires Standing(w.dist.book, w.dist.stream, id).Some?
    ensures Can(w, id, Standing(w.dist.book, w.dist.stream, id).value.carryIn)
  {
    hide IsResult, Rolled, SourceAt, Standing, Can, Sound;
    var k :| 0 <= k < |links| && links[k].epoch == id;
    var r := links[k];
    assert IsLink(w, links, k);
    ResultCan(w, id, r.posted, Rolled(w, links[..k], id), SourceAt(w, links[..k], id), r);
  }

  // ------------------------------------------------------------------ posted after the close

  /** A standing Root was posted after its Epoch's end block. */
  ghost predicate PostedAfterClose(w: World) {
    forall id: nat, b: Block :: EndsAt(w, id, b) && Standing(w.dist.book, w.dist.stream, id).Some? ==>
      b.number < Standing(w.dist.book, w.dist.stream, id).value.block
  }

  lemma AfterCloseIsServed(w: World, id: nat, b: Block)
    requires Sound(w) && PostedAfterClose(w) && EndsAt(w, id, b)
    requires Standing(w.dist.book, w.dist.stream, id).Some?
    ensures Served(w.dist, id, b.number + 1)
  {
    var k := LastForAt(w.dist.stream, id);
    LastKeptInRange(w.dist.stream, b.number + 1, w.dist.tip, id);
  }

  /** An Epoch that closes between block 0 and the tip has an end block. */
  lemma EndExists(w: World, id: nat) returns (b: Block)
    requires Sound(w) && NonDecreasing(w.chain) && InRange(id)
    requires w.chain(0).timestamp < WindowOf(id).end <= w.tip.timestamp
    ensures EndsAt(w, id, b)
  {
    b := LastBefore(w, WindowOf(id).end, w.tip.number);
  }

  lemma {:induction false} LastBefore(w: World, end: int, n: uint64) returns (b: Block)
    requires Sound(w) && NonDecreasing(w.chain) && n <= w.tip.number
    requires w.chain(0).timestamp < end <= w.chain(n).timestamp
    ensures b.number < n && b == w.chain(b.number)
    ensures b.timestamp < end <= w.chain(b.number + 1).timestamp
    ensures IsLastBefore(w.chain, w.tip.number, end, b)
    decreases n
  {
    if w.chain(n - 1).timestamp < end {
      b := w.chain(n - 1);
    } else {
      b := LastBefore(w, end, n - 1);
    }
  }

  /** An Epoch a walk passed closed no later than its target, and no earlier than block 0. */
  lemma LinkCloses(w: World, target: nat, id: nat, b: Block)
    requires Sound(w) && NonDecreasing(w.chain) && First(w) <= id <= target && EndsAt(w, target, b)
    ensures InRange(id) && w.chain(0).timestamp < WindowOf(id).end <= w.tip.timestamp
  {
    assert w.chain(0).timestamp <= w.chain(w.dist.deployed).timestamp;
    assert w.chain(b.number + 1).timestamp <= w.chain(w.tip.number).timestamp;
  }

  /** Each earlier link of a Walk, with its end block, is one that Compute may give. */
  lemma LinkIsComputed(w: World, target: nat, rs: seq<EpochResult>, k: nat, b: Block)
    requires Sound(w) && Orderly(w.dist.book, w.dist.stream) && SinceDeploy(w)
    requires IsWalk(w, target, rs) && k < |rs| - 1
    requires EndsAt(w, rs[k].epoch, b) && Served(w.dist, rs[k].epoch, b.number + 1)
    ensures IsComputed(w, rs[k].epoch, rs[k].(endBlock := Some(b)))
  {
    hide EndsAt, Orderly, SinceDeploy, IsExpected, Standing, Rolled, SourceAt, Served, Sound, IsResult;
    var links, r := rs[..|rs| - 1], rs[k];
    assert links[k] == r && IsLink(w, links, k);
    LinksBefore(w, links, target, k);
    RolledIsExpected(w, links[..k], r.epoch);
    var expected, from := Rolled(w, links[..k], r.epoch), SourceAt(w, links[..k], r.epoch);
    LinkFields(w, r.epoch, r.posted, expected, from, r);
    BlockMakesNoOdds(w, r.epoch, r.posted, expected, from, r, Some(b));
  }

  /** The last Result of a Walk is one that Compute may give. */
  lemma WalkIsComputed(w: World, target: nat, rs: seq<EpochResult>)
    requires Sound(w) && Orderly(w.dist.book, w.dist.stream) && SinceDeploy(w) && IsWalk(w, target, rs)
    ensures IsComputed(w, target, rs[|rs| - 1])
  {
    hide IsResult, EndsAt, Orderly, SinceDeploy, IsLinks, Standing, Served;
    var links, last := rs[..|rs| - 1], rs[|rs| - 1];
    LinkFields(w, target, Standing(w.dist.book, w.dist.stream, target), Rolled(w, links, target),
               SourceAt(w, links, target), last);
    RolledIsExpected(w, links, target);
  }

  lemma RolledIsExpected(w: World, links: seq<EpochResult>, id: nat)
    requires Sound(w) && Orderly(w.dist.book, w.dist.stream) && SinceDeploy(w)
    requires IsLinks(w, links, id) && First(w) <= id
    ensures IsExpected(w, id, Rolled(w, links, id), SourceAt(w, links, id))
  {
    hide Orderly, PreviousOf, SinceDeploy, IsResult, Standing, Sound, Ascending, Plus, IsExpected, Rolled, SourceAt,
      First;
    LastIsPrevious(w, links, id);
    RolledFrom(w, links, id);
    if links == [] {
      NothingExpected(w, id);
    } else {
      var last := links[|links| - 1];
      var p := last.posted.value;
      var before := links[..|links| - 1];
      assert IsLink(w, links, |links| - 1);
      var r := last.(expectedCarryIn := p.carryIn, carryFrom := OwnPosted);
      ExpectationMakesNoOdds(w, p.id, p, Rolled(w, before, p.id), SourceAt(w, before, p.id), last, r);
      CarriedOn(w, id, p, r);
    }
  }

  lemma RolledFrom(w: World, links: seq<EpochResult>, id: nat)
    requires Sound(w) && First(w) <= id && (links != [] ==> links[|links| - 1].epoch < id)
    ensures links == [] ==>
      && Rolled(w, links, id) == Plus(w, NOTHING, First(w), id)
      && SourceAt(w, links, id) == CarrySource(None, id - First(w))
    ensures links != [] ==>
      var last := links[|links| - 1];
      && Rolled(w, links, id) == Plus(w, last.carryOut, last.epoch + 1, id)
      && SourceAt(w, links, id) == CarrySource(Some(last.epoch), id - (last.epoch + 1))
  {
    hide Plus, First, Sound;
  }

  lemma NothingExpected(w: World, id: nat)
    requires Sound(w) && PreviousOf(w.dist.book, w.dist.stream, id).None? && First(w) <= id
    ensures IsExpected(w, id, Plus(w, NOTHING, First(w), id), CarrySource(None, id - First(w)))
  {
    hide PreviousOf, Plus, Sound, First;
  }

  lemma CarriedOn(w: World, id: nat, p: RootPosted, r: EpochResult)
    requires Sound(w) && PreviousOf(w.dist.book, w.dist.stream, id) == Some(p) && p.id < id
    requires IsResult(w, p.id, Some(p), p.carryIn, OwnPosted, r)
    ensures IsExpected(w, id, Plus(w, r.carryOut, p.id + 1, id), CarrySource(Some(p.id), id - (p.id + 1)))
  {
    hide PreviousOf, Plus, Sound, IsResult;
  }

  /** A rooted Epoch is computed over its posted carryIn, whatever is expected of it. */
  lemma ExpectationMakesNoOdds(w: World, id: nat, p: RootPosted, e: Five, from: CarrySource,
                               r: EpochResult, s: EpochResult)
    requires IsResult(w, id, Some(p), e, from, r) && s == r.(expectedCarryIn := p.carryIn, carryFrom := OwnPosted)
    ensures IsResult(w, id, Some(p), p.carryIn, OwnPosted, s)
  {
    hide Closes;
    var hs :| Closes(w, id, hs) && Allocates(w, ParamsOf(w, id, r.carryIn), hs, r);
    assert Allocates(w, ParamsOf(w, id, s.carryIn), hs, s);
  }

  /** The last Result of a Walk is what Compute makes of its Epoch, whole. */
  lemma WalkEndsInCompute(w: World, target: nat, rs: seq<EpochResult>, c: EpochResult)
    requires Sound(w) && NonDecreasing(w.chain) && Orderly(w.dist.book, w.dist.stream) && SinceDeploy(w)
    requires IsWalk(w, target, rs) && IsComputed(w, target, c)
    ensures rs[|rs| - 1] == c
  {
    hide IsResult, EndsAt, Orderly, SinceDeploy, IsExpected, IsLinks, Standing, Rolled, SourceAt, Served;
    var links, last := rs[..|rs| - 1], rs[|rs| - 1];
    ExpectedIsRolled(w, links, target, c.expectedCarryIn, c.carryFrom);
    SameResult(w, target, Standing(w.dist.book, w.dist.stream, target), c.expectedCarryIn, c.carryFrom, last, c);
    SameEndBlock(w, target, last.endBlock.value, c.endBlock.value);
    assert last == last.(endBlock := None).(endBlock := last.endBlock);
    assert c == c.(endBlock := None).(endBlock := c.endBlock);
  }

  /** Each earlier link of a Walk is what Compute makes of its Epoch, but for the end block. */
  lemma LinksAreComputes(w: World, target: nat, rs: seq<EpochResult>, k: nat, c: EpochResult)
    requires Sound(w) && Orderly(w.dist.book, w.dist.stream) && SinceDeploy(w)
    requires IsWalk(w, target, rs) && k < |rs| - 1 && IsComputed(w, rs[k].epoch, c)
    ensures rs[k] == c.(endBlock := None)
  {
    hide IsResult, EndsAt, Orderly, SinceDeploy, IsExpected, Standing, Rolled, SourceAt, Served;
    var links := rs[..|rs| - 1];
    var r := rs[k];
    assert links[k] == r && IsLink(w, links, k);
    LinksBefore(w, links, target, k);
    ExpectedIsRolled(w, links[..k], r.epoch, c.expectedCarryIn, c.carryFrom);
    SameResult(w, r.epoch, r.posted, c.expectedCarryIn, c.carryFrom, r, c);
  }

  /** As long as no Root stands, an Epoch is expected to carry the funding of every Epoch from the deploy's own on.
      The one after the deploy is expected to carry just what the deploy's was funded with. */
  lemma DeployFundingCarried(w: World, e: nat, id: nat, carry: Five, from: CarrySource, t: nat)
    requires Sound(w) && Orderly(w.dist.book, w.dist.stream) && IsDeployEpoch(w, e) && e < id && t < 5
    requires forall i: nat :: i < id ==> Standing(w.dist.book, w.dist.stream, i).None?
    requires IsExpected(w, id, carry, from)
    ensures from == CarrySource(None, id - e)
    ensures carry[t] == w.dist.book(e).funded[t] + Funding(w, e + 1, id, t)
    ensures id == e + 1 ==> carry[t] == w.dist.book(e).funded[t]
  {
    hide IsResult, Standing, Orderly, PreviousOf;
    PreviousIsFound(w.dist.book, w.dist.stream, id);
    assert First(w) == e;
    FundingSplit(w, e, e + 1, id, t);
    assert Funding(w, e, e + 1, t) == Funding(w, e, e, t) + w.dist.book(e).funded[t];
  }

  // ------------------------------------------------------------------ conservation over a Walk

  function SumTotals(rs: seq<EpochResult>, t: nat): int
    requires t < 5
  {
    if rs == [] then 0 else SumTotals(rs[..|rs| - 1], t) + rs[|rs| - 1].totals[t]
  }

  /** How far the posted carryIns are above the expected ones, in all. */
  function Excess(rs: seq<EpochResult>, t: nat): int
    requires t < 5
  {
    if rs == [] then 0 else Excess(rs[..|rs| - 1], t) + rs[|rs| - 1].carryIn[t] - rs[|rs| - 1].expectedCarryIn[t]
  }

  lemma {:induction false} FundingSplit(w: World, lo: nat, mid: nat, hi: nat, t: nat)
    requires lo <= mid <= hi && t < 5
    ensures Funding(w, lo, hi, t) == Funding(w, lo, mid, t) + Funding(w, mid, hi, t)
  {
    if mid < hi {
      FundingSplit(w, lo, mid, hi - 1, t);
    }
  }

  lemma {:induction false} LinksConserve(w: World, links: seq<EpochResult>, id: nat, t: nat)
    requires Sound(w) && IsLinks(w, links, id) && t < 5
    ensures First(w) <= After(w, links)
    ensures SumTotals(links, t) + LastCarry(links)[t] == Funding(w, First(w), After(w, links), t) + Excess(links, t)
    decreases |links|
  {
    hide IsResult, Rolled, SourceAt, Standing, Sound;
    if links != [] {
      var init, last := links[..|links| - 1], links[|links| - 1];
      LinksBefore(w, links, id, |links| - 1);
      LinksConserve(w, init, last.epoch, t);
      assert IsLink(w, links, |links| - 1);
      AddsUp(w, init, last, last.posted, t);
    }
  }

  /** One more Result over what the links before it leave. */
  lemma AddsUp(w: World, links: seq<EpochResult>, r: EpochResult, posted: Option<RootPosted>, t: nat)
    requires Sound(w) && t < 5 && First(w) <= After(w, links) <= r.epoch
    requires IsResult(w, r.epoch, posted, Rolled(w, links, r.epoch), SourceAt(w, links, r.epoch), r)
    requires SumTotals(links, t) + LastCarry(links)[t] == Funding(w, First(w), After(w, links), t) + Excess(links, t)
    ensures SumTotals(links + [r], t) + r.carryOut[t] == Funding(w, First(w), r.epoch + 1, t) + Excess(links + [r], t)
  {
    var expected, from := Rolled(w, links, r.epoch), SourceAt(w, links, r.epoch);
    ResultConserves(w, r.epoch, posted, expected, from, r, t);
    LinkFields(w, r.epoch, posted, expected, from, r);
    hide IsResult;
    assert expected[t] == LastCarry(links)[t] + Funding(w, After(w, links), r.epoch, t);
    FundingSplit(w, First(w), After(w, links), r.epoch, t);
    assert (links + [r])[..|links|] == links;
  }

  /** Over a Walk, per token, everything allocated and what is carried out at the end is everything
      funded since deploy and what the posted carryIns overstate. */
  lemma WalkConserves(w: World, target: nat, rs: seq<EpochResult>, t: nat)
    requires Sound(w) && IsWalk(w, target, rs) && t < 5
    ensures SumTotals(rs, t) + rs[|rs| - 1].carryOut[t] == Funding(w, First(w), target + 1, t) + Excess(rs, t)
    ensures rs[|rs| - 1].carryOut[t] >= 0
  {
    hide IsResult, Rolled, SourceAt, Standing, EndsAt, Served;
    var links, last := rs[..|rs| - 1], rs[|rs| - 1];
    var posted := Standing(w.dist.book, w.dist.stream, target);
    LinkFields(w, target, posted, Rolled(w, links, target), SourceAt(w, links, target), last);
    LinksConserve(w, links, target, t);
    AddsUp(w, links, last, posted, t);
    assert links + [last] == rs;
  }

  lemma {:induction false} NoExcess(rs: seq<EpochResult>, t: nat)
    requires t < 5 && forall k :: 0 <= k < |rs| ==> rs[k].carryIn == rs[k].expectedCarryIn
    ensures Excess(rs, t) == 0
  {
    if rs != [] {
      NoExcess(rs[..|rs| - 1], t);
    }
  }

  /** When every link was posted with the carryIn expected of it, nothing is made or lost from deploy
      on, and no token ever pays out more than it was funded. */
  lemma HonestWalkConserves(w: World, target: nat, rs: seq<EpochResult>, t: nat)
    requires Sound(w) && IsWalk(w, target, rs) && t < 5
    requires forall k :: 0 <= k < |rs| ==> rs[k].carryIn == rs[k].expectedCarryIn
    ensures SumTotals(rs, t) + rs[|rs| - 1].carryOut[t] == Funding(w, First(w), target + 1, t)
    ensures SumTotals(rs, t) <= Funding(w, First(w), target + 1, t)
  {
    WalkConserves(w, target, rs, t);
    NoExcess(rs, t);
  }
}
