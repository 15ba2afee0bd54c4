/** The walk over a sorted history: standings that accrue lazily, judged once a block is complete. */
module Replay {
  import opened Wrappers
  import opened History
  import Sorting

  /** Why a history is unusable, and the timestamp at which that shows. */
  datatype Fault =
    | NilValue(index: nat, at: int)
    | NegativeValue(index: nat, at: int)
    | Overdrawn(account: Address, balance: int, at: int)

  datatype Error =
    | Rejected(fault: Fault)
    | Closed(epoch: nat, floor: nat)

  // ------------------------------------------------------------------ values of a standing

  /** A standing's fields at one moment. */
  datatype Snapshot = Snapshot(
    balance: int, since: int, weighted: int, bought: bool, firstBuyAt: int, lastSellAt: int, listed: bool)

  /** An address never seen. */
  const FRESH: Snapshot := Snapshot(0, 0, 0, false, 0, 0, false)

  function Listed(v: Snapshot, start: int): Snapshot {
    if v.listed then v else v.(listed := true, since := start)
  }

  function Accrued(v: Snapshot, ts: int): Snapshot {
    if ts <= v.since then v else v.(weighted := v.weighted + (ts - v.since) * v.balance, since := ts)
  }

  function Debited(v: Snapshot, start: int, tr: Transfer): Snapshot {
    var u := Accrued(Listed(v, start), tr.timestamp);
    u.(balance := u.balance - Amount(tr), lastSellAt := tr.timestamp)
  }

  function Credited(v: Snapshot, start: int, tr: Transfer): Snapshot {
    var u := Accrued(Listed(v, start), tr.timestamp);
    var u' := u.(balance := u.balance + Amount(tr));
    if u'.bought then u' else u'.(bought := true, firstBuyAt := tr.timestamp)
  }

  /** What one transfer does to the standing of a. */
  function AfterApply(v: Snapshot, a: Address, start: int, tr: Transfer): Snapshot {
    var u := if Sent(tr, a) then Debited(v, start, tr) else v;
    if Received(tr, a) then Credited(u, start, tr) else u
  }

  /** What opening a window does to a standing that is on the active list. */
  function Reopened(v: Snapshot, start: int): Snapshot {
    if !v.listed then v else v.(weighted := 0, since := start, listed := v.balance != 0)
  }

  // ------------------------------------------------------------------ what a standing means

  ghost predicate QuietAfter(h: seq<Transfer>, a: Address, t: int) {
    forall k :: 0 <= k < |h| && Touches(h[k], a) ==> h[k].timestamp <= t
  }

  /** v is what the history h makes of a in a window opening at start, accrued no further than now. */
  ghost predicate Agrees(v: Snapshot, h: seq<Transfer>, a: Address, start: int, now: int) {
    && v.balance == Balance(h, a)
    && v.bought == FirstBuy(h, a).Some?
    && v.firstBuyAt == FirstBuy(h, a).GetOr(0)
    && v.lastSellAt == LastSell(h, a).GetOr(0)
    && if v.listed then
         && start <= v.since <= Max(start, now)
         && v.weighted == Integral(h, a, start, v.since)
         && QuietAfter(h, a, v.since)
       else
         && v.balance == 0 && v.weighted == 0
         && QuietAfter(h, a, start - 1)
  }

  /** Once nothing more touches a, its balance stands still. */
  lemma {:induction false} BalanceSteady(h: seq<Transfer>, a: Address, s: int)
    requires QuietAfter(h, a, s)
    ensures BalanceAt(h, a, s) == Balance(h, a)
  {
    if h != [] {
      var init, last := h[..|h| - 1], h[|h| - 1];
      assert QuietAfter(init, a, s);
      BalanceSteady(init, a, s);
      if last.timestamp <= s {
        var b := Before(init, s + 1);
        assert Before(h, s + 1) == b + [last];
        assert (b + [last])[..|b|] == b;
      } else {
        assert Before(h, s + 1) == Before(init, s + 1);
        assert !Touches(last, a);
      }
    }
  }

  lemma OneMore(n: int, b: int)
    ensures n * b == (n - 1) * b + b
  {
  }

  /** Seconds through which the balance stands still add that many balances. */
  lemma {:induction false} IntegralSteady(h: seq<Transfer>, a: Address, lo: int, mid: int, hi: int)
    requires lo <= mid <= hi && QuietAfter(h, a, mid)
    ensures Integral(h, a, lo, hi) == Integral(h, a, lo, mid) + (hi - mid) * Balance(h, a)
    decreases hi - mid
  {
    if mid < hi {
      var b := Balance(h, a);
      IntegralSteady(h, a, lo, mid, hi - 1);
      assert QuietAfter(h, a, hi - 1);
      BalanceSteady(h, a, hi - 1);
      OneMore(hi - mid, b);
    }
  }

  /** A transfer adds nothing to the seconds before it, nor to an address it does not touch. */
  lemma {:induction false} IntegralAppend(h: seq<Transfer>, tr: Transfer, a: Address, lo: int, hi: int)
    requires hi <= tr.timestamp || hi <= lo || Delta(tr, a) == 0
    ensures Integral(h + [tr], a, lo, hi) == Integral(h, a, lo, hi)
    decreases hi - lo
  {
    if lo < hi {
      IntegralAppend(h, tr, a, lo, hi - 1);
      assert (h + [tr])[..|h|] == h;
      if tr.timestamp < hi {
        assert (Before(h, hi) + [tr])[..|Before(h, hi)|] == Before(h, hi);
      } else {
        assert Before(h + [tr], hi) == Before(h, hi);
      }
    }
  }

  lemma AccrueAgrees(v: Snapshot, h: seq<Transfer>, a: Address, start: int, ts: int)
    requires Agrees(v, h, a, start, ts)
    ensures
      var u := Accrued(Listed(v, start), ts);
      && u.listed && u.since == Max(start, ts)
      && u.weighted == Integral(h, a, start, u.since)
      && QuietAfter(h, a, u.since)
      && Agrees(u, h, a, start, ts)
  {
    var w := Listed(v, start);
    if w.since < ts {
      IntegralSteady(h, a, start, w.since, ts);
    }
  }

  /** The records of buying and selling after one more transfer. */
  lemma ApplyTimes(h: seq<Transfer>, a: Address, tr: Transfer)
    requires forall k :: 0 <= k < |h| ==> h[k].timestamp <= tr.timestamp
    ensures FirstBuy(h + [tr], a) ==
      if Received(tr, a) && FirstBuy(h, a).None? then Some(tr.timestamp) else FirstBuy(h, a)
    ensures LastSell(h + [tr], a) == if Sent(tr, a) then Some(tr.timestamp) else LastSell(h, a)
    ensures Balance(h + [tr], a) == Balance(h, a) + Delta(tr, a)
  {
    assert (h + [tr])[..|h|] == h;
    FirstBuyIsEarliest(h, a);
    LastSellIsLatest(h, a);
  }

  lemma QuietAppend(h: seq<Transfer>, a: Address, tr: Transfer, t: int)
    requires QuietAfter(h, a, t) && (Touches(tr, a) ==> tr.timestamp <= t)
    ensures QuietAfter(h + [tr], a, t)
  {
  }

  /** The step both walks take: one transfer keeps a standing in agreement with the history. */
  lemma ApplyAgrees(v: Snapshot, h: seq<Transfer>, a: Address, start: int, tr: Transfer)
    requires Agrees(v, h, a, start, tr.timestamp)
    requires forall k :: 0 <= k < |h| ==> h[k].timestamp <= tr.timestamp
    ensures Agrees(AfterApply(v, a, start, tr), h + [tr], a, start, tr.timestamp)
  {
    ApplyTimes(h, a, tr);
    if Touches(tr, a) {
      AccrueAgrees(v, h, a, start, tr.timestamp);
      IntegralAppend(h, tr, a, start, Max(start, tr.timestamp));
      QuietAppend(h, a, tr, Max(start, tr.timestamp));
    } else if v.listed {
      IntegralAppend(h, tr, a, start, v.since);
      QuietAppend(h, a, tr, v.since);
    } else {
      QuietAppend(h, a, tr, start - 1);
    }
  }

  // ------------------------------------------------------------------ the first fault of a history

  /** The end of the run of transfers sharing the i-th timestamp. */
  function BlockEnd(o: seq<Transfer>, i: nat): (j: nat)
    requires i < |o|
    ensures i < j <= |o|
    ensures forall k :: i <= k < j ==> o[k].timestamp == o[i].timestamp
    ensures j < |o| ==> o[j].timestamp != o[i].timestamp
    decreases |o| - i
  {
    if i + 1 < |o| && o[i + 1].timestamp == o[i].timestamp then BlockEnd(o, i + 1) else i + 1
  }

  function BadValue(tr: Transfer, index: nat): Option<Fault> {
    match tr.value
    case None => Some(NilValue(index, tr.timestamp))
    case Some(x) => if x < 0 then Some(NegativeValue(index, tr.timestamp)) else None
  }

  function FirstBad(o: seq<Transfer>, i: nat, j: nat): Option<Fault>
    requires i <= j <= |o|
    decreases j - i
  {
    if i == j then None
    else if BadValue(o[i], i).Some? then BadValue(o[i], i)
    else FirstBad(o, i + 1, j)
  }

  /** The senders among transfers, in the order they send. */
  function Senders(trs: seq<Transfer>): seq<Address> {
    if trs == [] then []
    else
      var last := trs[|trs| - 1];
      Senders(trs[..|trs| - 1]) + (if Amount(last) > 0 && last.from != ZERO then [last.from] else [])
  }

  function FirstOverdrawn(h: seq<Transfer>, moved: seq<Address>, at: int): Option<Fault> {
    if moved == [] then None
    else if Balance(h, moved[0]) < 0 then Some(Overdrawn(moved[0], Balance(h, moved[0]), at))
    else FirstOverdrawn(h, moved[1..], at)
  }

  function BlockFault(o: seq<Transfer>, i: nat): Option<Fault>
    requires i < |o|
  {
    var j := BlockEnd(o, i);
    var bad := FirstBad(o, i, j);
    if bad.Some? then bad else FirstOverdrawn(o[..j], Senders(o[i..j]), o[i].timestamp)
  }

  /** The first fault met walking o from its i-th transfer, however far the walk goes. */
  function FirstFault(o: seq<Transfer>, i: nat): Option<Fault>
    requires i <= |o|
    decreases |o| - i
  {
    if i == |o| then None
    else if BlockFault(o, i).Some? then BlockFault(o, i)
    else FirstFault(o, BlockEnd(o, i))
  }

  lemma {:induction false} BadKind(o: seq<Transfer>, i: nat, j: nat)
    requires i <= j <= |o| && FirstBad(o, i, j).Some?
    ensures exists k :: i <= k < j && FirstBad(o, i, j).value.at == o[k].timestamp
    decreases j - i
  {
    if BadValue(o[i], i).None? {
      BadKind(o, i + 1, j);
    }
  }

  lemma {:induction false} OverdrawnKind(h: seq<Transfer>, moved: seq<Address>, at: int)
    requires FirstOverdrawn(h, moved, at).Some?
    ensures FirstOverdrawn(h, moved, at).value.at == at
  {
    if Balance(h, moved[0]) >= 0 {
      OverdrawnKind(h, moved[1..], at);
    }
  }

  lemma FaultKind(o: seq<Transfer>, i: nat)
    requires i < |o| && BlockFault(o, i).Some?
    ensures BlockFault(o, i).value.at == o[i].timestamp
  {
    var j := BlockEnd(o, i);
    if FirstBad(o, i, j).Some? {
      BadKind(o, i, j);
    } else {
      OverdrawnKind(o[..j], Senders(o[i..j]), o[i].timestamp);
    }
  }

  lemma {:induction false} FaultNoEarlier(o: seq<Transfer>, i: nat)
    requires Ascending(o) && i < |o| && FirstFault(o, i).Some?
    ensures FirstFault(o, i).value.at >= o[i].timestamp
    decreases |o| - i
  {
    if BlockFault(o, i).Some? {
      FaultKind(o, i);
    } else {
      FaultNoEarlier(o, BlockEnd(o, i));
    }
  }

  /** What closing an Epoch over a history comes to: the fault met before its closing instant, or
      else its Holders. */
  ghost predicate IsOutcome(r: Result<seq<Holder>, Error>, transfers: seq<Transfer>, x: seq<Exclusion>, w: Window) {
    var fault := FirstFault(SortedByTimestamp(transfers), 0);
    if fault.Some? && fault.value.at < w.end then r == Failure(Rejected(fault.value))
    else r.Success? && IsHolders(r.value, transfers, x, w)
  }

  lemma OutcomeUnique(r: Result<seq<Holder>, Error>, s: Result<seq<Holder>, Error>,
                      transfers: seq<Transfer>, x: seq<Exclusion>, w: Window)
    requires IsOutcome(r, transfers, x, w) && IsOutcome(s, transfers, x, w)
    ensures r == s
  {
    if r.Success? && s.Success? {
      HoldersUnique(r.value, s.value, transfers, x, w);
    }
  }

  lemma {:induction false} BlockEndIs(o: seq<Transfer>, i: nat, j: nat)
    requires i < j <= |o| && forall k :: i <= k < j ==> o[k].timestamp == o[i].timestamp
    requires j < |o| ==> o[j].timestamp != o[i].timestamp
    ensures j == BlockEnd(o, i)
    decreases j - i
  {
    if i + 1 < j {
      BlockEndIs(o, i + 1, j);
    }
  }

  lemma {:induction false} FirstBadSplit(o: seq<Transfer>, i: nat, k: nat, j: nat)
    requires i <= k <= j <= |o| && FirstBad(o, i, k).None?
    ensures FirstBad(o, i, j) == FirstBad(o, k, j)
    decreases k - i
  {
    if i < k {
      FirstBadSplit(o, i + 1, k, j);
    }
  }

  /** One more transfer of the block: bad values end it, and good ones leave none behind. */
  lemma BadStep(o: seq<Transfer>, i: nat, j: nat)
    requires i <= j < |o| && FirstBad(o, i, j).None?
    requires forall k :: i <= k <= j ==> o[k].timestamp == o[i].timestamp
    ensures BadValue(o[j], j).None? ==> FirstBad(o, i, j + 1).None?
    ensures BadValue(o[j], j).Some? ==> BlockFault(o, i) == BadValue(o[j], j)
  {
    FirstBadSplit(o, i, j, j + 1);
    if BlockEnd(o, i) > j {
      FirstBadSplit(o, i, j, BlockEnd(o, i));
    }
  }

  lemma SendersStep(o: seq<Transfer>, i: nat, j: nat)
    requires i <= j < |o|
    ensures Senders(o[i..j + 1]) == Senders(o[i..j]) + Senders([o[j]])
  {
    assert o[i..j + 1][..j - i] == o[i..j];
    assert [o[j]][..0] == [];
  }

  lemma ReopenAgrees(v: Snapshot, h: seq<Transfer>, a: Address, start: int, now: int, w: Window)
    requires Agrees(v, h, a, start, now) && AllBefore(h, w.start)
    ensures Agrees(Reopened(v, w.start), h, a, w.start, w.start)
  {
  }

  /** A standing closed at the end of its window reduces to the Holder its history makes of it. */
  lemma CloseAgrees(v: Snapshot, h: seq<Transfer>, a: Address, w: Window)
    requires w.start <= w.end && Agrees(v, h, a, w.start, w.end)
    ensures Agrees(if v.listed then Accrued(v, w.end) else v, h, a, w.start, w.end)
    ensures !v.listed ==> Twab(h, a, w) == 0
    ensures v.listed ==>
      var r := Reduced(a, Accrued(v, w.end));
      (r.twab > 0 <==> Twab(h, a, w) > 0) && (r.twab > 0 ==> r == HolderOf(h, a, w))
  {
    if v.listed {
      AccrueAgrees(v, h, a, w.start, w.end);
    } else {
      IntegralSteady(h, a, w.start, w.start, w.end);
    }
  }

  // ------------------------------------------------------------------ the state of the walk

  class Standing {
    var balance: int
    var since: int
    var weighted: int
    var bought: bool
    var firstBuyAt: int
    var lastSellAt: int
    var listed: bool

    constructor ()
      ensures View() == FRESH
    {
      balance, since, weighted, bought, firstBuyAt, lastSellAt, listed := 0, 0, 0, false, 0, 0, false;
    }

    function View(): Snapshot
      reads this
    {
      Snapshot(balance, since, weighted, bought, firstBuyAt, lastSellAt, listed)
    }

    method AccrueTo(ts: int)
      modifies this
      ensures View() == Accrued(old(View()), ts)
    {
      if ts <= since {
        return;
      }
      weighted := weighted + (ts - since) * balance;
      since := ts;
    }
  }

  /** Go's big.Int Quo, which truncates toward zero. */
  function Quo(x: int, y: int): int
    requires y > 0
  {
    if x < 0 then -((-x) / y) else x / y
  }

  /** The Holder a closed standing reduces to. */
  function Reduced(a: Address, v: Snapshot): Holder {
    Holder(a, Quo(v.weighted, EPOCH_SECONDS), v.firstBuyAt, v.lastSellAt)
  }

  class ReplayState {
    var window: Window
    var balances: map<Address, Standing>
    var active: seq<Address>
    var moved: seq<Address>

    constructor (w: Window)
      ensures Valid() && fresh(balances.Values)
      ensures window == w && moved == []
      ensures forall a: Address :: Look(a) == FRESH
    {
      window, balances, active, moved := w, map[], [], [];
    }

    ghost predicate Valid()
      reads this, balances.Values
    {
      && ZERO !in balances
      && (forall a, b :: a in balances && b in balances && a != b ==> balances[a] != balances[b])
      && (forall i, j :: 0 <= i < j < |active| ==> active[i] != active[j])
      && (forall a :: a in active ==> a in balances)
      && (forall a :: a in balances ==> (balances[a].listed <==> a in active))
      && (forall a :: a in moved ==> a in balances)
    }

    /** The standing of a, whether or not a has been seen. */
    function Look(a: Address): Snapshot
      reads this`balances, balances.Values
    {
      if a in balances then balances[a].View() else FRESH
    }

    /** Every standing agrees with the history h. */
    ghost predicate Tracks(h: seq<Transfer>, now: int)
      reads this`window, this`balances, balances.Values
    {
      forall a: Address :: a != ZERO ==> Agrees(Look(a), h, a, window.start, now)
    }

    /** The standing of a, listed, created holding nothing if need be. */
    method At(a: Address) returns (s: Standing)
      requires Valid() && a != ZERO
      modifies this, balances.Values
      ensures Valid() && fresh(balances.Values - old(balances.Values))
      ensures window == old(window) && moved == old(moved)
      ensures a in balances && s == balances[a] && s.listed
      ensures forall b: Address :: Look(b) == if b == a then Listed(old(Look(a)), window.start) else old(Look(b))
    {
      if a !in balances {
        s := new Standing();
        balances := balances[a := s];
      } else {
        s := balances[a];
      }
      if !s.listed {
        s.listed, s.since := true, window.start;
        active := active + [a];
      }
    }

    method Debit(tr: Transfer)
      requires Valid() && Amount(tr) > 0 && tr.from != ZERO
      modifies this, balances.Values
      ensures Valid() && fresh(balances.Values - old(balances.Values))
      ensures window == old(window) && moved == old(moved) + [tr.from]
      ensures forall a: Address ::
        Look(a) == if tr.from == a then Debited(old(Look(a)), window.start, tr) else old(Look(a))
    {
      var from := At(tr.from);
      from.AccrueTo(tr.timestamp);
      from.balance := from.balance - tr.value.value;
      from.lastSellAt := tr.timestamp;
      moved := moved + [tr.from];
    }

    method Credit(tr: Transfer)
      requires Valid() && Amount(tr) > 0 && tr.to != ZERO
      modifies this, balances.Values
      ensures Valid() && fresh(balances.Values - old(balances.Values))
      ensures window == old(window) && moved == old(moved)
      ensures forall a: Address ::
        Look(a) == if tr.to == a then Credited(old(Look(a)), window.start, tr) else old(Look(a))
    {
      var to := At(tr.to);
      to.AccrueTo(tr.timestamp);
      to.balance := to.balance + tr.value.value;
      if !to.bought {
        to.bought, to.firstBuyAt := true, tr.timestamp;
      }
    }

    method Apply(tr: Transfer, index: nat) returns (e: Option<Fault>)
      requires Valid()
      modifies this, balances.Values
      ensures Valid() && fresh(balances.Values - old(balances.Values))
      ensures window == old(window)
      ensures e == BadValue(tr, index)
      ensures moved == old(moved) + Senders([tr])
      ensures forall a: Address :: a != ZERO ==> Look(a) == AfterApply(old(Look(a)), a, window.start, tr)
    {
      assert [tr][..0] == [];
      if tr.value.None? {
        return Some(NilValue(index, tr.timestamp));
      }
      if tr.value.value < 0 {
        return Some(NegativeValue(index, tr.timestamp));
      }
      e := None;
      if tr.value.value == 0 {
        return;
      }
      if tr.from != ZERO {
        Debit(tr);
      }
      if tr.to != ZERO {
        Credit(tr);
      }
    }

    /** Judges the block just applied. */
    method Settle(ghost h: seq<Transfer>, ts: int) returns (e: Option<Fault>)
      requires Valid() && Tracks(h, ts)
      modifies this`moved
      ensures Valid() && Tracks(h, ts)
      ensures e == FirstOverdrawn(h, old(moved), ts)
      ensures e.None? ==> moved == []
    {
      var k := 0;
      while k < |moved|
        invariant 0 <= k <= |moved|
        invariant FirstOverdrawn(h, moved, ts) == FirstOverdrawn(h, moved[k..], ts)
      {
        var account := moved[k];
        assert Look(account).balance == Balance(h, account);
        if balances[account].balance < 0 {
          return Some(Overdrawn(account, balances[account].balance, ts));
        }
        assert moved[k..][1..] == moved[k + 1..];
        k := k + 1;
      }
      moved := [];
      e := None;
    }

    /** The walk stands before the i-th transfer of o with no fault behind it. */
    ghost predicate Walked(o: seq<Transfer>, i: nat)
      reads this, balances.Values
    {
      && Valid() && moved == []
      && i <= |o| && Ascending(o) && AllBefore(o[..i], window.end)
      && Tracks(o[..i], if i < |o| then Min(o[i].timestamp, window.end) else window.end)
      && FirstFault(o, 0) == FirstFault(o, i)
    }

    /** Everything below end has been walked, with no fault: it is the first i transfers of o. */
    ghost predicate Settled(o: seq<Transfer>, i: nat, end: int)
      reads this, balances.Values
    {
      && Valid() && moved == []
      && i <= |o| && AllBefore(o[..i], end)
      && Tracks(o[..i], end)
      && FirstFault(o, 0) == FirstFault(o, i)
    }

    /** Applies every transfer that shares the i-th timestamp, then settles. */
    method Block(o: seq<Transfer>, i: nat) returns (j: nat, e: Option<Fault>)
      requires Walked(o, i) && i < |o| && o[i].timestamp < window.end
      modifies this, balances.Values
      ensures Valid() && fresh(balances.Values - old(balances.Values))
      ensures window == old(window)
      ensures e.None? ==> i < j && Walked(o, j)
      ensures e.Some? ==> e == FirstFault(o, 0) && e.value.at < window.end
    {
      j, e := ApplyBlock(o, i);
      if e.Some? {
        FaultKind(o, i);
      }
    }

    method ApplyNext(o: seq<Transfer>, j: nat) returns (e: Option<Fault>)
      requires Valid() && Ascending(o) && j < |o|
      requires Tracks(o[..j], o[j].timestamp)
      modifies this, balances.Values
      ensures Valid() && fresh(balances.Values - old(balances.Values))
      ensures window == old(window) && moved == old(moved) + Senders([o[j]])
      ensures e == BadValue(o[j], j)
      ensures Tracks(o[..j + 1], o[j].timestamp)
    {
      e := Apply(o[j], j);
      assert o[..j + 1] == o[..j] + [o[j]];
      forall a: Address | a != ZERO ensures Agrees(Look(a), o[..j + 1], a, window.start, o[j].timestamp) {
        ApplyAgrees(old(Look(a)), o[..j], a, window.start, o[j]);
      }
    }

    /** Applies the transfers sharing the i-th timestamp, up to the first bad value. */
    method ApplyRun(o: seq<Transfer>, i: nat) returns (j: nat, e: Option<Fault>)
      requires Valid() && Ascending(o) && i < |o| && moved == []
      requires Tracks(o[..i], o[i].timestamp)
      modifies this, balances.Values
      ensures Valid() && fresh(balances.Values - old(balances.Values))
      ensures window == old(window)
      ensures e.Some? ==> e == BlockFault(o, i)
      ensures e.None? ==>
        && j == BlockEnd(o, i) && FirstBad(o, i, j).None?
        && moved == Senders(o[i..j]) && Tracks(o[..j], o[i].timestamp)
    {
      hide Tracks, Valid, BlockFault, BlockEnd;
      var ts := o[i].timestamp;
      j := i;
      assert o[i..i] == [];
      while j < |o| && o[j].timestamp == ts
        invariant i <= j <= |o|
        invariant j == i ==> j < |o|
        invariant forall k :: i <= k < j ==> o[k].timestamp == ts
        invariant Valid() && fresh(balances.Values - old(balances.Values))
        invariant window == old(window)
        invariant Tracks(o[..j], ts)
        invariant moved == Senders(o[i..j])
        invariant FirstBad(o, i, j).None?
      {
        e := ApplyNext(o, j);
        BadStep(o, i, j);
        if e.Some? {
          return;
        }
        SendersStep(o, i, j);
        j := j + 1;
      }
      BlockEndIs(o, i, j);
      e := None;
    }

    method ApplyBlock(o: seq<Transfer>, i: nat) returns (j: nat, e: Option<Fault>)
      requires Valid() && Ascending(o) && i < |o| && moved == []
      requires Tracks(o[..i], o[i].timestamp)
      modifies this, balances.Values
      ensures Valid() && fresh(balances.Values - old(balances.Values))
      ensures window == old(window)
      ensures e == BlockFault(o, i)
      ensures e.None? ==> j == BlockEnd(o, i) && moved == [] && Tracks(o[..j], o[i].timestamp)
    {
      j, e := ApplyRun(o, i);
      if e.None? {
        e := Settle(o[..j], o[i].timestamp);
      }
    }

    /** The Holder a listed, included address of the window reduces to. */
    function Closing(a: Address): Holder
      reads this`window, this`balances, balances.Values
    {
      Reduced(a, Accrued(Look(a), window.end))
    }

    /** Closes one open sub-interval, and divides the whole sum once. */
    method CloseOne(account: Address) returns (r: Holder)
      requires Valid() && account in balances
      modifies balances[account]
      ensures Valid()
      ensures forall a: Address ::
        Look(a) == (if a == account then Accrued(old(Look(a)), window.end) else old(Look(a)))
      ensures r == old(Closing(account))
    {
      var s := balances[account];
      s.AccrueTo(window.end);
      r := Holder(account, Quo(s.weighted, EPOCH_SECONDS), s.firstBuyAt, s.lastSellAt);
    }

    /** The eligible Holders, in the order their addresses were listed. */
    method Reduce(excluded: seq<Address>) returns (out: seq<Holder>)
      requires Valid()
      modifies balances.Values
      ensures Valid()
      ensures forall a: Address ::
        Look(a) == (if a in active && a !in excluded then Accrued(old(Look(a)), window.end) else old(Look(a)))
      ensures Sorting.DistinctBy(out, (r: Holder) => r.account)
      ensures forall r :: r in out ==>
        r.account in active && r.account !in excluded && r == old(Closing(r.account)) && r.twab > 0
      ensures forall a :: a in active && a !in excluded && old(Closing(a)).twab > 0 ==> old(Closing(a)) in out
    {
      out := [];
      var k := 0;
      while k < |active|
        invariant 0 <= k <= |active|
        invariant Valid()
        invariant forall a: Address ::
          Look(a) == (if a in active[..k] && a !in excluded then Accrued(old(Look(a)), window.end) else old(Look(a)))
        invariant Sorting.DistinctBy(out, (r: Holder) => r.account)
        invariant forall r :: r in out ==>
          r.account in active[..k] && r.account !in excluded && r == old(Closing(r.account)) && r.twab > 0
        invariant forall a :: a in active[..k] && a !in excluded && old(Closing(a)).twab > 0 ==> old(Closing(a)) in out
      {
        var account := active[k];
        assert active[..k + 1] == active[..k] + [account];
        assert account !in active[..k];
        if account !in excluded {
          assert Closing(account) == old(Closing(account));
          var holder := CloseOne(account);
          if holder.twab > 0 {
            out := out + [holder];
          }
        }
        k := k + 1;
      }
      assert active[..k] == active;
    }

    /** The Holders of the window the walk over h has closed. */
    method Holders(excluded: seq<Address>, ghost h: seq<Transfer>, ghost x: seq<Exclusion>) returns (hs: seq<Holder>)
      requires Valid() && window.start <= window.end && Tracks(h, window.end) && AllBefore(h, window.end)
      requires forall a: Address :: a in excluded <==> Excluded(x, a, window.end)
      modifies balances.Values
      ensures Valid() && Tracks(h, window.end)
      ensures IsHolders(hs, h, x, window)
    {
      var out := Reduce(excluded);
      hs := Sorting.SortBy(out, (r: Holder) => r.account);
      Sorting.SortDistinct(out, (r: Holder) => r.account);
      Sorting.SortKeepsElements(out, (r: Holder) => r.account);
      BeforeAll(h, window.end);
      forall a: Address | a != ZERO
        ensures Agrees(Look(a), h, a, window.start, window.end)
        ensures Eligible(h, x, a, window) ==> HolderOf(h, a, window) in hs
      {
        CloseAgrees(old(Look(a)), h, a, window);
      }
      forall r | r in hs
        ensures Eligible(h, x, r.account, window) && r == HolderOf(h, r.account, window)
      {
        CloseAgrees(old(Look(r.account)), h, r.account, window);
      }
    }

    method Restart(account: Address, start: int)
      requires account in balances && balances[account].listed
      requires forall a, b :: a in balances && b in balances && a != b ==> balances[a] != balances[b]
      modifies balances[account]
      ensures forall a: Address ::
        Look(a) == (if a == account then Reopened(old(Look(a)), start) else old(Look(a)))
    {
      var s := balances[account];
      s.weighted, s.since := 0, start;
      if s.balance == 0 {
        s.listed := false;
      }
    }

    /** Starts a new window: listed accruals restart at its opening, and those holding nothing leave
        the list until a transfer touches them again. */
    method Open(w: Window, ghost h: seq<Transfer>, ghost now: int)
      requires Valid() && Tracks(h, now) && AllBefore(h, w.start)
      modifies this`window, this`active, balances.Values
      ensures Valid() && window == w
      ensures Tracks(h, w.start)
      ensures forall a :: a in active ==> Look(a).balance != 0
    {
      window := w;
      var kept: seq<Address> := [];
      var k := 0;
      while k < |active|
        invariant 0 <= k <= |active| && active == old(active) && window == w
        invariant forall a: Address ::
          Look(a) == (if a in active[..k] then Reopened(old(Look(a)), w.start) else old(Look(a)))
        invariant forall i, j :: 0 <= i < j < |kept| ==> kept[i] != kept[j]
        invariant forall a :: a in kept <==> a in active[..k] && old(Look(a)).balance != 0
      {
        var account := active[k];
        assert active[..k + 1] == active[..k] + [account];
        assert account !in active[..k];
        assert Look(account).listed;
        Restart(account, w.start);
        if balances[account].balance != 0 {
          kept := kept + [account];
        }
        k := k + 1;
      }
      assert active[..k] == active;
      forall a: Address | a != ZERO ensures Agrees(Look(a), h, a, w.start, w.start) {
        ReopenAgrees(old(Look(a)), h, a, old(window).start, now, w);
        assert a !in active ==> !old(Look(a)).listed;
      }
      active := kept;
    }

    /** Every block from the i-th transfer to the end of the window: the walk Replay makes from the
        start and the Ledger resumes. */
    method Run(o: seq<Transfer>, i: nat) returns (j: nat, e: Option<Fault>)
      requires Walked(o, i)
      modifies this, balances.Values
      ensures Valid() && fresh(balances.Values - old(balances.Values))
      ensures window == old(window)
      ensures e.None? ==> Walked(o, j) && (j < |o| ==> o[j].timestamp >= window.end)
      ensures e.Some? ==> e == FirstFault(o, 0) && e.value.at < window.end
    {
      j, e := i, None;
      while j < |o| && o[j].timestamp < window.end
        invariant Walked(o, j) && window == old(window)
        invariant fresh(balances.Values - old(balances.Values))
        decreases |o| - j
      {
        j, e := Block(o, j);
        if e.Some? {
          return;
        }
      }
      e := None;
    }

    /** The window's Holders once the walk over the sorted history has stopped at its end. */
    method Close(o: seq<Transfer>, i: nat, exclusions: seq<Exclusion>, ghost transfers: seq<Transfer>)
      returns (hs: seq<Holder>)
      requires Walked(o, i) && (i < |o| ==> o[i].timestamp >= window.end) && window.start <= window.end
      requires o == SortedByTimestamp(transfers)
      modifies balances.Values
      ensures Valid() && Tracks(o[..i], window.end) && moved == []
      ensures IsOutcome(Success(hs), transfers, exclusions, window)
    {
      var excluded := ExcludedAsOf(window, exclusions);
      NoFaultBehind(o, i, window.end);
      hs := Holders(excluded, o[..i], exclusions);
      HoldersOfPrefix(hs, transfers, i, exclusions, window);
    }

    /** Walks from the i-th transfer to the end of the window and closes it. */
    method Finish(o: seq<Transfer>, i: nat, exclusions: seq<Exclusion>, ghost transfers: seq<Transfer>)
      returns (j: nat, r: Result<seq<Holder>, Error>)
      requires Walked(o, i) && window.start <= window.end && o == SortedByTimestamp(transfers)
      modifies this, balances.Values
      ensures Valid() && fresh(balances.Values - old(balances.Values))
      ensures IsOutcome(r, transfers, exclusions, old(window))
      ensures r.Failure? ==> r.error.Rejected? && FirstFault(o, 0) == Some(r.error.fault)
      ensures r.Success? ==> Settled(o, j, old(window).end)
    {
      var e;
      j, e := Run(o, i);
      if e.Some? {
        return j, Failure(Rejected(e.value));
      }
      var hs := Close(o, j, exclusions, transfers);
      r := Success(hs);
    }

    /** Opens w over a walk that has stopped before it, which stands where Replay's would. */
    method Resume(w: Window, ghost o: seq<Transfer>, ghost i: nat, ghost now: int)
      requires Settled(o, i, now) && Ascending(o) && now <= w.start <= w.end
      modifies this`window, this`active, balances.Values
      ensures Walked(o, i) && window == w
    {
      Open(w, o[..i], now);
    }
  }

  // ------------------------------------------------------------------ the two entry points

  /** The Excluded set of an Epoch, ascending and without repeats. */
  method ExcludedAsOf(w: Window, exclusions: seq<Exclusion>) returns (r: seq<Address>)
    ensures Sorting.StrictlySortedBy(r, (a: Address) => a)
    ensures forall a: Address :: a in r <==> Excluded(exclusions, a, w.end)
  {
    var seen: set<Address> := {};
    var list: seq<Address> := [];
    var i := 0;
    while i < |exclusions|
      invariant 0 <= i <= |exclusions|
      invariant forall a :: a in seen <==> a in list
      invariant forall a: Address :: a in list <==> Excluded(exclusions[..i], a, w.end)
      invariant Sorting.DistinctBy(list, (a: Address) => a)
    {
      var e := exclusions[i];
      assert exclusions[..i + 1] == exclusions[..i] + [e];
      ExcludedStep(exclusions, i, w.end);
      if e.timestamp < w.end && e.account !in seen {
        seen := seen + {e.account};
        list := list + [e.account];
      }
      i := i + 1;
    }
    assert exclusions[..i] == exclusions;
    r := Sorting.SortBy(list, (a: Address) => a);
    Sorting.SortDistinct(list, (a: Address) => a);
    Sorting.SortKeepsElements(list, (a: Address) => a);
  }

  lemma ExcludedStep(x: seq<Exclusion>, i: nat, end: int)
    requires i < |x|
    ensures forall a: Address ::
      Excluded(x[..i + 1], a, end) <==> Excluded(x[..i], a, end) || (x[i].account == a && x[i].timestamp < end)
  {
    forall a: Address
      ensures Excluded(x[..i + 1], a, end) <==> Excluded(x[..i], a, end) || (x[i].account == a && x[i].timestamp < end)
    {
      if Excluded(x[..i], a, end) {
        var k :| 0 <= k < i && x[..i][k].account == a && x[..i][k].timestamp < end;
        assert x[..i + 1][k] == x[..i][k];
      }
      assert x[..i + 1][i] == x[i];
      if Excluded(x[..i + 1], a, end) {
        var k :| 0 <= k <= i && x[..i + 1][k].account == a && x[..i + 1][k].timestamp < end;
        assert k < i ==> x[..i][k] == x[..i + 1][k];
      }
    }
  }

  /** What a walk has made of a prefix is what the whole history makes of the window, when the rest
      of it is at or past the window's end. */
  lemma HoldersOfPrefix(hs: seq<Holder>, transfers: seq<Transfer>, i: nat, x: seq<Exclusion>, w: Window)
    requires
      var o := SortedByTimestamp(transfers);
      && i <= |o| && AllBefore(o[..i], w.end) && (i < |o| ==> o[i].timestamp >= w.end)
      && IsHolders(hs, o[..i], x, w)
    ensures IsHolders(hs, transfers, x, w)
  {
    var o := SortedByTimestamp(transfers);
    BeforeIsPrefix(o, i, w.end);
    BeforeAll(o[..i], w.end);
    HoldersBelow(hs, o[..i], o, x, w);
    Sorting.SortPermutes(transfers, (tr: Transfer) => tr.timestamp);
    HoldersPermuted(o, transfers, hs, x, w);
  }

  lemma NoFaultBehind(o: seq<Transfer>, i: nat, end: int)
    requires Ascending(o) && i <= |o| && (i < |o| ==> o[i].timestamp >= end)
    requires FirstFault(o, 0) == FirstFault(o, i)
    ensures FirstFault(o, 0).Some? ==> FirstFault(o, 0).value.at >= end
  {
    if FirstFault(o, i).Some? {
      FaultNoEarlier(o, i);
    }
  }

  /** One pass over the whole history for one Epoch. */
  method Replay(epoch: nat, transfers: seq<Transfer>, exclusions: seq<Exclusion>)
    returns (r: Result<seq<Holder>, Error>)
    requires InRange(epoch)
    ensures IsOutcome(r, transfers, exclusions, WindowOf(epoch))
  {
    var window := WindowOf(epoch);
    var o := SortedByTimestamp(transfers);
    var replay := new ReplayState(window);
    var j;
    j, r := replay.Finish(o, 0, exclusions, transfers);
  }
}
