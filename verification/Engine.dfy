/** The Engine: Holders of any Epoch in any order from one forward-moving Ledger, one Epoch rebuilt,
    and the whole Carry chain. */
module Engine {
  import opened Wrappers
  import opened History
  import opened Bytes
  import opened Merkle
  import opened Alloc
  import opened Records
  import opened Roots
  import opened EndBlock
  import opened Carry
  import opened Replay
  import Judgement
  import Ledger

  datatype EngineError =
    | OfEnd(end: EndError)
    | BeforeDeploy(target: nat, first: nat)
    | OfRoot(root: RootError)
    | Refused(error: Replay.Error)
    | OfAllocation(alloc: AllocError)

  /** The fault a history has, wherever it lies. */
  ghost function FaultOf(w: World): Option<Fault> {
    FirstFault(SortedByTimestamp(w.history), 0)
  }

  /** Some token of an Epoch has 2^256 or more to allocate. */
  ghost predicate Overflows(w: World, id: nat, carryIn: Five) {
    exists t :: 0 <= t < 5 && w.dist.book(id).funded[t] + carryIn[t] >= Span(WORD_SIZE)
  }

  /** e is a cause for refusing an Epoch over carryIn: the history has a fault, which lies before the
      Epoch's close when the Ledger had not been refused before, or a claim does not encode and some token
      has 2^256 or more to allocate. */
  ghost predicate ResultRefused(w: World, id: nat, carryIn: Five, e: EngineError, unfailed: bool) {
    match e
    case Refused(x) =>
      && x.Rejected? && FaultOf(w) == Some(x.fault)
      && InRange(id) && (unfailed ==> x.fault.at < WindowOf(id).end)
    case OfAllocation(x) => x.BadTree? && Overflows(w, id, carryIn)
    case _ => false
  }

  class Engine {
    const world: World
    const book: Book
    var ledger: Ledger.Ledger?
    var floor: nat
    var first: Option<nat>
    ghost var inner: set<object>

    /** The Ledger held, if any, is over the Engine's own history, and no further than the floor. */
    ghost predicate LedgerOk()
      reads `ledger, `floor, `inner, inner
      ensures LedgerOk() ==> this !in inner && book !in inner
    {
      && this !in inner && book !in inner
      && (ledger != null ==>
            && ledger in inner && ledger.state in inner && inner == ledger.Repr()
            && ledger.Valid() && ledger.transfers == world.history && ledger.exclusions == world.exclusions
            && ledger.floor <= floor)
    }

    ghost predicate Valid()
      reads this, book, inner
    {
      && Sound(world) && book.at == world.dist.book && book.Valid()
      && (first.Some? ==> first.value == First(world))
      && LedgerOk()
    }

    constructor (world: World)
      requires Sound(world)
      ensures Valid() && this.world == world && fresh(book) && ledger == null && floor == 0 && inner == {}
      ensures first.None? && book.ledgers == map[]
    {
      this.world := world;
      book := new Book(world.dist.book);
      ledger, floor, first, inner := null, 0, None, {};
    }

    /** No Ledger held has been refused. */
    ghost predicate Unfailed()
      requires LedgerOk()
      reads `ledger, `floor, `inner, inner
    {
      ledger == null || ledger.failed.None?
    }

    /** The Ledger held was refused for something past the end of the Epoch now asked about. */
    ghost predicate Stuck(id: nat)
      requires InRange(id)
      reads this, ledger
    {
      ledger != null && id >= floor && ledger.failed.Some? && ledger.failed.value.at >= WindowOf(id).end
    }

    /** Closes an Epoch in the Ledger held. */
    method CloseHeld(id: nat) returns (r: Result<seq<Holder>, Replay.Error>)
      requires LedgerOk() && InRange(id) && ledger != null && ledger.floor <= id
      modifies `floor, `inner, inner
      ensures LedgerOk() && fresh(inner - old(inner))
      ensures IsOutcome(r, world.history, world.exclusions, WindowOf(id)) <==>
        old(ledger.failed.None? || ledger.failed.value.at < WindowOf(id).end)
      ensures r.Failure? ==> r.error.Rejected? && FaultOf(world) == Some(r.error.fault)
      ensures r.Failure? ==> ledger.failed == Some(r.error.fault) && floor == old(floor)
      ensures r.Success? ==> Closes(world, id, r.value) && ledger.failed.None? && floor == id + 1
    {
      hide FirstFault, SortedByTimestamp, BlockFault, IsHolders, Ledger.Ledger.Valid;
      ledger.FailedIsFault();
      r := ledger.Advance(id);
      inner := ledger.Repr();
      if r.Failure? {
        return;
      }
      floor := id + 1;
    }

    /** Closes an Epoch, in any order: a Ledger that has passed it is replaced. The answer is Replay's
        exactly when the Engine is not stuck. */
    method Holders(id: nat) returns (r: Result<seq<Holder>, Replay.Error>)
      requires LedgerOk() && InRange(id)
      modifies `ledger, `floor, `inner, inner
      ensures LedgerOk() && fresh(inner - old(inner))
      ensures IsOutcome(r, world.history, world.exclusions, WindowOf(id)) <==> !old(Stuck(id))
      ensures r.Failure? ==> r.error.Rejected? && FaultOf(world) == Some(r.error.fault)
      ensures r.Failure? ==> ledger != null && ledger.failed == Some(r.error.fault) && floor == old(floor)
      ensures r.Success? ==> Closes(world, id, r.value) && ledger != null && ledger.failed.None? && floor == id + 1
      ensures unchanged(book)
    {
      hide IsOutcome, Closes, Ledger.Ledger.Valid, FaultOf;
      if ledger == null || id < floor {
        ledger := new Ledger.Ledger(world.history, world.exclusions);
        inner := ledger.Repr();
      }
      r := CloseHeld(id);
    }

    /** The rules over one Epoch: its book, its Holders, and the posted carryIn or the expected one. */
    method Rebuild(id: nat, posted: Option<RootPosted>, expected: Five, from: CarrySource)
      returns (r: Result<EpochResult, EngineError>)
      requires Valid() && InRange(id) && NonNegative(expected)
      modifies `ledger, `floor, `inner, book, inner
      ensures Valid() && fresh(inner - old(inner))
      ensures r.Success? ==> IsResult(world, id, posted, expected, from, r.value) && r.value.endBlock.None?
      ensures r.Failure? ==> ResultRefused(world, id, CarryInOf(posted, expected), r.error, old(Unfailed()))
      ensures r.Success? ==> Unfailed()
      ensures old(Unfailed()) && Can(world, id, CarryInOf(posted, expected)) ==> r.Success?
    {
      hide IsOutcome, IsResult, Sound, FaultOf, Closes, LedgerOk;
      var l := book.Ledger(id);
      assert LedgerOk();
      var hs := Holders(id);
      assert book.Valid();
      if hs.Failure? {
        RefusedCannot(world, id, CarryInOf(posted, expected), hs);
        RefusedBefore(world, id, hs);
        return Failure(Refused(hs.error));
      }
      ClosesPositive(world, id, hs.value);
      r := Assemble(world, id, l, hs.value, posted, expected, from);
    }

    /** The Epoch the Distributor was deployed in, worked out once. */
    method DeployEpoch() returns (e: nat)
      requires Valid()
      modifies `first
      ensures Valid() && e == First(world)
      ensures 3600 * e <= world.chain(world.dist.deployed).timestamp < 3600 * (e + 1)
    {
      hide LedgerOk, Sound;
      if first.Some? {
        return first.value;
      }
      SoundStamps(world);
      e := world.chain(world.dist.deployed).timestamp / EPOCH_SECONDS;
      first := Some(e);
    }

    /** carry with the funding of every Epoch passed over. */
    method CarryOver(carry: Five, lo: nat, hi: nat, base: Option<nat>) returns (r: Five, from: CarrySource)
      requires Valid() && NonNegative(carry) && lo <= hi
      modifies book
      ensures Valid()
      ensures r == Plus(world, carry, lo, hi) && NonNegative(r) && from == CarrySource(base, hi - lo)
    {
      hide LedgerOk, Sound;
      r := carry;
      var skipped: nat := 0;
      var id := lo;
      PlusNone(world, carry, lo);
      while id < hi
        invariant lo <= id <= hi && skipped == id - lo && Valid()
        invariant r == Plus(world, carry, lo, id) && NonNegative(r)
      {
        var next := book.AddFunding(r, id);
        PlusOne(world, carry, lo, id, next);
        r := next;
        skipped := skipped + 1;
        id := id + 1;
      }
      from := CarrySource(base, skipped);
    }

    /** What the target should have been posted with. */
    method ExpectedCarry(target: nat) returns (r: Result<(Five, CarrySource), EngineError>)
      requires Valid() && InRange(target)
      modifies `ledger, `floor, `inner, `first, book, inner
      ensures Valid() && fresh(inner - old(inner))
      ensures r.Success? ==> NonNegative(r.value.0) && IsExpected(world, target, r.value.0, r.value.1)
      ensures r.Failure? ==> IsCause(world, target, r.error, ByCompute, old(Unfailed()))
      ensures old(Unfailed()) && HasExpected(world, target) ==> r.Success?
      ensures old(Unfailed()) && r.Success? ==> Unfailed()
    {
      hide LedgerOk, Sound, IsResult, ResultRefused, PreviousOf, Can, IsExpected, HasExpected, Plus, PostedCarry;
      if HasExpected(world, target) {
        CanExpect(world, target);
      }
      SoundWell(world);
      var previous := PreviousRoot(book, world.dist, target);
      if previous.None? {
        var deployed := DeployEpoch();
        if target < deployed {
          return Failure(BeforeDeploy(target, deployed));
        }
        NothingExpected(world, target);
        var carry, from := CarryOver(NOTHING, deployed, target, None);
        return Success((carry, from));
      }
      var p := previous.value;
      PreviousBelow(world, target, p);
      PreviousIsPosted(world, target, p);
      var link := Rebuild(p.id, previous, p.carryIn, OwnPosted);
      if link.Failure? {
        LinkRefused(world, target, p.id, p.carryIn, link.error, ByCompute, old(Unfailed()));
        return Failure(link.error);
      }
      LinkFields(world, p.id, previous, p.carryIn, OwnPosted, link.value);
      CarriedOn(world, target, p, link.value);
      var carry, from := CarryOver(link.value.carryOut, p.id + 1, target, Some(p.id));
      r := Success((carry, from));
    }

    /** One Epoch rebuilt: its end block, what it should have been posted with, its standing Root, and
        the rules over the carryIn posted with that. */
    method Compute(id: nat) returns (r: Result<EpochResult, EngineError>)
      requires Valid() && InRange(id)
      modifies `ledger, `floor, `inner, `first, book, inner
      ensures Valid() && fresh(inner - old(inner))
      ensures r.Success? ==> IsComputed(world, id, r.value)
      ensures r.Failure? ==> IsCause(world, id, r.error, ByCompute, old(Unfailed()))
      ensures old(Unfailed()) && NonDecreasing(world.chain) && CanCompute(world, id) ==> r.Success?
      ensures r.Success? ==> Unfailed()
    {
      hide LedgerOk, Sound, IsResult, ResultRefused, IsExpected, Roots.Standing, Explains, EndsAt, IsCause, CarryInOf,
        Served, Can, IsComputed, CanCompute, HasExpected, Uses, HasEnd;
      SoundWell(world);
      ComputeEnds(world, id);
      var end := EndBlockOf(world, id, ByCompute, Unfailed());
      if end.Failure? {
        return Failure(OfEnd(end.error));
      }
      WhatComputeNeeds(world, id, end.value);
      var expected := ExpectedCarry(id);
      if expected.Failure? {
        return Failure(expected.error);
      }
      var posted := StandingRoot(book, world.dist, id, end.value.number + 1);
      if posted.Failure? {
        RootRefused(world, id, end.value, posted.error, ByCompute, old(Unfailed()));
        return Failure(OfRoot(posted.error));
      }
      AndThenRebuilds(world, id, expected.value.0, expected.value.1);
      var result := Rebuild(id, posted.value, expected.value.0, expected.value.1);
      if result.Failure? {
        ExpectedIsUsed(world, id, expected.value.0, expected.value.1);
        LinkRefused(world, id, id, CarryInOf(posted.value, expected.value.0), result.error, ByCompute, old(Unfailed()));
        return Failure(result.error);
      }
      BlockMakesNoOdds(world, id, posted.value, expected.value.0, expected.value.1, result.value, Some(end.value));
      ComputedNow(world, id, result.value.(endBlock := Some(end.value)), expected.value.0, expected.value.1);
      r := Success(result.value.(endBlock := Some(end.value)));
    }

    /** The rooted Epochs from deploy to before the target, each over its own posted carryIn, and what
        they leave for the target. */
    method WalkLinks(target: nat, standing: map<nat, RootPosted>)
      returns (r: Result<seq<EpochResult>, EngineError>, carry: Five, from: CarrySource)
      requires Valid() && InRange(target) && First(world) <= target
      requires HoldsStanding(standing, world.dist.book, world.dist.stream, First(world), target)
      modifies `ledger, `floor, `inner, book, inner
      ensures Valid() && fresh(inner - old(inner))
      ensures r.Success? ==> IsLinks(world, r.value, target)
      ensures r.Success? ==> carry == Rolled(world, r.value, target) && NonNegative(carry)
      ensures r.Success? ==> from == SourceAt(world, r.value, target)
      ensures r.Failure? ==> IsCause(world, target, r.error, ByWalk, old(Unfailed()))
      ensures old(Unfailed()) && CanLink(world, target) ==> r.Success?
      ensures old(Unfailed()) ==> r.Failure? || Unfailed()
    {
      hide LedgerOk, Sound, IsLinks, Rolled, SourceAt, IsResult, ResultRefused, IsCause, Roots.Standing, Can, CanLink,
        Uses;
      var out: seq<EpochResult> := [];
      carry := NOTHING;
      var base: Option<nat> := None;
      var skipped: nat := 0;
      var id := First(world);
      NoLinks(world);
      while id < target
        invariant First(world) <= id <= target && Valid() && fresh(inner - old(inner))
        invariant IsLinks(world, out, id)
        invariant carry == Rolled(world, out, id) && NonNegative(carry)
        invariant CarrySource(base, skipped) == SourceAt(world, out, id)
        invariant old(Unfailed()) ==> Unfailed()
      {
        if id !in standing {
          var next := book.AddFunding(carry, id);
          UnrootedStep(world, out, id, next);
          carry, skipped := next, skipped + 1;
        } else {
          var posted := Some(standing[id]);
          StandingIsUsed(world, target, id, ByWalk);
          AnyLinkCan(world, target, id);
          var link := Rebuild(id, posted, carry, CarrySource(base, skipped));
          if link.Failure? {
            LinkRefused(world, target, id, CarryInOf(posted, carry), link.error, ByWalk, old(Unfailed()));
            return Failure(link.error), carry, OwnPosted;
          }
          LinkFields(world, id, posted, carry, CarrySource(base, skipped), link.value);
          RootedStep(world, out, id, link.value);
          out := out + [link.value];
          carry, base, skipped := link.value.carryOut, Some(id), 0;
        }
        id := id + 1;
      }
      r, from := Success(out), CarrySource(base, skipped);
    }

    /** The whole Carry chain: every rooted Epoch from deploy on, and the target whether rooted or not. */
    method Walk(target: nat) returns (r: Result<seq<EpochResult>, EngineError>)
      requires Valid() && InRange(target)
      modifies `ledger, `floor, `inner, `first, book, inner
      ensures Valid() && fresh(inner - old(inner))
      ensures r.Success? ==> IsWalk(world, target, r.value)
      ensures r.Failure? ==> IsCause(world, target, r.error, ByWalk, old(Unfailed()))
      ensures old(Unfailed()) && NonDecreasing(world.chain) && CanWalk(world, target) ==> r.Success?
      ensures r.Success? ==> Unfailed()
    {
      hide LedgerOk, Sound, IsLinks, Rolled, SourceAt, IsResult, ResultRefused, Roots.Standing, Explains, EndsAt,
        IsCause, CarryInOf, Served, Can, CanWalk, CanLink, Uses, HasEnd, IsWalk;
      SoundWell(world);
      WalkEndsSomewhere(world, target);
      var end := EndBlockOf(world, target, ByWalk, Unfailed());
      if end.Failure? {
        return Failure(OfEnd(end.error));
      }
      var deployed := DeployEpoch();
      if target < deployed {
        TooEarly(world, target, ByWalk, old(Unfailed()));
        return Failure(BeforeDeploy(target, deployed));
      }
      WhatWalkNeeds(world, target, end.value);
      var standing := StandingRoots(book, world.dist, deployed, target);
      var links, carry, from := WalkLinks(target, standing);
      if links.Failure? {
        return Failure(links.error);
      }
      var posted := StandingRoot(book, world.dist, target, end.value.number + 1);
      if posted.Failure? {
        RootRefused(world, target, end.value, posted.error, ByWalk, old(Unfailed()));
        return Failure(OfRoot(posted.error));
      }
      LastCan(world, target, links.value);
      var last := Rebuild(target, posted.value, carry, from);
      if last.Failure? {
        RolledIsUsed(world, target, links.value);
        LinkRefused(world, target, target, CarryInOf(posted.value, carry), last.error, ByWalk, old(Unfailed()));
        return Failure(last.error);
      }
      BlockMakesNoOdds(world, target, posted.value, carry, from, last.value, Some(end.value));
      WalkEnds(world, target, links.value, last.value.(endBlock := Some(end.value)));
      r := Success(links.value + [last.value.(endBlock := Some(end.value))]);
    }
  }

  /** Which of the two an Epoch is being computed for. */
  datatype Course = ByCompute | ByWalk

  /** carryIn is the one the standing Root of an Epoch was posted with. */
  ghost predicate PostedCarry(w: World, i: nat, carryIn: Five) {
    var p := Roots.Standing(w.dist.book, w.dist.stream, i);
    p.Some? && carryIn == p.value.carryIn
  }

  /** An Epoch before id is computed over carryIn on the way there: the one of the previous Root by Compute,
      and each with a standing Root from deploy on by a Walk. */
  ghost predicate UsesBefore(w: World, id: nat, i: nat, carryIn: Five, course: Course)
    requires Sound(w)
  {
    match course
    case ByCompute =>
      var p := PreviousOf(w.dist.book, w.dist.stream, id);
      p.Some? && p.value.id == i && carryIn == p.value.carryIn
    case ByWalk => First(w) <= i < id && PostedCarry(w, i, carryIn)
  }

  /** carryIn is what an Epoch without a Root is computed over: what Compute expects, or what a Walk has
      carried there. */
  ghost predicate Owed(w: World, id: nat, carryIn: Five, course: Course)
    requires Sound(w)
  {
    match course
    case ByCompute => exists from :: IsExpected(w, id, carryIn, from)
    case ByWalk => exists links :: IsLinks(w, links, id) && carryIn == Rolled(w, links, id)
  }

  /** On the way to id, Epoch i is computed over carryIn. */
  ghost predicate Uses(w: World, id: nat, i: nat, carryIn: Five, course: Course)
    requires Sound(w)
  {
    || UsesBefore(w, id, i, carryIn, course)
    || (i == id && PostedCarry(w, id, carryIn))
    || (i == id && Roots.Standing(w.dist.book, w.dist.stream, id).None? && Owed(w, id, carryIn, course))
  }

  /** e is a cause for refusing to compute an Epoch. */
  ghost predicate IsCause(w: World, id: nat, e: EngineError, course: Course, unfailed: bool)
    requires Sound(w) && InRange(id)
  {
    match e
    case OfEnd(NotClosed) => w.tip.timestamp < WindowOf(id).end
    case OfEnd(Predates) => WindowOf(id).end <= w.chain(0).timestamp
    case OfEnd(Unread(_)) => false
    case BeforeDeploy(t, f) => t == id < f && IsDeployEpoch(w, f)
    case OfRoot(x) => exists b :: EndsAt(w, id, b) && Explains(w.dist, id, b.number + 1, x)
    case _ =>
      exists i: nat, carryIn :: i <= id && Uses(w, id, i, carryIn, course) && ResultRefused(w, i, carryIn, e, unfailed)
  }

  lemma LinkRefused(w: World, id: nat, i: nat, carryIn: Five, e: EngineError, course: Course, unfailed: bool)
    requires Sound(w) && InRange(id) && i <= id && Uses(w, id, i, carryIn, course)
    requires ResultRefused(w, i, carryIn, e, true) || (!unfailed && ResultRefused(w, i, carryIn, e, false))
    ensures IsCause(w, id, e, course, unfailed)
  {
    assert ResultRefused(w, i, carryIn, e, unfailed);
  }

  lemma RootRefused(w: World, id: nat, b: Block, e: RootError, course: Course, unfailed: bool)
    requires Sound(w) && EndsAt(w, id, b) && Explains(w.dist, id, b.number + 1, e)
    ensures IsCause(w, id, OfRoot(e), course, unfailed)
  {
    hide Explains, EndsAt, Sound;
  }

  lemma TooEarly(w: World, id: nat, course: Course, unfailed: bool)
    requires Sound(w) && InRange(id) && id < First(w)
    ensures IsCause(w, id, BeforeDeploy(id, First(w)), course, unfailed)
  {
  }

  lemma PreviousIsPosted(w: World, target: nat, p: RootPosted)
    requires Sound(w) && PreviousOf(w.dist.book, w.dist.stream, target) == Some(p)
    ensures Uses(w, target, p.id, p.carryIn, ByCompute)
  {
  }

  /** A standing Root's carryIn is one the Engine computes over. */
  lemma StandingIsUsed(w: World, target: nat, id: nat, course: Course)
    requires Sound(w) && Roots.Standing(w.dist.book, w.dist.stream, id).Some?
    requires id == target || (course.ByWalk? && First(w) <= id < target)
    ensures Uses(w, target, id, Roots.Standing(w.dist.book, w.dist.stream, id).value.carryIn, course)
  {
    hide Sound, Roots.Standing;
  }

  lemma ExpectedIsUsed(w: World, id: nat, expected: Five, from: CarrySource)
    requires Sound(w) && IsExpected(w, id, expected, from)
    ensures Uses(w, id, id, CarryInOf(Roots.Standing(w.dist.book, w.dist.stream, id), expected), ByCompute)
  {
    hide Sound, IsExpected;
    if Roots.Standing(w.dist.book, w.dist.stream, id).Some? {
      StandingIsUsed(w, id, id, ByCompute);
    } else {
      assert Owed(w, id, expected, ByCompute);
    }
  }

  lemma RolledIsUsed(w: World, id: nat, links: seq<EpochResult>)
    requires Sound(w) && IsLinks(w, links, id)
    ensures Uses(w, id, id, CarryInOf(Roots.Standing(w.dist.book, w.dist.stream, id), Rolled(w, links, id)), ByWalk)
  {
    hide Sound, IsLinks, Rolled;
    if Roots.Standing(w.dist.book, w.dist.stream, id).Some? {
      StandingIsUsed(w, id, id, ByWalk);
    } else {
      assert Owed(w, id, Rolled(w, links, id), ByWalk);
    }
  }

  // ------------------------------------------------------------------ when a Walk succeeds

  ghost predicate CanLink(w: World, target: nat)
    requires Sound(w)
  {
    exists links :: IsLinks(w, links, target)
  }

  ghost predicate CanWalk(w: World, target: nat)
    requires Sound(w)
  {
    exists rs :: IsWalk(w, target, rs)
  }

  ghost predicate HasEnd(w: World, id: nat) {
    exists b :: EndsAt(w, id, b)
  }

  lemma AnyLinkCan(w: World, target: nat, id: nat)
    requires Sound(w) && First(w) <= id < target && Roots.Standing(w.dist.book, w.dist.stream, id).Some?
    ensures CanLink(w, target) ==> Can(w, id, Roots.Standing(w.dist.book, w.dist.stream, id).value.carryIn)
  {
    hide Sound, IsLinks, Can, Roots.Standing;
    if CanLink(w, target) {
      var links :| IsLinks(w, links, target);
      LinkCan(w, links, target, id);
    }
  }

  lemma WalkEndsSomewhere(w: World, target: nat)
    requires Sound(w)
    ensures CanWalk(w, target) ==> HasEnd(w, target) && First(w) <= target && CanLink(w, target)
  {
    hide Sound, IsLinks, EndsAt, Served, IsResult;
    if CanWalk(w, target) {
      var rs: seq<EpochResult> :| IsWalk(w, target, rs);
      assert IsLinks(w, rs[..|rs| - 1], target);
      assert EndsAt(w, target, rs[|rs| - 1].endBlock.value);
    }
  }

  lemma ComputeEnds(w: World, id: nat)
    requires Sound(w)
    ensures CanCompute(w, id) ==> HasEnd(w, id)
  {
    hide Sound, IsExpected, EndsAt, Served, IsResult;
    if CanCompute(w, id) {
      var c :| IsComputed(w, id, c);
      assert EndsAt(w, id, c.endBlock.value);
    }
  }

  lemma WhatWalkNeeds(w: World, target: nat, b: Block)
    requires Sound(w) && EndsAt(w, target, b)
    ensures CanWalk(w, target) && NonDecreasing(w.chain) ==> Served(w.dist, target, b.number + 1)
  {
    hide Sound, IsLinks, EndsAt, Served, IsResult;
    if CanWalk(w, target) && NonDecreasing(w.chain) {
      var rs: seq<EpochResult> :| IsWalk(w, target, rs);
      SameEndBlock(w, target, b, rs[|rs| - 1].endBlock.value);
    }
  }

  /** Once its links are there, the target of a walk that can be made can be rebuilt. */
  lemma LastCan(w: World, target: nat, links: seq<EpochResult>)
    requires Sound(w) && IsLinks(w, links, target)
    ensures CanWalk(w, target) ==>
      Can(w, target, CarryInOf(Roots.Standing(w.dist.book, w.dist.stream, target), Rolled(w, links, target)))
  {
    hide Sound, IsLinks, EndsAt, Served, IsResult, Can, Rolled, SourceAt, Roots.Standing;
    if CanWalk(w, target) {
      var rs: seq<EpochResult> :| IsWalk(w, target, rs);
      var more, last := rs[..|rs| - 1], rs[|rs| - 1];
      SameRolled(w, links, more, target);
      ResultCan(w, target, Roots.Standing(w.dist.book, w.dist.stream, target), Rolled(w, more, target),
                SourceAt(w, more, target), last);
    }
  }

  /** There is nothing to refuse an Epoch for: it closed between block 0 and the tip, not before deploy, the
      blocks after its end have the log of the Root the book holds, the rules accept the history through its
      close, and nothing it is computed over comes to 2^256. */
  ghost predicate Clear(w: World, id: nat, course: Course)
    requires Sound(w)
  {
    && InRange(id)
    && w.chain(0).timestamp < WindowOf(id).end <= w.tip.timestamp && First(w) <= id
    && (forall b :: EndsAt(w, id, b) ==> Served(w.dist, id, b.number + 1))
    && Acceptable(w.history, WindowOf(id).end)
    && forall i: nat, carryIn :: i <= id && Uses(w, id, i, carryIn, course) ==> !Overflows(w, i, carryIn)
  }

  lemma NothingToRefuse(w: World, id: nat, course: Course, e: EngineError)
    requires Sound(w) && Clear(w, id, course)
    ensures !IsCause(w, id, e, course, true)
  {
    hide Sound, Served, Uses, Overflows, FirstFault, Acceptable, EndsAt, SortedByTimestamp, First;
    Judgement.RejectedIffUnacceptable(w.history, WindowOf(id).end);
    if IsCause(w, id, e, course, true) {
      match e {
        case OfEnd(_) =>
        case BeforeDeploy(_, _) =>
        case OfRoot(x) =>
          var b :| EndsAt(w, id, b) && Explains(w.dist, id, b.number + 1, x);
          ExplainsUnserved(w.dist, id, b.number + 1, x);
        case _ =>
      }
    }
  }

  lemma ExplainsUnserved(d: Distributor, id: nat, from: int, e: RootError)
    requires Explains(d, id, from, e)
    ensures !Served(d, id, from)
  {
  }

  lemma WalkEnds(w: World, target: nat, links: seq<EpochResult>, last: EpochResult)
    requires Sound(w) && First(w) <= target && IsLinks(w, links, target)
    requires last.endBlock.Some? && EndsAt(w, target, last.endBlock.value)
    requires Served(w.dist, target, last.endBlock.value.number + 1)
    requires IsResult(w, target, Roots.Standing(w.dist.book, w.dist.stream, target), Rolled(w, links, target),
                      SourceAt(w, links, target), last)
    ensures IsWalk(w, target, links + [last])
  {
    hide IsResult, IsLinks, EndsAt, Rolled, SourceAt, Roots.Standing, Served;
    assert (links + [last])[..|links|] == links;
  }

  lemma SoundStamps(w: World)
    requires Sound(w)
    ensures w.chain(w.dist.deployed).timestamp >= 0
  {
  }

  lemma SoundWell(w: World)
    requires Sound(w)
    ensures Roots.WellFormed(w.dist)
  {
  }

  lemma PreviousBelow(w: World, target: nat, p: RootPosted)
    requires PreviousOf(w.dist.book, w.dist.stream, target) == Some(p) && InRange(target)
    ensures p.id < target && InRange(p.id)
  {
    FoundBelow(w.dist.book, target, w.dist.stream);
  }

  ghost predicate HasExpected(w: World, id: nat)
    requires Sound(w)
  {
    exists carry, from :: IsExpected(w, id, carry, from)
  }

  ghost predicate CanCompute(w: World, id: nat)
    requires Sound(w)
  {
    exists c :: IsComputed(w, id, c)
  }

  /** What is expected of an Epoch takes the Epoch before to be rebuilt, or the deploy not to be after. */
  lemma CanExpect(w: World, id: nat)
    requires Sound(w) && HasExpected(w, id)
    ensures match PreviousOf(w.dist.book, w.dist.stream, id)
      case None => First(w) <= id
      case Some(p) => Can(w, p.id, p.carryIn)
  {
    hide IsResult, PreviousOf, Sound, Can;
    var carry, from :| IsExpected(w, id, carry, from);
    match PreviousOf(w.dist.book, w.dist.stream, id) {
      case None =>
      case Some(p) =>
        var r :| IsResult(w, p.id, Some(p), p.carryIn, OwnPosted, r);
        ResultCan(w, p.id, Some(p), p.carryIn, OwnPosted, r);
    }
  }

  lemma WhatComputeNeeds(w: World, id: nat, b: Block)
    requires Sound(w) && EndsAt(w, id, b)
    ensures CanCompute(w, id) ==> HasExpected(w, id)
    ensures CanCompute(w, id) && NonDecreasing(w.chain) ==> Served(w.dist, id, b.number + 1)
  {
    hide IsResult, Sound, IsExpected, EndsAt, Served;
    if CanCompute(w, id) {
      var c :| IsComputed(w, id, c);
      if NonDecreasing(w.chain) {
        SameEndBlock(w, id, b, c.endBlock.value);
      }
    }
  }

  lemma AndThenRebuilds(w: World, id: nat, expected: Five, from: CarrySource)
    requires Sound(w) && IsExpected(w, id, expected, from)
    ensures CanCompute(w, id) ==> Can(w, id, CarryInOf(Roots.Standing(w.dist.book, w.dist.stream, id), expected))
  {
    hide IsResult, Sound, IsExpected, EndsAt, Served, Can, Roots.Standing;
    if CanCompute(w, id) {
      var c :| IsComputed(w, id, c);
      ExpectedOnce(w, id, expected, from, c.expectedCarryIn, c.carryFrom);
      ResultCan(w, id, Roots.Standing(w.dist.book, w.dist.stream, id), expected, from, c);
    }
  }

  lemma ComputedNow(w: World, id: nat, r: EpochResult, expected: Five, from: CarrySource)
    requires Sound(w) && r.endBlock.Some? && EndsAt(w, id, r.endBlock.value)
    requires Served(w.dist, id, r.endBlock.value.number + 1) && IsExpected(w, id, expected, from)
    requires IsResult(w, id, Roots.Standing(w.dist.book, w.dist.stream, id), expected, from, r)
    ensures IsComputed(w, id, r)
  {
    hide Sound, IsExpected, EndsAt, Served, Roots.Standing;
    LinkFields(w, id, Roots.Standing(w.dist.book, w.dist.stream, id), expected, from, r);
  }

  lemma EndIsFound(w: World, id: nat)
    requires Sound(w) && NonDecreasing(w.chain) && HasEnd(w, id)
    ensures InRange(id) && w.chain(0).timestamp < WindowOf(id).end <= w.tip.timestamp
  {
    var b :| EndsAt(w, id, b);
    assert w.chain(0).timestamp <= w.chain(b.number).timestamp;
    assert w.chain(b.number + 1).timestamp <= w.chain(w.tip.number).timestamp;
  }

  method EndBlockOf(w: World, id: nat, ghost course: Course, ghost unfailed: bool) returns (r: Result<Block, EndError>)
    requires Sound(w) && InRange(id)
    ensures r.Success? ==> EndsAt(w, id, r.value)
    ensures r.Failure? ==> IsCause(w, id, OfEnd(r.error), course, unfailed)
    ensures NonDecreasing(w.chain) && HasEnd(w, id) ==> r.Success?
  {
    hide HasEnd;
    if NonDecreasing(w.chain) && HasEnd(w, id) {
      EndIsFound(w, id);
    }
    r := EndBlock.EndBlock(id, w.tip, (n: uint64) => Some(w.chain(n)), w.chain);
  }

  lemma RefusedBefore(w: World, id: nat, r: Result<seq<Holder>, Replay.Error>)
    requires r.Failure? && InRange(id)
    ensures IsOutcome(r, w.history, w.exclusions, WindowOf(id)) ==>
      r.error.Rejected? && r.error.fault.at < WindowOf(id).end
  {
    hide FirstFault, SortedByTimestamp, IsHolders;
  }

  lemma RefusedCannot(w: World, id: nat, carryIn: Five, r: Result<seq<Holder>, Replay.Error>)
    requires r.Failure? && InRange(id)
    ensures IsOutcome(r, w.history, w.exclusions, WindowOf(id)) ==> !Can(w, id, carryIn)
  {
    if IsOutcome(r, w.history, w.exclusions, WindowOf(id)) && Can(w, id, carryIn) {
      var hs :| Closes(w, id, hs);
      OutcomeUnique(r, Success(hs), w.history, w.exclusions, WindowOf(id));
      assert false;
    }
  }

  lemma CanFits(w: World, id: nat, carryIn: Five, hs: seq<Holder>)
    requires Closes(w, id, hs)
    ensures Can(w, id, carryIn) ==> Fits(w, ParamsOf(w, id, carryIn), hs)
  {
    hide Closes, Fits;
    if Can(w, id, carryIn) {
      var ks :| Closes(w, id, ks) && Fits(w, ParamsOf(w, id, carryIn), ks);
      ClosesOnce(w, id, hs, ks);
    }
  }

  lemma ClosesPositive(w: World, id: nat, hs: seq<Holder>)
    requires Closes(w, id, hs)
    ensures AllPositive(hs)
  {
    forall i | 0 <= i < |hs| ensures hs[i].twab > 0 {
      assert hs[i] in hs;
    }
  }

  /** What the rules make, with the tree as its Root. */
  datatype Made = Made(allocations: seq<Allocation>, totals: Five, carryOut: Five, totalWeight: int, root: Option<Hash>)

  function InFields(m: Made): EpochResult {
    EpochResult(0, None, false, NOTHING, NOTHING, NOTHING, OwnPosted, None, m.totals, m.carryOut, m.totalWeight, [],
                m.root, m.allocations)
  }

  method ApplyRules(w: World, id: nat, carryIn: Five, hs: seq<Holder>) returns (r: Result<Made, AllocError>)
    requires InRange(id) && NonNegative(carryIn) && AllPositive(hs)
    ensures r.Success? ==> Allocates(w, ParamsOf(w, id, carryIn), hs, InFields(r.value))
    ensures r.Failure? ==> r.error.BadTree? && Overflows(w, id, carryIn)
    ensures Fits(w, ParamsOf(w, id, carryIn), hs) ==> r.Success?
  {
    var p := ParamsOf(w, id, carryIn);
    ParamsPayable(w, id, carryIn);
    var o := Allocate(w.keccak, p, hs);
    if o.Failure? {
      if forall t :: 0 <= t < 5 ==> BaseOf(p)[t] < Span(WORD_SIZE) {
        AlwaysEncodable(p, hs);
      }
      return Failure(o.error);
    }
    var root := if o.value.tree.Some? then Some(o.value.tree.value.Root()) else None;
    r := Success(Made(o.value.allocations, o.value.totals, o.value.carryOut, o.value.totalWeight, root));
  }

  /** A Result out of an Epoch's book and Holders. */
  method Assemble(w: World, id: nat, l: Entry, hs: seq<Holder>, posted: Option<RootPosted>,
                  expected: Five, from: CarrySource)
    returns (r: Result<EpochResult, EngineError>)
    requires Closes(w, id, hs) && AllPositive(hs) && NonNegative(expected) && l == w.dist.book(id)
    ensures r.Success? ==> IsResult(w, id, posted, expected, from, r.value) && r.value.endBlock.None?
    ensures r.Failure? ==>
      r.error.OfAllocation? && r.error.alloc.BadTree? && Overflows(w, id, CarryInOf(posted, expected))
    ensures Can(w, id, CarryInOf(posted, expected)) ==> r.Success?
  {
    var carryIn := CarryInOf(posted, expected);
    CanFits(w, id, carryIn, hs);
    var rules := ApplyRules(w, id, carryIn, hs);
    if rules.Failure? {
      return Failure(OfAllocation(rules.error));
    }
    var excluded := ExcludedAsOf(WindowOf(id), w.exclusions);
    var made := rules.value;
    r := Success(EpochResult(
      id, None, l.skipped, l.funded, carryIn, expected, from, posted, made.totals, made.carryOut, made.totalWeight,
      excluded, made.root, made.allocations));
    MadeIsResult(w, id, posted, expected, from, hs, made, r.value);
  }

  lemma MadeIsResult(w: World, id: nat, posted: Option<RootPosted>, expected: Five, from: CarrySource,
                     hs: seq<Holder>, m: Made, r: EpochResult)
    requires Closes(w, id, hs) && NonNegative(CarryInOf(posted, expected))
    requires Allocates(w, ParamsOf(w, id, CarryInOf(posted, expected)), hs, InFields(m))
    requires IsExcluded(w, id, r.excluded)
    requires r == EpochResult(
      id, None, w.dist.book(id).skipped, w.dist.book(id).funded, CarryInOf(posted, expected), expected, from, posted,
      m.totals, m.carryOut, m.totalWeight, r.excluded, m.root, m.allocations)
    ensures IsResult(w, id, posted, expected, from, r)
  {
    hide Closes, IsExcluded;
    assert Allocates(w, ParamsOf(w, id, r.carryIn), hs, r);
  }

  /** A World of ten blocks in which a Root for Epoch 1 is posted in block 2. */
  ghost function SmallWorld(hash: Hash): World {
    var nothing: Words5 := [0, 0, 0, 0, 0];
    var book := (id: nat) => Entry(hash, if id == 1 then 7300 else 0, false, nothing);
    var chain := (n: uint64) => Block(n, hash, hash, if n <= 9 then 3600 * n else 36000);
    World([], [], Distributor(book, [RootPosted(2, OfEpoch, 1, hash, nothing, nothing)], 1, 9), chain, chain(9), 1,
          _ => hash)
  }

  /** Everything the results here ask of a World can be had at once, with a Root standing. */
  lemma SuchAWorld(hash: Hash) returns (w: World)
    ensures Sound(w) && NonDecreasing(w.chain) && Orderly(w.dist.book, w.dist.stream) && SinceDeploy(w)
    ensures Roots.Standing(w.dist.book, w.dist.stream, 1).Some? && PostedAfterClose(w)
    ensures Clear(w, 1, ByCompute) && Clear(w, 1, ByWalk)
  {
    w := SmallWorld(hash);
    SmallWorldIsSound(hash);
    SmallWorldIsClear(hash, ByCompute);
    SmallWorldIsClear(hash, ByWalk);
    hide *;
  }

  lemma SmallWorldIsSound(hash: Hash)
    ensures
      var w := SmallWorld(hash);
      && Sound(w) && NonDecreasing(w.chain) && Orderly(w.dist.book, w.dist.stream) && SinceDeploy(w)
      && Roots.Standing(w.dist.book, w.dist.stream, 1) == Some(w.dist.stream[0]) && PostedAfterClose(w)
      && First(w) == 1
  {
    LastForIs(SmallWorld(hash).dist.stream, 1, 0);
  }

  lemma SmallWorldIsClear(hash: Hash, course: Course)
    ensures Sound(SmallWorld(hash)) && Clear(SmallWorld(hash), 1, course)
  {
    var w := SmallWorld(hash);
    SmallWorldIsSound(hash);
    NothingMoved(WindowOf(1).end);
    forall b | EndsAt(w, 1, b) ensures Served(w.dist, 1, b.number + 1) {
      AfterCloseIsServed(w, 1, b);
    }
    forall i: nat, carryIn | i <= 1 && Uses(w, 1, i, carryIn, course) ensures !Overflows(w, i, carryIn) {
      hide Sound, Owed, PostedAfterClose, NonDecreasing, Orderly, SinceDeploy;
      if PreviousOf(w.dist.book, w.dist.stream, 1).Some? {
        FoundBelow(w.dist.book, 1, w.dist.stream);
        FoundStands(w.dist.book, Some(1), w.dist.stream);
      }
      assert carryIn == w.dist.stream[0].carryIn;
    }
  }

  lemma NothingMoved(end: int)
    ensures Acceptable([], end)
  {
  }

  /** A Walk succeeds exactly when the chain has one, and then Compute on the same Engine gives its last
      Result for the same Epoch. */
  method WalkAndCompute(w: World, target: nat)
    returns (walked: Result<seq<EpochResult>, EngineError>, computed: Result<EpochResult, EngineError>)
    requires Sound(w) && InRange(target)
    requires NonDecreasing(w.chain) && Orderly(w.dist.book, w.dist.stream) && SinceDeploy(w)
    ensures walked.Success? <==> CanWalk(w, target)
    ensures walked.Success? ==> IsWalk(w, target, walked.value)
    ensures walked.Success? ==> walked.value != [] && computed == Success(walked.value[|walked.value| - 1])
  {
    hide IsComputed, Orderly, SinceDeploy, IsWalk, IsCause;
    var engine := new Engine(w);
    walked := engine.Walk(target);
    computed := engine.Compute(target);
    match walked
    case Failure(_) =>
    case Success(rs) =>
      NonEmptyWalk(w, target, rs);
      WalkIsComputed(w, target, rs);
      WalkEndsInCompute(w, target, rs, computed.value);
  }

  /** A World with nothing to refuse an Epoch for has its Walk, and a new Engine makes it. */
  method WalkWhenClear(w: World, target: nat) returns (walked: Result<seq<EpochResult>, EngineError>)
    requires Sound(w) && Clear(w, target, ByWalk)
    ensures walked.Success? && IsWalk(w, target, walked.value)
  {
    hide IsCause, IsWalk, Sound;
    var engine := new Engine(w);
    walked := engine.Walk(target);
    match walked
    case Failure(e) => NothingToRefuse(w, target, ByWalk, e);
    case Success(_) =>
  }

  lemma NonEmptyWalk(w: World, target: nat, rs: seq<EpochResult>)
    requires Sound(w) && IsWalk(w, target, rs)
    ensures rs != []
  {
  }

  /** Every earlier link of a Walk that can be made is Compute of its Epoch but for the end block, when
      Roots are posted after their Epochs close. */
  method ComputeLinks(w: World, target: nat)
    returns (links: seq<EpochResult>, computed: seq<Result<EpochResult, EngineError>>)
    requires Sound(w) && InRange(target) && CanWalk(w, target) && PostedAfterClose(w)
    requires NonDecreasing(w.chain) && Orderly(w.dist.book, w.dist.stream) && SinceDeploy(w)
    ensures exists last :: IsWalk(w, target, links + [last])
    ensures |computed| == |links|
    ensures forall k :: 0 <= k < |links| ==>
      computed[k].Success? && links[k] == computed[k].value.(endBlock := None)
  {
    hide IsComputed, Orderly, SinceDeploy, IsWalk, IsCause, CanWalk, PostedAfterClose, CanCompute, Sound,
      NonDecreasing, Engine.LedgerOk, Book.Valid;
    var engine := new Engine(w);
    var walked := engine.Walk(target);
    match walked
    case Success(rs) =>
      NonEmptyWalk(w, target, rs);
      links := rs[..|rs| - 1];
      assert links + [rs[|rs| - 1]] == rs;
      computed := [];
      var k := 0;
      while k < |links|
        invariant 0 <= k <= |links| && |computed| == k
        invariant engine.Valid() && fresh(engine) && fresh(engine.book) && fresh(engine.inner) && engine.world == w
        invariant engine.Unfailed()
        invariant forall i :: 0 <= i < k ==> computed[i].Success? && links[i] == computed[i].value.(endBlock := None)
      {
        LinkCanBeComputed(w, target, rs, k);
        var c := engine.Compute(links[k].epoch);
        LinksAreComputes(w, target, rs, k, c.value);
        computed := computed + [c];
        k := k + 1;
      }
  }

  lemma LinkCanBeComputed(w: World, target: nat, rs: seq<EpochResult>, k: nat)
    requires Sound(w) && PostedAfterClose(w) && IsWalk(w, target, rs) && k < |rs| - 1
    requires NonDecreasing(w.chain) && Orderly(w.dist.book, w.dist.stream) && SinceDeploy(w)
    ensures InRange(rs[k].epoch) && CanCompute(w, rs[k].epoch)
  {
    hide Sound, Orderly, SinceDeploy, PostedAfterClose, EndsAt, Served, IsResult, Roots.Standing, IsComputed;
    var r := rs[k];
    assert rs[..|rs| - 1][k] == r && IsLink(w, rs[..|rs| - 1], k);
    LinkCloses(w, target, r.epoch, rs[|rs| - 1].endBlock.value);
    var b := EndExists(w, r.epoch);
    AfterCloseIsServed(w, r.epoch, b);
    LinkIsComputed(w, target, rs, k, b);
  }

  // ------------------------------------------------------------------ Epochs in any order

  /** Epochs asked about in any order, repeats and all, over a history the rules accept through each of
      them: every answer is Replay's. */
  method InAnyOrder(w: World, ids: seq<nat>) returns (rs: seq<seq<Holder>>)
    requires Sound(w)
    requires forall i :: 0 <= i < |ids| ==> InRange(ids[i]) && Acceptable(w.history, WindowOf(ids[i]).end)
    ensures |rs| == |ids|
    ensures forall i :: 0 <= i < |ids| ==>
      IsOutcome(Success(rs[i]), w.history, w.exclusions, WindowOf(ids[i]))
  {
    hide IsHolders, FirstFault, Acceptable, SortedByTimestamp;
    var engine := new Engine(w);
    rs := [];
    var i := 0;
    while i < |ids|
      invariant 0 <= i <= |ids| && |rs| == i
      invariant engine.LedgerOk() && fresh(engine) && fresh(engine.inner) && engine.world == w
      invariant engine.ledger == null || engine.ledger.failed.None?
      invariant forall k :: 0 <= k < i ==> IsOutcome(Success(rs[k]), w.history, w.exclusions, WindowOf(ids[k]))
    {
      var r := engine.Holders(ids[i]);
      Judgement.RejectedIffUnacceptable(w.history, WindowOf(ids[i]).end);
      rs := rs + [r.value];
      i := i + 1;
    }
  }

  /** Asked about an Epoch the rules refuse, the Engine goes on refusing from its floor up, an earlier
      Epoch the rules accept among them. */
  method AfterARefusal(w: World, late: nat, early: nat)
    returns (refused: Result<seq<Holder>, Replay.Error>, again: Result<seq<Holder>, Replay.Error>,
             replayed: Result<seq<Holder>, Replay.Error>)
    requires Sound(w) && InRange(late) && InRange(early)
    requires !Acceptable(w.history, WindowOf(late).end) && Acceptable(w.history, WindowOf(early).end)
    ensures refused.Failure? && again == refused && replayed.Success?
    ensures IsOutcome(replayed, w.history, w.exclusions, WindowOf(early))
  {
    hide IsHolders, FirstFault, Acceptable, SortedByTimestamp;
    var engine := new Engine(w);
    refused := engine.Holders(late);
    Judgement.RejectedIffUnacceptable(w.history, WindowOf(late).end);
    Judgement.RejectedIffUnacceptable(w.history, WindowOf(early).end);
    again := engine.Holders(early);
    replayed := Replay.Replay(early, w.history, w.exclusions);
  }

  /** Such a history: one send, in Epoch 1, of something never received. */
  lemma RefusalExample(h: seq<Transfer>)
    requires h == [Transfer(5000, 1, 2, Some(1))]
    ensures Acceptable(h, WindowOf(0).end) && !Acceptable(h, WindowOf(1).end)
  {
    assert h[..0] == [];
    forall a: Address, s | s < WindowOf(0).end ensures BalanceAt(h, a, s) == 0 {
      assert Before(h, s + 1) == [];
    }
    assert Before(h, 5001) == h;
    assert Delta(h[0], 1) == -1 && Balance(h, 1) == -1;
    assert BalanceAt(h, 1, 5000) == -1;
  }
}
