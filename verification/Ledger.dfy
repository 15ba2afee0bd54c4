/** The Ledger: a walk over one history that stops at each Epoch asked for, and agrees with Replay there. */
module Ledger {
  import opened Wrappers
  import opened History
  import opened Replay

  class Ledger {
    ghost const transfers: seq<Transfer>
    const ordered: seq<Transfer>
    const exclusions: seq<Exclusion>
    const state: ReplayState
    var next: nat
    var floor: nat
    var failed: Option<Fault>

    ghost function Repr(): set<object>
      reads this, state
    {
      {this, state} + state.balances.Values
    }

    /** The fault this history has, wherever it lies. */
    ghost function Fault(): Option<Fault> {
      FirstFault(SortedByTimestamp(transfers), 0)
    }

    ghost predicate Valid()
      reads this, state, state.balances.Values
    {
      && ordered == SortedByTimestamp(transfers)
      && state.Valid()
      && match failed
         case Some(e) => Fault() == failed
         case None => state.Settled(ordered, next, EPOCH_SECONDS * floor)
    }

    constructor (transfers: seq<Transfer>, exclusions: seq<Exclusion>)
      ensures Valid() && fresh(Repr())
      ensures this.transfers == transfers && this.exclusions == exclusions
      ensures floor == 0 && failed.None?
    {
      this.transfers := transfers;
      this.exclusions := exclusions;
      ordered := SortedByTimestamp(transfers);
      state := new ReplayState(Window(0, 0));
      next, floor, failed := 0, 0, None;
    }

    lemma FailedIsFault()
      requires Valid()
      ensures failed.Some? ==> failed == FirstFault(SortedByTimestamp(transfers), 0)
    {
    }

    /** Advance past its two refusals. */
    method CloseNext(epoch: nat) returns (r: Result<seq<Holder>, Error>)
      requires Valid() && failed.None? && epoch >= floor && InRange(epoch)
      modifies this, state, state.balances.Values
      ensures Valid() && fresh(Repr() - old(Repr()))
      ensures IsOutcome(r, transfers, exclusions, WindowOf(epoch))
      ensures if r.Success? then failed.None? && floor == epoch + 1
        else r.error.Rejected? && failed == Some(r.error.fault) && floor == old(floor)
    {
      hide IsOutcome, FirstFault, SortedByTimestamp;
      var window := WindowOf(epoch);
      state.Resume(window, ordered, next, EPOCH_SECONDS * floor);
      assert failed.None? && floor == old(floor);
      var i;
      i, r := state.Finish(ordered, next, exclusions, transfers);
      assert failed.None? && floor == old(floor);
      if r.Failure? {
        failed := Some(r.error.fault);
      } else {
        assert window.end == EPOCH_SECONDS * (epoch + 1);
        next, floor := i, epoch + 1;
        assert state.Settled(ordered, next, EPOCH_SECONDS * floor);
      }
    }

    /** Closes one Epoch: what Replay makes of it over the same history. */
    method Advance(epoch: nat) returns (r: Result<seq<Holder>, Error>)
      requires Valid() && InRange(epoch)
      modifies this, state, state.balances.Values
      ensures Valid() && fresh(Repr() - old(Repr()))
      ensures old(failed).Some? ==> r == Failure(Rejected(old(failed).value))
      ensures old(failed).None? && epoch < old(floor) ==> r == Failure(Closed(epoch, old(floor)))
      ensures old(failed).Some? || epoch < old(floor) ==> failed == old(failed) && floor == old(floor)
      ensures old(failed).None? && epoch >= old(floor) ==> IsOutcome(r, transfers, exclusions, WindowOf(epoch))
      ensures old(failed).None? && epoch >= old(floor) ==>
        if r.Success? then failed.None? && floor == epoch + 1
        else r.error.Rejected? && failed == Some(r.error.fault) && floor == old(floor)
    {
      if failed.Some? {
        return Failure(Rejected(failed.value));
      }
      if epoch < floor {
        return Failure(Closed(epoch, floor));
      }
      r := CloseNext(epoch);
    }
  }

  predicate Increasing(epochs: seq<nat>) {
    forall i, j :: 0 <= i < j < |epochs| ==> epochs[i] < epochs[j]
  }

  /** The Ledger has been refused already, for something within the Epoch, or stands before it. */
  ghost predicate Ready(l: Ledger, epoch: nat)
    requires InRange(epoch)
    reads l
  {
    match l.failed
    case Some(e) => e.at < WindowOf(epoch).end
    case None => l.floor <= epoch
  }

  /** Asked about an Epoch it has not passed, a Ledger answers as a Replay from scratch does. */
  method BothWays(l: Ledger, epoch: nat, transfers: seq<Transfer>)
    returns (a: Result<seq<Holder>, Error>, r: Result<seq<Holder>, Error>)
    requires l.transfers == transfers
    requires l.Valid() && InRange(epoch) && Ready(l, epoch)
    modifies l, l.state, l.state.balances.Values
    ensures l.Valid() && fresh(l.Repr() - old(l.Repr()))
    ensures IsOutcome(a, transfers, l.exclusions, WindowOf(epoch)) && a == r
    ensures forall later :: epoch < later && InRange(later) ==> Ready(l, later)
  {
    a := l.Advance(epoch);
    r := Replay.Replay(epoch, transfers, l.exclusions);
    OutcomeUnique(a, r, transfers, l.exclusions, WindowOf(epoch));
  }

  /** One Ledger taken through any increasing Epochs, gaps or not, answers each of them as a Replay
      from scratch does: the same Holders in the same order, or the same refusal. */
  method AdvanceAgreesWithReplay(transfers: seq<Transfer>, exclusions: seq<Exclusion>, epochs: seq<nat>)
    returns (advanced: seq<Result<seq<Holder>, Error>>, replayed: seq<Result<seq<Holder>, Error>>)
    requires Increasing(epochs) && forall e :: e in epochs ==> InRange(e)
    ensures |advanced| == |epochs| && advanced == replayed
    ensures forall k :: 0 <= k < |epochs| ==> IsOutcome(advanced[k], transfers, exclusions, WindowOf(epochs[k]))
  {
    hide IsOutcome;
    var ledger := new Ledger(transfers, exclusions);
    advanced, replayed := [], [];
    var k := 0;
    while k < |epochs|
      invariant 0 <= k <= |epochs| && |advanced| == k && advanced == replayed
      invariant ledger.Valid() && fresh(ledger.Repr())
      invariant ledger.transfers == transfers && ledger.exclusions == exclusions
      invariant k < |epochs| ==> Ready(ledger, epochs[k])
      invariant forall i :: 0 <= i < k ==> IsOutcome(advanced[i], transfers, exclusions, WindowOf(epochs[i]))
    {
      var a, r := BothWays(ledger, epochs[k], transfers);
      advanced, replayed := advanced + [a], replayed + [r];
      k := k + 1;
    }
  }
}
