/** When a history is rejected: judging only the senders of a block, once the block is complete,
    comes to judging every balance at every second. */
module Judgement {
  import opened Wrappers
  import opened History
  import opened Replay
  import Sorting

  /** o is cut at j between two seconds, with something behind the cut. */
  predicate Boundary(o: seq<Transfer>, j: nat) {
    0 < j <= |o| && (j < |o| ==> o[j - 1].timestamp < o[j].timestamp)
  }

  /** From its i-th transfer on, o holds no bad value and overdraws nobody at the end of a block,
      below end. */
  ghost predicate SoundFrom(o: seq<Transfer>, i: nat, end: int) {
    && (forall k :: i <= k < |o| && o[k].timestamp < end ==> WellFormed(o[k]))
    && (forall a: Address, j: nat :: a != ZERO && i < j && Boundary(o, j) && o[j - 1].timestamp < end
         ==> Balance(o[..j], a) >= 0)
  }

  lemma {:induction false} NoneBad(o: seq<Transfer>, i: nat, j: nat)
    requires i <= j <= |o|
    ensures FirstBad(o, i, j).None? <==> forall k :: i <= k < j ==> WellFormed(o[k])
    decreases j - i
  {
    if i < j {
      NoneBad(o, i + 1, j);
    }
  }

  lemma {:induction false} NoneOverdrawn(h: seq<Transfer>, moved: seq<Address>, at: int)
    ensures FirstOverdrawn(h, moved, at).None? <==> forall a :: a in moved ==> Balance(h, a) >= 0
  {
    if moved != [] {
      NoneOverdrawn(h, moved[1..], at);
      assert moved == [moved[0]] + moved[1..];
      assert moved[0] in moved;
    }
  }

  /** An address that sends nothing among trs loses nothing by them, and senders are not ZERO. */
  lemma {:induction false} OnlySendersLose(trs: seq<Transfer>, a: Address)
    ensures a in Senders(trs) ==> a != ZERO
    ensures a != ZERO && a !in Senders(trs) ==> Balance(trs, a) >= 0
  {
    if trs != [] {
      OnlySendersLose(trs[..|trs| - 1], a);
    }
  }

  lemma BlockJudged(o: seq<Transfer>, i: nat)
    requires i < |o|
    requires forall a: Address :: a != ZERO ==> Balance(o[..i], a) >= 0
    ensures
      var j := BlockEnd(o, i);
      BlockFault(o, i).None? <==>
        && (forall k :: i <= k < j ==> WellFormed(o[k]))
        && (forall a: Address :: a != ZERO ==> Balance(o[..j], a) >= 0)
  {
    var j := BlockEnd(o, i);
    NoneBad(o, i, j);
    NoneOverdrawn(o[..j], Senders(o[i..j]), o[i].timestamp);
    forall a: Address | a != ZERO && a !in Senders(o[i..j]) ensures Balance(o[..j], a) >= 0 {
      assert o[..j] == o[..i] + o[i..j];
      BalanceAppend(o[..i], o[i..j], a);
      OnlySendersLose(o[i..j], a);
    }
    forall a | a in Senders(o[i..j]) ensures a != ZERO {
      OnlySendersLose(o[i..j], a);
    }
  }

  lemma NoBoundaryInside(o: seq<Transfer>, i: nat, m: nat)
    requires i < |o| && i < m && Boundary(o, m)
    ensures m >= BlockEnd(o, i)
  {
    var j := BlockEnd(o, i);
    assert forall k :: i < k < j ==> o[k - 1].timestamp == o[k].timestamp;
  }

  /** The boundaries after the i-th transfer are the end of its block and those past it. */
  lemma SoundAfterBlock(o: seq<Transfer>, i: nat, end: int)
    requires Ascending(o) && i < |o| && o[i].timestamp < end
    requires forall k :: i <= k < BlockEnd(o, i) ==> WellFormed(o[k])
    requires forall a: Address :: a != ZERO ==> Balance(o[..BlockEnd(o, i)], a) >= 0
    ensures SoundFrom(o, BlockEnd(o, i), end) ==> SoundFrom(o, i, end)
  {
    var j := BlockEnd(o, i);
    if SoundFrom(o, j, end) {
      forall a: Address, m: nat | a != ZERO && i < m && Boundary(o, m) && o[m - 1].timestamp < end
        ensures Balance(o[..m], a) >= 0
      {
        NoBoundaryInside(o, i, m);
        assert m == j || j < m;
      }
    }
  }

  lemma SoundBeforeBlock(o: seq<Transfer>, i: nat, end: int)
    requires Ascending(o) && i < |o| && o[i].timestamp < end && SoundFrom(o, i, end)
    ensures forall k :: i <= k < BlockEnd(o, i) ==> WellFormed(o[k])
    ensures forall a: Address :: a != ZERO ==> Balance(o[..BlockEnd(o, i)], a) >= 0
    ensures SoundFrom(o, BlockEnd(o, i), end)
  {
    assert Boundary(o, BlockEnd(o, i));
  }

  lemma {:induction false} FaultIffUnsound(o: seq<Transfer>, i: nat, end: int)
    requires Ascending(o) && i <= |o|
    requires forall a: Address :: a != ZERO ==> Balance(o[..i], a) >= 0
    ensures (FirstFault(o, i).None? || FirstFault(o, i).value.at >= end) <==> SoundFrom(o, i, end)
    decreases |o| - i
  {
    if i == |o| {
    } else if o[i].timestamp >= end {
      if FirstFault(o, i).Some? {
        FaultNoEarlier(o, i);
      }
    } else {
      BlockJudged(o, i);
      if SoundFrom(o, i, end) {
        SoundBeforeBlock(o, i, end);
      }
      if BlockFault(o, i).Some? {
        FaultKind(o, i);
      } else {
        FaultIffUnsound(o, BlockEnd(o, i), end);
        SoundAfterBlock(o, i, end);
      }
    }
  }

  /** The number of transfers at or before second s. */
  function CutAt(o: seq<Transfer>, s: int): (j: nat)
    requires Ascending(o)
    ensures j <= |o| && (forall k :: 0 <= k < j ==> o[k].timestamp <= s)
    ensures forall k :: j <= k < |o| ==> s < o[k].timestamp
  {
    if o == [] || o[|o| - 1].timestamp <= s then |o| else CutAt(o[..|o| - 1], s)
  }

  lemma BalanceAtCut(o: seq<Transfer>, a: Address, s: int)
    requires Ascending(o)
    ensures BalanceAt(o, a, s) == Balance(o[..CutAt(o, s)], a)
  {
    BeforeIsPrefix(o, CutAt(o, s), s + 1);
  }

  lemma SoundIffAcceptable(o: seq<Transfer>, end: int)
    requires Ascending(o)
    ensures SoundFrom(o, 0, end) <==> Acceptable(o, end)
  {
    if SoundFrom(o, 0, end) {
      forall a: Address, s | a != ZERO && s < end ensures BalanceAt(o, a, s) >= 0 {
        BalanceAtCut(o, a, s);
        var j := CutAt(o, s);
        if j > 0 {
          assert Boundary(o, j);
        }
      }
    }
    if Acceptable(o, end) {
      forall k | 0 <= k < |o| && o[k].timestamp < end ensures WellFormed(o[k]) {
        assert o[k] in o;
      }
      forall a: Address, j: nat | a != ZERO && Boundary(o, j) && o[j - 1].timestamp < end
        ensures Balance(o[..j], a) >= 0
      {
        BalanceAtCut(o, a, o[j - 1].timestamp);
        assert CutAt(o, o[j - 1].timestamp) == j;
      }
    }
  }

  /** A window is rejected exactly when some value below its end is missing or negative or somebody is
      short at the end of some second of it. */
  lemma RejectedIffUnacceptable(transfers: seq<Transfer>, end: int)
    ensures
      var fault := FirstFault(SortedByTimestamp(transfers), 0);
      (fault.Some? && fault.value.at < end) <==> !Acceptable(transfers, end)
  {
    var o := SortedByTimestamp(transfers);
    FaultIffUnsound(o, 0, end);
    SoundIffAcceptable(o, end);
    Sorting.SortPermutes(transfers, (tr: Transfer) => tr.timestamp);
    PermutedHistory(o, transfers, [], [], Window(0, end));
  }

  /** Closing an Epoch over a reordered history comes to the same: refused or not, and the same
      Holders. */
  lemma ReorderedOutcome(r: Result<seq<Holder>, Replay.Error>, s: Result<seq<Holder>, Replay.Error>,
                         h: seq<Transfer>, g: seq<Transfer>, x: seq<Exclusion>, w: Window)
    requires multiset(h) == multiset(g)
    requires IsOutcome(r, h, x, w) && IsOutcome(s, g, x, w)
    ensures r.Success? <==> s.Success?
    ensures r.Success? ==> r == s
  {
    RejectedIffUnacceptable(h, w.end);
    RejectedIffUnacceptable(g, w.end);
    PermutedHistory(h, g, [], x, w);
    if r.Success? {
      PermutedHistory(h, g, r.value, x, w);
      HoldersUnique(r.value, s.value, g, x, w);
    }
  }

  /** Transfers at or past the end of a window may be there or not. */
  lemma LongerHistory(r: Result<seq<Holder>, Replay.Error>, s: Result<seq<Holder>, Replay.Error>,
                      h: seq<Transfer>, g: seq<Transfer>, x: seq<Exclusion>, w: Window)
    requires Before(h, w.end) == Before(g, w.end)
    requires IsOutcome(r, h, x, w) && IsOutcome(s, g, x, w)
    ensures r.Success? <==> s.Success?
    ensures r.Success? ==> r == s
  {
    RejectedIffUnacceptable(h, w.end);
    RejectedIffUnacceptable(g, w.end);
    AcceptableBelow(h, w.end);
    AcceptableBelow(g, w.end);
    if r.Success? {
      HoldersUnique(r.value, s.value, g, x, w);
    }
  }

  // ------------------------------------------------------------------ what a fault names

  /** A fault of a sorted history names what is wrong with it: a transfer without a value or with a negative one,
      or an address that sent something at that second and holds less than nothing once it is over. */
  ghost predicate NamesCause(o: seq<Transfer>, f: Fault) {
    match f
    case NilValue(i, at) => i < |o| && o[i].value == None && o[i].timestamp == at
    case NegativeValue(i, at) => i < |o| && o[i].value.Some? && o[i].value.value < 0 && o[i].timestamp == at
    case Overdrawn(a, balance, at) =>
      && a != 0 && balance == BalanceAt(o, a, at) < 0
      && exists i :: 0 <= i < |o| && o[i].from == a && o[i].timestamp == at && Amount(o[i]) > 0
  }

  lemma {:induction false} BadNames(o: seq<Transfer>, i: nat, j: nat)
    requires i <= j <= |o| && FirstBad(o, i, j).Some?
    ensures NamesCause(o, FirstBad(o, i, j).value)
    decreases j - i
  {
    if BadValue(o[i], i).None? {
      BadNames(o, i + 1, j);
    }
  }

  lemma {:induction false} SenderSends(trs: seq<Transfer>, a: Address)
    requires a in Senders(trs)
    ensures a != 0 && exists i :: 0 <= i < |trs| && trs[i].from == a && Amount(trs[i]) > 0
  {
    var init, last := trs[..|trs| - 1], trs[|trs| - 1];
    if a in Senders(init) {
      SenderSends(init, a);
      var i :| 0 <= i < |init| && init[i].from == a && Amount(init[i]) > 0;
      assert trs[i] == init[i];
    }
  }

  lemma {:induction false} OverdrawnIs(h: seq<Transfer>, moved: seq<Address>, at: int)
    requires FirstOverdrawn(h, moved, at).Some?
    ensures
      var f := FirstOverdrawn(h, moved, at).value;
      f.Overdrawn? && f.account in moved && f.balance == Balance(h, f.account) < 0 && f.at == at
  {
    if Balance(h, moved[0]) >= 0 {
      OverdrawnIs(h, moved[1..], at);
    }
  }

  lemma BlockNames(o: seq<Transfer>, i: nat)
    requires Ascending(o) && i < |o| && BlockFault(o, i).Some?
    ensures NamesCause(o, BlockFault(o, i).value)
  {
    var j, at := BlockEnd(o, i), o[i].timestamp;
    if FirstBad(o, i, j).Some? {
      BadNames(o, i, j);
    } else {
      OverdrawnIs(o[..j], Senders(o[i..j]), at);
      var a := BlockFault(o, i).value.account;
      SenderSends(o[i..j], a);
      var k :| 0 <= k < j - i && o[i..j][k].from == a && Amount(o[i..j][k]) > 0;
      assert o[i + k].from == a && o[i + k].timestamp == at;
      BeforeIsPrefix(o, j, at + 1);
    }
  }

  /** The first fault of a history names its cause, and nothing is wrong at any second before it. */
  lemma {:induction false} FaultNamesCause(o: seq<Transfer>, i: nat)
    requires Ascending(o) && i <= |o| && FirstFault(o, i).Some?
    ensures NamesCause(o, FirstFault(o, i).value)
    decreases |o| - i
  {
    if BlockFault(o, i).Some? {
      BlockNames(o, i);
    } else {
      FaultNamesCause(o, BlockEnd(o, i));
    }
  }

  /** A refused Epoch is refused for a fault of its own history, and the history is in order before it. */
  lemma RefusalNamesCause(r: Result<seq<Holder>, Replay.Error>, transfers: seq<Transfer>, x: seq<Exclusion>, w: Window)
    requires IsOutcome(r, transfers, x, w) && r.Failure?
    ensures r.error.Rejected? && r.error.fault.at < w.end
    ensures NamesCause(SortedByTimestamp(transfers), r.error.fault)
    ensures Acceptable(transfers, r.error.fault.at)
  {
    FaultNamesCause(SortedByTimestamp(transfers), 0);
    RejectedIffUnacceptable(transfers, r.error.fault.at);
  }
}
