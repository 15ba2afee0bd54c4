/** From the Cache to the rules: the history an Engine replays, and why it is the chain's. */
module Feed {
  import opened Wrappers
  import opened Bytes
  import opened History
  import opened Records
  import opened ChainView
  import opened Cache
  import opened Following
  import Replay
  import Judgement

  /** A record in the rules' own type. */
  function TransferOf(r: Record): Transfer {
    Transfer(r.timestamp, r.from, r.to, r.value)
  }

  function TransfersOf(rs: seq<Record>): (h: seq<Transfer>)
    ensures |h| == |rs| && forall i :: 0 <= i < |h| ==> h[i] == TransferOf(rs[i])
  {
    seq(|rs|, i requires 0 <= i < |rs| => TransferOf(rs[i]))
  }

  // ------------------------------------------------------------------ what records mean

  /** The value of a record, if there is one to speak of. */
  function Worth(r: Record): nat {
    if r.value.Some? && r.value.value > 0 then r.value.value else 0
  }

  /** What the records stamped through second s brought to a. */
  function Brought(rs: seq<Record>, a: Address, s: int): nat {
    if rs == [] then 0
    else
      var r := rs[|rs| - 1];
      Brought(rs[..|rs| - 1], a, s) + if r.to == a && r.timestamp <= s then Worth(r) else 0
  }

  /** What they took from it. */
  function Took(rs: seq<Record>, a: Address, s: int): nat {
    if rs == [] then 0
    else
      var r := rs[|rs| - 1];
      Took(rs[..|rs| - 1], a, s) + if r.from == a && r.timestamp <= s then Worth(r) else 0
  }

  /** The balance of every address at every second is what the records brought it less what they took. */
  lemma {:induction false} BalanceOfRecords(rs: seq<Record>, a: Address, s: int)
    ensures BalanceAt(TransfersOf(rs), a, s) == Brought(rs, a, s) - Took(rs, a, s)
  {
    if rs != [] {
      var init, last := rs[..|rs| - 1], rs[|rs| - 1];
      BalanceOfRecords(init, a, s);
      assert TransfersOf(rs) == TransfersOf(init) + [TransferOf(last)];
      hide TransfersOf, BalanceAt;
      OneMoreTransfer(TransfersOf(init), TransferOf(last), a, s);
    }
  }

  lemma OneTransfer(tr: Transfer, a: Address, end: int)
    ensures Before([tr], end) == if tr.timestamp < end then [tr] else []
    ensures Balance([tr], a) == Delta(tr, a) && Balance([], a) == 0
  {
    assert [tr][..0] == [];
  }

  lemma OneMoreTransfer(h: seq<Transfer>, tr: Transfer, a: Address, s: int)
    ensures BalanceAt(h + [tr], a, s) == BalanceAt(h, a, s) + if tr.timestamp <= s then Delta(tr, a) else 0
  {
    hide Before, Balance, Delta;
    OneTransfer(tr, a, s + 1);
    BeforeAppend(h, [tr], s + 1);
    BalanceAppend(Before(h, s + 1), Before([tr], s + 1), a);
  }

  /** x is the least stamp below end of a record that brought a something; None when there is no such record. */
  ghost predicate IsFirstBuy(x: Option<int>, rs: seq<Record>, a: Address, end: int) {
    match x
    case None => forall i :: 0 <= i < |rs| && rs[i].timestamp < end && rs[i].to == a ==> Worth(rs[i]) == 0
    case Some(at) =>
      && (exists i :: 0 <= i < |rs| && rs[i].timestamp == at < end && rs[i].to == a && Worth(rs[i]) > 0)
      && (forall i :: 0 <= i < |rs| && rs[i].timestamp < at && rs[i].to == a ==> Worth(rs[i]) == 0)
  }

  /** x is the greatest stamp below end of a record that took something from a; None when there is none. */
  ghost predicate IsLastSell(x: Option<int>, rs: seq<Record>, a: Address, end: int) {
    match x
    case None => forall i :: 0 <= i < |rs| && rs[i].timestamp < end && rs[i].from == a ==> Worth(rs[i]) == 0
    case Some(at) =>
      && (exists i :: 0 <= i < |rs| && rs[i].timestamp == at < end && rs[i].from == a && Worth(rs[i]) > 0)
      && (forall i :: 0 <= i < |rs| && at < rs[i].timestamp < end && rs[i].from == a ==> Worth(rs[i]) == 0)
  }

  /** What is in a history below end is what the records stamped below it are. */
  lemma RecordsBefore(rs: seq<Record>, end: int)
    ensures
      var b := Before(TransfersOf(rs), end);
      && (forall i :: 0 <= i < |rs| && rs[i].timestamp < end ==> TransferOf(rs[i]) in b)
      && (forall tr :: tr in b ==> tr.timestamp < end && exists i :: 0 <= i < |rs| && tr == TransferOf(rs[i]))
  {
    var h := TransfersOf(rs);
    BeforeElements(h, end);
    forall i | 0 <= i < |rs| && rs[i].timestamp < end ensures TransferOf(rs[i]) in Before(h, end) {
      assert h[i] in h;
    }
    forall tr | tr in Before(h, end) ensures exists i :: 0 <= i < |rs| && tr == TransferOf(rs[i]) {
      var i :| 0 <= i < |h| && h[i] == tr;
    }
  }

  lemma FirstBuyOfRecords(rs: seq<Record>, a: Address, end: int)
    ensures IsFirstBuy(FirstBuy(Before(TransfersOf(rs), end), a), rs, a, end)
  {
    var b := Before(TransfersOf(rs), end);
    FirstBuyIsEarliest(b, a);
    RecordsBefore(rs, end);
    hide Before, FirstBuy, TransfersOf;
    if FirstBuy(b, a).Some? {
      var tr :| tr in b && Received(tr, a) && tr.timestamp == FirstBuy(b, a).value;
      var i :| 0 <= i < |rs| && tr == TransferOf(rs[i]);
      assert Worth(rs[i]) > 0;
    }
  }

  lemma LastSellOfRecords(rs: seq<Record>, a: Address, end: int)
    ensures IsLastSell(LastSell(Before(TransfersOf(rs), end), a), rs, a, end)
  {
    var b := Before(TransfersOf(rs), end);
    LastSellIsLatest(b, a);
    RecordsBefore(rs, end);
    hide Before, LastSell, TransfersOf;
    if LastSell(b, a).Some? {
      var tr :| tr in b && Sent(tr, a) && tr.timestamp == LastSell(b, a).value;
      var i :| 0 <= i < |rs| && tr == TransferOf(rs[i]);
      assert Worth(rs[i]) > 0;
    }
  }

  /** h says of every address what the records do, at every second below time. */
  ghost predicate Tells(h: seq<Transfer>, rs: seq<Record>, time: int) {
    && (forall a: Address, s: int :: s < time ==> BalanceAt(h, a, s) == Brought(rs, a, s) - Took(rs, a, s))
    && (forall a: Address, end: int :: end <= time ==>
          && IsFirstBuy(FirstBuy(Before(h, end), a), rs, a, end)
          && IsLastSell(LastSell(Before(h, end), a), rs, a, end))
  }

  lemma SameTells(h: seq<Transfer>, rs: seq<Record>, time: int)
    requires SameUntil(h, TransfersOf(rs), time)
    ensures Tells(h, rs, time)
  {
    hide IsFirstBuy, IsLastSell, TransfersOf;
    forall a: Address, s: int | s < time ensures BalanceAt(h, a, s) == Brought(rs, a, s) - Took(rs, a, s) {
      BalanceOfRecords(rs, a, s);
    }
    forall a: Address, end: int | end <= time
      ensures IsFirstBuy(FirstBuy(Before(h, end), a), rs, a, end)
      ensures IsLastSell(LastSell(Before(h, end), a), rs, a, end)
    {
      FirstBuyOfRecords(rs, a, end);
      LastSellOfRecords(rs, a, end);
      assert Before(h, end) == Before(TransfersOf(rs), end);
    }
  }

  // ------------------------------------------------------------------ what the chain's records come to

  /** h and g say the same of every instant up to end. */
  ghost predicate SameUntil(h: seq<Transfer>, g: seq<Transfer>, end: int) {
    forall e :: e <= end ==> Before(h, e) == Before(g, e)
  }

  /** Records past the tip are stamped no earlier than the tip is. */
  ghost predicate LaterPastTip(rs: seq<Record>, tip: nat, time: int) {
    forall i :: 0 <= i < |rs| && rs[i].blockNumber > tip ==> time <= rs[i].timestamp
  }

  /** A finished Sync of what was held leaves the chain's records through the tip (Following.FreshIff). */
  ghost predicate Fresh(src: Source, was: seq<Record>, start: nat, tip: uint64) {
    || Through(was, start) <= tip + 1
    || !NewestStands(src, was, tip)
    || Unread(src.view, was, start, tip) == []
  }

  lemma {:induction false} BeforeNone(h: seq<Transfer>, end: int)
    requires forall i :: 0 <= i < |h| ==> end <= h[i].timestamp
    ensures Before(h, end) == []
  {
    if h != [] {
      BeforeNone(h[..|h| - 1], end);
    }
  }

  /** Records past the tip add nothing below the tip's own instant. */
  lemma ThroughTipSuffices(rs: seq<Record>, tip: nat, time: int)
    requires Forward(rs) && LaterPastTip(rs, tip, time)
    ensures SameUntil(TransfersOf(rs), TransfersOf(ThroughTip(rs, tip)), time)
  {
    var n := CountBelow(rs, tip + 1);
    CountBelowIs(rs, tip + 1);
    var tail := TransfersOf(rs[n..]);
    assert TransfersOf(rs) == TransfersOf(rs[..n]) + tail;
    LaterAdds(TransfersOf(rs[..n]), tail, time);
  }

  lemma LaterAdds(h: seq<Transfer>, tail: seq<Transfer>, time: int)
    requires forall i :: 0 <= i < |tail| ==> time <= tail[i].timestamp
    ensures SameUntil(h + tail, h, time)
  {
    forall e | e <= time ensures Before(h + tail, e) == Before(h, e) {
      BeforeAppend(h, tail, e);
      BeforeNone(tail, e);
    }
  }

  /** What a finished Sync holds, read as a history, is the chain's through the tip as far as the tip's
      instant. */
  lemma HeldIsChain(v: View, src: Source, was: seq<Record>, now: seq<Record>, start: nat, tip: uint64,
                    reorg: Option<Reorg>, w: View, time: int)
    requires Follows(v, src, was, start) && Forward(was) && Forward(now) && tip < MAX_UINT64
    requires Advanced(v, src, was, now, start, tip, true, reorg, w)
    requires Fresh(src, was, start, tip) && LaterPastTip(was, tip, time)
    ensures SameUntil(TransfersOf(now), TransfersOf(RecordsOf(src.view, start, tip + 1)), time)
  {
    FreshIff(v, src, was, now, start, tip, reorg, w);
    if Through(was, start) > tip + 1 && reorg.None? {
      ThroughTipSuffices(now, tip, time);
    } else {
      HeldInBlocks(w, now, start);
      RecordsBetween(src.view, start, tip + 1);
      ThroughTipSuffices(now, tip, time);
    }
  }

  /** The records held, one by one in the rules' type. */
  method Convert(rs: seq<Record>) returns (h: seq<Transfer>)
    ensures h == TransfersOf(rs)
    ensures forall i :: 0 <= i < |rs| ==>
      h[i].timestamp == rs[i].timestamp && h[i].from == rs[i].from && h[i].to == rs[i].to && h[i].value == rs[i].value
  {
    h := [];
    var i := 0;
    while i < |rs|
      invariant 0 <= i <= |rs| && |h| == i
      invariant forall k :: 0 <= k < i ==> h[k] == TransferOf(rs[k])
    {
      h := h + [TransferOf(rs[i])];
      i := i + 1;
    }
  }

  /** Writes a Cache out, opens it again and reads everything back through a fresh scan. */
  method ReadAgain(c: Cache, ghost w: View) returns (rs: seq<Record>)
    requires c.Valid() && ChainView.WellFormed(w) && WholeBlocks(w, c.held, c.start)
    modifies c
    ensures rs == old(c.held)
  {
    hide Log, Stored, RecordsOf, ChainView.WellFormed, WholeBlocks;
    c.Flush();
    c.FlushedIsLog();
    AllIntact(c.crc, c.start, c.held, c.file);
    var d := Reopen(c.crc, c.start, c.file, w, c.held, |c.held|);
    assert c.held[..|c.held|] == c.held;
    var read := d.Each();
    match read
    case Success(all) => rs := all;
  }

  lemma AllIntact(crc: Crc, start: uint64, rs: seq<Record>, f: seq<byte>)
    requires Orderly(start, rs) && f == Log(crc, rs)
    ensures Intact(crc, rs, f, |rs|) && Ends(crc, start, rs, f, |rs|)
  {
  }

  /** Opens the Cache, brings it to the tip, reopens it and reads the history: a file whose first k records
      are as written, with any damage after them one a scan can see. The history is the chain's through the
      tip as far as the tip's instant, when Sync leaves the chain's records through the tip. */
  method LoadHistory(crc: Crc, start: uint64, f: seq<byte>, src: Source, tip: Tip, ghost time: int, chunk: uint64,
                     ghost v: View, ghost whole: seq<Record>, ghost k: nat)
    returns (r: Result<seq<Transfer>, Error>, ghost was: seq<Record>)
    requires Orderly(start, whole) && Intact(crc, whole, f, k) && Ends(crc, start, whole, f, k)
    requires |f| != STRIDE * k || BetweenBlocks(whole, k)
    requires Follows(v, src, whole, start) && tip.number < MAX_UINT64
    ensures was == Recovered(whole, f, k)
    ensures r.Failure? ==> r.error == if tip.hash == ZERO_HASH then NoTipHash else SourceFailed
    ensures r.Failure? <==> tip.hash == ZERO_HASH || ReadUnread(src, was, start, tip.number, ChunkOf(chunk))
    ensures r.Success? && Fresh(src, was, start, tip.number) && LaterPastTip(was, tip.number, time) ==>
      var there := RecordsOf(src.view, start, tip.number + 1);
      SameUntil(r.value, TransfersOf(there), time) && Tells(r.value, there, time)
  {
    hide Tells, Log, Stored, RecordsOf, ChainView.WellFormed, Linked, WholeBlocks, Intact, Ends, Advanced, Fresh,
      LaterPastTip, SameUntil, ReadUnread;
    var c := Reopen(crc, start, f, v, whole, k);
    was := c.held;
    var e, synced;
    ghost var w;
    e, synced, w := c.Sync(src, tip, chunk, v);
    if e.Some? {
      return Failure(e.value), was;
    }
    ghost var now := c.held;
    AdvancedIsWhole(v, src, was, now, start, tip.number, synced.reorg, w);
    var rs := ReadAgain(c, w);
    var h := Convert(rs);
    if Fresh(src, was, start, tip.number) && LaterPastTip(was, tip.number, time) {
      HeldIsChain(v, src, was, now, start, tip.number, synced.reorg, w, time);
      SameTells(h, RecordsOf(src.view, start, tip.number + 1), time);
    }
    r := Success(h);
  }

  lemma AdvancedIsWhole(v: View, src: Source, was: seq<Record>, now: seq<Record>, start: nat, tip: uint64,
                        reorg: Option<Reorg>, w: View)
    requires Follows(v, src, was, start) && Advanced(v, src, was, now, start, tip, true, reorg, w)
    ensures ChainView.WellFormed(w) && WholeBlocks(w, now, start)
  {
    hide ChainView.WellFormed, WholeBlocks;
  }

  /** Histories that say the same up to an Epoch's close come to the same. */
  lemma SameOutcome(h: seq<Transfer>, g: seq<Transfer>, end: int, x: seq<Exclusion>, w: Window,
                    a: Result<seq<Holder>, Replay.Error>, b: Result<seq<Holder>, Replay.Error>)
    requires SameUntil(h, g, end) && w.end <= end
    requires Replay.IsOutcome(a, h, x, w) && Replay.IsOutcome(b, g, x, w)
    ensures a.Success? <==> b.Success?
    ensures a.Success? ==> a == b
  {
    Judgement.LongerHistory(a, b, h, g, x, w);
  }
}
