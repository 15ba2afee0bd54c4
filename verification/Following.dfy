/** What a Cache holds of the chain it follows: when it holds what a fresh one would, what reopening it
    leaves, and what any run of syncs and reopenings comes to. */
module Following {
  import opened Wrappers
  import opened Bytes
  import History
  import opened Records
  import opened Merkle
  import opened ChainView
  import opened Cache

  // ------------------------------------------------------------------ a tip below what is held

  /** The records at or below the tip. */
  function ThroughTip(rs: seq<Record>, tip: nat): (r: seq<Record>)
    ensures r <= rs
  {
    rs[..CountBelow(rs, tip + 1)]
  }

  lemma AllThroughTip(rs: seq<Record>, tip: nat)
    requires rs == [] || rs[|rs| - 1].blockNumber <= tip
    ensures ThroughTip(rs, tip) == rs
  {
  }

  /** The records of the blocks after the newest one held at or below the tip, through the tip. */
  function Unread(view: View, rs: seq<Record>, start: nat, tip: nat): seq<Record> {
    RecordsOf(view, Through(ThroughTip(rs, tip), start), tip + 1)
  }

  /** What is held at or below the tip is whole blocks of the chain when the newest of it stands. */
  lemma StandingPart(v: View, src: Source, was: seq<Record>, start: nat, tip: uint64)
    requires Follows(v, src, was, start) && Forward(was) && tip < MAX_UINT64 && NewestStands(src, was, tip)
    ensures WholeBlocks(v, ThroughTip(was, tip), start)
    ensures WholeBlocks(src.view, ThroughTip(was, tip), start)
  {
    var n := CountBelow(was, tip + 1);
    CountBelowIs(was, tip + 1);
    CutBetweenBlocks(v, was, start, n);
    if n > 0 {
      HeldInBlocks(v, was, start);
      assert InBlock(v, was[n - 1], was[n - 1].blockNumber);
    }
    WholeInBoth(v, src.view, was[..n], start);
  }

  lemma PartAndRest(view: View, part: seq<Record>, start: nat, tip: nat)
    requires WellFormed(view) && WholeBlocks(view, part, start)
    requires part == [] || part[|part| - 1].blockNumber <= tip
    ensures RecordsOf(view, start, tip + 1) == part + RecordsOf(view, Through(part, start), tip + 1)
  {
    ThroughAtLeast(view, part, start);
    if Through(part, start) <= tip + 1 {
      RecordsSplit(view, start, Through(part, start), tip + 1);
    } else {
      EmptyRange(view, start, tip + 1);
      EmptyRange(view, Through(part, start), tip + 1);
    }
  }

  /** A reorg is reported exactly when the newest record at or below the tip is off the chain. */
  lemma ReportedIffFallen(src: Source, was: seq<Record>, tip: uint64, reorg: Option<Reorg>)
    requires tip < MAX_UINT64 && ReportsFork(src, was, tip, reorg)
    ensures reorg.None? <==> NewestStands(src, was, tip)
  {
    if reorg.Some? {
      var n := CountBelow(was, tip + 1);
      var fork: nat :| ForksAt(src, was, tip, fork, reorg.value);
      assert !StillOn(src, was[n - 1]);
    }
  }

  /** A finished Sync leaves the chain's records through the tip exactly when nothing was held past it, or
      what was newest at or below it had left the chain, or the chain has no record between that and the
      tip. Blocks behind a Cache that runs past the tip are not read again. */
  lemma FreshIff(v: View, src: Source, was: seq<Record>, now: seq<Record>, start: nat, tip: uint64,
                 reorg: Option<Reorg>, w: View)
    requires Follows(v, src, was, start) && Forward(was) && tip < MAX_UINT64
    requires Advanced(v, src, was, now, start, tip, true, reorg, w)
    ensures ThroughTip(now, tip) == RecordsOf(src.view, start, tip + 1) <==>
      || Through(was, start) <= tip + 1
      || !NewestStands(src, was, tip)
      || Unread(src.view, was, start, tip) == []
  {
    ReportedIffFallen(src, was, tip, reorg);
    if Through(was, start) <= tip + 1 || reorg.Some? {
      RecordsBetween(src.view, start, tip + 1);
      AllThroughTip(now, tip);
    } else {
      CountBelowIs(was, tip + 1);
      StandingPart(v, src, was, start, tip);
      PartAndRest(src.view, ThroughTip(was, tip), start, tip);
      Same(ThroughTip(was, tip), Unread(src.view, was, start, tip));
    }
  }

  lemma Same(a: seq<Record>, b: seq<Record>)
    ensures a == a + b <==> b == []
  {
    assert |a + b| == |a| + |b|;
  }

  /** While the branch held and the chain have one block at the tip, a finished Sync is always fresh. */
  lemma SameTipIsFresh(v: View, src: Source, was: seq<Record>, now: seq<Record>, start: nat, tip: uint64,
                       reorg: Option<Reorg>, w: View)
    requires Follows(v, src, was, start) && Forward(was) && tip < MAX_UINT64
    requires Advanced(v, src, was, now, start, tip, true, reorg, w)
    requires v.hashAt(tip) == src.view.hashAt(tip)
    ensures ThroughTip(now, tip) == RecordsOf(src.view, start, tip + 1)
  {
    ReportedIffFallen(src, was, tip, reorg);
    if Through(was, start) > tip + 1 && reorg.None? {
      forall m: nat | m < tip + 1 ensures SameBlock(v, src.view, m) {
      }
      RecordsAgree(v, src.view, start, tip + 1);
      NothingBetween(v, was, start, tip);
    } else {
      RecordsBetween(src.view, start, tip + 1);
      AllThroughTip(now, tip);
    }
  }

  /** A Cache holds every record of its own branch through the tip. */
  lemma NothingBetween(v: View, was: seq<Record>, start: nat, tip: nat)
    requires WellFormed(v) && WholeBlocks(v, was, start) && Forward(was) && Through(was, start) > tip + 1
    ensures ThroughTip(was, tip) == RecordsOf(v, start, tip + 1)
  {
    CountBelowIs(was, tip + 1);
    HeldInBlocks(v, was, start);
    hide RecordsOf, CountBelow, WellFormed;
    if start <= tip + 1 {
      RecordsSplit(v, start, tip + 1, Through(was, start));
      RecordsBetween(v, start, tip + 1);
      RecordsBetween(v, tip + 1, Through(was, start));
      FirstBelow(was, RecordsOf(v, start, tip + 1), RecordsOf(v, tip + 1, Through(was, start)), tip + 1,
                 CountBelow(was, tip + 1));
    } else {
      EmptyRange(v, start, tip + 1);
      NoneBelow(was, tip + 1);
    }
  }

  lemma NoneBelow(rs: seq<Record>, block: int)
    requires Forward(rs) && forall i :: 0 <= i < |rs| ==> block <= rs[i].blockNumber
    ensures CountBelow(rs, block) == 0
  {
    CountBelowIs(rs, block);
    assert rs != [] ==> block <= rs[0].blockNumber;
  }

  lemma FirstBelow(rs: seq<Record>, head: seq<Record>, tail: seq<Record>, block: int, n: nat)
    requires rs == head + tail && n <= |rs|
    requires forall i :: 0 <= i < |head| ==> head[i].blockNumber < block
    requires forall i :: 0 <= i < |tail| ==> block <= tail[i].blockNumber
    requires forall i :: 0 <= i < |rs| ==> (rs[i].blockNumber < block <==> i < n)
    ensures rs[..n] == head
  {
    if head != [] {
      assert rs[|head| - 1] == head[|head| - 1];
    }
    if tail != [] {
      assert rs[|head|] == tail[0];
    }
  }

  // ------------------------------------------------------------------ a tip at the top of uint64

  /** With the tip at the top of uint64 every Cache passes the check, whatever it holds. */
  lemma NothingCheckedAtTheTop(src: Source, rs: seq<Record>)
    requires Forward(rs)
    ensures NewestStands(src, rs, MAX_UINT64)
  {
    CountBelowIs(rs, Wrapped(MAX_UINT64));
  }

  /** What a finished Sync leaves there is what a fresh one would exactly when the newest record held before it,
      if there was one, is still on the chain. */
  lemma AtTheTopIff(v: View, src: Source, was: seq<Record>, now: seq<Record>, start: uint64)
    requires Follows(v, src, was, start) && Forward(was)
    requires now == was + RecordsOf(src.view, Through(was, start), MAX_UINT64 + 1)
    ensures now == RecordsOf(src.view, start, MAX_UINT64 + 1) <==> was == [] || StillOn(src, was[|was| - 1])
  {
    var t := Through(was, start);
    ThroughAtLeast(v, was, start);
    ThroughAtMost(was, start);
    RecordsSplit(src.view, start, t, MAX_UINT64 + 1);
    SameFront(was, RecordsOf(src.view, start, t), RecordsOf(src.view, t, MAX_UINT64 + 1));
    NewestTells(v, src, was, start);
  }

  /** What is held is whole blocks of the chain exactly when the newest record of it stands. */
  lemma NewestTells(v: View, src: Source, was: seq<Record>, start: nat)
    requires Follows(v, src, was, start) && Forward(was)
    ensures WholeBlocks(src.view, was, start) <==> was == [] || StillOn(src, was[|was| - 1])
  {
    HeldInBlocks(v, was, start);
    if was == [] || StillOn(src, was[|was| - 1]) {
      WholeInBoth(v, src.view, was, start);
    }
    if WholeBlocks(src.view, was, start) {
      HeldInBlocks(src.view, was, start);
    }
  }

  lemma SameFront(a: seq<Record>, b: seq<Record>, c: seq<Record>)
    ensures a + c == b + c <==> a == b
  {
    if a + c == b + c {
      assert |a| == |b|;
      assert a == (a + c)[..|a|] && b == (b + c)[..|a|];
    }
  }

  // ------------------------------------------------------------------ a branch left behind past the tip

  /** A chain with a single record: hash h up to block 79, then its own. */
  function OneRecord(h: Hash, own: Hash, r: Record): View {
    View(n => if n < 80 then h else own, n => if n == r.blockNumber then [r] else [])
  }

  lemma {:induction false} Silent(view: View, lo: nat, hi: nat)
    requires forall n: nat :: lo <= n < hi ==> view.recordsAt(n) == []
    ensures RecordsOf(view, lo, hi) == []
    decreases hi - lo
  {
    if lo < hi {
      Silent(view, lo, hi - 1);
    }
  }

  lemma OneRecordHeld(h: Hash, own: Hash, r: Record, hi: nat)
    requires Storable(r) && r.blockHash == own && 80 <= r.blockNumber < hi
    ensures WellFormed(OneRecord(h, own, r))
    ensures RecordsOf(OneRecord(h, own, r), 0, hi) == [r]
  {
    var view := OneRecord(h, own, r);
    var b: nat := r.blockNumber;
    RecordsSplit(view, 0, b, hi);
    RecordsSplit(view, b, b + 1, hi);
    Silent(view, 0, b);
    Silent(view, b + 1, hi);
    EmptyRange(view, b, b);
  }

  lemma OneRecordLinked(h: Hash, own: Hash, other: Hash, r: Record, q: Record)
    requires own != h && other != h && own != other && r.blockNumber >= 80 && q.blockNumber >= 80
    ensures Linked(OneRecord(h, own, r), OneRecord(h, other, q))
    ensures OneRecord(h, other, q).hashAt(r.blockNumber) == other
  {
  }

  function Filled(x: byte): Hash {
    seq(32, _ => x)
  }

  lemma FilledDiffer()
    ensures forall x, y :: x != y ==> Filled(x) != Filled(y)
    ensures forall x :: x != 0 ==> Filled(x) != ZERO_HASH
  {
    forall x, y | x != y ensures Filled(x) != Filled(y) {
      assert Filled(x)[0] == x;
    }
    forall x | x != 0 ensures Filled(x) != ZERO_HASH {
      assert Filled(x)[0] == x && ZERO_HASH[0] == 0;
    }
  }

  /** A branch that leaves the chain at block 80 and has a record in block 97, while the chain has one in
      block 85. */
  method Branches() returns (src: Source, r: Record, ghost v: View)
    ensures WellFormed(v) && WellFormed(src.view) && Linked(v, src.view) && AlwaysRead(src)
    ensures r.blockNumber == 97 && Storable(r) && !StillOn(src, r) && RecordsOf(v, 0, 98) == [r]
    ensures var q := RecordsOf(src.view, 0, 91); |q| == 1 && q[0].blockNumber == 85
  {
    FilledDiffer();
    hide WellFormed, Linked, RecordsOf, OneRecord, Span, FitsUint256, Filled;
    var h, own, other := Filled(1), Filled(2), Filled(3);
    SmallFits(1);
    r := Record(97, own, 0, 0, 1, Some(1));
    var q := Record(85, other, 0, 0, 1, Some(1));
    OneRecordHeld(h, own, r, 98);
    OneRecordHeld(h, other, q, 91);
    OneRecordLinked(h, own, other, r, q);
    src := Source(OneRecord(h, other, q), (_, _) => false, _ => false);
    v := OneRecord(h, own, r);
  }

  /** A Cache that holds block 97 of such a branch holds just that after a finished Sync to block 90, and
      the chain's record of block 85 is never read. */
  method LeftBehind(crc: Crc) returns (c: Cache, e: Option<Error>, ghost src: Source)
    ensures c.Valid() && e.None? && WellFormed(src.view)
    ensures |c.held| == 1 && c.held[0].blockNumber == 97 && !StillOn(src, c.held[0])
    ensures |RecordsOf(src.view, 0, 91)| == 1 && RecordsOf(src.view, 0, 91)[0].blockNumber == 85
    ensures ThroughTip(c.held, 90) != RecordsOf(src.view, 0, 91)
  {
    hide RecordsOf, Linked, WellFormed, Span, CountBelow, FitsUint256, AppendOk, Storable, Log, StillOn;
    var there, r;
    ghost var v;
    there, r, v := Branches();
    src := there;
    c := new Cache(crc, 0);
    JustOne(r);
    var refused := c.Append([r]);
    assert c.held == [r];
    NothingStands(there, r, 90);
    NothingUnread(there, [r], 0, 90, DEFAULT_CHUNK);
    FilledDiffer();
    hide Advanced, Filled, NewestStands, ThroughTip;
    var synced;
    ghost var w;
    e, synced, w := c.Sync(there, Tip(90, Filled(1)), 0, v);
    PastTipUnchanged(v, there, [r], c.held, 90, synced.reorg, w);
  }

  /** A finished Sync leaves a Cache past the tip as it was, when nothing of it is off the chain below. */
  lemma PastTipUnchanged(v: View, src: Source, was: seq<Record>, now: seq<Record>, tip: uint64, reorg: Option<Reorg>,
                         w: View)
    requires tip < MAX_UINT64 && Advanced(v, src, was, now, 0, tip, true, reorg, w)
    requires NewestStands(src, was, tip) && Through(was, 0) > tip + 1
    ensures now == was
  {
    ReportedIffFallen(src, was, tip, reorg);
  }

  lemma SmallFits(x: History.Address)
    ensures FitsUint256(Some(x))
  {
    AddressFits(x);
  }

  lemma JustOne(r: Record)
    requires Storable(r)
    ensures AppendOk(0, [r]) && Forward([r])
  {
  }

  lemma NothingStands(src: Source, r: Record, tip: uint64)
    requires tip < r.blockNumber
    ensures NewestStands(src, [r], tip) && ThroughTip([r], tip) == [] && Through([r], 0) > tip + 1
  {
  }

  // ------------------------------------------------------------------ reopening

  /** The first k strides of f are those of the log of whole. */
  ghost predicate Intact(crc: Crc, whole: seq<Record>, f: seq<byte>, k: nat)
    requires AllStorable(whole)
  {
    k <= |whole| && STRIDE * k <= |f| && f[..STRIDE * k] == Log(crc, whole)[..STRIDE * k]
  }

  /** Strides no damage has reached scan to the records written. */
  lemma IntactScans(crc: Crc, start: uint64, whole: seq<Record>, f: seq<byte>, k: nat)
    requires Orderly(start, whole) && Intact(crc, whole, f, k)
    ensures Scans(crc, start, f, whole[..k])
  {
    forall i | 0 <= i < k ensures Decode(crc, Stride(f, i)) == Some(whole[..k][i]) {
      LogAt(crc, whole, i);
      SameStride(f, Log(crc, whole), k, i);
    }
  }

  lemma SameStride(f: seq<byte>, g: seq<byte>, k: nat, i: nat)
    requires i < k && STRIDE * k <= |f| && STRIDE * k <= |g| && f[..STRIDE * k] == g[..STRIDE * k]
    ensures Stride(f, i) == Stride(g, i)
  {
    assert Stride(f, i) == f[..STRIDE * k][STRIDE * i..STRIDE * i + STRIDE];
    assert Stride(g, i) == g[..STRIDE * k][STRIDE * i..STRIDE * i + STRIDE];
  }

  /** f ends after its first k strides, or the next one is the first that cannot be taken. */
  ghost predicate Ends(crc: Crc, start: uint64, whole: seq<Record>, f: seq<byte>, k: nat)
    requires k <= |whole| && STRIDE * k <= |f|
  {
    |f| == STRIDE * k || Trouble(crc, start, f, whole[..k]).Some?
  }

  /** The scan of a file that is sound through k records of a log and no further is those k records. */
  lemma ScanIsIntactPart(crc: Crc, start: uint64, whole: seq<Record>, f: seq<byte>, k: nat, rs: seq<Record>)
    requires Orderly(start, whole) && Intact(crc, whole, f, k) && Ends(crc, start, whole, f, k)
    requires ScanOf(crc, start, f, rs)
    ensures rs == whole[..k]
  {
    IntactScans(crc, start, whole, f, k);
    ScanUnique(crc, start, f, rs, whole[..k]);
  }

  /** What a reopening keeps of whole: the k records as written, less the block any damage after them falls in. */
  function Recovered(whole: seq<Record>, f: seq<byte>, k: nat): (r: seq<Record>)
    requires k <= |whole|
    ensures r <= whole
  {
    if |f| == STRIDE * k then whole[..k] else whole[..BlockStart(whole[..k])]
  }

  /** Reopens a file of which the first k records are as written. It held whole blocks, and it does again
      exactly when the damage can be seen, or the file ends between two blocks. */
  method Reopen(crc: Crc, start: uint64, f: seq<byte>, ghost v: View, ghost whole: seq<Record>, ghost k: nat)
    returns (c: Cache)
    requires Orderly(start, whole) && Intact(crc, whole, f, k) && Ends(crc, start, whole, f, k)
    requires WellFormed(v) && WholeBlocks(v, whole, start)
    ensures fresh(c) && c.Valid() && c.crc == crc && c.start == start && c.held == Recovered(whole, f, k)
    ensures WholeBlocks(v, c.held, start) <==> |f| != STRIDE * k || BetweenBlocks(whole, k)
  {
    hide Log, Stored, RecordsOf, WellFormed, Decode;
    ghost var rs;
    c, rs := Open(crc, start, f);
    ScanIsIntactPart(crc, start, whole, f, k, rs);
    if |f| == STRIDE * k {
      CutWholeIff(v, whole, start, k);
    } else {
      RepairLeavesWholeBlocks(v, start, whole, rs);
    }
  }

  ghost predicate BetweenBlocks(rs: seq<Record>, k: nat)
    requires k <= |rs|
  {
    k == 0 || k == |rs| || rs[k - 1].blockNumber < rs[k].blockNumber
  }

  // ------------------------------------------------------------------ any run

  /** One step of a Cache's life: a sync, or a reopening of what is left of its log. */
  datatype Run =
    | Syncing(src: Source, tip: Tip, chunk: uint64)
    | Reopening(damage: seq<byte> -> seq<byte>)

  /** f is what may be left of the log of whole: its first records, and then damage a scan can see, or the
      end of the file between two blocks. */
  ghost predicate Left(crc: Crc, start: uint64, whole: seq<Record>, f: seq<byte>)
    requires AllStorable(whole)
  {
    exists k: nat :: Intact(crc, whole, f, k) && Ends(crc, start, whole, f, k)
      && (|f| != STRIDE * k || BetweenBlocks(whole, k))
  }

  /** Whatever is held, what a reopening finds may be left of it. */
  ghost predicate Visible(crc: Crc, start: uint64, damage: seq<byte> -> seq<byte>) {
    forall rs :: Orderly(start, rs) ==> Left(crc, start, rs, damage(Log(crc, rs)))
  }

  /** One chain and its reorgs: every view is whole, and a block hash means the same in all of them. */
  ghost predicate OneHistory(v: View, runs: seq<Run>) {
    && WellFormed(v)
    && (forall i :: 0 <= i < |runs| && runs[i].Syncing? ==>
          WellFormed(runs[i].src.view) && Linked(v, runs[i].src.view) && runs[i].tip.number < MAX_UINT64)
    && (forall i, j :: 0 <= i < |runs| && 0 <= j < |runs| && runs[i].Syncing? && runs[j].Syncing? ==>
          Linked(runs[i].src.view, runs[j].src.view))
  }

  ghost predicate AllVisible(crc: Crc, start: uint64, runs: seq<Run>) {
    forall i :: 0 <= i < |runs| && runs[i].Reopening? ==> Visible(crc, start, runs[i].damage)
  }

  /** w is the view it all began with, or one that was synced from. */
  ghost predicate Seen(v: View, runs: seq<Run>, k: nat, w: View)
    requires k <= |runs|
  {
    w == v || exists i :: 0 <= i < k && runs[i].Syncing? && w == runs[i].src.view
  }

  lemma SeenFollows(v: View, runs: seq<Run>, k: nat, w: View)
    requires k < |runs| && runs[k].Syncing? && OneHistory(v, runs) && Seen(v, runs, k, w)
    ensures WellFormed(w) && Linked(w, runs[k].src.view)
    ensures Seen(v, runs, k + 1, w) && Seen(v, runs, k + 1, runs[k].src.view)
  {
    hide Linked, WellFormed;
  }

  lemma SeenIsWhole(v: View, runs: seq<Run>, k: nat, w: View)
    requires k <= |runs| && OneHistory(v, runs) && Seen(v, runs, k, w)
    ensures WellFormed(w)
    ensures k < |runs| ==> Seen(v, runs, k + 1, w)
  {
    hide Linked, WellFormed;
  }

  method ReopenLeft(c: Cache, damage: seq<byte> -> seq<byte>, ghost w: View) returns (d: Cache)
    requires c.Valid() && WellFormed(w) && WholeBlocks(w, c.held, c.start) && Visible(c.crc, c.start, damage)
    ensures fresh(d) && d.Valid() && d.crc == c.crc && d.start == c.start && WholeBlocks(w, d.held, d.start)
  {
    hide RecordsOf, WellFormed;
    ghost var f := damage(Log(c.crc, c.held));
    assert Left(c.crc, c.start, c.held, f);
    ghost var k: nat :| Intact(c.crc, c.held, f, k) && Ends(c.crc, c.start, c.held, f, k)
      && (|f| != STRIDE * k || BetweenBlocks(c.held, k));
    d := Reopen(c.crc, c.start, damage(c.file + c.buffered), w, c.held, k);
  }

  /** Through any run of syncs and reopenings, over any reorgs, with reads failing anywhere and any damage a
      scan can see, what the Cache holds is always whole blocks of one of the views of the chain. */
  method SyncAll(c: Cache, runs: seq<Run>, ghost v: View) returns (d: Cache, ghost w: View)
    requires c.Valid() && WholeBlocks(v, c.held, c.start)
    requires OneHistory(v, runs) && AllVisible(c.crc, c.start, runs)
    modifies c
    ensures d.Valid() && WholeBlocks(w, d.held, d.start) && Seen(v, runs, |runs|, w)
    ensures d.crc == c.crc && d.start == c.start && (d == c || fresh(d))
  {
    hide Log, Stored, RecordsOf, WellFormed, Linked, OneHistory, Seen, Visible, ReadUnread;
    d, w := c, v;
    NothingSeen(v, runs);
    var k := 0;
    while k < |runs|
      invariant 0 <= k <= |runs| && (d == c || fresh(d))
      invariant d.Valid() && WholeBlocks(w, d.held, d.start) && d.crc == c.crc && d.start == c.start
      invariant Seen(v, runs, k, w)
    {
      SeenIsWhole(v, runs, k, w);
      match runs[k] {
        case Syncing(src, tip, chunk) =>
          SeenFollows(v, runs, k, w);
          TipBelowTop(v, runs, k);
          var e, synced;
          e, synced, w := d.Sync(src, tip, chunk, w);
        case Reopening(damage) =>
          d := ReopenLeft(d, damage, w);
      }
      k := k + 1;
    }
  }

  lemma NothingSeen(v: View, runs: seq<Run>)
    ensures Seen(v, runs, 0, v)
  {
  }

  lemma TipBelowTop(v: View, runs: seq<Run>, k: nat)
    requires k < |runs| && runs[k].Syncing? && OneHistory(v, runs)
    ensures runs[k].tip.number < MAX_UINT64 && WellFormed(runs[k].src.view)
  {
    hide Linked, WellFormed;
  }

  /** A Cache with nothing held past the tip, following the chain src shows. */
  ghost predicate Behind(c: Cache, v: View, src: Source, tip: uint64)
    reads c
  {
    c.Valid() && Follows(v, src, c.held, c.start) && Through(c.held, c.start) <= tip + 1
  }

  /** Two Caches of one chain, however each came to hold what it does, are the same file once each has been
      synced to one tip and written out. */
  method SyncedAlike(c: Cache, d: Cache, src: Source, other: Source, tip: Tip, chunk: uint64, size: uint64,
                     ghost v: View, ghost u: View)
    returns (e: Option<Error>, g: Option<Error>)
    requires c != d && c.start == d.start && c.crc == d.crc && src.view == other.view && tip.number < MAX_UINT64
    requires Behind(c, v, src, tip.number) && Behind(d, u, other, tip.number)
    modifies c, d
    ensures c.Valid() && d.Valid()
    ensures e.None? && g.None? ==> c.file == d.file && c.held == d.held
  {
    hide Log, Stored, RecordsOf, Follows, ReadUnread;
    var synced;
    ghost var w;
    e, synced, w := c.Sync(src, tip, chunk, v);
    g, synced, w := d.Sync(other, tip, size, u);
    c.Flush();
    d.Flush();
    c.FlushedIsLog();
    d.FlushedIsLog();
  }
}
