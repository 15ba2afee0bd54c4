/** The transfer log: append, damage repair on open, and the sync that follows the chain through
    reorgs. The file is the byte string of its records; the header and the file system are left out. */
module Cache {
  import opened Wrappers
  import opened Bytes
  import opened Merkle
  import opened Records
  import opened ChainView

  const CHECKPOINT_RECORDS: nat := 10_000
  const DEFAULT_CHUNK: uint64 := 10_000
  const ZERO_HASH: Hash := seq(32, _ => 0)

  datatype Error =
    | Behind(index: nat, block: uint64, floor: uint64)
    | Refused(index: nat, why: ValueError)
    | SourceFailed
    | NoTipHash
    | Damaged(index: nat)

  datatype Tip = Tip(number: uint64, hash: Hash)

  datatype Reorg = Reorg(block: uint64, dropped: nat)

  datatype Synced = Synced(reorg: Option<Reorg>, appended: nat)

  /** What is read from: a chain at one moment, and which reads of it fail. */
  datatype Source = Source(view: View, transfersFail: (nat, nat) -> bool, headerFails: nat -> bool)

  datatype Reason = PartialRecord | BadChecksum | BeforeStart | OutOfOrder

  datatype Repair = Repair(reason: Reason, at: nat, kept: nat, lastGoodBlock: uint64, dropped: nat)

  // ------------------------------------------------------------------ scanning

  /** Storable records that run forward from the start block. */
  ghost predicate Orderly(start: uint64, rs: seq<Record>) {
    AllStorable(rs) && Forward(rs) && forall i :: 0 <= i < |rs| ==> start <= rs[i].blockNumber
  }

  function Stride(f: seq<byte>, i: nat): seq<byte>
    requires STRIDE * i + STRIDE <= |f|
  {
    f[STRIDE * i..STRIDE * i + STRIDE]
  }

  /** The first strides of f are the records rs, none before the start block and none backwards. */
  ghost predicate Scans(crc: Crc, start: uint64, f: seq<byte>, rs: seq<Record>) {
    && STRIDE * |rs| <= |f|
    && (forall i :: 0 <= i < |rs| ==> Decode(crc, Stride(f, i)) == Some(rs[i]))
    && Forward(rs)
    && (forall i :: 0 <= i < |rs| ==> start <= rs[i].blockNumber)
  }

  function LastOf(rs: seq<Record>): Option<Record> {
    if rs == [] then None else Some(rs[|rs| - 1])
  }

  /** The stride after the first count ones, or why it cannot be taken. */
  function NextOf(crc: Crc, start: uint64, f: seq<byte>, count: nat, last: Option<Record>): Result<Record, Reason>
    requires STRIDE * count < |f|
  {
    if |f| < STRIDE * count + STRIDE then Failure(PartialRecord)
    else match Decode(crc, Stride(f, count))
      case None => Failure(BadChecksum)
      case Some(r) =>
        if r.blockNumber < start then Failure(BeforeStart)
        else if last.Some? && r.blockNumber < last.value.blockNumber then Failure(OutOfOrder)
        else Success(r)
  }

  /** Why the stride after rs cannot be taken, if it cannot; None too when f ends there. */
  function Trouble(crc: Crc, start: uint64, f: seq<byte>, rs: seq<Record>): Option<Reason>
    requires STRIDE * |rs| <= |f|
  {
    if |f| == STRIDE * |rs| then None
    else match NextOf(crc, start, f, |rs|, LastOf(rs))
      case Failure(e) => Some(e)
      case Success(r) => None
  }

  /** rs is as far as f can be taken: to its end, or to the first trouble in it. */
  ghost predicate ScanOf(crc: Crc, start: uint64, f: seq<byte>, rs: seq<Record>) {
    Scans(crc, start, f, rs) && (|f| == STRIDE * |rs| || Trouble(crc, start, f, rs).Some?)
  }

  /** The index of the first record of the newest block. */
  function BlockStart(rs: seq<Record>): (i: nat)
    ensures i <= |rs| && (rs != [] ==> i < |rs|)
    ensures 0 < i ==> rs[i - 1].blockNumber != rs[i].blockNumber
    ensures forall k :: i <= k < |rs| ==> rs[k].blockNumber == rs[|rs| - 1].blockNumber
  {
    if |rs| <= 1 then 0
    else if rs[|rs| - 1].blockNumber != rs[|rs| - 2].blockNumber then |rs| - 1
    else BlockStart(rs[..|rs| - 1])
  }

  /** The block before the newest one; zero when there is none. */
  function BeforeBlock(rs: seq<Record>): uint64 {
    if BlockStart(rs) == 0 then 0 else rs[BlockStart(rs) - 1].blockNumber
  }

  /** The block of the newest record, or zero when there is none. */
  function NewestBlock(rs: seq<Record>): uint64 {
    if rs == [] then 0 else rs[|rs| - 1].blockNumber
  }

  lemma NewestBeforeBlock(rs: seq<Record>)
    ensures BeforeBlock(rs) == NewestBlock(rs[..BlockStart(rs)])
  {
  }

  /** Why the stride after the first n records of f cannot be taken: it is cut short, its last four bytes are not
      the checksum of the rest, or its block is before the start or before the block of the record behind it. */
  lemma TroubleIs(crc: Crc, start: uint64, f: seq<byte>, rs: seq<Record>)
    requires 124 * |rs| <= |f|
    ensures
      var n := 124 * |rs|;
      match Trouble(crc, start, f, rs)
      case Some(PartialRecord) => 0 < |f| - n < 124
      case Some(BadChecksum) => |f| - n >= 124 && crc(f[n..n + 120]) != f[n + 120..n + 124]
      case Some(BeforeStart) => |f| - n >= 124 && FromBytes(f[n..n + 8]) < start
      case Some(OutOfOrder) => |f| - n >= 124 && rs != [] && start <= FromBytes(f[n..n + 8]) < NewestBlock(rs)
      case None => |f| == n || (|f| - n >= 124 && crc(f[n..n + 120]) == f[n + 120..n + 124])
  {
    if |f| - STRIDE * |rs| >= STRIDE {
      var s := Stride(f, |rs|);
      assert s[..120] == f[STRIDE * |rs|..STRIDE * |rs| + 120];
      assert s[120..] == f[STRIDE * |rs| + 120..STRIDE * |rs| + 124];
      assert s[0..8] == f[STRIDE * |rs|..STRIDE * |rs| + 8];
    }
  }

  lemma LogStep(crc: Crc, rs: seq<Record>, i: nat)
    requires i < |rs| && AllStorable(rs[..i]) && Storable(rs[i])
    ensures AllStorable(rs[..i + 1]) && Log(crc, rs[..i + 1]) == Log(crc, rs[..i]) + Stored(crc, rs[i])
  {
    assert rs[..i + 1][..i] == rs[..i];
    assert rs[..i + 1] == rs[..i] + [rs[i]];
  }

  lemma LastStride(crc: Crc, f: seq<byte>, k: nat, r: Record)
    requires STRIDE * k + STRIDE <= |f| && Decode(crc, Stride(f, k)) == Some(r)
    ensures Storable(r) && f[..STRIDE * (k + 1)] == f[..STRIDE * k] + Stored(crc, r)
  {
    DecodedIsStored(crc, Stride(f, k));
    assert f[..STRIDE * k + STRIDE] == f[..STRIDE * k] + Stride(f, k);
  }

  lemma {:induction false} ScannedIsLog(crc: Crc, start: uint64, f: seq<byte>, rs: seq<Record>)
    requires Scans(crc, start, f, rs)
    ensures AllStorable(rs) && f[..STRIDE * |rs|] == Log(crc, rs)
  {
    if rs != [] {
      var k := |rs| - 1;
      assert Scans(crc, start, f, rs[..k]);
      ScannedIsLog(crc, start, f, rs[..k]);
      LastStride(crc, f, k, rs[k]);
      LogStep(crc, rs, k);
      assert rs[..k + 1] == rs;
    }
  }

  /** The first k records of a scan are a log of their own. */
  lemma CutLog(crc: Crc, start: uint64, f: seq<byte>, rs: seq<Record>, k: nat)
    requires Scans(crc, start, f, rs) && k <= |rs|
    ensures STRIDE * k <= |f| && Orderly(start, rs[..k]) && f[..STRIDE * k] == Log(crc, rs[..k])
  {
    assert Scans(crc, start, f, rs[..k]);
    ScannedIsLog(crc, start, f, rs[..k]);
  }

  /** A file has one scan. */
  lemma ScanUnique(crc: Crc, start: uint64, f: seq<byte>, rs: seq<Record>, ts: seq<Record>)
    requires ScanOf(crc, start, f, rs) && ScanOf(crc, start, f, ts)
    ensures rs == ts
  {
    if |rs| < |ts| {
      ScanPrefix(crc, start, f, rs, ts);
    } else if |ts| < |rs| {
      ScanPrefix(crc, start, f, ts, rs);
    } else {
      forall i | 0 <= i < |rs| ensures rs[i] == ts[i] {
        assert Decode(crc, Stride(f, i)) == Some(rs[i]);
      }
    }
  }

  /** A scan that could go on has met no trouble. */
  lemma ScanPrefix(crc: Crc, start: uint64, f: seq<byte>, rs: seq<Record>, ts: seq<Record>)
    requires Scans(crc, start, f, rs) && Scans(crc, start, f, ts) && |rs| < |ts|
    ensures rs == ts[..|rs|] && Trouble(crc, start, f, rs).None? && |f| != STRIDE * |rs|
  {
    forall i | 0 <= i < |rs| ensures rs[i] == ts[i] {
      assert Decode(crc, Stride(f, i)) == Some(rs[i]);
      assert Decode(crc, Stride(f, i)) == Some(ts[i]);
    }
    assert Decode(crc, Stride(f, |rs|)) == Some(ts[|rs|]);
  }

  /** A log nothing has touched scans to the very records appended. */
  lemma UndamagedScan(crc: Crc, start: uint64, rs: seq<Record>)
    requires Orderly(start, rs)
    ensures ScanOf(crc, start, Log(crc, rs), rs)
  {
    forall i | 0 <= i < |rs| ensures Decode(crc, Stride(Log(crc, rs), i)) == Some(rs[i]) {
      LogAt(crc, rs, i);
    }
  }

  /** Cut back to where its newest block starts, part of a log of whole blocks is whole blocks. */
  lemma RepairLeavesWholeBlocks(v: View, start: nat, whole: seq<Record>, rs: seq<Record>)
    requires WellFormed(v) && WholeBlocks(v, whole, start) && rs <= whole
    ensures WholeBlocks(v, rs[..BlockStart(rs)], start)
  {
    var i := BlockStart(rs);
    RecordsBetween(v, start, Through(whole, start));
    assert rs[..i] == whole[..i];
    assert 0 < i ==> whole[i - 1] == rs[i - 1] && whole[i] == rs[i];
    CutBetweenBlocks(v, whole, start, i);
  }

  /** A file cut after a record looks clean, though what is left is whole blocks exactly when the cut falls
      between two of them (ChainView.CutWholeIff). */
  lemma CutLooksClean(crc: Crc, start: uint64, rs: seq<Record>, k: nat)
    requires Orderly(start, rs) && k <= |rs|
    ensures
      var f := Log(crc, rs)[..STRIDE * k];
      ScanOf(crc, start, f, rs[..k]) && Trouble(crc, start, f, rs[..k]).None?
  {
    LogPrefix(crc, rs, k);
    OrderlyPrefix(start, rs, k);
    hide Log, Stored, Decode, Orderly, Scans;
    UndamagedScan(crc, start, rs[..k]);
  }

  lemma OrderlyPrefix(start: uint64, rs: seq<Record>, k: nat)
    requires Orderly(start, rs) && k <= |rs|
    ensures Orderly(start, rs[..k])
  {
  }

  // ------------------------------------------------------------------ searching

  /** Halving i..j comes to a probe that fails. */
  ghost predicate SearchFails(pred: nat -> Result<bool, Error>, i: nat, j: nat)
    decreases j - i
  {
    && i < j
    && var h := (i + j) / 2;
    && match pred(h)
       case Failure(_) => true
       case Success(ok) => if ok then SearchFails(pred, i, h) else SearchFails(pred, h + 1, j)
  }

  /** Halves the range till one place is left. Whatever the predicate, it turns from false to true there. */
  method FirstWhere(n: nat, pred: nat -> Result<bool, Error>) returns (r: Result<nat, Error>)
    ensures r.Success? ==> r.value <= n
    ensures r.Success? && r.value < n ==> pred(r.value) == Success(true)
    ensures r.Success? && r.value > 0 ==> pred(r.value - 1) == Success(false)
    ensures r.Failure? ==> exists k :: 0 <= k < n && pred(k) == Failure(r.error)
    ensures r.Failure? <==> SearchFails(pred, 0, n)
  {
    var i, j := 0, n;
    while i < j
      invariant 0 <= i <= j <= n
      invariant SearchFails(pred, i, j) <==> SearchFails(pred, 0, n)
      invariant j < n ==> pred(j) == Success(true)
      invariant i > 0 ==> pred(i - 1) == Success(false)
      decreases j - i
    {
      var h := (i + j) / 2;
      var ok := pred(h);
      if ok.Failure? {
        return Failure(ok.error);
      }
      if ok.value {
        j := h;
      } else {
        i := h + 1;
      }
    }
    r := Success(i);
  }

  /** One record by index. */
  function RecordAt(crc: Crc, file: seq<byte>, i: nat): Result<Record, Error> {
    if STRIDE * i + STRIDE > |file| then Failure(Damaged(i))
    else match Decode(crc, Stride(file, i))
      case None => Failure(Damaged(i))
      case Some(r) => Success(r)
  }

  lemma RecordAtLog(crc: Crc, rs: seq<Record>, i: nat)
    requires AllStorable(rs) && i < |rs|
    ensures RecordAt(crc, Log(crc, rs), i) == Success(rs[i])
  {
    LogAt(crc, rs, i);
  }

  function AtOrAbove(crc: Crc, file: seq<byte>, block: uint64, i: nat): Result<bool, Error> {
    match RecordAt(crc, file, i)
    case Failure(e) => Failure(e)
    case Success(r) => Success(r.blockNumber >= block)
  }

  function OffChain(crc: Crc, file: seq<byte>, src: Source, i: nat): Result<bool, Error> {
    match RecordAt(crc, file, i)
    case Failure(e) => Failure(e)
    case Success(r) => Off(src, r)
  }

  /** Whether the chain no longer has the block of a record. */
  function Off(src: Source, r: Record): Result<bool, Error> {
    if src.headerFails(r.blockNumber) then Failure(SourceFailed)
    else Success(src.view.hashAt(r.blockNumber) != r.blockHash)
  }

  /** The chain src shows still has the block of the record. */
  ghost predicate StillOn(src: Source, r: Record) {
    src.view.hashAt(r.blockNumber) == r.blockHash
  }

  /** Looking for the fork among the records i..j comes to a header that cannot be read. */
  ghost predicate ProbeFails(src: Source, rs: seq<Record>, i: nat, j: nat)
    requires j <= |rs|
    decreases j - i
  {
    && i < j
    && var h := (i + j) / 2;
    && (|| src.headerFails(rs[h].blockNumber)
        || if StillOn(src, rs[h]) then ProbeFails(src, rs, h + 1, j) else ProbeFails(src, rs, i, h))
  }

  lemma {:induction false} ProbesAreSearch(src: Source, rs: seq<Record>, pred: nat -> Result<bool, Error>,
                                           i: nat, j: nat)
    requires j <= |rs| && forall k :: 0 <= k < j ==> pred(k) == Off(src, rs[k])
    ensures SearchFails(pred, i, j) <==> ProbeFails(src, rs, i, j)
    decreases j - i
  {
    if i < j {
      ProbesAreSearch(src, rs, pred, i, (i + j) / 2);
      ProbesAreSearch(src, rs, pred, (i + j) / 2 + 1, j);
    }
  }

  /** What halving the n oldest records comes to is where they leave the chain. */
  lemma SearchFindsFork(src: Source, rs: seq<Record>, n: nat, off: nat -> Result<bool, Error>,
                        found: Result<nat, Error>)
    requires 0 < n <= |rs| && off(n - 1) == Success(true)
    requires forall k :: 0 <= k < n ==> off(k) == Off(src, rs[k])
    requires found.Success? ==> found.value <= n
    requires found.Success? && found.value < n ==> off(found.value) == Success(true)
    requires found.Success? && found.value > 0 ==> off(found.value - 1) == Success(false)
    requires found.Failure? ==> exists k :: 0 <= k < n && off(k) == Failure(found.error)
    requires found.Failure? <==> SearchFails(off, 0, n)
    ensures found.Failure? ==> found.error == SourceFailed
    ensures found.Failure? <==> ForkUnread(src, rs, n)
    ensures found.Success? ==> LeavesAt(src, rs, n, found.value)
  {
    ProbesAreSearch(src, rs, off, 0, n);
    hide SearchFails, ProbeFails;
  }

  /** Of the n oldest records the fork-th is off the chain, and the one before it is not. */
  ghost predicate LeavesAt(src: Source, rs: seq<Record>, n: nat, fork: nat)
    requires n <= |rs|
  {
    fork < n && !StillOn(src, rs[fork]) && (fork > 0 ==> StillOn(src, rs[fork - 1]))
  }

  /** A header asked for to find where the n oldest records leave the chain cannot be read: the newest one's,
      or one on the way to the fork when the newest is off the chain. */
  ghost predicate ForkUnread(src: Source, rs: seq<Record>, n: nat)
    requires 0 < n <= |rs|
  {
    src.headerFails(rs[n - 1].blockNumber) || (!StillOn(src, rs[n - 1]) && ProbeFails(src, rs, 0, n))
  }

  /** A header asked for to verify what is held cannot be read. */
  ghost predicate HeaderUnread(src: Source, rs: seq<Record>, tip: uint64) {
    var n := CountBelow(rs, Wrapped(tip));
    n > 0 && ForkUnread(src, rs, n)
  }

  /** The transfers of the k-th chunk of the blocks from..tip cannot be read. */
  ghost predicate ChunkUnread(src: Source, from: nat, tip: nat, chunk: nat, k: nat)
    requires chunk > 0
  {
    var lo := from + k * chunk;
    lo <= tip && src.transfersFail(lo, if tip - lo < chunk then tip else lo + chunk - 1)
  }

  /** The transfers of some chunk of the blocks from..tip cannot be read. */
  ghost predicate RangeUnread(src: Source, from: nat, tip: nat, chunk: nat)
    requires chunk > 0
  {
    exists k: nat :: ChunkUnread(src, from, tip, chunk, k)
  }

  /** How many records come before block. */
  function CountBelow(rs: seq<Record>, block: int): (n: nat)
    ensures n <= |rs|
  {
    if rs == [] || rs[|rs| - 1].blockNumber < block then |rs| else CountBelow(rs[..|rs| - 1], block)
  }

  lemma {:induction false} CountBelowIs(rs: seq<Record>, block: int)
    requires Forward(rs)
    ensures forall i :: 0 <= i < |rs| ==> (rs[i].blockNumber < block <==> i < CountBelow(rs, block))
  {
    if rs != [] && rs[|rs| - 1].blockNumber >= block {
      var init := rs[..|rs| - 1];
      CountBelowIs(init, block);
      assert forall i :: 0 <= i < |init| ==> rs[i] == init[i];
    }
  }

  /** Where a search over a readable file turns is how many records come before block. */
  lemma FoundIsCount(crc: Crc, file: seq<byte>, held: seq<Record>, block: uint64, r: Result<nat, Error>)
    requires Forward(held)
    requires forall i :: 0 <= i < |held| ==> RecordAt(crc, file, i) == Success(held[i])
    requires r.Success? ==> r.value <= |held|
    requires r.Success? && r.value < |held| ==> AtOrAbove(crc, file, block, r.value) == Success(true)
    requires r.Success? && r.value > 0 ==> AtOrAbove(crc, file, block, r.value - 1) == Success(false)
    requires r.Failure? ==> exists k :: 0 <= k < |held| && AtOrAbove(crc, file, block, k) == Failure(r.error)
    ensures r == Success(CountBelow(held, block))
  {
    CountBelowIs(held, block);
  }

  /** Go's tip + 1, which wraps at the top of uint64. */
  function Wrapped(tip: uint64): uint64 {
    if tip == MAX_UINT64 then 0 else tip + 1
  }

  /** The newest record at or below the tip, if there is one, is still on the chain. */
  ghost predicate NewestStands(src: Source, rs: seq<Record>, tip: uint64) {
    var n := CountBelow(rs, Wrapped(tip));
    n > 0 ==> StillOn(src, rs[n - 1])
  }

  /** The record at fork is off the chain and at or below the tip, the one before it is not, and the
      reorg names its block and how many records are from there on. */
  ghost predicate ForkFound(src: Source, rs: seq<Record>, tip: uint64, fork: nat, reorg: Reorg) {
    && fork < CountBelow(rs, Wrapped(tip))
    && !StillOn(src, rs[fork]) && (fork > 0 ==> StillOn(src, rs[fork - 1]))
    && reorg.block == rs[fork].blockNumber
    && reorg.dropped == |rs| - CountBelow(rs, reorg.block)
  }

  /** rs is whole blocks of v, from which the chain src shows descends or departs. */
  ghost predicate Follows(v: View, src: Source, rs: seq<Record>, start: nat) {
    && WellFormed(v) && WellFormed(src.view) && Linked(v, src.view)
    && WholeBlocks(v, rs, start)
  }

  lemma FollowsSound(v: View, src: Source, rs: seq<Record>, start: nat, tip: uint64)
    requires Follows(v, src, rs, start)
    ensures WellFormed(src.view)
    ensures forall reorg :: Advanced(v, src, rs, rs, start, tip, false, reorg, v)
  {
  }

  lemma HeldInBlocks(v: View, rs: seq<Record>, start: nat)
    requires WellFormed(v) && WholeBlocks(v, rs, start)
    ensures Between(v, rs, start, Through(rs, start))
  {
    RecordsBetween(v, start, Through(rs, start));
  }

  /** With everything held at or below the tip, the newest record standing means all of it stands. */
  lemma NewestVouchesForAll(v: View, src: Source, rs: seq<Record>, start: nat, tip: uint64)
    requires Follows(v, src, rs, start) && NewestStands(src, rs, tip) && tip < MAX_UINT64
    requires rs != [] ==> rs[|rs| - 1].blockNumber <= tip
    ensures WholeBlocks(src.view, rs, start)
  {
    HeldInBlocks(v, rs, start);
    WholeInBoth(v, src.view, rs, start);
  }

  /** A record on the chain vouches for every record before it. */
  lemma StandsBelow(v: View, src: Source, rs: seq<Record>, start: nat, i: nat, j: nat)
    requires Follows(v, src, rs, start) && i <= j < |rs| && StillOn(src, rs[j])
    ensures StillOn(src, rs[i])
  {
    HeldInBlocks(v, rs, start);
    assert InBlock(v, rs[j], rs[j].blockNumber) && InBlock(v, rs[i], rs[i].blockNumber);
    assert SameBlock(v, src.view, rs[i].blockNumber);
  }

  /** Everything before a fork stands, and nothing from it on does. */
  lemma StandsIffBeforeFork(v: View, src: Source, rs: seq<Record>, start: nat, fork: nat)
    requires Follows(v, src, rs, start) && fork < |rs|
    requires !StillOn(src, rs[fork]) && (fork > 0 ==> StillOn(src, rs[fork - 1]))
    ensures forall i :: 0 <= i < |rs| ==> (StillOn(src, rs[i]) <==> i < fork)
  {
    hide *;
    forall i | 0 <= i < |rs| ensures StillOn(src, rs[i]) <==> i < fork {
      if i < fork {
        StandsBelow(v, src, rs, start, i, fork - 1);
      } else if StillOn(src, rs[i]) {
        StandsBelow(v, src, rs, start, fork, i);
      }
    }
  }

  /** The fork found is where the held history leaves the chain: its block is the first one dropped, and
      what is kept is whole blocks of the new branch. */
  lemma ForkIsExact(v: View, src: Source, rs: seq<Record>, start: nat, tip: uint64, fork: nat, reorg: Reorg)
    requires Follows(v, src, rs, start) && ForkFound(src, rs, tip, fork, reorg) && Forward(rs)
    ensures CountBelow(rs, reorg.block) == fork
    ensures WholeBlocks(src.view, rs[..fork], start)
  {
    BlocksPart(v, src, rs, start, fork);
    CountBelowIs(rs, reorg.block);
    CutBetweenBlocks(v, rs, start, fork);
    WholeInBoth(v, src.view, rs[..fork], start);
  }

  /** The records on either side of a fork are of different blocks. */
  lemma BlocksPart(v: View, src: Source, rs: seq<Record>, start: nat, fork: nat)
    requires Follows(v, src, rs, start) && fork < |rs| && Forward(rs)
    requires !StillOn(src, rs[fork]) && (fork > 0 ==> StillOn(src, rs[fork - 1]))
    ensures fork > 0 ==> rs[fork - 1].blockNumber < rs[fork].blockNumber
    ensures fork > 0 ==> v.hashAt(rs[fork - 1].blockNumber) == src.view.hashAt(rs[fork - 1].blockNumber)
  {
    HeldInBlocks(v, rs, start);
    if fork > 0 {
      assert InBlock(v, rs[fork - 1], rs[fork - 1].blockNumber) && InBlock(v, rs[fork], rs[fork].blockNumber);
    }
  }

  /** The records on the chain are those before the fork, whose block is at or below the tip. */
  ghost predicate ForksAt(src: Source, rs: seq<Record>, tip: uint64, fork: nat, at: Reorg) {
    && fork < CountBelow(rs, Wrapped(tip))
    && (forall i :: 0 <= i < |rs| ==> (StillOn(src, rs[i]) <==> i < fork))
    && at == Reorg(rs[fork].blockNumber, |rs| - fork)
  }

  /** What a Sync reports of a reorg is the first held block no longer on chain, which is at or below the
      tip, and what it dropped. */
  ghost predicate ReportsFork(src: Source, rs: seq<Record>, tip: uint64, reorg: Option<Reorg>) {
    match reorg
    case None => NewestStands(src, rs, tip)
    case Some(at) => exists fork: nat :: ForksAt(src, rs, tip, fork, at)
  }

  /** From was to now by a Sync of the chain src shows to the tip: whole blocks of w either way; and when
      it is done, the reorg it reports is exact, a Cache that did not run past the tip or was cut back holds
      what a fresh one would, and one that ran past it and was not cut holds what it did. */
  ghost predicate Advanced(v: View, src: Source, was: seq<Record>, now: seq<Record>, start: nat, tip: uint64,
                           done: bool, reorg: Option<Reorg>, w: View) {
    && (w == v || w == src.view) && WholeBlocks(w, now, start)
    && (done ==> ReportsFork(src, was, tip, reorg))
    && (done && (Through(was, start) <= tip + 1 || reorg.Some?) ==> now == RecordsOf(src.view, start, tip + 1))
    && (done && Through(was, start) > tip + 1 && reorg.None? ==> now == was)
  }

  function DroppedBy(reorg: Option<Reorg>): (n: nat)
    ensures reorg.None? ==> n == 0
  {
    if reorg.None? then 0 else reorg.value.dropped
  }

  /** A verification of was left kept: all of it when the newest record stands, and what comes before the
      fork when it does not. */
  ghost predicate Checked(src: Source, was: seq<Record>, kept: seq<Record>, tip: uint64,
                          fork: nat, reorg: Option<Reorg>)
  {
    match reorg
    case None => kept == was && NewestStands(src, was, tip)
    case Some(at) => ForkFound(src, was, tip, fork, at) && kept == was[..CountBelow(was, at.block)]
  }

  /** After verifying, what is kept is whole blocks of the chain, unless it runs past the tip and then
      nothing was dropped. */
  lemma VerifiedIsWhole(v: View, src: Source, was: seq<Record>, kept: seq<Record>, start: nat, tip: uint64,
                        fork: nat, reorg: Option<Reorg>)
    requires Follows(v, src, was, start) && Forward(was) && tip < MAX_UINT64
    requires Checked(src, was, kept, tip, fork, reorg)
    ensures ReportsFork(src, was, tip, reorg)
    ensures (kept == [] || kept[|kept| - 1].blockNumber <= tip) ==> WholeBlocks(src.view, kept, start)
    ensures kept != [] && kept[|kept| - 1].blockNumber > tip ==> reorg.None?
  {
    if reorg.None? {
      if kept == [] || kept[|kept| - 1].blockNumber <= tip {
        NewestVouchesForAll(v, src, was, start, tip);
      }
    } else {
      ForkIsExact(v, src, was, start, tip, fork, reorg.value);
      ForkIsReported(v, src, was, start, tip, fork, reorg.value);
      CountBelowIs(was, Wrapped(tip));
    }
  }

  lemma ForkIsReported(v: View, src: Source, was: seq<Record>, start: nat, tip: uint64, fork: nat, at: Reorg)
    requires Follows(v, src, was, start) && ForkFound(src, was, tip, fork, at) && CountBelow(was, at.block) == fork
    ensures ForksAt(src, was, tip, fork, at)
  {
    StandsIffBeforeFork(v, src, was, start, fork);
  }

  // ------------------------------------------------------------------ the Cache

  /** A batch that can be appended: storable records that run forward from the floor. */
  ghost predicate AppendOk(floor: uint64, rs: seq<Record>) {
    && Forward(rs)
    && forall i :: 0 <= i < |rs| ==> Storable(rs[i]) && floor <= rs[i].blockNumber
  }

  lemma AppendOkStep(floor: uint64, rs: seq<Record>, i: nat)
    requires i < |rs| && AppendOk(floor, rs[..i])
    ensures AppendOk(floor, rs[..i + 1])
       <==> Storable(rs[i]) && (if i == 0 then floor else rs[i - 1].blockNumber) <= rs[i].blockNumber
  {
    var head, next := rs[..i], rs[..i + 1];
    assert next[..i] == head;
    if Storable(rs[i]) && (if i == 0 then floor else rs[i - 1].blockNumber) <= rs[i].blockNumber {
      forall j, k | 0 <= j < k < |next| ensures next[j].blockNumber <= next[k].blockNumber {
        if k == i {
          assert head[j].blockNumber <= head[i - 1].blockNumber;
        } else {
          assert head[j].blockNumber <= head[k].blockNumber;
        }
      }
      forall k | 0 <= k < |next| ensures Storable(next[k]) && floor <= next[k].blockNumber {
        assert k < i ==> next[k] == head[k];
        assert i > 0 ==> floor <= head[i - 1].blockNumber;
      }
    }
  }

  lemma AppendOkPrefix(floor: uint64, rs: seq<Record>, i: nat)
    requires i <= |rs| && AppendOk(floor, rs)
    ensures AppendOk(floor, rs[..i])
  {
  }

  /** The last block of the chunk that starts at lo: measured as a distance from lo, so nothing wraps. */
  function ChunkEnd(lo: uint64, tip: uint64, chunk: uint64): (hi: uint64)
    requires lo <= tip && chunk > 0
    ensures lo <= hi <= tip && (hi == tip || hi - lo + 1 == chunk)
  {
    if tip - lo >= chunk then lo + chunk - 1 else tip
  }

  /** Zero is for the default. */
  function ChunkOf(chunk: uint64): (r: uint64)
    ensures r > 0 && (chunk != 0 ==> r == chunk) && (chunk == 0 ==> r == 10_000)
  {
    if chunk == 0 then DEFAULT_CHUNK else chunk
  }

  lemma EmptyRange(v: View, lo: nat, hi: nat)
    requires hi <= lo
    ensures RecordsOf(v, lo, hi) == []
  {
  }

  lemma NoRecords(v: View, lo: nat)
    ensures RecordsOf(v, lo, lo) == []
    ensures forall rs: seq<Record> :: rs + RecordsOf(v, lo, lo) == rs
  {
  }

  /** The records of a chunk can follow anything before it, and none is past its end. */
  lemma ChunkFits(v: View, lo: uint64, hi: uint64, floor: uint64)
    requires WellFormed(v) && lo <= hi && floor <= lo
    ensures
      var rs := RecordsOf(v, lo, hi + 1);
      AppendOk(floor, rs) && (rs != [] ==> rs[|rs| - 1].blockNumber <= hi)
  {
    RecordsBetween(v, lo, hi + 1);
  }

  lemma ThenMore(a: seq<Record>, b: seq<Record>, c: seq<Record>)
    ensures a + (b + c) == a + b + c
  {
  }

  /** Whole blocks followed by every record of the blocks after them are whole blocks. */
  lemma Extended(v: View, kept: seq<Record>, held: seq<Record>, start: nat, from: nat, upTo: nat)
    requires WellFormed(v) && WholeBlocks(v, kept, start) && from == Through(kept, start)
    requires start <= from <= upTo && held == kept + RecordsOf(v, from, upTo)
    ensures WholeBlocks(v, held, start) && held == RecordsOf(v, start, upTo)
  {
    RecordsSplit(v, start, from, upTo);
    WholeThroughLast(v, held, start, upTo);
  }

  /** What a Sync holds at the end: whole blocks of the chain when what was kept does not run past the
      tip, and what it held before when it does. */
  lemma ExtendedIsWhole(v: View, src: Source, was: seq<Record>, kept: seq<Record>, held: seq<Record>, start: nat,
                        tip: uint64, fork: nat, reorg: Option<Reorg>, upTo: nat) returns (w: View)
    requires Follows(v, src, was, start) && Forward(was) && tip < MAX_UINT64
    requires Checked(src, was, kept, tip, fork, reorg)
    requires Through(kept, start) <= upTo && held == kept + RecordsOf(src.view, Through(kept, start), upTo)
    requires Through(kept, start) > tip ==> upTo == Through(kept, start)
    ensures
      var done := upTo == if Through(kept, start) <= tip then tip + 1 else Through(kept, start);
      Advanced(v, src, was, held, start, tip, done, reorg, w)
    ensures Advanced(v, src, was, held, start, tip, false, reorg, w)
  {
    hide RecordsOf, ReportsFork, WellFormed, Linked, NewestStands, ForkFound, CountBelow, Between, Forward;
    ThroughAtLeast(v, was, start);
    VerifiedIsWhole(v, src, was, kept, start, tip, fork, reorg);
    if kept != [] && kept[|kept| - 1].blockNumber > tip {
      NoRecords(src.view, upTo);
      w := v;
    } else {
      EmptyRange(src.view, start, start);
      if start > tip {
        EmptyRange(src.view, start, tip + 1);
      }
      ThroughAtLeast(src.view, kept, start);
      Extended(src.view, kept, held, start, Through(kept, start), upTo);
      w := src.view;
    }
  }

  /** How many records there are through the newest one on the chain. */
  ghost function ThroughStanding(src: Source, rs: seq<Record>): (n: nat)
    ensures n <= |rs|
  {
    if rs == [] || StillOn(src, rs[|rs| - 1]) then |rs| else ThroughStanding(src, rs[..|rs| - 1])
  }

  lemma {:induction false} ThroughStandingIs(src: Source, rs: seq<Record>, fork: nat)
    requires fork <= |rs| && forall i :: 0 <= i < |rs| ==> (StillOn(src, rs[i]) <==> i < fork)
    ensures ThroughStanding(src, rs) == fork
  {
    if fork < |rs| {
      ThroughStandingIs(src, rs[..|rs| - 1], fork);
    }
  }

  /** What verifying leaves of what is held. */
  ghost function Verified(src: Source, was: seq<Record>, tip: uint64): seq<Record> {
    if NewestStands(src, was, tip) then was else was[..ThroughStanding(src, was)]
  }

  lemma KeptIsVerified(v: View, src: Source, was: seq<Record>, kept: seq<Record>, start: nat, tip: uint64,
                       fork: nat, reorg: Option<Reorg>)
    requires Follows(v, src, was, start) && Forward(was) && Checked(src, was, kept, tip, fork, reorg)
    ensures kept == Verified(src, was, tip)
  {
    if reorg.Some? {
      ForkIsExact(v, src, was, start, tip, fork, reorg.value);
      StandsIffBeforeFork(v, src, was, start, fork);
      ThroughStandingIs(src, was, fork);
      assert !StillOn(src, was[CountBelow(was, Wrapped(tip)) - 1]);
    }
  }

  /** A read a Sync makes fails: a header asked for to verify what is held, or a chunk of the blocks after what
      that leaves. */
  ghost predicate ReadUnread(src: Source, was: seq<Record>, start: nat, tip: uint64, chunk: nat)
    requires chunk > 0
  {
    HeaderUnread(src, was, tip) || RangeUnread(src, Through(Verified(src, was, tip), start), tip, chunk)
  }

  /** Once what is held is verified, the reads that can fail are those of the blocks after it. */
  lemma UnreadAfter(src: Source, was: seq<Record>, start: nat, tip: uint64, chunk: nat)
    requires chunk > 0
    ensures HeaderUnread(src, was, tip) ==> ReadUnread(src, was, start, tip, chunk)
    ensures !HeaderUnread(src, was, tip) ==>
      (ReadUnread(src, was, start, tip, chunk) <==>
       RangeUnread(src, Through(Verified(src, was, tip), start), tip, chunk))
  {
  }

  /** Every read succeeds. */
  ghost predicate AlwaysRead(src: Source) {
    && (forall n: nat :: !src.headerFails(n))
    && (forall lo: nat, hi: nat :: !src.transfersFail(lo, hi))
  }

  lemma {:induction false} NoProbeFails(src: Source, rs: seq<Record>, i: nat, j: nat)
    requires AlwaysRead(src) && j <= |rs|
    ensures !ProbeFails(src, rs, i, j)
    decreases j - i
  {
    if i < j {
      NoProbeFails(src, rs, i, (i + j) / 2);
      NoProbeFails(src, rs, (i + j) / 2 + 1, j);
    }
  }

  lemma HeadersRead(src: Source, was: seq<Record>, tip: uint64)
    requires AlwaysRead(src)
    ensures !HeaderUnread(src, was, tip)
  {
    hide ProbeFails, CountBelow, StillOn, Wrapped;
    NoProbeFails(src, was, 0, CountBelow(was, Wrapped(tip)));
  }

  lemma RangeRead(src: Source, from: nat, tip: nat, chunk: nat)
    requires AlwaysRead(src) && chunk > 0
    ensures !RangeUnread(src, from, tip, chunk)
  {
  }

  lemma NothingUnread(src: Source, was: seq<Record>, start: nat, tip: uint64, chunk: nat)
    requires AlwaysRead(src) && chunk > 0
    ensures !ReadUnread(src, was, start, tip, chunk)
  {
    hide AlwaysRead, HeaderUnread, RangeUnread, Verified, Through;
    HeadersRead(src, was, tip);
    RangeRead(src, Through(Verified(src, was, tip), start), tip, chunk);
  }

  /** At the top of uint64 the tip wraps, nothing is at or below it, and so nothing is checked. */
  lemma NothingBelowWrapped(src: Source, was: seq<Record>, kept: seq<Record>, tip: uint64,
                            fork: nat, reorg: Option<Reorg>)
    requires Checked(src, was, kept, tip, fork, reorg) && Forward(was)
    ensures tip == MAX_UINT64 ==> reorg.None? && kept == was
  {
    CountBelowIs(was, Wrapped(tip));
  }

  lemma ThroughAtMost(rs: seq<Record>, start: uint64)
    ensures Through(rs, start) <= MAX_UINT64 + 1
  {
  }

  /** The k chunks from from to lo have been read. */
  ghost predicate ReadSoFar(src: Source, from: nat, tip: nat, chunk: nat, lo: nat, k: nat)
    requires chunk > 0
  {
    lo == from + k * chunk && forall i: nat :: i < k ==> !ChunkUnread(src, from, tip, chunk, i)
  }

  /** What the next chunk read or not says of all of them. */
  lemma NextChunk(src: Source, from: nat, tip: uint64, chunk: uint64, lo: uint64, hi: nat, k: nat)
    requires chunk > 0 && lo <= tip && ReadSoFar(src, from, tip, chunk, lo, k) && hi == ChunkEnd(lo, tip, chunk)
    ensures src.transfersFail(lo, hi) ==> RangeUnread(src, from, tip, chunk)
    ensures !src.transfersFail(lo, hi) && hi == tip ==> !RangeUnread(src, from, tip, chunk)
    ensures !src.transfersFail(lo, hi) && hi < tip ==> ReadSoFar(src, from, tip, chunk, hi + 1, k + 1)
  {
    assert src.transfersFail(lo, hi) <==> ChunkUnread(src, from, tip, chunk, k);
    assert lo + chunk == from + (k + 1) * chunk;
    if hi == tip && !src.transfersFail(lo, hi) {
      forall i: nat ensures !ChunkUnread(src, from, tip, chunk, i) {
        if i > k {
          Further(chunk, k + 1, i);
        }
      }
    }
  }

  lemma Further(chunk: nat, k: nat, i: nat)
    requires k <= i
    ensures k * chunk <= i * chunk
  {
  }

  lemma NothingToRead(src: Source, from: nat, tip: nat, chunk: nat)
    requires chunk > 0
    ensures from > tip ==> !RangeUnread(src, from, tip, chunk)
    ensures ReadSoFar(src, from, tip, chunk, from, 0)
  {
  }

  lemma ThroughAtLeast(v: View, rs: seq<Record>, start: nat)
    requires WellFormed(v) && WholeBlocks(v, rs, start)
    ensures start <= Through(rs, start)
  {
    HeldInBlocks(v, rs, start);
  }

  class Cache {
    const crc: Crc
    const start: uint64
    ghost var held: seq<Record>
    var file: seq<byte>
    var buffered: seq<byte>
    var count: nat
    var last: Option<Record>
    var pending: nat
    var repaired: Option<Repair>

    /** What is on disk and in the write buffer is the log of held, which runs forward from the start
        block; and a crash can cost no more than the records pending since the last checkpoint. */
    ghost predicate Valid()
      reads `held, `file, `buffered, `count, `last, `pending
    {
      && Orderly(start, held)
      && file + buffered == Log(crc, held)
      && count == |held|
      && last == LastOf(held)
      && |buffered| <= STRIDE * pending && pending < CHECKPOINT_RECORDS
    }

    constructor (crc: Crc, start: uint64)
      ensures Valid() && held == [] && this.crc == crc && this.start == start && repaired.None?
      ensures file == [] && buffered == [] && pending == 0
    {
      this.crc := crc;
      this.start := start;
      held, file, buffered, count, last, pending, repaired := [], [], [], 0, None, 0, None;
    }

    method Flush()
      requires Valid()
      modifies this`file, this`buffered
      ensures Valid() && buffered == []
      ensures file == old(file + buffered)
    {
      hide Log, Stored;
      file, buffered := file + buffered, [];
      assert file + buffered == file;
    }

    function Floor(): uint64
      reads this
    {
      if last.None? then start else last.value.blockNumber
    }

    /** Extends the log by a batch, or refuses the batch and changes nothing. */
    method Append(rs: seq<Record>) returns (e: Option<Error>)
      requires Valid()
      modifies this
      ensures Valid() && repaired == old(repaired)
      ensures e.None? <==> AppendOk(old(Floor()), rs)
      ensures e.None? ==> held == old(held) + rs
      ensures e.Some? ==> Refuses(old(Floor()), rs, e.value)
      ensures e.Some? ==> held == old(held) && file == old(file) && buffered == old(buffered)
      ensures e.Some? ==> count == old(count) && last == old(last) && pending == old(pending)
    {
      hide Log, Stored, Orderly, AppendOk;
      var encoded := EncodeBatch(crc, Floor(), rs);
      if encoded.Failure? {
        return Some(encoded.error);
      }
      e := None;
      if rs == [] {
        assert held + rs == held;
        return;
      }
      Take(rs, encoded.value);
      if pending >= CHECKPOINT_RECORDS {
        file, buffered, pending := file + buffered, [], 0;
        assert file + buffered == file;
      }
    }

    /** The state after a batch is written, before any checkpoint. */
    method Take(rs: seq<Record>, encoded: seq<byte>)
      requires Valid() && rs != [] && AppendOk(Floor(), rs) && AllStorable(rs) && encoded == Log(crc, rs)
      modifies this`held, this`buffered, this`count, this`last, this`pending
      ensures held == old(held) + rs && Orderly(start, held)
      ensures file + buffered == Log(crc, held)
      ensures count == |held| && last == Some(held[|held| - 1])
      ensures |buffered| <= STRIDE * pending
    {
      hide Log, Stored;
      BatchJoins(crc, start, held, rs, Floor());
      Associates(file, buffered, encoded);
      buffered := buffered + encoded;
      count := count + |rs|;
      last := Some(rs[|rs| - 1]);
      pending := pending + |rs|;
      held := held + rs;
    }

    /** Verifies the file from its first record, and cuts it back to the start of the block the first
        trouble falls in. */
    method Scan(ghost rs: seq<Record>)
      requires ScanOf(crc, start, file, rs) && buffered == [] && pending == 0 && repaired.None?
      modifies this
      ensures Valid() && Scanned(old(file), rs, Trouble(crc, start, old(file), rs))
    {
      hide Log, Stored;
      var n, newest, blockStart, beforeBlock, trouble := ScanFile(crc, start, file, rs);
      Settle(n, newest, blockStart, beforeBlock, trouble, rs);
    }

    method Settle(n: nat, newest: Option<Record>, blockStart: nat, beforeBlock: uint64, trouble: Option<Reason>,
                  ghost rs: seq<Record>)
      requires Scans(crc, start, file, rs) && buffered == [] && pending == 0 && repaired.None?
      requires n == |rs| && newest == LastOf(rs) && blockStart == BlockStart(rs) && beforeBlock == BeforeBlock(rs)
      requires trouble.None? ==> |file| == STRIDE * |rs|
      modifies this
      ensures Valid() && Scanned(old(file), rs, trouble)
    {
      match trouble
      case None => Adopt(n, newest, rs);
      case Some(reason) => Repaired(reason, n, blockStart, beforeBlock, rs);
    }

    /** Notes the damage at record n, and cuts the file back to where its block starts. */
    method Repaired(reason: Reason, n: nat, blockStart: nat, beforeBlock: uint64, ghost rs: seq<Record>)
      requires Scans(crc, start, file, rs) && buffered == [] && pending == 0
      requires n == |rs| && blockStart == BlockStart(rs) && beforeBlock == BeforeBlock(rs)
      modifies this
      ensures Valid() && Scanned(old(file), rs, Some(reason))
    {
      hide Log, Stored, BlockStart, BeforeBlock, NewestBlock, RecordAt, Valid;
      NewestBeforeBlock(rs);
      var complete := |file| / STRIDE;
      RepairAt(blockStart, rs);
      repaired := Some(Repair(reason, n, blockStart, beforeBlock, complete - blockStart));
    }

    /** Takes the whole file. */
    method Adopt(n: nat, newest: Option<Record>, ghost rs: seq<Record>)
      requires Scans(crc, start, file, rs) && buffered == [] && pending == 0
      requires n == |rs| && newest == LastOf(rs) && |file| == STRIDE * |rs|
      modifies this`count, this`held, this`last
      ensures Valid() && held == rs
    {
      hide Log, Stored;
      CutLog(crc, start, file, rs, |rs|);
      count, last, held := n, newest, rs;
      assert rs[..|rs|] == rs && file[..STRIDE * |rs|] == file && file + buffered == file;
    }

    /** Cuts the file back to record keep. */
    method RepairAt(keep: nat, ghost rs: seq<Record>)
      requires Scans(crc, start, file, rs) && keep <= |rs| && buffered == [] && pending == 0
      modifies this`file, this`count, this`held, this`last
      ensures Valid() && held == rs[..keep] && file == old(file)[..STRIDE * keep]
    {
      hide Log, Stored, Scans, Orderly, RecordAt, Decode;
      CutLog(crc, start, file, rs, keep);
      file := file[..STRIDE * keep];
      count := keep;
      held := rs[..keep];
      assert file + buffered == file;
      last := None;
      if keep > 0 {
        RecordAtLog(crc, held, keep - 1);
        var r := RecordAt(crc, file, keep - 1);
        last := Some(r.value);
      }
    }

    /** What opening a file f whose scan is rs, stopped by trouble if any, comes to. */
    ghost predicate Scanned(f: seq<byte>, rs: seq<Record>, trouble: Option<Reason>)
      requires STRIDE * |rs| <= |f|
      reads this
    {
      match trouble
      case None => held == rs && file == f && repaired.None?
      case Some(reason) =>
        && held == rs[..BlockStart(rs)] && file == f[..STRIDE * BlockStart(rs)]
        && repaired == Some(Repair(reason, |rs|, |held|, NewestBlock(held), |f| / STRIDE - |held|))
    }

    /** Reads records back in order, checking each again. */
    method Each() returns (r: Result<seq<Record>, Error>)
      requires Valid()
      modifies this`file, this`buffered
      ensures Valid() && r == Success(held)
    {
      hide Log, Stored;
      Flush();
      FlushedIsLog();
      r := ReadBack(crc, file, count);
      ReadsAsHeld(crc, held, r);
    }

    // ---------------------------------------------------------------- following the chain

    /** The index of the first record from block on, or the number held if there is none. */
    method FirstAtOrAbove(block: uint64) returns (r: Result<nat, Error>)
      requires Valid() && buffered == []
      ensures r == Success(CountBelow(held, block))
    {
      hide Log, Stored;
      var c, f := crc, file;
      FlushedIsLog();
      ReadsBack();
      r := FirstWhere(count, (i: nat) => AtOrAbove(c, f, block, i));
      CountBelowIs(held, block);
      FoundIsCount(c, f, held, block, r);
    }

    /** Drops every record from block on. */
    method Truncate(block: uint64) returns (r: Result<nat, Error>)
      requires Valid()
      modifies this
      ensures Valid() && repaired == old(repaired)
      ensures held == old(held)[..CountBelow(old(held), block)]
      ensures r == Success(|old(held)| - |held|)
    {
      hide Log, Stored;
      Flush();
      var found := FirstAtOrAbove(block);
      match found
      case Failure(e) => r := Failure(e);
      case Success(keep) =>
        var dropped := count - keep;
        if dropped > 0 {
          CutAt(keep);
        } else {
          assert held[..keep] == held;
        }
        r := Success(dropped);
    }

    method CutAt(keep: nat)
      requires Valid() && buffered == [] && keep <= count
      modifies this`file, this`count, this`pending, this`last, this`held
      ensures Valid() && held == old(held)[..keep]
    {
      hide Log, Stored;
      FlushedIsLog();
      LogPrefix(crc, held, keep);
      file, count, pending, held := file[..STRIDE * keep], keep, 0, held[..keep];
      assert file + buffered == file;
      last := None;
      if keep > 0 {
        RecordAtLog(crc, held, keep - 1);
        var r := RecordAt(crc, file, keep - 1);
        last := Some(r.value);
      }
    }

    /** Checks the newest record at or below the tip against the chain, and truncates at the fork when
        the chain no longer has it. fork is the index of the first record dropped. */
    method Verify(src: Source, tip: uint64) returns (r: Result<Option<Reorg>, Error>, ghost fork: nat)
      requires Valid()
      modifies this
      ensures Valid() && repaired == old(repaired)
      ensures r.Failure? ==> r.error == SourceFailed && held == old(held)
      ensures r.Failure? <==> HeaderUnread(src, old(held), tip)
      ensures r.Success? ==> Checked(src, old(held), held, tip, fork, r.value)
      ensures r.Success? ==> |held| == |old(held)| - DroppedBy(r.value)
    {
      hide Log, Stored;
      fork := 0;
      if count == 0 {
        return Success(None), 0;
      }
      Flush();
      var found := FirstAtOrAbove(Wrapped(tip));
      match found
      case Failure(e) => r := Failure(e);
      case Success(n) =>
        if n == 0 {
          return Success(None), 0;
        }
        r, fork := VerifyBelow(src, tip, n);
    }

    method VerifyBelow(src: Source, tip: uint64, n: nat) returns (r: Result<Option<Reorg>, Error>, ghost fork: nat)
      requires Valid() && buffered == [] && 0 < n == CountBelow(held, Wrapped(tip))
      modifies this
      ensures Valid() && repaired == old(repaired)
      ensures r.Failure? ==> r.error == SourceFailed && held == old(held)
      ensures r.Failure? <==> ForkUnread(src, old(held), n)
      ensures r.Success? ==> Checked(src, old(held), held, tip, fork, r.value)
      ensures r.Success? ==> |held| == |old(held)| - DroppedBy(r.value)
    {
      hide Log, Stored;
      fork := 0;
      var found := FindFork(src, n);
      if found.Failure? {
        return Failure(found.error), 0;
      }
      if found.value.None? {
        return Success(None), 0;
      }
      fork := found.value.value;
      r := DropFrom(found.value.value);
    }

    /** Drops every record from the block of the fork-th one on. */
    method DropFrom(fork: nat) returns (r: Result<Option<Reorg>, Error>)
      requires Valid() && buffered == [] && fork < count
      modifies this
      ensures Valid() && repaired == old(repaired)
      ensures r.Success? && r.value.Some?
      ensures
        var block := old(held)[fork].blockNumber;
        && held == old(held)[..CountBelow(old(held), block)]
        && r.value.value == Reorg(block, |old(held)| - CountBelow(old(held), block))
    {
      hide Log, Stored;
      ReadsBack();
      var first := RecordAt(crc, file, fork);
      match first
      case Failure(e) => r := Failure(e);
      case Success(at) =>
        var dropped := Truncate(at.blockNumber);
        match dropped
        case Failure(e) => r := Failure(e);
        case Success(d) => r := Success(Some(Reorg(at.blockNumber, d)));
    }

    /** The first of the n oldest records that is off the chain; None when the newest of them is on it. */
    method FindFork(src: Source, n: nat) returns (r: Result<Option<nat>, Error>)
      requires Valid() && buffered == [] && 0 < n <= count
      ensures r.Failure? ==> r.error == SourceFailed
      ensures r.Failure? <==> ForkUnread(src, held, n)
      ensures r == Success(None) ==> StillOn(src, held[n - 1])
      ensures r.Success? && r.value.Some? ==> LeavesAt(src, held, n, r.value.value)
    {
      hide Log, Stored, SearchFails, ProbeFails, LeavesAt, RecordAt;
      ReadsBack();
      var newest := OffChain(crc, file, src, n - 1);
      if newest.Failure? {
        return Failure(newest.error);
      }
      if !newest.value {
        return Success(None);
      }
      var c, f := crc, file;
      var off := (i: nat) => OffChain(c, f, src, i);
      var found := FirstWhere(n, off);
      SearchFindsFork(src, held, n, off, found);
      if found.Failure? {
        return Failure(found.error);
      }
      r := Success(Some(found.value));
    }

    /** base, then every record of the blocks from up to upTo, n of them. */
    ghost predicate Reached(v: View, base: seq<Record>, from: nat, upTo: nat, n: nat)
      reads this
    {
      && Valid() && start <= from <= upTo && Floor() <= upTo
      && held == base + RecordsOf(v, from, upTo) && |held| == |base| + n
    }

    lemma ReachedNothing(v: View, from: nat)
      requires Valid() && start <= from && Floor() <= from
      ensures Reached(v, held, from, from, 0)
    {
      NoRecords(v, from);
    }

    /** One chunk: every record of the blocks lo..hi, or nothing. */
    method AppendChunk(src: Source, lo: uint64, hi: uint64, ghost base: seq<Record>, ghost from: nat, done: nat)
      returns (e: Option<Error>, n: nat)
      requires WellFormed(src.view) && lo <= hi && Reached(src.view, base, from, lo, done)
      modifies this
      ensures repaired == old(repaired)
      ensures e.Some? <==> src.transfersFail(lo, hi)
      ensures e.None? ==> Reached(src.view, base, from, hi + 1, done + n)
      ensures e.Some? ==> e == Some(SourceFailed) && Reached(src.view, base, from, lo, done)
    {
      var rs := RecordsOf(src.view, lo, hi + 1);
      n := |rs|;
      ChunkFits(src.view, lo, hi, Floor());
      hide Log, Stored, RecordsOf, Forward, AppendOk, Storable;
      if src.transfersFail(lo, hi) {
        return Some(SourceFailed), n;
      }
      RecordsSplit(src.view, from, lo, hi + 1);
      ThenMore(base, RecordsOf(src.view, from, lo), rs);
      e := Append(rs);
    }

    /** Reads the blocks from..tip and appends them, a chunk at a time. Whatever happens, what was added
        is every record of the blocks from up to upTo. */
    method CatchUp(src: Source, from: uint64, tip: uint64, chunk: uint64)
      returns (e: Option<Error>, appended: nat, ghost upTo: nat)
      requires Valid() && WellFormed(src.view) && chunk > 0 && start <= from <= tip && Floor() <= from
      modifies this
      ensures repaired == old(repaired)
      ensures Reached(src.view, old(held), from, upTo, appended)
      ensures e.None? ==> upTo == tip + 1
      ensures e.Some? ==> e == Some(SourceFailed)
      ensures e.Some? <==> RangeUnread(src, from, tip, chunk)
    {
      hide *;
      ReachedNothing(src.view, from);
      NothingToRead(src, from, tip, chunk);
      e, appended, upTo := None, 0, from;
      ghost var base := held;
      ghost var k: nat := 0;
      var lo := from;
      while true
        invariant from <= lo == upTo <= tip && ReadSoFar(src, from, tip, chunk, lo, k)
        invariant repaired == old(repaired) && Reached(src.view, base, from, lo, appended)
        decreases tip - lo
      {
        var hi: nat;
        e, appended, hi := ReadChunk(src, lo, tip, chunk, base, from, appended, k);
        if e.Some? {
          return;
        }
        upTo := hi + 1;
        if hi == tip {
          return;
        }
        lo, k := hi + 1, k + 1;
      }
    }

    /** The chunk that starts at lo, after the k before it. */
    method ReadChunk(src: Source, lo: uint64, tip: uint64, chunk: uint64, ghost base: seq<Record>, ghost from: nat,
                     done: nat, ghost k: nat)
      returns (e: Option<Error>, appended: nat, hi: nat)
      requires WellFormed(src.view) && chunk > 0 && lo <= tip && ReadSoFar(src, from, tip, chunk, lo, k)
      requires Reached(src.view, base, from, lo, done)
      modifies this
      ensures repaired == old(repaired) && lo <= hi <= tip
      ensures e.Some? ==> e == Some(SourceFailed) && RangeUnread(src, from, tip, chunk)
      ensures e.Some? ==> Reached(src.view, base, from, lo, appended)
      ensures e.None? ==> Reached(src.view, base, from, hi + 1, appended)
      ensures e.None? && hi == tip ==> !RangeUnread(src, from, tip, chunk)
      ensures e.None? && hi < tip ==> ReadSoFar(src, from, tip, chunk, hi + 1, k + 1)
    {
      hide *;
      hi := ChunkEnd(lo, tip, chunk);
      NextChunk(src, from, tip, chunk, lo, hi, k);
      var n;
      e, n := AppendChunk(src, lo, hi, base, from, done);
      appended := if e.None? then done + n else done;
    }

    /** Advances the Cache to the tip. It held whole blocks of v; what it holds afterwards is whole
        blocks of w, which is v or the chain src shows, whether or not a read failed on the way. */
    method Sync(src: Source, tip: Tip, chunk: uint64, ghost v: View)
      returns (e: Option<Error>, synced: Synced, ghost w: View)
      requires Valid() && Follows(v, src, held, start)
      modifies this
      ensures Valid() && repaired == old(repaired)
      ensures e.Some? ==> e.value == if tip.hash == ZERO_HASH then NoTipHash else SourceFailed
      ensures e.Some? <==> tip.hash == ZERO_HASH || ReadUnread(src, old(held), start, tip.number, ChunkOf(chunk))
      ensures tip.number < MAX_UINT64 ==>
        Advanced(v, src, old(held), held, start, tip.number, e.None?, synced.reorg, w)
      ensures tip.number == MAX_UINT64 && e.None? ==>
        && synced.reorg.None?
        && held == old(held) + RecordsOf(src.view, Through(old(held), start), MAX_UINT64 + 1)
      ensures |held| == |old(held)| - DroppedBy(synced.reorg) + synced.appended
    {
      hide *;
      RunsForward();
      FollowsSound(v, src, held, start, tip.number);
      w := v;
      synced := Synced(None, 0);
      if tip.hash == ZERO_HASH {
        return Some(NoTipHash), synced, w;
      }
      var blocks := ChunkOf(chunk);
      UnreadAfter(src, held, start, tip.number, blocks);
      ghost var was := held;
      var verified;
      ghost var fork;
      verified, fork := Verify(src, tip.number);
      if verified.Failure? {
        return Some(verified.error), synced, w;
      }
      synced := synced.(reorg := verified.value);
      ghost var kept := held;
      KeptIsVerified(v, src, was, kept, start, tip.number, fork, verified.value);
      NothingBelowWrapped(src, was, kept, tip.number, fork, verified.value);
      ThroughAtMost(kept, start);
      var appended;
      ghost var upTo;
      e, appended, upTo := Extend(src, tip.number, blocks);
      synced := synced.(appended := appended);
      if tip.number < MAX_UINT64 {
        w := ExtendedIsWhole(v, src, was, kept, held, start, tip.number, fork, verified.value, upTo);
      }
    }

    lemma RunsForward()
      requires Valid()
      ensures Forward(held)
    {
    }

    /** Reads what comes after the newest record held, unless that is at or past the tip already. */
    method Extend(src: Source, tip: uint64, chunk: uint64) returns (e: Option<Error>, appended: nat, ghost upTo: nat)
      requires Valid() && WellFormed(src.view) && chunk > 0
      modifies this
      ensures Valid() && repaired == old(repaired)
      ensures Through(old(held), start) <= upTo
      ensures held == old(held) + RecordsOf(src.view, Through(old(held), start), upTo)
      ensures appended == |held| - |old(held)|
      ensures e.None? ==> upTo == (var from := Through(old(held), start); if from <= tip then tip + 1 else from)
      ensures e.Some? ==> e == Some(SourceFailed) && Through(old(held), start) <= tip
      ensures e.Some? <==> RangeUnread(src, Through(old(held), start), tip, chunk)
    {
      hide Log, Stored;
      var from := start;
      if last.Some? {
        if last.value.blockNumber >= tip {
          upTo := last.value.blockNumber + 1;
          assert held + [] == held;
          return None, 0, upTo;
        }
        from := last.value.blockNumber + 1;
      }
      NothingToRead(src, from, tip, chunk);
      if from > tip {
        NoRecords(src.view, from);
        return None, 0, from;
      }
      e, appended, upTo := CatchUp(src, from, tip, chunk);
    }

    lemma ReadsBack()
      requires Valid() && buffered == []
      ensures forall i :: 0 <= i < count ==> RecordAt(crc, file, i) == Success(held[i])
    {
      FlushedIsLog();
      forall i | 0 <= i < count ensures RecordAt(crc, file, i) == Success(held[i]) {
        RecordAtLog(crc, held, i);
      }
    }

    lemma FlushedIsLog()
      requires Valid() && buffered == []
      ensures file == Log(crc, held)
    {
      assert file + buffered == file;
    }
  }

  lemma Associates(a: seq<byte>, b: seq<byte>, c: seq<byte>)
    ensures a + (b + c) == (a + b) + c
  {
  }

  lemma LogJoin(crc: Crc, rs: seq<Record>, ts: seq<Record>)
    requires AllStorable(rs) && AllStorable(ts)
    ensures AllStorable(rs + ts) && Log(crc, rs + ts) == Log(crc, rs) + Log(crc, ts)
  {
    assert AllStorable(rs + ts);
    LogAppend(crc, rs, ts);
  }

  lemma ForwardJoin(held: seq<Record>, rs: seq<Record>, floor: uint64)
    requires Forward(held) && Forward(rs)
    requires forall i :: 0 <= i < |rs| ==> floor <= rs[i].blockNumber
    requires held != [] ==> floor == held[|held| - 1].blockNumber
    ensures Forward(held + rs)
  {
    var all := held + rs;
    forall i, j | 0 <= i < j < |all| ensures all[i].blockNumber <= all[j].blockNumber {
      if i < |held| <= j {
        assert held[i].blockNumber <= held[|held| - 1].blockNumber;
        assert floor <= rs[j - |held|].blockNumber;
      }
    }
  }

  /** A batch the floor admits extends a log that ends at the floor. */
  lemma BatchJoins(crc: Crc, start: uint64, held: seq<Record>, rs: seq<Record>, floor: uint64)
    requires Orderly(start, held) && AllStorable(rs) && AppendOk(floor, rs)
    requires floor == if held == [] then start else held[|held| - 1].blockNumber
    ensures Orderly(start, held + rs)
    ensures Log(crc, held + rs) == Log(crc, held) + Log(crc, rs)
  {
    ForwardJoin(held, rs, floor);
    LogJoin(crc, held, rs);
    forall i | 0 <= i < |held + rs| ensures start <= (held + rs)[i].blockNumber {
      if i >= |held| {
        assert floor <= rs[i - |held|].blockNumber;
        assert held != [] ==> start <= held[|held| - 1].blockNumber;
      }
    }
  }

  /** r is the first count records of file, or the failure of the first of them not to read back. */
  ghost predicate ReadsAs(crc: Crc, file: seq<byte>, count: nat, r: Result<seq<Record>, Error>) {
    match r
    case Success(rs) => |rs| == count && forall i :: 0 <= i < count ==> RecordAt(crc, file, i) == Success(rs[i])
    case Failure(e) => exists i :: 0 <= i < count && RecordAt(crc, file, i) == Failure(e)
  }

  lemma ReadsAsHeld(crc: Crc, held: seq<Record>, r: Result<seq<Record>, Error>)
    requires AllStorable(held) && ReadsAs(crc, Log(crc, held), |held|, r)
    ensures r == Success(held)
  {
    forall i | 0 <= i < |held| ensures RecordAt(crc, Log(crc, held), i) == Success(held[i]) {
      RecordAtLog(crc, held, i);
    }
    assert r.Success? ==> r.value == held;
  }

  method ReadBack(crc: Crc, file: seq<byte>, count: nat) returns (r: Result<seq<Record>, Error>)
    ensures ReadsAs(crc, file, count, r)
  {
    var out: seq<Record> := [];
    var i := 0;
    while i < count
      invariant 0 <= i <= count && |out| == i
      invariant forall k :: 0 <= k < i ==> RecordAt(crc, file, k) == Success(out[k])
    {
      var one := RecordAt(crc, file, i);
      if one.Failure? {
        return Failure(one.error);
      }
      out := out + [one.value];
      i := i + 1;
    }
    r := Success(out);
  }

  /** e is about the first record of a batch that cannot follow those before it: it is of an earlier block, or its
      value does not fit a uint256. */
  ghost predicate Refuses(start: uint64, rs: seq<Record>, e: Error) {
    match e
    case Behind(i, block, floor) =>
      && i < |rs| && AppendOk(start, rs[..i])
      && floor == (if i == 0 then start else rs[i - 1].blockNumber) && rs[i].blockNumber == block < floor
    case Refused(i, why) => i < |rs| && AppendOk(start, rs[..i]) && BadlyValued(rs[i], why)
    case _ => false
  }

  /** One record of a batch into its place, or why it cannot follow those before it. */
  method EncodeNext(crc: Crc, start: uint64, rs: seq<Record>, i: nat, floor: uint64, buf: array<byte>)
    returns (e: Option<Error>)
    requires i < |rs| && buf.Length == |rs| * STRIDE
    requires AppendOk(start, rs[..i]) && AllStorable(rs[..i]) && buf[..i * STRIDE] == Log(crc, rs[..i])
    requires floor == if i == 0 then start else rs[i - 1].blockNumber
    modifies buf
    ensures e.Some? ==> !AppendOk(start, rs) && Refuses(start, rs, e.value)
    ensures e.None? ==>
      AppendOk(start, rs[..i + 1]) && AllStorable(rs[..i + 1]) && buf[..(i + 1) * STRIDE] == Log(crc, rs[..i + 1])
  {
    AppendOkStep(start, rs, i);
    hide Log, Stored, AppendOk, Forward;
    if rs[i].blockNumber < floor {
      NotOk(start, rs, i + 1);
      return Some(Behind(i, rs[i].blockNumber, floor));
    }
    var bad := Records.Encode(crc, rs[i], buf, i * STRIDE);
    if bad.Some? {
      BadValueIs(rs[i]);
      NotOk(start, rs, i + 1);
      return Some(Refused(i, bad.value));
    }
    LogStep(crc, rs, i);
    e := None;
  }

  /** Encodes a batch, checking that it runs forward from the floor. */
  method EncodeBatch(crc: Crc, start: uint64, rs: seq<Record>) returns (r: Result<seq<byte>, Error>)
    ensures r.Success? <==> AppendOk(start, rs)
    ensures r.Success? ==> AllStorable(rs) && r.value == Log(crc, rs)
    ensures r.Failure? ==> Refuses(start, rs, r.error)
  {
    var floor := start;
    var encoded := new byte[|rs| * STRIDE](_ => 0);
    var i := 0;
    assert rs[..0] == [];
    while i < |rs|
      invariant 0 <= i <= |rs|
      invariant AppendOk(start, rs[..i]) && AllStorable(rs[..i])
      invariant floor == if i == 0 then start else rs[i - 1].blockNumber
      invariant encoded[..i * STRIDE] == Log(crc, rs[..i])
    {
      var e := EncodeNext(crc, start, rs, i, floor, encoded);
      if e.Some? {
        return Failure(e.value);
      }
      floor := rs[i].blockNumber;
      i := i + 1;
    }
    assert rs[..i] == rs;
    assert encoded[..] == encoded[..i * STRIDE];
    r := Success(encoded[..]);
  }

  lemma NotOk(floor: uint64, rs: seq<Record>, i: nat)
    requires i <= |rs| && !AppendOk(floor, rs[..i])
    ensures !AppendOk(floor, rs)
  {
    if AppendOk(floor, rs) {
      AppendOkPrefix(floor, rs, i);
    }
  }

  /** Reads strides until the file ends or cannot be trusted further. */
  method ScanFile(crc: Crc, start: uint64, f: seq<byte>, ghost all: seq<Record>)
    returns (count: nat, last: Option<Record>, blockStart: nat, beforeBlock: uint64, trouble: Option<Reason>)
    requires ScanOf(crc, start, f, all)
    ensures count == |all| && last == LastOf(all)
    ensures blockStart == BlockStart(all) && beforeBlock == BeforeBlock(all)
    ensures trouble == Trouble(crc, start, f, all)
  {
    count, last, blockStart, beforeBlock := 0, None, 0, 0;
    while STRIDE * count < |f|
      invariant count <= |all|
      invariant last == LastOf(all[..count])
      invariant blockStart == BlockStart(all[..count]) && beforeBlock == BeforeBlock(all[..count])
      decreases |all| - count
    {
      ScanGoesOn(crc, start, f, all, count);
      var r := NextOf(crc, start, f, count, last);
      if r.Failure? {
        trouble := Some(r.error);
        return;
      }
      BlockStartStep(all, count);
      if last.Some? && r.value.blockNumber != last.value.blockNumber {
        blockStart, beforeBlock := count, last.value.blockNumber;
      }
      count, last := count + 1, Some(r.value);
    }
    assert all[..count] == all;
    trouble := None;
  }

  /** After its first count records the scan of a file either goes on with the next one or has met its
      trouble. */
  lemma ScanGoesOn(crc: Crc, start: uint64, f: seq<byte>, all: seq<Record>, count: nat)
    requires ScanOf(crc, start, f, all) && count <= |all| && STRIDE * count < |f|
    ensures
      var next := NextOf(crc, start, f, count, LastOf(all[..count]));
      if count < |all| then next == Success(all[count])
      else next.Failure? && Trouble(crc, start, f, all) == Some(next.error) && all[..count] == all
  {
    if count < |all| {
      assert Decode(crc, Stride(f, count)) == Some(all[count]);
      assert count > 0 ==> all[count - 1].blockNumber <= all[count].blockNumber;
    } else {
      assert all[..count] == all;
    }
  }

  lemma BlockStartStep(all: seq<Record>, count: nat)
    requires count < |all|
    ensures LastOf(all[..count + 1]) == Some(all[count])
    ensures
      var moved := count > 0 && all[count].blockNumber != all[count - 1].blockNumber;
      && BlockStart(all[..count + 1]) == (if moved then count else BlockStart(all[..count]))
      && BeforeBlock(all[..count + 1]) == (if moved then all[count - 1].blockNumber else BeforeBlock(all[..count]))
  {
    var next := all[..count + 1];
    assert next[..count] == all[..count];
  }

  /** Every file has a scan. */
  lemma {:induction false} ScanExists(crc: Crc, start: uint64, f: seq<byte>, rs: seq<Record>) returns (all: seq<Record>)
    requires Scans(crc, start, f, rs)
    ensures ScanOf(crc, start, f, all)
    decreases |f| - STRIDE * |rs|
  {
    if |f| == STRIDE * |rs| || Trouble(crc, start, f, rs).Some? {
      all := rs;
    } else {
      var next := rs + [Decode(crc, Stride(f, |rs|)).value];
      ScansMore(crc, start, f, rs);
      all := ScanExists(crc, start, f, next);
    }
  }

  lemma ScansMore(crc: Crc, start: uint64, f: seq<byte>, rs: seq<Record>)
    requires Scans(crc, start, f, rs) && |f| != STRIDE * |rs| && Trouble(crc, start, f, rs).None?
    ensures Scans(crc, start, f, rs + [Decode(crc, Stride(f, |rs|)).value])
  {
    var r := Decode(crc, Stride(f, |rs|)).value;
    var next := rs + [r];
    forall i, j | 0 <= i < j < |next| ensures next[i].blockNumber <= next[j].blockNumber {
      if j == |rs| {
        assert rs[i].blockNumber <= rs[|rs| - 1].blockNumber;
      }
    }
  }

  /** Opens a file: the Cache holds its scan, or the scan cut back to where its last block starts. */
  method Open(crc: Crc, start: uint64, f: seq<byte>) returns (c: Cache, ghost rs: seq<Record>)
    ensures fresh(c) && c.crc == crc && c.start == start
    ensures c.Valid() && ScanOf(crc, start, f, rs) && c.Scanned(f, rs, Trouble(crc, start, f, rs))
  {
    c := new Cache(crc, start);
    rs := ScanExists(crc, start, f, []);
    c.file := f;
    c.Scan(rs);
  }
}
