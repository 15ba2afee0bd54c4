/** The last block of an Epoch, and why what is read past it changes nothing. */
module EndBlock {
  import opened Wrappers
  import opened History
  import opened Merkle
  import opened Records
  import opened Replay
  import Judgement
  import Ranges

  datatype Block = Block(number: uint64, hash: Hash, parentHash: Hash, timestamp: int64)

  datatype EndError = NotClosed | Predates | Unread(block: uint64)

  /** Headers read are the chain's, when they can be read. */
  ghost predicate Reads(header: uint64 -> Option<Block>, chain: uint64 -> Block) {
    && (forall n: uint64 :: chain(n).number == n)
    && (forall n: uint64 :: header(n).Some? ==> header(n).value == chain(n))
  }

  ghost predicate NonDecreasing(chain: uint64 -> Block) {
    forall m: uint64, n: uint64 :: m <= n ==> chain(m).timestamp <= chain(n).timestamp
  }

  /** b is the last block through head that lies before end: everything up to it does, and nothing
      after it. */
  ghost predicate IsLastBefore(chain: uint64 -> Block, head: uint64, end: int, b: Block) {
    && b == chain(b.number) && b.number <= head
    && forall n: uint64 :: n <= head ==> (n <= b.number <==> chain(n).timestamp < end)
  }

  /** Binary search for the boundary, keeping every header probed. */
  method EndBlock(epoch: nat, head: Block, header: uint64 -> Option<Block>, ghost chain: uint64 -> Block)
    returns (r: Result<Block, EndError>)
    requires InRange(epoch) && Reads(header, chain) && head == chain(head.number)
    ensures head.timestamp < WindowOf(epoch).end <==> r == Failure(NotClosed)
    ensures r == Failure(Predates) ==> WindowOf(epoch).end <= chain(0).timestamp
    ensures r.Failure? && r.error.Unread? ==> r.error.block <= head.number && header(r.error.block).None?
    ensures r.Success? ==>
      && r.value == chain(r.value.number) && r.value.number < head.number
      && chain(0).timestamp < WindowOf(epoch).end
      && r.value.timestamp < WindowOf(epoch).end <= chain(r.value.number + 1).timestamp
    ensures r.Success? && NonDecreasing(chain) ==> IsLastBefore(chain, head.number, WindowOf(epoch).end, r.value)
  {
    var end := WindowOf(epoch).end;
    if head.timestamp < end {
      return Failure(NotClosed);
    }
    var genesis := header(0);
    if genesis.None? {
      return Failure(Unread(0));
    }
    if genesis.value.timestamp >= end {
      return Failure(Predates);
    }
    var probed: map<uint64, Block> := map[0 := genesis.value];
    var lo: uint64, hi: uint64 := 0, head.number;
    while hi - lo > 1
      invariant 0 <= lo < hi <= head.number
      invariant lo in probed && forall n :: n in probed ==> probed[n] == chain(n)
      invariant chain(lo).timestamp < end <= chain(hi).timestamp
    {
      var mid := lo + (hi - lo) / 2;
      var block := header(mid);
      if block.None? {
        return Failure(Unread(mid));
      }
      probed := probed[mid := block.value];
      if block.value.timestamp < end {
        lo := mid;
      } else {
        hi := mid;
      }
    }
    r := Success(probed[lo]);
  }

  // ------------------------------------------------------------------ past the end block

  /** Something a block holds, stamped with the block's timestamp. */
  datatype Mined<T> = Mined(block: uint64, entry: T)

  function Entries<T>(s: seq<Mined<T>>): (r: seq<T>)
    ensures |r| == |s| && forall i :: 0 <= i < |r| ==> r[i] == s[i].entry
  {
    seq(|s|, i requires 0 <= i < |s| => s[i].entry)
  }

  function MinedIn<T>(m: Mined<T>): int {
    m.block
  }

  /** What the blocks through n hold. */
  function Through<T>(s: seq<Mined<T>>, n: nat): seq<Mined<T>> {
    Ranges.In(s, MinedIn, 0, n)
  }

  ghost predicate Stamped<T>(s: seq<Mined<T>>, stamp: T -> int, chain: uint64 -> Block, head: uint64) {
    forall i :: 0 <= i < |s| ==> s[i].block <= head && stamp(s[i].entry) == chain(s[i].block).timestamp
  }

  /** The last block before an instant holds what is stamped before it, and nothing later does. */
  lemma StampedBefore(s: seq<Mined<Transfer>>, i: nat, chain: uint64 -> Block, head: uint64, end: int, b: Block)
    requires Stamped(s, (t: Transfer) => t.timestamp, chain, head) && IsLastBefore(chain, head, end, b) && i < |s|
    ensures s[i].entry.timestamp < end <==> s[i].block <= b.number
  {
    assert s[i].entry.timestamp == chain(s[i].block).timestamp;
  }

  /** Only blocks past the end block are cut, and they lie at or past the end of the window. */
  lemma SameBefore(s: seq<Mined<Transfer>>, chain: uint64 -> Block, head: uint64, end: int, b: Block)
    requires Stamped(s, (t: Transfer) => t.timestamp, chain, head) && IsLastBefore(chain, head, end, b)
    ensures Before(Entries(Through(s, b.number)), end) == Before(Entries(s), end)
  {
    forall i | 0 <= i < |s| ensures s[i].entry.timestamp < end <==> s[i].block <= b.number {
      StampedBefore(s, i, chain, head, end, b);
    }
    CutBefore(s, b.number, end);
  }

  lemma {:induction false} CutBefore(s: seq<Mined<Transfer>>, n: nat, end: int)
    requires forall i :: 0 <= i < |s| ==> (s[i].entry.timestamp < end <==> s[i].block <= n)
    ensures Before(Entries(Through(s, n)), end) == Before(Entries(s), end)
  {
    if s != [] {
      var init, last := s[..|s| - 1], s[|s| - 1];
      CutBefore(init, n, end);
      assert Entries(s)[..|init|] == Entries(init);
      var kept := Through(init, n);
      if last.block <= n {
        assert Through(s, n) == kept + [last];
        assert Entries(kept + [last])[..|kept|] == Entries(kept);
      } else {
        assert Through(s, n) == kept;
      }
    }
  }

  lemma EntriesIn<T>(s: seq<Mined<T>>, e: T)
    ensures e in Entries(s) <==> exists m :: m in s && m.entry == e
  {
    if m :| m in s && m.entry == e {
      var i :| 0 <= i < |s| && s[i] == m;
      assert Entries(s)[i] == e;
    }
  }

  lemma ExcludedMore(x: seq<Exclusion>, y: seq<Exclusion>, a: Address, end: int)
    requires forall e :: e in x && e.timestamp < end ==> e in y
    ensures Excluded(x, a, end) ==> Excluded(y, a, end)
  {
    if Excluded(x, a, end) {
      var k :| 0 <= k < |x| && x[k].account == a && x[k].timestamp < end;
      assert x[k] in x;
    }
  }

  /** The entries below end are those the blocks through the end block hold. */
  lemma SameExclusionsBefore(s: seq<Mined<Exclusion>>, chain: uint64 -> Block, head: uint64, end: int,
                             b: Block, e: Exclusion)
    requires Stamped(s, (e: Exclusion) => e.timestamp, chain, head) && IsLastBefore(chain, head, end, b)
    requires e.timestamp < end
    ensures e in Entries(Through(s, b.number)) <==> e in Entries(s)
  {
    Ranges.InElements(s, MinedIn, 0, b.number);
    EntriesIn(s, e);
    EntriesIn(Through(s, b.number), e);
    forall m | m in s && m.entry == e ensures m.block <= b.number {
      assert chain(m.block).timestamp < end;
    }
  }

  lemma SameExcluded(s: seq<Mined<Exclusion>>, standing: seq<Exclusion>, chain: uint64 -> Block, head: uint64, end: int,
                     b: Block, a: Address)
    requires Stamped(s, (e: Exclusion) => e.timestamp, chain, head) && IsLastBefore(chain, head, end, b)
    ensures Excluded(Entries(Through(s, b.number)) + standing, a, end) <==> Excluded(Entries(s) + standing, a, end)
  {
    var cut, all := Entries(Through(s, b.number)), Entries(s);
    forall e: Exclusion | e.timestamp < end ensures e in cut + standing <==> e in all + standing {
      SameExclusionsBefore(s, chain, head, end, b, e);
    }
    ExcludedMore(cut + standing, all + standing, a, end);
    ExcludedMore(all + standing, cut + standing, a, end);
  }

  /** Closing an Epoch over the history and exclusions through the tip comes to what it comes to over
      the blocks through its end block alone. standing is what is excluded from the start. */
  lemma EndBlockSuffices(history: seq<Mined<Transfer>>, stream: seq<Mined<Exclusion>>, standing: seq<Exclusion>,
                         chain: uint64 -> Block, head: uint64, b: Block, w: Window,
                         whole: Result<seq<Holder>, Error>, cut: Result<seq<Holder>, Error>)
    requires Stamped(history, (t: Transfer) => t.timestamp, chain, head)
    requires Stamped(stream, (e: Exclusion) => e.timestamp, chain, head)
    requires IsLastBefore(chain, head, w.end, b)
    requires IsOutcome(whole, Entries(history), Entries(stream) + standing, w)
    requires IsOutcome(cut, Entries(Through(history, b.number)), Entries(Through(stream, b.number)) + standing, w)
    ensures whole.Success? <==> cut.Success?
    ensures whole.Success? ==> whole == cut
    ensures forall a: Address ::
      Excluded(Entries(Through(stream, b.number)) + standing, a, w.end) <==>
      Excluded(Entries(stream) + standing, a, w.end)
  {
    var x, y := Entries(stream) + standing, Entries(Through(stream, b.number)) + standing;
    SameBefore(history, chain, head, w.end, b);
    forall a: Address ensures Excluded(x, a, w.end) <==> Excluded(y, a, w.end) {
      SameExcluded(stream, standing, chain, head, w.end, b, a);
    }
    SameExclusions(cut, Entries(Through(history, b.number)), y, x, w);
    Judgement.LongerHistory(whole, cut, Entries(history), Entries(Through(history, b.number)), x, w);
  }

  lemma SameExclusions(r: Result<seq<Holder>, Error>, h: seq<Transfer>, x: seq<Exclusion>, y: seq<Exclusion>, w: Window)
    requires IsOutcome(r, h, x, w) && forall a: Address :: Excluded(x, a, w.end) <==> Excluded(y, a, w.end)
    ensures IsOutcome(r, h, y, w)
  {
    forall a: Address
      ensures Eligible(Before(h, w.end), x, a, w) <==> Eligible(Before(h, w.end), y, a, w)
    {
    }
  }
}
