/** What a chain says at one moment: at each height a block hash, and the token's records in it. */
module ChainView {
  import opened Records
  import opened Merkle

  datatype View = View(hashAt: nat -> Hash, recordsAt: nat -> seq<Record>)

  ghost predicate InBlock(v: View, r: Record, n: nat) {
    r.blockNumber == n && r.blockHash == v.hashAt(n) && Storable(r)
  }

  ghost predicate WellFormed(v: View) {
    forall n: nat, k: nat :: k < |v.recordsAt(n)| ==> InBlock(v, v.recordsAt(n)[k], n)
  }

  ghost predicate SameBlock(v: View, w: View, n: nat) {
    v.hashAt(n) == w.hashAt(n) && v.recordsAt(n) == w.recordsAt(n)
  }

  /** A block's hash commits to the block and to everything before it. */
  ghost predicate Linked(v: View, w: View) {
    forall n: nat, m: nat :: m <= n && v.hashAt(n) == w.hashAt(n) ==> SameBlock(v, w, m)
  }

  /** Every record of the blocks [lo, hi), in block order: what a fresh Cache of them holds. */
  function RecordsOf(v: View, lo: nat, hi: nat): seq<Record>
    decreases hi - lo
  {
    if hi <= lo then [] else RecordsOf(v, lo, hi - 1) + v.recordsAt(hi - 1)
  }

  ghost predicate Forward(rs: seq<Record>) {
    forall i, j :: 0 <= i < j < |rs| ==> rs[i].blockNumber <= rs[j].blockNumber
  }

  /** Records of blocks [lo, hi) run forward, each as its block has it. */
  ghost predicate Between(v: View, rs: seq<Record>, lo: nat, hi: nat) {
    && Forward(rs)
    && forall i :: 0 <= i < |rs| ==> lo <= rs[i].blockNumber < hi && InBlock(v, rs[i], rs[i].blockNumber)
  }

  lemma {:induction false} RecordsBetween(v: View, lo: nat, hi: nat)
    requires WellFormed(v)
    ensures Between(v, RecordsOf(v, lo, hi), lo, hi)
    decreases hi - lo
  {
    if lo < hi {
      RecordsBetween(v, lo, hi - 1);
      var init, last := RecordsOf(v, lo, hi - 1), v.recordsAt(hi - 1);
      assert forall k :: 0 <= k < |last| ==> InBlock(v, last[k], hi - 1);
    }
  }

  lemma {:induction false} RecordsSplit(v: View, lo: nat, mid: nat, hi: nat)
    requires lo <= mid <= hi
    ensures RecordsOf(v, lo, hi) == RecordsOf(v, lo, mid) + RecordsOf(v, mid, hi)
    decreases hi - mid
  {
    if mid < hi {
      RecordsSplit(v, lo, mid, hi - 1);
    }
  }

  lemma {:induction false} RecordsAgree(v: View, w: View, lo: nat, hi: nat)
    requires forall m: nat :: m < hi ==> SameBlock(v, w, m)
    ensures RecordsOf(v, lo, hi) == RecordsOf(w, lo, hi)
    decreases hi - lo
  {
    if lo < hi {
      RecordsAgree(v, w, lo, hi - 1);
      assert SameBlock(v, w, hi - 1);
    }
  }

  /** The block after the newest record held. */
  function Through(rs: seq<Record>, start: nat): nat {
    if rs == [] then start else rs[|rs| - 1].blockNumber + 1
  }

  /** rs is every record of the blocks from start through the newest one held: no block is held in
      part, and none is missed. */
  ghost predicate WholeBlocks(v: View, rs: seq<Record>, start: nat) {
    rs == RecordsOf(v, start, Through(rs, start))
  }

  /** Blocks past the newest record that hold none make no difference. */
  lemma WholeThroughLast(v: View, rs: seq<Record>, start: nat, k: nat)
    requires WellFormed(v) && start <= k && rs == RecordsOf(v, start, k)
    ensures WholeBlocks(v, rs, start) && Through(rs, start) <= k
  {
    RecordsBetween(v, start, k);
    var t := Through(rs, start);
    RecordsSplit(v, start, t, k);
    RecordsBetween(v, t, k);
    var tail := RecordsOf(v, t, k);
    var head := RecordsOf(v, start, t);
    assert rs == head + tail;
    if tail != [] {
      LastInTail(head, tail);
      assert false;
    }
  }

  lemma LastInTail(head: seq<Record>, tail: seq<Record>)
    requires tail != []
    ensures (head + tail)[|head + tail| - 1] == tail[|tail| - 1]
  {
  }

  /** A cut between two blocks leaves whole blocks. */
  lemma CutBetweenBlocks(v: View, rs: seq<Record>, start: nat, i: nat)
    requires WellFormed(v) && WholeBlocks(v, rs, start) && i <= |rs|
    requires 0 < i < |rs| ==> rs[i - 1].blockNumber < rs[i].blockNumber
    ensures WholeBlocks(v, rs[..i], start)
  {
    RecordsBetween(v, start, Through(rs, start));
    if 0 < i < |rs| {
      var b := rs[i].blockNumber;
      RecordsSplit(v, start, b, Through(rs, start));
      RecordsBetween(v, start, b);
      RecordsBetween(v, b, Through(rs, start));
      var head, tail := RecordsOf(v, start, b), RecordsOf(v, b, Through(rs, start));
      CutIsBoundary(rs, head, tail, i, b);
      WholeThroughLast(v, rs[..i], start, b);
    } else if i == 0 {
      assert rs[..0] == [];
    } else {
      assert rs[..i] == rs;
    }
  }

  lemma CutIsBoundary(rs: seq<Record>, head: seq<Record>, tail: seq<Record>, i: nat, b: nat)
    requires rs == head + tail && 0 < i < |rs|
    requires forall k :: 0 <= k < |head| ==> head[k].blockNumber < b
    requires forall k :: 0 <= k < |tail| ==> b <= tail[k].blockNumber
    requires rs[i - 1].blockNumber < b == rs[i].blockNumber
    ensures rs[..i] == head
  {
    assert forall k :: 0 <= k < |head| ==> rs[k] == head[k];
    assert forall k :: |head| <= k < |rs| ==> rs[k] == tail[k - |head|];
  }

  /** A cut inside a block leaves part of it. */
  lemma CutInsideBlock(v: View, rs: seq<Record>, start: nat, i: nat)
    requires WellFormed(v) && WholeBlocks(v, rs, start) && 0 < i < |rs|
    requires rs[i - 1].blockNumber == rs[i].blockNumber
    ensures !WholeBlocks(v, rs[..i], start)
  {
    RecordsBetween(v, start, Through(rs, start));
    if WholeBlocks(v, rs[..i], start) {
      var b := Through(rs[..i], start);
      RecordsSplit(v, start, b, Through(rs, start));
      RecordsBetween(v, b, Through(rs, start));
      assert false;
    }
  }

  /** A cut leaves whole blocks exactly when it falls between two of them. */
  lemma CutWholeIff(v: View, rs: seq<Record>, start: nat, i: nat)
    requires WellFormed(v) && WholeBlocks(v, rs, start) && i <= |rs|
    ensures WholeBlocks(v, rs[..i], start) <==> i == 0 || i == |rs| || rs[i - 1].blockNumber < rs[i].blockNumber
  {
    if 0 < i < |rs| && rs[i - 1].blockNumber == rs[i].blockNumber {
      CutInsideBlock(v, rs, start, i);
    } else {
      RecordsBetween(v, start, Through(rs, start));
      CutBetweenBlocks(v, rs, start, i);
    }
  }

  /** When two views agree on the newest record held, what is held is whole blocks of both. */
  lemma WholeInBoth(v: View, w: View, rs: seq<Record>, start: nat)
    requires WholeBlocks(v, rs, start) && Linked(v, w)
    requires rs != [] ==> v.hashAt(rs[|rs| - 1].blockNumber) == w.hashAt(rs[|rs| - 1].blockNumber)
    ensures WholeBlocks(w, rs, start)
  {
    if rs != [] {
      var n: nat := rs[|rs| - 1].blockNumber;
      forall m: nat | m < n + 1 ensures SameBlock(v, w, m) {
      }
      RecordsAgree(v, w, start, n + 1);
    }
  }
}
