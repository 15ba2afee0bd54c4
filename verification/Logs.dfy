/** Log pages: the order they are put in, and the byte string they are compared by. */
module Logs {
  import opened Bytes
  import opened Merkle
  import opened History
  import opened Records
  import Sorting

  datatype EventLog = EventLog(
    blockNumber: uint64, logIndex: uint64, blockHash: Hash, address: Address, topics: seq<Hash>, data: seq<byte>)

  /** A log whose lengths a uint64 counts, as every log in memory is. */
  predicate Countable(l: EventLog) {
    |l.topics| <= MAX_UINT64 && |l.data| <= MAX_UINT64
  }

  /** Block, then index: the order a node walks logs in. */
  function Site(l: EventLog): int {
    l.blockNumber * (MAX_UINT64 + 1) + l.logIndex
  }

  lemma SiteIsPair(l: EventLog, m: EventLog)
    ensures Site(l) == Site(m) <==> l.blockNumber == m.blockNumber && l.logIndex == m.logIndex
    ensures Site(l) < Site(m) <==>
      l.blockNumber < m.blockNumber || (l.blockNumber == m.blockNumber && l.logIndex < m.logIndex)
  {
  }

  /** slices.SortFunc over a page. */
  function SortLogs(page: seq<EventLog>): (r: seq<EventLog>)
    ensures |r| == |page| && Sorting.SortedBy(r, Site)
  {
    Sorting.SortBy(page, Site)
  }

  /** Two orderings of one page, no two of whose logs share a place, sort to the same list. */
  lemma OrderDoesNotMatter(page: seq<EventLog>, other: seq<EventLog>)
    requires multiset(page) == multiset(other) && Sorting.DistinctBy(page, Site)
    ensures SortLogs(page) == SortLogs(other)
  {
    var a, b := SortLogs(page), SortLogs(other);
    Sorting.SortPermutes(page, Site);
    Sorting.SortPermutes(other, Site);
    Sorting.SortKeepsElements(page, Site);
    forall x, y | x in a && y in a && Site(x) == Site(y) ensures x == y {
      var i :| 0 <= i < |page| && page[i] == x;
      var j :| 0 <= j < |page| && page[j] == y;
      assert i == j;
    }
    Sorting.SortedIsUnique(a, b, Site);
  }

  // ------------------------------------------------------------------ the comparison form

  function Join(topics: seq<Hash>): (r: seq<byte>)
    ensures |r| == WORD_SIZE * |topics|
  {
    if topics == [] then [] else Join(topics[..|topics| - 1]) + topics[|topics| - 1]
  }

  function Fixed(l: EventLog): (r: seq<byte>)
    requires Countable(l)
    ensures |r| == 76
  {
    ToBytes(l.blockNumber, 8) + ToBytes(l.logIndex, 8) + l.blockHash + ToBytes(l.address, ADDRESS_SIZE)
    + ToBytes(|l.topics|, 8)
  }

  /** One log's bytes: the fixed part, the topics, the data's length and the data. */
  function LogBytes(l: EventLog): seq<byte>
    requires Countable(l)
  {
    Fixed(l) + Join(l.topics) + ToBytes(|l.data|, 8) + l.data
  }

  function Canonical(page: seq<EventLog>): seq<byte>
    requires forall l :: l in page ==> Countable(l)
  {
    if page == [] then [] else LogBytes(page[0]) + Canonical(page[1..])
  }

  /** Strings of one length at the head of equal strings are equal, and so are the rests. */
  lemma SameHeads(a: seq<byte>, x: seq<byte>, b: seq<byte>, y: seq<byte>)
    requires a + x == b + y && |a| == |b|
    ensures a == b && x == y
  {
    assert a == (a + x)[..|a|] && b == (b + y)[..|b|];
    assert x == (a + x)[|a|..] && y == (b + y)[|b|..];
  }

  lemma FixedInjective(l: EventLog, m: EventLog)
    requires Countable(l) && Countable(m) && Fixed(l) == Fixed(m)
    ensures l.blockNumber == m.blockNumber && l.logIndex == m.logIndex && l.blockHash == m.blockHash
    ensures l.address == m.address && |l.topics| == |m.topics|
  {
    FixedParts(l);
    FixedParts(m);
    Widths();
    NumberRoundTrip(l.blockNumber, 8);
    NumberRoundTrip(m.blockNumber, 8);
    NumberRoundTrip(l.logIndex, 8);
    NumberRoundTrip(m.logIndex, 8);
    NumberRoundTrip(l.address, ADDRESS_SIZE);
    NumberRoundTrip(m.address, ADDRESS_SIZE);
    NumberRoundTrip(|l.topics|, 8);
    NumberRoundTrip(|m.topics|, 8);
  }

  lemma FixedParts(l: EventLog)
    requires Countable(l)
    ensures
      var f := Fixed(l);
      && f[0..8] == ToBytes(l.blockNumber, 8) && f[8..16] == ToBytes(l.logIndex, 8) && f[16..48] == l.blockHash
      && f[48..68] == ToBytes(l.address, ADDRESS_SIZE) && f[68..76] == ToBytes(|l.topics|, 8)
  {
    hide ToBytes;
  }

  lemma {:induction false} JoinInjective(a: seq<Hash>, b: seq<Hash>)
    requires |a| == |b| && Join(a) == Join(b)
    ensures a == b
  {
    if a != [] {
      var i, j := a[..|a| - 1], b[..|b| - 1];
      SameHeads(Join(i), a[|a| - 1], Join(j), b[|b| - 1]);
      JoinInjective(i, j);
      assert a == i + [a[|a| - 1]] && b == j + [b[|b| - 1]];
    }
  }

  lemma Regroup(f: seq<byte>, t: seq<byte>, n: seq<byte>, d: seq<byte>, x: seq<byte>)
    ensures f + t + n + d + x == f + (t + (n + (d + x)))
  {
  }

  /** A log can be read off the front of a string in one way only. */
  lemma LogReadsOneWay(l: EventLog, x: seq<byte>, m: EventLog, y: seq<byte>)
    requires Countable(l) && Countable(m) && LogBytes(l) + x == LogBytes(m) + y
    ensures l == m && x == y
  {
    var nl, nm := ToBytes(|l.data|, 8), ToBytes(|m.data|, 8);
    Regroup(Fixed(l), Join(l.topics), nl, l.data, x);
    Regroup(Fixed(m), Join(m.topics), nm, m.data, y);
    SameHeads(Fixed(l), Join(l.topics) + (nl + (l.data + x)), Fixed(m), Join(m.topics) + (nm + (m.data + y)));
    FixedInjective(l, m);
    SameHeads(Join(l.topics), nl + (l.data + x), Join(m.topics), nm + (m.data + y));
    JoinInjective(l.topics, m.topics);
    SameHeads(nl, l.data + x, nm, m.data + y);
    Widths();
    NumberRoundTrip(|l.data|, 8);
    NumberRoundTrip(|m.data|, 8);
    SameHeads(l.data, x, m.data, y);
  }

  ghost predicate AllCountable(page: seq<EventLog>) {
    forall l :: l in page ==> Countable(l)
  }

  lemma SomethingInFront(l: EventLog, x: seq<byte>)
    requires Countable(l)
    ensures LogBytes(l) + x != []
  {
  }

  /** Two pages with one comparison form are one page. */
  lemma {:induction false} CanonicalInjective(page: seq<EventLog>, other: seq<EventLog>)
    requires AllCountable(page) && AllCountable(other) && Canonical(page) == Canonical(other)
    ensures page == other
  {
    if page != [] {
      SomethingInFront(page[0], Canonical(page[1..]));
    }
    if other != [] {
      SomethingInFront(other[0], Canonical(other[1..]));
    }
    if page != [] && other != [] {
      LogReadsOneWay(page[0], Canonical(page[1..]), other[0], Canonical(other[1..]));
      CanonicalInjective(page[1..], other[1..]);
      assert page == [page[0]] + page[1..] && other == [other[0]] + other[1..];
    }
  }

  // ------------------------------------------------------------------ building it

  /** Appends n big-endian, a byte at a time from the low end. */
  method AppendUint64(dst: seq<byte>, n: uint64) returns (r: seq<byte>)
    ensures r == dst + ToBytes(n, 8)
  {
    var word: seq<byte> := [0, 0, 0, 0, 0, 0, 0, 0];
    var rest: nat := n;
    var i := 8;
    while i > 0
      invariant 0 <= i <= 8 && |word| == 8
      invariant ToBytes(n, 8) == ToBytes(rest, i) + word[i..]
    {
      i := i - 1;
      word := word[i := rest % 256];
      rest := rest / 256;
    }
    r := dst + word;
  }

  lemma {:induction false} CanonicalAppend(page: seq<EventLog>, l: EventLog)
    requires AllCountable(page) && Countable(l)
    ensures AllCountable(page + [l]) && Canonical(page + [l]) == Canonical(page) + LogBytes(l)
  {
    if page == [] {
      assert page + [l] == [l] && [l][1..] == [];
    } else {
      CanonicalAppend(page[1..], l);
      assert (page + [l])[1..] == page[1..] + [l];
    }
  }

  method AppendLog(dst: seq<byte>, l: EventLog) returns (r: seq<byte>)
    requires Countable(l)
    ensures r == dst + LogBytes(l)
  {
    hide ToBytes;
    r := AppendUint64(dst, l.blockNumber);
    r := AppendUint64(r, l.logIndex);
    r := r + l.blockHash;
    r := r + ToBytes(l.address, ADDRESS_SIZE);
    r := AppendUint64(r, |l.topics|);
    assert r == dst + Fixed(l);
    var i := 0;
    while i < |l.topics|
      invariant 0 <= i <= |l.topics|
      invariant r == dst + Fixed(l) + Join(l.topics[..i])
    {
      assert l.topics[..i + 1][..i] == l.topics[..i];
      r := r + l.topics[i];
      i := i + 1;
    }
    assert l.topics[..i] == l.topics;
    r := AppendUint64(r, |l.data|);
    r := r + l.data;
  }

  method CanonicalLogs(page: seq<EventLog>) returns (r: seq<byte>)
    requires AllCountable(page)
    ensures r == Canonical(page)
  {
    r := [];
    var i := 0;
    while i < |page|
      invariant 0 <= i <= |page| && AllCountable(page[..i])
      invariant r == Canonical(page[..i])
    {
      CanonicalAppend(page[..i], page[i]);
      assert page[..i + 1] == page[..i] + [page[i]];
      r := AppendLog(r, page[i]);
      i := i + 1;
    }
    assert page[..i] == page;
  }
}
