/** The nodes of a tree in numbers: which string each is the hash of, and that nothing else is that tree. */
module Shape {
  import opened Bytes
  import opened Merkle
  import opened Tree
  import Bags
  import Binding
  import Sorting

  /** nodes are a tree of n leaves: every other node hashes its children, the smaller first; the leaves fill the
      tail, the greatest first and the least last. */
  ghost predicate InTreeOrder(keccak: Keccak, nodes: seq<Hash>, n: nat) {
    && n > 0 && |nodes| == 2 * n - 1
    && (forall i :: 0 <= i < n - 1 ==>
          nodes[i] == keccak(SmallerThenGreater(nodes[2 * i + 1], nodes[2 * i + 2])))
    && (forall i, j :: n - 1 <= i < j < 2 * n - 1 ==> Value(nodes[i]) >= Value(nodes[j]))
  }

  function SmallerThenGreater(a: Hash, b: Hash): seq<byte> {
    if Value(a) <= Value(b) then a + b else b + a
  }

  /** The double hashes of the encodings, in the order they arrived. */
  function DoubleHashes(keccak: Keccak, encoded: seq<seq<byte>>): (r: seq<Hash>)
    ensures |r| == |encoded| && forall i :: 0 <= i < |r| ==> r[i] == keccak(keccak(encoded[i]))
  {
    Bags.Map((e: seq<byte>) => LeafHashOf(keccak, e), encoded)
  }

  /** nodes are the tree over encoded, whatever order that arrives in. */
  ghost predicate IsTree(keccak: Keccak, nodes: seq<Hash>, encoded: seq<seq<byte>>) {
    && InTreeOrder(keccak, nodes, |encoded|)
    && multiset(nodes[|encoded| - 1..]) == multiset(DoubleHashes(keccak, encoded))
  }

  lemma Ordered(keccak: Keccak, a: Hash, b: Hash)
    ensures HashPair(keccak, a, b) == keccak(SmallerThenGreater(a, b))
  {
    if Value(a) <= Value(b) {
      SmallerFirst(keccak, a, b);
    } else {
      SmallerFirst(keccak, b, a);
    }
  }

  /** b from its end is a. */
  ghost predicate Reverses(a: seq<Hash>, b: seq<Hash>) {
    |a| == |b| && forall k :: 0 <= k < |a| ==> a[k] == b[|b| - 1 - k]
  }

  lemma {:induction false} ReversedBag(a: seq<Hash>, b: seq<Hash>)
    requires Reverses(a, b)
    ensures multiset(a) == multiset(b)
  {
    if a != [] {
      var tail, init := a[1..], b[..|b| - 1];
      forall k | 0 <= k < |tail| ensures tail[k] == init[|init| - 1 - k] {
        assert a[k + 1] == b[|b| - 1 - (k + 1)];
      }
      ReversedBag(tail, init);
      assert a == [a[0]] + tail && b == init + [b[|b| - 1]];
    }
  }

  lemma RowAscends(keccak: Keccak, encoded: seq<seq<byte>>)
    ensures
      var row := LeafRow(keccak, encoded);
      forall i, j :: 0 <= i < j < |row| ==> Value(row[i]) <= Value(row[j])
  {
    var row, key := LeafRow(keccak, encoded), (h: Hash) => FromBytes(h);
    Binding.RowSorted(keccak, encoded);
    forall i, j | 0 <= i < j < |row| ensures Value(row[i]) <= Value(row[j]) {
      assert key(row[i]) <= key(row[j]);
    }
  }

  lemma InnerNode(keccak: Keccak, row: seq<Hash>, i: nat)
    requires i < |row| - 1
    ensures Node(keccak, row, i)
         == keccak(SmallerThenGreater(Node(keccak, row, 2 * i + 1), Node(keccak, row, 2 * i + 2)))
  {
    Ordered(keccak, Node(keccak, row, 2 * i + 1), Node(keccak, row, 2 * i + 2));
  }

  lemma TailIsReversed(keccak: Keccak, row: seq<Hash>)
    requires row != []
    ensures Reverses(NodesOf(keccak, row)[|row| - 1..], row)
  {
    var tail := NodesOf(keccak, row)[|row| - 1..];
    forall k | 0 <= k < |tail| ensures tail[k] == row[|row| - 1 - k] {
      LeafNode(keccak, row, |row| - 1 + k);
    }
  }

  lemma LeafNode(keccak: Keccak, row: seq<Hash>, i: nat)
    requires |row| - 1 <= i < 2 * |row| - 1
    ensures Node(keccak, row, i) == row[2 * |row| - 2 - i]
  {
  }

  lemma NodesInOrder(keccak: Keccak, row: seq<Hash>)
    requires row != [] && forall i, j :: 0 <= i < j < |row| ==> Value(row[i]) <= Value(row[j])
    ensures InTreeOrder(keccak, NodesOf(keccak, row), |row|)
  {
    var nodes, n := NodesOf(keccak, row), |row|;
    TailIsReversed(keccak, row);
    hide NodesOf, Node, Value, SmallerThenGreater;
    forall i | 0 <= i < n - 1 ensures nodes[i] == keccak(SmallerThenGreater(nodes[2 * i + 1], nodes[2 * i + 2])) {
      InnerNode(keccak, row, i);
    }
    forall i, j | n - 1 <= i < j < 2 * n - 1 ensures Value(nodes[i]) >= Value(nodes[j]) {
      assert nodes[i] == nodes[n - 1..][i - (n - 1)] && nodes[j] == nodes[n - 1..][j - (n - 1)];
    }
  }

  /** The nodes are the tree over their encodings. */
  lemma NodesAreTree(keccak: Keccak, encoded: seq<seq<byte>>)
    requires encoded != []
    ensures IsTree(keccak, NodesOf(keccak, LeafRow(keccak, encoded)), encoded)
  {
    var row := LeafRow(keccak, encoded);
    RowAscends(keccak, encoded);
    NodesInOrder(keccak, row);
    TailIsReversed(keccak, row);
    ReversedBag(NodesOf(keccak, row)[|row| - 1..], row);
    Binding.RowBag(keccak, encoded);
    assert Bags.Map(e => LeafHashOf(keccak, e), encoded) == DoubleHashes(keccak, encoded);
  }

  /** There is one tree over a bag of encodings. */
  lemma OneTree(keccak: Keccak, nodes: seq<Hash>, others: seq<Hash>, encoded: seq<seq<byte>>)
    requires IsTree(keccak, nodes, encoded) && IsTree(keccak, others, encoded)
    ensures nodes == others
  {
    hide Value, SmallerThenGreater, DoubleHashes;
    SameTail(nodes, others, |encoded|);
    var n := |encoded|;
    forall k | n - 1 <= k < 2 * n - 1 ensures nodes[k] == others[k] {
      assert nodes[n - 1..][k - (n - 1)] == others[n - 1..][k - (n - 1)];
    }
    SameNodes(keccak, nodes, others, |encoded|, 0);
  }

  function Negative(h: Hash): int {
    0 - Value(h)
  }

  lemma SameTail(nodes: seq<Hash>, others: seq<Hash>, n: nat)
    requires n > 0 && |nodes| == |others| == 2 * n - 1
    requires forall i, j :: n - 1 <= i < j < 2 * n - 1 ==> Value(nodes[i]) >= Value(nodes[j])
    requires forall i, j :: n - 1 <= i < j < 2 * n - 1 ==> Value(others[i]) >= Value(others[j])
    requires multiset(nodes[n - 1..]) == multiset(others[n - 1..])
    ensures nodes[n - 1..] == others[n - 1..]
  {
    var a, b := nodes[n - 1..], others[n - 1..];
    forall x, y | x in a && y in a && Negative(x) == Negative(y) ensures x == y {
      NumberInjective(x, y);
    }
    Sorting.SortedIsUnique(a, b, Negative);
  }

  lemma {:induction false} SameNodes(keccak: Keccak, nodes: seq<Hash>, others: seq<Hash>, n: nat, i: nat)
    requires InTreeOrder(keccak, nodes, n) && InTreeOrder(keccak, others, n)
    requires forall k :: n - 1 <= k < 2 * n - 1 ==> nodes[k] == others[k]
    requires i <= n - 1
    ensures forall k :: i <= k < 2 * n - 1 ==> nodes[k] == others[k]
    decreases n - i
  {
    hide SmallerThenGreater, Value;
    if i < n - 1 {
      SameNodes(keccak, nodes, others, n, i + 1);
      assert nodes[2 * i + 1] == others[2 * i + 1] && nodes[2 * i + 2] == others[2 * i + 2];
    }
  }

  /** What the arrays of a Tree hold, and that its Root is the first node of the one tree there is. */
  lemma TreeIsTree(t: Tree)
    requires t.Valid()
    ensures IsTree(t.keccak, t.nodes[..], t.encoded) && t.Root() == t.nodes[0]
  {
    NodesAreTree(t.keccak, t.encoded);
  }

  /** The Root over two encodings hashes their double hashes, the smaller first. */
  lemma RootOfTwo(keccak: Keccak, d: seq<byte>, e: seq<byte>)
    ensures RootOf(keccak, [d, e]) == keccak(SmallerThenGreater(keccak(keccak(d)), keccak(keccak(e))))
  {
    var encoded := [d, e];
    var nodes := NodesOf(keccak, LeafRow(keccak, encoded));
    NodesAreTree(keccak, encoded);
    var x, y := keccak(keccak(d)), keccak(keccak(e));
    assert nodes[1..] == [nodes[1], nodes[2]];
    assert DoubleHashes(keccak, encoded) == [x, y];
    hide LeafRow, NodesOf, DoubleHashes, Value;
    EitherWay(nodes[1], nodes[2], x, y);
    Swapped(x, y);
  }

  lemma Swapped(a: Hash, b: Hash)
    ensures SmallerThenGreater(a, b) == SmallerThenGreater(b, a)
  {
    if Value(a) == Value(b) {
      NumberInjective(a, b);
    }
  }

  lemma EitherWay<T>(a: T, b: T, x: T, y: T)
    requires multiset([a, b]) == multiset([x, y])
    ensures (a == x && b == y) || (a == y && b == x)
  {
    assert a in multiset([x, y]);
    if a == x {
      assert multiset([a, b]) - multiset{a} == multiset{b} && multiset([x, y]) - multiset{x} == multiset{y};
      assert b in multiset{y};
    } else {
      assert multiset([a, b]) - multiset{a} == multiset{b} && multiset([x, y]) - multiset{y} == multiset{x};
      assert b in multiset{x};
    }
  }
}
