/** The Merkle tree: 2n-1 nodes of a complete binary tree in one array, their proofs, and reading claims back. */
module Tree {
  import opened Wrappers
  import opened Bytes
  import opened Merkle
  import Sorting

  // ------------------------------------------------------------------ the tree as a function

  /** A leaf hash and the position its claim arrived at. */
  datatype Hashed = Hashed(hash: Hash, claimIndex: nat)

  function Number(p: Hashed): int { FromBytes(p.hash) }

  function Arrival(p: Hashed): int { p.claimIndex }

  function Arrived(keccak: Keccak, encoded: seq<seq<byte>>): (r: seq<Hashed>)
    ensures |r| == |encoded|
    ensures forall i :: 0 <= i < |r| ==> r[i] == Hashed(LeafHashOf(keccak, encoded[i]), i)
  {
    seq(|encoded|, i requires 0 <= i < |encoded| => Hashed(LeafHashOf(keccak, encoded[i]), i))
  }

  /** Ascending by hash, repeated claims in the order they arrived. */
  function Sorted(keccak: Keccak, encoded: seq<seq<byte>>): (r: seq<Hashed>)
    ensures |r| == |encoded|
  {
    Sorting.SortBy(Arrived(keccak, encoded), Number)
  }

  function Hashes(ps: seq<Hashed>): (r: seq<Hash>)
    ensures |r| == |ps|
    ensures forall i :: 0 <= i < |r| ==> r[i] == ps[i].hash
  {
    seq(|ps|, i requires 0 <= i < |ps| => ps[i].hash)
  }

  function LeafRow(keccak: Keccak, encoded: seq<seq<byte>>): (r: seq<Hash>)
    ensures |r| == |encoded|
  {
    Hashes(Sorted(keccak, encoded))
  }

  /** The hash at a node index: leaves fill the tail in reverse, every other node is its children's
      pair hash. */
  function Node(keccak: Keccak, row: seq<Hash>, i: nat): Hash
    requires i < 2 * |row| - 1
    decreases 2 * |row| - i
  {
    if i >= |row| - 1 then row[2 * |row| - 2 - i]
    else HashPair(keccak, Node(keccak, row, 2 * i + 1), Node(keccak, row, 2 * i + 2))
  }

  /** All the nodes of the tree over row. */
  function NodesOf(keccak: Keccak, row: seq<Hash>): (r: seq<Hash>)
    requires row != []
    ensures |r| == 2 * |row| - 1
    ensures forall i :: 0 <= i < |r| ==> r[i] == Node(keccak, row, i)
  {
    seq(2 * |row| - 1, i requires 0 <= i < 2 * |row| - 1 => Node(keccak, row, i))
  }

  /** all[i] is the leaf that belongs there, or the pair hash of its children. */
  predicate NodeOk(keccak: Keccak, row: seq<Hash>, all: seq<Hash>, i: nat)
    requires |all| == 2 * |row| - 1 && i < |all|
  {
    if i >= |row| - 1 then all[i] == row[2 * |row| - 2 - i]
    else all[i] == HashPair(keccak, all[2 * i + 1], all[2 * i + 2])
  }

  ghost predicate WellHashed(keccak: Keccak, row: seq<Hash>, all: seq<Hash>) {
    && |all| == 2 * |row| - 1
    && forall i :: 0 <= i < |all| ==> NodeOk(keccak, row, all, i)
  }

  lemma NodesWellHashed(keccak: Keccak, row: seq<Hash>)
    requires row != []
    ensures WellHashed(keccak, row, NodesOf(keccak, row))
  {
  }

  function RootOf(keccak: Keccak, encoded: seq<seq<byte>>): Hash
    requires encoded != []
  {
    Node(keccak, LeafRow(keccak, encoded), 0)
  }

  /** The node paired with at, which is to the right of it when at is odd. */
  function SiblingIndex(at: nat): (s: nat)
    requires at > 0
    ensures s > 0 && s != at && (s - 1) / 2 == (at - 1) / 2
  {
    if at % 2 == 0 then at - 1 else at + 1
  }

  lemma SiblingInTree(at: nat, n: nat)
    requires 0 < at < 2 * n - 1
    ensures SiblingIndex(at) < 2 * n - 1
  {
  }

  function ProofOf(keccak: Keccak, row: seq<Hash>, at: nat): seq<Hash>
    requires at < 2 * |row| - 1
  {
    if at == 0 then []
    else
      SiblingInTree(at, |row|);
      [Node(keccak, row, SiblingIndex(at))] + ProofOf(keccak, row, (at - 1) / 2)
  }

  function Fold(keccak: Keccak, leaf: Hash, proof: seq<Hash>): Hash
    decreases |proof|
  {
    if proof == [] then leaf else Fold(keccak, HashPair(keccak, leaf, proof[0]), proof[1..])
  }

  // ------------------------------------------------------------------ proofs verify

  /** Replaying the proof of any node, leaf or not, arrives at the Root. */
  lemma {:induction false} ProofVerifies(keccak: Keccak, row: seq<Hash>, at: nat)
    requires at < 2 * |row| - 1
    ensures Fold(keccak, Node(keccak, row, at), ProofOf(keccak, row, at)) == Node(keccak, row, 0)
  {
    if at > 0 {
      var parent := (at - 1) / 2;
      ProofVerifies(keccak, row, parent);
      SiblingInTree(at, |row|);
      PairUnordered(Node(keccak, row, at), Node(keccak, row, SiblingIndex(at)));
      var proof := ProofOf(keccak, row, at);
      assert proof[1..] == ProofOf(keccak, row, parent);
      assert HashPair(keccak, Node(keccak, row, at), proof[0]) == Node(keccak, row, parent);
    }
  }

  function Pow2(d: nat): nat
    ensures Pow2(d) > 0
  {
    if d == 0 then 1 else 2 * Pow2(d - 1)
  }

  lemma {:induction false} ProofLength(keccak: Keccak, row: seq<Hash>, at: nat)
    requires at < 2 * |row| - 1
    ensures var d := |ProofOf(keccak, row, at)|; Pow2(d) <= at + 1 < 2 * Pow2(d)
  {
    if at > 0 {
      ProofLength(keccak, row, (at - 1) / 2);
    }
  }

  /** A leaf's proof has floor(log2 n) or ceil(log2 n) hashes. */
  lemma LeafProofLength(keccak: Keccak, row: seq<Hash>, at: nat)
    requires |row| - 1 <= at < 2 * |row| - 1
    ensures
      var n, d := |row|, |ProofOf(keccak, row, at)|;
      (Pow2(d) <= n < 2 * Pow2(d)) || (Pow2(d) < 2 * n && n <= Pow2(d))
  {
    ProofLength(keccak, row, at);
  }

  // ------------------------------------------------------------------ the Tree

  datatype TreeError = NoClaims | BadClaim(index: nat, word: nat, error: EncodeError)

  datatype DumpValue = DumpValue(id: nat, account: nat, amounts: seq<nat>, treeIndex: nat)

  ghost predicate AllEncodable(claims: seq<Claim>) {
    forall i :: 0 <= i < |claims| ==> Encodable(claims[i])
  }

  function EncodedAll(claims: seq<Claim>): (r: seq<seq<byte>>)
    requires AllEncodable(claims)
    ensures |r| == |claims|
    ensures forall i :: 0 <= i < |r| ==> r[i] == Encoded(claims[i])
  {
    seq(|claims|, i requires 0 <= i < |claims| => Encoded(claims[i]))
  }

  class Tree {
    const keccak: Keccak
    const nodes: array<Hash>
    const leafAt: array<nat>
    const encoded: seq<seq<byte>>

    /** The arrays hold the tree over encoded, and where each claim's leaf is. */
    ghost predicate Valid()
      reads nodes, leafAt
    {
      && (nodes as object) != (leafAt as object)
      && encoded != [] && nodes.Length == 2 * |encoded| - 1 && leafAt.Length == |encoded|
      && nodes[..] == NodesOf(keccak, LeafRow(keccak, encoded))
      && (forall i :: 0 <= i < leafAt.Length ==>
            |encoded| - 1 <= leafAt[i] < 2 * |encoded| - 1 && nodes[leafAt[i]] == LeafHashOf(keccak, encoded[i]))
      && (forall i, j :: 0 <= i < j < leafAt.Length ==> leafAt[i] != leafAt[j])
    }

    /** Places sorted leaves back to front, then hashes every pair above them. */
    constructor (keccak: Keccak, encoded: seq<seq<byte>>)
      requires encoded != []
      ensures Valid() && fresh(nodes) && fresh(leafAt)
      ensures this.keccak == keccak && this.encoded == encoded
    {
      this.keccak := keccak;
      this.encoded := encoded;
      var n := |encoded|;
      var leaves := Sorted(keccak, encoded);
      var zero: Hash := seq(32, _ => 0);
      nodes := new Hash[2 * n - 1](_ => zero);
      leafAt := new nat[n](_ => 0);
      new;
      SortedArrivals(keccak, encoded);
      PlaceLeaves(leaves);
      NodesWellHashed(keccak, Hashes(leaves));
      HashPairs(Hashes(leaves), NodesOf(keccak, Hashes(leaves)));
      LeavesAtArrivals(leaves);
    }

    method PlaceLeaves(leaves: seq<Hashed>)
      requires nodes.Length == 2 * |leaves| - 1 && leafAt.Length == |leaves|
      requires forall i :: 0 <= i < |leaves| ==> leaves[i].claimIndex < |leaves|
      requires Sorting.DistinctBy(leaves, Arrival)
      modifies nodes, leafAt
      ensures forall i :: 0 <= i < |leaves| ==>
        nodes[2 * |leaves| - 2 - i] == leaves[i].hash && leafAt[leaves[i].claimIndex] == 2 * |leaves| - 2 - i
    {
      var i := 0;
      while i < |leaves|
        invariant 0 <= i <= |leaves|
        invariant forall j :: 0 <= j < i ==>
          nodes[2 * |leaves| - 2 - j] == leaves[j].hash && leafAt[leaves[j].claimIndex] == 2 * |leaves| - 2 - j
      {
        var at := nodes.Length - 1 - i;
        assert forall j :: 0 <= j < i ==> Arrival(leaves[j]) != Arrival(leaves[i]);
        nodes[at] := leaves[i].hash;
        leafAt[leaves[i].claimIndex] := at;
        i := i + 1;
      }
    }

    method HashPairs(ghost row: seq<Hash>, ghost all: seq<Hash>)
      requires WellHashed(keccak, row, all) && nodes.Length == |all| && leafAt.Length == |row|
      requires forall i :: 0 <= i < |row| ==> nodes[2 * |row| - 2 - i] == row[i]
      modifies nodes
      ensures nodes[..] == all
    {
      var i := nodes.Length - 1 - leafAt.Length;
      forall j | i < j < nodes.Length ensures nodes[j] == all[j] {
        assert NodeOk(keccak, row, all, j);
        assert nodes[2 * |row| - 2 - (2 * |row| - 2 - j)] == row[2 * |row| - 2 - j];
      }
      while i >= 0
        invariant -1 <= i < |row| - 1
        invariant forall j :: i < j < nodes.Length ==> nodes[j] == all[j]
      {
        assert NodeOk(keccak, row, all, i);
        nodes[i] := HashPair(keccak, nodes[2 * i + 1], nodes[2 * i + 2]);
        i := i - 1;
      }
    }

    /** Where the leaf of the c-th arrival stands among the sorted leaves. */
    lemma Rank(leaves: seq<Hashed>, c: nat) returns (i: nat)
      requires c < |encoded| && leaves == Sorted(keccak, encoded)
      ensures i < |leaves| && leaves[i] == Hashed(LeafHashOf(keccak, encoded[c]), c)
    {
      Sorting.SortKeepsElements(Arrived(keccak, encoded), Number);
      assert Arrived(keccak, encoded)[c] in leaves;
      i :| 0 <= i < |leaves| && leaves[i] == Arrived(keccak, encoded)[c];
    }

    /** Every claim's leaf has a place of its own among the leaves. */
    lemma LeavesAtArrivals(leaves: seq<Hashed>)
      requires encoded != [] && leaves == Sorted(keccak, encoded)
      requires nodes.Length == 2 * |leaves| - 1 && leafAt.Length == |leaves|
      requires forall i :: 0 <= i < |leaves| ==> leaves[i].claimIndex < |leaves|
      requires forall i :: 0 <= i < |leaves| ==>
        nodes[2 * |leaves| - 2 - i] == leaves[i].hash && leafAt[leaves[i].claimIndex] == 2 * |leaves| - 2 - i
      ensures forall c :: 0 <= c < |encoded| ==>
        |encoded| - 1 <= leafAt[c] < 2 * |encoded| - 1 && nodes[leafAt[c]] == LeafHashOf(keccak, encoded[c])
      ensures forall c, d :: 0 <= c < d < |encoded| ==> leafAt[c] != leafAt[d]
      ensures forall at :: |encoded| - 1 <= at < 2 * |encoded| - 1 ==> at in leafAt[..]
    {
      forall at | |encoded| - 1 <= at < 2 * |encoded| - 1 ensures at in leafAt[..] {
        var c := leaves[2 * |encoded| - 2 - at].claimIndex;
        assert leafAt[..][c] == at;
      }
      forall c | 0 <= c < |encoded|
        ensures |encoded| - 1 <= leafAt[c] < 2 * |encoded| - 1 && nodes[leafAt[c]] == LeafHashOf(keccak, encoded[c])
      {
        var i := Rank(leaves, c);
      }
      forall c, d | 0 <= c < d < |encoded| ensures leafAt[c] != leafAt[d] {
        var i := Rank(leaves, c);
        var j := Rank(leaves, d);
      }
    }

    function Len(): nat
      reads leafAt
    {
      leafAt.Length
    }

    function Root(): Hash
      requires Valid()
      reads nodes, leafAt
      ensures Root() == RootOf(keccak, encoded)
    {
      assert nodes[0] == nodes[..][0];
      nodes[0]
    }

    function Leaf(i: nat): Hash
      requires Valid() && i < Len()
      reads nodes, leafAt
      ensures Leaf(i) == LeafHashOf(keccak, encoded[i])
    {
      nodes[leafAt[i]]
    }

    function TreeIndex(i: nat): nat
      requires Valid() && i < Len()
      reads nodes, leafAt
    {
      leafAt[i]
    }

    /** The sibling chain from a claim to the Root: what Verify accepts for its leaf. */
    method Proof(i: nat) returns (proof: seq<Hash>)
      requires Valid() && i < Len()
      ensures Fold(keccak, Leaf(i), proof) == Root()
      ensures (Pow2(|proof|) <= Len() < 2 * Pow2(|proof|)) || (Pow2(|proof|) < 2 * Len() && Len() <= Pow2(|proof|))
    {
      ghost var row := LeafRow(keccak, encoded);
      proof := Siblings(leafAt[i], row);
      ProofVerifies(keccak, row, leafAt[i]);
      LeafProofLength(keccak, row, leafAt[i]);
      assert nodes[leafAt[i]] == nodes[..][leafAt[i]];
    }

    method Siblings(from: nat, ghost row: seq<Hash>) returns (proof: seq<Hash>)
      requires row != [] && nodes[..] == NodesOf(keccak, row) && from < nodes.Length
      ensures proof == ProofOf(keccak, row, from)
    {
      proof := [];
      var at: nat := from;
      while at > 0
        invariant at < nodes.Length
        invariant ProofOf(keccak, row, from) == proof + ProofOf(keccak, row, at)
      {
        SiblingInTree(at, |row|);
        assert nodes[SiblingIndex(at)] == nodes[..][SiblingIndex(at)];
        proof := proof + [nodes[SiblingIndex(at)]];
        at := (at - 1) / 2;
      }
    }
  }

  /** Sorting loses and repeats no arrival. */
  lemma SortedArrivals(keccak: Keccak, encoded: seq<seq<byte>>)
    ensures Sorting.DistinctBy(Sorted(keccak, encoded), Arrival)
    ensures forall i :: 0 <= i < |encoded| ==> Sorted(keccak, encoded)[i].claimIndex < |encoded|
  {
    var arrived := Arrived(keccak, encoded);
    Sorting.SortKeepsDistinct(arrived, Number, Arrival);
    Sorting.SortKeepsElements(arrived, Number);
    forall i | 0 <= i < |encoded| ensures Sorted(keccak, encoded)[i].claimIndex < |encoded| {
      assert Sorted(keccak, encoded)[i] in arrived;
    }
  }

  /** A hash as the number its bytes spell. */
  function Value(h: Hash): nat {
    FromBytes(h)
  }

  lemma FoldNone(keccak: Keccak, leaf: Hash)
    ensures Fold(keccak, leaf, []) == leaf
  {
  }

  lemma FoldFirst(keccak: Keccak, leaf: Hash, proof: seq<Hash>)
    requires proof != []
    ensures Fold(keccak, leaf, proof) == Fold(keccak, HashPair(keccak, leaf, proof[0]), proof[1..])
  {
  }

  /** What a proof of one hash takes a leaf to: the two hashed, the smaller first. */
  lemma FoldOne(keccak: Keccak, leaf: Hash, sibling: Hash)
    ensures Fold(keccak, leaf, [sibling]) ==
      keccak(if Value(leaf) <= Value(sibling) then leaf + sibling else sibling + leaf)
  {
    assert [sibling][1..] == [];
    if Value(leaf) <= Value(sibling) {
      SmallerFirst(keccak, leaf, sibling);
    } else {
      SmallerFirst(keccak, sibling, leaf);
    }
  }

  /** Folds a leaf with its proof, a sibling at a time, and looks for the Root at the end. */
  method Verify(keccak: Keccak, root: Hash, leaf: Hash, proof: seq<Hash>) returns (ok: bool)
    ensures ok <==> Fold(keccak, leaf, proof) == root
    ensures proof == [] ==> (ok <==> leaf == root)
    ensures |proof| == 1 ==>
      (ok <==> root == keccak(if Value(leaf) <= Value(proof[0]) then leaf + proof[0] else proof[0] + leaf))
  {
    hide Value, HashPair, Fold;
    FoldNone(keccak, leaf);
    if |proof| == 1 {
      assert proof == [proof[0]];
      FoldOne(keccak, leaf, proof[0]);
    }
    var computed := leaf;
    var j := 0;
    while j < |proof|
      invariant 0 <= j <= |proof|
      invariant Fold(keccak, leaf, proof) == Fold(keccak, computed, proof[j..])
    {
      assert proof[j..][1..] == proof[j + 1..];
      FoldFirst(keccak, computed, proof[j..]);
      computed := HashPair(keccak, computed, proof[j]);
      j := j + 1;
    }
    assert proof[j..] == [];
    FoldNone(keccak, computed);
    ok := computed == root;
  }

  ghost predicate IsFirstBad(claims: seq<Claim>, e: TreeError) {
    && e.BadClaim? && e.index < |claims| && AllEncodable(claims[..e.index])
    && ClaimError(claims[e.index]) == Some((e.word, e.error))
  }

  /** The tree over claims, or the first claim that cannot be encoded. */
  method New(keccak: Keccak, claims: seq<Claim>) returns (r: Result<Tree, TreeError>)
    ensures claims == [] ==> r == Failure(NoClaims)
    ensures claims != [] && AllEncodable(claims) ==> r.Success?
    ensures r.Success? ==>
      && claims != [] && AllEncodable(claims)
      && fresh(r.value) && fresh(r.value.nodes) && fresh(r.value.leafAt)
      && r.value.Valid() && r.value.keccak == keccak && r.value.encoded == EncodedAll(claims)
    ensures claims != [] && r.Failure? ==> IsFirstBad(claims, r.error)
  {
    if claims == [] {
      return Failure(NoClaims);
    }
    var encoded := EncodeEach(claims);
    if encoded.Failure? {
      return Failure(encoded.error);
    }
    var tree := new Tree(keccak, encoded.value);
    r := Success(tree);
  }

  lemma NoneEncoded()
    ensures AllEncodable([]) && EncodedAll([]) == []
  {
  }

  lemma EncodedMore(claims: seq<Claim>, i: nat)
    requires i < |claims| && AllEncodable(claims[..i]) && Encodable(claims[i])
    ensures AllEncodable(claims[..i + 1])
    ensures EncodedAll(claims[..i + 1]) == EncodedAll(claims[..i]) + [Encoded(claims[i])]
  {
    hide Encodable, Encoded;
    var more := claims[..i + 1];
    forall k | 0 <= k < |more| ensures Encodable(more[k]) {
      assert k < i ==> more[k] == claims[..i][k];
    }
  }

  lemma FirstBad(claims: seq<Claim>, i: nat)
    requires i < |claims| && AllEncodable(claims[..i]) && ClaimError(claims[i]).Some?
    ensures !AllEncodable(claims)
  {
    NoError(claims[i]);
  }

  method EncodeEach(claims: seq<Claim>) returns (r: Result<seq<seq<byte>>, TreeError>)
    ensures r.Success? <==> AllEncodable(claims)
    ensures r.Success? ==> r.value == EncodedAll(claims)
    ensures r.Failure? ==> IsFirstBad(claims, r.error)
  {
    hide EncodedAll, Encoded, ClaimError, AllEncodable, Encodable;
    var encoded: seq<seq<byte>> := [];
    var i := 0;
    NoneEncoded();
    while i < |claims|
      invariant 0 <= i <= |claims| && AllEncodable(claims[..i])
      invariant encoded == EncodedAll(claims[..i])
    {
      var e := Encode(claims[i]);
      NoError(claims[i]);
      if e.Failure? {
        FirstBad(claims, i);
        return Failure(BadClaim(i, e.error.0, e.error.1));
      }
      EncodedMore(claims, i);
      encoded := encoded + [e.value];
      i := i + 1;
    }
    assert claims[..i] == claims;
    r := Success(encoded);
  }

  /** Every claim of a tree is accepted with the proof the tree gives for it. */
  method ProveAndVerify(t: Tree, i: nat) returns (ok: bool)
    requires t.Valid() && i < t.Len()
    ensures ok
  {
    var proof := t.Proof(i);
    ok := Verify(t.keccak, t.Root(), t.Leaf(i), proof);
  }

  /** v says what claim c does. */
  ghost predicate ReadsAs(v: DumpValue, c: Claim)
    requires Encodable(c)
  {
    && v.id == c.id.value && v.account == c.account && |v.amounts| == AMOUNT_COUNT
    && forall j :: 0 <= j < AMOUNT_COUNT ==> v.amounts[j] == c.amounts[j].value
  }

  /** Reads every claim back out of its encoding, with the node index its leaf landed at. */
  method Dump(t: Tree, ghost claims: seq<Claim>) returns (nodes: seq<Hash>, values: seq<DumpValue>)
    requires t.Valid() && AllEncodable(claims) && t.encoded == EncodedAll(claims)
    ensures nodes == NodesOf(t.keccak, LeafRow(t.keccak, EncodedAll(claims)))
    ensures |values| == |claims|
    ensures forall i :: 0 <= i < |claims| ==> ReadsAs(values[i], claims[i])
    ensures forall i :: 0 <= i < |claims| ==>
      values[i].treeIndex < |nodes| && nodes[values[i].treeIndex] == LeafHashOf(t.keccak, Encoded(claims[i]))
  {
    nodes := t.nodes[..];
    values := DumpValues(t.encoded, t.leafAt[..], claims);
    forall k | 0 <= k < |claims| ensures nodes[t.leafAt[k]] == LeafHashOf(t.keccak, Encoded(claims[k])) {
      assert t.encoded[k] == Encoded(claims[k]);
    }
  }

  method DumpValues(encoded: seq<seq<byte>>, leafAt: seq<nat>, ghost claims: seq<Claim>)
    returns (values: seq<DumpValue>)
    requires AllEncodable(claims) && encoded == EncodedAll(claims) && |leafAt| == |claims|
    ensures |values| == |claims|
    ensures forall k :: 0 <= k < |claims| ==> ReadsAs(values[k], claims[k])
    ensures forall k :: 0 <= k < |claims| ==> values[k].treeIndex == leafAt[k]
  {
    values := [];
    var i := 0;
    while i < |encoded|
      invariant 0 <= i <= |encoded| && |values| == i
      invariant forall k :: 0 <= k < i ==> ReadsAs(values[k], claims[k])
      invariant forall k :: 0 <= k < i ==> values[k].treeIndex == leafAt[k]
    {
      var value := ReadBack(encoded[i], claims[i], leafAt[i]);
      values := values + [value];
      i := i + 1;
    }
  }

  method ReadBack(e: seq<byte>, ghost c: Claim, treeIndex: nat) returns (v: DumpValue)
    requires Encodable(c) && e == Encoded(c)
    ensures ReadsAs(v, c) && v.treeIndex == treeIndex
  {
    var amounts: seq<nat> := [];
    var j := 0;
    while j < AMOUNT_COUNT
      invariant 0 <= j <= AMOUNT_COUNT && |amounts| == j
      invariant forall k :: 0 <= k < j ==> amounts[k] == c.amounts[k].value
    {
      var at := (2 + j) * WORD_SIZE;
      WordsReadBack(c, 2 + j);
      amounts := amounts + [FromBytes(e[at..at + WORD_SIZE])];
      j := j + 1;
    }
    WordsReadBack(c, 0);
    var id := FromBytes(e[0..WORD_SIZE]);
    AccountBytes(e, c);
    var account := FromBytes(e[2 * WORD_SIZE - ADDRESS_SIZE..2 * WORD_SIZE]);
    v := DumpValue(id, account, amounts, treeIndex);
  }

  lemma AccountBytes(e: seq<byte>, c: Claim)
    requires Encodable(c) && e == Encoded(c)
    ensures FromBytes(e[2 * WORD_SIZE - ADDRESS_SIZE..2 * WORD_SIZE]) == c.account
  {
    AddressFits(c.account);
    LeadingZeros(c.account, ADDRESS_SIZE, WORD_SIZE);
    NumberRoundTrip(c.account, ADDRESS_SIZE);
    WordAt(Numbers(c), WORD_SIZE, 1);
    SecondWord(e, ToBytes(c.account, WORD_SIZE), ToBytes(c.account, ADDRESS_SIZE));
  }

  lemma SecondWord(e: seq<byte>, word: seq<byte>, account: seq<byte>)
    requires |e| == LEAF_SIZE && e[WORD_SIZE..2 * WORD_SIZE] == word && |account| == ADDRESS_SIZE
    requires word == seq(WORD_SIZE - ADDRESS_SIZE, _ => 0) + account
    ensures e[2 * WORD_SIZE - ADDRESS_SIZE..2 * WORD_SIZE] == account
  {
    assert e[2 * WORD_SIZE - ADDRESS_SIZE..2 * WORD_SIZE] == word[WORD_SIZE - ADDRESS_SIZE..];
  }
}
