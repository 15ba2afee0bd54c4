/** What a Root binds. keccak-256 is any function at all here, so each result says "or a collision
    among the strings these trees and proofs hash", never that there is none. */
module Binding {
  import opened Bytes
  import opened Merkle
  import opened Tree
  import Bags
  import Sorting

  /** Two different strings of s that hash alike. */
  ghost predicate Collides(keccak: Keccak, s: set<seq<byte>>) {
    exists x, y :: x in s && y in s && x != y && keccak(x) == keccak(y)
  }

  /** The strings hashed for leaves: each encoding, and its inner digest. */
  function LeafInputs(keccak: Keccak, encoded: seq<seq<byte>>): set<seq<byte>> {
    (set i | 0 <= i < |encoded| :: encoded[i]) + (set i | 0 <= i < |encoded| :: keccak(encoded[i]))
  }

  /** The string hashed for node i, which is not a leaf. */
  function PairAt(all: seq<Hash>, i: nat): (r: seq<byte>)
    requires 2 * i + 2 < |all|
    ensures |r| == 2 * WORD_SIZE
  {
    PairBytes(all[2 * i + 1], all[2 * i + 2])
  }

  /** The strings hashed for the nodes above the leaves. */
  function PairInputs(all: seq<Hash>): set<seq<byte>> {
    set i | 0 <= i < |all| && 2 * i + 2 < |all| :: PairAt(all, i)
  }

  /** The nodes of the tree over encoded; none when there is nothing to build one from. */
  function AllNodes(keccak: Keccak, encoded: seq<seq<byte>>): seq<Hash> {
    if encoded == [] then [] else NodesOf(keccak, LeafRow(keccak, encoded))
  }

  function TreeInputs(keccak: Keccak, encoded: seq<seq<byte>>): set<seq<byte>> {
    LeafInputs(keccak, encoded) + PairInputs(AllNodes(keccak, encoded))
  }

  /** The strings hashed when a proof is replayed. */
  function PathInputs(keccak: Keccak, leaf: Hash, proof: seq<Hash>): set<seq<byte>>
    decreases |proof|
  {
    if proof == [] then {}
    else {PairBytes(leaf, proof[0])} + PathInputs(keccak, HashPair(keccak, leaf, proof[0]), proof[1..])
  }

  /** Every leaf of the row is the double hash of one of the encodings. */
  lemma RowLeaf(keccak: Keccak, encoded: seq<seq<byte>>, i: nat) returns (e: seq<byte>)
    requires i < |encoded|
    ensures e in encoded && LeafRow(keccak, encoded)[i] == LeafHashOf(keccak, e)
  {
    var p := Sorted(keccak, encoded)[i];
    Sorting.SortKeepsElements(Arrived(keccak, encoded), Number);
    assert p in Arrived(keccak, encoded);
    var c :| 0 <= c < |encoded| && Arrived(keccak, encoded)[c] == p;
    e := encoded[c];
  }

  // ------------------------------------------------------------------ the leaves below a node

  function LeavesUnder(row: seq<Hash>, i: nat): multiset<Hash>
    requires i < 2 * |row| - 1
    decreases 2 * |row| - i
  {
    if i >= |row| - 1 then multiset{row[2 * |row| - 2 - i]}
    else LeavesUnder(row, 2 * i + 1) + LeavesUnder(row, 2 * i + 2)
  }

  function LeavesOf(row: seq<Hash>, lo: nat, hi: nat): multiset<Hash>
    requires hi <= 2 * |row| - 1
  {
    if hi <= lo then multiset{} else LeavesOf(row, lo, hi - 1) + LeavesUnder(row, hi - 1)
  }

  lemma {:induction false} LeavesFromLeft(row: seq<Hash>, lo: nat, hi: nat)
    requires lo < hi <= 2 * |row| - 1
    ensures LeavesOf(row, lo, hi) == LeavesUnder(row, lo) + LeavesOf(row, lo + 1, hi)
    decreases hi
  {
    hide LeavesUnder;
    if lo + 1 < hi {
      LeavesFromLeft(row, lo, hi - 1);
      assert LeavesOf(row, lo, hi) == LeavesOf(row, lo, hi - 1) + LeavesUnder(row, hi - 1);
    } else {
      assert LeavesOf(row, lo, lo) == LeavesOf(row, lo + 1, hi) == multiset{};
    }
  }

  /** The nodes m..2m are a cut of the tree. */
  function Cut(row: seq<Hash>, m: nat): multiset<Hash> {
    if m < |row| then LeavesOf(row, m, 2 * m + 1) else multiset{}
  }

  lemma {:induction false} NeverChanges<T>(f: nat -> T, n: nat)
    requires forall m: nat :: m < n ==> f(m) == f(m + 1)
    ensures f(0) == f(n)
  {
    if n > 0 {
      NeverChanges(f, n - 1);
      assert f(n - 1) == f(n - 1 + 1);
    }
  }

  /** Every cut has every leaf below it. */
  lemma CutHasAllLeaves(row: seq<Hash>)
    requires row != []
    ensures Cut(row, 0) == Cut(row, |row| - 1)
  {
    forall m: nat | m < |row| - 1 ensures Cut(row, m) == Cut(row, m + 1) {
      CutStep(row, m);
    }
    NeverChanges(m => Cut(row, m), |row| - 1);
  }

  lemma CutStep(row: seq<Hash>, m: nat)
    requires m < |row| - 1
    ensures LeavesOf(row, m, 2 * m + 1) == LeavesOf(row, m + 1, 2 * m + 3)
  {
    LeavesFromLeft(row, m, 2 * m + 1);
    var rest := LeavesOf(row, m + 1, 2 * m + 1);
    assert LeavesOf(row, m + 1, 2 * m + 2) == rest + LeavesUnder(row, 2 * m + 1);
    assert LeavesOf(row, m + 1, 2 * m + 3) == rest + LeavesUnder(row, 2 * m + 1) + LeavesUnder(row, 2 * m + 2);
  }

  lemma BagOfCons(row: seq<Hash>, j: nat)
    requires j < |row|
    ensures multiset(row[j..]) == multiset(row[j + 1..]) + multiset{row[j]}
  {
    assert row[j..] == [row[j]] + row[j + 1..];
  }

  lemma OneLeaf(row: seq<Hash>, i: nat)
    requires |row| - 1 <= i < 2 * |row| - 1
    ensures LeavesUnder(row, i) == multiset{row[2 * |row| - 2 - i]}
  {
  }

  lemma {:induction false} TailIsRow(row: seq<Hash>, k: nat)
    requires row != [] && k <= |row|
    ensures LeavesOf(row, |row| - 1, |row| - 1 + k) == multiset(row[|row| - k..])
  {
    hide LeavesUnder;
    if k == 0 {
      assert row[|row|..] == [];
    } else {
      TailIsRow(row, k - 1);
      BagOfCons(row, |row| - k);
      OneLeaf(row, |row| - 2 + k);
    }
  }

  lemma RootHasAllLeaves(row: seq<Hash>)
    requires row != []
    ensures LeavesUnder(row, 0) == multiset(row)
  {
    CutHasAllLeaves(row);
    TailIsRow(row, |row|);
    assert row[0..] == row;
    LeavesFromLeft(row, 0, 1);
  }

  // ------------------------------------------------------------------ one hash, one set of leaves

  /** h is the hash of a 32-byte digest in s, as a leaf is. */
  ghost predicate HasDigest(keccak: Keccak, h: Hash, s: set<seq<byte>>) {
    exists d: seq<byte> :: d in s && |d| == WORD_SIZE && keccak(d) == h
  }

  /** all are the nodes of the tree over row, and s has every string hashed for them. */
  ghost predicate Covers(keccak: Keccak, row: seq<Hash>, all: seq<Hash>, s: set<seq<byte>>) {
    && WellHashed(keccak, row, all)
    && (forall i :: 0 <= i < |row| ==> HasDigest(keccak, row[i], s))
    && (forall i :: 0 <= i < |row| - 1 ==> PairAt(all, i) in s)
  }

  lemma LeafInput(keccak: Keccak, enc: seq<seq<byte>>, e: seq<byte>)
    requires e in enc
    ensures e in LeafInputs(keccak, enc) && keccak(e) in LeafInputs(keccak, enc)
  {
    var i :| 0 <= i < |enc| && enc[i] == e;
    assert enc[i] in LeafInputs(keccak, enc);
  }

  lemma InputsCover(keccak: Keccak, enc: seq<seq<byte>>, s: set<seq<byte>>)
    requires enc != [] && TreeInputs(keccak, enc) <= s
    ensures Covers(keccak, LeafRow(keccak, enc), AllNodes(keccak, enc), s)
  {
    var row, all := LeafRow(keccak, enc), AllNodes(keccak, enc);
    NodesWellHashed(keccak, row);
    forall i | 0 <= i < |row| ensures HasDigest(keccak, row[i], s) {
      var e := RowLeaf(keccak, enc, i);
      LeafInput(keccak, enc, e);
      var d: seq<byte> := keccak(e);
      assert d in s;
    }
    forall i | 0 <= i < |row| - 1 ensures PairAt(all, i) in s {
      assert PairAt(all, i) in PairInputs(all);
    }
  }

  /** A leaf's hash is of a 32-byte string, and a pair's of a 64-byte one. */
  lemma LeafIsNotPair(keccak: Keccak, h: Hash, pair: seq<byte>, s: set<seq<byte>>)
    requires HasDigest(keccak, h, s) && pair in s && |pair| == 2 * WORD_SIZE && h == keccak(pair)
    ensures Collides(keccak, s)
  {
  }

  lemma LeafMeetsPair(keccak: Keccak, row: seq<Hash>, all: seq<Hash>, i: nat, pair: seq<byte>, s: set<seq<byte>>)
    requires Covers(keccak, row, all, s) && |row| - 1 <= i < |all|
    requires pair in s && |pair| == 2 * WORD_SIZE && all[i] == keccak(pair)
    ensures Collides(keccak, s)
  {
    assert NodeOk(keccak, row, all, i);
    LeafIsNotPair(keccak, row[2 * |row| - 2 - i], pair, s);
  }

  lemma PairsMeet(keccak: Keccak, a: Hash, b: Hash, c: Hash, d: Hash, s: set<seq<byte>>)
    requires PairBytes(a, b) in s && PairBytes(c, d) in s && HashPair(keccak, a, b) == HashPair(keccak, c, d)
    ensures Collides(keccak, s) || (a == c && b == d) || (a == d && b == c)
  {
    if PairBytes(a, b) == PairBytes(c, d) {
      PairInjective(a, b, c, d);
    }
  }

  /** Two nodes above leaves with one hash have the same two children, crossed or not. */
  lemma ChildrenMeet(keccak: Keccak, row: seq<Hash>, all: seq<Hash>, i: nat,
                     sow: seq<Hash>, bll: seq<Hash>, j: nat, s: set<seq<byte>>)
    requires Covers(keccak, row, all, s) && Covers(keccak, sow, bll, s)
    requires i < |row| - 1 && j < |sow| - 1 && all[i] == bll[j]
    ensures Collides(keccak, s)
         || (all[2 * i + 1] == bll[2 * j + 1] && all[2 * i + 2] == bll[2 * j + 2])
         || (all[2 * i + 1] == bll[2 * j + 2] && all[2 * i + 2] == bll[2 * j + 1])
  {
    assert NodeOk(keccak, row, all, i) && NodeOk(keccak, sow, bll, j);
    assert PairAt(all, i) in s && PairAt(bll, j) in s;
    PairsMeet(keccak, all[2 * i + 1], all[2 * i + 2], bll[2 * j + 1], bll[2 * j + 2], s);
  }

  lemma PairAtHashes(keccak: Keccak, row: seq<Hash>, all: seq<Hash>, i: nat, s: set<seq<byte>>)
    requires Covers(keccak, row, all, s) && i < |row| - 1
    ensures PairAt(all, i) in s && all[i] == keccak(PairAt(all, i))
  {
    assert NodeOk(keccak, row, all, i);
  }

  /** below[i] is the bag of leaves below node i. */
  predicate BelowOk(row: seq<Hash>, below: seq<multiset<Hash>>, i: nat)
    requires |below| == 2 * |row| - 1 && i < |below|
  {
    if i >= |row| - 1 then below[i] == multiset{row[2 * |row| - 2 - i]}
    else below[i] == below[2 * i + 1] + below[2 * i + 2]
  }

  ghost predicate Counted(row: seq<Hash>, below: seq<multiset<Hash>>) {
    && |below| == 2 * |row| - 1
    && forall i :: 0 <= i < |below| ==> BelowOk(row, below, i)
  }

  function Below(row: seq<Hash>): (r: seq<multiset<Hash>>)
    requires row != []
    ensures |r| == 2 * |row| - 1 && forall i :: 0 <= i < |r| ==> r[i] == LeavesUnder(row, i)
  {
    seq(2 * |row| - 1, i requires 0 <= i < 2 * |row| - 1 => LeavesUnder(row, i))
  }

  lemma BelowCounted(row: seq<Hash>)
    requires row != []
    ensures Counted(row, Below(row))
  {
  }

  /** Nodes of two trees with one hash have the same leaves below them, or a collision. */
  lemma {:induction false} SameHashSameLeaves(
    keccak: Keccak, row: seq<Hash>, all: seq<Hash>, below: seq<multiset<Hash>>, i: nat,
    sow: seq<Hash>, bll: seq<Hash>, under: seq<multiset<Hash>>, j: nat, s: set<seq<byte>>)
    requires Covers(keccak, row, all, s) && Covers(keccak, sow, bll, s)
    requires Counted(row, below) && Counted(sow, under)
    requires i < |all| && j < |bll| && all[i] == bll[j]
    ensures Collides(keccak, s) || below[i] == under[j]
    decreases 2 * |row| - i
  {
    assert BelowOk(row, below, i) && BelowOk(sow, under, j);
    if i >= |row| - 1 && j >= |sow| - 1 {
      assert NodeOk(keccak, row, all, i) && NodeOk(keccak, sow, bll, j);
    } else if i >= |row| - 1 {
      PairAtHashes(keccak, sow, bll, j, s);
      LeafMeetsPair(keccak, row, all, i, PairAt(bll, j), s);
    } else if j >= |sow| - 1 {
      PairAtHashes(keccak, row, all, i, s);
      LeafMeetsPair(keccak, sow, bll, j, PairAt(all, i), s);
    } else if !Collides(keccak, s) {
      ChildrenMeet(keccak, row, all, i, sow, bll, j, s);
      if all[2 * i + 1] == bll[2 * j + 1] && all[2 * i + 2] == bll[2 * j + 2] {
        SameHashSameLeaves(keccak, row, all, below, 2 * i + 1, sow, bll, under, 2 * j + 1, s);
        SameHashSameLeaves(keccak, row, all, below, 2 * i + 2, sow, bll, under, 2 * j + 2, s);
      } else {
        SameHashSameLeaves(keccak, row, all, below, 2 * i + 1, sow, bll, under, 2 * j + 2, s);
        SameHashSameLeaves(keccak, row, all, below, 2 * i + 2, sow, bll, under, 2 * j + 1, s);
      }
    }
  }

  /** The row of leaves is the bag of the encodings' double hashes. */
  lemma RowBag(keccak: Keccak, enc: seq<seq<byte>>)
    ensures multiset(LeafRow(keccak, enc)) == multiset(Bags.Map(e => LeafHashOf(keccak, e), enc))
  {
    var arrived := Arrived(keccak, enc);
    Sorting.SortPermutes(arrived, Number);
    Bags.MapKeepsBag((p: Hashed) => p.hash, Sorted(keccak, enc), arrived);
    assert LeafRow(keccak, enc) == Bags.Map((p: Hashed) => p.hash, Sorted(keccak, enc));
    assert Bags.Map((p: Hashed) => p.hash, arrived) == Bags.Map(e => LeafHashOf(keccak, e), enc);
  }

  /** Two lists of claims of any two lengths with one Root are the same bag of claims, or a collision
      is among the strings hashed. */
  lemma SameRootSameClaims(keccak: Keccak, claims: seq<Claim>, others: seq<Claim>)
    requires claims != [] && others != [] && AllEncodable(claims) && AllEncodable(others)
    requires RootOf(keccak, EncodedAll(claims)) == RootOf(keccak, EncodedAll(others))
    ensures multiset(claims) == multiset(others)
         || Collides(keccak, TreeInputs(keccak, EncodedAll(claims)) + TreeInputs(keccak, EncodedAll(others)))
  {
    var enc, den := EncodedAll(claims), EncodedAll(others);
    var s := TreeInputs(keccak, enc) + TreeInputs(keccak, den);
    InputsCover(keccak, enc, s);
    InputsCover(keccak, den, s);
    BelowCounted(LeafRow(keccak, enc));
    BelowCounted(LeafRow(keccak, den));
    SameHashSameLeaves(keccak, LeafRow(keccak, enc), AllNodes(keccak, enc), Below(LeafRow(keccak, enc)), 0,
                       LeafRow(keccak, den), AllNodes(keccak, den), Below(LeafRow(keccak, den)), 0, s);
    if !Collides(keccak, s) {
      RootHasAllLeaves(LeafRow(keccak, enc));
      RootHasAllLeaves(LeafRow(keccak, den));
      RowBag(keccak, enc);
      RowBag(keccak, den);
      LeafHashInjective(keccak, enc, den);
      Bags.InjectiveMapBag(e => LeafHashOf(keccak, e), enc, den);
      EncodedBag(claims, others);
    }
  }

  lemma LeafHashInjective(keccak: Keccak, enc: seq<seq<byte>>, den: seq<seq<byte>>)
    requires !Collides(keccak, TreeInputs(keccak, enc) + TreeInputs(keccak, den))
    ensures Bags.TellsApart(e => LeafHashOf(keccak, e), enc, den)
  {
    forall x, y | x in enc && y in den && LeafHashOf(keccak, x) == LeafHashOf(keccak, y) ensures x == y {
      LeafInput(keccak, enc, x);
      LeafInput(keccak, den, y);
      assert keccak(x) == keccak(y);
    }
  }

  lemma EncodedBag(claims: seq<Claim>, others: seq<Claim>)
    requires AllEncodable(claims) && AllEncodable(others)
    requires multiset(EncodedAll(claims)) == multiset(EncodedAll(others))
    ensures multiset(claims) == multiset(others)
  {
    var f := (c: Claim) => if Encodable(c) then Encoded(c) else [];
    assert Bags.Map(f, claims) == EncodedAll(claims);
    assert Bags.Map(f, others) == EncodedAll(others);
    forall c, d | c in claims && d in others && f(c) == f(d) ensures c == d {
      EncodingInjective(c, d);
    }
    Bags.InjectiveMapBag(f, claims, others);
  }

  /** The order claims arrive in never shows in the Root. */
  lemma PermutedClaimsSameRoot(keccak: Keccak, claims: seq<Claim>, others: seq<Claim>)
    requires claims != [] && AllEncodable(claims) && multiset(claims) == multiset(others)
    ensures others != [] && AllEncodable(others)
    ensures RootOf(keccak, EncodedAll(claims)) == RootOf(keccak, EncodedAll(others))
  {
    Bags.SameLength(claims, others);
    Sorting.SameElements(claims, others);
    forall i | 0 <= i < |others| ensures Encodable(others[i]) {
      assert others[i] in claims;
    }
    var f := (c: Claim) => if Encodable(c) then Encoded(c) else [];
    var enc, den := EncodedAll(claims), EncodedAll(others);
    assert Bags.Map(f, claims) == enc && Bags.Map(f, others) == den;
    Bags.MapKeepsBag(f, claims, others);
    SameBagSameRow(keccak, enc, den);
  }

  lemma SameBagSameRow(keccak: Keccak, enc: seq<seq<byte>>, den: seq<seq<byte>>)
    requires multiset(enc) == multiset(den)
    ensures LeafRow(keccak, enc) == LeafRow(keccak, den)
  {
    RowBag(keccak, enc);
    RowBag(keccak, den);
    Bags.MapKeepsBag(e => LeafHashOf(keccak, e), enc, den);
    var key := (h: Hash) => FromBytes(h);
    RowSorted(keccak, enc);
    RowSorted(keccak, den);
    forall x: Hash, y: Hash | FromBytes(x) == FromBytes(y) ensures x == y {
      NumberInjective(x, y);
    }
    Sorting.SortedIsUnique(LeafRow(keccak, enc), LeafRow(keccak, den), key);
  }

  lemma RowSorted(keccak: Keccak, enc: seq<seq<byte>>)
    ensures Sorting.SortedBy(LeafRow(keccak, enc), (h: Hash) => FromBytes(h))
  {
    var ps := Sorted(keccak, enc);
    forall i, j | 0 <= i < j < |ps| ensures FromBytes(ps[i].hash) <= FromBytes(ps[j].hash) {
      assert Number(ps[i]) <= Number(ps[j]);
    }
  }

  // ------------------------------------------------------------------ only leaves verify

  /** Below a node with the hash of the pair (h, other), h is a node of the tree, or a collision. */
  lemma ChildIsNode(keccak: Keccak, row: seq<Hash>, all: seq<Hash>, j: nat, h: Hash, other: Hash, s: set<seq<byte>>)
    returns (i: nat)
    requires Covers(keccak, row, all, s) && j < |all| && PairBytes(h, other) in s
    requires all[j] == HashPair(keccak, h, other)
    ensures Collides(keccak, s) || (i < |all| && h == all[i])
  {
    i := 0;
    if j >= |row| - 1 {
      LeafMeetsPair(keccak, row, all, j, PairBytes(h, other), s);
    } else {
      PairAtHashes(keccak, row, all, j, s);
      PairsMeet(keccak, h, other, all[2 * j + 1], all[2 * j + 2], s);
      i := if h == all[2 * j + 1] then 2 * j + 1 else 2 * j + 2;
    }
  }

  /** Whatever a proof takes to the Root is a node of the tree, or a collision. */
  lemma {:induction false} VerifiedIsNode(
    keccak: Keccak, row: seq<Hash>, all: seq<Hash>, h: Hash, proof: seq<Hash>, s: set<seq<byte>>) returns (i: nat)
    requires all != [] && Covers(keccak, row, all, s) && PathInputs(keccak, h, proof) <= s
    requires Fold(keccak, h, proof) == all[0]
    ensures Collides(keccak, s) || (i < |all| && h == all[i])
    decreases |proof|
  {
    i := 0;
    if proof != [] {
      assert PairBytes(h, proof[0]) in PathInputs(keccak, h, proof);
      var j := VerifiedIsNode(keccak, row, all, HashPair(keccak, h, proof[0]), proof[1..], s);
      if !Collides(keccak, s) {
        i := ChildIsNode(keccak, row, all, j, h, proof[0], s);
      }
    }
  }

  /** Two strings with one leaf hash are the same, or a collision. */
  lemma SameLeafHash(keccak: Keccak, d: seq<byte>, e: seq<byte>, s: set<seq<byte>>)
    requires d in s && e in s && LeafHashOf(keccak, d) == LeafHashOf(keccak, e)
    requires (var x: seq<byte> := keccak(d); x) in s && (var y: seq<byte> := keccak(e); y) in s
    ensures Collides(keccak, s) || d == e
  {
  }

  /** The encoding whose leaf is the i-th node. */
  lemma LeafAt(keccak: Keccak, enc: seq<seq<byte>>, i: nat, s: set<seq<byte>>) returns (d: seq<byte>)
    requires enc != [] && TreeInputs(keccak, enc) <= s && |enc| - 1 <= i < 2 * |enc| - 1
    ensures d in enc && AllNodes(keccak, enc)[i] == LeafHashOf(keccak, d)
    ensures d in s && (var x: seq<byte> := keccak(d); x) in s
  {
    NodesWellHashed(keccak, LeafRow(keccak, enc));
    assert NodeOk(keccak, LeafRow(keccak, enc), AllNodes(keccak, enc), i);
    d := RowLeaf(keccak, enc, 2 * |enc| - 2 - i);
    LeafInput(keccak, enc, d);
    hide LeafHashOf, AllNodes;
  }

  /** A node that hashes like the leaf of e is the leaf of one of the tree's encodings, e itself. */
  lemma LeafNodeIsEncoded(keccak: Keccak, enc: seq<seq<byte>>, e: seq<byte>, i: nat, s: set<seq<byte>>)
    requires enc != [] && TreeInputs(keccak, enc) <= s && LeafInputs(keccak, [e]) <= s
    requires i < 2 * |enc| - 1 && AllNodes(keccak, enc)[i] == LeafHashOf(keccak, e)
    ensures Collides(keccak, s) || e in enc
  {
    var row, all := LeafRow(keccak, enc), AllNodes(keccak, enc);
    InputsCover(keccak, enc, s);
    LeafInput(keccak, [e], e);
    var inner: seq<byte> := keccak(e);
    assert inner in s;
    if i < |enc| - 1 {
      PairAtHashes(keccak, row, all, i, s);
      LeafIsNotPair(keccak, LeafHashOf(keccak, e), PairAt(all, i), s);
    } else {
      var d := LeafAt(keccak, enc, i, s);
      SameLeafHash(keccak, d, e, s);
    }
  }

  /** A claim any proof at all takes to the Root is one of the tree's claims, or a collision is among
      the strings the tree, the proof and the claim hash. */
  lemma VerifiedIsClaim(keccak: Keccak, claims: seq<Claim>, c: Claim, proof: seq<Hash>)
    requires claims != [] && AllEncodable(claims) && Encodable(c)
    requires Fold(keccak, LeafHashOf(keccak, Encoded(c)), proof) == RootOf(keccak, EncodedAll(claims))
    ensures c in claims
         || Collides(keccak, TreeInputs(keccak, EncodedAll(claims)) + LeafInputs(keccak, [Encoded(c)])
                           + PathInputs(keccak, LeafHashOf(keccak, Encoded(c)), proof))
  {
    var enc, e := EncodedAll(claims), Encoded(c);
    var leaf := LeafHashOf(keccak, e);
    var s := TreeInputs(keccak, enc) + LeafInputs(keccak, [e]) + PathInputs(keccak, leaf, proof);
    InputsCover(keccak, enc, s);
    var i := VerifiedIsNode(keccak, LeafRow(keccak, enc), AllNodes(keccak, enc), leaf, proof, s);
    if !Collides(keccak, s) {
      LeafNodeIsEncoded(keccak, enc, e, i, s);
      EncodedIsClaim(claims, c);
    }
  }

  lemma EncodedIsClaim(claims: seq<Claim>, c: Claim)
    requires AllEncodable(claims) && Encodable(c) && Encoded(c) in EncodedAll(claims)
    ensures c in claims
  {
    var k :| 0 <= k < |claims| && EncodedAll(claims)[k] == Encoded(c);
    EncodingInjective(c, claims[k]);
  }
}
