/** The stable sort the standard library provides, over an integer key, and what makes its
    result unique. */
module Sorting {
  import Bags

  ghost predicate SortedBy<T>(xs: seq<T>, key: T -> int) {
    forall i, j :: 0 <= i < j < |xs| ==> key(xs[i]) <= key(xs[j])
  }

  ghost predicate StrictlySortedBy<T>(xs: seq<T>, key: T -> int) {
    forall i, j :: 0 <= i < j < |xs| ==> key(xs[i]) < key(xs[j])
  }

  /** Where x goes: after every element whose key is no greater, which keeps the sort stable. */
  function Slot<T>(xs: seq<T>, x: T, key: T -> int): (p: nat)
    requires SortedBy(xs, key)
    ensures p <= |xs|
    ensures forall i :: 0 <= i < p ==> key(xs[i]) <= key(x)
    ensures forall i :: p <= i < |xs| ==> key(x) < key(xs[i])
  {
    if xs == [] || key(xs[|xs| - 1]) <= key(x) then |xs| else Slot(xs[..|xs| - 1], x, key)
  }

  function InsertBy<T>(xs: seq<T>, x: T, key: T -> int): (r: seq<T>)
    requires SortedBy(xs, key)
    ensures SortedBy(r, key)
    ensures |r| == |xs| + 1
  {
    var p := Slot(xs, x, key);
    xs[..p] + [x] + xs[p..]
  }

  function SortBy<T>(xs: seq<T>, key: T -> int): (r: seq<T>)
    ensures SortedBy(r, key)
    ensures |r| == |xs|
  {
    if xs == [] then [] else InsertBy(SortBy(xs[..|xs| - 1], key), xs[|xs| - 1], key)
  }

  lemma {:induction false} SortPermutes<T>(xs: seq<T>, key: T -> int)
    ensures multiset(SortBy(xs, key)) == multiset(xs)
  {
    if xs != [] {
      var init, last := xs[..|xs| - 1], xs[|xs| - 1];
      SortPermutes(init, key);
      InsertPermutes(SortBy(init, key), last, key);
      WithoutLast(xs);
    }
  }

  lemma InsertPermutes<T>(xs: seq<T>, x: T, key: T -> int)
    requires SortedBy(xs, key)
    ensures multiset(InsertBy(xs, x, key)) == multiset(xs) + multiset{x}
  {
    var p := Slot(xs, x, key);
    assert xs == xs[..p] + xs[p..];
    hide SortedBy;
    assert multiset(xs) == multiset(xs[..p]) + multiset(xs[p..]);
  }

  lemma SortKeepsElements<T>(xs: seq<T>, key: T -> int)
    ensures forall x :: x in SortBy(xs, key) <==> x in xs
  {
    SortPermutes(xs, key);
    SameElements(SortBy(xs, key), xs);
  }

  lemma SameElements<T>(xs: seq<T>, ys: seq<T>)
    requires multiset(xs) == multiset(ys)
    ensures forall x :: x in xs <==> x in ys
  {
    forall x ensures x in xs <==> x in ys {
      assert x in xs <==> x in multiset(xs);
      assert x in ys <==> x in multiset(ys);
    }
  }

  /** The elements whose key is k, in order. */
  ghost function WithKey<T>(xs: seq<T>, key: T -> int, k: int): seq<T> {
    if xs == [] then []
    else WithKey(xs[..|xs| - 1], key, k) + (if key(xs[|xs| - 1]) == k then [xs[|xs| - 1]] else [])
  }

  lemma {:induction false} WithKeyAppend<T>(xs: seq<T>, ys: seq<T>, key: T -> int, k: int)
    ensures WithKey(xs + ys, key, k) == WithKey(xs, key, k) + WithKey(ys, key, k)
  {
    if ys == [] {
      assert xs + ys == xs;
    } else {
      WithKeyAppend(xs, ys[..|ys| - 1], key, k);
      assert (xs + ys)[..|xs + ys| - 1] == xs + ys[..|ys| - 1];
    }
  }

  lemma {:induction false} WithKeyNone<T>(xs: seq<T>, key: T -> int, k: int)
    requires forall i :: 0 <= i < |xs| ==> key(xs[i]) != k
    ensures WithKey(xs, key, k) == []
  {
    if xs != [] {
      WithKeyNone(xs[..|xs| - 1], key, k);
    }
  }

  lemma WithKeyAround<T>(a: seq<T>, x: T, b: seq<T>, key: T -> int, k: int)
    requires forall i :: 0 <= i < |b| ==> key(x) < key(b[i])
    ensures WithKey(a + [x] + b, key, k) == WithKey(a + b, key, k) + WithKey([x], key, k)
  {
    WithKeyAppend(a + [x], b, key, k);
    WithKeyAppend(a, [x], key, k);
    WithKeyAppend(a, b, key, k);
    if key(x) == k {
      WithKeyNone(b, key, k);
    } else {
      WithKeyNone([x], key, k);
    }
    CommuteEmpty(WithKey(a, key, k), WithKey([x], key, k), WithKey(b, key, k));
  }

  lemma CommuteEmpty<T>(a: seq<T>, b: seq<T>, c: seq<T>)
    requires b == [] || c == []
    ensures a + b + c == a + c + b
  {
  }

  /** Elements that share a key keep the order they arrived in. */
  lemma {:induction false} SortIsStable<T>(xs: seq<T>, key: T -> int, k: int)
    ensures WithKey(SortBy(xs, key), key, k) == WithKey(xs, key, k)
  {
    if xs != [] {
      var init, last := xs[..|xs| - 1], xs[|xs| - 1];
      SortIsStable(init, key, k);
      var r := SortBy(init, key);
      var p := Slot(r, last, key);
      assert r == r[..p] + r[p..];
      WithKeyAround(r[..p], last, r[p..], key, k);
      WithKeyAppend(init, [last], key, k);
      assert xs == init + [last];
    }
  }

  ghost predicate InjectiveOn<T>(xs: seq<T>, key: T -> int) {
    forall x, y :: x in xs && y in xs && key(x) == key(y) ==> x == y
  }

  lemma SameBagWithoutLast<T>(xs: seq<T>, ys: seq<T>)
    requires xs != [] && ys != [] && multiset(xs) == multiset(ys) && xs[|xs| - 1] == ys[|ys| - 1]
    ensures multiset(xs[..|xs| - 1]) == multiset(ys[..|ys| - 1])
  {
    WithoutLast(xs);
    WithoutLast(ys);
    var a, b, x := multiset(xs[..|xs| - 1]), multiset(ys[..|ys| - 1]), multiset{xs[|xs| - 1]};
    assert a == (a + x) - x && b == (b + x) - x;
  }

  lemma WithoutLast<T>(xs: seq<T>)
    requires xs != []
    ensures multiset(xs) == multiset(xs[..|xs| - 1]) + multiset{xs[|xs| - 1]}
  {
    assert xs == xs[..|xs| - 1] + [xs[|xs| - 1]];
  }

  lemma SameGreatest<T>(xs: seq<T>, ys: seq<T>, key: T -> int)
    requires SortedBy(xs, key) && SortedBy(ys, key) && xs != [] && ys != []
    requires multiset(xs) == multiset(ys)
    ensures key(xs[|xs| - 1]) == key(ys[|ys| - 1]) && ys[|ys| - 1] in xs
  {
    SameElements(xs, ys);
    assert xs[|xs| - 1] in ys && ys[|ys| - 1] in xs;
  }

  lemma SameParts<T>(xs: seq<T>, ys: seq<T>)
    requires |xs| == |ys| > 0 && xs[..|xs| - 1] == ys[..|ys| - 1] && xs[|xs| - 1] == ys[|ys| - 1]
    ensures xs == ys
  {
    assert xs == xs[..|xs| - 1] + [xs[|xs| - 1]] && ys == ys[..|ys| - 1] + [ys[|ys| - 1]];
  }

  /** Two sorted arrangements of one bag are the same when equal keys mean equal elements. */
  lemma {:induction false} SortedIsUnique<T>(xs: seq<T>, ys: seq<T>, key: T -> int)
    requires SortedBy(xs, key) && SortedBy(ys, key)
    requires multiset(xs) == multiset(ys)
    requires InjectiveOn(xs, key)
    ensures xs == ys
    decreases |xs|
  {
    Bags.SameLength(xs, ys);
    if xs != [] {
      SameGreatest(xs, ys, key);
      SameBagWithoutLast(xs, ys);
      SortedIsUnique(xs[..|xs| - 1], ys[..|ys| - 1], key);
      hide SortedBy, InjectiveOn;
      SameParts(xs, ys);
    }
  }

  lemma {:induction false} StrictlySortedIsUnique<T>(xs: seq<T>, ys: seq<T>, key: T -> int)
    requires StrictlySortedBy(xs, key) && StrictlySortedBy(ys, key)
    requires forall x :: x in xs <==> x in ys
    ensures xs == ys
    decreases |xs|
  {
    assert xs != [] ==> xs[0] in ys;
    assert ys != [] ==> ys[0] in xs;
    if xs != [] {
      var x, y := xs[|xs| - 1], ys[|ys| - 1];
      assert x in ys && y in xs;
      assert x == y;
      BelowLast(xs, key);
      BelowLast(ys, key);
      StrictlySortedIsUnique(xs[..|xs| - 1], ys[..|ys| - 1], key);
    }
  }

  /** What comes before the last of a strictly sorted sequence is what is below it. */
  lemma BelowLast<T>(xs: seq<T>, key: T -> int)
    requires StrictlySortedBy(xs, key) && xs != []
    ensures forall x :: x in xs[..|xs| - 1] <==> x in xs && key(x) < key(xs[|xs| - 1])
  {
    assert xs == xs[..|xs| - 1] + [xs[|xs| - 1]];
  }

  ghost predicate DistinctBy<T>(xs: seq<T>, key: T -> int) {
    forall i, j :: 0 <= i < j < |xs| ==> key(xs[i]) != key(xs[j])
  }

  /** Elements told apart by id are still told apart once sorted. */
  lemma {:induction false} SortKeepsDistinct<T>(xs: seq<T>, key: T -> int, id: T -> int)
    requires DistinctBy(xs, id)
    ensures DistinctBy(SortBy(xs, key), id)
  {
    if xs != [] {
      var init, last := xs[..|xs| - 1], xs[|xs| - 1];
      var r := SortBy(init, key);
      SortKeepsDistinct(init, key, id);
      SortKeepsElements(init, key);
      var p := Slot(r, last, key);
      forall i | 0 <= i < |r| ensures id(r[i]) != id(last) {
        assert r[i] in init;
      }
      assert SortBy(xs, key) == r[..p] + [last] + r[p..];
    }
  }

  /** Sorting elements whose keys differ puts them in strict order. */
  lemma SortDistinct<T>(xs: seq<T>, key: T -> int)
    requires DistinctBy(xs, key)
    ensures StrictlySortedBy(SortBy(xs, key), key)
  {
    SortKeepsDistinct(xs, key, key);
  }
}
