/** Sequences read as bags: what mapping a function over them keeps. */
module Bags {

  function Map<S, T>(f: S -> T, xs: seq<S>): (r: seq<T>)
    ensures |r| == |xs|
    ensures forall i :: 0 <= i < |r| ==> r[i] == f(xs[i])
  {
    if xs == [] then [] else Map(f, xs[..|xs| - 1]) + [f(xs[|xs| - 1])]
  }

  function Without<T>(xs: seq<T>, k: nat): (r: seq<T>)
    requires k < |xs|
    ensures |r| == |xs| - 1
  {
    xs[..k] + xs[k + 1..]
  }

  lemma WithoutBag<T>(xs: seq<T>, k: nat)
    requires k < |xs|
    ensures multiset(xs) == multiset(Without(xs, k)) + multiset{xs[k]}
  {
    assert xs == xs[..k] + [xs[k]] + xs[k + 1..];
  }

  lemma MapWithout<S, T>(f: S -> T, xs: seq<S>, k: nat)
    requires k < |xs|
    ensures Map(f, Without(xs, k)) == Without(Map(f, xs), k)
  {
    hide Map;
    var rest, image := Without(xs, k), Map(f, xs);
    forall i | 0 <= i < |rest| ensures Map(f, rest)[i] == Without(image, k)[i] {
      var j := if i < k then i else i + 1;
      assert rest[i] == xs[j] && Without(image, k)[i] == image[j];
    }
  }

  lemma {:induction false} IndexOf<T>(xs: seq<T>, x: T) returns (k: nat)
    requires x in multiset(xs)
    ensures k < |xs| && xs[k] == x
  {
    assert x in xs;
    k :| 0 <= k < |xs| && xs[k] == x;
  }

  lemma SameLength<T>(xs: seq<T>, ys: seq<T>)
    requires multiset(xs) == multiset(ys)
    ensures |xs| == |ys|
  {
    assert |xs| == |multiset(xs)| && |ys| == |multiset(ys)|;
  }

  /** Equal bags stay equal with one copy of the same element taken out of each. */
  lemma CancelOne<T>(xs: seq<T>, j: nat, ys: seq<T>, k: nat)
    requires j < |xs| && k < |ys| && xs[j] == ys[k] && multiset(xs) == multiset(ys)
    ensures multiset(Without(xs, j)) == multiset(Without(ys, k))
  {
    WithoutBag(xs, j);
    WithoutBag(ys, k);
    var a, b, x := multiset(Without(xs, j)), multiset(Without(ys, k)), multiset{xs[j]};
    assert a == (a + x) - x && b == (b + x) - x;
  }

  lemma AddOne<T>(xs: seq<T>, j: nat, ys: seq<T>, k: nat)
    requires j < |xs| && k < |ys| && xs[j] == ys[k]
    requires multiset(Without(xs, j)) == multiset(Without(ys, k))
    ensures multiset(xs) == multiset(ys)
  {
    WithoutBag(xs, j);
    WithoutBag(ys, k);
  }

  /** Mapping keeps equal bags equal. */
  lemma {:induction false} MapKeepsBag<S, T>(f: S -> T, xs: seq<S>, ys: seq<S>)
    requires multiset(xs) == multiset(ys)
    ensures multiset(Map(f, xs)) == multiset(Map(f, ys))
    decreases |xs|
  {
    SameLength(xs, ys);
    if xs != [] {
      assert xs[0] in multiset(xs);
      var k := IndexOf(ys, xs[0]);
      CancelOne(xs, 0, ys, k);
      MapKeepsBag(f, Without(xs, 0), Without(ys, k));
      MapWithout(f, xs, 0);
      MapWithout(f, ys, k);
      AddOne(Map(f, xs), 0, Map(f, ys), k);
    }
  }

  ghost predicate TellsApart<S, T>(f: S -> T, xs: seq<S>, ys: seq<S>) {
    forall x, y :: x in xs && y in ys && f(x) == f(y) ==> x == y
  }

  lemma TellsApartWithout<S, T>(f: S -> T, xs: seq<S>, j: nat, ys: seq<S>, k: nat)
    requires TellsApart(f, xs, ys) && j < |xs| && k < |ys|
    ensures TellsApart(f, Without(xs, j), Without(ys, k))
  {
    forall x, y | x in Without(xs, j) && y in Without(ys, k) && f(x) == f(y) ensures x == y {
      assert x in xs && y in ys;
    }
  }

  /** A function that tells the elements apart makes equal bags only of equal bags. */
  lemma {:induction false} InjectiveMapBag<S, T>(f: S -> T, xs: seq<S>, ys: seq<S>)
    requires multiset(Map(f, xs)) == multiset(Map(f, ys))
    requires TellsApart(f, xs, ys)
    ensures multiset(xs) == multiset(ys)
    decreases |xs|
  {
    SameLength(Map(f, xs), Map(f, ys));
    if xs != [] {
      assert Map(f, xs)[0] in multiset(Map(f, xs));
      var k := IndexOf(Map(f, ys), Map(f, xs)[0]);
      assert xs[0] in xs && ys[k] in ys;
      CancelOne(Map(f, xs), 0, Map(f, ys), k);
      MapWithout(f, xs, 0);
      MapWithout(f, ys, k);
      TellsApartWithout(f, xs, 0, ys, k);
      InjectiveMapBag(f, Without(xs, 0), Without(ys, k));
      AddOne(xs, 0, ys, k);
    }
  }
}
