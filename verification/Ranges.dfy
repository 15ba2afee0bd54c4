/** What a range of blocks holds: the part of a list whose blocks lie between two. */
module Ranges {
  import Sorting

  /** The elements of blocks lo..hi, in order. */
  function In<T>(s: seq<T>, block: T -> int, lo: int, hi: int): seq<T> {
    if s == [] then []
    else
      var last := s[|s| - 1];
      In(s[..|s| - 1], block, lo, hi) + (if lo <= block(last) <= hi then [last] else [])
  }

  lemma {:induction false} InElements<T>(s: seq<T>, block: T -> int, lo: int, hi: int)
    ensures forall x :: x in In(s, block, lo, hi) <==> x in s && lo <= block(x) <= hi
  {
    if s != [] {
      InElements(s[..|s| - 1], block, lo, hi);
      assert s == s[..|s| - 1] + [s[|s| - 1]];
    }
  }

  lemma {:induction false} InAll<T>(s: seq<T>, block: T -> int, lo: int, hi: int)
    requires forall i :: 0 <= i < |s| ==> lo <= block(s[i]) <= hi
    ensures In(s, block, lo, hi) == s
  {
    if s != [] {
      InAll(s[..|s| - 1], block, lo, hi);
    }
  }

  lemma {:induction false} InNone<T>(s: seq<T>, block: T -> int, lo: int, hi: int)
    requires forall i :: 0 <= i < |s| ==> block(s[i]) < lo || hi < block(s[i])
    ensures In(s, block, lo, hi) == []
  {
    if s != [] {
      InNone(s[..|s| - 1], block, lo, hi);
    }
  }

  /** Two adjoining ranges are one range. */
  lemma {:induction false} InSplit<T>(s: seq<T>, block: T -> int, lo: int, mid: int, hi: int)
    requires Sorting.SortedBy(s, block) && lo <= mid <= hi + 1
    ensures In(s, block, lo, hi) == In(s, block, lo, mid - 1) + In(s, block, mid, hi)
  {
    if s != [] {
      var init, last := s[..|s| - 1], s[|s| - 1];
      InSplit(init, block, lo, mid, hi);
      if block(last) < mid {
        InNone(init, block, mid, hi);
      }
    }
  }

  /** Where the i-th element of a range stands in the list. */
  lemma {:induction false} IndexIn<T>(s: seq<T>, block: T -> int, lo: int, hi: int, i: nat) returns (k: nat)
    requires i < |In(s, block, lo, hi)|
    ensures k < |s| && s[k] == In(s, block, lo, hi)[i]
  {
    var init := s[..|s| - 1];
    if i < |In(init, block, lo, hi)| {
      k := IndexIn(init, block, lo, hi, i);
    } else {
      k := |s| - 1;
    }
  }

  lemma {:induction false} InOrdered<T>(s: seq<T>, block: T -> int, key: T -> int, lo: int, hi: int)
    requires Sorting.StrictlySortedBy(s, key)
    ensures Sorting.StrictlySortedBy(In(s, block, lo, hi), key)
  {
    if s != [] {
      var init, last := s[..|s| - 1], s[|s| - 1];
      var kept := In(init, block, lo, hi);
      InOrdered(init, block, key, lo, hi);
      forall i | 0 <= i < |kept| ensures key(kept[i]) < key(last) {
        var k := IndexIn(init, block, lo, hi, i);
        assert s[k] == kept[i];
      }
    }
  }
}
