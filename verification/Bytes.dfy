/** Big-endian numbers and the order of byte strings. */
module Bytes {

  type byte = b: int | 0 <= b < 256

  /** How many numbers n bytes can spell. */
  function Span(n: nat): nat
    ensures Span(n) > 0
  {
    if n == 0 then 1 else 256 * Span(n - 1)
  }

  function ToBytes(x: nat, n: nat): (r: seq<byte>)
    ensures |r| == n
  {
    if n == 0 then [] else ToBytes(x / 256, n - 1) + [x % 256]
  }

  function FromBytes(s: seq<byte>): nat {
    if s == [] then 0 else 256 * FromBytes(s[..|s| - 1]) + s[|s| - 1]
  }

  /** A number that fits comes back. */
  lemma {:induction false} NumberRoundTrip(x: nat, n: nat)
    requires x < Span(n)
    ensures FromBytes(ToBytes(x, n)) == x
  {
    if n > 0 {
      NumberRoundTrip(x / 256, n - 1);
      var s := ToBytes(x, n);
      assert s[..|s| - 1] == ToBytes(x / 256, n - 1);
    }
  }

  /** Bytes spell a number that fits, and come back. */
  lemma {:induction false} BytesRoundTrip(s: seq<byte>)
    ensures FromBytes(s) < Span(|s|)
    ensures ToBytes(FromBytes(s), |s|) == s
  {
    if s != [] {
      BytesRoundTrip(s[..|s| - 1]);
      assert s == s[..|s| - 1] + [s[|s| - 1]];
    }
  }

  /** The sign of bytes.Compare on strings of one length: what the first difference says. */
  function Compare(a: seq<byte>, b: seq<byte>): int
    requires |a| == |b|
  {
    if a == [] then 0
    else if a[0] < b[0] then -1
    else if a[0] > b[0] then 1
    else Compare(a[1..], b[1..])
  }

  lemma {:induction false} LeadingByte(s: seq<byte>)
    requires s != []
    ensures FromBytes(s) == s[0] * Span(|s| - 1) + FromBytes(s[1..])
  {
    if |s| == 1 {
      assert s[..0] == [] && s[1..] == [];
    } else {
      var init, last := s[..|s| - 1], s[|s| - 1];
      LeadingByte(init);
      assert init[1..] == s[1..][..|s| - 2];
      assert s[1..][|s| - 2] == last;
      var p := Span(|s| - 2);
      assert 256 * (s[0] * p) == s[0] * (256 * p);
    }
  }

  lemma {:induction false} CompareIsNumeric(a: seq<byte>, b: seq<byte>)
    requires |a| == |b|
    ensures Compare(a, b) < 0 <==> FromBytes(a) < FromBytes(b)
    ensures Compare(a, b) > 0 <==> FromBytes(a) > FromBytes(b)
  {
    if a != [] {
      LeadingByte(a);
      LeadingByte(b);
      BytesRoundTrip(a[1..]);
      BytesRoundTrip(b[1..]);
      CompareIsNumeric(a[1..], b[1..]);
      Dominates(a[0], b[0], Span(|a| - 1), FromBytes(a[1..]), FromBytes(b[1..]));
      Dominates(b[0], a[0], Span(|a| - 1), FromBytes(b[1..]), FromBytes(a[1..]));
    }
  }

  lemma {:induction false} Dominates(x: nat, y: nat, p: nat, u: nat, v: nat)
    requires u < p && v < p
    ensures x < y ==> x * p + u < y * p + v
    decreases y
  {
    if x < y {
      assert y * p == (y - 1) * p + p;
      Dominates(x, y - 1, p, u, v);
    }
  }

  lemma NumberInjective(a: seq<byte>, b: seq<byte>)
    requires |a| == |b| && FromBytes(a) == FromBytes(b)
    ensures a == b
  {
    BytesRoundTrip(a);
    BytesRoundTrip(b);
  }

  /** The words of xs, n bytes each, one after the other. */
  function Words(xs: seq<nat>, n: nat): (r: seq<byte>)
    ensures |r| == n * |xs|
  {
    if xs == [] then [] else Words(xs[..|xs| - 1], n) + ToBytes(xs[|xs| - 1], n)
  }

  lemma {:induction false} WordAt(xs: seq<nat>, n: nat, i: nat)
    requires i < |xs|
    ensures n * i + n <= |Words(xs, n)|
    ensures Words(xs, n)[n * i..n * i + n] == ToBytes(xs[i], n)
  {
    var init, last := xs[..|xs| - 1], xs[|xs| - 1];
    var w := Words(init, n);
    assert n * |xs| == n * |init| + n;
    if i < |init| {
      WordAt(init, n, i);
      assert n * i + n <= |w|;
      assert (w + ToBytes(last, n))[n * i..n * i + n] == w[n * i..n * i + n];
    } else {
      assert (w + ToBytes(last, n))[|w|..] == ToBytes(last, n);
    }
  }
}
