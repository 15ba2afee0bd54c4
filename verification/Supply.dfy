/** Balances add up to what was minted less what was burned, and so the Holders' averages never add up
    to more than the average supply. */
module Supply {
  import opened History

  function MintedLessBurned(h: seq<Transfer>): int {
    if h == [] then 0 else MintedLessBurned(h[..|h| - 1]) + SupplyDelta(h[|h| - 1])
  }

  function SupplyDelta(tr: Transfer): int {
    (if tr.from == ZERO then Amount(tr) else 0) - (if tr.to == ZERO then Amount(tr) else 0)
  }

  /** The sum of the supply over the seconds of [lo, hi). */
  function SupplyIntegral(h: seq<Transfer>, lo: int, hi: int): int
    decreases hi - lo
  {
    if hi <= lo then 0 else SupplyIntegral(h, lo, hi - 1) + MintedLessBurned(Before(h, hi))
  }

  function SumBalances(h: seq<Transfer>, xs: seq<Address>): int {
    if xs == [] then 0 else SumBalances(h, xs[..|xs| - 1]) + Balance(h, xs[|xs| - 1])
  }

  function SumDelta(tr: Transfer, xs: seq<Address>): int {
    if xs == [] then 0 else SumDelta(tr, xs[..|xs| - 1]) + Delta(tr, xs[|xs| - 1])
  }

  function SumIntegrals(h: seq<Transfer>, xs: seq<Address>, lo: int, hi: int): int {
    if xs == [] then 0 else SumIntegrals(h, xs[..|xs| - 1], lo, hi) + Integral(h, xs[|xs| - 1], lo, hi)
  }

  function SumTwabs(hs: seq<Holder>): int {
    if hs == [] then 0 else SumTwabs(hs[..|hs| - 1]) + hs[|hs| - 1].twab
  }

  ghost predicate Distinct(xs: seq<Address>) {
    ZERO !in xs && forall i, j :: 0 <= i < j < |xs| ==> xs[i] != xs[j]
  }

  ghost predicate Covers(xs: seq<Address>, h: seq<Transfer>) {
    forall tr, a: Address :: tr in h && a != ZERO && (tr.from == a || tr.to == a) ==> a in xs
  }

  lemma {:induction false} EachCountedOnce(tr: Transfer, xs: seq<Address>)
    requires Distinct(xs)
    ensures SumDelta(tr, xs)
         == (if tr.to in xs then Amount(tr) else 0) - (if tr.from in xs then Amount(tr) else 0)
  {
    if xs != [] {
      var init, last := xs[..|xs| - 1], xs[|xs| - 1];
      assert xs == init + [last];
      assert last !in init;
      EachCountedOnce(tr, init);
    }
  }

  lemma {:induction false} SumBalancesAppend(h: seq<Transfer>, tr: Transfer, xs: seq<Address>)
    ensures SumBalances(h + [tr], xs) == SumBalances(h, xs) + SumDelta(tr, xs)
  {
    if xs != [] {
      SumBalancesAppend(h, tr, xs[..|xs| - 1]);
      assert (h + [tr])[..|h|] == h;
    }
  }

  lemma {:induction false} SumBalancesOfNothing(xs: seq<Address>)
    ensures SumBalances([], xs) == 0
  {
    if xs != [] {
      SumBalancesOfNothing(xs[..|xs| - 1]);
    }
  }

  /** Every unit minted and not burned is in somebody's balance, and nothing else is. */
  lemma {:induction false} SupplyConserved(h: seq<Transfer>, xs: seq<Address>)
    requires Distinct(xs) && Covers(xs, h)
    ensures SumBalances(h, xs) == MintedLessBurned(h)
  {
    if h == [] {
      SumBalancesOfNothing(xs);
    } else {
      var init, last := h[..|h| - 1], h[|h| - 1];
      assert h == init + [last];
      assert last in h;
      SupplyConserved(init, xs);
      SumBalancesAppend(init, last, xs);
      EachCountedOnce(last, xs);
    }
  }

  /** xs with every address h names that it lacks. */
  function Extended(xs: seq<Address>, h: seq<Transfer>): (ys: seq<Address>)
  {
    if h == [] then xs
    else
      var last := h[|h| - 1];
      WithAddress(WithAddress(Extended(xs, h[..|h| - 1]), last.from), last.to)
  }

  function WithAddress(xs: seq<Address>, a: Address): seq<Address> {
    if a == ZERO || a in xs then xs else xs + [a]
  }

  lemma WithAddressCovers(xs: seq<Address>, a: Address)
    requires Distinct(xs)
    ensures Distinct(WithAddress(xs, a)) && xs <= WithAddress(xs, a)
    ensures forall b :: b in xs || (b == a && b != ZERO) ==> b in WithAddress(xs, a)
  {
  }

  lemma CoversMore(xs: seq<Address>, ys: seq<Address>, h: seq<Transfer>, tr: Transfer)
    requires Covers(xs, h) && xs <= ys
    requires tr.from == ZERO || tr.from in ys
    requires tr.to == ZERO || tr.to in ys
    ensures Covers(ys, h + [tr])
  {
    forall t, a: Address | t in h + [tr] && a != ZERO && (t.from == a || t.to == a) ensures a in ys {
      assert t in h ==> a in xs;
    }
  }

  lemma {:induction false} ExtendedCovers(xs: seq<Address>, h: seq<Transfer>)
    requires Distinct(xs)
    ensures Distinct(Extended(xs, h)) && Covers(Extended(xs, h), h) && xs <= Extended(xs, h)
  {
    if h != [] {
      var init, last := h[..|h| - 1], h[|h| - 1];
      ExtendedCovers(xs, init);
      var ys := Extended(xs, init);
      WithAddressCovers(ys, last.from);
      WithAddressCovers(WithAddress(ys, last.from), last.to);
      CoversMore(ys, Extended(xs, h), init, last);
      assert h == init + [last];
    }
  }

  lemma {:induction false} SumBalancesPrefix(h: seq<Transfer>, xs: seq<Address>, ys: seq<Address>)
    requires xs <= ys && ZERO !in ys
    requires forall a: Address :: a != ZERO ==> Balance(h, a) >= 0
    ensures SumBalances(h, xs) <= SumBalances(h, ys)
  {
    if |xs| == |ys| {
      assert xs == ys;
    } else {
      assert ys[|ys| - 1] in ys;
      SumBalancesPrefix(h, xs, ys[..|ys| - 1]);
    }
  }

  lemma HeldAtMostSupply(h: seq<Transfer>, xs: seq<Address>)
    requires Distinct(xs) && forall a: Address :: a != ZERO ==> Balance(h, a) >= 0
    ensures SumBalances(h, xs) <= MintedLessBurned(h)
  {
    ExtendedCovers(xs, h);
    SupplyConserved(h, Extended(xs, h));
    SumBalancesPrefix(h, xs, Extended(xs, h));
  }

  lemma {:induction false} SumIntegralsStep(h: seq<Transfer>, xs: seq<Address>, lo: int, hi: int)
    requires lo < hi
    ensures SumIntegrals(h, xs, lo, hi) == SumIntegrals(h, xs, lo, hi - 1) + SumBalances(Before(h, hi), xs)
  {
    if xs != [] {
      SumIntegralsStep(h, xs[..|xs| - 1], lo, hi);
    }
  }

  lemma {:induction false} SumIntegralsEmpty(h: seq<Transfer>, xs: seq<Address>, lo: int, hi: int)
    requires hi <= lo
    ensures SumIntegrals(h, xs, lo, hi) == 0
  {
    if xs != [] {
      SumIntegralsEmpty(h, xs[..|xs| - 1], lo, hi);
    }
  }

  lemma {:induction false} IntegralsAtMostSupply(h: seq<Transfer>, xs: seq<Address>, lo: int, hi: int, end: int)
    requires Distinct(xs) && Acceptable(h, end) && hi <= end
    ensures SumIntegrals(h, xs, lo, hi) <= SupplyIntegral(h, lo, hi)
    decreases hi - lo
  {
    if hi <= lo {
      SumIntegralsEmpty(h, xs, lo, hi);
    } else {
      IntegralsAtMostSupply(h, xs, lo, hi - 1, end);
      SumIntegralsStep(h, xs, lo, hi);
      forall a: Address | a != ZERO ensures Balance(Before(h, hi), a) >= 0 {
        assert BalanceAt(h, a, hi - 1) >= 0;
      }
      HeldAtMostSupply(Before(h, hi), xs);
    }
  }

  function Accounts(hs: seq<Holder>): (xs: seq<Address>)
    ensures |xs| == |hs| && forall k :: 0 <= k < |hs| ==> xs[k] == hs[k].account
  {
    if hs == [] then [] else Accounts(hs[..|hs| - 1]) + [hs[|hs| - 1].account]
  }

  lemma {:induction false} TwabsAtMostIntegrals(hs: seq<Holder>, h: seq<Transfer>, w: Window)
    requires forall r :: r in hs ==> r.twab == Twab(h, r.account, w)
    ensures EPOCH_SECONDS * SumTwabs(hs) <= SumIntegrals(h, Accounts(hs), w.start, w.end)
  {
    if hs != [] {
      var init, last := hs[..|hs| - 1], hs[|hs| - 1];
      assert last in hs;
      TwabsAtMostIntegrals(init, h, w);
      assert Accounts(hs)[..|init|] == Accounts(init);
    }
  }

  /** Over a window the rules accept, the Holders' averages sum to at most the floor of the average
      supply. */
  lemma TwabsAtMostSupply(hs: seq<Holder>, history: seq<Transfer>, x: seq<Exclusion>, w: Window)
    requires IsHolders(hs, history, x, w) && Acceptable(history, w.end)
    ensures SumTwabs(hs) <= SupplyIntegral(Before(history, w.end), w.start, w.end) / EPOCH_SECONDS
  {
    hide Integral, SupplyIntegral, SumTwabs, SumIntegrals, Accounts, Acceptable, Before;
    var h := Before(history, w.end);
    HoldersDistinct(hs, history, x, w);
    AcceptableBelow(history, w.end);
    TwabsAtMostIntegrals(hs, h, w);
    IntegralsAtMostSupply(h, Accounts(hs), w.start, w.end, w.end);
  }

  lemma HoldersDistinct(hs: seq<Holder>, history: seq<Transfer>, x: seq<Exclusion>, w: Window)
    requires IsHolders(hs, history, x, w)
    ensures Distinct(Accounts(hs))
  {
    hide Twab, HolderOf, Before;
    var xs := Accounts(hs);
    forall k | 0 <= k < |xs| ensures xs[k] != ZERO {
      assert hs[k] in hs;
    }
  }
}
