/** What a transfer history means, with no walk and no state: the balance at each second, the
    integral of it, the first receipt and the last send. Everything here is a sum, a minimum or a
    maximum over the history, so nothing here depends on its order (PermutedHistory). */
module History {
  import opened Wrappers
  import opened Bags
  import Sorting

  const EPOCH_SECONDS: int := 3600
  const MAX_INT64: int := 0x7fff_ffff_ffff_ffff

  /** A 20-byte address as the number its bytes spell, so byte order is numeric order. */
  type Address = a: int | 0 <= a < 0x1_0000000000_0000000000_0000000000_0000000000

  /** The mint and burn counterparty, which is never a Holder. */
  const ZERO: Address := 0

  /** value is None for Go's nil. */
  datatype Transfer = Transfer(timestamp: int, from: Address, to: Address, value: Option<int>)

  datatype Exclusion = Exclusion(timestamp: int, account: Address)

  datatype Holder = Holder(account: Address, twab: int, firstBuyAt: int, lastSellAt: int)

  datatype Window = Window(start: int, end: int)

  /** Epoch ids whose closing instant an int64 holds. */
  predicate InRange(epoch: nat) {
    EPOCH_SECONDS * (epoch + 1) <= MAX_INT64
  }

  function WindowOf(epoch: nat): (w: Window)
    requires InRange(epoch)
    ensures w.start == 3600 * epoch && w.end == 3600 * (epoch + 1)
  {
    var start := epoch * EPOCH_SECONDS;
    Window(start, start + EPOCH_SECONDS)
  }

  // ------------------------------------------------------------------ one transfer

  predicate WellFormed(tr: Transfer) {
    tr.value.Some? && tr.value.value >= 0
  }

  /** What a transfer moves: nothing when its value is nil, negative or zero. */
  function Amount(tr: Transfer): nat {
    if tr.value.Some? && tr.value.value > 0 then tr.value.value else 0
  }

  predicate Received(tr: Transfer, a: Address) {
    Amount(tr) > 0 && tr.to == a
  }

  predicate Sent(tr: Transfer, a: Address) {
    Amount(tr) > 0 && tr.from == a
  }

  predicate Touches(tr: Transfer, a: Address) {
    Received(tr, a) || Sent(tr, a)
  }

  function Delta(tr: Transfer, a: Address): int {
    (if tr.to == a then Amount(tr) else 0) - (if tr.from == a then Amount(tr) else 0)
  }

  // ------------------------------------------------------------------ a history

  /** The transfers with a timestamp below end, in order. */
  function Before(h: seq<Transfer>, end: int): seq<Transfer> {
    if h == [] then []
    else Before(h[..|h| - 1], end) + (if h[|h| - 1].timestamp < end then [h[|h| - 1]] else [])
  }

  function Balance(h: seq<Transfer>, a: Address): int {
    if h == [] then 0 else Balance(h[..|h| - 1], a) + Delta(h[|h| - 1], a)
  }

  /** The balance at second s: from every transfer at or before it. */
  function BalanceAt(h: seq<Transfer>, a: Address, s: int): int {
    Balance(Before(h, s + 1), a)
  }

  /** The sum of the balance over the seconds of [lo, hi). */
  function Integral(h: seq<Transfer>, a: Address, lo: int, hi: int): int
    decreases hi - lo
  {
    if hi <= lo then 0 else Integral(h, a, lo, hi - 1) + BalanceAt(h, a, hi - 1)
  }

  function Min(x: int, y: int): int { if x < y then x else y }

  function Max(x: int, y: int): int { if x < y then y else x }

  /** The earliest timestamp at which a received something. */
  function FirstBuy(h: seq<Transfer>, a: Address): Option<int> {
    if h == [] then None
    else
      var earlier, last := FirstBuy(h[..|h| - 1], a), h[|h| - 1];
      if !Received(last, a) then earlier else Some(Min(earlier.GetOr(last.timestamp), last.timestamp))
  }

  /** The latest timestamp at which a sent something. */
  function LastSell(h: seq<Transfer>, a: Address): Option<int> {
    if h == [] then None
    else
      var earlier, last := LastSell(h[..|h| - 1], a), h[|h| - 1];
      if !Sent(last, a) then earlier else Some(Max(earlier.GetOr(last.timestamp), last.timestamp))
  }

  function Twab(h: seq<Transfer>, a: Address, w: Window): int {
    Integral(h, a, w.start, w.end) / EPOCH_SECONDS
  }

  predicate Excluded(x: seq<Exclusion>, a: Address, end: int) {
    exists k :: 0 <= k < |x| && x[k].account == a && x[k].timestamp < end
  }

  /** The Holder a history makes of an address; h is the part before the window closes. */
  function HolderOf(h: seq<Transfer>, a: Address, w: Window): Holder {
    Holder(a, Twab(h, a, w), FirstBuy(h, a).GetOr(0), LastSell(h, a).GetOr(0))
  }

  predicate Eligible(h: seq<Transfer>, x: seq<Exclusion>, a: Address, w: Window) {
    a != ZERO && !Excluded(x, a, w.end) && Twab(h, a, w) > 0
  }

  /** hs is exactly the eligible Holders of the window, ascending by address. */
  ghost predicate IsHolders(hs: seq<Holder>, history: seq<Transfer>, x: seq<Exclusion>, w: Window) {
    var h := Before(history, w.end);
    && Sorting.StrictlySortedBy(hs, (r: Holder) => r.account)
    && (forall r :: r in hs ==> Eligible(h, x, r.account, w) && r == HolderOf(h, r.account, w))
    && (forall a: Address :: Eligible(h, x, a, w) ==> HolderOf(h, a, w) in hs)
  }

  /** Only one list of Holders answers to a history. */
  lemma HoldersUnique(hs: seq<Holder>, ks: seq<Holder>, history: seq<Transfer>, x: seq<Exclusion>, w: Window)
    requires IsHolders(hs, history, x, w) && IsHolders(ks, history, x, w)
    ensures hs == ks
  {
    forall r ensures r in hs <==> r in ks {
      assert r in hs ==> Eligible(Before(history, w.end), x, r.account, w);
      assert r in ks ==> Eligible(Before(history, w.end), x, r.account, w);
    }
    Sorting.StrictlySortedIsUnique(hs, ks, (r: Holder) => r.account);
  }

  /** Only the part of a history below the window's end matters. */
  lemma HoldersBelow(hs: seq<Holder>, h: seq<Transfer>, g: seq<Transfer>, x: seq<Exclusion>, w: Window)
    requires Before(h, w.end) == Before(g, w.end) && IsHolders(hs, h, x, w)
    ensures IsHolders(hs, g, x, w)
  {
  }

  /** A history the rules accept below end: every value is there and not negative, and nobody ever
      holds less than nothing once a second is complete. */
  ghost predicate Acceptable(h: seq<Transfer>, end: int) {
    && (forall tr :: tr in h && tr.timestamp < end ==> WellFormed(tr))
    && (forall a: Address, s :: a != ZERO && s < end ==> BalanceAt(h, a, s) >= 0)
  }

  // ------------------------------------------------------------------ order

  ghost predicate Ascending(h: seq<Transfer>) {
    forall i, j :: 0 <= i < j < |h| ==> h[i].timestamp <= h[j].timestamp
  }

  ghost predicate AllBefore(h: seq<Transfer>, end: int) {
    forall k :: 0 <= k < |h| ==> h[k].timestamp < end
  }

  /** Stable, ascending by timestamp: the order both walks take. */
  function SortedByTimestamp(transfers: seq<Transfer>): (r: seq<Transfer>)
    ensures Ascending(r)
    ensures |r| == |transfers|
  {
    Sorting.SortBy(transfers, (tr: Transfer) => tr.timestamp)
  }

  lemma {:induction false} BeforeAll(h: seq<Transfer>, end: int)
    requires AllBefore(h, end)
    ensures Before(h, end) == h
  {
    if h != [] {
      BeforeAll(h[..|h| - 1], end);
    }
  }

  /** Below end, an ascending history is a prefix of itself. */
  lemma {:induction false} BeforeIsPrefix(h: seq<Transfer>, i: nat, end: int)
    requires i <= |h|
    requires AllBefore(h[..i], end)
    requires forall k :: i <= k < |h| ==> end <= h[k].timestamp
    ensures Before(h, end) == h[..i]
  {
    if i == |h| {
      assert h[..i] == h;
      BeforeAll(h, end);
    } else {
      var init := h[..|h| - 1];
      assert init[..i] == h[..i];
      BeforeIsPrefix(init, i, end);
    }
  }

  lemma {:induction false} BeforeBefore(h: seq<Transfer>, lo: int, hi: int)
    requires lo <= hi
    ensures Before(Before(h, hi), lo) == Before(h, lo)
  {
    if h != [] {
      var init, last := h[..|h| - 1], h[|h| - 1];
      BeforeBefore(init, lo, hi);
      if last.timestamp >= hi {
        assert Before(h, hi) == Before(init, hi) && Before(h, lo) == Before(init, lo);
      } else {
        assert (Before(init, hi) + [last])[..|Before(init, hi)|] == Before(init, hi);
      }
    }
  }

  lemma {:induction false} BeforeElements(h: seq<Transfer>, end: int)
    ensures forall tr :: tr in Before(h, end) <==> tr in h && tr.timestamp < end
    ensures AllBefore(Before(h, end), end)
  {
    if h != [] {
      BeforeElements(h[..|h| - 1], end);
      assert h == h[..|h| - 1] + [h[|h| - 1]];
    }
  }

  /** Whether a history is acceptable below end is told by what it holds there. */
  lemma AcceptableBelow(h: seq<Transfer>, end: int)
    ensures Acceptable(h, end) <==> Acceptable(Before(h, end), end)
  {
    BeforeElements(h, end);
    forall a: Address, s | s < end ensures BalanceAt(h, a, s) == BalanceAt(Before(h, end), a, s) {
      BeforeBefore(h, s + 1, end);
    }
  }

  // ------------------------------------------------------------------ permutations

  lemma {:induction false} BalanceAppend(h: seq<Transfer>, g: seq<Transfer>, a: Address)
    ensures Balance(h + g, a) == Balance(h, a) + Balance(g, a)
  {
    if g == [] {
      assert h + g == h;
    } else {
      BalanceAppend(h, g[..|g| - 1], a);
      assert (h + g)[..|h + g| - 1] == h + g[..|g| - 1];
    }
  }

  lemma {:induction false} BeforeAppend(h: seq<Transfer>, g: seq<Transfer>, end: int)
    ensures Before(h + g, end) == Before(h, end) + Before(g, end)
  {
    if g == [] {
      assert h + g == h;
    } else {
      BeforeAppend(h, g[..|g| - 1], end);
      assert (h + g)[..|h + g| - 1] == h + g[..|g| - 1];
    }
  }

  lemma BalanceWithout(h: seq<Transfer>, k: nat, a: Address)
    requires k < |h|
    ensures Balance(h, a) == Balance(Without(h, k), a) + Delta(h[k], a)
  {
    assert h == h[..k] + ([h[k]] + h[k + 1..]);
    BalanceAppend(h[..k], [h[k]] + h[k + 1..], a);
    BalanceAppend([h[k]], h[k + 1..], a);
    BalanceAppend(h[..k], h[k + 1..], a);
    assert [h[k]][..0] == [];
  }

  lemma {:induction false} BalancePermuted(h: seq<Transfer>, g: seq<Transfer>, a: Address)
    requires multiset(h) == multiset(g)
    ensures Balance(h, a) == Balance(g, a)
    decreases |h|
  {
    assert |h| == |multiset(h)| == |multiset(g)| == |g|;
    if h != [] {
      var last := h[|h| - 1];
      Sorting.SameElements(h, g);
      assert last in g;
      var k :| 0 <= k < |g| && g[k] == last;
      assert Without(h, |h| - 1) == h[..|h| - 1];
      CancelOne(h, |h| - 1, g, k);
      BalancePermuted(h[..|h| - 1], Without(g, k), a);
      BalanceWithout(g, k, a);
    }
  }

  lemma BeforeWithout(h: seq<Transfer>, k: nat, end: int)
    requires k < |h|
    ensures multiset(Before(h, end))
         == multiset(Before(Without(h, k), end)) + (if h[k].timestamp < end then multiset{h[k]} else multiset{})
  {
    assert h == h[..k] + ([h[k]] + h[k + 1..]);
    BeforeAppend(h[..k], [h[k]] + h[k + 1..], end);
    BeforeAppend([h[k]], h[k + 1..], end);
    BeforeAppend(h[..k], h[k + 1..], end);
    assert [h[k]][..0] == [];
  }

  lemma {:induction false} BeforePermuted(h: seq<Transfer>, g: seq<Transfer>, end: int)
    requires multiset(h) == multiset(g)
    ensures multiset(Before(h, end)) == multiset(Before(g, end))
    decreases |h|
  {
    assert |h| == |multiset(h)| == |multiset(g)| == |g|;
    if h != [] {
      var last := h[|h| - 1];
      Sorting.SameElements(h, g);
      assert last in g;
      var k :| 0 <= k < |g| && g[k] == last;
      assert Without(h, |h| - 1) == h[..|h| - 1];
      CancelOne(h, |h| - 1, g, k);
      BeforePermuted(h[..|h| - 1], Without(g, k), end);
      BeforeWithout(g, k, end);
      BeforeWithout(h, |h| - 1, end);
    }
  }

  lemma {:induction false} IntegralPermuted(h: seq<Transfer>, g: seq<Transfer>, a: Address, lo: int, hi: int)
    requires multiset(h) == multiset(g)
    ensures Integral(h, a, lo, hi) == Integral(g, a, lo, hi)
    decreases hi - lo
  {
    if lo < hi {
      IntegralPermuted(h, g, a, lo, hi - 1);
      BeforePermuted(h, g, hi);
      BalancePermuted(Before(h, hi), Before(g, hi), a);
    }
  }

  /** FirstBuy is the least timestamp of a receipt, and None exactly when there is none. */
  lemma {:induction false} FirstBuyIsEarliest(h: seq<Transfer>, a: Address)
    ensures FirstBuy(h, a).None? ==> forall tr :: tr in h ==> !Received(tr, a)
    ensures FirstBuy(h, a).Some? ==>
      && (exists tr :: tr in h && Received(tr, a) && tr.timestamp == FirstBuy(h, a).value)
      && (forall tr :: tr in h && Received(tr, a) ==> FirstBuy(h, a).value <= tr.timestamp)
  {
    if h != [] {
      var init, last := h[..|h| - 1], h[|h| - 1];
      FirstBuyIsEarliest(init, a);
      assert h == init + [last];
      assert last in h;
    }
  }

  /** LastSell is the greatest timestamp of a send, and None exactly when there is none. */
  lemma {:induction false} LastSellIsLatest(h: seq<Transfer>, a: Address)
    ensures LastSell(h, a).None? ==> forall tr :: tr in h ==> !Sent(tr, a)
    ensures LastSell(h, a).Some? ==>
      && (exists tr :: tr in h && Sent(tr, a) && tr.timestamp == LastSell(h, a).value)
      && (forall tr :: tr in h && Sent(tr, a) ==> tr.timestamp <= LastSell(h, a).value)
  {
    if h != [] {
      var init, last := h[..|h| - 1], h[|h| - 1];
      LastSellIsLatest(init, a);
      assert h == init + [last];
      assert last in h;
    }
  }

  lemma HolderPermuted(h: seq<Transfer>, g: seq<Transfer>, a: Address, w: Window)
    requires multiset(h) == multiset(g)
    ensures HolderOf(h, a, w) == HolderOf(g, a, w)
  {
    IntegralPermuted(h, g, a, w.start, w.end);
    Sorting.SameElements(h, g);
    FirstBuyIsEarliest(h, a);
    FirstBuyIsEarliest(g, a);
    LastSellIsLatest(h, a);
    LastSellIsLatest(g, a);
  }

  lemma BalanceAtPermuted(h: seq<Transfer>, g: seq<Transfer>, a: Address, s: int)
    requires multiset(h) == multiset(g)
    ensures BalanceAt(h, a, s) == BalanceAt(g, a, s)
  {
    BeforePermuted(h, g, s + 1);
    BalancePermuted(Before(h, s + 1), Before(g, s + 1), a);
  }

  lemma AcceptablePermuted(h: seq<Transfer>, g: seq<Transfer>, end: int)
    requires multiset(h) == multiset(g) && Acceptable(h, end)
    ensures Acceptable(g, end)
  {
    Sorting.SameElements(h, g);
    forall a: Address, s | a != ZERO && s < end ensures BalanceAt(g, a, s) >= 0 {
      BalanceAtPermuted(h, g, a, s);
    }
  }

  lemma HoldersPermuted(h: seq<Transfer>, g: seq<Transfer>, hs: seq<Holder>, x: seq<Exclusion>, w: Window)
    requires multiset(h) == multiset(g) && IsHolders(hs, h, x, w)
    ensures IsHolders(hs, g, x, w)
  {
    BeforePermuted(h, g, w.end);
    var h', g' := Before(h, w.end), Before(g, w.end);
    forall a: Address
      ensures HolderOf(h', a, w) == HolderOf(g', a, w) && Eligible(h', x, a, w) == Eligible(g', x, a, w)
    {
      HolderPermuted(h', g', a, w);
      assert HolderOf(h', a, w).twab == HolderOf(g', a, w).twab;
    }
  }

  /** Reordering a history changes neither what it is accepted for nor who its Holders are. */
  lemma PermutedHistory(h: seq<Transfer>, g: seq<Transfer>, hs: seq<Holder>, x: seq<Exclusion>, w: Window)
    requires multiset(h) == multiset(g)
    ensures Acceptable(h, w.end) <==> Acceptable(g, w.end)
    ensures IsHolders(hs, h, x, w) <==> IsHolders(hs, g, x, w)
  {
    if Acceptable(h, w.end) { AcceptablePermuted(h, g, w.end); }
    if Acceptable(g, w.end) { AcceptablePermuted(g, h, w.end); }
    if IsHolders(hs, h, x, w) { HoldersPermuted(h, g, hs, x, w); }
    if IsHolders(hs, g, x, w) { HoldersPermuted(g, h, hs, x, w); }
  }

  // ------------------------------------------------------------------ what a Holder is

  lemma {:induction false} NothingReceived(h: seq<Transfer>, a: Address)
    requires forall tr :: tr in h ==> !Received(tr, a)
    ensures Balance(h, a) <= 0
  {
    if h != [] {
      var init, last := h[..|h| - 1], h[|h| - 1];
      assert h == init + [last] && last in h;
      NothingReceived(init, a);
    }
  }

  lemma {:induction false} NothingHeld(h: seq<Transfer>, a: Address, lo: int, hi: int)
    requires forall tr :: tr in h ==> !Received(tr, a)
    ensures Integral(h, a, lo, hi) <= 0
    decreases hi - lo
  {
    if lo < hi {
      NothingHeld(h, a, lo, hi - 1);
      BeforeElements(h, hi);
      NothingReceived(Before(h, hi), a);
    }
  }

  /** tr moves something to a, or from it, before end. */
  ghost predicate Brings(tr: Transfer, a: Address, end: int) {
    tr.to == a && tr.timestamp < end && tr.value.Some? && tr.value.value > 0
  }

  ghost predicate Takes(tr: Transfer, a: Address, end: int) {
    tr.from == a && tr.timestamp < end && tr.value.Some? && tr.value.value > 0
  }

  /** A Holder of a window is no mint and not excluded before its end; its average is the floor of the sum of its
      balance over 3600 seconds; it is stamped with its earliest receipt, and with its latest send or 0. */
  lemma HolderIs(r: Holder, hs: seq<Holder>, history: seq<Transfer>, x: seq<Exclusion>, w: Window)
    requires IsHolders(hs, history, x, w) && r in hs
    ensures r.account != 0 && forall e :: e in x && e.account == r.account ==> w.end <= e.timestamp
    ensures r.twab > 0
    ensures 3600 * r.twab <= Integral(Before(history, w.end), r.account, w.start, w.end) < 3600 * (r.twab + 1)
    ensures exists tr :: tr in history && Brings(tr, r.account, w.end) && tr.timestamp == r.firstBuyAt
    ensures forall tr :: tr in history && Brings(tr, r.account, w.end) ==> r.firstBuyAt <= tr.timestamp
    ensures forall tr :: tr in history && Takes(tr, r.account, w.end) ==> tr.timestamp <= r.lastSellAt
    ensures
      || (exists tr :: tr in history && Takes(tr, r.account, w.end) && tr.timestamp == r.lastSellAt)
      || (r.lastSellAt == 0 && forall tr :: tr in history ==> !Takes(tr, r.account, w.end))
  {
    var h, a := Before(history, w.end), r.account;
    assert Eligible(h, x, a, w) && r == HolderOf(h, a, w);
    BeforeElements(history, w.end);
    NotExcluded(x, a, w.end);
    FirstBuyIsEarliest(h, a);
    LastSellIsLatest(h, a);
    if FirstBuy(h, a).None? {
      NothingHeld(h, a, w.start, w.end);
      assert false;
    }
    forall tr | tr in history && Brings(tr, a, w.end) ensures tr in h && Received(tr, a) {
    }
    forall tr | tr in history && Takes(tr, a, w.end) ensures tr in h && Sent(tr, a) {
    }
    var first :| first in h && Received(first, a) && first.timestamp == FirstBuy(h, a).value;
    assert Brings(first, a, w.end);
    if LastSell(h, a).Some? {
      var last :| last in h && Sent(last, a) && last.timestamp == LastSell(h, a).value;
      assert Takes(last, a, w.end);
    }
  }

  lemma NotExcluded(x: seq<Exclusion>, a: Address, end: int)
    requires !Excluded(x, a, end)
    ensures forall e :: e in x && e.account == a ==> end <= e.timestamp
  {
    forall e | e in x && e.account == a ensures end <= e.timestamp {
      var k :| 0 <= k < |x| && x[k] == e;
    }
  }
}
