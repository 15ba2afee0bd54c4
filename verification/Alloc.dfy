/** An Epoch's Allocations: streak, Multiplier, weight, floors, omission, totals and the Root. */
module Alloc {
  import opened Wrappers
  import opened History
  import opened Bytes
  import opened Merkle
  import Tree
  import Replay
  import Sorting

  const SECONDS_PER_DAY: int := 86400
  const STREAK_WEEK: int := 7
  const STREAK_MONTH: int := 30
  const MULT_BPS_BASE: nat := 10000
  const MULT_BPS_WEEK: nat := 12500
  const MULT_BPS_MONTH: nat := 15000

  /** Whole days held without sending, back from the instant the Epoch closes. */
  function StreakDays(w: Window, h: Holder): int {
    var since := if h.lastSellAt > h.firstBuyAt then h.lastSellAt else h.firstBuyAt;
    Replay.Quo(w.end - since, SECONDS_PER_DAY)
  }

  function MultBps(streakDays: int): nat {
    if streakDays >= STREAK_MONTH then MULT_BPS_MONTH
    else if streakDays >= STREAK_WEEK then MULT_BPS_WEEK
    else MULT_BPS_BASE
  }

  /** The Multiplier steps up at seven and at thirty whole days since the last send, or since the first
      receipt when nothing was sent after it; an instant past the close counts as none. */
  lemma MultiplierByHold(w: Window, h: Holder)
    ensures
      var held := w.end - Max(h.lastSellAt, h.firstBuyAt);
      var mult := MultBps(StreakDays(w, h));
      && (mult == MULT_BPS_MONTH <==> held >= STREAK_MONTH * SECONDS_PER_DAY)
      && (mult == MULT_BPS_WEEK <==> STREAK_WEEK * SECONDS_PER_DAY <= held < STREAK_MONTH * SECONDS_PER_DAY)
      && (mult == MULT_BPS_BASE <==> held < STREAK_WEEK * SECONDS_PER_DAY)
  {
  }

  /** One number per reward token. */
  type Five = s: seq<int> | |s| == 5 witness [0, 0, 0, 0, 0]

  const NOTHING: Five := [0, 0, 0, 0, 0]

  datatype Params = Params(epoch: nat, devWallet: Address, funded: Amounts, carryIn: Amounts)

  datatype Allocation = Allocation(account: Address, twab: int, multBps: nat, weight: int, amounts: Five)

  datatype AllocError =
    | BadFunded(token: nat)
    | BadCarryIn(token: nat)
    | BadTree(error: Tree.TreeError)

  datatype Outcome = Outcome(
    allocations: seq<Allocation>, totals: Five, carryOut: Five, totalWeight: int, tree: Option<Tree.Tree>)

  // ------------------------------------------------------------------ what the rules say

  predicate AmountOk(x: Option<int>) {
    x.Some? && x.value >= 0
  }

  predicate Payable(p: Params) {
    forall t :: 0 <= t < 5 ==> AmountOk(p.funded[t]) && AmountOk(p.carryIn[t])
  }

  /** What is there to allocate: funding plus Carry. */
  function BaseOf(p: Params): (r: Five)
    requires Payable(p)
    ensures forall t :: 0 <= t < 5 ==> r[t] == p.funded[t].value + p.carryIn[t].value >= 0
  {
    seq(5, t requires 0 <= t < 5 => p.funded[t].value + p.carryIn[t].value)
  }

  function MultFor(p: Params, h: Holder): nat
    requires InRange(p.epoch)
  {
    if h.account == p.devWallet then MULT_BPS_BASE else MultBps(StreakDays(WindowOf(p.epoch), h))
  }

  function WeightOf(p: Params, h: Holder): int
    requires InRange(p.epoch)
  {
    h.twab * MultFor(p, h)
  }

  /** W: over every eligible Holder, whether or not the tree will hold it. */
  function TotalWeight(p: Params, hs: seq<Holder>): int
    requires InRange(p.epoch)
  {
    if hs == [] then 0 else TotalWeight(p, hs[..|hs| - 1]) + WeightOf(p, hs[|hs| - 1])
  }

  /** The floor of base's share of weight in total. */
  function Share(base: int, weight: int, total: int): int
    requires total > 0
  {
    base * weight / total
  }

  function Shares(base: Five, weight: int, total: int): (r: Five)
    requires total > 0
    ensures forall t :: 0 <= t < 5 ==> r[t] == Share(base[t], weight, total)
  {
    seq(5, t requires 0 <= t < 5 => Share(base[t], weight, total))
  }

  function Row(p: Params, h: Holder, base: Five, total: int): Allocation
    requires InRange(p.epoch) && total > 0
  {
    Allocation(h.account, h.twab, MultFor(p, h), WeightOf(p, h), Shares(base, WeightOf(p, h), total))
  }

  /** Every Holder's row, before omission. */
  function Rows(p: Params, hs: seq<Holder>, base: Five, total: int): (r: seq<Allocation>)
    requires InRange(p.epoch) && (hs != [] ==> total > 0)
    ensures |r| == |hs| && forall i :: 0 <= i < |hs| ==> r[i] == Row(p, hs[i], base, total)
  {
    if hs == [] then [] else Rows(p, hs[..|hs| - 1], base, total) + [Row(p, hs[|hs| - 1], base, total)]
  }

  predicate IsEmpty(a: Five) {
    forall t :: 0 <= t < 5 ==> a[t] == 0
  }

  /** The rows the tree holds: all but those whose five allocations floored to zero. */
  function Kept(rows: seq<Allocation>): seq<Allocation> {
    if rows == [] then []
    else Kept(rows[..|rows| - 1]) + (if IsEmpty(rows[|rows| - 1].amounts) then [] else [rows[|rows| - 1]])
  }

  function SumOf(rows: seq<Allocation>, t: nat): int
    requires t < 5
  {
    if rows == [] then 0 else SumOf(rows[..|rows| - 1], t) + rows[|rows| - 1].amounts[t]
  }

  function ClaimOf(epoch: nat, a: Allocation): Claim {
    Claim(Some(epoch), a.account, seq(5, t requires 0 <= t < 5 => Some(a.amounts[t])))
  }

  function ClaimsOf(epoch: nat, rows: seq<Allocation>): (r: seq<Claim>)
    ensures |r| == |rows| && forall i :: 0 <= i < |r| ==> r[i] == ClaimOf(epoch, rows[i])
  {
    seq(|rows|, i requires 0 <= i < |rows| => ClaimOf(epoch, rows[i]))
  }

  /** A Holder as Replay returns it: with a positive average. */
  predicate AllPositive(hs: seq<Holder>) {
    forall i :: 0 <= i < |hs| ==> hs[i].twab > 0
  }

  // ------------------------------------------------------------------ weights and floors

  lemma WeightPositive(p: Params, h: Holder)
    requires InRange(p.epoch) && h.twab > 0
    ensures WeightOf(p, h) > 0
  {
  }

  lemma {:induction false} TotalPositive(p: Params, hs: seq<Holder>)
    requires InRange(p.epoch) && AllPositive(hs)
    ensures TotalWeight(p, hs) >= |hs|
  {
    if hs != [] {
      TotalPositive(p, hs[..|hs| - 1]);
      WeightPositive(p, hs[|hs| - 1]);
    }
  }

  /** What flooring leaves behind, before it is divided by the total. */
  function Remainders(p: Params, hs: seq<Holder>, base: int, total: int): int
    requires InRange(p.epoch) && total > 0
  {
    if hs == [] then 0
    else Remainders(p, hs[..|hs| - 1], base, total) + base * WeightOf(p, hs[|hs| - 1]) % total
  }

  lemma {:induction false} RemaindersBounded(p: Params, hs: seq<Holder>, base: int, total: int)
    requires InRange(p.epoch) && total > 0
    ensures 0 <= Remainders(p, hs, base, total) <= |hs| * (total - 1)
  {
    if hs != [] {
      RemaindersBounded(p, hs[..|hs| - 1], base, total);
      assert |hs| * (total - 1) == (|hs| - 1) * (total - 1) + (total - 1);
    }
  }

  lemma ShareAndRemainder(base: int, weight: int, total: int)
    requires total > 0
    ensures base * weight == total * Share(base, weight, total) + base * weight % total
  {
  }

  lemma Distribute(x: int, y: int, z: int)
    ensures x * (y + z) == x * y + x * z
  {
  }

  /** Over all Holders, shares and remainders account for base times the weights. */
  lemma {:induction false} FloorsAccount(p: Params, hs: seq<Holder>, base: Five, total: int, t: nat)
    requires InRange(p.epoch) && total > 0 && t < 5
    ensures total * SumOf(Rows(p, hs, base, total), t) + Remainders(p, hs, base[t], total)
         == base[t] * TotalWeight(p, hs)
  {
    if hs != [] {
      var init, w := hs[..|hs| - 1], WeightOf(p, hs[|hs| - 1]);
      FloorsAccount(p, init, base, total, t);
      RowsAdd(p, hs, base, total, t);
      hide WeightOf, Share, Rows, SumOf;
      OneMore(base[t], w, total, SumOf(Rows(p, init, base, total), t), Remainders(p, init, base[t], total),
              TotalWeight(p, init));
    }
  }

  /** The last Holder's row adds its share. */
  lemma RowsAdd(p: Params, hs: seq<Holder>, base: Five, total: int, t: nat)
    requires InRange(p.epoch) && total > 0 && t < 5 && hs != []
    ensures SumOf(Rows(p, hs, base, total), t)
         == SumOf(Rows(p, hs[..|hs| - 1], base, total), t) + Share(base[t], WeightOf(p, hs[|hs| - 1]), total)
  {
    hide WeightOf, Share;
    var rows := Rows(p, hs, base, total);
    assert rows[..|rows| - 1] == Rows(p, hs[..|hs| - 1], base, total);
  }

  /** What is accounted for stays so with one more weight. */
  lemma OneMore(base: int, weight: int, total: int, sum: int, left: int, weights: int)
    requires total > 0 && total * sum + left == base * weights
    ensures total * (sum + Share(base, weight, total)) + (left + base * weight % total) == base * (weights + weight)
  {
    ShareAndRemainder(base, weight, total);
    hide Share;
    Distribute(total, sum, Share(base, weight, total));
    Distribute(base, weights, weight);
  }

  /** Allocation never spends more than there is, and leaves less than one unit a Holder. */
  lemma DustBound(p: Params, hs: seq<Holder>, base: Five, t: nat)
    requires InRange(p.epoch) && AllPositive(hs) && hs != [] && t < 5
    ensures TotalWeight(p, hs) > 0
    ensures 0 <= base[t] - SumOf(Rows(p, hs, base, TotalWeight(p, hs)), t) <= |hs| - 1
  {
    TotalPositive(p, hs);
    var total := TotalWeight(p, hs);
    FloorsAccount(p, hs, base, total, t);
    RemaindersBounded(p, hs, base[t], total);
    DustBetween(total, base[t], SumOf(Rows(p, hs, base, total), t), Remainders(p, hs, base[t], total), |hs|);
  }

  lemma Scaled(total: nat, a: int, b: int)
    ensures a <= b ==> total * a <= total * b
  {
  }

  lemma DustBetween(total: int, base: int, sum: int, left: int, n: nat)
    requires total > 0 && n > 0 && total * sum + left == base * total && 0 <= left <= n * (total - 1)
    ensures 0 <= base - sum <= n - 1
  {
    assert total * (base - sum) == left;
    assert n * (total - 1) == total * n - n;
    Scaled(total, base - sum, -1);
    Scaled(total, n, base - sum);
  }

  // ------------------------------------------------------------------ omission

  lemma {:induction false} OmissionKeepsTotals(rows: seq<Allocation>, t: nat)
    requires t < 5
    ensures SumOf(Kept(rows), t) == SumOf(rows, t)
  {
    if rows != [] {
      var init, last := rows[..|rows| - 1], rows[|rows| - 1];
      OmissionKeepsTotals(init, t);
      if IsEmpty(last.amounts) {
        assert Kept(rows) == Kept(init) && last.amounts[t] == 0;
      } else {
        assert Kept(rows)[..|Kept(init)|] == Kept(init);
      }
    }
  }

  lemma {:induction false} KeptElements(rows: seq<Allocation>)
    ensures forall a :: a in Kept(rows) <==> a in rows && !IsEmpty(a.amounts)
  {
    if rows != [] {
      KeptElements(rows[..|rows| - 1]);
      assert rows == rows[..|rows| - 1] + [rows[|rows| - 1]];
    }
  }

  predicate NoneNegative(rows: seq<Allocation>) {
    forall i, t :: 0 <= i < |rows| && 0 <= t < 5 ==> rows[i].amounts[t] >= 0
  }

  lemma {:induction false} SumBounds(rows: seq<Allocation>, t: nat)
    requires t < 5 && NoneNegative(rows)
    ensures forall i :: 0 <= i < |rows| ==> 0 <= rows[i].amounts[t] <= SumOf(rows, t)
    ensures SumOf(rows, t) >= 0
  {
    if rows != [] {
      var init := rows[..|rows| - 1];
      SumBounds(init, t);
      assert forall i :: 0 <= i < |init| ==> rows[i] == init[i];
    }
  }

  lemma ShareNonNegative(base: int, weight: int, total: int)
    requires base >= 0 && weight >= 0 && total > 0
    ensures Share(base, weight, total) >= 0
  {
    assert base * weight >= 0;
  }

  lemma RowsNonNegative(p: Params, hs: seq<Holder>, base: Five, total: int)
    requires InRange(p.epoch) && AllPositive(hs) && total > 0 && forall t :: 0 <= t < 5 ==> base[t] >= 0
    ensures NoneNegative(Rows(p, hs, base, total))
  {
    forall i, t | 0 <= i < |hs| && 0 <= t < 5 ensures Rows(p, hs, base, total)[i].amounts[t] >= 0 {
      WeightPositive(p, hs[i]);
      ShareNonNegative(base[t], WeightOf(p, hs[i]), total);
    }
  }

  lemma KeptNonNegative(rows: seq<Allocation>)
    requires NoneNegative(rows)
    ensures NoneNegative(Kept(rows))
  {
    KeptElements(rows);
    forall i, t | 0 <= i < |Kept(rows)| && 0 <= t < 5 ensures Kept(rows)[i].amounts[t] >= 0 {
      assert Kept(rows)[i] in rows;
    }
  }

  /** Some row is kept exactly when some total is positive. */
  lemma KeptIffPaid(rows: seq<Allocation>)
    requires NoneNegative(rows)
    ensures Kept(rows) != [] <==> exists t :: 0 <= t < 5 && SumOf(rows, t) > 0
  {
    KeptElements(rows);
    if Kept(rows) != [] {
      var a := Kept(rows)[0];
      assert a in rows;
      var i :| 0 <= i < |rows| && rows[i] == a;
      var t :| 0 <= t < 5 && a.amounts[t] != 0;
      SumBounds(rows, t);
    } else {
      forall t | 0 <= t < 5 ensures SumOf(rows, t) == 0 {
        OmissionKeepsTotals(rows, t);
      }
    }
  }

  // ------------------------------------------------------------------ Allocate

  /** The allocation of p to hs: every field the rules make, and the tree over what was kept. */
  ghost predicate IsAllocation(o: Outcome, keccak: Keccak, p: Params, hs: seq<Holder>)
    requires InRange(p.epoch) && AllPositive(hs)
    reads if o.tree.Some? then {o.tree.value.nodes, o.tree.value.leafAt} else {}
  {
    TotalPositive(p, hs);
    && Payable(p)
    && var base := BaseOf(p);
       var rows := Rows(p, hs, base, TotalWeight(p, hs));
    && o.totalWeight == TotalWeight(p, hs)
    && o.allocations == Kept(rows)
    && (forall t :: 0 <= t < 5 ==> o.totals[t] == SumOf(rows, t))
    && (forall t :: 0 <= t < 5 ==> o.totals[t] + o.carryOut[t] == p.funded[t].value + p.carryIn[t].value)
    && (o.tree.None? <==> Kept(rows) == [])
    && (o.tree.Some? ==>
         var claims := ClaimsOf(p.epoch, o.allocations);
         && Tree.AllEncodable(claims)
         && o.tree.value.Valid() && o.tree.value.keccak == keccak
         && o.tree.value.encoded == Tree.EncodedAll(claims))
  }

  function BadAmount(p: Params, t: nat): Option<AllocError>
    requires t <= 5
    decreases 5 - t
  {
    if t == 5 then None
    else if !AmountOk(p.funded[t]) then Some(BadFunded(t))
    else if !AmountOk(p.carryIn[t]) then Some(BadCarryIn(t))
    else BadAmount(p, t + 1)
  }

  /** The first amount that is nil or negative is the one to blame, token by token and funding first. */
  ghost predicate ToBlame(p: Params, t: nat, e: AllocError) {
    match e
    case BadFunded(k) =>
      && t <= k < 5 && (p.funded[k].None? || p.funded[k].value < 0)
      && forall u :: t <= u < k ==> AmountOk(p.funded[u]) && AmountOk(p.carryIn[u])
    case BadCarryIn(k) =>
      && t <= k < 5 && AmountOk(p.funded[k]) && (p.carryIn[k].None? || p.carryIn[k].value < 0)
      && forall u :: t <= u < k ==> AmountOk(p.funded[u]) && AmountOk(p.carryIn[u])
    case BadTree(_) => false
  }

  lemma {:induction false} BadAmountIff(p: Params, t: nat)
    requires t <= 5
    ensures BadAmount(p, t).None? <==> forall u :: t <= u < 5 ==> AmountOk(p.funded[u]) && AmountOk(p.carryIn[u])
    ensures BadAmount(p, t).Some? ==> ToBlame(p, t, BadAmount(p, t).value)
    decreases 5 - t
  {
    if t < 5 {
      BadAmountIff(p, t + 1);
    }
  }

  method Base(p: Params) returns (r: Result<Five, AllocError>)
    ensures Payable(p) ==> r == Success(BaseOf(p))
    ensures !Payable(p) ==> r.Failure? && BadAmount(p, 0) == Some(r.error) && ToBlame(p, 0, r.error)
  {
    BadAmountIff(p, 0);
    var base: Five := NOTHING;
    var t := 0;
    while t < 5
      invariant 0 <= t <= 5
      invariant BadAmount(p, 0) == BadAmount(p, t)
      invariant forall u :: 0 <= u < t ==>
        AmountOk(p.funded[u]) && AmountOk(p.carryIn[u]) && base[u] == p.funded[u].value + p.carryIn[u].value
    {
      if !AmountOk(p.funded[t]) {
        return Failure(BadFunded(t));
      }
      if !AmountOk(p.carryIn[t]) {
        return Failure(BadCarryIn(t));
      }
      base := base[t := p.funded[t].value + p.carryIn[t].value];
      t := t + 1;
    }
    assert base == BaseOf(p);
    r := Success(base);
  }

  /** Holders into rows not yet filled, accumulating W. */
  method Weigh(p: Params, hs: seq<Holder>) returns (rows: seq<Allocation>, total: int)
    requires InRange(p.epoch)
    ensures total == TotalWeight(p, hs)
    ensures |rows| == |hs|
    ensures forall i :: 0 <= i < |hs| ==>
      rows[i] == Allocation(hs[i].account, hs[i].twab, MultFor(p, hs[i]), WeightOf(p, hs[i]), NOTHING)
  {
    var window := WindowOf(p.epoch);
    rows, total := [], 0;
    var i := 0;
    while i < |hs|
      invariant 0 <= i <= |hs| && |rows| == i
      invariant total == TotalWeight(p, hs[..i])
      invariant forall k :: 0 <= k < i ==>
        rows[k] == Allocation(hs[k].account, hs[k].twab, MultFor(p, hs[k]), WeightOf(p, hs[k]), NOTHING)
    {
      var h := hs[i];
      var multBps := MultBps(StreakDays(window, h));
      if h.account == p.devWallet {
        multBps := MULT_BPS_BASE;
      }
      var weight := h.twab * multBps;
      total := total + weight;
      rows := rows + [Allocation(h.account, h.twab, multBps, weight, NOTHING)];
      assert hs[..i + 1][..i] == hs[..i];
      i := i + 1;
    }
    assert hs[..i] == hs;
  }

  method FillRow(base: Five, weight: int, total: int) returns (amounts: Five)
    requires total > 0
    ensures amounts == Shares(base, weight, total)
  {
    amounts := NOTHING;
    var t := 0;
    while t < 5
      invariant 0 <= t <= 5
      invariant forall u :: 0 <= u < t ==> amounts[u] == Share(base[u], weight, total)
    {
      amounts := amounts[t := base[t] * weight / total];
      t := t + 1;
    }
  }

  method Fill(p: Params, hs: seq<Holder>, unfilled: seq<Allocation>, base: Five, total: int)
    returns (rows: seq<Allocation>)
    requires InRange(p.epoch) && (hs != [] ==> total > 0) && |unfilled| == |hs|
    requires forall i :: 0 <= i < |hs| ==>
      unfilled[i] == Allocation(hs[i].account, hs[i].twab, MultFor(p, hs[i]), WeightOf(p, hs[i]), NOTHING)
    ensures rows == Rows(p, hs, base, total)
  {
    rows := unfilled;
    var i := 0;
    while i < |rows|
      invariant 0 <= i <= |rows| == |hs|
      invariant forall k :: 0 <= k < i ==> rows[k] == Row(p, hs[k], base, total)
      invariant forall k :: i <= k < |hs| ==> rows[k] == unfilled[k]
    {
      var amounts := FillRow(base, rows[i].weight, total);
      rows := rows[i := rows[i].(amounts := amounts)];
      i := i + 1;
    }
  }

  method AddRow(totals: Five, amounts: Five) returns (r: Five)
    ensures forall t :: 0 <= t < 5 ==> r[t] == totals[t] + amounts[t]
  {
    r := totals;
    var t := 0;
    while t < 5
      invariant 0 <= t <= 5
      invariant forall u :: 0 <= u < t ==> r[u] == totals[u] + amounts[u]
      invariant forall u :: t <= u < 5 ==> r[u] == totals[u]
    {
      r := r[t := r[t] + amounts[t]];
      t := t + 1;
    }
  }

  /** Omission, computed last: a row leaves only once all five of its amounts are zero. */
  method Omit(rows: seq<Allocation>) returns (kept: seq<Allocation>, totals: Five)
    ensures kept == Kept(rows)
    ensures forall t :: 0 <= t < 5 ==> totals[t] == SumOf(rows, t)
  {
    kept, totals := [], NOTHING;
    var i := 0;
    while i < |rows|
      invariant 0 <= i <= |rows|
      invariant kept == Kept(rows[..i])
      invariant forall t :: 0 <= t < 5 ==> totals[t] == SumOf(rows[..i], t)
    {
      assert rows[..i + 1][..i] == rows[..i];
      if !IsEmpty(rows[i].amounts) {
        kept := kept + [rows[i]];
        totals := AddRow(totals, rows[i].amounts);
      }
      i := i + 1;
    }
    assert rows[..i] == rows;
  }

  method Subtract(base: Five, totals: Five) returns (r: Five)
    ensures forall t :: 0 <= t < 5 ==> totals[t] + r[t] == base[t]
  {
    r := NOTHING;
    var t := 0;
    while t < 5
      invariant 0 <= t <= 5
      invariant forall u :: 0 <= u < t ==> totals[u] + r[u] == base[u]
    {
      r := r[t := base[t] - totals[t]];
      t := t + 1;
    }
  }

  method Allocate(keccak: Keccak, p: Params, hs: seq<Holder>) returns (r: Result<Outcome, AllocError>)
    requires InRange(p.epoch) && AllPositive(hs)
    ensures r.Success? ==> IsAllocation(r.value, keccak, p, hs)
    ensures !Payable(p) ==> r.Failure? && ToBlame(p, 0, r.error)
    ensures Payable(p) ==>
      (r.Success? <==> Tree.AllEncodable(ClaimsOf(p.epoch, Kept(AllRows(p, hs)))))
    ensures Payable(p) && r.Failure? ==>
      r.error.BadTree? && Tree.IsFirstBad(ClaimsOf(p.epoch, Kept(AllRows(p, hs))), r.error.error)
  {
    var base := Base(p);
    if base.Failure? {
      return Failure(base.error);
    }
    var weighted, total := Weigh(p, hs);
    TotalPositive(p, hs);
    var rows := Fill(p, hs, weighted, base.value, total);
    var kept, totals := Omit(rows);
    var carryOut := Subtract(base.value, totals);
    if kept == [] {
      return Success(Outcome([], totals, carryOut, total, None));
    }
    var tree := Tree.New(keccak, ClaimsOf(p.epoch, kept));
    if tree.Failure? {
      return Failure(BadTree(tree.error));
    }
    r := Success(Outcome(kept, totals, carryOut, total, Some(tree.value)));
  }

  /** Every Holder's row of an Epoch, before omission. */
  function AllRows(p: Params, hs: seq<Holder>): seq<Allocation>
    requires InRange(p.epoch) && AllPositive(hs) && Payable(p)
  {
    TotalPositive(p, hs);
    Rows(p, hs, BaseOf(p), TotalWeight(p, hs))
  }

  // ------------------------------------------------------------------ what follows

  /** Per token, what is allocated and what is carried out is what was funded and carried in; the dust
      is less than one unit a Holder; and the totals are the sums over every Holder, omitted or not. */
  lemma AllocationConserves(o: Outcome, keccak: Keccak, p: Params, hs: seq<Holder>, t: nat)
    requires InRange(p.epoch) && AllPositive(hs) && IsAllocation(o, keccak, p, hs) && t < 5
    ensures o.totals[t] + o.carryOut[t] == p.funded[t].value + p.carryIn[t].value
    ensures o.totals[t] == SumOf(o.allocations, t) == SumOf(AllRows(p, hs), t)
    ensures o.totals[t] >= 0
    ensures hs != [] ==> 0 <= o.carryOut[t] <= |hs| - 1
    ensures hs == [] ==> o.totals[t] == 0
  {
    TotalPositive(p, hs);
    var rows := AllRows(p, hs);
    OmissionKeepsTotals(rows, t);
    if hs != [] {
      DustBound(p, hs, BaseOf(p), t);
      RowsNonNegative(p, hs, BaseOf(p), TotalWeight(p, hs));
      SumBounds(rows, t);
    }
  }

  predicate PaysSomething(totals: Five) {
    exists t :: 0 <= t < 5 && totals[t] > 0
  }

  lemma AllRowsNonNegative(p: Params, hs: seq<Holder>)
    requires InRange(p.epoch) && AllPositive(hs) && Payable(p)
    ensures NoneNegative(AllRows(p, hs))
  {
    TotalPositive(p, hs);
    if hs != [] {
      RowsNonNegative(p, hs, BaseOf(p), TotalWeight(p, hs));
    }
  }

  lemma PaidIffKept(rows: seq<Allocation>, totals: Five)
    requires NoneNegative(rows) && forall t :: 0 <= t < 5 ==> totals[t] == SumOf(rows, t)
    ensures PaysSomething(totals) <==> Kept(rows) != []
  {
    KeptIffPaid(rows);
    if Kept(rows) != [] {
      var t :| 0 <= t < 5 && SumOf(rows, t) > 0;
      assert totals[t] > 0;
    }
  }

  /** There is a tree exactly when some token pays something, and the rows it holds are exactly those
      that are paid something, at the amounts they have among all Holders. */
  lemma TreeIffPaid(o: Outcome, keccak: Keccak, p: Params, hs: seq<Holder>)
    requires InRange(p.epoch) && AllPositive(hs) && IsAllocation(o, keccak, p, hs)
    ensures o.tree.Some? <==> PaysSomething(o.totals)
    ensures forall a :: a in o.allocations <==> a in AllRows(p, hs) && !IsEmpty(a.amounts)
  {
    AllRowsNonNegative(p, hs);
    PaidIffKept(AllRows(p, hs), o.totals);
    KeptElements(AllRows(p, hs));
  }

  lemma KeptAtMostBase(p: Params, hs: seq<Holder>, i: nat, t: nat)
    requires InRange(p.epoch) && AllPositive(hs) && Payable(p) && t < 5 && i < |Kept(AllRows(p, hs))|
    ensures 0 <= Kept(AllRows(p, hs))[i].amounts[t] <= BaseOf(p)[t]
  {
    var rows := AllRows(p, hs);
    AllRowsNonNegative(p, hs);
    KeptNonNegative(rows);
    SumBounds(Kept(rows), t);
    OmissionKeepsTotals(rows, t);
    assert hs == [] ==> rows == [];
    if hs != [] {
      DustBound(p, hs, BaseOf(p), t);
    }
  }

  /** Below 2^256 to pay out per token, no claim fails to encode, so Allocate never refuses. */
  lemma AlwaysEncodable(p: Params, hs: seq<Holder>)
    requires InRange(p.epoch) && AllPositive(hs) && Payable(p)
    requires forall t :: 0 <= t < 5 ==> BaseOf(p)[t] < Span(WORD_SIZE)
    ensures Tree.AllEncodable(ClaimsOf(p.epoch, Kept(AllRows(p, hs))))
  {
    hide AllRows, BaseOf, Kept, Span;
    var kept := Kept(AllRows(p, hs));
    EpochFits(p.epoch);
    forall i, t | 0 <= i < |kept| && 0 <= t < 5 ensures FitsUint256(ClaimOf(p.epoch, kept[i]).amounts[t]) {
      KeptAtMostBase(p, hs, i, t);
    }
  }

  lemma EpochFits(epoch: nat)
    requires InRange(epoch)
    ensures epoch < Span(WORD_SIZE)
  {
    AddressFits(epoch);
  }

  // ------------------------------------------------------------------ the rules in plain numbers

  /** From when an Epoch counts a Holder as holding: its last send, or its first receipt when that is later. */
  function HeldSince(h: Holder): int {
    if h.firstBuyAt <= h.lastSellAt then h.lastSellAt else h.firstBuyAt
  }

  /** The dev wallet is flat at 1.00. Anyone else stands at 1.50 from thirty days held on, at 1.25 from seven,
      and at 1.00 below that. */
  ghost predicate EarnsMultiplier(p: Params, h: Holder, multBps: nat) {
    var held := 3600 * (p.epoch + 1) - HeldSince(h);
    && (h.account == p.devWallet ==> multBps == 10_000)
    && (h.account != p.devWallet ==>
          && (multBps == 15_000 <==> held >= 2_592_000)
          && (multBps == 12_500 <==> 604_800 <= held < 2_592_000)
          && (multBps == 10_000 <==> held < 604_800))
  }

  /** row is what h is due of a total weight: of every token, the most whole units that are no more than its
      share by weight. */
  ghost predicate IsDue(p: Params, h: Holder, row: Allocation, total: int)
    requires Payable(p)
  {
    && row.account == h.account && row.twab == h.twab
    && EarnsMultiplier(p, h, row.multBps)
    && row.weight == row.twab * row.multBps
    && forall t :: 0 <= t < 5 ==>
         var base := p.funded[t].value + p.carryIn[t].value;
         total * row.amounts[t] <= base * row.weight < total * (row.amounts[t] + 1)
  }

  function SumWeights(rows: seq<Allocation>): int {
    if rows == [] then 0 else SumWeights(rows[..|rows| - 1]) + rows[|rows| - 1].weight
  }

  lemma Floor(x: int, total: int)
    requires total > 0
    ensures total * (x / total) <= x < total * (x / total + 1)
  {
  }

  lemma DueShare(base: int, weight: int, total: int)
    requires total > 0
    ensures var s := Share(base, weight, total); total * s <= base * weight < total * (s + 1)
  {
    Floor(base * weight, total);
  }

  lemma EarnsFor(p: Params, h: Holder)
    requires InRange(p.epoch)
    ensures EarnsMultiplier(p, h, MultFor(p, h))
  {
    MultiplierByHold(WindowOf(p.epoch), h);
  }

  lemma RowIsDue(p: Params, h: Holder, total: int)
    requires InRange(p.epoch) && Payable(p) && total > 0
    ensures IsDue(p, h, Row(p, h, BaseOf(p), total), total)
  {
    EarnsFor(p, h);
    hide EarnsMultiplier, MultFor, Share;
    var row := Row(p, h, BaseOf(p), total);
    forall t | 0 <= t < 5
      ensures
        var base := p.funded[t].value + p.carryIn[t].value;
        total * row.amounts[t] <= base * row.weight < total * (row.amounts[t] + 1)
    {
      DueShare(BaseOf(p)[t], row.weight, total);
    }
  }

  lemma {:induction false} WeightsAddUp(p: Params, hs: seq<Holder>, rows: seq<Allocation>)
    requires InRange(p.epoch) && |rows| == |hs| && forall i :: 0 <= i < |hs| ==> rows[i].weight == WeightOf(p, hs[i])
    ensures SumWeights(rows) == TotalWeight(p, hs)
  {
    if hs != [] {
      WeightsAddUp(p, hs[..|hs| - 1], rows[..|hs| - 1]);
    }
  }

  /** Every Holder has the row it is due, of the sum of the weights of all of them. */
  lemma RowsAreDue(p: Params, hs: seq<Holder>)
    requires InRange(p.epoch) && AllPositive(hs) && Payable(p)
    ensures
      var rows := AllRows(p, hs);
      && |rows| == |hs| && SumWeights(rows) == TotalWeight(p, hs)
      && forall i :: 0 <= i < |hs| ==> IsDue(p, hs[i], rows[i], SumWeights(rows))
  {
    TotalPositive(p, hs);
    var rows, total := AllRows(p, hs), TotalWeight(p, hs);
    WeightsAddUp(p, hs, rows);
    forall i | 0 <= i < |hs| ensures IsDue(p, hs[i], rows[i], total) {
      RowIsDue(p, hs[i], total);
    }
  }

  function AccountOf(a: Allocation): int {
    a.account
  }

  lemma {:induction false} KeptInOrder(rows: seq<Allocation>)
    requires Sorting.StrictlySortedBy(rows, AccountOf)
    ensures Sorting.StrictlySortedBy(Kept(rows), AccountOf)
  {
    if rows != [] {
      var init, last := rows[..|rows| - 1], rows[|rows| - 1];
      KeptInOrder(init);
      KeptElements(init);
      var kept := Kept(init);
      forall i | 0 <= i < |kept| ensures AccountOf(kept[i]) < AccountOf(last) {
        assert kept[i] in init;
        var k :| 0 <= k < |init| && init[k] == kept[i];
        assert rows[k] == kept[i];
      }
    }
  }

  /** rows are what the Holders are due of the sum of all their weights, and kept are those of them paid
      anything at all, by ascending address. */
  ghost predicate AllDue(p: Params, hs: seq<Holder>, rows: seq<Allocation>, kept: seq<Allocation>)
    requires Payable(p)
  {
    && |rows| == |hs|
    && (forall i :: 0 <= i < |hs| ==> IsDue(p, hs[i], rows[i], SumWeights(rows)))
    && (forall a :: a in kept <==> a in rows && exists t :: 0 <= t < 5 && a.amounts[t] != 0)
    && Sorting.StrictlySortedBy(kept, AccountOf)
  }

  lemma KeptAreDue(p: Params, hs: seq<Holder>)
    requires InRange(p.epoch) && AllPositive(hs) && Payable(p)
    requires Sorting.StrictlySortedBy(hs, (h: Holder) => h.account)
    ensures AllDue(p, hs, AllRows(p, hs), Kept(AllRows(p, hs)))
  {
    TotalPositive(p, hs);
    var rows := AllRows(p, hs);
    RowsAreDue(p, hs);
    KeptElements(rows);
    hide IsDue, Kept;
    forall i, j | 0 <= i < j < |rows| ensures AccountOf(rows[i]) < AccountOf(rows[j]) {
      assert hs[i].account < hs[j].account;
    }
    KeptInOrder(rows);
  }

  /** What an allocation to Holders by ascending address is, row by row. */
  lemma AllocationIsDue(o: Outcome, keccak: Keccak, p: Params, hs: seq<Holder>) returns (rows: seq<Allocation>)
    requires InRange(p.epoch) && AllPositive(hs) && IsAllocation(o, keccak, p, hs)
    requires Sorting.StrictlySortedBy(hs, (h: Holder) => h.account)
    ensures AllDue(p, hs, rows, o.allocations) && o.totalWeight == SumWeights(rows)
  {
    TotalPositive(p, hs);
    rows := AllRows(p, hs);
    KeptAreDue(p, hs);
    RowsAreDue(p, hs);
  }

  /** c pays a's account what a says, token by token, for an Epoch. */
  ghost predicate Pays(c: Claim, epoch: nat, a: Allocation) {
    && c.id == Some(epoch) && c.account == a.account
    && c.amounts[0] == Some(a.amounts[0]) && c.amounts[1] == Some(a.amounts[1])
    && c.amounts[2] == Some(a.amounts[2]) && c.amounts[3] == Some(a.amounts[3])
    && c.amounts[4] == Some(a.amounts[4])
  }

  /** The claims of a tree pay what its rows say. */
  lemma ClaimPays(epoch: nat, rows: seq<Allocation>, c: Claim)
    ensures c in ClaimsOf(epoch, rows) <==> exists a :: a in rows && Pays(c, epoch, a)
  {
    var claims := ClaimsOf(epoch, rows);
    forall a ensures Pays(c, epoch, a) <==> c == ClaimOf(epoch, a) {
      PaysIsClaim(epoch, a, c);
    }
    if c in claims {
      var i :| 0 <= i < |claims| && claims[i] == c;
      assert rows[i] in rows;
    }
    if a :| a in rows && Pays(c, epoch, a) {
      var i :| 0 <= i < |rows| && rows[i] == a;
      assert claims[i] == c;
    }
  }

  lemma PaysIsClaim(epoch: nat, a: Allocation, c: Claim)
    ensures Pays(c, epoch, a) <==> c == ClaimOf(epoch, a)
  {
    var d := ClaimOf(epoch, a);
    if Pays(c, epoch, a) {
      assert c.amounts == d.amounts;
    }
  }

  lemma Smaller(total: int, x: int, y: int, u: int, v: int)
    requires total > 0 && total * x <= u <= v < total * (y + 1)
    ensures x <= y
  {
    if x > y {
      Grows(total, y + 1, x);
      assert false;
    }
  }

  /** Of two Holders with one average, neither of them the dev wallet, the one that has held longer is due no
      less of any token. */
  lemma LongerHoldNoLess(p: Params, h: Holder, row: Allocation, k: Holder, other: Allocation, total: int, t: nat)
    requires Payable(p) && total > 0 && t < 5 && h.twab == k.twab >= 0
    requires IsDue(p, h, row, total) && IsDue(p, k, other, total)
    requires h.account != p.devWallet && k.account != p.devWallet && HeldSince(h) <= HeldSince(k)
    ensures row.multBps >= other.multBps && row.amounts[t] >= other.amounts[t]
  {
    var base := p.funded[t].value + p.carryIn[t].value;
    assert AmountOk(p.funded[t]) && AmountOk(p.carryIn[t]);
    assert row.multBps >= other.multBps;
    Grows(h.twab, other.multBps, row.multBps);
    Grows(base, other.weight, row.weight);
    Smaller(total, other.amounts[t], row.amounts[t], base * other.weight, base * row.weight);
  }

  lemma Grows(x: nat, y: int, z: int)
    requires y <= z
    ensures x * y <= x * z
  {
  }

  lemma TwoWeights(rows: seq<Allocation>)
    requires |rows| == 2
    ensures SumWeights(rows) == rows[0].weight + rows[1].weight
  {
    assert rows[..1][..0] == [] && rows[..1][0] == rows[0];
    assert SumWeights(rows[..1]) == SumWeights([]) + rows[0].weight;
  }

  /** Two Holders that average 100 with a 41-day streak share 250 of every token: 100 to the dev wallet, and 150
      to the other. */
  lemma DevWalletIsFlat(p: Params, alice: Holder, dev: Holder, rows: seq<Allocation>)
    requires p.epoch == 1000 && p.devWallet == dev.account != alice.account
    requires p.funded == seq(5, _ => Some(250)) && p.carryIn == seq(5, _ => Some(0))
    requires alice.twab == dev.twab == 100 && alice.firstBuyAt == dev.firstBuyAt == 61_200
    requires alice.lastSellAt == dev.lastSellAt == 0
    requires rows == AllRows(p, [alice, dev])
    ensures rows[0].multBps == 15_000 && rows[1].multBps == 10_000 && SumWeights(rows) == 2_500_000
    ensures forall t :: 0 <= t < 5 ==> rows[0].amounts[t] == 150 && rows[1].amounts[t] == 100
  {
    RowsAreDue(p, [alice, dev]);
    hide AllRows;
    assert IsDue(p, alice, rows[0], SumWeights(rows)) && IsDue(p, dev, rows[1], SumWeights(rows));
    TwoWeights(rows);
  }
}
