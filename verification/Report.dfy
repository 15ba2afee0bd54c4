/** A Result against what the chain holds: the four Assertions, the fifth an Expectation adds, and what
    MATCH means. */
module Report {
  import opened Wrappers
  import opened Merkle
  import opened History
  import opened Alloc
  import opened Carry
  import Binding
  import Tree

  datatype Verdict = Match | Mismatch | Indeterminate

  /** The exit status; the Signer signs on 0 alone. */
  function ExitCode(v: Verdict): nat {
    match v
    case Match => 0
    case Mismatch => 1
    case Indeterminate => 2
  }

  /** A run of several: any INDETERMINATE makes it so, and else any MISMATCH. */
  method Worst(verdicts: seq<Verdict>) returns (worst: Verdict)
    ensures worst == Indeterminate <==> Indeterminate in verdicts
    ensures worst == Match <==> forall v :: v in verdicts ==> v == Match
    ensures forall v :: v in verdicts ==> ExitCode(v) <= ExitCode(worst)
    ensures ExitCode(worst) == 0 <==> worst == Match
  {
    worst := Match;
    var i := 0;
    while i < |verdicts|
      invariant 0 <= i <= |verdicts|
      invariant worst == if Mismatch in verdicts[..i] then Mismatch else Match
      invariant Indeterminate !in verdicts[..i]
    {
      assert verdicts[..i + 1] == verdicts[..i] + [verdicts[i]];
      if verdicts[i] == Indeterminate {
        return Indeterminate;
      }
      if verdicts[i] == Mismatch {
        worst := Mismatch;
      }
      i := i + 1;
    }
    assert verdicts[..i] == verdicts;
    forall v | v in verdicts && v != Mismatch ensures v == Match {
    }
  }

  datatype Status = Pass | Fail | NotApplicable

  datatype Name = OfRoot | OfTotals | OfCap | OfCarryIn | OfExpected

  datatype Assertion = Assertion(name: Name, status: Status)

  datatype Recompute = Recompute(hasRoot: bool, root: Hash, totals: Amounts, expectedCarryIn: Amounts)

  datatype Posted = Posted(hasRoot: bool, skipped: bool, root: Hash, totals: Amounts, funded: Amounts, carryIn: Amounts)

  datatype Assessment = Assessment(verdict: Verdict, assertions: seq<Assertion>)

  predicate AllKnown(a: Amounts) {
    forall t :: 0 <= t < 5 ==> a[t].Some?
  }

  /** No nil, and no difference. */
  predicate Same(a: Amounts, b: Amounts) {
    AllKnown(a) && a == b
  }

  predicate WithinCap(totals: Amounts, funded: Amounts, carryIn: Amounts)
    requires AllKnown(totals) && AllKnown(funded) && AllKnown(carryIn)
  {
    forall t :: 0 <= t < 5 ==> totals[t].value <= funded[t].value + carryIn[t].value
  }

  /** Where two rows of Amounts part, if they do. Nil is never the same, not even as nil. */
  method FirstDifference(a: Amounts, b: Amounts) returns (t: nat, differ: bool)
    ensures differ <==> !Same(a, b)
    ensures differ ==> t < 5 && (a[t].None? || b[t] != a[t]) && forall u :: 0 <= u < t ==> a[u].Some? && a[u] == b[u]
  {
    t := 0;
    while t < 5
      invariant 0 <= t <= 5
      invariant forall u :: 0 <= u < t ==> a[u].Some? && a[u] == b[u]
    {
      if a[t].None? || b[t].None? || a[t].value != b[t].value {
        return t, true;
      }
      t := t + 1;
    }
    differ := false;
  }

  method AssertSame(name: Name, recomputed: Amounts, posted: Amounts) returns (a: Assertion)
    ensures a == Assertion(name, if Same(recomputed, posted) then Pass else Fail)
  {
    var _, differ := FirstDifference(recomputed, posted);
    a := Assertion(name, if differ then Fail else Pass);
  }

  method AssertCapOver(totals: Amounts, funded: Amounts, carryIn: Amounts) returns (a: Assertion)
    requires AllKnown(totals) && AllKnown(funded) && AllKnown(carryIn)
    ensures a == Assertion(OfCap, if WithinCap(totals, funded, carryIn) then Pass else Fail)
    ensures a.status == Fail <==> exists t :: 0 <= t < 5 && totals[t].value > funded[t].value + carryIn[t].value
  {
    var t := 0;
    while t < 5
      invariant 0 <= t <= 5
      invariant forall u :: 0 <= u < t ==> totals[u].value <= funded[u].value + carryIn[u].value
    {
      var available := funded[t].value + carryIn[t].value;
      if totals[t].value > available {
        return Assertion(OfCap, Fail);
      }
      t := t + 1;
    }
    a := Assertion(OfCap, Pass);
  }

  predicate NoneFails(assertions: seq<Assertion>) {
    forall a :: a in assertions ==> a.status != Fail
  }

  method FromAssertions(assertions: seq<Assertion>) returns (r: Assessment)
    ensures r == Assessment(if NoneFails(assertions) then Match else Mismatch, assertions)
  {
    var verdict := Match;
    var i := 0;
    while i < |assertions|
      invariant 0 <= i <= |assertions|
      invariant verdict == if NoneFails(assertions[..i]) then Match else Mismatch
    {
      assert assertions[..i + 1] == assertions[..i] + [assertions[i]];
      if assertions[i].status == Fail {
        verdict := Mismatch;
      }
      i := i + 1;
    }
    assert assertions[..i] == assertions;
    r := Assessment(verdict, assertions);
  }

  /** The amounts the cap adds up are there; a nil among them is Go's panic. Where no cap is looked at, any
      amount may be nil. */
  predicate Summable(recompute: Recompute, posted: Posted, expected: Option<Hash>) {
    && (posted.hasRoot ==> AllKnown(posted.totals) && AllKnown(posted.funded) && AllKnown(posted.carryIn))
    && (!posted.hasRoot && !posted.skipped && expected.Some? && recompute.hasRoot ==>
          AllKnown(recompute.totals) && AllKnown(posted.funded) && AllKnown(recompute.expectedCarryIn))
  }

  /** A line that fails exactly when bad, and passes otherwise. */
  predicate FailsIff(a: Assertion, name: Name, bad: bool) {
    a.name == name && (a.status == Fail <==> bad) && (a.status == Pass <==> !bad)
  }

  predicate Inapplicable(a: Assertion, name: Name) {
    a.name == name && a.status == NotApplicable
  }

  /** The four lines against a posted Root. */
  predicate PostedLines(recompute: Recompute, posted: Posted, lines: seq<Assertion>)
    requires AllKnown(posted.totals) && AllKnown(posted.funded) && AllKnown(posted.carryIn)
  {
    && |lines| >= 4
    && FailsIff(lines[0], OfRoot, !(recompute.hasRoot && recompute.root == posted.root))
    && FailsIff(lines[1], OfTotals, !Same(recompute.totals, posted.totals))
    && FailsIff(lines[2], OfCap, !WithinCap(posted.totals, posted.funded, posted.carryIn))
    && FailsIff(lines[3], OfCarryIn, !Same(recompute.expectedCarryIn, posted.carryIn))
  }

  /** The four lines of an Epoch that nothing is posted for: the first two fail together. */
  predicate RootlessLines(bad: bool, lines: seq<Assertion>) {
    && |lines| >= 4
    && FailsIff(lines[0], OfRoot, bad) && FailsIff(lines[1], OfTotals, bad)
    && Inapplicable(lines[2], OfCap) && Inapplicable(lines[3], OfCarryIn)
  }

  /** The five lines with an Expectation in place of a posted Root. */
  predicate ExpectedLines(recompute: Recompute, posted: Posted, expected: Hash, lines: seq<Assertion>)
    requires recompute.hasRoot ==>
      AllKnown(recompute.totals) && AllKnown(posted.funded) && AllKnown(recompute.expectedCarryIn)
  {
    && |lines| == 5 && Inapplicable(lines[4], OfExpected)
    && FailsIff(lines[0], OfRoot, !(recompute.hasRoot && recompute.root == expected))
    && FailsIff(lines[1], OfTotals, false)
    && (if recompute.hasRoot then
          && FailsIff(lines[2], OfCap, !WithinCap(recompute.totals, posted.funded, recompute.expectedCarryIn))
          && FailsIff(lines[3], OfCarryIn, false)
        else Inapplicable(lines[2], OfCap) && Inapplicable(lines[3], OfCarryIn))
  }

  /** Every line of an Assessment, in order, and whether it passes, fails or does not apply. */
  predicate IsLines(recompute: Recompute, posted: Posted, expected: Option<Hash>, lines: seq<Assertion>)
    requires Summable(recompute, posted, expected)
  {
    if posted.hasRoot then
      && PostedLines(recompute, posted, lines) && |lines| == (if expected.Some? then 5 else 4)
      && (expected.Some? ==> FailsIff(lines[4], OfExpected, expected.value != posted.root))
    else if posted.skipped then
      && RootlessLines(recompute.hasRoot, lines) && |lines| == (if expected.Some? then 5 else 4)
      && (expected.Some? ==> FailsIff(lines[4], OfExpected, true))
    else if expected.Some? then ExpectedLines(recompute, posted, expected.value, lines)
    else if recompute.hasRoot then lines == []
    else RootlessLines(false, lines) && |lines| == 4
  }

  /** What must hold for a MATCH. */
  predicate Matches(recompute: Recompute, posted: Posted, expected: Option<Hash>)
    requires Summable(recompute, posted, expected)
  {
    if posted.hasRoot then
      && recompute.hasRoot && recompute.root == posted.root
      && Same(recompute.totals, posted.totals) && Same(recompute.expectedCarryIn, posted.carryIn)
      && WithinCap(posted.totals, posted.funded, posted.carryIn)
      && (expected.Some? ==> expected.value == posted.root)
    else if posted.skipped then !recompute.hasRoot && expected.None?
    else if expected.Some? then
      && recompute.hasRoot && recompute.root == expected.value
      && WithinCap(recompute.totals, posted.funded, recompute.expectedCarryIn)
    else !recompute.hasRoot
  }

  method AssessPosted(recompute: Recompute, posted: Posted) returns (r: Assessment)
    requires Summable(recompute, posted, None) && posted.hasRoot
    ensures r.verdict == (if Matches(recompute, posted, None) then Match else Mismatch)
    ensures |r.assertions| == 4 && PostedLines(recompute, posted, r.assertions)
    ensures r.verdict == Match <==> NoneFails(r.assertions)
  {
    var root := Assertion(OfRoot, if !recompute.hasRoot || recompute.root != posted.root then Fail else Pass);
    var totals := AssertSame(OfTotals, recompute.totals, posted.totals);
    var cap := AssertCapOver(posted.totals, posted.funded, posted.carryIn);
    var carryIn := AssertSame(OfCarryIn, recompute.expectedCarryIn, posted.carryIn);
    FourFail(root, totals, cap, carryIn);
    r := FromAssertions([root, totals, cap, carryIn]);
  }

  lemma FourFail(a: Assertion, b: Assertion, c: Assertion, d: Assertion)
    ensures NoneFails([a, b, c, d]) <==> a.status != Fail && b.status != Fail && c.status != Fail && d.status != Fail
  {
    assert a in [a, b, c, d] && b in [a, b, c, d] && c in [a, b, c, d] && d in [a, b, c, d];
  }

  lemma OneMoreFails(assertions: seq<Assertion>, a: Assertion)
    ensures NoneFails(assertions + [a]) <==> NoneFails(assertions) && a.status != Fail
  {
    assert a in assertions + [a];
  }

  /** Appends the fifth line and judges again. */
  method WithExpected(assessed: Assessment, expected: Assertion) returns (r: Assessment)
    ensures r.assertions == assessed.assertions + [expected]
    ensures r.verdict == if NoneFails(assessed.assertions) && expected.status != Fail then Match else Mismatch
  {
    OneMoreFails(assessed.assertions, expected);
    r := FromAssertions(assessed.assertions + [expected]);
  }

  method AssessSkipped(recompute: Recompute) returns (r: Assessment)
    ensures r.verdict == if recompute.hasRoot then Mismatch else Match
    ensures |r.assertions| == 4 && RootlessLines(recompute.hasRoot, r.assertions)
    ensures r.verdict == Match <==> NoneFails(r.assertions)
  {
    var status := if recompute.hasRoot then Fail else Pass;
    var root, totals := Assertion(OfRoot, status), Assertion(OfTotals, status);
    FourFail(root, totals, Assertion(OfCap, NotApplicable), Assertion(OfCarryIn, NotApplicable));
    r := FromAssertions([root, totals, Assertion(OfCap, NotApplicable), Assertion(OfCarryIn, NotApplicable)]);
  }

  /** An Expectation stands in for a Root not yet posted. */
  method AssessExpected(recompute: Recompute, posted: Posted, expected: Hash) returns (r: Assessment)
    requires Summable(recompute, posted, Some(expected)) && !posted.hasRoot && !posted.skipped
    ensures r.verdict == if Matches(recompute, posted, Some(expected)) then Match else Mismatch
    ensures ExpectedLines(recompute, posted, expected, r.assertions)
    ensures r.verdict == Match <==> NoneFails(r.assertions)
  {
    var root := Assertion(OfRoot, if !recompute.hasRoot || recompute.root != expected then Fail else Pass);
    var totals := Assertion(OfTotals, Pass);
    var stoodIn := Assertion(OfExpected, NotApplicable);
    var cap, carryIn := Assertion(OfCap, NotApplicable), Assertion(OfCarryIn, NotApplicable);
    if recompute.hasRoot {
      cap := AssertCapOver(recompute.totals, posted.funded, recompute.expectedCarryIn);
      carryIn := Assertion(OfCarryIn, Pass);
    }
    FourFail(root, totals, cap, carryIn);
    OneMoreFails([root, totals, cap, carryIn], stoodIn);
    r := FromAssertions([root, totals, cap, carryIn] + [stoodIn]);
  }

  /** The Verdict on one Epoch: on its posted Root, or on there being none, and on any Expectation besides. */
  method Assess(recompute: Recompute, posted: Posted, expected: Option<Hash>) returns (r: Assessment)
    requires Summable(recompute, posted, expected)
    ensures r.verdict == Match <==> Matches(recompute, posted, expected)
    ensures r.verdict == Indeterminate <==> !posted.hasRoot && !posted.skipped && expected.None? && recompute.hasRoot
    ensures IsLines(recompute, posted, expected, r.assertions)
    ensures r.verdict != Indeterminate ==> (r.verdict == Match <==> NoneFails(r.assertions))
  {
    if posted.hasRoot {
      r := AssessPosted(recompute, posted);
      if expected.Some? {
        OneMoreFails(r.assertions, Assertion(OfExpected, if expected.value != posted.root then Fail else Pass));
        r := WithExpected(r, Assertion(OfExpected, if expected.value != posted.root then Fail else Pass));
      }
    } else if posted.skipped {
      r := AssessSkipped(recompute);
      if expected.Some? {
        OneMoreFails(r.assertions, Assertion(OfExpected, Fail));
        r := WithExpected(r, Assertion(OfExpected, Fail));
      }
    } else if expected.Some? {
      r := AssessExpected(recompute, posted, expected.value);
    } else if recompute.hasRoot {
      r := Assessment(Indeterminate, []);
    } else {
      FourFail(Assertion(OfRoot, Pass), Assertion(OfTotals, Pass), Assertion(OfCap, NotApplicable),
               Assertion(OfCarryIn, NotApplicable));
      r := FromAssertions([Assertion(OfRoot, Pass), Assertion(OfTotals, Pass), Assertion(OfCap, NotApplicable),
                           Assertion(OfCarryIn, NotApplicable)]);
    }
  }

  // ------------------------------------------------------------------ a Result of the Engine

  /** What stands for a Root where there is none. */
  function ZeroHash(): Hash {
    seq(32, _ => 0)
  }

  function RecomputeOf(r: EpochResult): Recompute {
    Recompute(r.root.Some?, r.root.GetOr(ZeroHash()), Known(r.totals), Known(r.expectedCarryIn))
  }

  function PostedOf(r: EpochResult): Posted {
    match r.posted
    case None => Posted(false, r.skipped, ZeroHash(), Known(NOTHING), Known(r.funded), Known(NOTHING))
    case Some(p) => Posted(true, r.skipped, p.root, Known(p.totals), Known(r.funded), Known(p.carryIn))
  }

  lemma KnownSame(a: Five, b: Five)
    ensures Known(a) == Known(b) <==> a == b
  {
    if Known(a) == Known(b) {
      forall t | 0 <= t < 5 ensures a[t] == b[t] {
        assert Known(a)[t] == Known(b)[t];
      }
      assert a == b;
    }
  }

  /** What an Engine allocates is never past the cap of what it was computed over. */
  lemma AlwaysWithinCap(w: World, r: EpochResult)
    requires IsResult(w, r.epoch, r.posted, r.expectedCarryIn, r.carryFrom, r)
    ensures WithinCap(Known(r.totals), Known(r.funded), Known(CarryInOf(r.posted, r.expectedCarryIn)))
  {
    forall t | 0 <= t < 5 ensures r.totals[t] <= r.funded[t] + r.carryIn[t] {
      ResultConserves(w, r.epoch, r.posted, r.expectedCarryIn, r.carryFrom, r, t);
    }
  }

  /** Against a posted Root, what the lines judge of a Result. */
  lemma PostedResult(r: EpochResult, expected: Option<Hash>)
    requires r.posted.Some?
    ensures
      var c, p, q := RecomputeOf(r), PostedOf(r), r.posted.value;
      && p.hasRoot && Summable(c, p, expected)
      && (c.hasRoot && c.root == p.root <==> r.root == Some(q.root))
      && (Same(c.totals, p.totals) <==> r.totals == q.totals)
      && (Same(c.expectedCarryIn, p.carryIn) <==> r.expectedCarryIn == q.carryIn)
      && p.totals == Known(q.totals) && p.funded == Known(r.funded) && p.carryIn == Known(q.carryIn)
  {
    KnownSame(r.totals, r.posted.value.totals);
    KnownSame(r.expectedCarryIn, r.posted.value.carryIn);
  }

  lemma UnpostedResult(r: EpochResult, expected: Option<Hash>)
    requires r.posted.None?
    ensures
      var c, p := RecomputeOf(r), PostedOf(r);
      && !p.hasRoot && p.skipped == r.skipped && c.hasRoot == r.root.Some? && Summable(c, p, expected)
      && (expected.Some? ==> (c.hasRoot && c.root == expected.value <==> r.root == expected))
      && c.totals == Known(r.totals) && p.funded == Known(r.funded) && c.expectedCarryIn == Known(r.expectedCarryIn)
  {
  }

  /** MATCH over a Result of the Engine: with a Root posted, exactly when the recomputed Root, totals
      and expected carryIn are the posted ones; with only an Expectation, exactly when the recomputed
      Root exists and is it. The cap follows in both. */
  method AssessResult(w: World, r: EpochResult, expected: Option<Hash>) returns (a: Assessment)
    requires IsResult(w, r.epoch, r.posted, r.expectedCarryIn, r.carryFrom, r)
    ensures r.posted.Some? ==>
      var p := r.posted.value;
      a.verdict == Match <==>
        && r.root == Some(p.root) && r.totals == p.totals && r.expectedCarryIn == p.carryIn
        && (expected.Some? ==> expected.value == p.root)
    ensures r.posted.None? && r.skipped ==> (a.verdict == Match <==> r.root.None? && expected.None?)
    ensures r.posted.None? && !r.skipped && expected.Some? ==> (a.verdict == Match <==> r.root == expected)
    ensures r.posted.None? && !r.skipped && expected.None? ==>
      a.verdict == if r.root.Some? then Indeterminate else Match
    ensures r.posted.Some? ==>
      var p := r.posted.value;
      && |a.assertions| == (if expected.Some? then 5 else 4)
      && FailsIff(a.assertions[0], OfRoot, r.root != Some(p.root))
      && FailsIff(a.assertions[1], OfTotals, r.totals != p.totals)
      && FailsIff(a.assertions[3], OfCarryIn, r.expectedCarryIn != p.carryIn)
  {
    AlwaysWithinCap(w, r);
    hide IsResult, Known, RecomputeOf, PostedOf, Same, WithinCap, Summable, AllKnown;
    if r.posted.Some? {
      PostedResult(r, expected);
    } else {
      UnpostedResult(r, expected);
    }
    a := Assess(RecomputeOf(r), PostedOf(r), expected);
  }

  /** What a MATCH vouches for. Against a posted Root that matched, a leaf that verifies pays some Holder
      of the Epoch, token by token, exactly what that Holder is due, or two strings that hash alike are at
      hand. */
  lemma MatchBinds(w: World, r: EpochResult, c: Claim, proof: seq<Hash>) 
    returns (p: Params, hs: seq<Holder>, rows: seq<Allocation>)
    requires IsResult(w, r.epoch, r.posted, r.expectedCarryIn, r.carryFrom, r)
    requires r.posted.Some? && r.root == Some(r.posted.value.root)
    requires Encodable(c) && Tree.Fold(w.keccak, LeafHashOf(w.keccak, Encoded(c)), proof) == r.posted.value.root
    ensures Closes(w, r.epoch, hs)
    ensures p == Params(r.epoch, w.devWallet, Known(w.dist.book(r.epoch).funded), Known(r.posted.value.carryIn))
    ensures Payable(p) && AllDue(p, hs, rows, r.allocations)
    ensures
      var claims := ClaimsOf(r.epoch, r.allocations);
      Tree.AllEncodable(claims) &&
      ((exists a :: a in r.allocations && Pays(c, r.epoch, a))
       || Binding.Collides(w.keccak,
            Binding.TreeInputs(w.keccak, Tree.EncodedAll(claims)) + Binding.LeafInputs(w.keccak, [Encoded(c)])
            + Binding.PathInputs(w.keccak, LeafHashOf(w.keccak, Encoded(c)), proof)))
  {
    p, hs, rows := ResultIsDue(w, r.epoch, r.posted, r.expectedCarryIn, r.carryFrom, r);
    ClaimPays(r.epoch, r.allocations, c);
    hide Closes, Encoded, Tree.RootOf, Tree.Fold, AllRows, Kept, Binding.Collides, Binding.TreeInputs,
      Binding.PathInputs, Binding.LeafInputs, LeafHashOf, AllDue, Pays;
    Binding.VerifiedIsClaim(w.keccak, ClaimsOf(r.epoch, r.allocations), c, proof);
  }
}
