/** Which Root stands: the Distributor's book, its RootPosted stream, and the searches over both. */
module Roots {
  import opened Wrappers
  import opened Merkle
  import opened Records
  import opened Alloc
  import Ranges
  import Sorting
  import Tree

  datatype Kind = OfEpoch | OfDraw

  /** Five decoded uint256 words. */
  type Words5 = s: seq<nat> | |s| == 5 witness [0, 0, 0, 0, 0]

  datatype RootPosted = RootPosted(block: uint64, kind: Kind, id: nat, root: Hash, totals: Words5, carryIn: Words5)

  /** The book of one Epoch at the tip. A Void clears rootPostedAt. */
  datatype Entry = Entry(root: Hash, rootPostedAt: int64, skipped: bool, funded: Words5) {
    predicate HasRoot() { rootPostedAt != 0 }
  }

  /** The Distributor read at one tip: what ledger() answers, and its RootPosted logs in block order. */
  datatype Distributor = Distributor(book: nat -> Entry, stream: seq<RootPosted>, deployed: uint64, tip: uint64)

  ghost predicate WellFormed(d: Distributor) {
    && Sorting.SortedBy(d.stream, PostedAt)
    && (forall i :: 0 <= i < |d.stream| ==> d.deployed <= d.stream[i].block <= d.tip)
  }

  // ------------------------------------------------------------------ what stands

  predicate Stands(book: nat -> Entry, p: RootPosted) {
    book(p.id).HasRoot() && book(p.id).root == p.root
  }

  predicate IsFor(p: RootPosted, id: nat) {
    p.kind == OfEpoch && p.id == id
  }

  /** The last log for an Epoch: a re-post after a Void logs again. */
  function LastFor(s: seq<RootPosted>, id: nat): (r: Option<RootPosted>)
    ensures r.Some? ==> IsFor(r.value, id)
  {
    if s == [] then None
    else if IsFor(s[|s| - 1], id) then Some(s[|s| - 1])
    else LastFor(s[..|s| - 1], id)
  }

  /** The standing Root of an Epoch: its last log, while the book still holds that Root. */
  function Standing(book: nat -> Entry, s: seq<RootPosted>, id: nat): Option<RootPosted> {
    var last := LastFor(s, id);
    if last.Some? && Stands(book, last.value) then last else None
  }

  /** s[i] is its Epoch's last log, and stands. */
  ghost predicate StandsAt(book: nat -> Entry, s: seq<RootPosted>, i: nat) {
    && i < |s| && s[i].kind == OfEpoch && Stands(book, s[i])
    && forall k :: i < k < |s| ==> !IsFor(s[k], s[i].id)
  }

  /** Nothing is posted for an Epoch after the standing Root of a later one: Roots are posted in Epoch
      order, and only the latest can be voided. */
  ghost predicate Orderly(book: nat -> Entry, s: seq<RootPosted>) {
    forall i: nat, j: nat :: StandsAt(book, s, i) && i < j < |s| && s[j].kind == OfEpoch ==> s[i].id <= s[j].id
  }

  /** p is the standing Root of the latest Epoch below target that has one. */
  ghost predicate IsPrevious(book: nat -> Entry, s: seq<RootPosted>, target: nat, p: Option<RootPosted>) {
    match p
    case Some(q) =>
      && q.id < target && Standing(book, s, q.id) == p
      && forall id: nat :: q.id < id < target ==> Standing(book, s, id).None?
    case None => forall id: nat :: id < target ==> Standing(book, s, id).None?
  }

  lemma {:induction false} LastForIs(s: seq<RootPosted>, id: nat, k: nat)
    requires k < |s| && IsFor(s[k], id) && forall j :: k < j < |s| ==> !IsFor(s[j], id)
    ensures LastFor(s, id) == Some(s[k])
  {
    if k < |s| - 1 {
      LastForIs(s[..|s| - 1], id, k);
    }
  }

  lemma {:induction false} LastForAt(s: seq<RootPosted>, id: nat) returns (k: nat)
    requires LastFor(s, id).Some?
    ensures k < |s| && s[k] == LastFor(s, id).value && IsFor(s[k], id)
    ensures forall j :: k < j < |s| ==> !IsFor(s[j], id)
  {
    if IsFor(s[|s| - 1], id) {
      k := |s| - 1;
    } else {
      k := LastForAt(s[..|s| - 1], id);
    }
  }

  lemma StandingAt(book: nat -> Entry, s: seq<RootPosted>, id: nat) returns (k: nat)
    requires Standing(book, s, id).Some?
    ensures StandsAt(book, s, k) && s[k].id == id && Standing(book, s, id) == Some(s[k])
  {
    k := LastForAt(s, id);
  }

  /** p is one of the Distributor's Epoch logs, and the book has a Root posted for its Epoch, which is p's. */
  ghost predicate IsOnBook(d: Distributor, p: RootPosted) {
    && p in d.stream && p.kind == OfEpoch
    && d.book(p.id).rootPostedAt != 0 && d.book(p.id).root == p.root
  }

  /** What stands for an Epoch is on the book; with nothing posted on the book, nothing stands. */
  lemma StandingIsOnBook(d: Distributor, id: nat)
    ensures
      var p := Standing(d.book, d.stream, id);
      && (p.Some? ==> IsOnBook(d, p.value) && p.value.id == id)
      && (d.book(id).rootPostedAt == 0 ==> p.None?)
  {
    if Standing(d.book, d.stream, id).Some? {
      var k := StandingAt(d.book, d.stream, id);
      assert d.stream[k] in d.stream;
    }
  }

  // ------------------------------------------------------------------ the book

  /** The Distributor's ledger() reads, each made once. */
  class Book {
    const at: nat -> Entry
    var ledgers: map<nat, Entry>

    ghost predicate Valid()
      reads this
    {
      forall id :: id in ledgers ==> ledgers[id] == at(id)
    }

    constructor (at: nat -> Entry)
      ensures Valid() && this.at == at && ledgers == map[]
    {
      this.at := at;
      ledgers := map[];
    }

    method Ledger(id: nat) returns (e: Entry)
      requires Valid()
      modifies this
      ensures Valid() && e == at(id)
    {
      if id in ledgers {
        return ledgers[id];
      }
      e := at(id);
      ledgers := ledgers[id := e];
    }

    method AddFunding(carry: Five, id: nat) returns (r: Five)
      requires Valid()
      modifies this
      ensures Valid() && forall t :: 0 <= t < 5 ==> r[t] == carry[t] + at(id).funded[t]
    {
      var l := Ledger(id);
      r := AddRow(carry, l.funded);
    }

    method StandsFor(p: RootPosted) returns (ok: bool)
      requires Valid()
      modifies this
      ensures Valid() && ok == Stands(at, p)
    {
      var l := Ledger(p.id);
      ok := l.HasRoot() && l.root == p.root;
    }
  }

  // ------------------------------------------------------------------ ranges of the stream

  function PostedAt(p: RootPosted): int {
    p.block
  }

  /** The logs of blocks lo..hi. */
  function In(s: seq<RootPosted>, lo: int, hi: int): seq<RootPosted> {
    Ranges.In(s, PostedAt, lo, hi)
  }

  /** In a range that reaches to the newest block, the last log for an Epoch is the last one there is,
      unless the range holds none. */
  lemma {:induction false} LastInRange(s: seq<RootPosted>, lo: int, hi: int, id: nat)
    requires forall i :: 0 <= i < |s| ==> s[i].block <= hi
    requires Sorting.SortedBy(s, PostedAt)
    ensures LastFor(In(s, lo, hi), id).Some? ==> LastFor(In(s, lo, hi), id) == LastFor(s, id)
  {
    if s != [] {
      var init, last := s[..|s| - 1], s[|s| - 1];
      LastInRange(init, lo, hi, id);
      if last.block < lo {
        Ranges.InNone(s, PostedAt, lo, hi);
      } else {
        assert In(s, lo, hi) == In(init, lo, hi) + [last];
        assert In(s, lo, hi)[..|In(init, lo, hi)|] == In(init, lo, hi);
      }
    }
  }

  /** The last log for an Epoch is the last one of any range that has it. */
  lemma {:induction false} LastKeptInRange(s: seq<RootPosted>, lo: int, hi: int, id: nat)
    requires LastFor(s, id).Some? && lo <= LastFor(s, id).value.block <= hi
    ensures LastFor(In(s, lo, hi), id) == LastFor(s, id)
  {
    var init, last := s[..|s| - 1], s[|s| - 1];
    var kept := In(init, lo, hi);
    assert (kept + [last])[..|kept|] == kept;
    if !IsFor(last, id) {
      LastKeptInRange(init, lo, hi, id);
      assert lo <= last.block <= hi || In(s, lo, hi) == kept;
    }
  }

  // ------------------------------------------------------------------ standingRoot

  datatype RootError =
    | HeadBehind(id: nat)
    | Contradicted(id: nat, posted: RootPosted)
    | Unserved(id: nat)

  /** e says why the book and the logs of blocks from..through do not agree about id's Root. */
  ghost predicate Explains(d: Distributor, id: nat, from: int, e: RootError) {
    && d.book(id).HasRoot()
    && match e
       case HeadBehind(i) => i == id && from > d.tip
       case Contradicted(i, p) =>
         i == id && LastFor(In(d.stream, from, d.tip), id) == Some(p) && p.root != d.book(id).root
       case Unserved(i) => i == id && LastFor(In(d.stream, from, d.tip), id).None?
  }

  /** The blocks from on hold the log of the Root the book holds, when it holds one. */
  ghost predicate Served(d: Distributor, id: nat, from: int) {
    d.book(id).HasRoot() ==>
      && from <= d.tip
      && var last := LastFor(In(d.stream, from, d.tip), id);
         last.Some? && last.value.root == d.book(id).root
  }

  /** The Epoch's current RootPosted log, sought from a block to the tip. Given, it is the one that
      stands; the book and the logs at odds is an error and never "no Root". */
  method StandingRoot(book: Book, d: Distributor, id: nat, from: nat) returns (r: Result<Option<RootPosted>, RootError>)
    requires book.Valid() && book.at == d.book && WellFormed(d)
    modifies book
    ensures book.Valid()
    ensures r.Success? ==> r.value == Standing(d.book, d.stream, id)
    ensures r.Success? ==> (r.value.Some? <==> d.book(id).rootPostedAt != 0)
    ensures d.book(id).rootPostedAt == 0 ==> r == Success(None)
    ensures r.Success? && r.value.Some? ==> IsOnBook(d, r.value.value) && r.value.value.id == id
    ensures r.Failure? ==> Explains(d, id, from, r.error)
    ensures r.Success? <==> Served(d, id, from)
  {
    StandingIsOnBook(d, id);
    var l := book.Ledger(id);
    if !l.HasRoot() {
      return Success(None);
    }
    if from > d.tip {
      return Failure(HeadBehind(id));
    }
    var roots := In(d.stream, from, d.tip);
    var i := |roots|;
    assert roots[..0] == [] && roots[..|roots|] == roots;
    while i > 0
      invariant 0 <= i <= |roots|
      invariant LastFor(roots, id) == LastFor(roots[..i], id)
    {
      i := i - 1;
      assert roots[..i + 1][..i] == roots[..i];
      if IsFor(roots[i], id) {
        if roots[i].root != l.root {
          return Failure(Contradicted(id, roots[i]));
        }
        LastInRange(d.stream, from, d.tip, id);
        return Success(Some(roots[i]));
      }
    }
    r := Failure(Unserved(id));
  }

  // ------------------------------------------------------------------ the newest-first scan

  /** A search looks at logs of Epochs below its bound, or of any Epoch when it has none. */
  predicate Looks(bound: Option<nat>, p: RootPosted) {
    p.kind == OfEpoch && (bound.Some? ==> p.id < bound.value)
  }

  /** A log that does not stand lowers the bound of a search that has one. */
  function Lowered(bound: Option<nat>, p: RootPosted): Option<nat> {
    if bound.Some? then Some(p.id) else None
  }

  datatype Search = Found(posted: RootPosted) | Sought(bound: Option<nat>)

  /** One scan of s from its newest log back. */
  function ScanBack(book: nat -> Entry, bound: Option<nat>, s: seq<RootPosted>): Search
    decreases |s|
  {
    if s == [] then Sought(bound)
    else
      var init, last := s[..|s| - 1], s[|s| - 1];
      if !Looks(bound, last) then ScanBack(book, bound, init)
      else if Stands(book, last) then Found(last)
      else ScanBack(book, Lowered(bound, last), init)
  }

  function Resumed(book: nat -> Entry, search: Search, s: seq<RootPosted>): Search {
    match search
    case Found(_) => search
    case Sought(bound) => ScanBack(book, bound, s)
  }

  /** A scan of two stretches is a scan of the newer one, resumed over the older. */
  lemma {:induction false} ScanSplit(book: nat -> Entry, bound: Option<nat>, older: seq<RootPosted>,
                                     newer: seq<RootPosted>)
    ensures ScanBack(book, bound, older + newer) == Resumed(book, ScanBack(book, bound, newer), older)
    decreases |newer|
  {
    if newer == [] {
      assert older + newer == older;
    } else {
      var init, last := newer[..|newer| - 1], newer[|newer| - 1];
      assert (older + newer)[..|older + newer| - 1] == older + init;
      ScanSplit(book, bound, older, init);
      ScanSplit(book, Lowered(bound, last), older, init);
    }
  }

  /** No log from the n-th on is for an Epoch below bound, nor for one below target that stands. */
  ghost predicate Passed(book: nat -> Entry, s: seq<RootPosted>, n: nat, bound: nat, target: nat) {
    && n <= |s| && bound <= target
    && (forall j :: n <= j < |s| && s[j].kind == OfEpoch && s[j].id < target ==>
          bound <= s[j].id && Standing(book, s, s[j].id).None?)
    && (bound < target ==> exists j :: n <= j < |s| && IsFor(s[j], bound))
  }

  lemma PassedNone(book: nat -> Entry, s: seq<RootPosted>, bound: nat, target: nat)
    requires Passed(book, s, 0, bound, target)
    ensures IsPrevious(book, s, target, None)
  {
    forall id: nat | id < target ensures Standing(book, s, id).None? {
      if Standing(book, s, id).Some? {
        var k := StandingAt(book, s, id);
      }
    }
  }

  /** A log the search does not look at is for no Epoch that stands below target. */
  lemma PassedOver(book: nat -> Entry, s: seq<RootPosted>, n: nat, bound: nat, target: nat)
    requires Orderly(book, s) && 0 < n && Passed(book, s, n, bound, target) && !Looks(Some(bound), s[n - 1])
    ensures Passed(book, s, n - 1, bound, target)
  {
    var p := s[n - 1];
    if p.kind == OfEpoch && p.id < target && Standing(book, s, p.id).Some? {
      var j :| n <= j < |s| && IsFor(s[j], bound);
      var k := StandingAt(book, s, p.id);
      assert false;
    }
  }

  /** The first log below the bound is its Epoch's last. */
  lemma LookedAt(book: nat -> Entry, s: seq<RootPosted>, n: nat, bound: nat, target: nat)
    requires Orderly(book, s) && 0 < n && Passed(book, s, n, bound, target) && Looks(Some(bound), s[n - 1])
    ensures LastFor(s, s[n - 1].id) == Some(s[n - 1])
    ensures Stands(book, s[n - 1]) ==> IsPrevious(book, s, target, Some(s[n - 1]))
    ensures !Stands(book, s[n - 1]) ==> Passed(book, s, n - 1, s[n - 1].id, target)
  {
    var p := s[n - 1];
    LastForIs(s, p.id, n - 1);
    if Stands(book, p) {
      forall id: nat | p.id < id < target ensures Standing(book, s, id).None? {
        if Standing(book, s, id).Some? {
          var k := StandingAt(book, s, id);
        }
      }
    } else {
      assert IsFor(s[n - 1], p.id);
    }
  }

  lemma {:induction false} ScanFindsPrevious(book: nat -> Entry, s: seq<RootPosted>, n: nat, bound: nat, target: nat)
    requires Orderly(book, s) && Passed(book, s, n, bound, target)
    ensures
      var found := ScanBack(book, Some(bound), s[..n]);
      IsPrevious(book, s, target, if found.Found? then Some(found.posted) else None)
    decreases n
  {
    if n == 0 {
      PassedNone(book, s, bound, target);
    } else {
      assert s[..n][..n - 1] == s[..n - 1];
      if !Looks(Some(bound), s[n - 1]) {
        PassedOver(book, s, n, bound, target);
        ScanFindsPrevious(book, s, n - 1, bound, target);
      } else {
        LookedAt(book, s, n, bound, target);
        if !Stands(book, s[n - 1]) {
          ScanFindsPrevious(book, s, n - 1, s[n - 1].id, target);
        }
      }
    }
  }

  lemma {:induction false} FoundBelow(book: nat -> Entry, bound: nat, s: seq<RootPosted>)
    ensures var found := ScanBack(book, Some(bound), s); found.Found? ==> found.posted.id < bound
    decreases |s|
  {
    if s != [] {
      var init, last := s[..|s| - 1], s[|s| - 1];
      FoundBelow(book, bound, init);
      if Looks(Some(bound), last) {
        FoundBelow(book, last.id, init);
      }
    }
  }

  /** What a scan finds is a log of the stretch for an Epoch, of a Root the book holds. */
  lemma {:induction false} FoundStands(book: nat -> Entry, bound: Option<nat>, s: seq<RootPosted>)
    ensures var found := ScanBack(book, bound, s);
      found.Found? ==> found.posted in s && found.posted.kind == OfEpoch && Stands(book, found.posted)
    decreases |s|
  {
    if s != [] {
      var init, last := s[..|s| - 1], s[|s| - 1];
      FoundStands(book, bound, init);
      FoundStands(book, Lowered(bound, last), init);
      assert s == init + [last];
    }
  }

  /** A standing Root with a lower Epoch's log after it is overlooked. */
  lemma {:induction false} Overlooked(book: nat -> Entry, s: seq<RootPosted>, n: nat, i: nat, j: nat)
    requires StandsAt(book, s, i) && i < j < n <= |s| && s[j].kind == OfEpoch && s[j].id < s[i].id
    ensures var found := ScanBack(book, Some(s[i].id + 1), s[..n]); found.Found? ==> found.posted.id != s[i].id
    decreases n
  {
    assert s[..n][..n - 1] == s[..n - 1];
    if Looks(Some(s[i].id + 1), s[n - 1]) {
      assert !IsFor(s[n - 1], s[i].id);
      FoundBelow(book, s[n - 1].id, s[..n - 1]);
    } else {
      Overlooked(book, s, n - 1, i, j);
    }
  }

  /** What a bounded search of the whole stream finds. */
  function PreviousOf(book: nat -> Entry, s: seq<RootPosted>, target: nat): Option<RootPosted> {
    match ScanBack(book, Some(target), s)
    case Found(p) => Some(p)
    case Sought(_) => None
  }

  lemma PreviousIsFound(book: nat -> Entry, s: seq<RootPosted>, target: nat)
    requires Orderly(book, s)
    ensures IsPrevious(book, s, target, PreviousOf(book, s, target))
  {
    ScanFindsPrevious(book, s, |s|, target, target);
    assert s[..|s|] == s;
  }

  /** The search finds every Epoch's previous standing Root exactly when nothing was posted out of
      order after a Root that stands. */
  lemma PreviousIffOrderly(book: nat -> Entry, s: seq<RootPosted>)
    ensures Orderly(book, s) <==> forall target: nat :: IsPrevious(book, s, target, PreviousOf(book, s, target))
  {
    if Orderly(book, s) {
      forall target: nat ensures IsPrevious(book, s, target, PreviousOf(book, s, target)) {
        PreviousIsFound(book, s, target);
      }
    } else {
      var i: nat, j: nat :| StandsAt(book, s, i) && i < j < |s| && s[j].kind == OfEpoch && s[j].id < s[i].id;
      var target := s[i].id + 1;
      assert s[..|s|] == s;
      Overlooked(book, s, |s|, i, j);
      LastForIs(s, s[i].id, i);
      assert Standing(book, s, s[i].id) == Some(s[i]);
      assert !IsPrevious(book, s, target, PreviousOf(book, s, target));
    }
  }

  // ------------------------------------------------------------------ searching in pages

  const SEARCH_SPAN: nat := 40_000

  /** The pages run back from the tip without gap or overlap. */
  ghost predicate Adjoin(pages: seq<(int, int)>, tip: int, floor: int) {
    forall k :: 0 <= k < |pages| ==>
      && floor <= pages[k].0 <= pages[k].1
      && pages[k].1 == if k == 0 then tip else pages[k - 1].0 - 1
  }

  /** Each page but the last reaches back 40000 blocks, doubled once a page. */
  ghost predicate Doubling(pages: seq<(int, int)>) {
    forall k :: 0 <= k < |pages| - 1 ==> pages[k].1 - pages[k].0 == 40_000 * Tree.Pow2(k)
  }

  lemma DoublingNone()
    ensures Doubling([])
  {
  }

  lemma DoublingMore(pages: seq<(int, int)>, lo: int, hi: int)
    requires Doubling(pages)
    requires pages != [] ==>
      pages[|pages| - 1].1 - pages[|pages| - 1].0 == 40_000 * Tree.Pow2(|pages| - 1)
    ensures Doubling(pages + [(lo, hi)])
  {
  }

  lemma AdjoinMore(pages: seq<(int, int)>, tip: int, floor: int, lo: int, hi: int)
    requires Adjoin(pages, tip, floor) && floor <= lo <= hi
    requires hi == if pages == [] then tip else pages[|pages| - 1].0 - 1
    ensures Adjoin(pages + [(lo, hi)], tip, floor)
  {
  }

  /** One page from its newest log back. */
  method ScanPage(book: Book, roots: seq<RootPosted>, from: Option<nat>) returns (search: Search)
    requires book.Valid()
    modifies book
    ensures book.Valid() && search == ScanBack(book.at, from, roots)
  {
    var bound := from;
    var i := |roots|;
    assert roots[..|roots|] == roots;
    while i > 0
      invariant 0 <= i <= |roots| && book.Valid()
      invariant ScanBack(book.at, from, roots) == ScanBack(book.at, bound, roots[..i])
    {
      i := i - 1;
      assert roots[..i + 1][..i] == roots[..i];
      if Looks(bound, roots[i]) {
        var ok := book.StandsFor(roots[i]);
        if ok {
          return Found(roots[i]);
        }
        bound := Lowered(bound, roots[i]);
      }
    }
    search := Sought(bound);
  }

  lemma {:induction false} Pow2Adds(a: nat, b: nat)
    ensures Tree.Pow2(a + b) == Tree.Pow2(a) * Tree.Pow2(b)
  {
    if a > 0 {
      Pow2Adds(a - 1, b);
    }
  }

  lemma SpanAt47()
    ensures SEARCH_SPAN * Tree.Pow2(47) <= MAX_UINT64 / 2
    ensures SEARCH_SPAN * Tree.Pow2(48) > MAX_UINT64 / 2 + SEARCH_SPAN
  {
    Pow2Adds(8, 8);
    assert Tree.Pow2(16) == 0x1_0000;
    Pow2Adds(16, 16);
    Pow2Adds(32, 8);
    Pow2Adds(40, 7);
    assert Tree.Pow2(47) == 0x8000_0000_0000;
    DoubledPow2(47);
  }

  lemma {:induction false} Pow2Grows(a: nat, b: nat)
    requires a <= b
    ensures Tree.Pow2(a) <= Tree.Pow2(b)
  {
    if a < b {
      Pow2Grows(a, b - 1);
    }
  }

  /** span is the opening span doubled once a page, and the pages so far reach that far back. */
  predicate Widened(pages: nat, span: int, reached: int) {
    span == SEARCH_SPAN * Tree.Pow2(pages) && reached >= span - SEARCH_SPAN
  }

  lemma WidenedIs(pages: nat, span: int, reached: int)
    requires Widened(pages, span, reached)
    ensures span == 40_000 * Tree.Pow2(pages)
  {
  }

  lemma NotWidened(reached: nat)
    ensures Widened(0, SEARCH_SPAN, reached)
  {
  }

  /** A span that has to be widened can be: doubling it stays a uint64. */
  lemma Widens(pages: nat, span: int, reached: int, left: int)
    requires Widened(pages, span, reached) && left > span && reached + left <= MAX_UINT64
    ensures pages < 48 && span <= MAX_UINT64 / 2 && Widened(pages + 1, span * 2, reached + span + 1)
    ensures SEARCH_SPAN * Tree.Pow2(pages) < left
  {
    SpanAt47();
    DoubledPow2(pages);
    hide Tree.Pow2;
    if pages >= 48 {
      Pow2Grows(48, pages);
      assert false;
    }
    Pow2Grows(pages, 47);
  }

  lemma DoubledPow2(n: nat)
    ensures Tree.Pow2(n + 1) == 2 * Tree.Pow2(n)
  {
  }

  lemma StreamIn(d: Distributor)
    requires WellFormed(d)
    ensures In(d.stream, d.deployed, d.tip) == d.stream
    ensures Adjoin([], d.tip, d.deployed)
  {
    Ranges.InAll(d.stream, PostedAt, d.deployed, d.tip);
  }

  lemma ScanOlder(d: Distributor, start: Option<nat>, lo: int, mid: int, hi: int, search: Search)
    requires WellFormed(d) && lo <= mid <= hi + 1
    requires search == ScanBack(d.book, start, In(d.stream, mid, hi))
    ensures ScanBack(d.book, start, In(d.stream, lo, hi)) == Resumed(d.book, search, In(d.stream, lo, mid - 1))
  {
    Ranges.InSplit(d.stream, PostedAt, lo, mid, hi);
    ScanSplit(d.book, start, In(d.stream, lo, mid - 1), In(d.stream, mid, hi));
  }

  /** Below the first block there is nothing to scan. */
  lemma ScanDone(d: Distributor, search: Search)
    requires WellFormed(d) && search.Sought?
    ensures Resumed(d.book, search, In(d.stream, d.deployed, d.deployed - 1)) == search
    ensures d.tip < d.deployed ==> In(d.stream, d.deployed, d.tip) == [] && ScanBack(d.book, search.bound, []) == search
  {
    Ranges.InNone(d.stream, PostedAt, d.deployed, d.deployed - 1);
    if d.tip < d.deployed {
      Ranges.InNone(d.stream, PostedAt, d.deployed, d.tip);
    }
  }

  /** The stream sought from the tip back in widening pages: what one scan of all of it finds, no block
      read twice, no arithmetic outside a uint64, and a number of pages that grows with the logarithm
      of the chain and never passes 49. */
  method SearchBack(book: Book, d: Distributor, start: Option<nat>)
    returns (search: Search, ghost pages: seq<(int, int)>)
    requires book.Valid() && book.at == d.book && WellFormed(d)
    modifies book
    ensures book.Valid()
    ensures search == ScanBack(d.book, start, d.stream)
    ensures Adjoin(pages, d.tip, d.deployed) && Doubling(pages)
    ensures |pages| <= 49 && (|pages| >= 2 ==> SEARCH_SPAN * Tree.Pow2(|pages| - 2) <= d.tip - d.deployed)
  {
    hide In, ScanBack, Tree.Pow2, Widened, Adjoin, Doubling, WellFormed;
    var floor := d.deployed;
    var span: uint64 := SEARCH_SPAN;
    var hi := d.tip;
    search, pages := Sought(start), [];
    StreamIn(d);
    NotWidened(0);
    DoublingNone();
    ghost var count: nat := 0;
    while hi >= floor
      invariant book.Valid() && (hi == d.tip || floor <= hi < d.tip)
      invariant search.Sought?
      invariant ScanBack(d.book, start, d.stream) == ScanBack(d.book, search.bound, In(d.stream, floor, hi))
      invariant Adjoin(pages, d.tip, floor) && hi == if pages == [] then d.tip else pages[|pages| - 1].0 - 1
      invariant Doubling(pages)
      invariant pages != [] ==>
        pages[|pages| - 1].1 - pages[|pages| - 1].0 == 40_000 * Tree.Pow2(|pages| - 1)
      invariant count == |pages| <= 48 && Widened(count, span, d.tip - hi)
      invariant count >= 1 ==> SEARCH_SPAN * Tree.Pow2(count - 1) <= d.tip - floor
      decreases hi
    {
      var lo := floor;
      if hi - floor > span {
        lo := hi - span;
      }
      AdjoinMore(pages, d.tip, floor, lo, hi);
      DoublingMore(pages, lo, hi);
      WidenedIs(count, span, d.tip - hi);
      pages := pages + [(lo, hi)];
      var bound := search.bound;
      search := ScanPage(book, In(d.stream, lo, hi), bound);
      ScanOlder(d, bound, floor, lo, hi, search);
      if search.Found? {
        return;
      }
      if lo == floor {
        ScanDone(d, search);
        break;
      }
      Widens(count, span, d.tip - hi, hi - floor);
      count := count + 1;
      hi := lo - 1;
      if span <= MAX_UINT64 / 2 {
        span := span * 2;
      }
    }
    if hi < floor {
      ScanDone(d, search);
    }
  }

  /** The standing Root before target, sought back from the tip. */
  method PreviousRoot(book: Book, d: Distributor, target: nat) returns (p: Option<RootPosted>)
    requires book.Valid() && book.at == d.book && WellFormed(d)
    modifies book
    ensures book.Valid()
    ensures p == PreviousOf(d.book, d.stream, target)
    ensures p.Some? ==> IsOnBook(d, p.value) && p.value.id < target
  {
    FoundStands(d.book, Some(target), d.stream);
    FoundBelow(d.book, target, d.stream);
    var search, _ := SearchBack(book, d, Some(target));
    p := if search.Found? then Some(search.posted) else None;
  }

  // ------------------------------------------------------------------ the newest Root

  /** No Root logged from the k-th on stands. */
  ghost predicate NoneStandsFrom(book: nat -> Entry, s: seq<RootPosted>, k: nat) {
    forall j :: k <= j < |s| && s[j].kind == OfEpoch ==> !Stands(book, s[j])
  }

  /** Without a bound, the scan finds the newest log that stands. */
  lemma {:induction false} ScanFindsNewest(book: nat -> Entry, s: seq<RootPosted>) returns (k: nat)
    ensures k <= |s| && NoneStandsFrom(book, s, k)
    ensures k == 0 ==> ScanBack(book, None, s).Sought?
    ensures k > 0 ==> ScanBack(book, None, s) == Found(s[k - 1]) && s[k - 1].kind == OfEpoch && Stands(book, s[k - 1])
    decreases |s|
  {
    if s == [] {
      k := 0;
    } else {
      var init, last := s[..|s| - 1], s[|s| - 1];
      if Looks(None, last) && Stands(book, last) {
        k := |s|;
      } else {
        k := ScanFindsNewest(book, init);
      }
    }
  }

  /** The Epoch of the newest Root that stands. */
  method Latest(book: Book, d: Distributor) returns (id: Option<nat>)
    requires book.Valid() && book.at == d.book && WellFormed(d)
    modifies book
    ensures book.Valid()
    ensures id.None? <==> NoneStandsFrom(d.book, d.stream, 0)
    ensures id.Some? ==> exists k: nat ::
      && k < |d.stream| && IsFor(d.stream[k], id.value) && Stands(d.book, d.stream[k])
      && NoneStandsFrom(d.book, d.stream, k + 1)
  {
    var search, _ := SearchBack(book, d, None);
    ghost var k := ScanFindsNewest(d.book, d.stream);
    id := if search.Found? then Some(search.posted.id) else None;
    if k > 0 {
      assert IsFor(d.stream[k - 1], d.stream[k - 1].id) && NoneStandsFrom(d.book, d.stream, k - 1 + 1);
    }
  }

  // ------------------------------------------------------------------ all of them

  lemma StandingStep(book: nat -> Entry, s: seq<RootPosted>, i: nat, id: nat)
    requires i < |s|
    ensures Standing(book, s[..i + 1], id) ==
      if !IsFor(s[i], id) then Standing(book, s[..i], id)
      else if Stands(book, s[i]) then Some(s[i])
      else None
  {
    assert s[..i + 1][..i] == s[..i];
  }

  /** out holds the standing Roots of the Epochs first..last - 1, by Epoch. */
  ghost predicate HoldsStanding(out: map<nat, RootPosted>, book: nat -> Entry, s: seq<RootPosted>,
                                first: nat, last: nat)
  {
    forall id: nat ::
      && (id in out <==> first <= id < last && Standing(book, s, id).Some?)
      && (id in out ==> Some(out[id]) == Standing(book, s, id))
  }

  lemma NoneStanding(book: nat -> Entry, first: nat, last: nat)
    ensures HoldsStanding(map[], book, [], first, last)
  {
  }

  /** The next log replaces what is held for its Epoch, or removes it. */
  lemma HoldsOneMore(out: map<nat, RootPosted>, book: nat -> Entry, s: seq<RootPosted>, i: nat, first: nat, last: nat)
    requires i < |s| && HoldsStanding(out, book, s[..i], first, last)
    ensures
      var p := s[i];
      HoldsStanding(
        if !(p.kind == OfEpoch && first <= p.id < last) then out
        else if Stands(book, p) then out[p.id := p] else out - {p.id},
        book, s[..i + 1], first, last)
  {
    hide Stands, Standing;
    var p := s[i];
    var next :=
      if !(p.kind == OfEpoch && first <= p.id < last) then out
      else if Stands(book, p) then out[p.id := p] else out - {p.id};
    forall id: nat
      ensures id in next <==> first <= id < last && Standing(book, s[..i + 1], id).Some?
      ensures id in next ==> Some(next[id]) == Standing(book, s[..i + 1], id)
    {
      StandingStep(book, s, i, id);
      assert id in out <==> first <= id < last && Standing(book, s[..i], id).Some?;
    }
  }

  /** Every standing Root of a range of Epochs, from the whole stream in block order: a re-post
      replaces the log of the Root that was voided, and one that does not stand removes it. */
  method StandingRoots(book: Book, d: Distributor, first: nat, last: nat) returns (out: map<nat, RootPosted>)
    requires book.Valid() && book.at == d.book && WellFormed(d)
    modifies book
    ensures book.Valid()
    ensures HoldsStanding(out, d.book, d.stream, first, last)
    ensures forall id :: id in out ==> IsOnBook(d, out[id]) && out[id].id == id
  {
    Ranges.InAll(d.stream, PostedAt, d.deployed, d.tip);
    var roots := In(d.stream, d.deployed, d.tip);
    hide Standing, LastFor, In, Stands, WellFormed, HoldsStanding;
    out := map[];
    NoneStanding(d.book, first, last);
    var i := 0;
    while i < |roots|
      invariant 0 <= i <= |roots| && book.Valid()
      invariant HoldsStanding(out, d.book, roots[..i], first, last)
    {
      var posted := roots[i];
      HoldsOneMore(out, d.book, roots, i, first, last);
      if posted.kind == OfEpoch && first <= posted.id < last {
        var ok := book.StandsFor(posted);
        out := if ok then out[posted.id := posted] else out - {posted.id};
      }
      i := i + 1;
    }
    assert roots[..i] == d.stream;
    HeldOnBook(out, d, first, last);
  }

  lemma HeldOnBook(out: map<nat, RootPosted>, d: Distributor, first: nat, last: nat)
    requires HoldsStanding(out, d.book, d.stream, first, last)
    ensures forall id :: id in out ==> IsOnBook(d, out[id]) && out[id].id == id
  {
    hide Standing, IsOnBook;
    forall id | id in out ensures IsOnBook(d, out[id]) && out[id].id == id {
      StandingIsOnBook(d, id);
    }
  }
}
