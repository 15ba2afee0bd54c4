/** Reads of the chain: one answer from several endpoints, and a block range paged under an unknown cap. */
module Reader {
  import opened Wrappers
  import opened Bytes
  import opened Merkle
  import opened History
  import opened Records
  import opened Logs
  import Ranges
  import Sorting
  import Tree

  // ------------------------------------------------------------------ one answer

  datatype CrossError<E> = Failed(endpoint: nat, error: E) | Disagreement(a: nat, b: nat)

  /** Every endpoint answers once, in some order. */
  ghost predicate IsArrival(arrival: seq<nat>, n: nat) {
    forall i: nat :: i in arrival <==> i < n
  }

  ghost predicate AllAnswer<T, E>(replies: seq<Result<T, E>>) {
    forall i :: 0 <= i < |replies| ==> replies[i].Success?
  }

  ghost predicate Comparable<T, E>(replies: seq<Result<T, E>>, canonical: T --> seq<byte>) {
    forall i :: 0 <= i < |replies| && replies[i].Success? ==> canonical.requires(replies[i].value)
  }

  ghost predicate AllAgree<T, E>(replies: seq<Result<T, E>>, canonical: T --> seq<byte>)
    requires AllAnswer(replies) && Comparable(replies, canonical)
  {
    forall i :: 0 <= i < |replies| ==> canonical(replies[i].value) == canonical(replies[0].value)
  }

  /** i is the first to fail, in the order the answers arrive. */
  ghost predicate FirstToFail<T, E>(replies: seq<Result<T, E>>, arrival: seq<nat>, i: nat)
    requires IsArrival(arrival, |replies|)
  {
    exists k :: 0 <= k < |arrival| && arrival[k] == i && i < |replies| && replies[i].Failure?
      && forall j :: 0 <= j < k ==> arrival[j] < |replies| && replies[arrival[j]].Success?
  }

  /** r is what replies come to: the answer every endpoint gave, or the first failure to arrive, or one that
      differs. */
  ghost predicate IsChecked<T, E>(replies: seq<Result<T, E>>, arrival: seq<nat>, canonical: T --> seq<byte>,
                                  r: Result<T, CrossError<E>>)
    requires replies != [] && IsArrival(arrival, |replies|) && Comparable(replies, canonical)
  {
    match r
    case Success(x) => AllAnswer(replies) && AllAgree(replies, canonical) && x == replies[0].value
    case Failure(Failed(e, x)) => FirstToFail(replies, arrival, e) && replies[e] == Failure(x)
    case Failure(Disagreement(a, b)) =>
      && AllAnswer(replies) && a == 0 < b < |replies| && canonical(replies[0].value) != canonical(replies[b].value)
  }

  /** The answer every endpoint gave. The first to fail, in the order they answer, fails the read. */
  method CrossCheck<T, E>(replies: seq<Result<T, E>>, arrival: seq<nat>, canonical: T --> seq<byte>)
    returns (r: Result<T, CrossError<E>>)
    requires replies != [] && IsArrival(arrival, |replies|) && Comparable(replies, canonical)
    ensures IsChecked(replies, arrival, canonical, r)
    ensures r.Success? <==> AllAnswer(replies) && AllAgree(replies, canonical)
  {
    var k := 0;
    while k < |arrival|
      invariant 0 <= k <= |arrival|
      invariant forall i :: 0 <= i < k ==> arrival[i] < |replies| && replies[arrival[i]].Success?
    {
      assert arrival[k] in arrival;
      if replies[arrival[k]].Failure? {
        return Failure(Failed(arrival[k], replies[arrival[k]].error));
      }
      k := k + 1;
    }
    forall i | 0 <= i < |replies| ensures replies[i].Success? {
      assert i in arrival;
    }
    var first := canonical(replies[0].value);
    var i := 1;
    while i < |replies|
      invariant 1 <= i <= |replies|
      invariant forall j :: 0 <= j < i ==> canonical(replies[j].value) == first
    {
      if canonical(replies[i].value) != first {
        return Failure(Disagreement(0, i));
      }
      i := i + 1;
    }
    r := Success(replies[0].value);
  }

  // ------------------------------------------------------------------ one page

  /** What was asked for: one contract's logs of one kind. */
  datatype Filter = Filter(address: Address, topic0: Hash)

  datatype Complaint = TooBig | Unavailable | Stray(index: nat)

  /** The endpoints. Each may answer differently each time it is asked, and the answers may arrive in
      a different order each time. */
  datatype Net = Net(
    endpoints: nat,
    reply: (nat, nat, nat, nat) -> Result<seq<EventLog>, Complaint>,
    arrival: nat -> seq<nat>)

  ghost predicate Sane(net: Net) {
    && net.endpoints > 0
    && (forall k: nat :: IsArrival(net.arrival(k), net.endpoints))
    && (forall e: nat, k: nat, lo: nat, hi: nat :: net.reply(e, k, lo, hi).Success? ==>
          AllCountable(net.reply(e, k, lo, hi).value))
  }

  predicate Asked(f: Filter, l: EventLog, lo: int, hi: int) {
    && l.address == f.address && l.topics != [] && l.topics[0] == f.topic0
    && lo <= l.blockNumber <= hi
  }

  ghost predicate AllAsked(f: Filter, page: seq<EventLog>, lo: nat, hi: nat) {
    forall i :: 0 <= i < |page| ==> Asked(f, page[i], lo, hi)
  }

  /** One endpoint's answer, every log of it checked against the filter and the range, in order. */
  method GetLogs(f: Filter, wire: Result<seq<EventLog>, Complaint>, lo: nat, hi: nat)
    returns (r: Result<seq<EventLog>, Complaint>)
    ensures r.Success? <==> wire.Success? && AllAsked(f, wire.value, lo, hi)
    ensures r.Success? ==> r.value == SortLogs(wire.value) && AllAsked(f, r.value, lo, hi)
    ensures wire.Failure? ==> r == wire
  {
    if wire.Failure? {
      return wire;
    }
    var page := wire.value;
    var i := 0;
    while i < |page|
      invariant 0 <= i <= |page|
      invariant AllAsked(f, page[..i], lo, hi)
    {
      if !Asked(f, page[i], lo, hi) {
        return Failure(Stray(i));
      }
      assert page[..i + 1] == page[..i] + [page[i]];
      i := i + 1;
    }
    assert page[..i] == page;
    r := Success(SortLogs(page));
    SortedAsked(f, page, lo, hi);
  }

  lemma SortedAsked(f: Filter, page: seq<EventLog>, lo: nat, hi: nat)
    requires AllAsked(f, page, lo, hi)
    ensures AllAsked(f, SortLogs(page), lo, hi)
  {
    Sorting.SortKeepsElements(page, Site);
    forall i | 0 <= i < |page| ensures Asked(f, SortLogs(page)[i], lo, hi) {
      assert SortLogs(page)[i] in page;
    }
  }

  function BlockNumber(l: EventLog): int {
    l.blockNumber
  }

  /** The logs of blocks lo..hi. */
  function InBlocks(truth: seq<EventLog>, lo: int, hi: int): seq<EventLog> {
    Ranges.In(truth, BlockNumber, lo, hi)
  }

  /** Two adjoining pages are one page. */
  lemma PagesJoin(truth: seq<EventLog>, lo: int, mid: int, hi: int)
    requires Sorting.StrictlySortedBy(truth, Site) && lo <= mid + 1 <= hi + 1
    ensures InBlocks(truth, lo, hi) == InBlocks(truth, lo, mid) + InBlocks(truth, mid + 1, hi)
  {
    forall i, j | 0 <= i < j < |truth| ensures BlockNumber(truth[i]) <= BlockNumber(truth[j]) {
      SiteIsPair(truth[i], truth[j]);
    }
    Ranges.InSplit(truth, BlockNumber, lo, mid + 1, hi);
  }

  /** What the chain holds for a filter, in (block, index) order. */
  ghost predicate IsTruth(truth: seq<EventLog>, f: Filter) {
    && Sorting.StrictlySortedBy(truth, Site)
    && forall l :: l in truth ==> l.address == f.address && l.topics != [] && l.topics[0] == f.topic0
  }

  /** Whenever endpoint e answers at all, it gives the chain's logs of the range, in any order. */
  ghost predicate Honest(net: Net, e: nat, truth: seq<EventLog>) {
    && e < net.endpoints
    && forall k: nat, lo: nat, hi: nat :: net.reply(e, k, lo, hi).Success? ==>
         multiset(net.reply(e, k, lo, hi).value) == multiset(InBlocks(truth, lo, hi))
  }

  /** An honest endpoint that refuses nothing but a range too big, and never a single block. */
  ghost predicate Willing(net: Net, e: nat, truth: seq<EventLog>) {
    && Honest(net, e, truth)
    && forall k: nat, lo: nat, hi: nat :: net.reply(e, k, lo, hi).Failure? ==>
         net.reply(e, k, lo, hi).error.TooBig? && lo != hi
  }

  ghost predicate AllWilling(net: Net, truth: seq<EventLog>) {
    forall e: nat :: e < net.endpoints ==> Willing(net, e, truth)
  }

  lemma OrderedIsInjective(page: seq<EventLog>)
    requires Sorting.StrictlySortedBy(page, Site)
    ensures Sorting.InjectiveOn(page, Site)
  {
    forall x, y | x in page && y in page && Site(x) == Site(y) ensures x == y {
      var i :| 0 <= i < |page| && page[i] == x;
      var j :| 0 <= j < |page| && page[j] == y;
      assert i == j;
    }
  }

  /** Sorted, an honest answer is the chain's page. */
  lemma HonestPage(page: seq<EventLog>, f: Filter, truth: seq<EventLog>, lo: nat, hi: nat)
    requires IsTruth(truth, f) && multiset(page) == multiset(InBlocks(truth, lo, hi))
    ensures SortLogs(page) == InBlocks(truth, lo, hi)
    ensures AllAsked(f, page, lo, hi)
  {
    var there := InBlocks(truth, lo, hi);
    Ranges.InOrdered(truth, BlockNumber, Site, lo, hi);
    Ranges.InElements(truth, BlockNumber, lo, hi);
    OrderedIsInjective(there);
    Sorting.SortPermutes(page, Site);
    Sorting.SortedIsUnique(there, SortLogs(page), Site);
    Sorting.SameElements(page, there);
    forall i | 0 <= i < |page| ensures Asked(f, page[i], lo, hi) {
      assert page[i] in there;
    }
  }

  ghost predicate SomeHonest(net: Net, truth: seq<EventLog>) {
    exists e: nat :: Honest(net, e, truth)
  }

  predicate IsTooBig(e: CrossError<Complaint>) {
    e.Failed? && e.error.TooBig?
  }

  lemma SortedCountable(page: seq<EventLog>)
    requires AllCountable(page)
    ensures AllCountable(SortLogs(page))
  {
    Sorting.SortKeepsElements(page, Site);
  }

  /** Endpoint e's checked answer. */
  ghost predicate IsReply(net: Net, f: Filter, e: nat, k: nat, lo: nat, hi: nat,
                          got: Result<seq<EventLog>, Complaint>)
  {
    var wire := net.reply(e, k, lo, hi);
    && (got.Success? <==> wire.Success? && AllAsked(f, wire.value, lo, hi))
    && (got.Success? ==>
          got.value == SortLogs(wire.value) && AllAsked(f, got.value, lo, hi) && AllCountable(got.value))
    && (wire.Failure? ==> got == wire)
  }

  lemma HonestReply(net: Net, f: Filter, e: nat, k: nat, lo: nat, hi: nat, got: Result<seq<EventLog>, Complaint>,
                    truth: seq<EventLog>)
    requires IsTruth(truth, f) && Honest(net, e, truth) && IsReply(net, f, e, k, lo, hi, got)
    ensures got.Success? <==> net.reply(e, k, lo, hi).Success?
    ensures got.Success? ==> got.value == InBlocks(truth, lo, hi)
    ensures Willing(net, e, truth) && got.Failure? ==> got.error.TooBig? && lo != hi
  {
    if net.reply(e, k, lo, hi).Success? {
      HonestPage(net.reply(e, k, lo, hi).value, f, truth, lo, hi);
    }
  }

  method AskEach(net: Net, f: Filter, k: nat, lo: nat, hi: nat) returns (replies: seq<Result<seq<EventLog>, Complaint>>)
    requires Sane(net)
    ensures |replies| == net.endpoints
    ensures forall e :: 0 <= e < |replies| ==> IsReply(net, f, e, k, lo, hi, replies[e])
  {
    replies := [];
    var e := 0;
    while e < net.endpoints
      invariant 0 <= e <= net.endpoints && |replies| == e
      invariant forall i :: 0 <= i < e ==> IsReply(net, f, i, k, lo, hi, replies[i])
    {
      var wire := net.reply(e, k, lo, hi);
      var got := GetLogs(f, wire, lo, hi);
      if got.Success? {
        SortedCountable(wire.value);
      }
      replies := replies + [got];
      e := e + 1;
    }
  }

  /** What a page of lo..hi asked of every endpoint comes to. */
  ghost predicate IsPage(net: Net, f: Filter, r: Result<seq<EventLog>, CrossError<Complaint>>, lo: nat, hi: nat,
                         truth: seq<EventLog>) {
    && (r.Success? ==> AllAsked(f, r.value, lo, hi) && Sorting.SortedBy(r.value, Site))
    && (r.Success? && SomeHonest(net, truth) ==> r.value == InBlocks(truth, lo, hi))
    && (AllWilling(net, truth) && r.Failure? ==> IsTooBig(r.error) && lo != hi)
  }

  /** Every endpoint answered, and with one set of logs. */
  ghost predicate SameSet(net: Net, k: nat, lo: nat, hi: nat, page: seq<EventLog>) {
    forall e: nat :: e < net.endpoints ==>
      net.reply(e, k, lo, hi).Success? && multiset(net.reply(e, k, lo, hi).value) == multiset(page)
  }

  /** Every endpoint answers with page, in some order, all of it asked for and no two logs in one place. */
  ghost predicate OneSet(net: Net, f: Filter, k: nat, lo: nat, hi: nat, page: seq<EventLog>) {
    SameSet(net, k, lo, hi, page) && AllAsked(f, page, lo, hi) && Sorting.DistinctBy(page, Site)
  }

  /** page is what the answers of every endpoint to the k-th request come to. */
  ghost predicate IsAnswer(net: Net, f: Filter, k: nat, lo: nat, hi: nat,
                           page: Result<seq<EventLog>, CrossError<Complaint>>)
  {
    exists replies: seq<Result<seq<EventLog>, Complaint>> ::
      && |replies| == net.endpoints > 0 && IsArrival(net.arrival(k), |replies|)
      && (forall e :: 0 <= e < |replies| ==> IsReply(net, f, e, k, lo, hi, replies[e]))
      && Comparable(replies, Canonical) && IsChecked(replies, net.arrival(k), Canonical, page)
  }

  lemma OneSetReply(net: Net, f: Filter, e: nat, k: nat, lo: nat, hi: nat, got: Result<seq<EventLog>, Complaint>,
                    page: seq<EventLog>)
    requires OneSet(net, f, k, lo, hi, page) && e < net.endpoints && IsReply(net, f, e, k, lo, hi, got)
    ensures got.Success? && got.value == SortLogs(page)
  {
    var wire := net.reply(e, k, lo, hi).value;
    Sorting.SameElements(wire, page);
    forall i | 0 <= i < |wire| ensures Asked(f, wire[i], lo, hi) {
      assert wire[i] in page;
    }
    OrderDoesNotMatter(page, wire);
  }

  /** One page: what every endpoint says, and so what any honest one among them says. */
  method Page(net: Net, f: Filter, k: nat, lo: nat, hi: nat, ghost truth: seq<EventLog>)
    returns (r: Result<seq<EventLog>, CrossError<Complaint>>)
    requires Sane(net) && IsTruth(truth, f)
    ensures IsPage(net, f, r, lo, hi, truth) && IsAnswer(net, f, k, lo, hi, r)
    ensures r.Success? ==> SameSet(net, k, lo, hi, r.value)
    ensures (exists page :: OneSet(net, f, k, lo, hi, page)) ==> r.Success?
  {
    hide SameSet, OneSet;
    var replies := AskEach(net, f, k, lo, hi);
    r := CrossCheck(replies, net.arrival(k), Canonical);
    if r.Success? {
      forall e | 0 <= e < |replies| ensures replies[e].value == replies[0].value {
        CanonicalInjective(replies[e].value, replies[0].value);
      }
      AllGave(net, f, k, lo, hi, replies, r.value);
      if e: nat :| Honest(net, e, truth) {
        HonestReply(net, f, e, k, lo, hi, replies[e], truth);
      }
    } else if AllWilling(net, truth) {
      forall e | 0 <= e < |replies|
        ensures replies[e].Success? ==> replies[e].value == InBlocks(truth, lo, hi)
        ensures replies[e].Failure? ==> replies[e].error.TooBig? && lo != hi
      {
        assert Willing(net, e, truth);
        HonestReply(net, f, e, k, lo, hi, replies[e], truth);
      }
    }
    if page :| OneSet(net, f, k, lo, hi, page) {
      forall e | 0 <= e < |replies| ensures replies[e].Success? && replies[e].value == SortLogs(page) {
        OneSetReply(net, f, e, k, lo, hi, replies[e], page);
      }
    }
  }

  lemma AllGave(net: Net, f: Filter, k: nat, lo: nat, hi: nat, replies: seq<Result<seq<EventLog>, Complaint>>,
                page: seq<EventLog>)
    requires |replies| == net.endpoints
    requires forall e :: 0 <= e < |replies| ==> IsReply(net, f, e, k, lo, hi, replies[e])
    requires forall e :: 0 <= e < |replies| ==> replies[e] == Success(page)
    ensures SameSet(net, k, lo, hi, page)
  {
    forall e: nat | e < net.endpoints
      ensures net.reply(e, k, lo, hi).Success? && multiset(net.reply(e, k, lo, hi).value) == multiset(page)
    {
      assert IsReply(net, f, e, k, lo, hi, replies[e]);
      Sorting.SortPermutes(net.reply(e, k, lo, hi).value, Site);
    }
  }

  // ------------------------------------------------------------------ every page

  datatype LogsError = Backwards | OfPage(error: CrossError<Complaint>)

  /** A page asked for, the span it was cut to, and why it did not come, if it did not. */
  datatype Request = Request(lo: nat, hi: nat, span: nat, error: Option<CrossError<Complaint>>)

  /** What came of a page. */
  function ErrorOf(page: Result<seq<EventLog>, CrossError<Complaint>>): Option<CrossError<Complaint>> {
    if page.Success? then None else Some(page.error)
  }

  /** The k-th request came to a page, or failed with error, once every endpoint had been asked. */
  ghost predicate CameTo(net: Net, f: Filter, k: nat, lo: nat, hi: nat, error: Option<CrossError<Complaint>>) {
    exists page :: IsAnswer(net, f, k, lo, hi, page) && error == ErrorOf(page)
  }

  /** The requests made stay inside from..to and ask for no more than span blocks. */
  ghost predicate Within(asked: seq<Request>, from: int, to: int, span: int) {
    forall i :: 0 <= i < |asked| ==> from <= asked[i].lo <= asked[i].hi <= to && asked[i].hi - asked[i].lo < span
  }

  /** The k-th request: a page of the span it is cut to, asked of every endpoint. */
  ghost predicate IsRequest(net: Net, f: Filter, k: nat, q: Request, from: int, to: int, opening: int) {
    && from <= q.lo <= to && 1 <= q.span <= opening
    && q.hi == Min(q.lo + q.span - 1, to)
    && CameTo(net, f, k, q.lo, q.hi, q.error)
  }

  /** Where the read stands after a request: past a page that came, at the same span; and on the same block with
      half the span when it was too much to ask for. Nothing else is asked again. */
  ghost predicate GoesOn(q: Request, to: int, start: int, span: int) {
    if q.error.None? then q.hi < to && start == q.hi + 1 && span == q.span
    else IsTooBig(q.error.value) && q.span > 1 && start == q.lo && span == q.span / 2
  }

  /** The requests made from the opening one on, and where the read stands after them. */
  ghost predicate IsTrace(net: Net, f: Filter, asked: seq<Request>, from: int, to: int, opening: int,
                          start: int, span: int)
    decreases |asked|
  {
    if asked == [] then start == from && span == opening
    else
      var init, q := asked[..|asked| - 1], asked[|asked| - 1];
      && IsRequest(net, f, |init|, q, from, to, opening)
      && IsTrace(net, f, init, from, to, opening, q.lo, q.span) && GoesOn(q, to, start, span)
  }

  /** A read ends when a page reaches its end, or with the very failure of a page that was not too big or could be
      cut no further. */
  ghost predicate Ends(q: Request, to: int, r: Result<seq<EventLog>, LogsError>) {
    if q.error.None? then q.hi == to && r.Success?
    else r == Failure(OfPage(q.error.value)) && (!IsTooBig(q.error.value) || q.span == 1)
  }

  /** What a read returns is what its last request ends it with. */
  ghost predicate EndsWith(net: Net, f: Filter, asked: seq<Request>, from: int, to: int, opening: int,
                           r: Result<seq<EventLog>, LogsError>)
  {
    asked != [] &&
    var init, q := asked[..|asked| - 1], asked[|asked| - 1];
    && IsRequest(net, f, |init|, q, from, to, opening)
    && IsTrace(net, f, init, from, to, opening, q.lo, q.span) && Ends(q, to, r)
  }

  lemma TraceGrows(net: Net, f: Filter, asked: seq<Request>, from: int, to: int, opening: int, q: Request)
    requires IsTrace(net, f, asked, from, to, opening, q.lo, q.span)
    requires IsRequest(net, f, |asked|, q, from, to, opening)
    ensures forall start, span :: GoesOn(q, to, start, span) ==>
      IsTrace(net, f, asked + [q], from, to, opening, start, span)
    ensures forall r :: Ends(q, to, r) ==> EndsWith(net, f, asked + [q], from, to, opening, r)
  {
    hide IsRequest, GoesOn, Ends;
    assert (asked + [q])[..|asked|] == asked;
  }

  lemma WithinMore(init: seq<Request>, q: Request, from: int, to: int, opening: int)
    requires Within(init, from, to, opening) && from <= q.lo <= q.hi <= to && q.hi - q.lo < opening
    ensures Within(init + [q], from, to, opening)
  {
  }

  lemma RequestWithin(net: Net, f: Filter, k: nat, q: Request, from: int, to: int, opening: int)
    requires IsRequest(net, f, k, q, from, to, opening)
    ensures from <= q.lo <= q.hi <= to && q.hi - q.lo < opening
  {
  }

  lemma {:induction false} TraceWithin(net: Net, f: Filter, asked: seq<Request>, from: int, to: int, opening: int,
                                       start: int, span: int)
    requires IsTrace(net, f, asked, from, to, opening, start, span)
    ensures Within(asked, from, to, opening)
    decreases |asked|
  {
    hide IsRequest, GoesOn;
    if asked != [] {
      var init, q := asked[..|asked| - 1], asked[|asked| - 1];
      TraceWithin(net, f, init, from, to, opening, q.lo, q.span);
      RequestWithin(net, f, |init|, q, from, to, opening);
      hide *;
      WithinMore(init, q, from, to, opening);
      assert init + [q] == asked;
    }
  }

  ghost predicate Ordered(f: Filter, logs: seq<EventLog>, lo: int, hi: int) {
    && Sorting.SortedBy(logs, Site)
    && forall i :: 0 <= i < |logs| ==>
         && logs[i].address == f.address && logs[i].topics != [] && logs[i].topics[0] == f.topic0
         && lo <= logs[i].blockNumber <= hi
  }

  /** out is the logs of from..through: in order, in range and of the filter, and with one honest endpoint the
      chain's, each once. */
  ghost predicate Gathered(net: Net, f: Filter, truth: seq<EventLog>, out: seq<EventLog>, from: int, through: int) {
    && Ordered(f, out, from, through)
    && (SomeHonest(net, truth) ==> out == InBlocks(truth, from, through))
  }

  lemma NothingGathered(net: Net, f: Filter, truth: seq<EventLog>, from: int)
    ensures Gathered(net, f, truth, [], from, from - 1)
  {
    Ranges.InNone(truth, BlockNumber, from, from - 1);
  }

  lemma OnePageMore(net: Net, f: Filter, truth: seq<EventLog>, out: seq<EventLog>, from: int, start: nat, end: nat,
                    page: seq<EventLog>)
    requires Gathered(net, f, truth, out, from, start - 1) && IsTruth(truth, f) && from <= start <= end
    requires IsPage(net, f, Success(page), start, end, truth)
    ensures Gathered(net, f, truth, out + page, from, end)
  {
    var both := out + page;
    forall i, j | 0 <= i < |out| && 0 <= j < |page| ensures Site(out[i]) <= Site(page[j]) {
      SiteIsPair(out[i], page[j]);
    }
    forall i | 0 <= i < |page| ensures Asked(f, page[i], start, end) {
    }
    PagesJoin(truth, from, start - 1, end);
  }

  /** What a read of from..through comes to. Whatever the endpoints do, what is returned is in order, in range and
      of the filter. With one honest endpoint among them it is the chain's logs, each once; if all are willing, it
      is returned; and what is asked, and what ends the read, is as EndsWith says. */
  ghost predicate IsRead(net: Net, f: Filter, truth: seq<EventLog>, from: nat, through: nat, opening: nat,
                         r: Result<seq<EventLog>, LogsError>, refused: nat, asked: seq<Request>)
  {
    && r != Failure(Backwards)
    && (r.Success? ==> Gathered(net, f, truth, r.value, from, through))
    && (AllWilling(net, truth) ==> r.Success?)
    && EndsWith(net, f, asked, from, through, opening, r)
    && Tree.Pow2(refused) <= opening && |asked| <= through - from + 1 + refused
  }

  /** out has been read, and the next page opens at start. */
  ghost predicate Reading(net: Net, f: Filter, truth: seq<EventLog>, from: nat, through: nat, opening: nat,
                          out: seq<EventLog>, start: nat, span: nat, refused: nat, asked: seq<Request>)
  {
    && from <= start <= through && 1 <= span <= opening
    && Gathered(net, f, truth, out, from, start - 1)
    && IsTrace(net, f, asked, from, through, opening, start, span)
    && Halved(refused, span, opening) && |asked| <= start - from + refused
  }

  lemma ReadingBegins(net: Net, f: Filter, truth: seq<EventLog>, from: nat, through: nat, opening: nat)
    requires from <= through && opening > 0
    ensures Reading(net, f, truth, from, through, opening, [], from, opening, 0, [])
  {
    NothingGathered(net, f, truth, from);
    NotHalved(opening);
  }

  /** A page came. */
  lemma PageCame(net: Net, f: Filter, truth: seq<EventLog>, from: nat, through: nat, opening: nat,
                 out: seq<EventLog>, page: seq<EventLog>, lo: nat, hi: nat, span: nat, refused: nat,
                 asked: seq<Request>, more: seq<Request>)
    requires Reading(net, f, truth, from, through, opening, out, lo, span, refused, asked) && IsTruth(truth, f)
    requires Asks(net, f, from, through, opening, asked, lo, hi, span, Success(page), more)
    requires IsPage(net, f, Success(page), lo, hi, truth)
    ensures hi < through ==> Reading(net, f, truth, from, through, opening, out + page, hi + 1, span, refused, more)
    ensures hi == through ==> IsRead(net, f, truth, from, through, opening, Success(out + page), refused, more)
  {
    hide CameTo, IsPage, Gathered, IsTrace, EndsWith, Halved, AllWilling, Tree.Pow2, IsTruth;
    var q := more[|asked|];
    TraceGrows(net, f, asked, from, through, opening, q);
    OnePageMore(net, f, truth, out, from, lo, hi, page);
    FewRefused(refused, span, opening);
    if hi == through {
      assert Ends(q, through, Success(out + page));
    } else {
      assert GoesOn(q, through, hi + 1, span);
    }
  }

  /** A page did not come: it is cut to half the span when it was too big, and else the read ends. */
  lemma PageFailed(net: Net, f: Filter, truth: seq<EventLog>, from: nat, through: nat, opening: nat,
                   out: seq<EventLog>, e: CrossError<Complaint>, lo: nat, hi: nat, span: nat, refused: nat,
                   asked: seq<Request>, more: seq<Request>)
    requires Reading(net, f, truth, from, through, opening, out, lo, span, refused, asked)
    requires Asks(net, f, from, through, opening, asked, lo, hi, span, Failure(e), more)
    requires IsPage(net, f, Failure(e), lo, hi, truth)
    ensures span > 1 && IsTooBig(e) ==>
      Reading(net, f, truth, from, through, opening, out, lo, span / 2, refused + 1, more)
    ensures !(span > 1 && IsTooBig(e)) ==>
      IsRead(net, f, truth, from, through, opening, Failure(OfPage(e)), refused, more)
  {
    hide CameTo, Gathered, IsTrace, EndsWith, Halved, AllWilling, Tree.Pow2;
    var q := more[|asked|];
    TraceGrows(net, f, asked, from, through, opening, q);
    FewRefused(refused, span, opening);
    if span > 1 {
      Halving(refused, span, opening);
    }
    if span > 1 && IsTooBig(e) {
      assert GoesOn(q, through, lo, span / 2);
    } else {
      assert Ends(q, through, Failure(OfPage(e)));
    }
  }

  /** more is asked and the request for the page lo..hi. */
  ghost predicate Asks(net: Net, f: Filter, from: nat, through: nat, opening: nat, asked: seq<Request>,
                       lo: nat, hi: nat, span: nat, page: Result<seq<EventLog>, CrossError<Complaint>>,
                       more: seq<Request>)
  {
    && more == asked + [Request(lo, hi, span, ErrorOf(page))]
    && IsRequest(net, f, |asked|, Request(lo, hi, span, ErrorOf(page)), from, through, opening)
  }

  lemma NextAsked(net: Net, f: Filter, from: nat, through: nat, opening: nat, asked: seq<Request>,
                  lo: nat, hi: nat, span: nat, page: Result<seq<EventLog>, CrossError<Complaint>>, more: seq<Request>)
    requires from <= lo <= through && 1 <= span <= opening && hi == Min(lo + span - 1, through)
    requires IsAnswer(net, f, |asked|, lo, hi, page) && more == asked + [Request(lo, hi, span, ErrorOf(page))]
    ensures Asks(net, f, from, through, opening, asked, lo, hi, span, page, more)
  {
    hide IsAnswer;
    assert CameTo(net, f, |asked|, lo, hi, ErrorOf(page));
  }

  /** Every log of from..through, paged at span blocks and less once an endpoint refuses. */
  method ReadLogs(net: Net, f: Filter, from: uint64, through: uint64, opening: uint64, ghost truth: seq<EventLog>)
    returns (r: Result<seq<EventLog>, LogsError>, refused: nat, ghost asked: seq<Request>)
    requires Sane(net) && IsTruth(truth, f) && opening > 0
    ensures from > through ==> r == Failure(Backwards) && asked == []
    ensures from <= through ==> IsRead(net, f, truth, from, through, opening, r, refused, asked)
  {
    hide *;
    refused, asked := 0, [];
    if from > through {
      return Failure(Backwards), refused, asked;
    }
    ReadingBegins(net, f, truth, from, through, opening);
    var out: seq<EventLog> := [];
    var start, span := from, opening;
    var attempt: nat := 0;
    while true
      invariant from <= start <= through && 1 <= span <= opening && attempt == |asked|
      invariant Reading(net, f, truth, from, through, opening, out, start, span, refused, asked)
      decreases through - start, span
    {
      var end := PageEnd(start, span, through);
      var page := Page(net, f, attempt, start, end, truth);
      ghost var before := asked;
      asked := asked + [Request(start, end, span, ErrorOf(page))];
      NextAsked(net, f, from, through, opening, before, start, end, span, page, asked);
      attempt := attempt + 1;
      match page
      case Failure(e) =>
        PageFailed(net, f, truth, from, through, opening, out, e, start, end, span, refused, before, asked);
        if span == 1 || !IsTooBig(e) {
          return Failure(OfPage(e)), refused, asked;
        }
        span, refused := span / 2, refused + 1;
      case Success(logs) =>
        PageCame(net, f, truth, from, through, opening, out, logs, start, end, span, refused, before, asked);
        out := out + logs;
        if end == through {
          return Success(out), refused, asked;
        }
        start := end + 1;
    }
  }

  /** Where a page that opens at start ends: measured as a distance, so nothing wraps. */
  function PageEnd(start: uint64, span: nat, through: uint64): (end: uint64)
    requires start <= through && span > 0
    ensures start <= end <= through && end == Min(start + span - 1, through)
  {
    if through - start >= span then start + span - 1 else through
  }

  /** span is what is left of opening once halved refused times. */
  predicate Halved(refused: nat, span: int, opening: int) {
    Tree.Pow2(refused) * span <= opening
  }

  lemma NotHalved(opening: nat)
    ensures Halved(0, opening, opening)
  {
  }

  lemma FewRefused(refused: nat, span: nat, opening: int)
    requires span >= 1 && Halved(refused, span, opening)
    ensures Tree.Pow2(refused) <= opening
  {
    assert Tree.Pow2(refused) * (span - 1) >= 0;
  }

  lemma Halving(refused: nat, span: int, opening: int)
    requires span > 1 && Halved(refused, span, opening)
    ensures Halved(refused + 1, span / 2, opening)
  {
    assert Tree.Pow2(refused + 1) * (span / 2) == Tree.Pow2(refused) * (2 * (span / 2));
    assert Tree.Pow2(refused) * (2 * (span / 2)) <= Tree.Pow2(refused) * span;
  }
}
