/**
 * The call detail record service of the Nest backend: the paginated,
 * filtered listing, the lookups by id and by `uniqueid`, and today's call
 * counts by disposition.
 */
module Cdrs {
  import opened Records
  import opened Store

  // ---------------------------------------------------------------------
  // The listing query
  // ---------------------------------------------------------------------

  /** The bounds of the `start` filter; a bound is present only when it was given. */
  datatype Range = Range(gte: Option<int>, lte: Option<int>)

  /** The query object `findAll` builds: a field is present only when its filter is. */
  datatype CdrQuery = CdrQuery(start: Option<Range>, src: Option<string>, dst: Option<string>,
                               disposition: Option<string>)

  /**
   * The listing parameters: a date is a time in milliseconds, and an empty
   * text is a filter that was not given.
   */
  datatype FindParams = FindParams(limit: Option<int>, page: Option<int>,
                                   startDate: Option<int>, endDate: Option<int>,
                                   src: string, dst: string, disposition: string)

  /** A destructuring default: it applies only when the value is missing. */
  function Given(v: Option<int>, d: int): int
  {
    if v.Some? then v.value else d
  }

  /** The query for the parameters. */
  function QueryOf(p: FindParams): (q: CdrQuery)
    ensures q.start.Some? <==> p.startDate.Some? || p.endDate.Some?
  {
    CdrQuery(
      if p.startDate.Some? || p.endDate.Some? then Some(Range(p.startDate, p.endDate)) else None,
      if p.src != "" then Some(p.src) else None,
      if p.dst != "" then Some(p.dst) else None,
      if p.disposition != "" then Some(p.disposition) else None)
  }

  /** `findAll`'s construction of the query, field by field. */
  method BuildQuery(p: FindParams) returns (q: CdrQuery)
    ensures q == QueryOf(p)
  {
    q := CdrQuery(None, None, None, None);
    if p.startDate.Some? || p.endDate.Some? {
      var range := Range(None, None);
      if p.startDate.Some? {
        range := range.(gte := p.startDate);
      }
      if p.endDate.Some? {
        range := range.(lte := p.endDate);
      }
      q := q.(start := Some(range));
    }
    if p.src != "" {
      q := q.(src := Some(p.src));
    }
    if p.dst != "" {
      q := q.(dst := Some(p.dst));
    }
    if p.disposition != "" {
      q := q.(disposition := Some(p.disposition));
    }
  }

  /** A start time within the bounds; a record without a valid start matches no bound. */
  predicate InRange(r: Range, t: Option<int>)
  {
    (r.gte.Some? ==> t.Some? && t.value >= r.gte.value) &&
    (r.lte.Some? ==> t.Some? && t.value <= r.lte.value)
  }

  /**
   * A record matches the query. `like(pattern, text)` is the store's
   * case-insensitive `$regex` test.
   */
  predicate QueryMatches(q: CdrQuery, c: Cdr, like: (string, string) -> bool)
  {
    (q.start.Some? ==> InRange(q.start.value, c.start)) &&
    (q.src.Some? ==> like(q.src.value, c.src)) &&
    (q.dst.Some? ==> like(q.dst.value, c.dst)) &&
    (q.disposition.Some? ==> c.disposition == q.disposition.value)
  }

  /**
   * What the query selects, stated on the parameters: each given filter is
   * a condition, a missing one is none, and the disposition matches exactly.
   */
  lemma QueryMeaning(p: FindParams, c: Cdr, like: (string, string) -> bool)
    ensures QueryMatches(QueryOf(p), c, like) <==>
      (p.startDate.Some? ==> c.start.Some? && c.start.value >= p.startDate.value) &&
      (p.endDate.Some? ==> c.start.Some? && c.start.value <= p.endDate.value) &&
      (p.src != "" ==> like(p.src, c.src)) &&
      (p.dst != "" ==> like(p.dst, c.dst)) &&
      (p.disposition != "" ==> c.disposition == p.disposition)
  {
  }

  /** The records that match, in store order (`find(query)` and `countDocuments(query)`). */
  function Select(xs: seq<Cdr>, q: CdrQuery, like: (string, string) -> bool): (ys: seq<Cdr>)
    ensures |ys| <= |xs|
    ensures forall c :: c in ys <==> c in xs && QueryMatches(q, c, like)
  {
    if xs == [] then []
    else
      var init := Select(xs[..|xs| - 1], q, like);
      var last := xs[|xs| - 1];
      assert xs == xs[..|xs| - 1] + [last];
      if QueryMatches(q, last, like) then init + [last] else init
  }

  /** `sort({start: -1})`: the latest start first; records without a start last. */
  function ByStartDesc(a: Cdr, b: Cdr): bool
  {
    match (a.start, b.start)
    case (Some(x), Some(y)) => x >= y
    case (Some(_), None) => true
    case (None, Some(_)) => false
    case (None, None) => true
  }

  lemma StartDescIsPreorder()
    ensures TotalPreorder(ByStartDesc)
  {
  }

  // ---------------------------------------------------------------------
  // Pagination
  // ---------------------------------------------------------------------

  function Skip(page: int, limit: int): int
  {
    (page - 1) * limit
  }

  /** A JavaScript number that a count can become: an integer, `Infinity` or `NaN`. */
  datatype JsCount = Count(n: int) | PosInfinity | NaN

  /**
   * `Math.ceil(total / limit)`: the number of pages of `limit` records; a
   * zero limit gives `Infinity`, or `NaN` when there is nothing to count.
   */
  function Pages(total: nat, limit: int): (p: JsCount)
    ensures limit > 0 ==> p.Count? && p.n >= 0 && (p.n - 1) * limit < total <= p.n * limit
    ensures limit < 0 ==> p.Count? && p.n <= 0 && p.n * limit <= total < (p.n - 1) * limit
    ensures limit == 0 ==> p == (if total == 0 then NaN else PosInfinity)
  {
    if limit > 0 then
      var n := (total + limit - 1) / limit;
      DivBounds(total + limit - 1, limit);
      assert (n - 1) * limit == n * limit - limit;
      Count(n)
    else if limit < 0 then
      var n := total / -limit;
      DivBounds(total, -limit);
      assert (-n) * limit == n * -limit;
      assert (-n - 1) * limit == n * -limit - limit;
      Count(-n)
    else if total == 0 then NaN
    else PosInfinity
  }

  /** Floor division brackets its dividend. */
  lemma DivBounds(m: nat, d: int)
    requires d > 0
    ensures m / d >= 0 && (m / d) * d <= m < (m / d) * d + d
  {
  }

  /**
   * Every record is on exactly one page: record `i` is on page
   * `i / limit + 1`, which is among the pages counted.
   */
  lemma PageOfRecord(total: nat, limit: int, i: nat)
    requires limit > 0 && i < total
    ensures var page := i / limit + 1;
      1 <= page <= Pages(total, limit).n && Skip(page, limit) <= i < Skip(page, limit) + limit
  {
    var page := i / limit + 1;
    var n := Pages(total, limit).n;
    assert Skip(page, limit) == (i / limit) * limit;
    if page > n {
      assert (i / limit) * limit >= n * limit by {
        assert i / limit >= n;
      }
      assert false;
    }
  }

  /** No counted page is empty, and the page after the last one starts past the end. */
  lemma PagesAreFull(total: nat, limit: int, page: int)
    requires limit > 0
    ensures 1 <= page <= Pages(total, limit).n ==> 0 <= Skip(page, limit) < total
    ensures page > Pages(total, limit).n ==> Skip(page, limit) >= total
  {
    var n := Pages(total, limit).n;
    if 1 <= page <= n {
      assert (page - 1) * limit <= (n - 1) * limit;
    } else if page > n {
      assert (page - 1) * limit >= n * limit;
    }
  }

  /**
   * `skip(skip).limit(limit)` on the sorted records: the store refuses a
   * negative skip; a zero limit is no limit, a negative one counts as its
   * absolute value.
   */
  function Window(xs: seq<Cdr>, skip: int, limit: int): (r: Result<seq<Cdr>>)
    ensures r.Err? <==> skip < 0
    ensures r.Ok? ==> var from := if skip < |xs| then skip else |xs|;
      var n := if limit == 0 then |xs| - from else if limit < 0 then -limit else limit;
      |r.value| == (if n < |xs| - from then n else |xs| - from) &&
      forall i :: 0 <= i < |r.value| ==> r.value[i] == xs[from + i]
  {
    if skip < 0 then Err(StoreRejected("skip"))
    else
      var rest := xs[if skip < |xs| then skip else |xs|..];
      var n := if limit == 0 then |rest| else if limit < 0 then -limit else limit;
      Ok(rest[..if n < |rest| then n else |rest|])
  }

  /** A page of the listing, with the count of matching records and of pages. */
  datatype FindResult = FindResult(data: seq<Cdr>, total: nat, page: int, pages: JsCount)

  /** The listing for the parameters, over the stored records. */
  function Listing(p: FindParams, stored: seq<Cdr>, like: (string, string) -> bool): Result<FindResult>
  {
    var limit := Given(p.limit, 50);
    var page := Given(p.page, 1);
    var found := Select(stored, QueryOf(p), like);
    match Window(SortBy(found, ByStartDesc), Skip(page, limit), limit)
    case Ok(data) => Ok(FindResult(data, |found|, page, Pages(|found|, limit)))
    case Err(e) => Err(e)
  }

  /**
   * What the listing promises: with the defaults a limit of 50 and page 1;
   * the page holds at most `limit` matching records, latest first, and the
   * total counts every match.
   */
  lemma ListingFacts(p: FindParams, stored: seq<Cdr>, like: (string, string) -> bool)
    requires Given(p.page, 1) >= 1 && Given(p.limit, 50) > 0
    ensures var r := Listing(p, stored, like);
      r.Ok? &&
      (p.limit.None? ==> |r.value.data| <= 50) &&
      (p.page.None? ==> r.value.page == 1) &&
      |r.value.data| <= Given(p.limit, 50) &&
      Sorted(r.value.data, ByStartDesc) &&
      (forall c :: c in r.value.data ==> c in stored && QueryMatches(QueryOf(p), c, like)) &&
      r.value.total == |Select(stored, QueryOf(p), like)|
  {
    var limit := Given(p.limit, 50);
    var found := Select(stored, QueryOf(p), like);
    var sorted := SortBy(found, ByStartDesc);
    var skip := Skip(Given(p.page, 1), limit);
    ListingShape(p, stored, like);
    StartDescIsPreorder();
    SortBySorted(found, ByStartDesc);
    WindowKeeps(sorted, skip, limit);
    var data := Window(sorted, skip, limit).value;
    forall c | c in data ensures c in stored && QueryMatches(QueryOf(p), c, like) {
      assert c in multiset(found);
    }
  }

  /** On a first or later page with a positive limit the listing is the window of the sorted matches. */
  lemma ListingShape(p: FindParams, stored: seq<Cdr>, like: (string, string) -> bool)
    requires Given(p.page, 1) >= 1 && Given(p.limit, 50) > 0
    ensures Skip(Given(p.page, 1), Given(p.limit, 50)) >= 0
    ensures var found := Select(stored, QueryOf(p), like);
      var w := Window(SortBy(found, ByStartDesc), Skip(Given(p.page, 1), Given(p.limit, 50)), Given(p.limit, 50));
      w.Ok? && Listing(p, stored, like) == Ok(FindResult(w.value, |found|, Given(p.page, 1), Pages(|found|, Given(p.limit, 50))))
  {
    assert Given(p.page, 1) - 1 >= 0;
  }

  /** A window of a latest-first sequence is latest-first, and holds only its elements. */
  lemma WindowKeeps(xs: seq<Cdr>, skip: int, limit: int)
    requires skip >= 0 && limit > 0 && Sorted(xs, ByStartDesc)
    ensures var data := Window(xs, skip, limit).value;
      |data| <= limit && Sorted(data, ByStartDesc) && forall c :: c in data ==> c in multiset(xs)
  {
    var data := Window(xs, skip, limit).value;
    var from := if skip < |xs| then skip else |xs|;
    forall i, j | 0 <= i < j < |data| ensures ByStartDesc(data[i], data[j]) {
      assert data[i] == xs[from + i] && data[j] == xs[from + j];
    }
    forall c | c in data ensures c in multiset(xs) {
      var i :| 0 <= i < |data| && data[i] == c;
      assert xs[from + i] == c;
    }
  }

  // ---------------------------------------------------------------------
  // Today's calls
  // ---------------------------------------------------------------------

  /** The dispositions `getTodayCalls` counts; any other is counted in the total only. */
  datatype Bucket = Answered | NoAnswer | Busy | Failed

  function BucketOf(disposition: string): (b: Option<Bucket>)
    ensures b == Some(NoAnswer) <==> disposition == "NO ANSWER" || disposition == "NOANSWER"
  {
    if disposition == "ANSWERED" then Some(Answered)
    else if disposition == "NO ANSWER" || disposition == "NOANSWER" then Some(NoAnswer)
    else if disposition == "BUSY" then Some(Busy)
    else if disposition == "FAILED" then Some(Failed)
    else None
  }

  /** The calls in a bucket. */
  function CountIn(calls: seq<Cdr>, b: Bucket): nat
  {
    if calls == [] then 0
    else
      var last := if BucketOf(calls[|calls| - 1].disposition) == Some(b) then 1 else 0;
      CountIn(calls[..|calls| - 1], b) + last
  }

  /** The duration of the answered calls. */
  function AnsweredDuration(calls: seq<Cdr>): int
  {
    if calls == [] then 0
    else
      var c := calls[|calls| - 1];
      var last := if BucketOf(c.disposition) == Some(Answered) then c.duration else 0;
      AnsweredDuration(calls[..|calls| - 1]) + last
  }

  /** `totalDuration / answered`, or 0 when nothing was answered. */
  function Average(totalDuration: int, answered: nat): (a: real)
    ensures answered == 0 ==> a == 0.0
    ensures answered > 0 ==> a * answered as real == totalDuration as real
  {
    if answered > 0 then totalDuration as real / answered as real else 0.0
  }

  datatype TodayStats = TodayStats(total: nat, answered: nat, noanswer: nat, busy: nat, failed: nat,
                                   averageDuration: real)

  /** Each call is in at most one bucket, so the buckets together hold at most every call. */
  lemma {:induction false} BucketsBounded(calls: seq<Cdr>)
    ensures CountIn(calls, Answered) + CountIn(calls, NoAnswer) + CountIn(calls, Busy) + CountIn(calls, Failed)
      <= |calls|
  {
    if calls != [] {
      BucketsBounded(calls[..|calls| - 1]);
    }
  }

  /** A call that is not answered adds nothing to the duration, whatever its own duration. */
  lemma DurationOfUnanswered(calls: seq<Cdr>, c: Cdr)
    requires c.disposition != "ANSWERED"
    ensures AnsweredDuration(calls + [c]) == AnsweredDuration(calls)
    ensures CountIn(calls + [c], Answered) == CountIn(calls, Answered)
  {
    assert (calls + [c])[..|calls|] == calls;
  }

  /** The counting loop over today's calls. */
  method Tally(calls: seq<Cdr>) returns (s: TodayStats)
    ensures s.total == |calls|
    ensures s.answered == CountIn(calls, Answered) && s.noanswer == CountIn(calls, NoAnswer)
    ensures s.busy == CountIn(calls, Busy) && s.failed == CountIn(calls, Failed)
    ensures s.averageDuration == Average(AnsweredDuration(calls), CountIn(calls, Answered))
  {
    var answered, noanswer, busy, failed := 0, 0, 0, 0;
    var totalDuration := 0;
    for i := 0 to |calls|
      invariant answered == CountIn(calls[..i], Answered) && noanswer == CountIn(calls[..i], NoAnswer)
      invariant busy == CountIn(calls[..i], Busy) && failed == CountIn(calls[..i], Failed)
      invariant totalDuration == AnsweredDuration(calls[..i])
    {
      assert calls[..i + 1][..i] == calls[..i];
      var d := calls[i].disposition;
      if d == "ANSWERED" {
        answered := answered + 1;
        totalDuration := totalDuration + calls[i].duration;
      } else if d == "NO ANSWER" || d == "NOANSWER" {
        noanswer := noanswer + 1;
      } else if d == "BUSY" {
        busy := busy + 1;
      } else if d == "FAILED" {
        failed := failed + 1;
      }
    }
    assert calls[..|calls|] == calls;
    var average := if answered > 0 then totalDuration as real / answered as real else 0.0;
    s := TodayStats(|calls|, answered, noanswer, busy, failed, average);
  }

  /** The calls that started in `[today, tomorrow)`, in store order. */
  function StartedBetween(xs: seq<Cdr>, today: int, tomorrow: int): (ys: seq<Cdr>)
    ensures |ys| <= |xs|
    ensures forall c :: c in ys <==> c in xs && c.start.Some? && today <= c.start.value < tomorrow
  {
    if xs == [] then []
    else
      var init := StartedBetween(xs[..|xs| - 1], today, tomorrow);
      var last := xs[|xs| - 1];
      assert xs == xs[..|xs| - 1] + [last];
      if last.start.Some? && today <= last.start.value < tomorrow then init + [last] else init
  }

  // ---------------------------------------------------------------------
  // The service
  // ---------------------------------------------------------------------

  function UniqueId(c: Cdr): string { c.uniqueid }

  /**
   * The window of the first `limit` calls of the latest-first order is
   * sorted, takes each stored call at most as often as it is stored, and
   * leaves out only calls that started no later than every call it holds.
   */
  lemma RecentAreLatest(stored: seq<Cdr>, limit: int)
    ensures var r := Window(SortBy(stored, ByStartDesc), 0, limit).value;
      Sorted(r, ByStartDesc) && multiset(r) <= multiset(stored) &&
      forall c, d :: c in r && d in multiset(stored) - multiset(r) ==> ByStartDesc(c, d)
  {
    var sorted := SortBy(stored, ByStartDesc);
    StartDescIsPreorder();
    SortBySorted(stored, ByStartDesc);
    var r := Window(sorted, 0, limit).value;
    WindowFromStart(sorted, limit);
    PrefixIsLeast(sorted, |r|, ByStartDesc);
  }

  /** A window from the start is a prefix. */
  lemma WindowFromStart(xs: seq<Cdr>, limit: int)
    ensures var r := Window(xs, 0, limit).value; |r| <= |xs| && r == xs[..|r|]
  {
  }

  /**
   * A prefix of a sorted list is sorted, is part of the list, and comes
   * before everything the list holds beyond it.
   */
  lemma PrefixIsLeast<T>(xs: seq<T>, k: nat, le: (T, T) -> bool)
    requires k <= |xs| && Sorted(xs, le)
    ensures Sorted(xs[..k], le) && multiset(xs[..k]) <= multiset(xs)
    ensures forall c, d :: c in xs[..k] && d in multiset(xs) - multiset(xs[..k]) ==> le(c, d)
  {
    var r := xs[..k];
    assert xs == r + xs[k..];
    assert multiset(xs) == multiset(r) + multiset(xs[k..]);
    forall c, d | c in r && d in multiset(xs) - multiset(r) ensures le(c, d) {
      var i :| 0 <= i < |r| && r[i] == c;
      assert d in xs[k..];
      var j :| 0 <= j < |xs[k..]| && xs[k..][j] == d;
      assert xs[i] == c && xs[k + j] == d;
    }
  }

  /** The service over its collection; it changes nothing. */
  class CdrService {
    const cdrs: Collection<Cdr>

    constructor(cdrs: Collection<Cdr>)
      ensures this.cdrs == cdrs
    {
      this.cdrs := cdrs;
    }

    /** `findAll`: `like` is the store's case-insensitive pattern test. */
    method FindAll(p: FindParams, like: (string, string) -> bool) returns (r: Result<FindResult>)
      ensures r == Listing(p, cdrs.Stored(), like)
    {
      var limit := if p.limit.Some? then p.limit.value else 50;
      var page := if p.page.Some? then p.page.value else 1;
      var q := BuildQuery(p);
      var skip := (page - 1) * limit;
      var found := Select(cdrs.Stored(), q, like);
      var total := |found|;
      var pages := Pages(total, limit);
      var window := Window(SortBy(found, ByStartDesc), skip, limit);
      if window.Err? {
        return Err(window.error);
      }
      r := Ok(FindResult(window.value, total, page, pages));
    }

    /**
     * `getRecentCalls(limit = 10)`: the stored calls latest first, cut to
     * `limit` as Mongo's `limit` cuts (0 is no limit, a negative limit its
     * absolute value).
     */
    method GetRecentCalls(limit: Option<int>) returns (r: seq<Cdr>)
      ensures r == Window(SortBy(cdrs.Stored(), ByStartDesc), 0, Given(limit, 10)).value
      ensures Sorted(r, ByStartDesc) && multiset(r) <= multiset(cdrs.Stored())
      ensures forall c, d :: c in r && d in multiset(cdrs.Stored()) - multiset(r) ==> ByStartDesc(c, d)
    {
      var sorted := SortBy(cdrs.Stored(), ByStartDesc);
      r := Window(sorted, 0, Given(limit, 10)).value;
      RecentAreLatest(cdrs.Stored(), Given(limit, 10));
    }

    /** `findOne(id)`. */
    method Get(id: nat) returns (r: Result<Cdr>)
      requires cdrs.Valid()
      ensures Records.FindById(cdrs.items, id).None? ==> r == Err(NotFound("CDR"))
      ensures Records.FindById(cdrs.items, id).Some? ==>
        r == Ok(cdrs.items[Records.FindById(cdrs.items, id).value].rec)
    {
      var k := cdrs.FindById(id);
      if k.None? {
        return Err(NotFound("CDR"));
      }
      r := Ok(cdrs.items[k.value].rec);
    }

    /** `findByUniqueId`: the first record with that `uniqueid`. */
    method FindByUniqueId(uniqueid: string) returns (r: Result<Cdr>)
      ensures !KeyHeldByOther(cdrs.items, UniqueId, uniqueid, None) ==> r == Err(NotFound("CDR"))
      ensures KeyHeldByOther(cdrs.items, UniqueId, uniqueid, None) ==>
        r.Ok? && r.value.uniqueid == uniqueid && r.value in cdrs.Stored()
    {
      var k := cdrs.FindOne(UniqueId, uniqueid, None);
      if k.None? {
        return Err(NotFound("CDR"));
      }
      r := Ok(cdrs.items[k.value].rec);
      assert cdrs.Stored()[k.value] == r.value;
    }

    /** `getTodayCalls`, for the day `[today, tomorrow)` the clock gives. */
    method GetTodayCalls(today: int, tomorrow: int) returns (s: TodayStats)
      ensures var calls := StartedBetween(cdrs.Stored(), today, tomorrow);
        s.total == |calls| &&
        s.answered == CountIn(calls, Answered) && s.noanswer == CountIn(calls, NoAnswer) &&
        s.busy == CountIn(calls, Busy) && s.failed == CountIn(calls, Failed) &&
        s.answered + s.noanswer + s.busy + s.failed <= s.total &&
        s.averageDuration == Average(AnsweredDuration(calls), s.answered)
    {
      var calls := StartedBetween(cdrs.Stored(), today, tomorrow);
      s := Tally(calls);
      BucketsBounded(calls);
    }
  }
}
