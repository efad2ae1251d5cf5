/**
 * The solver is deterministic: its answer depends on what is asked, not on the order in
 * which the candidates are listed.  Ties in a score are settled by variant keys, and keys
 * of one candidate differ.
 */
module Determinism {
  import opened Prelude
  import opened Keys
  import opened Sorting
  import opened SolverModel
  import opened Route
  import opened Insertion
  import opened Variants
  import opened Expand
  import opened Feasibility
  import opened Meals
  import opened Greedy
  import TwoOpt

  // ------------------------------------------------------------- variant keys

  lemma {:induction false} DecimalHasNoColon(n: nat)
    ensures Decimal(n) != "" && ':' !in Decimal(n)
  {
    if n < 10 {
      NumeralIsNoColon(n);
    } else {
      DecimalHasNoColon(n / 10);
      NumeralIsNoColon(n % 10);
    }
  }

  lemma NumeralIsNoColon(d: nat)
    requires d < 10
    ensures '0' + d as char != ':'
  {
    assert ('0' + d as char) as int == '0' as int + d && ':' as int == '0' as int + 10;
  }

  /** The number that a numeral stands for. */
  ghost function ReadBack(s: string): int {
    if s == "" then 0 else 10 * ReadBack(s[..|s| - 1]) + (s[|s| - 1] as int - '0' as int)
  }

  /** Numerals can be read back. */
  lemma {:induction false} DecimalIsReadable(n: nat)
    ensures ReadBack(Decimal(n)) == n
  {
    if n < 10 {
      assert Decimal(n)[..0] == "" && Decimal(n)[0] as int == '0' as int + n;
    } else {
      var s := Decimal(n);
      DecimalIsReadable(n / 10);
      assert s[..|s| - 1] == Decimal(n / 10) && s[|s| - 1] as int == '0' as int + n % 10;
    }
  }

  /** What follows the last colon of a key can be read back. */
  lemma SerialIsReadable(a: string, b: string, m: nat, n: nat)
    requires a + ":" + Decimal(m) == b + ":" + Decimal(n)
    ensures m == n
  {
    var d, e := Decimal(m), Decimal(n);
    DecimalHasNoColon(m);
    DecimalHasNoColon(n);
    LastColon(a, d, b, e);
    LastColon(b, e, a, d);
    assert d == (a + ":" + d)[|a| + 1..] && e == (b + ":" + e)[|b| + 1..];
    DecimalIsReadable(m);
    DecimalIsReadable(n);
  }

  lemma LastColon(a: string, d: string, b: string, e: string)
    requires a + ":" + d == b + ":" + e && ':' !in e
    ensures |d| >= |e|
  {
    assert (a + ":" + d)[|a|] == ':';
    assert forall k | |b| < k < |b| + 1 + |e| :: (b + ":" + e)[k] == e[k - |b| - 1];
  }

  /** Each variant carries its own number. */
  ghost predicate Numbered(c: Candidate, vs: seq<Variant>) {
    forall k: nat | k < |vs| :: vs[k].key == VariantKey(c, vs[k].dayIndex, k)
  }

  lemma {:induction false} SegmentsAreNumbered(r: Request, c: Candidate, dayIndex: nat, segs: seq<Span>,
                                               acc: seq<Variant>)
    requires Numbered(c, acc)
    ensures Numbered(c, AddSegments(r, c, dayIndex, segs, acc))
  {
    hide VariantKey, LatestStart, WeatherAt, Golden;
    if segs == [] {
    } else {
      SegmentsAreNumbered(r, c, dayIndex, segs[..|segs| - 1], acc);
    }
  }

  lemma {:induction false} SpansAreNumbered(r: Request, c: Candidate, day: Day, spans: seq<Span>, acc: seq<Variant>)
    requires Numbered(c, acc)
    ensures Numbered(c, AddSpans(r, c, day, spans, acc))
  {
    hide Numbered, Segments;
    if spans == [] {
    } else {
      var before := AddSpans(r, c, day, spans[..|spans| - 1], acc);
      SpansAreNumbered(r, c, day, spans[..|spans| - 1], acc);
      SegmentsAreNumbered(r, c, day.dayIndex, Segments(r, c, day, spans[|spans| - 1]), before);
    }
  }

  lemma {:induction false} DaysAreNumbered(r: Request, c: Candidate, days: seq<Day>)
    ensures Numbered(c, AddDays(r, c, days))
  {
    hide BaseSpans;
    if days == [] {
    } else {
      var day := days[|days| - 1];
      DaysAreNumbered(r, c, days[..|days| - 1]);
      SpansAreNumbered(r, c, day, BaseSpans(r, c, day), AddDays(r, c, days[..|days| - 1]));
    }
  }

  /** No two variants of a candidate share a key. */
  lemma KeysTellVariants(r: Request, c: Candidate, i: nat, j: nat)
    requires i < |VariantsOf(r, c)| && j < |VariantsOf(r, c)| && VariantsOf(r, c)[i].key == VariantsOf(r, c)[j].key
    ensures i == j
  {
    hide AddDays;
    var vs := VariantsOf(r, c);
    DaysAreNumbered(r, c, r.days);
    assert vs[i].key == VariantKey(c, vs[i].dayIndex, i) && vs[j].key == VariantKey(c, vs[j].dayIndex, j);
    SerialIsReadable(c.poiId + ":" + Decimal(vs[i].dayIndex), c.poiId + ":" + Decimal(vs[j].dayIndex), i, j);
  }

  // ------------------------------------------------------------- placing

  lemma TiesAreEqual(a: Score, b: Score)
    requires !a.Below(b) && !b.Below(a)
    ensures a == b
  {
    LessTotal(a.key, b.key);
  }

  /** There is one cheapest insertion of a candidate. */
  lemma CheapestIsUnique(r: Request, routes: Routes, c: Candidate, a: Placement, b: Placement)
    requires IsCheapest(r, routes, VariantsOf(r, c), a) && IsCheapest(r, routes, VariantsOf(r, c), b)
    ensures a == b
  {
    hide VariantsOf, Proposal;
    var vs := VariantsOf(r, c);
    var i :| 0 <= i < |vs| && vs[i] == a.variant;
    var j :| 0 <= j < |vs| && vs[j] == b.variant;
    assert Fits(r, routes, vs, i, a.position) && Fits(r, routes, vs, j, b.position);
    TiesAreEqual(ScoreOf(r, routes, a.variant, a.position), ScoreOf(r, routes, b.variant, b.position));
    KeysTellVariants(r, c, i, j);
  }

  lemma StepIsUnique(r: Request, c: Candidate, before: Routes, a: Routes, b: Routes)
    requires PlacingStep(r, c, before, a) && PlacingStep(r, c, before, b)
    ensures a == b
  {
    hide VariantsOf, IsCheapest, FitsNowhere;
    if x :| PlacedAt(r, c, before, a, x) {
      CheapestFits(r, before, VariantsOf(r, c), x);
      FitsSomewhere(r, before, c, x);
      var y :| PlacedAt(r, c, before, b, y);
      CheapestIsUnique(r, before, c, x, y);
    } else if y :| PlacedAt(r, c, before, b, y) {
      CheapestFits(r, before, VariantsOf(r, c), y);
      FitsSomewhere(r, before, c, y);
    }
  }

  // ------------------------------------------------------------- the listing of candidates

  /** The same request, with its candidates listed in another order. */
  ghost predicate Relisted(r: Request, q: Request) {
    q == r.(candidates := q.candidates) && multiset(q.candidates) == multiset(r.candidates)
  }

  lemma {:induction false} SegmentsIgnoreListing(r: Request, q: Request, c: Candidate, dayIndex: nat, segs: seq<Span>,
                                                 acc: seq<Variant>)
    requires Relisted(r, q)
    ensures AddSegments(r, c, dayIndex, segs, acc) == AddSegments(q, c, dayIndex, segs, acc)
  {
    hide VariantKey;
    if segs == [] {
    } else {
      SegmentsIgnoreListing(r, q, c, dayIndex, segs[..|segs| - 1], acc);
    }
  }

  lemma {:induction false} SpansIgnoreListing(r: Request, q: Request, c: Candidate, day: Day, spans: seq<Span>,
                                              acc: seq<Variant>)
    requires Relisted(r, q)
    ensures AddSpans(r, c, day, spans, acc) == AddSpans(q, c, day, spans, acc)
  {
    hide AddSegments, Sorted, Pieces;
    if spans == [] {
    } else {
      SpansIgnoreListing(r, q, c, day, spans[..|spans| - 1], acc);
      SegmentsIgnoreListing(r, q, c, day.dayIndex, Segments(r, c, day, spans[|spans| - 1]),
                            AddSpans(r, c, day, spans[..|spans| - 1], acc));
    }
  }

  lemma {:induction false} DaysIgnoreListing(r: Request, q: Request, c: Candidate, days: seq<Day>)
    requires Relisted(r, q)
    ensures AddDays(r, c, days) == AddDays(q, c, days)
  {
    hide AddSpans;
    if days == [] {
    } else {
      var day := days[|days| - 1];
      DaysIgnoreListing(r, q, c, days[..|days| - 1]);
      SpansIgnoreListing(r, q, c, day, BaseSpans(r, c, day), AddDays(r, c, days[..|days| - 1]));
    }
  }

  lemma VariantsIgnoreListing(r: Request, q: Request, c: Candidate)
    requires Relisted(r, q)
    ensures VariantsOf(r, c) == VariantsOf(q, c)
  {
    DaysIgnoreListing(r, q, c, r.days);
  }

  lemma AttemptsIgnoreListing(r: Request, q: Request, day: Day, route: seq<Variant>)
    requires Relisted(r, q)
    ensures Materialized(r, day, route) == Materialized(q, day, route)
  {}

  lemma StepsIgnoreListing(r: Request, q: Request, c: Candidate, before: Routes, after: Routes)
    requires Relisted(r, q)
    ensures FitsNowhere(r, before, c) == FitsNowhere(q, before, c)
    ensures PlacingStep(q, c, before, after) ==> PlacingStep(r, c, before, after)
  {
    hide Materialized, VariantsOf, DayFor, Inserted;
    VariantsIgnoreListing(r, q, c);
    forall day: Day, route: seq<Variant>
      ensures Materialized(r, day, route) == Materialized(q, day, route)
    {
      AttemptsIgnoreListing(r, q, day, route);
    }
    forall i: nat, position: nat
      ensures Fits(r, before, VariantsOf(r, c), i, position) == Fits(q, before, VariantsOf(r, c), i, position)
    {}
    if x :| PlacedAt(q, c, before, after, x) {
      assert PlacedAt(r, c, before, after, x);
    }
  }

  // ------------------------------------------------------------- the placing order

  lemma {:induction false} WhereCounts(cs: seq<Candidate>, mustDo: bool, c: Candidate)
    ensures multiset(Where(cs, mustDo))[c] == if c.mustDo == mustDo then multiset(cs)[c] else 0
  {
    if cs == [] {
    } else {
      WhereCounts(cs[1..], mustDo, c);
      assert cs == [cs[0]] + cs[1..];
    }
  }

  lemma SortedTail<T>(s: seq<T>, before: (T, T) -> bool)
    requires SortedBy(s, before) && s != []
    ensures SortedBy(s[1..], before) && forall x | x in s[1..] :: x in s
  {}

  lemma WithoutHead<T>(s: seq<T>)
    requires s != []
    ensures s == [s[0]] + s[1..] && multiset(s[1..]) == multiset(s) - multiset{s[0]}
  {
    assert s == [s[0]] + s[1..];
  }

  lemma SameHead<T>(a: seq<T>, b: seq<T>, before: (T, T) -> bool)
    requires SortedBy(a, before) && SortedBy(b, before) && multiset(a) == multiset(b) && a != []
    requires forall x, y | x in a && y in a && before(x, y) && before(y, x) :: x == y
    ensures b != [] && a[0] == b[0]
  {
    assert a[0] in multiset(b);
    assert b[0] in multiset(a);
    var i :| 0 <= i < |b| && b[i] == a[0];
    var j :| 0 <= j < |a| && a[j] == b[0];
    assert i > 0 ==> before(b[0], a[0]);
    assert j > 0 ==> before(a[0], b[0]);
  }

  /** Sorted sequences of the same elements are equal when only equal elements tie. */
  lemma {:induction false} SortedIsUnique<T>(a: seq<T>, b: seq<T>, before: (T, T) -> bool)
    requires SortedBy(a, before) && SortedBy(b, before) && multiset(a) == multiset(b)
    requires forall x, y | x in a && y in a && before(x, y) && before(y, x) :: x == y
    ensures a == b
  {
    hide SortedBy;
    if a == [] {
      assert |multiset(b)| == 0;
    } else {
      SameHead(a, b, before);
      WithoutHead(a);
      WithoutHead(b);
      SortedTail(a, before);
      SortedTail(b, before);
      SortedIsUnique(a[1..], b[1..], before);
    }
  }

  lemma SameWhere(r: Request, q: Request, mustDo: bool)
    requires Relisted(r, q)
    ensures multiset(Where(r.candidates, mustDo)) == multiset(Where(q.candidates, mustDo))
  {
    forall c
      ensures multiset(Where(r.candidates, mustDo))[c] == multiset(Where(q.candidates, mustDo))[c]
    {
      WhereCounts(r.candidates, mustDo, c);
      WhereCounts(q.candidates, mustDo, c);
    }
  }

  lemma SameIfBothAtMost(a: string, b: string)
    requires AtMost(a, b) && AtMost(b, a)
    ensures a == b
  {
    LessTotal(a, b);
  }

  lemma SameIdSameCandidate(cs: seq<Candidate>, x: Candidate, y: Candidate)
    requires DistinctPois(cs) && x in cs && y in cs && AtMost(x.poiId, y.poiId) && AtMost(y.poiId, x.poiId)
    ensures x == y
  {
    SameIfBothAtMost(x.poiId, y.poiId);
    var i :| 0 <= i < |cs| && cs[i] == x;
    var j :| 0 <= j < |cs| && cs[j] == y;
    assert i == j;
  }

  lemma SameMustDos(r: Request, q: Request)
    requires ValidRequest(r) && Relisted(r, q)
    ensures SortBy(Where(r.candidates, true), MustDoBefore) == SortBy(Where(q.candidates, true), MustDoBefore)
  {
    var a, b := Where(r.candidates, true), Where(q.candidates, true);
    SameWhere(r, q, true);
    MustDoOrderIsTotal();
    SortedMembers(a, MustDoBefore);
    SortedMembers(b, MustDoBefore);
    forall x, y | x in SortBy(a, MustDoBefore) && y in SortBy(a, MustDoBefore) && MustDoBefore(x, y)
        && MustDoBefore(y, x)
      ensures x == y
    {
      SameIdSameCandidate(r.candidates, x, y);
    }
    SortedIsUnique(SortBy(a, MustDoBefore), SortBy(b, MustDoBefore), MustDoBefore);
  }

  lemma SameOptionals(r: Request, q: Request)
    requires ValidRequest(r) && Relisted(r, q)
    ensures SortBy(Where(r.candidates, false), (x, y) => OptionalBefore(r, x, y))
         == SortBy(Where(q.candidates, false), (x, y) => OptionalBefore(q, x, y))
  {
    hide OptionalBefore, SortBy, Total;
    var a, b := Where(r.candidates, false), Where(q.candidates, false);
    var f, g := (x, y) => OptionalBefore(r, x, y), (x, y) => OptionalBefore(q, x, y);
    SameWhere(r, q, false);
    OptionalOrderIsTotal(r);
    OptionalOrderIsTotal(q);
    SortedMembers(a, f);
    SortedMembers(b, g);
    forall x: Candidate, y: Candidate
      ensures f(x, y) == g(x, y)
    {
      RankIgnoresListing(r, q, x, y);
    }
    forall x, y | x in SortBy(a, f) && y in SortBy(a, f) && f(x, y) && f(y, x)
      ensures x == y
    {
      TiedOptionalsAreEqual(r, x, y);
    }
    SortedIsUnique(SortBy(a, f), SortBy(b, g), f);
  }

  lemma RankIgnoresListing(r: Request, q: Request, x: Candidate, y: Candidate)
    requires Relisted(r, q)
    ensures OptionalBefore(r, x, y) == OptionalBefore(q, x, y)
  {
    hide VariantsOf, BestPrize, AtMost;
    VariantsIgnoreListing(r, q, x);
    VariantsIgnoreListing(r, q, y);
  }

  lemma TiedOptionalsAreEqual(r: Request, x: Candidate, y: Candidate)
    requires DistinctPois(r.candidates) && x in r.candidates && y in r.candidates
    requires OptionalBefore(r, x, y) && OptionalBefore(r, y, x)
    ensures x == y
  {
    hide VariantsOf, BestPrize, AtMost;
    SameIdSameCandidate(r.candidates, x, y);
  }

  /** The order in which candidates are placed does not depend on how they are listed. */
  lemma OrderIgnoresListing(r: Request, q: Request)
    requires ValidRequest(r) && Relisted(r, q)
    ensures PlacingOrder(r) == PlacingOrder(q)
  {
    hide Where, SortBy;
    SameMustDos(r, q);
    SameOptionals(r, q);
  }

  /** Nor do the routes after each candidate. */
  lemma {:induction false} RunsAgree(r: Request, q: Request, order: seq<Candidate>, m: nat, n: nat, s: seq<Routes>,
                                     t: seq<Routes>, k: nat)
    requires Relisted(r, q) && m <= |order| && n <= |order| && k <= m && k <= n
    requires PlacingRun(r, order[..m], s) && PlacingRun(q, order[..n], t)
    ensures s[k] == t[k]
  {
    hide PlacingStep;
    if k == 0 {
    } else {
      var before := k - 1;
      RunsAgree(r, q, order, m, n, s, t, before);
      assert PlacingStep(r, order[..m][before], s[before], s[k]) && PlacingStep(q, order[..n][before], t[before], t[k]);
      StepsIgnoreListing(r, q, order[before], t[before], t[k]);
      StepIsUnique(r, order[before], s[before], s[k], t[k]);
    }
  }

  // ------------------------------------------------------------- improving and emitting

  lemma ImprovesIgnoresListing(r: Request, q: Request, day: Day, route: seq<Variant>, left: nat, right: nat)
    requires Relisted(r, q) && left <= right <= |route|
    ensures TwoOpt.Improves(r, day, route, left, right) == TwoOpt.Improves(q, day, route, left, right)
  {
    hide Materialized, TwoOpt.WithReversal;
    AttemptsIgnoreListing(r, q, day, route);
    AttemptsIgnoreListing(r, q, day, TwoOpt.WithReversal(route, left, right));
  }

  lemma TurnIgnoresListing(r: Request, q: Request, day: Day, before: seq<Variant>, after: seq<Variant>)
    requires Relisted(r, q) && TwoOpt.Turn(q, day, before, after)
    ensures TwoOpt.Turn(r, day, before, after)
  {
    hide TwoOpt.Improves, TwoOpt.WithReversal;
    forall left: nat, right: nat | TwoOpt.InSearch(|before|, left, right)
      ensures TwoOpt.Improves(r, day, before, left, right) == TwoOpt.Improves(q, day, before, left, right)
    {
      ImprovesIgnoresListing(r, q, day, before, left, right);
    }
    var l, h :| TwoOpt.FirstImproving(q, day, before, l, h) && after == TwoOpt.WithReversal(before, l, h);
    assert TwoOpt.FirstImproving(r, day, before, l, h);
  }

  lemma PolishedIgnoresListing(r: Request, q: Request, day: Day, route: seq<Variant>, result: seq<Variant>)
    requires Relisted(r, q) && TwoOpt.Polished(q, day, route, result)
    ensures TwoOpt.Polished(r, day, route, result)
  {
    hide TwoOpt.Improves, TwoOpt.Turn;
    forall left: nat, right: nat | TwoOpt.InSearch(|result|, left, right)
      ensures TwoOpt.Improves(r, day, result, left, right) == TwoOpt.Improves(q, day, result, left, right)
    {
      ImprovesIgnoresListing(r, q, day, result, left, right);
    }
    if |route| >= 4 {
      var trace :| TwoOpt.DescendsTo(q, day, route, result, trace);
      forall i, n | 0 <= i < |trace| - 1 && n == i + 1
        ensures TwoOpt.Turn(r, day, trace[i], trace[n])
      {
        TurnIgnoresListing(r, q, day, trace[i], trace[n]);
      }
      assert TwoOpt.DescendsTo(r, day, route, result, trace);
    }
  }

  lemma MealIsUnique(r: Request, day: Day, visits: seq<Visit>, w: MealWindow, a: Option<Planned>, b: Option<Planned>)
    requires MealFor(r, day, visits, w, a) && MealFor(r, day, visits, w, b)
    ensures a == b
  {}

  /** A route is emitted in one way, meals and all. */
  lemma EmissionIsUnique(r: Request, q: Request, day: Day, route: seq<Variant>, a: DayPlan, b: DayPlan)
    requires Relisted(r, q) && EmittedDay(r, day, route, a) && EmittedDay(q, day, route, b)
    ensures a == b
  {
    hide Materialized, MealsFor, Windows, SortBy, Numbered, PlannedVisits, Present;
    AttemptsIgnoreListing(r, q, day, route);
    var visits := Materialized(r, day, route).visits;
    var s :| EmittedFor(r, day, route, a, Present(s)) && MealsFor(r, day, visits, Windows(r, day), s);
    var t :| EmittedFor(q, day, route, b, Present(t)) && MealsFor(q, day, visits, Windows(q, day), t);
    MealsAreUnique(r, q, day, visits, s, t);
  }

  lemma MealsAreUnique(r: Request, q: Request, day: Day, visits: seq<Visit>, s: seq<Option<Planned>>,
                       t: seq<Option<Planned>>)
    requires Relisted(r, q)
    requires MealsFor(r, day, visits, Windows(r, day), s) && MealsFor(q, day, visits, Windows(q, day), t)
    ensures s == t
  {
    hide MealFor, Windows;
    var ws := Windows(r, day);
    WindowsIgnoreListing(r, q, day);
    forall i | 0 <= i < |s|
      ensures s[i] == t[i]
    {
      assert MealFor(r, day, visits, ws[i], s[i]) && MealFor(q, day, visits, ws[i], t[i]);
      MealIgnoresListing(r, q, day, visits, ws[i], t[i]);
      MealIsUnique(r, day, visits, ws[i], s[i], t[i]);
    }
  }

  lemma WindowsIgnoreListing(r: Request, q: Request, day: Day)
    requires Relisted(r, q)
    ensures Windows(r, day) == Windows(q, day)
  {}

  lemma MealIgnoresListing(r: Request, q: Request, day: Day, visits: seq<Visit>, w: MealWindow, meal: Option<Planned>)
    requires Relisted(r, q) && MealFor(q, day, visits, w, meal)
    ensures MealFor(r, day, visits, w, meal)
  {
    hide MealLength, Free, IsFirstFit;
    assert MealLength(r) == MealLength(q) by { LengthIgnoresListing(r, q); }
  }

  lemma LengthIgnoresListing(r: Request, q: Request)
    requires Relisted(r, q)
    ensures MealLength(r) == MealLength(q)
  {}

  lemma {:induction false} PrizeIgnoresListing(r: Request, q: Request, a: Routes, b: Routes, n: nat)
    requires Relisted(r, q) && HasRoutes(a, r.days) && HasRoutes(b, r.days) && n <= |r.days|
    requires forall d | d in r.days :: a[d.dayIndex] == b[d.dayIndex]
    ensures PrizeOfDays(r, a, n) == PrizeOfDays(q, b, n)
  {
    hide Materialized, PrizeOfVisits;
    if n == 0 {
    } else {
      PrizeIgnoresListing(r, q, a, b, n - 1);
      assert r.days[n - 1] in r.days;
      AttemptsIgnoreListing(r, q, r.days[n - 1], a[r.days[n - 1].dayIndex]);
    }
  }

  lemma {:induction false} SameRoutesSameTimes(days: seq<Day>, a: Routes, b: Routes, p: PoiId)
    requires HasRoutes(a, days) && HasRoutes(b, days) && forall d | d in days :: a[d.dayIndex] == b[d.dayIndex]
    ensures TimesInAll(a, days, p) == TimesInAll(b, days, p)
  {
    hide Times;
    if days == [] {
    } else {
      SameRoutesSameTimes(days[1..], a, b, p);
    }
  }

  lemma UnscheduledIsUnique(r: Request, q: Request, a: Routes, b: Routes, s: seq<PoiId>, t: seq<PoiId>)
    requires Relisted(r, q) && HasRoutes(a, r.days) && HasRoutes(b, r.days)
    requires forall d | d in r.days :: a[d.dayIndex] == b[d.dayIndex]
    requires Accounted(r, a, s, r.candidates) && Accounted(q, b, t, q.candidates)
    requires SortedBy(s, AtMost) && SortedBy(t, AtMost)
    ensures s == t
  {
    hide TimesInAll, Less;
    forall p
      ensures multiset(s)[p] == multiset(t)[p]
    {
      SameRoutesSameTimes(r.days, a, b, p);
      CountPermuted(r.candidates, q.candidates, Naming(p));
      assert TimesInAll(a, r.days, p) + Occurs(s, p) == Asked(r.candidates, p);
      assert TimesInAll(b, q.days, p) + Occurs(t, p) == Asked(q.candidates, p);
    }
    forall x, y | x in s && y in s && AtMost(x, y) && AtMost(y, x)
      ensures x == y
    {
      SameIfBothAtMost(x, y);
    }
    SortedIsUnique(s, t, AtMost);
  }

  // ------------------------------------------------------------- the answer

  /** What `SolveGreedy` promises of its answer, as far as it is needed here. */
  ghost predicate IsAnswer(r: Request, solution: Solution, routes: Routes, states: seq<Routes>) {
    var order := PlacingOrder(r);
    && 0 < |states| <= |order| + 1
    && PlacingRun(r, order[..|states| - 1], states) && Unblocked(r, order[..|states| - 1], states)
    && match solution
       case Infeasible(blocking) => Blocks(r, order, states, blocking)
       case Feasible(plans, unscheduled, objective) =>
         |states| == |order| + 1 && IsFeasibleAnswer(r, plans, unscheduled, objective, routes, states[|states| - 1])
  }

  /** The run stopped at a must-do that fits nowhere. */
  ghost predicate Blocks(r: Request, order: seq<Candidate>, states: seq<Routes>, blocking: PoiId) {
    && 0 < |states| <= |order|
    && var c := order[|states| - 1];
       c.mustDo && c.poiId == blocking && FitsNowhere(r, states[|states| - 1], c)
  }

  ghost predicate IsFeasibleAnswer(r: Request, plans: seq<DayPlan>, unscheduled: seq<PoiId>, objective: nat,
                                   routes: Routes, placed: Routes) {
    && HasRoutes(routes, r.days) && HasRoutes(placed, r.days)
    && (forall d | d in r.days :: TwoOpt.Polished(r, d, placed[d.dayIndex], routes[d.dayIndex]))
    && Accounted(r, routes, unscheduled, r.candidates) && SortedBy(unscheduled, AtMost)
    && EmittedPlans(r, routes, plans) && objective == PrizeOfDays(r, routes, |r.days|)
  }

  /** Two runs stop at the same must-do, or not at all. */
  lemma NoLaterStop(r: Request, q: Request, order: seq<Candidate>, s: seq<Routes>, t: seq<Routes>, blocking: PoiId)
    requires Relisted(r, q) && 0 < |t| <= |order| + 1
    requires Blocks(r, order, s, blocking) && PlacingRun(r, order[..|s| - 1], s)
    requires PlacingRun(q, order[..|t| - 1], t) && Unblocked(q, order[..|t| - 1], t)
    ensures |t| <= |s|
  {
    hide FitsNowhere, PlacingStep;
    if |t| > |s| {
      var k := |s| - 1;
      RunsAgree(r, q, order, |s| - 1, |t| - 1, s, t, k);
      StepsIgnoreListing(r, q, order[k], t[k], t[k]);
    }
  }

  lemma RoutesAreUnique(r: Request, q: Request, a: Routes, b: Routes, placed: Routes)
    requires Relisted(r, q) && HasRoutes(a, r.days) && HasRoutes(b, r.days) && HasRoutes(placed, r.days)
    requires forall d | d in r.days :: TwoOpt.Polished(r, d, placed[d.dayIndex], a[d.dayIndex])
    requires forall d | d in r.days :: TwoOpt.Polished(q, d, placed[d.dayIndex], b[d.dayIndex])
    ensures forall d | d in r.days :: a[d.dayIndex] == b[d.dayIndex]
  {
    hide TwoOpt.Polished;
    forall d | d in r.days
      ensures a[d.dayIndex] == b[d.dayIndex]
    {
      PolishedIgnoresListing(r, q, d, placed[d.dayIndex], b[d.dayIndex]);
      TwoOpt.PolishedIsUnique(r, d, placed[d.dayIndex], a[d.dayIndex], b[d.dayIndex]);
    }
  }

  lemma FeasibleAnswerIsUnique(r: Request, q: Request, a: Solution, b: Solution, s: Routes, t: Routes, placed: Routes)
    requires Relisted(r, q) && a.Feasible? && b.Feasible?
    requires IsFeasibleAnswer(r, a.plans, a.unscheduled, a.objective, s, placed)
    requires IsFeasibleAnswer(q, b.plans, b.unscheduled, b.objective, t, placed)
    ensures a == b
  {
    hide TwoOpt.Polished, EmittedDay, Accounted, SortedBy;
    RoutesAreUnique(r, q, s, t, placed);
    UnscheduledIsUnique(r, q, s, t, a.unscheduled, b.unscheduled);
    PrizeIgnoresListing(r, q, s, t, |r.days|);
    forall n | 0 <= n < |r.days|
      ensures a.plans[n] == b.plans[n]
    {
      var day := r.days[n];
      assert EmittedDay(r, day, s[day.dayIndex], a.plans[n]) && EmittedDay(q, day, t[day.dayIndex], b.plans[n]);
      EmissionIsUnique(r, q, day, s[day.dayIndex], a.plans[n], b.plans[n]);
    }
  }

  /** Whatever way the candidates are listed, there is one answer. */
  lemma AnswerIsUnique(r: Request, q: Request, a: Solution, s: Routes, states: seq<Routes>,
                       b: Solution, t: Routes, others: seq<Routes>)
    requires ValidRequest(r) && Relisted(r, q)
    requires IsAnswer(r, a, s, states) && IsAnswer(q, b, t, others)
    ensures a == b
  {
    hide PlacingOrder, PlacingRun, Unblocked, IsFeasibleAnswer, FitsNowhere;
    OrderIgnoresListing(r, q);
    var order := PlacingOrder(r);
    RelistedBack(r, q);
    if a.Infeasible? {
      NoLaterStop(r, q, order, states, others, a.blocking);
    }
    if b.Infeasible? {
      NoLaterStop(q, r, order, others, states, b.blocking);
    }
    if a.Feasible? && b.Feasible? {
      SameStates(r, q, order, |order|, states, others);
      FeasibleAnswerIsUnique(r, q, a, b, s, t, states[|order|]);
    }
  }

  lemma SameStates(r: Request, q: Request, order: seq<Candidate>, n: nat, s: seq<Routes>, t: seq<Routes>)
    requires Relisted(r, q) && n <= |order| && PlacingRun(r, order[..n], s) && PlacingRun(q, order[..n], t)
    ensures |s| == |t| == n + 1 && s[n] == t[n]
  {
    RunsAgree(r, q, order, n, n, s, t, n);
  }

  lemma RelistedBack(r: Request, q: Request)
    requires Relisted(r, q)
    ensures Relisted(q, r)
  {}

  /** The solver, run on the same request listed in two ways, gives the same answer. */
  method SolveTwice(r: Request, q: Request) returns (a: Solution, b: Solution)
    requires ValidRequest(r) && ValidRequest(q) && Relisted(r, q) && r.options.meals.durationMin > 0
    ensures a == b
  {
    hide IsAnswer, ValidRequest;
    var s, t;
    ghost var states, others;
    a, s, states := Solve(r);
    b, t, others := Solve(q);
    AnswerIsUnique(r, q, a, s, states, b, t, others);
  }

  method Solve(r: Request) returns (solution: Solution, routes: Routes, ghost states: seq<Routes>)
    requires ValidRequest(r) && r.options.meals.durationMin > 0
    ensures GoodRoutes(r, routes) && (solution.Feasible? ==> EmittedPlans(r, routes, solution.plans))
    ensures IsAnswer(r, solution, routes, states)
  {
    hide PlacingOrder, PlacingRun, Unblocked, FitsNowhere, Accounted, EmittedDay, SortedBy, GoodRoutes, OnlyOptional,
         Materialized, TwoOpt.Polished, Improved;
    solution, routes, states := SolveGreedy(r);
    GoodRoutesAreValid(r, routes);
    assert PlacingOrder(r)[..|PlacingOrder(r)|] == PlacingOrder(r);
  }
}
