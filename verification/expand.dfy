/**
 * `expand_variants`: every way to visit a candidate as a (day, start-time stretch)
 * variant, and what those variants guarantee about opening hours.
 */
module Expand {
  import opened Prelude
  import opened SolverModel
  import opened Variants
  import opened Route

  function Decimal(n: nat): string {
    if n < 10 then ['0' + n as char] else Decimal(n / 10) + ['0' + (n % 10) as char]
  }

  function VariantKey(c: Candidate, dayIndex: nat, serial: nat): string {
    c.poiId + ":" + Decimal(dayIndex) + ":" + Decimal(serial)
  }

  /** Any best-time window, of whatever day, that overlaps the segment. */
  predicate Golden(ws: seq<Window>, s: Span) {
    exists w | w in ws :: w.opens < s.closes && s.opens < w.closes
  }

  function LatestStart(r: Request, c: Candidate, s: Span): Time {
    s.closes - 60 * VisitMinutes(r, c)
  }

  function VariantFor(r: Request, c: Candidate, dayIndex: nat, s: Span, serial: nat): Variant {
    Variant(VariantKey(c, dayIndex, serial), c, dayIndex, s.opens, LatestStart(r, c, s), VisitMinutes(r, c),
            r.prizeOf(c, WeatherAt(r.options.weather, dayIndex, Midpoint(s)), Golden(c.bestTimeWindows, s)))
  }

  // ------------------------------------------------------------- expansion

  function AddSegments(r: Request, c: Candidate, dayIndex: nat, segs: seq<Span>, acc: seq<Variant>): seq<Variant> {
    if segs == [] then acc
    else
      var s := segs[|segs| - 1];
      var before := AddSegments(r, c, dayIndex, segs[..|segs| - 1], acc);
      if LatestStart(r, c, s) < s.opens then before else before + [VariantFor(r, c, dayIndex, s, |before|)]
  }

  function AddSpans(r: Request, c: Candidate, day: Day, spans: seq<Span>, acc: seq<Variant>): seq<Variant> {
    if spans == [] then acc
    else
      AddSegments(r, c, day.dayIndex, Segments(r, c, day, spans[|spans| - 1]),
          AddSpans(r, c, day, spans[..|spans| - 1], acc))
  }

  function AddDays(r: Request, c: Candidate, days: seq<Day>): seq<Variant> {
    if days == [] then []
    else
      var day := days[|days| - 1];
      AddSpans(r, c, day, BaseSpans(r, c, day), AddDays(r, c, days[..|days| - 1]))
  }

  /** What `expand_variants` stores for one candidate. */
  function VariantsOf(r: Request, c: Candidate): seq<Variant> {
    if AutoInsertable(c) then AddDays(r, c, r.days) else []
  }

  method ExpandSegments(r: Request, c: Candidate, dayIndex: nat, segs: seq<Span>, acc: seq<Variant>)
    returns (variants: seq<Variant>)
    ensures variants == AddSegments(r, c, dayIndex, segs, acc)
  {
    variants := acc;
    assert segs[..|segs|] == segs;
    for i := 0 to |segs|
      invariant variants == AddSegments(r, c, dayIndex, segs[..i], acc)
    {
      assert segs[..i + 1][..i] == segs[..i];
      var latestStart := segs[i].closes - 60 * VisitMinutes(r, c);
      if latestStart < segs[i].opens {
        continue;
      }
      variants := variants + [VariantFor(r, c, dayIndex, segs[i], |variants|)];
    }
  }

  method ExpandCandidate(r: Request, c: Candidate) returns (variants: seq<Variant>)
    ensures variants == VariantsOf(r, c)
  {
    hide BaseSpans, Segments, AddSegments, AutoInsertable;
    variants := [];
    if !AutoInsertable(c) {
      return;
    }
    assert r.days[..|r.days|] == r.days;
    for d := 0 to |r.days|
      invariant variants == AddDays(r, c, r.days[..d])
    {
      assert r.days[..d + 1][..d] == r.days[..d];
      var day := r.days[d];
      ghost var before := variants;
      var spans := BaseIntervals(r, c, day);
      assert spans[..|spans|] == spans;
      for i := 0 to |spans|
        invariant variants == AddSpans(r, c, day, spans[..i], before)
      {
        assert spans[..i + 1][..i] == spans[..i];
        var segs := SplitBoundaries(r, c, day, spans[i]);
        variants := ExpandSegments(r, c, day.dayIndex, segs, variants);
      }
    }
  }

  /** `expand_variants`. */
  method ExpandVariants(r: Request) returns (expanded: map<PoiId, seq<Variant>>)
    requires DistinctPois(r.candidates)
    ensures forall c | c in r.candidates :: c.poiId in expanded && expanded[c.poiId] == VariantsOf(r, c)
  {
    expanded := map[];
    for i := 0 to |r.candidates|
      invariant forall k | 0 <= k < i ::
        var c := r.candidates[k]; c.poiId in expanded && expanded[c.poiId] == VariantsOf(r, c)
    {
      var variants := ExpandCandidate(r, r.candidates[i]);
      expanded := expanded[r.candidates[i].poiId := variants];
    }
  }

  // ------------------------------------------------------------- where variants come from

  /** `v` is the variant of one long enough segment of one interval of one day. */
  ghost predicate ComesFrom(r: Request, c: Candidate, v: Variant, day: Day, span: Span, s: Span) {
    && day in r.days && span in BaseSpans(r, c, day) && s in Segments(r, c, day, span)
    && LatestStart(r, c, s) >= s.opens
    && exists serial: nat :: v == VariantFor(r, c, day.dayIndex, s, serial)
  }

  ghost predicate IsVariantOf(r: Request, c: Candidate, v: Variant) {
    exists day, span, s :: ComesFrom(r, c, v, day, span, s)
  }

  ghost predicate AllVariantsOf(r: Request, c: Candidate, vs: seq<Variant>) {
    forall v | v in vs :: IsVariantOf(r, c, v)
  }

  lemma {:induction false} SegmentsAreSound(r: Request, c: Candidate, day: Day, span: Span, segs: seq<Span>,
                                            acc: seq<Variant>)
    requires day in r.days && span in BaseSpans(r, c, day)
    requires forall s | s in segs :: s in Segments(r, c, day, span)
    requires AllVariantsOf(r, c, acc)
    ensures AllVariantsOf(r, c, AddSegments(r, c, day.dayIndex, segs, acc))
  {
    hide Segments, BaseSpans, VariantFor, LatestStart;
    if segs == [] {
    } else {
      var s := segs[|segs| - 1];
      var before := AddSegments(r, c, day.dayIndex, segs[..|segs| - 1], acc);
      SegmentsAreSound(r, c, day, span, segs[..|segs| - 1], acc);
      if LatestStart(r, c, s) >= s.opens {
        assert ComesFrom(r, c, VariantFor(r, c, day.dayIndex, s, |before|), day, span, s);
      }
    }
  }

  lemma {:induction false} SpansAreSound(r: Request, c: Candidate, day: Day, spans: seq<Span>, acc: seq<Variant>)
    requires day in r.days && forall s | s in spans :: s in BaseSpans(r, c, day)
    requires AllVariantsOf(r, c, acc)
    ensures AllVariantsOf(r, c, AddSpans(r, c, day, spans, acc))
  {
    hide Segments, BaseSpans, AllVariantsOf;
    if spans == [] {
    } else {
      SpansAreSound(r, c, day, spans[..|spans| - 1], acc);
      var span := spans[|spans| - 1];
      SegmentsAreSound(r, c, day, span, Segments(r, c, day, span), AddSpans(r, c, day, spans[..|spans| - 1], acc));
    }
  }

  lemma {:induction false} DaysAreSound(r: Request, c: Candidate, days: seq<Day>)
    requires forall d | d in days :: d in r.days
    ensures AllVariantsOf(r, c, AddDays(r, c, days))
  {
    if days == [] {
    } else {
      var day := days[|days| - 1];
      DaysAreSound(r, c, days[..|days| - 1]);
      SpansAreSound(r, c, day, BaseSpans(r, c, day), AddDays(r, c, days[..|days| - 1]));
    }
  }

  /** Nothing but variants of the candidate's own segments is produced. */
  lemma ExpansionIsSound(r: Request, c: Candidate)
    ensures AllVariantsOf(r, c, VariantsOf(r, c))
  {
    DaysAreSound(r, c, r.days);
  }

  // ------------------------------------------------------------- completeness

  /** Some variant in `vs` covers the segment. */
  ghost predicate Represents(r: Request, c: Candidate, vs: seq<Variant>, dayIndex: nat, s: Span) {
    exists serial: nat :: VariantFor(r, c, dayIndex, s, serial) in vs
  }

  lemma {:induction false} SegmentsAreKept(r: Request, c: Candidate, dayIndex: nat, segs: seq<Span>, acc: seq<Variant>,
                                           s: Span)
    requires s in segs && LatestStart(r, c, s) >= s.opens
    ensures Represents(r, c, AddSegments(r, c, dayIndex, segs, acc), dayIndex, s)
  {
    hide VariantFor, LatestStart;
    var before := AddSegments(r, c, dayIndex, segs[..|segs| - 1], acc);
    if segs[|segs| - 1] == s {
      assert VariantFor(r, c, dayIndex, s, |before|) in AddSegments(r, c, dayIndex, segs, acc);
    } else {
      SegmentsAreKept(r, c, dayIndex, segs[..|segs| - 1], acc, s);
      var serial: nat :| VariantFor(r, c, dayIndex, s, serial) in before;
      assert VariantFor(r, c, dayIndex, s, serial) in AddSegments(r, c, dayIndex, segs, acc);
    }
  }

  lemma {:induction false} SegmentsKeepEarlier(r: Request, c: Candidate, dayIndex: nat, segs: seq<Span>,
                                               acc: seq<Variant>, v: Variant)
    requires v in acc
    ensures v in AddSegments(r, c, dayIndex, segs, acc)
  {
    if segs == [] {
    } else {
      SegmentsKeepEarlier(r, c, dayIndex, segs[..|segs| - 1], acc, v);
    }
  }

  lemma {:induction false} SpansKeepEarlier(r: Request, c: Candidate, day: Day, spans: seq<Span>, acc: seq<Variant>,
                                            v: Variant)
    requires v in acc
    ensures v in AddSpans(r, c, day, spans, acc)
  {
    if spans == [] {
    } else {
      SpansKeepEarlier(r, c, day, spans[..|spans| - 1], acc, v);
      SegmentsKeepEarlier(r, c, day.dayIndex, Segments(r, c, day, spans[|spans| - 1]),
          AddSpans(r, c, day, spans[..|spans| - 1], acc), v);
    }
  }

  lemma {:induction false} SpansAreKept(r: Request, c: Candidate, day: Day, spans: seq<Span>, acc: seq<Variant>,
                                        span: Span, s: Span)
    requires span in spans && s in Segments(r, c, day, span) && LatestStart(r, c, s) >= s.opens
    ensures Represents(r, c, AddSpans(r, c, day, spans, acc), day.dayIndex, s)
  {
    hide VariantFor, LatestStart, Segments;
    var last, before := spans[|spans| - 1], AddSpans(r, c, day, spans[..|spans| - 1], acc);
    if last == span {
      SegmentsAreKept(r, c, day.dayIndex, Segments(r, c, day, span), before, s);
    } else {
      SpansAreKept(r, c, day, spans[..|spans| - 1], acc, span, s);
      var serial: nat :| VariantFor(r, c, day.dayIndex, s, serial) in before;
      SegmentsKeepEarlier(r, c, day.dayIndex, Segments(r, c, day, last), before,
          VariantFor(r, c, day.dayIndex, s, serial));
    }
  }

  lemma {:induction false} DaysAreKept(r: Request, c: Candidate, days: seq<Day>, day: Day, span: Span, s: Span)
    requires day in days && span in BaseSpans(r, c, day) && s in Segments(r, c, day, span)
        && LatestStart(r, c, s) >= s.opens
    ensures Represents(r, c, AddDays(r, c, days), day.dayIndex, s)
  {
    hide VariantFor, LatestStart, Segments, BaseSpans;
    var last, before := days[|days| - 1], AddDays(r, c, days[..|days| - 1]);
    if last == day {
      SpansAreKept(r, c, day, BaseSpans(r, c, day), before, span, s);
    } else {
      DaysAreKept(r, c, days[..|days| - 1], day, span, s);
      var serial: nat :| VariantFor(r, c, day.dayIndex, s, serial) in before;
      SpansKeepEarlier(r, c, last, BaseSpans(r, c, last), before, VariantFor(r, c, day.dayIndex, s, serial));
    }
  }

  /** Every segment with room for the visit is represented, unless access policy bars the candidate. */
  lemma ExpansionIsComplete(r: Request, c: Candidate, day: Day, span: Span, s: Span)
    requires AutoInsertable(c) && day in r.days
    requires span in BaseSpans(r, c, day) && s in Segments(r, c, day, span)
    ensures LatestStart(r, c, s) >= s.opens <==> Represents(r, c, VariantsOf(r, c), day.dayIndex, s)
  {
    if LatestStart(r, c, s) >= s.opens {
      DaysAreKept(r, c, r.days, day, span, s);
    } else if Represents(r, c, VariantsOf(r, c), day.dayIndex, s) {
      var serial: nat :| VariantFor(r, c, day.dayIndex, s, serial) in VariantsOf(r, c);
      var v := VariantFor(r, c, day.dayIndex, s, serial);
      ExpansionIsSound(r, c);
      assert IsVariantOf(r, c, v);
      VariantHasRoom(r, c, v);
      assert false;
    }
  }

  lemma VariantHasRoom(r: Request, c: Candidate, v: Variant)
    requires IsVariantOf(r, c, v)
    ensures v.candidate == c && v.opens <= v.latestStart && v.durationMin == VisitMinutes(r, c)
    ensures exists d :: d in r.days && d.dayIndex == v.dayIndex
  {
    var day, span, s :| ComesFrom(r, c, v, day, span, s);
  }

  // ------------------------------------------------------------- opening hours

  lemma {:induction false} ClipsComeFromWindows(ws: seq<Window>, lo: Time, hi: Time, span: Span)
    requires span in ClipAll(ws, lo, hi)
    ensures span.opens < span.closes
    ensures exists w :: w in ws && w.opens <= span.opens && span.closes <= w.closes
  {
    var w := ws[|ws| - 1];
    if span in ClipAll(ws[..|ws| - 1], lo, hi) {
      ClipsComeFromWindows(ws[..|ws| - 1], lo, hi, span);
      var u :| u in ws[..|ws| - 1] && u.opens <= span.opens && span.closes <= u.closes;
      assert u in ws;
    } else {
      assert span == Clip(w, lo, hi) && w in ws;
    }
  }

  /**
   * Hours are respected by construction: a candidate with hours only gets variants
   * whose every start, plus the visit, stays inside one window of that day.
   */
  lemma VariantsRespectHours(r: Request, c: Candidate, v: Variant)
    requires v in VariantsOf(r, c) && c.windows != []
    ensures exists w ::
      w in c.windows && w.dayIndex == v.dayIndex && w.opens <= v.opens && v.latestStart + v.Seconds() <= w.closes
  {
    hide VariantsOf, Segments, ClipAll, VisitMinutes, DayStart, DayEnd;
    ExpansionIsSound(r, c);
    assert IsVariantOf(r, c, v);
    var day, span, s :| ComesFrom(r, c, v, day, span, s);
    ClipsComeFromWindows(WindowsForDay(c.windows, day.dayIndex), DayStart(r, day), DayEnd(r, day), span);
    var w :| w in WindowsForDay(c.windows, day.dayIndex) && w.opens <= span.opens && span.closes <= w.closes;
    SegmentInsideSpan(r, c, day, span, s);
    assert w in c.windows && w.dayIndex == v.dayIndex;
  }

  lemma SegmentInsideSpan(r: Request, c: Candidate, day: Day, span: Span, s: Span)
    requires span.opens < span.closes && s in Segments(r, c, day, span)
    ensures span.opens <= s.opens < s.closes <= span.closes
  {
    var k :| 0 <= k < |Segments(r, c, day, span)| && Segments(r, c, day, span)[k] == s;
    var ts := Sorted(Boundaries(r, c, day, span));
    BoundariesInside(r, c, day, span);
    assert ts[k] in Boundaries(r, c, day, span) && ts[k + 1] in Boundaries(r, c, day, span);
  }

  // ------------------------------------------------------------- inverted intervals

  lemma {:induction false} TimeOnlyMovesForward(m: TravelMatrix, day: Day, route: seq<Variant>, k: nat, n: nat)
    requires k <= n <= |route|
    ensures EarliestFree(m, day, route, k) <= EarliestFree(m, day, route, n)
    decreases n
  {
    if k >= n {
    } else {
      TimeOnlyMovesForward(m, day, route, k, n - 1);
    }
  }

  lemma {:induction false} InvertedWeatherCuts(buckets: seq<WeatherBucket>, dayIndex: nat, span: Span)
    requires span.closes < span.opens
    ensures forall t | t in WeatherCuts(buckets, dayIndex, span) :: t >= span.closes
  {
    if buckets == [] {
    } else {
      InvertedWeatherCuts(buckets[..|buckets| - 1], dayIndex, span);
    }
  }

  lemma {:induction false} InvertedBestTimeCuts(ws: seq<Window>, dayIndex: nat, span: Span)
    requires span.closes < span.opens
    ensures forall t | t in BestTimeCuts(ws, dayIndex, span) :: t >= span.closes
  {
    if ws == [] {
    } else {
      InvertedBestTimeCuts(ws[..|ws| - 1], dayIndex, span);
    }
  }

  lemma InvertedBoundaries(r: Request, c: Candidate, day: Day, span: Span)
    requires span.closes < span.opens
    ensures forall t | t in Boundaries(r, c, day, span) :: t >= span.closes
  {
    InvertedWeatherCuts(r.options.weather, day.dayIndex, span);
    InvertedBestTimeCuts(c.bestTimeWindows, day.dayIndex, span);
  }

  lemma InvertedSegmentOpensLate(r: Request, c: Candidate, day: Day, span: Span, s: Span)
    requires span.closes < span.opens && s in Segments(r, c, day, span)
    ensures s.opens >= span.closes
  {
    hide Boundaries;
    InvertedBoundaries(r, c, day, span);
    var ts := Sorted(Boundaries(r, c, day, span));
    var k :| 0 <= k < |Segments(r, c, day, span)| && Segments(r, c, day, span)[k] == s;
    assert ts[k] in Boundaries(r, c, day, span);
  }

  lemma InvertedVariantOpensLate(r: Request, c: Candidate, v: Variant, day: Day)
    requires DistinctDays(r.days) && day in r.days && v.dayIndex == day.dayIndex
    requires c.windows == [] && DayEnd(r, day) < DayStart(r, day) && IsVariantOf(r, c, v)
    ensures v.opens >= DayEnd(r, day)
  {
    hide DayStart, DayEnd, VisitMinutes, Midpoint, WeatherAt, Segments, DistinctDays, Golden, LatestStart;
    var d, span, s :| ComesFrom(r, c, v, d, span, s);
    SameIndexSameDay(r.days, day, d);
    InvertedSegmentOpensLate(r, c, day, span, s);
  }

  /** A stop that opens at or after the buffered deadline cannot be part of a feasible route. */
  lemma LateStopMissesDeadline(r: Request, day: Day, route: seq<Variant>, k: nat)
    requires k < |route| && route[k].durationMin > 0
    requires Deadline(r, day).Some? && route[k].opens >= Deadline(r, day).value
    ensures !Materialized(r, day, route).feasible
  {
    hide Deadline, LegInto;
    assert EarliestFree(r.matrix, day, route, k + 1) == Earliest(r.matrix, day, route, k) + route[k].Seconds();
    TimeOnlyMovesForward(r.matrix, day, route, k + 1, |route|);
  }

  /**
   * When the buffered deadline precedes the day's effective start, a candidate without
   * hours still gets variants; no route through one of them is ever feasible.
   */
  lemma InvertedIntervalIsNeverPlaced(r: Request, c: Candidate, day: Day, route: seq<Variant>, k: nat)
    requires DistinctDays(r.days) && day in r.days && r.options.maxDayDurationMin >= 60
    requires c.windows == [] && c.durationMin > 0 && DayEnd(r, day) < DayStart(r, day)
    requires k < |route| && route[k].dayIndex == day.dayIndex && IsVariantOf(r, c, route[k])
    ensures !Materialized(r, day, route).feasible
  {
    hide Materialized, IsVariantOf;
    InvertedVariantOpensLate(r, c, route[k], day);
    VariantHasRoom(r, c, route[k]);
    LateStopMissesDeadline(r, day, route, k);
  }

  /** A place out of town is not scheduled unless access was verified or the user insists. */
  lemma UnreachedPlacesAreLeftOut(r: Request, c: Candidate)
    ensures c.outOfTown && !c.accessVerified && !c.userForced ==> VariantsOf(r, c) == []
    ensures !c.outOfTown || c.accessVerified || c.userForced ==> VariantsOf(r, c) == AddDays(r, c, r.days)
  {}

  /** The day's opening for visits: half an hour in under packed pacing, until the deadline or the longest day. */
  lemma DaysOpenAndClose(r: Request, day: Day)
    ensures DayStart(r, day) == day.startTime + (if EffectivePacing(r.options).PackedPacing? then 1800 else 0)
    ensures day.endDeadline.Some? ==> DayEnd(r, day) + 60 * DepartureBufferMin(r.options) == day.endDeadline.value
    ensures day.endDeadline.None? ==> DayEnd(r, day) == day.startTime + 60 * r.options.maxDayDurationMin
  {}

  // ------------------------------------------------------------- prizes

  /** A best-time window of the day covers the instant. */
  ghost predicate GoldenAt(c: Candidate, dayIndex: nat, instant: real) {
    exists w | w in c.bestTimeWindows && w.dayIndex == dayIndex :: w.opens as real <= instant < w.closes as real
  }

  /** No best-time window of another day reaches into the stretch. */
  ghost predicate OnlyOwnDay(c: Candidate, dayIndex: nat, opens: Time, closes: Time) {
    forall w | w in c.bestTimeWindows && w.dayIndex != dayIndex :: w.closes <= opens || closes <= w.opens
  }

  lemma GoldenThroughout(r: Request, c: Candidate, day: Day, span: Span, k: nat, instant: real)
    requires span.opens < span.closes && k < |Segments(r, c, day, span)|
    requires ValidWindows(c.bestTimeWindows)
    requires var s := Segments(r, c, day, span)[k];
      OnlyOwnDay(c, day.dayIndex, s.opens, s.closes) && s.opens as real <= instant < s.closes as real
    ensures Golden(c.bestTimeWindows, Segments(r, c, day, span)[k]) <==> GoldenAt(c, day.dayIndex, instant)
  {
    hide Segments;
    var s := Segments(r, c, day, span)[k];
    forall w | w in c.bestTimeWindows && w.dayIndex == day.dayIndex
      ensures NotCutAt(s, w.opens, w.closes)
    {
      SegmentNotCutByBestTime(r, c, day, span, k, w);
    }
    if GoldenAt(c, day.dayIndex, instant) {
      var w :| w in c.bestTimeWindows && w.dayIndex == day.dayIndex && w.opens as real <= instant < w.closes as real;
      assert w.opens < s.closes && s.opens < w.closes;
    }
    if Golden(c.bestTimeWindows, s) {
      var w :| w in c.bestTimeWindows && w.opens < s.closes && s.opens < w.closes;
      assert w.dayIndex == day.dayIndex && NotCutAt(s, w.opens, w.closes);
    }
  }

  /**
   * The prize of a variant is right at every instant of its stretch: it is the prize under the
   * first weather bucket that covers the instant, and golden exactly if a best-time window of
   * the day does.
   */
  lemma PrizeHoldsThroughout(r: Request, c: Candidate, day: Day, v: Variant, instant: real)
    requires ValidRequest(r) && c in r.candidates && v in VariantsOf(r, c)
    requires day in r.days && day.dayIndex == v.dayIndex
    requires c.windows != [] || DayStart(r, day) < DayEnd(r, day)
    requires OnlyOwnDay(c, v.dayIndex, v.opens, v.latestStart + v.Seconds())
    requires v.opens as real <= instant < (v.latestStart + v.Seconds()) as real
    ensures v.prize
         == r.prizeOf(c, WeatherAt(r.options.weather, v.dayIndex, instant), GoldenAt(c, v.dayIndex, instant))
  {
    hide VariantsOf, BaseSpans, Segments, Golden, GoldenAt, WeatherAt, DayStart, DayEnd, OnlyOwnDay;
    ExpansionIsSound(r, c);
    assert IsVariantOf(r, c, v);
    var d, span, s :| ComesFrom(r, c, v, d, span, s);
    SameIndexSameDay(r.days, d, day);
    SpansAreProper(r, c, day, span);
    var k :| 0 <= k < |Segments(r, c, day, span)| && Segments(r, c, day, span)[k] == s;
    GoldenThroughout(r, c, day, span, k, instant);
    MidpointSamplingIsExact(r, c, day, span, k, instant);
  }

  lemma SpansAreProper(r: Request, c: Candidate, day: Day, span: Span)
    requires span in BaseSpans(r, c, day) && (c.windows != [] || DayStart(r, day) < DayEnd(r, day))
    ensures span.opens < span.closes
  {
    hide DayStart, DayEnd;
    ClippedAreProper(WindowsForDay(c.windows, day.dayIndex), DayStart(r, day), DayEnd(r, day));
  }

  lemma {:induction false} ClippedAreProper(ws: seq<Window>, lo: Time, hi: Time)
    ensures forall s | s in ClipAll(ws, lo, hi) :: s.opens < s.closes
  {
    if ws == [] {
    } else {
      ClippedAreProper(ws[..|ws| - 1], lo, hi);
    }
  }
}
