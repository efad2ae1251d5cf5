/**
 * Expanding a candidate into variants: clip its hours to the day, cut them at
 * weather and best-time changes, keep the pieces long enough for a visit.
 */
module Variants {
  import opened Prelude
  import opened SolverModel

  datatype Span = Span(opens: Time, closes: Time)

  // ------------------------------------------------------------- base intervals

  function DayStart(r: Request, day: Day): Time {
    day.startTime + 60 * StartOffsetMin(r.options)
  }

  function DayEnd(r: Request, day: Day): Time {
    if Deadline(r, day).Some? then Deadline(r, day).value else day.startTime + 60 * r.options.maxDayDurationMin
  }

  /** The part of a window between two times. */
  function Clip(w: Window, lo: Time, hi: Time): Span {
    Span(MaxTime(lo, w.opens), MinTime(hi, w.closes))
  }

  function ClipAll(ws: seq<Window>, lo: Time, hi: Time): seq<Span> {
    if ws == [] then []
    else
      var s := Clip(ws[|ws| - 1], lo, hi);
      var before := ClipAll(ws[..|ws| - 1], lo, hi);
      if s.closes > s.opens then before + [s] else before
  }

  /** What `_base_intervals` returns. */
  function BaseSpans(r: Request, c: Candidate, day: Day): seq<Span> {
    var ws := WindowsForDay(c.windows, day.dayIndex);
    if c.windows != [] && ws == [] then []
    else if ws == [] then [Span(DayStart(r, day), DayEnd(r, day))]
    else ClipAll(ws, DayStart(r, day), DayEnd(r, day))
  }

  method BaseIntervals(r: Request, c: Candidate, day: Day) returns (spans: seq<Span>)
    ensures spans == BaseSpans(r, c, day)
  {
    var lo, hi := DayStart(r, day), DayEnd(r, day);
    var ws := WindowsForDay(c.windows, day.dayIndex);
    if c.windows != [] && ws == [] {
      return [];
    }
    if ws == [] {
      return [Span(lo, hi)];
    }
    spans := [];
    assert ws[..|ws|] == ws;
    for i := 0 to |ws|
      invariant spans == ClipAll(ws[..i], lo, hi)
    {
      assert ws[..i + 1][..i] == ws[..i];
      var opens := MaxTime(lo, ws[i].opens);
      var closes := MinTime(hi, ws[i].closes);
      if closes > opens {
        spans := spans + [Span(opens, closes)];
      }
    }
  }

  // ------------------------------------------------------------- boundaries

  /** The two cut points that [lo, hi) makes inside [opens, closes], if they meet. */
  function Cuts(span: Span, lo: Time, hi: Time): set<Time> {
    if lo < span.closes && span.opens < hi then {MaxTime(span.opens, lo), MinTime(span.closes, hi)} else {}
  }

  function WeatherCuts(buckets: seq<WeatherBucket>, dayIndex: nat, span: Span): set<Time> {
    if buckets == [] then {}
    else
      var b := buckets[|buckets| - 1];
      WeatherCuts(buckets[..|buckets| - 1], dayIndex, span)
        + (if b.dayIndex == dayIndex then Cuts(span, b.starts, b.ends) else {})
  }

  function BestTimeCuts(ws: seq<Window>, dayIndex: nat, span: Span): set<Time> {
    if ws == [] then {}
    else
      var w := ws[|ws| - 1];
      BestTimeCuts(ws[..|ws| - 1], dayIndex, span)
        + (if w.dayIndex == dayIndex then Cuts(span, w.opens, w.closes) else {})
  }

  function Boundaries(r: Request, c: Candidate, day: Day, span: Span): set<Time> {
    {span.opens, span.closes} + WeatherCuts(r.options.weather, day.dayIndex, span)
        + BestTimeCuts(c.bestTimeWindows, day.dayIndex, span)
  }

  lemma {:induction false} LeastExists(s: set<Time>, x: Time) returns (least: Time)
    requires x in s
    ensures least in s && forall y | y in s :: least <= y
    decreases |s|
  {
    if y :| y in s && y < x {
      least := LeastExists(s - {x}, y);
      assert forall z | z in s :: z == x || z in s - {x};
    } else {
      least := x;
    }
  }

  function Least(s: set<Time>): (x: Time)
    requires s != {}
    ensures x in s && forall y | y in s :: x <= y
  {
    assert exists x :: x in s && forall y | y in s :: x <= y by {
      assert (forall y :: y !in s) ==> s == {};
      var x :| x in s;
      var least := LeastExists(s, x);
    }
    var x :| x in s && forall y | y in s :: x <= y;
    x
  }

  ghost predicate Increasing(ts: seq<Time>) {
    forall i, j | 0 <= i < j < |ts| :: ts[i] < ts[j]
  }

  /** `sorted` on a set of times. */
  function Sorted(s: set<Time>): (ts: seq<Time>)
    ensures Increasing(ts) && forall t :: t in ts <==> t in s
    ensures s != {} ==> ts != []
    decreases |s|
  {
    if s == {} then [] else
      var x := Least(s);
      [x] + Sorted(s - {x})
  }

  /** Neighbouring boundaries as segments. */
  function Pieces(ts: seq<Time>): (spans: seq<Span>)
    ensures |spans| == (if |ts| == 0 then 0 else |ts| - 1)
    ensures forall k | 0 <= k < |spans| :: spans[k] == Span(ts[k], ts[k + 1])
  {
    seq(if |ts| == 0 then 0 else |ts| - 1, k requires 0 <= k < |ts| - 1 => Span(ts[k], ts[k + 1]))
  }

  /** What `_split_boundaries` returns. */
  function Segments(r: Request, c: Candidate, day: Day, span: Span): seq<Span> {
    Pieces(Sorted(Boundaries(r, c, day, span)))
  }

  method SplitBoundaries(r: Request, c: Candidate, day: Day, span: Span) returns (spans: seq<Span>)
    ensures spans == Segments(r, c, day, span)
  {
    var boundaries := {span.opens, span.closes};
    var buckets := r.options.weather;
    assert buckets[..|buckets|] == buckets;
    for i := 0 to |buckets|
      invariant boundaries == {span.opens, span.closes} + WeatherCuts(buckets[..i], day.dayIndex, span)
    {
      var bucket := buckets[i];
      assert buckets[..i + 1][..i] == buckets[..i];
      if bucket.dayIndex == day.dayIndex && bucket.starts < span.closes && span.opens < bucket.ends {
        boundaries := boundaries + {MaxTime(span.opens, bucket.starts)};
        boundaries := boundaries + {MinTime(span.closes, bucket.ends)};
      }
    }
    ghost var weatherDone := boundaries;
    var ws := c.bestTimeWindows;
    assert ws[..|ws|] == ws;
    for i := 0 to |ws|
      invariant boundaries == weatherDone + BestTimeCuts(ws[..i], day.dayIndex, span)
    {
      var window := ws[i];
      assert ws[..i + 1][..i] == ws[..i];
      if window.dayIndex == day.dayIndex && window.opens < span.closes && span.opens < window.closes {
        boundaries := boundaries + {MaxTime(span.opens, window.opens)};
        boundaries := boundaries + {MinTime(span.closes, window.closes)};
      }
    }
    var ordered := Sorted(boundaries);
    spans := [];
    for i := 0 to (if |ordered| == 0 then 0 else |ordered| - 1)
      invariant |spans| == i && forall k | 0 <= k < i :: spans[k] == Span(ordered[k], ordered[k + 1])
    {
      if ordered[i + 1] > ordered[i] {
        spans := spans + [Span(ordered[i], ordered[i + 1])];
      }
    }
    assert spans == Pieces(ordered);
  }

  // ------------------------------------------------------------- what the cuts achieve

  /** Every segment lies inside the interval, is not empty, and starts where the last one ended. */
  lemma SegmentsPartition(r: Request, c: Candidate, day: Day, span: Span)
    requires span.opens < span.closes
    ensures var segs := Segments(r, c, day, span);
      && segs != [] && segs[0].opens == span.opens && segs[|segs| - 1].closes == span.closes
      && (forall k | 0 <= k < |segs| :: segs[k].opens < segs[k].closes)
      && (forall k | 0 < k < |segs| :: segs[k].opens == segs[k - 1].closes)
  {
    var ts, b := Sorted(Boundaries(r, c, day, span)), Boundaries(r, c, day, span);
    BoundariesInside(r, c, day, span);
    assert span.opens in b && span.closes in b;
    var i :| 0 <= i < |ts| && ts[i] == span.opens;
    var j :| 0 <= j < |ts| && ts[j] == span.closes;
    assert ts[0] in b && ts[|ts| - 1] in b;
  }

  lemma BoundariesInside(r: Request, c: Candidate, day: Day, span: Span)
    requires span.opens < span.closes
    ensures forall t | t in Boundaries(r, c, day, span) :: span.opens <= t <= span.closes
  {
    WeatherCutsInside(r.options.weather, day.dayIndex, span);
    BestTimeCutsInside(c.bestTimeWindows, day.dayIndex, span);
  }

  lemma {:induction false} WeatherCutsInside(buckets: seq<WeatherBucket>, dayIndex: nat, span: Span)
    requires span.opens < span.closes
    ensures forall t | t in WeatherCuts(buckets, dayIndex, span) :: span.opens <= t <= span.closes
  {
    if buckets == [] {
    } else {
      WeatherCutsInside(buckets[..|buckets| - 1], dayIndex, span);
    }
  }

  lemma {:induction false} BestTimeCutsInside(ws: seq<Window>, dayIndex: nat, span: Span)
    requires span.opens < span.closes
    ensures forall t | t in BestTimeCuts(ws, dayIndex, span) :: span.opens <= t <= span.closes
  {
    if ws == [] {
    } else {
      BestTimeCutsInside(ws[..|ws| - 1], dayIndex, span);
    }
  }

  // ------------------------------------------------------------- weather

  /** `_weather_at`: the first bucket of the day that covers the instant. */
  function WeatherAt(buckets: seq<WeatherBucket>, dayIndex: nat, instant: real): Option<WeatherBucket> {
    if buckets == [] then None
    else if Covers(buckets[0], dayIndex, instant) then Some(buckets[0])
    else WeatherAt(buckets[1..], dayIndex, instant)
  }

  /** The bucket of the day that covers the instant, no earlier one doing so; none if none does. */
  ghost predicate IsFirstCover(buckets: seq<WeatherBucket>, dayIndex: nat, instant: real,
                               found: Option<WeatherBucket>) {
    if found.None? then
      forall b | b in buckets && b.dayIndex == dayIndex ::
        instant < b.starts as real || b.ends as real <= instant
    else
      exists i: nat :: i < |buckets| && buckets[i] == found.value && Covers(buckets[i], dayIndex, instant)
                       && forall j | 0 <= j < i :: !Covers(buckets[j], dayIndex, instant)
  }

  lemma {:induction false} WeatherIsFirstCover(buckets: seq<WeatherBucket>, dayIndex: nat, instant: real)
    ensures IsFirstCover(buckets, dayIndex, instant, WeatherAt(buckets, dayIndex, instant))
  {
    if buckets == [] {
    } else if Covers(buckets[0], dayIndex, instant) {
      var zero: nat := 0;
      assert buckets[zero] == buckets[0];
    } else {
      var rest := buckets[1..];
      WeatherIsFirstCover(rest, dayIndex, instant);
      var found := WeatherAt(rest, dayIndex, instant);
      if found.Some? {
        var i: nat :| i < |rest| && rest[i] == found.value && Covers(rest[i], dayIndex, instant)
                      && forall j | 0 <= j < i :: !Covers(rest[j], dayIndex, instant);
        var n := i + 1;
        assert buckets[n] == rest[i];
        assert forall j | 0 <= j < n :: j > 0 ==> buckets[j] == rest[j - 1];
      }
    }
  }

  predicate Covers(b: WeatherBucket, dayIndex: nat, instant: real) {
    b.dayIndex == dayIndex && b.starts as real <= instant < b.ends as real
  }

  function Midpoint(s: Span): real {
    s.opens as real + (s.closes - s.opens) as real / 2.0
  }

  /** Neither end of [lo, hi) falls strictly inside the segment. */
  ghost predicate NotCutAt(s: Span, lo: Time, hi: Time) {
    && (lo <= s.opens || s.closes <= lo)
    && (hi <= s.opens || s.closes <= hi)
  }

  /** No boundary of the bucket falls strictly inside the segment. */
  ghost predicate NotCutBy(s: Span, b: WeatherBucket) {
    NotCutAt(s, b.starts, b.ends)
  }

  lemma CutsKeepApart(r: Request, c: Candidate, day: Day, span: Span, k: nat, lo: Time, hi: Time)
    requires span.opens < span.closes && k < |Segments(r, c, day, span)|
    requires lo < hi && Cuts(span, lo, hi) <= Boundaries(r, c, day, span)
    ensures NotCutAt(Segments(r, c, day, span)[k], lo, hi)
  {
    var ts, s := Sorted(Boundaries(r, c, day, span)), Segments(r, c, day, span)[k];
    BoundariesInside(r, c, day, span);
    assert ts[k] in Boundaries(r, c, day, span) && ts[k + 1] in Boundaries(r, c, day, span);
    if span.opens < lo < span.closes {
      BetweenNeighbours(ts, k, lo);
    }
    if span.opens < hi < span.closes {
      BetweenNeighbours(ts, k, hi);
    }
  }

  lemma SegmentNotCut(r: Request, c: Candidate, day: Day, span: Span, k: nat, b: WeatherBucket)
    requires span.opens < span.closes && k < |Segments(r, c, day, span)|
    requires b in r.options.weather && b.dayIndex == day.dayIndex && b.starts < b.ends
    ensures NotCutBy(Segments(r, c, day, span)[k], b)
  {
    hide Segments;
    WeatherCutPresent(r.options.weather, day.dayIndex, span, b);
    CutsKeepApart(r, c, day, span, k, b.starts, b.ends);
  }

  /** Nor does an end of a best-time window of the day fall strictly inside a segment. */
  lemma SegmentNotCutByBestTime(r: Request, c: Candidate, day: Day, span: Span, k: nat, w: Window)
    requires span.opens < span.closes && k < |Segments(r, c, day, span)|
    requires w in c.bestTimeWindows && w.dayIndex == day.dayIndex && w.opens < w.closes
    ensures NotCutAt(Segments(r, c, day, span)[k], w.opens, w.closes)
  {
    hide Segments;
    BestTimeCutPresent(c.bestTimeWindows, day.dayIndex, span, w);
    CutsKeepApart(r, c, day, span, k, w.opens, w.closes);
  }

  /** An end of a weather bucket or of a best-time window of the day. */
  ghost predicate EndsSomething(r: Request, c: Candidate, dayIndex: nat, t: Time) {
    || (exists b | b in r.options.weather && b.dayIndex == dayIndex :: t == b.starts || t == b.ends)
    || (exists w | w in c.bestTimeWindows && w.dayIndex == dayIndex :: t == w.opens || t == w.closes)
  }

  /** Nothing else cuts: every boundary inside the interval is such an end. */
  lemma CutsHaveReasons(r: Request, c: Candidate, day: Day, span: Span, k: nat)
    requires span.opens < span.closes && k < |Segments(r, c, day, span)|
    ensures var s := Segments(r, c, day, span)[k];
      && (s.opens == span.opens || EndsSomething(r, c, day.dayIndex, s.opens))
      && (s.closes == span.closes || EndsSomething(r, c, day.dayIndex, s.closes))
  {
    hide EndsSomething, Segments, Boundaries;
    SegmentEnds(r, c, day, span, k);
    BoundariesInside(r, c, day, span);
    CutIsAnEnd(r, c, day, span, Segments(r, c, day, span)[k].opens);
    CutIsAnEnd(r, c, day, span, Segments(r, c, day, span)[k].closes);
  }

  lemma SegmentEnds(r: Request, c: Candidate, day: Day, span: Span, k: nat)
    requires k < |Segments(r, c, day, span)|
    ensures var s := Segments(r, c, day, span)[k];
      s.opens < s.closes && s.opens in Boundaries(r, c, day, span) && s.closes in Boundaries(r, c, day, span)
  {
    hide Boundaries;
    var ts := Sorted(Boundaries(r, c, day, span));
    assert ts[k] in ts && ts[k + 1] in ts;
  }

  lemma CutIsAnEnd(r: Request, c: Candidate, day: Day, span: Span, t: Time)
    requires span.opens < span.closes && t in Boundaries(r, c, day, span)
    ensures t in {span.opens, span.closes} || EndsSomething(r, c, day.dayIndex, t)
  {
    if t in WeatherCuts(r.options.weather, day.dayIndex, span) {
      WeatherCutIsAnEnd(r.options.weather, day.dayIndex, span, t);
    } else if t in BestTimeCuts(c.bestTimeWindows, day.dayIndex, span) {
      BestTimeCutIsAnEnd(c.bestTimeWindows, day.dayIndex, span, t);
    }
  }

  lemma {:induction false} WeatherCutIsAnEnd(buckets: seq<WeatherBucket>, dayIndex: nat, span: Span, t: Time)
    requires t in WeatherCuts(buckets, dayIndex, span)
    ensures t in {span.opens, span.closes} ||
      exists b | b in buckets && b.dayIndex == dayIndex :: t == b.starts || t == b.ends
  {
    var n := |buckets| - 1;
    if t in WeatherCuts(buckets[..n], dayIndex, span) {
      WeatherCutIsAnEnd(buckets[..n], dayIndex, span, t);
    } else {
      assert buckets[n] in buckets;
    }
  }

  lemma {:induction false} BestTimeCutIsAnEnd(ws: seq<Window>, dayIndex: nat, span: Span, t: Time)
    requires t in BestTimeCuts(ws, dayIndex, span)
    ensures t in {span.opens, span.closes} ||
      exists w | w in ws && w.dayIndex == dayIndex :: t == w.opens || t == w.closes
  {
    var n := |ws| - 1;
    if t in BestTimeCuts(ws[..n], dayIndex, span) {
      BestTimeCutIsAnEnd(ws[..n], dayIndex, span, t);
    } else {
      assert ws[n] in ws;
    }
  }

  lemma {:induction false} BestTimeCutPresent(ws: seq<Window>, dayIndex: nat, span: Span, w: Window)
    requires w in ws && w.dayIndex == dayIndex && w.opens < w.closes
    ensures Cuts(span, w.opens, w.closes) <= BestTimeCuts(ws, dayIndex, span)
  {
    if ws[|ws| - 1] == w {
    } else {
      BestTimeCutPresent(ws[..|ws| - 1], dayIndex, span, w);
    }
  }

  lemma BetweenNeighbours(ts: seq<Time>, k: nat, t: Time)
    requires Increasing(ts) && k + 1 < |ts| && t in ts
    ensures t <= ts[k] || ts[k + 1] <= t
  {
    var i :| 0 <= i < |ts| && ts[i] == t;
  }

  lemma {:induction false} WeatherCutPresent(buckets: seq<WeatherBucket>, dayIndex: nat, span: Span, b: WeatherBucket)
    requires b in buckets && b.dayIndex == dayIndex && b.starts < b.ends
    ensures Cuts(span, b.starts, b.ends) <= WeatherCuts(buckets, dayIndex, span)
  {
    if buckets[|buckets| - 1] == b {
    } else {
      WeatherCutPresent(buckets[..|buckets| - 1], dayIndex, span, b);
    }
  }

  /**
   * The first matching weather bucket is the same at every instant of a segment, so
   * reading it at the midpoint loses nothing.
   */
  lemma MidpointSamplingIsExact(r: Request, c: Candidate, day: Day, span: Span, k: nat, instant: real)
    requires span.opens < span.closes && k < |Segments(r, c, day, span)|
    requires forall b | b in r.options.weather :: b.starts < b.ends
    requires var s := Segments(r, c, day, span)[k]; s.opens as real <= instant < s.closes as real
    ensures var s := Segments(r, c, day, span)[k];
      WeatherAt(r.options.weather, day.dayIndex, instant) == WeatherAt(r.options.weather, day.dayIndex, Midpoint(s))
  {
    var s := Segments(r, c, day, span)[k];
    forall b | b in r.options.weather && b.dayIndex == day.dayIndex
      ensures NotCutBy(s, b)
    {
      SegmentNotCut(r, c, day, span, k, b);
    }
    SameWeather(r.options.weather, day.dayIndex, s, instant);
  }

  lemma {:induction false} SameWeather(buckets: seq<WeatherBucket>, dayIndex: nat, s: Span, instant: real)
    requires forall b | b in buckets && b.dayIndex == dayIndex :: NotCutBy(s, b)
    requires s.opens as real <= instant < s.closes as real
    ensures WeatherAt(buckets, dayIndex, instant) == WeatherAt(buckets, dayIndex, Midpoint(s))
  {
    if buckets == [] {
    } else {
      var b := buckets[0];
      assert b.dayIndex == dayIndex ==> NotCutBy(s, b);
      assert Covers(b, dayIndex, instant) <==> Covers(b, dayIndex, Midpoint(s));
      SameWeather(buckets[1..], dayIndex, s, instant);
    }
  }

  // ------------------------------------------------------------- opening hours

  /** The place is open at the instant, and the day has begun and is not over. */
  ghost predicate OpenAt(r: Request, c: Candidate, day: Day, t: Time) {
    && DayStart(r, day) <= t < DayEnd(r, day)
    && (c.windows == [] || exists w | w in c.windows && w.dayIndex == day.dayIndex :: w.opens <= t < w.closes)
  }

  /** The base intervals are exactly the open hours within the day. */
  lemma BaseSpansAreHours(r: Request, c: Candidate, day: Day, t: Time)
    ensures (exists s | s in BaseSpans(r, c, day) :: s.opens <= t < s.closes) <==> OpenAt(r, c, day, t)
  {
    hide DayStart, DayEnd;
    var ws, lo, hi := WindowsForDay(c.windows, day.dayIndex), DayStart(r, day), DayEnd(r, day);
    if ws == [] {
      assert forall w | w in c.windows :: w.dayIndex == day.dayIndex ==> w in ws;
      if c.windows == [] {
        assert Span(lo, hi) in BaseSpans(r, c, day);
      }
    } else {
      ClippedHours(ws, lo, hi, t);
    }
  }

  lemma {:induction false} ClippedHours(ws: seq<Window>, lo: Time, hi: Time, t: Time)
    ensures (exists s | s in ClipAll(ws, lo, hi) :: s.opens <= t < s.closes) <==>
            lo <= t < hi && exists w | w in ws :: w.opens <= t < w.closes
  {
    if ws == [] {
    } else {
      var n := |ws| - 1;
      ClippedHours(ws[..n], lo, hi, t);
      assert ws == ws[..n] + [ws[n]] && ws[n] in ws;
      var s, before := Clip(ws[n], lo, hi), ClipAll(ws[..n], lo, hi);
      assert forall x :: x in before + [s] <==> x in before || x == s;
    }
  }
}
