/**
 * The second audit: the same plan as integer-minute intervals under a no-overlap
 * constraint.
 */
module Auditor {
  import opened Prelude
  import opened SolverModel
  import opened Route
  import opened Feasibility

  /** A fixed interval of the constraint model, in minutes since the epoch. */
  datatype Interval = Interval(start: int, size: nat) {
    function End(): int {
      start + size
    }
  }

  /** The interval the audit builds for one stop; division rounds toward minus infinity. */
  function IntervalOf(epoch: Time, s: Stop): Interval
    requires s.Stop?
  {
    var minutes := (s.depart - s.arrive) / 60;
    Interval((s.arrive - epoch) / 60, if minutes > 0 then minutes else 0)
  }

  method Intervals(epoch: Time, stops: seq<Stop>) returns (intervals: seq<Interval>)
    requires forall k | 0 <= k < |stops| :: stops[k].Stop?
    ensures |intervals| == |stops| && forall k | 0 <= k < |stops| :: intervals[k] == IntervalOf(epoch, stops[k])
  {
    intervals := [];
    for k := 0 to |stops|
      invariant |intervals| == k && forall i | 0 <= i < k :: intervals[i] == IntervalOf(epoch, stops[i])
    {
      var start := (stops[k].arrive - epoch) / 60;
      var minutes := (stops[k].depart - stops[k].arrive) / 60;
      intervals := intervals + [Interval(start, if minutes > 0 then minutes else 0)];
    }
  }

  predicate AllStops(stops: seq<Stop>) {
    forall k | 0 <= k < |stops| :: stops[k].Stop?
  }

  /** AddNoOverlap on the fixed intervals of one day. */
  predicate NoOverlap(epoch: Time, stops: seq<Stop>)
    requires AllStops(stops)
  {
    forall i, j | 0 <= i < j < |stops| :: Apart(IntervalOf(epoch, stops[i]), IntervalOf(epoch, stops[j]))
  }

  predicate Apart(a: Interval, b: Interval) {
    a.End() <= b.start || b.End() <= a.start
  }

  /** An interval starts in the minute of the arrival and lasts the whole minutes of the stay. */
  lemma IntervalsAreWholeMinutes(epoch: Time, s: Stop)
    requires s.Stop?
    ensures var i := IntervalOf(epoch, s);
      && epoch + 60 * i.start <= s.arrive < epoch + 60 * (i.start + 1)
      && (s.arrive <= s.depart ==> s.arrive + 60 * i.size <= s.depart < s.arrive + 60 * (i.size + 1))
      && (s.depart < s.arrive ==> i.size == 0)
  {}

  /** The minutes of an interval. */
  ghost predicate Covers(i: Interval, minute: int) {
    i.start <= minute < i.start + i.size
  }

  /** Two intervals that last are apart exactly if they have no minute in common. */
  lemma ApartMeansDisjoint(a: Interval, b: Interval)
    requires a.size > 0 && b.size > 0
    ensures Apart(a, b) <==> !exists minute :: Covers(a, minute) && Covers(b, minute)
  {
    if !Apart(a, b) {
      assert Covers(a, MaxTime(a.start, b.start)) && Covers(b, MaxTime(a.start, b.start));
    }
  }

  /** Neither of the two timing issues of the semantic check. */
  ghost predicate NoTimingIssue(issues: seq<Issue>) {
    forall i | 0 <= i < |issues| :: !issues[i].code.Overlap? && !issues[i].code.NegativeDuration?
  }

  /** The first `n` stops neither move backwards nor overlap. */
  ghost predicate InTimeOrder(day: Day, stops: seq<Stop>, n: nat)
    requires AllStops(stops) && n <= |stops|
  {
    forall k | 0 <= k < n :: FreeBefore(day, stops, k) <= stops[k].arrive <= stops[k].depart
  }

  lemma {:induction false} LaterStopsStartLater(day: Day, stops: seq<Stop>, i: nat, j: nat)
    requires AllStops(stops) && InTimeOrder(day, stops, |stops|) && i < j < |stops|
    ensures stops[i].depart <= stops[j].arrive
    decreases j
  {
    if i >= j - 1 {
    } else {
      LaterStopsStartLater(day, stops, i, j - 1);
    }
  }

  /** Rounding down to minutes never makes ordered stops overlap. */
  lemma RoundingKeepsOrder(epoch: Time, day: Day, stops: seq<Stop>)
    requires AllStops(stops) && InTimeOrder(day, stops, |stops|)
    ensures NoOverlap(epoch, stops)
  {
    forall i, j | 0 <= i < j < |stops|
      ensures Apart(IntervalOf(epoch, stops[i]), IntervalOf(epoch, stops[j]))
    {
      LaterStopsStartLater(day, stops, i, j);
    }
  }

  // ------------------------------------------------------------- from issues to order

  lemma {:induction false} CleanDayIsInOrder(r: Request, day: Day, stops: seq<Stop>, seen: set<PoiId>,
                                             issues: seq<Issue>, k: nat)
    requires AllStops(stops) && k <= |stops| && NoTimingIssue(IssuesUpTo(r, day, stops, seen, issues, k))
    ensures NoTimingIssue(issues) && InTimeOrder(day, stops, k)
  {
    hide NoTimingIssue, CursorAt, StopIssues;
    if k == 0 {
    } else {
      hide IssuesUpTo, PlaceBefore, WalkedBefore;
      var cur := CursorAt(r, day, stops, seen, k - 1);
      StopKeepsIssues(r, day, cur, stops[k - 1], IssuesUpTo(r, day, stops, seen, issues, k - 1));
      CleanDayIsInOrder(r, day, stops, seen, issues, k - 1);
      CursorMeans(r, day, stops, seen, k - 1);
    }
  }

  lemma NotedKeeps(issues: seq<Issue>, condition: bool, code: Code, poi: Option<PoiId>, dayIndex: Option<int>)
    requires NoTimingIssue(Noted(issues, condition, code, poi, dayIndex))
    ensures NoTimingIssue(issues) && (code.Overlap? || code.NegativeDuration? ==> !condition)
  {
    if condition {
      assert (issues + [Issue(code, poi, dayIndex)])[|issues|].code == code;
      assert forall i | 0 <= i < |issues| :: (issues + [Issue(code, poi, dayIndex)])[i] == issues[i];
    }
  }

  lemma StopKeepsIssues(r: Request, day: Day, cur: Cursor, stop: Stop, issues: seq<Issue>)
    requires stop.Stop? && NoTimingIssue(StopIssues(r, day, cur, stop, issues))
    ensures NoTimingIssue(issues) && cur.depart <= stop.arrive <= stop.depart
  {
    hide NoTimingIssue, Noted, InHours, KnownPoi;
    var d := Some(day.dayIndex);
    var ordered := Noted(issues, stop.ord != Some(cur.lastOrd + 1), InvalidOrder, None, d);
    var positive := Noted(ordered, stop.depart < stop.arrive, NegativeDuration, None, d);
    var forward := Noted(positive, stop.arrive < cur.depart, Overlap, None, d);
    if stop.poi.Some? {
      PoiKeepsIssues(r, day, cur, stop, forward);
    }
    NotedKeeps(positive, stop.arrive < cur.depart, Overlap, None, d);
    NotedKeeps(ordered, stop.depart < stop.arrive, NegativeDuration, None, d);
    NotedKeeps(issues, stop.ord != Some(cur.lastOrd + 1), InvalidOrder, None, d);
  }

  lemma PoiKeepsIssues(r: Request, day: Day, cur: Cursor, stop: Stop, issues: seq<Issue>)
    requires stop.Stop? && stop.poi.Some? && NoTimingIssue(PoiIssues(r, day, cur, stop, issues))
    ensures NoTimingIssue(issues)
  {
    hide NoTimingIssue, Noted, InHours, KnownPoi;
    var d := Some(day.dayIndex);
    if !KnownPoi(r.candidates, stop.poi.value) {
      NotedKeeps(issues, true, UnknownPoi, stop.poi, d);
    } else {
      var c := CandidateFor(r.candidates, stop.poi.value);
      var repeated := Noted(issues, c.poiId in cur.seen, DuplicatePoi, stop.poi, d);
      var dwelt := Noted(repeated, (stop.depart - stop.arrive) / 60 < c.durationMin, ShortVisit, stop.poi, d);
      var inHours := Noted(dwelt, !InHours(c, day.dayIndex, stop.arrive, stop.depart), OutsideHours, stop.poi, d);
      NotedKeeps(inHours, stop.arrive < cur.depart + r.matrix.LegBetween(cur.node, c.node).seconds, TravelOverlap,
          stop.poi, d);
      NotedKeeps(dwelt, !InHours(c, day.dayIndex, stop.arrive, stop.depart), OutsideHours, stop.poi, d);
      NotedKeeps(repeated, (stop.depart - stop.arrive) / 60 < c.durationMin, ShortVisit, stop.poi, d);
      NotedKeeps(issues, c.poiId in cur.seen, DuplicatePoi, stop.poi, d);
    }
  }

  lemma DayKeepsIssues(r: Request, plan: DayPlan, seen: set<PoiId>, issues: seq<Issue>)
    requires NoTimingIssue(DayIssues(r, plan, seen, issues))
    requires plan.DayPlan? && AllStops(plan.stops)
    ensures NoTimingIssue(issues)
    ensures HasDay(r, plan) ==> InTimeOrder(DayOf(r, plan), plan.stops, |plan.stops|)
  {
    hide NoTimingIssue, Noted, IndexInRequest, IssuesUpTo, CursorAt, MeetsDeadline, OverBudget;
    if HasDay(r, plan) {
      var day, n := DayOf(r, plan), |plan.stops|;
      var cur, before := CursorAt(r, day, plan.stops, seen, n), IssuesUpTo(r, day, plan.stops, seen, issues, n);
      var home, d := Home(r, day, cur.node), Some(day.dayIndex);
      var late := !MeetsDeadline(r, day, cur.depart + home.seconds);
      NotedKeeps(Noted(before, late, MissedDeadline, None, d), OverBudget(day, cur.walking + home.Walked()),
          WalkingBudget, None, d);
      NotedKeeps(before, late, MissedDeadline, None, d);
      CleanDayIsInOrder(r, day, plan.stops, seen, issues, n);
    } else {
      NotedKeeps(issues, true, UnknownDay, None, None);
    }
  }

  ghost predicate Structured(plans: seq<DayPlan>) {
    forall n | 0 <= n < |plans| :: plans[n].DayPlan? && AllStops(plans[n].stops)
  }

  lemma {:induction false} CleanPlansAreInOrder(r: Request, plans: seq<DayPlan>, n: nat, m: nat)
    requires Structured(plans) && m < n <= |plans| && NoTimingIssue(PlanIssues(r, plans, n))
    ensures HasDay(r, plans[m]) ==> InTimeOrder(DayOf(r, plans[m]), plans[m].stops, |plans[m].stops|)
  {
    hide NoTimingIssue, IndexInRequest, DayIssues, InTimeOrder;
    DayKeepsIssues(r, plans[n - 1], SeenAfter(r, plans, n - 1), PlanIssues(r, plans, n - 1));
    if m >= n - 1 {
    } else {
      CleanPlansAreInOrder(r, plans, n - 1, m);
    }
  }

  lemma {:induction false} MissingKeepsIssues(cs: seq<Candidate>, seen: set<PoiId>, issues: seq<Issue>, n: nat)
    requires n <= |cs|
    ensures NoTimingIssue(MissingIssues(cs, seen, issues, n)) <==> NoTimingIssue(issues)
  {
    if n == 0 {
    } else {
      MissingKeepsIssues(cs, seen, issues, n - 1);
      var c := cs[n - 1];
      var before := MissingIssues(cs, seen, issues, n - 1);
      if c.mustDo && c.poiId !in seen && NoTimingIssue(MissingIssues(cs, seen, issues, n)) {
        NotedKeeps(before, c.mustDo && c.poiId !in seen, MissingMustDo, Some(c.poiId), None);
      }
    }
  }

  /**
   * If the semantic check reports neither an overlap nor a negative duration, minute
   * rounding creates no conflict on any day the request knows.
   */
  lemma MinuteRoundingIsSafe(r: Request, plans: seq<DayPlan>, epoch: Time, n: nat)
    requires Structured(plans) && NoTimingIssue(ResponseIssues(r, plans))
    requires n < |plans| && HasDay(r, plans[n])
    ensures NoOverlap(epoch, plans[n].stops)
  {
    hide NoTimingIssue, IndexInRequest, PlanIssues, MissingIssues, InTimeOrder, NoOverlap;
    MissingKeepsIssues(r.candidates, SeenAfter(r, plans, |plans|), PlanIssues(r, plans, |plans|), |r.candidates|);
    CleanPlansAreInOrder(r, plans, |plans|, n);
    RoundingKeepsOrder(epoch, DayOf(r, plans[n]), plans[n].stops);
  }

  // ------------------------------------------------------------- the audit

  /** `cp_sat_audit`: the semantic issues, and one more if some day's intervals overlap. */
  method CpSatAudit(r: Request, plans: seq<DayPlan>, epoch: Time) returns (issues: seq<Issue>)
    requires Structured(plans)
    ensures issues == ResponseIssues(r, plans) ||
            issues == ResponseIssues(r, plans) + [Issue(CpSatOverlap, None, None)]
    ensures issues == ResponseIssues(r, plans) <==> forall n | 0 <= n < |plans| :: NoOverlap(epoch, plans[n].stops)
  {
    issues := CheckResponse(r, plans);
    var satisfiable := true;
    for n := 0 to |plans|
      invariant satisfiable <==> forall m | 0 <= m < n :: NoOverlap(epoch, plans[m].stops)
    {
      var intervals := Intervals(epoch, plans[n].stops);
      var disjoint := forall i, j | 0 <= i < j < |intervals| :: Apart(intervals[i], intervals[j]);
      assert disjoint <==> NoOverlap(epoch, plans[n].stops);
      satisfiable := satisfiable && disjoint;
    }
    if !satisfiable {
      issues := issues + [Issue(CpSatOverlap, None, None)];
    }
  }

  /**
   * Given no timing issue, the second audit objects exactly when a day that the request
   * does not know overlaps: the semantic check skips the stops of such a day.
   */
  lemma AuditObjectsOnlyToUnknownDays(r: Request, plans: seq<DayPlan>, epoch: Time)
    requires Structured(plans) && NoTimingIssue(ResponseIssues(r, plans))
    ensures (forall n | 0 <= n < |plans| :: NoOverlap(epoch, plans[n].stops)) <==>
            (forall n | 0 <= n < |plans| && !HasDay(r, plans[n]) :: NoOverlap(epoch, plans[n].stops))
  {
    forall n | 0 <= n < |plans| && HasDay(r, plans[n])
      ensures NoOverlap(epoch, plans[n].stops)
    {
      MinuteRoundingIsSafe(r, plans, epoch, n);
    }
  }

  /** Such a plan: no day has a negative index, and its two stops coincide. */
  lemma UnknownDayEscapesTheCheck(r: Request, epoch: Time)
    ensures var stops := [Stop(Some(0), epoch, epoch + 3600, None), Stop(Some(1), epoch, epoch + 3600, None)];
      var plans := [DayPlan(Some(-1), stops)];
      NoTimingIssue(ResponseIssues(r, plans)) && !NoOverlap(epoch, stops)
  {
    var stops := [Stop(Some(0), epoch, epoch + 3600, None), Stop(Some(1), epoch, epoch + 3600, None)];
    var plans := [DayPlan(Some(-1), stops)];
    assert PlanIssues(r, plans, 0) == [];
    assert PlanIssues(r, plans, 1) == [Issue(UnknownDay, None, None)];
    MissingKeepsIssues(r.candidates, SeenAfter(r, plans, 1), PlanIssues(r, plans, 1), |r.candidates|);
    assert !Apart(IntervalOf(epoch, stops[0]), IntervalOf(epoch, stops[1]));
  }
}
