/**
 * What each issue of the independent checker stands for: an issue is reported exactly if
 * the schedule has that fault, for every code, without the checker's running variables.
 */
module Faults {
  import opened Prelude
  import opened SolverModel
  import opened Route
  import opened Insertion
  import opened Feasibility

  // ------------------------------------------------------------- the faults

  /** The last number that a stop before `k` carried, or -1. */
  ghost function OrdBefore(stops: seq<Stop>, k: nat): int
    requires k <= |stops|
  {
    if k == 0 then -1
    else if stops[k - 1].Stop? && stops[k - 1].ord.Some? then stops[k - 1].ord.value
    else OrdBefore(stops, k - 1)
  }

  /** Some window of that day holds the whole visit; a place without windows is always open. */
  ghost predicate Open(c: Candidate, dayIndex: nat, arrive: Time, depart: Time) {
    c.windows != [] ==>
      exists w | w in c.windows :: w.dayIndex == dayIndex && w.opens <= arrive && depart <= w.closes
  }

  /** What can be wrong with a visit in itself, and with its place in the day. */
  ghost predicate VisitFault(r: Request, day: Day, stops: seq<Stop>, k: nat, code: Code)
    requires k < |stops| && IsVisit(r, stops[k])
  {
    var s, c := stops[k], CandidateFor(r.candidates, stops[k].poi.value);
    match code
    case ShortVisit => s.depart - s.arrive < 60 * c.durationMin
    case OutsideHours => !Open(c, day.dayIndex, s.arrive, s.depart)
    case TravelOverlap =>
      s.arrive < FreeBefore(day, stops, k) + r.matrix.LegBetween(PlaceBefore(r, day, stops, k), c.node).seconds
    case _ => false
  }

  /** What can be wrong with any stop; these issues name no place. */
  ghost predicate TimeFault(day: Day, stops: seq<Stop>, k: nat, code: Code)
    requires k < |stops|
  {
    var s := stops[k];
    match code
    case InvalidStop => s.OpaqueStop?
    case InvalidOrder => s.Stop? && s.ord != Some(OrdBefore(stops, k) + 1)
    case NegativeDuration => s.Stop? && s.depart < s.arrive
    case Overlap => s.Stop? && s.arrive < FreeBefore(day, stops, k)
    case _ => false
  }

  /** Stop `k` has the fault; `seen` are the places visited on earlier days. */
  ghost predicate StopFault(r: Request, day: Day, stops: seq<Stop>, seen: set<PoiId>, k: nat, issue: Issue)
    requires k < |stops|
  {
    && issue.dayIndex == Some(day.dayIndex)
    && match issue.poi
       case None => TimeFault(day, stops, k, issue.code)
       case Some(p) =>
         && stops[k].Stop? && stops[k].poi == Some(p)
         && if !KnownPoi(r.candidates, p) then issue.code.UnknownPoi?
            else if issue.code.DuplicatePoi? then p in seen || VisitedBefore(r, stops, k, p)
            else VisitFault(r, day, stops, k, issue.code)
  }

  /** The day as a whole has the fault. */
  ghost predicate DayFault(r: Request, day: Day, stops: seq<Stop>, issue: Issue) {
    var home := Home(r, day, PlaceBefore(r, day, stops, |stops|));
    && issue.poi.None? && issue.dayIndex == Some(day.dayIndex)
    && match issue.code
       case MissedDeadline =>
         && Deadline(r, day).Some?
         && FreeBefore(day, stops, |stops|) + home.seconds > Deadline(r, day).value
       case WalkingBudget =>
         && day.walkingBudget.Some?
         && WalkedBefore(r, day, stops, |stops|) + home.Walked() > day.walkingBudget.value + 1.0
       case _ => false
  }

  /** Plan `n` has the fault. */
  ghost predicate PlanFault(r: Request, plans: seq<DayPlan>, n: nat, issue: Issue)
    requires n < |plans|
  {
    var plan := plans[n];
    if plan.OpaqueDay? then issue == Issue(InvalidDay, None, None)
    else if !HasDay(r, plan) then issue == Issue(UnknownDay, None, None)
    else
      var day := DayOf(r, plan);
      || DayFault(r, day, plan.stops, issue)
      || exists k: nat :: k < |plan.stops| && StopFault(r, day, plan.stops, PlacesBefore(r, plans, n), k, issue)
  }

  /** The places visited on the days before plan `n`. */
  ghost function PlacesBefore(r: Request, plans: seq<DayPlan>, n: nat): set<PoiId> {
    set c | c in r.candidates && ScheduledBefore(r, plans, n, c.poiId) :: c.poiId
  }

  /** The schedule has the fault that the issue names. */
  ghost predicate Fault(r: Request, plans: seq<DayPlan>, issue: Issue) {
    || (exists n: nat :: n < |plans| && PlanFault(r, plans, n, issue))
    || (issue.code.MissingMustDo? && issue.dayIndex.None?
        && exists c | c in r.candidates && c.mustDo ::
             issue.poi == Some(c.poiId) && !ScheduledBefore(r, plans, |plans|, c.poiId))
  }

  // ------------------------------------------------------------- one test after the other

  lemma {:induction false} OrdMeans(r: Request, day: Day, stops: seq<Stop>, seen: set<PoiId>, k: nat)
    requires k <= |stops|
    ensures CursorAt(r, day, stops, seen, k).lastOrd == OrdBefore(stops, k)
  {
    hide KnownPoi;
    if k == 0 {
    } else {
      OrdMeans(r, day, stops, seen, k - 1);
    }
  }

  lemma PoiIssuesHold(r: Request, day: Day, stops: seq<Stop>, seen: set<PoiId>, k: nat, issues: seq<Issue>, x: Issue)
    requires k < |stops| && stops[k].Stop? && stops[k].poi.Some?
    ensures x in PoiIssues(r, day, CursorAt(r, day, stops, seen, k), stops[k], issues) <==>
      x in issues || (x.poi.Some? && StopFault(r, day, stops, seen, k, x))
  {
    hide KnownPoi, CursorAt;
    CursorMeans(r, day, stops, seen, k);
  }

  lemma StopIssuesHold(r: Request, day: Day, stops: seq<Stop>, seen: set<PoiId>, k: nat, issues: seq<Issue>, x: Issue)
    requires k < |stops|
    ensures x in StopIssues(r, day, CursorAt(r, day, stops, seen, k), stops[k], issues) <==>
      x in issues || StopFault(r, day, stops, seen, k, x)
  {
    hide KnownPoi, CursorAt, PoiIssues, VisitFault, Open;
    var cur, s, d := CursorAt(r, day, stops, seen, k), stops[k], Some(day.dayIndex);
    CursorMeans(r, day, stops, seen, k);
    OrdMeans(r, day, stops, seen, k);
    if s.Stop? {
      var ordered := Noted(issues, s.ord != Some(cur.lastOrd + 1), InvalidOrder, None, d);
      var positive := Noted(ordered, s.depart < s.arrive, NegativeDuration, None, d);
      var forward := Noted(positive, s.arrive < cur.depart, Overlap, None, d);
      if s.poi.Some? {
        PoiIssuesHold(r, day, stops, seen, k, forward, x);
      }
    }
  }

  lemma {:induction false} IssuesUpToHold(r: Request, day: Day, stops: seq<Stop>, seen: set<PoiId>,
                                          issues: seq<Issue>, k: nat, x: Issue)
    requires k <= |stops|
    ensures x in IssuesUpTo(r, day, stops, seen, issues, k) <==>
      x in issues || exists i: nat :: i < k && StopFault(r, day, stops, seen, i, x)
  {
    hide StopIssues, StopFault, CursorAt;
    if k == 0 {
    } else {
      var last := k - 1;
      IssuesUpToHold(r, day, stops, seen, issues, last, x);
      StopIssuesHold(r, day, stops, seen, last, IssuesUpTo(r, day, stops, seen, issues, last), x);
    }
  }

  lemma EndIssuesHold(r: Request, day: Day, stops: seq<Stop>, seen: set<PoiId>, issues: seq<Issue>, x: Issue)
    ensures x in EndIssues(r, day, CursorAt(r, day, stops, seen, |stops|), issues) <==>
      x in issues || DayFault(r, day, stops, x)
  {
    hide CursorAt;
    CursorMeans(r, day, stops, seen, |stops|);
  }

  // ------------------------------------------------------------- over all days

  lemma SeenArePlaces(r: Request, plans: seq<DayPlan>, n: nat)
    requires n <= |plans|
    ensures SeenAfter(r, plans, n) == PlacesBefore(r, plans, n)
  {
    hide SeenAfter, ScheduledBefore;
    forall p
      ensures p in SeenAfter(r, plans, n) <==> p in PlacesBefore(r, plans, n)
    {
      SeenMeans(r, plans, n, p);
      ScheduledIsKnown(r, plans, n, p);
    }
  }

  lemma ScheduledIsKnown(r: Request, plans: seq<DayPlan>, n: nat, p: PoiId)
    ensures ScheduledBefore(r, plans, n, p) ==> KnownPoi(r.candidates, p)
  {}

  lemma DayIssuesHold(r: Request, plans: seq<DayPlan>, n: nat, issues: seq<Issue>, x: Issue)
    requires n < |plans|
    ensures x in DayIssues(r, plans[n], SeenAfter(r, plans, n), issues) <==> x in issues || PlanFault(r, plans, n, x)
  {
    hide StopFault, DayFault, SeenAfter, PlacesBefore, EndIssues, IssuesUpTo, CursorAt, IndexInRequest;
    SeenArePlaces(r, plans, n);
    var plan, seen := plans[n], SeenAfter(r, plans, n);
    if plan.DayPlan? && HasDay(r, plan) {
      var day, stops := DayOf(r, plan), plan.stops;
      IssuesUpToHold(r, day, stops, seen, issues, |stops|, x);
      EndIssuesHold(r, day, stops, seen, IssuesUpTo(r, day, stops, seen, issues, |stops|), x);
    }
  }

  lemma {:induction false} PlanIssuesHold(r: Request, plans: seq<DayPlan>, n: nat, x: Issue)
    requires n <= |plans|
    ensures x in PlanIssues(r, plans, n) <==> exists m: nat :: m < n && PlanFault(r, plans, m, x)
  {
    hide DayIssues, PlanFault, SeenAfter;
    if n == 0 {
    } else {
      var last := n - 1;
      PlanIssuesHold(r, plans, last, x);
      DayIssuesHold(r, plans, last, PlanIssues(r, plans, last), x);
    }
  }

  lemma {:induction false} MissingIssuesHold(cs: seq<Candidate>, seen: set<PoiId>, issues: seq<Issue>, n: nat, x: Issue)
    requires n <= |cs|
    ensures x in MissingIssues(cs, seen, issues, n) <==>
      x in issues || exists i: nat :: i < n && cs[i].mustDo && cs[i].poiId !in seen
                                      && x == Issue(MissingMustDo, Some(cs[i].poiId), None)
  {
    if n == 0 {
    } else {
      MissingIssuesHold(cs, seen, issues, n - 1, x);
    }
  }

  /** `check_response` reports an issue exactly if the schedule has that fault. */
  lemma IssuesAreFaults(r: Request, plans: seq<DayPlan>, x: Issue)
    ensures x in ResponseIssues(r, plans) <==> Fault(r, plans, x)
  {
    hide PlanFault, SeenAfter, PlanIssues, MissingIssues, ScheduledBefore;
    var seen, cs := SeenAfter(r, plans, |plans|), r.candidates;
    PlanIssuesHold(r, plans, |plans|, x);
    MissingIssuesHold(cs, seen, PlanIssues(r, plans, |plans|), |cs|, x);
    forall c | c in cs
      ensures c.poiId in seen <==> ScheduledBefore(r, plans, |plans|, c.poiId)
    {
      SeenMeans(r, plans, |plans|, c.poiId);
    }
    if exists c | c in cs && c.mustDo :: x.poi == Some(c.poiId) && !ScheduledBefore(r, plans, |plans|, c.poiId) {
      var c :| c in cs && c.mustDo && x.poi == Some(c.poiId) && !ScheduledBefore(r, plans, |plans|, c.poiId);
      var i :| 0 <= i < |cs| && cs[i] == c;
      assert cs[i].poiId !in seen;
    }
  }
}
