/**
 * The independent schedule checker: its issue list, and the declarative notion of a
 * valid plan that an empty issue list stands for.
 */
module Feasibility {
  import opened Prelude
  import opened SolverModel
  import opened Route
  import opened Insertion

  // ------------------------------------------------------------- emitted plans

  /** A stop as received; `Opaque` is anything that is not an object. */
  datatype Stop = Stop(ord: Option<int>, arrive: Time, depart: Time, poi: Option<PoiId>) | OpaqueStop

  datatype DayPlan = DayPlan(dayIndex: Option<int>, stops: seq<Stop>) | OpaqueDay

  datatype Code =
    | InvalidDay | UnknownDay | InvalidStop | InvalidOrder | NegativeDuration | Overlap | UnknownPoi | DuplicatePoi
    | ShortVisit | OutsideHours | TravelOverlap | MissedDeadline | WalkingBudget | MissingMustDo | CpSatOverlap

  datatype Issue = Issue(code: Code, poi: Option<PoiId>, dayIndex: Option<int>)

  // ------------------------------------------------------------- lookups

  predicate KnownPoi(cs: seq<Candidate>, p: PoiId) {
    exists c | c in cs :: c.poiId == p
  }

  function CandidateFor(cs: seq<Candidate>, p: PoiId): (c: Candidate)
    requires KnownPoi(cs, p)
    ensures c in cs && c.poiId == p
  {
    if cs[0].poiId == p then cs[0] else CandidateFor(cs[1..], p)
  }

  predicate HasDay(r: Request, plan: DayPlan) {
    plan.DayPlan? && IndexInRequest(r, plan.dayIndex)
  }

  predicate IndexInRequest(r: Request, dayIndex: Option<int>) {
    dayIndex.Some? && exists d | d in r.days :: d.dayIndex == dayIndex.value
  }

  function DayOf(r: Request, plan: DayPlan): (d: Day)
    requires HasDay(r, plan)
    ensures d in r.days && d.dayIndex == plan.dayIndex.value
  {
    DayFor(r.days, plan.dayIndex.value)
  }

  // ------------------------------------------------------------- the check, stop by stop

  /** What the inner loop carries from stop to stop. */
  datatype Cursor = Cursor(depart: Time, node: Node, walking: Meters, lastOrd: int, seen: set<PoiId>)

  /** The issue list after one test. */
  function Noted(issues: seq<Issue>, condition: bool, code: Code, poi: Option<PoiId>,
                 dayIndex: Option<int>): (after: seq<Issue>)
    ensures after == [] <==> issues == [] && !condition
  {
    if condition then issues + [Issue(code, poi, dayIndex)] else issues
  }

  predicate InHours(c: Candidate, dayIndex: nat, arrive: Time, depart: Time) {
    c.windows == [] || exists w | w in c.windows :: w.dayIndex == dayIndex && w.opens <= arrive && depart <= w.closes
  }

  function PoiIssues(r: Request, day: Day, cur: Cursor, stop: Stop, issues: seq<Issue>): seq<Issue>
    requires stop.Stop? && stop.poi.Some?
  {
    var d := Some(day.dayIndex);
    if !KnownPoi(r.candidates, stop.poi.value) then Noted(issues, true, UnknownPoi, stop.poi, d)
    else
      var c := CandidateFor(r.candidates, stop.poi.value);
      var repeated := Noted(issues, c.poiId in cur.seen, DuplicatePoi, stop.poi, d);
      var dwelt := Noted(repeated, (stop.depart - stop.arrive) / 60 < c.durationMin, ShortVisit, stop.poi, d);
      var inHours := Noted(dwelt, !InHours(c, day.dayIndex, stop.arrive, stop.depart), OutsideHours, stop.poi, d);
      Noted(inHours, stop.arrive < cur.depart + r.matrix.LegBetween(cur.node, c.node).seconds, TravelOverlap, stop.poi,
          d)
  }

  function StopIssues(r: Request, day: Day, cur: Cursor, stop: Stop, issues: seq<Issue>): seq<Issue> {
    var d := Some(day.dayIndex);
    if stop.OpaqueStop? then Noted(issues, true, InvalidStop, None, d)
    else
      var ordered := Noted(issues, stop.ord != Some(cur.lastOrd + 1), InvalidOrder, None, d);
      var positive := Noted(ordered, stop.depart < stop.arrive, NegativeDuration, None, d);
      var forward := Noted(positive, stop.arrive < cur.depart, Overlap, None, d);
      if stop.poi.Some? then PoiIssues(r, day, cur, stop, forward) else forward
  }

  predicate IsVisit(r: Request, stop: Stop) {
    stop.Stop? && stop.poi.Some? && KnownPoi(r.candidates, stop.poi.value)
  }

  function NodeOf(r: Request, stop: Stop): Node
    requires IsVisit(r, stop)
  {
    CandidateFor(r.candidates, stop.poi.value).node
  }

  function Advance(r: Request, cur: Cursor, stop: Stop): Cursor {
    if stop.OpaqueStop? then cur
    else
      var lastOrd := if stop.ord.Some? then stop.ord.value else cur.lastOrd;
      if IsVisit(r, stop) then
        Cursor(stop.depart, NodeOf(r, stop), cur.walking + r.matrix.LegBetween(cur.node, NodeOf(r, stop)).Walked(),
            lastOrd, cur.seen + {stop.poi.value})
      else
        cur.(depart := stop.depart, lastOrd := lastOrd)
  }

  function CursorAt(r: Request, day: Day, stops: seq<Stop>, seen: set<PoiId>, k: nat): Cursor
    requires k <= |stops|
  {
    if k == 0 then Cursor(day.startTime, day.startNode, 0.0, -1, seen)
    else Advance(r, CursorAt(r, day, stops, seen, k - 1), stops[k - 1])
  }

  function IssuesUpTo(r: Request, day: Day, stops: seq<Stop>, seen: set<PoiId>, issues: seq<Issue>, k: nat): seq<Issue>
    requires k <= |stops|
  {
    if k == 0 then issues
    else StopIssues(r, day, CursorAt(r, day, stops, seen, k - 1), stops[k - 1],
        IssuesUpTo(r, day, stops, seen, issues, k - 1))
  }

  /** The leg home from the last visited node, if the day has an end anchor. */
  function Home(r: Request, day: Day, node: Node): Leg {
    if day.endNode.Some? then r.matrix.LegBetween(node, day.endNode.value) else Leg(Bike, 0, 0.0)
  }

  predicate OverBudget(day: Day, walked: Meters) {
    day.walkingBudget.Some? && walked > day.walkingBudget.value + 1.0
  }

  function EndIssues(r: Request, day: Day, cur: Cursor, issues: seq<Issue>): seq<Issue> {
    var home, d := Home(r, day, cur.node), Some(day.dayIndex);
    var timely := Noted(issues, !MeetsDeadline(r, day, cur.depart + home.seconds), MissedDeadline, None, d);
    Noted(timely, OverBudget(day, cur.walking + home.Walked()), WalkingBudget, None, d)
  }

  function DayIssues(r: Request, plan: DayPlan, seen: set<PoiId>, issues: seq<Issue>): seq<Issue> {
    if plan.OpaqueDay? then Noted(issues, true, InvalidDay, None, None)
    else if !HasDay(r, plan) then Noted(issues, true, UnknownDay, None, None)
    else
      var day, n := DayOf(r, plan), |plan.stops|;
      EndIssues(r, day, CursorAt(r, day, plan.stops, seen, n), IssuesUpTo(r, day, plan.stops, seen, issues, n))
  }

  function SeenAfterDay(r: Request, plan: DayPlan, seen: set<PoiId>): set<PoiId> {
    if HasDay(r, plan) then CursorAt(r, DayOf(r, plan), plan.stops, seen, |plan.stops|).seen else seen
  }

  function SeenAfter(r: Request, plans: seq<DayPlan>, n: nat): set<PoiId>
    requires n <= |plans|
  {
    if n == 0 then {} else SeenAfterDay(r, plans[n - 1], SeenAfter(r, plans, n - 1))
  }

  function PlanIssues(r: Request, plans: seq<DayPlan>, n: nat): seq<Issue>
    requires n <= |plans|
  {
    if n == 0 then [] else DayIssues(r, plans[n - 1], SeenAfter(r, plans, n - 1), PlanIssues(r, plans, n - 1))
  }

  function MissingIssues(cs: seq<Candidate>, seen: set<PoiId>, issues: seq<Issue>, n: nat): seq<Issue>
    requires n <= |cs|
  {
    if n == 0 then issues
    else
      var c := cs[n - 1];
      Noted(MissingIssues(cs, seen, issues, n - 1), c.mustDo && c.poiId !in seen, MissingMustDo, Some(c.poiId), None)
  }

  /** What `check_response` returns. */
  function ResponseIssues(r: Request, plans: seq<DayPlan>): seq<Issue> {
    MissingIssues(r.candidates, SeenAfter(r, plans, |plans|), PlanIssues(r, plans, |plans|), |r.candidates|)
  }

  // ------------------------------------------------------------- the loops

  /** The tests on a stop that names a place. */
  method CheckPoi(r: Request, day: Day, cur: Cursor, stop: Stop, issuesBefore: seq<Issue>)
    returns (issues: seq<Issue>, next: Cursor)
    requires stop.Stop? && stop.poi.Some?
    ensures issues == PoiIssues(r, day, cur, stop, issuesBefore)
    ensures next == if IsVisit(r, stop)
                    then cur.(node := NodeOf(r, stop),
                        walking := cur.walking + r.matrix.LegBetween(cur.node, NodeOf(r, stop)).Walked(),
                        seen := cur.seen + {stop.poi.value})
                    else cur
  {
    hide InHours;
    issues, next := issuesBefore, cur;
    if !KnownPoi(r.candidates, stop.poi.value) {
      issues := issues + [Issue(UnknownPoi, stop.poi, Some(day.dayIndex))];
      return;
    }
    var candidate := CandidateFor(r.candidates, stop.poi.value);
    if candidate.poiId in cur.seen {
      issues := issues + [Issue(DuplicatePoi, stop.poi, Some(day.dayIndex))];
    }
    next := next.(seen := next.seen + {candidate.poiId});
    var duration := (stop.depart - stop.arrive) / 60;
    if duration < candidate.durationMin {
      issues := issues + [Issue(ShortVisit, stop.poi, Some(day.dayIndex))];
    }
    if !InHours(candidate, day.dayIndex, stop.arrive, stop.depart) {
      issues := issues + [Issue(OutsideHours, stop.poi, Some(day.dayIndex))];
    }
    var leg := r.matrix.LegBetween(cur.node, candidate.node);
    if stop.arrive < cur.depart + leg.seconds {
      issues := issues + [Issue(TravelOverlap, stop.poi, Some(day.dayIndex))];
    }
    if leg.mode.Walk? {
      next := next.(walking := next.walking + leg.meters);
    }
    next := next.(node := candidate.node);
  }

  /** The body of the inner loop. */
  method CheckStop(r: Request, day: Day, cur: Cursor, stop: Stop, issuesBefore: seq<Issue>)
    returns (issues: seq<Issue>, next: Cursor)
    ensures issues == StopIssues(r, day, cur, stop, issuesBefore)
    ensures next == Advance(r, cur, stop)
  {
    hide KnownPoi, PoiIssues, CandidateFor;
    issues, next := issuesBefore, cur;
    if stop.OpaqueStop? {
      issues := issues + [Issue(InvalidStop, None, Some(day.dayIndex))];
      return;
    }
    if stop.ord.None? || stop.ord.value != cur.lastOrd + 1 {
      issues := issues + [Issue(InvalidOrder, None, Some(day.dayIndex))];
    }
    if stop.depart < stop.arrive {
      issues := issues + [Issue(NegativeDuration, None, Some(day.dayIndex))];
    }
    if stop.arrive < cur.depart {
      issues := issues + [Issue(Overlap, None, Some(day.dayIndex))];
    }
    if stop.poi.Some? {
      issues, next := CheckPoi(r, day, cur, stop, issues);
    }
    next := next.(depart := stop.depart, lastOrd := if stop.ord.Some? then stop.ord.value else cur.lastOrd);
  }

  method CheckDay(r: Request, plan: DayPlan, seenBefore: set<PoiId>, issuesBefore: seq<Issue>)
    returns (issues: seq<Issue>, seen: set<PoiId>)
    requires HasDay(r, plan)
    ensures issues == DayIssues(r, plan, seenBefore, issuesBefore)
    ensures seen == SeenAfterDay(r, plan, seenBefore)
  {
    hide Advance, StopIssues, KnownPoi;
    var day := DayOf(r, plan);
    var cur := Cursor(day.startTime, day.startNode, 0.0, -1, seenBefore);
    issues := issuesBefore;
    for k := 0 to |plan.stops|
      invariant cur == CursorAt(r, day, plan.stops, seenBefore, k)
      invariant issues == IssuesUpTo(r, day, plan.stops, seenBefore, issuesBefore, k)
    {
      issues, cur := CheckStop(r, day, cur, plan.stops[k], issues);
    }
    seen := cur.seen;
    var deadline := Deadline(r, day);
    var walking, dayEnd := cur.walking, cur.depart;
    if day.endNode.Some? {
      var leg := r.matrix.LegBetween(cur.node, day.endNode.value);
      if leg.mode.Walk? {
        walking := walking + leg.meters;
      }
      dayEnd := cur.depart + leg.seconds;
    }
    if deadline.Some? && dayEnd > deadline.value {
      issues := issues + [Issue(MissedDeadline, None, Some(day.dayIndex))];
    }
    if day.walkingBudget.Some? && walking > day.walkingBudget.value + 1.0 {
      issues := issues + [Issue(WalkingBudget, None, Some(day.dayIndex))];
    }
  }

  /** `check_response`. */
  method CheckResponse(r: Request, plans: seq<DayPlan>) returns (issues: seq<Issue>)
    ensures issues == ResponseIssues(r, plans)
  {
    hide CursorAt, IssuesUpTo, EndIssues;
    issues := [];
    var seen: set<PoiId> := {};
    for n := 0 to |plans|
      invariant issues == PlanIssues(r, plans, n) && seen == SeenAfter(r, plans, n)
    {
      var plan := plans[n];
      if plan.OpaqueDay? {
        issues := issues + [Issue(InvalidDay, None, None)];
      } else if !HasDay(r, plan) {
        issues := issues + [Issue(UnknownDay, None, None)];
      } else {
        issues, seen := CheckDay(r, plan, seen, issues);
      }
    }
    ghost var base := issues;
    for n := 0 to |r.candidates|
      invariant issues == MissingIssues(r.candidates, seen, base, n)
    {
      var c := r.candidates[n];
      if c.mustDo && c.poiId !in seen {
        issues := issues + [Issue(MissingMustDo, Some(c.poiId), None)];
      }
    }
  }

  // ------------------------------------------------------------- valid plans

  /** When the previous stop ends. */
  ghost function FreeBefore(day: Day, stops: seq<Stop>, k: nat): Time
    requires k <= |stops|
  {
    if k == 0 then day.startTime
    else if stops[k - 1].Stop? then stops[k - 1].depart else FreeBefore(day, stops, k - 1)
  }

  /** The last visited place; stops without one do not move the traveller. */
  ghost function PlaceBefore(r: Request, day: Day, stops: seq<Stop>, k: nat): Node
    requires k <= |stops|
  {
    if k == 0 then day.startNode
    else if IsVisit(r, stops[k - 1]) then NodeOf(r, stops[k - 1]) else PlaceBefore(r, day, stops, k - 1)
  }

  ghost function WalkedBefore(r: Request, day: Day, stops: seq<Stop>, k: nat): Meters
    requires k <= |stops|
  {
    if k == 0 then 0.0
    else
      var before := WalkedBefore(r, day, stops, k - 1);
      if IsVisit(r, stops[k - 1])
      then before + r.matrix.LegBetween(PlaceBefore(r, day, stops, k - 1), NodeOf(r, stops[k - 1])).Walked()
      else before
  }

  /** A visit long enough, inside its hours, and reachable in time. */
  ghost predicate VisitOk(r: Request, day: Day, stops: seq<Stop>, k: nat)
    requires k < |stops| && IsVisit(r, stops[k])
  {
    var s, c := stops[k], CandidateFor(r.candidates, stops[k].poi.value);
    && 60 * c.durationMin <= s.depart - s.arrive
    && InHours(c, day.dayIndex, s.arrive, s.depart)
    && FreeBefore(day, stops, k) + r.matrix.LegBetween(PlaceBefore(r, day, stops, k), c.node).seconds <= s.arrive
  }

  ghost predicate StopOk(r: Request, day: Day, stops: seq<Stop>, k: nat)
    requires k < |stops|
  {
    var s := stops[k];
    && s.Stop? && s.ord == Some(k)
    && FreeBefore(day, stops, k) <= s.arrive <= s.depart
    && (s.poi.Some? ==> IsVisit(r, s) && VisitOk(r, day, stops, k))
  }

  ghost predicate DayOk(r: Request, day: Day, stops: seq<Stop>) {
    var home := Home(r, day, PlaceBefore(r, day, stops, |stops|));
    && (forall k | 0 <= k < |stops| :: StopOk(r, day, stops, k))
    && MeetsDeadline(r, day, FreeBefore(day, stops, |stops|) + home.seconds)
    && !OverBudget(day, WalkedBefore(r, day, stops, |stops|) + home.Walked())
  }

  /** Stop `k` of plan `n` visits `p`. */
  ghost predicate Scheduled(r: Request, plans: seq<DayPlan>, n: nat, k: nat, p: PoiId) {
    && n < |plans| && HasDay(r, plans[n]) && k < |plans[n].stops|
    && IsVisit(r, plans[n].stops[k]) && plans[n].stops[k].poi == Some(p)
  }

  ghost predicate NoRepeats(r: Request, plans: seq<DayPlan>) {
    forall n: nat, k: nat, m: nat, l: nat, p: PoiId | Scheduled(r, plans, n, k, p) && Scheduled(r, plans, m, l, p) ::
      n == m && k == l
  }

  ghost predicate MustDosPresent(r: Request, plans: seq<DayPlan>) {
    forall c | c in r.candidates && c.mustDo :: exists n: nat, k: nat :: Scheduled(r, plans, n, k, c.poiId)
  }

  ghost predicate PlanOk(r: Request, plan: DayPlan) {
    HasDay(r, plan) && DayOk(r, DayOf(r, plan), plan.stops)
  }

  /** A plan in which nothing can be faulted, stated without the checker's bookkeeping. */
  ghost predicate ValidPlan(r: Request, plans: seq<DayPlan>) {
    && (forall n | 0 <= n < |plans| :: PlanOk(r, plans[n]))
    && NoRepeats(r, plans)
    && MustDosPresent(r, plans)
  }

  // ------------------------------------------------------------- the bookkeeping means this

  lemma {:induction false} CursorMeans(r: Request, day: Day, stops: seq<Stop>, seen: set<PoiId>, k: nat)
    requires k <= |stops|
    ensures var cur := CursorAt(r, day, stops, seen, k);
      && cur.depart == FreeBefore(day, stops, k) && cur.node == PlaceBefore(r, day, stops, k)
      && cur.walking == WalkedBefore(r, day, stops, k)
      && forall p :: p in cur.seen <==> p in seen || VisitedBefore(r, stops, k, p)
  {
    hide KnownPoi;
    if k == 0 {
    } else {
      CursorMeans(r, day, stops, seen, k - 1);
      assert forall p :: VisitedBefore(r, stops, k, p) <==>
        VisitedBefore(r, stops, k - 1, p) || (IsVisit(r, stops[k - 1]) && stops[k - 1].poi.value == p);
    }
  }

  ghost predicate VisitedBefore(r: Request, stops: seq<Stop>, k: nat, p: PoiId) {
    exists i | 0 <= i < k && i < |stops| :: IsVisit(r, stops[i]) && stops[i].poi.value == p
  }

  /** A visit of a place not yet seen. */
  ghost predicate FreshStop(r: Request, stops: seq<Stop>, seen: set<PoiId>, k: nat)
    requires k < |stops|
  {
    IsVisit(r, stops[k]) ==> stops[k].poi.value !in seen && !VisitedBefore(r, stops, k, stops[k].poi.value)
  }

  lemma StopIssuesMeans(r: Request, day: Day, stops: seq<Stop>, seen: set<PoiId>, k: nat, issues: seq<Issue>)
    requires k < |stops| && forall i | 0 <= i < k :: StopOk(r, day, stops, i)
    ensures StopIssues(r, day, CursorAt(r, day, stops, seen, k), stops[k], issues) == [] <==>
      issues == [] && StopOk(r, day, stops, k) && FreshStop(r, stops, seen, k)
  {
    hide KnownPoi, InHours;
    forall i | 0 <= i < k
      ensures stops[i].Stop? && stops[i].ord == Some(i)
    {
      assert StopOk(r, day, stops, i);
    }
    CursorMeans(r, day, stops, seen, k);
  }

  lemma StopIssuesGrow(r: Request, day: Day, cur: Cursor, stop: Stop, issues: seq<Issue>)
    ensures StopIssues(r, day, cur, stop, issues) == [] ==> issues == []
  {}

  lemma {:induction false} IssuesUpToMeans(r: Request, day: Day, stops: seq<Stop>, seen: set<PoiId>,
                                           issues: seq<Issue>, k: nat)
    requires k <= |stops|
    ensures IssuesUpTo(r, day, stops, seen, issues, k) == [] <==>
      issues == [] && forall i | 0 <= i < k :: StopOk(r, day, stops, i) && FreshStop(r, stops, seen, i)
  {
    hide StopIssues, StopOk, FreshStop, CursorAt;
    if k == 0 {
    } else {
      var before := IssuesUpTo(r, day, stops, seen, issues, k - 1);
      IssuesUpToMeans(r, day, stops, seen, issues, k - 1);
      StopIssuesGrow(r, day, CursorAt(r, day, stops, seen, k - 1), stops[k - 1], before);
      if before == [] {
        StopIssuesMeans(r, day, stops, seen, k - 1, before);
      }
    }
  }

  ghost predicate FreshDay(r: Request, stops: seq<Stop>, seen: set<PoiId>) {
    forall k | 0 <= k < |stops| :: FreshStop(r, stops, seen, k)
  }

  lemma DayIssuesMeans(r: Request, plan: DayPlan, seen: set<PoiId>, issues: seq<Issue>)
    ensures DayIssues(r, plan, seen, issues) == [] <==>
      issues == [] && HasDay(r, plan) && DayOk(r, DayOf(r, plan), plan.stops) && FreshDay(r, plan.stops, seen)
  {
    hide StopOk, FreshStop, IndexInRequest, OverBudget, MeetsDeadline;
    if plan.DayPlan? && HasDay(r, plan) {
      var day, n := DayOf(r, plan), |plan.stops|;
      IssuesUpToMeans(r, day, plan.stops, seen, issues, n);
      CursorMeans(r, day, plan.stops, seen, n);
    }
  }

  // ------------------------------------------------------------- across days

  ghost predicate ScheduledBefore(r: Request, plans: seq<DayPlan>, n: nat, p: PoiId) {
    exists m: nat, k: nat :: m < n && Scheduled(r, plans, m, k, p)
  }

  lemma {:induction false} SeenMeans(r: Request, plans: seq<DayPlan>, n: nat, p: PoiId)
    requires n <= |plans|
    ensures p in SeenAfter(r, plans, n) <==> ScheduledBefore(r, plans, n, p)
  {
    hide IndexInRequest, IsVisit;
    if n == 0 {
    } else {
      SeenMeans(r, plans, n - 1, p);
      SeenAfterDayMeans(r, plans, n - 1, p);
      if ScheduledBefore(r, plans, n - 1, p) {
        var m: nat, k: nat :| m < n - 1 && Scheduled(r, plans, m, k, p);
        assert m < n && Scheduled(r, plans, m, k, p);
      }
      var last := n - 1;
      assert ScheduledBefore(r, plans, n, p) ==>
        ScheduledBefore(r, plans, last, p) || exists k: nat :: Scheduled(r, plans, last, k, p);
    }
  }

  lemma SeenAfterDayMeans(r: Request, plans: seq<DayPlan>, n: nat, p: PoiId)
    requires n < |plans|
    ensures p in SeenAfter(r, plans, n + 1) <==>
      p in SeenAfter(r, plans, n) || exists k: nat :: Scheduled(r, plans, n, k, p)
  {
    hide KnownPoi;
    var plan, seen := plans[n], SeenAfter(r, plans, n);
    if HasDay(r, plan) {
      CursorMeans(r, DayOf(r, plan), plan.stops, seen, |plan.stops|);
      assert VisitedBefore(r, plan.stops, |plan.stops|, p) <==> exists k: nat :: Scheduled(r, plans, n, k, p) by {
        if VisitedBefore(r, plan.stops, |plan.stops|, p) {
          var k :| 0 <= k < |plan.stops| && IsVisit(r, plan.stops[k]) && plan.stops[k].poi.value == p;
          assert Scheduled(r, plans, n, k, p);
        }
      }
    }
  }

  lemma {:induction false} PlanIssuesMeans(r: Request, plans: seq<DayPlan>, n: nat)
    requires n <= |plans|
    ensures PlanIssues(r, plans, n) == [] <==> forall m | 0 <= m < n ::
      HasDay(r, plans[m]) && DayOk(r, DayOf(r, plans[m]), plans[m].stops)
          && FreshDay(r, plans[m].stops, SeenAfter(r, plans, m))
  {
    hide IndexInRequest, DayOk, FreshDay, DayIssues, SeenAfter;
    if n == 0 {
    } else {
      PlanIssuesMeans(r, plans, n - 1);
      DayIssuesMeans(r, plans[n - 1], SeenAfter(r, plans, n - 1), PlanIssues(r, plans, n - 1));
    }
  }

  lemma {:induction false} MissingIssuesMeans(cs: seq<Candidate>, seen: set<PoiId>, issues: seq<Issue>, n: nat)
    requires n <= |cs|
    ensures MissingIssues(cs, seen, issues, n) == [] <==>
      issues == [] && forall i | 0 <= i < n && cs[i].mustDo :: cs[i].poiId in seen
  {
    if n == 0 {
    } else {
      MissingIssuesMeans(cs, seen, issues, n - 1);
    }
  }

  /** Each day fresh after the ones before it: that is, no place twice. */
  lemma FreshDaysMeanNoRepeats(r: Request, plans: seq<DayPlan>)
    requires forall n | 0 <= n < |plans| :: HasDay(r, plans[n])
    ensures (forall n | 0 <= n < |plans| ::
               HasDay(r, plans[n]) && FreshDay(r, plans[n].stops, SeenAfter(r, plans, n)))
            <==> NoRepeats(r, plans)
  {
    hide IndexInRequest, IsVisit, SeenAfter;
    if forall n | 0 <= n < |plans| :: FreshDay(r, plans[n].stops, SeenAfter(r, plans, n)) {
      forall n: nat, k: nat, m: nat, l: nat, p: PoiId | Scheduled(r, plans, n, k, p) && Scheduled(r, plans, m, l, p)
        ensures n == m && k == l
      {
        LaterIsFresh(r, plans, n, k, m, l, p);
        LaterIsFresh(r, plans, m, l, n, k, p);
      }
    }
    if NoRepeats(r, plans) {
      forall n, k | 0 <= n < |plans| && 0 <= k < |plans[n].stops|
        ensures FreshStop(r, plans[n].stops, SeenAfter(r, plans, n), k)
      {
        NoRepeatIsFresh(r, plans, n, k);
      }
    }
  }

  lemma LaterIsFresh(r: Request, plans: seq<DayPlan>, n: nat, k: nat, m: nat, l: nat, p: PoiId)
    requires Scheduled(r, plans, n, k, p) && Scheduled(r, plans, m, l, p)
    requires FreshDay(r, plans[m].stops, SeenAfter(r, plans, m))
    ensures m <= n && (m == n ==> l <= k)
  {
    hide IndexInRequest, SeenAfter;
    assert FreshStop(r, plans[m].stops, SeenAfter(r, plans, m), l);
    SeenMeans(r, plans, m, p);
  }

  lemma NoRepeatIsFresh(r: Request, plans: seq<DayPlan>, n: nat, k: nat)
    requires NoRepeats(r, plans) && n < |plans| && HasDay(r, plans[n]) && k < |plans[n].stops|
    ensures FreshStop(r, plans[n].stops, SeenAfter(r, plans, n), k)
  {
    hide IndexInRequest, KnownPoi, SeenAfter;
    var stops := plans[n].stops;
    if IsVisit(r, stops[k]) {
      assert Scheduled(r, plans, n, k, PoiOf(r, stops[k]));
      SeenMeans(r, plans, n, PoiOf(r, stops[k]));
      forall i | 0 <= i < k && IsVisit(r, stops[i])
        ensures PoiOf(r, stops[i]) != PoiOf(r, stops[k])
      {
        assert Scheduled(r, plans, n, i, PoiOf(r, stops[i]));
      }
    }
  }

  ghost function PoiOf(r: Request, stop: Stop): PoiId
    requires IsVisit(r, stop)
  {
    stop.poi.value
  }

  /** `check_response` finds no issue exactly in the valid plans. */
  lemma CheckerIsExact(r: Request, plans: seq<DayPlan>)
    ensures ResponseIssues(r, plans) == [] <==> ValidPlan(r, plans)
  {
    hide IndexInRequest, DayOk, FreshDay, SeenAfter, PlanIssues, NoRepeats, Scheduled;
    var seen := SeenAfter(r, plans, |plans|);
    PlanIssuesMeans(r, plans, |plans|);
    MissingIssuesMeans(r.candidates, seen, PlanIssues(r, plans, |plans|), |r.candidates|);
    if forall n | 0 <= n < |plans| :: HasDay(r, plans[n]) {
      FreshDaysMeanNoRepeats(r, plans);
    }
    forall c | c in r.candidates
      ensures c.poiId in seen <==> exists n: nat, k: nat :: Scheduled(r, plans, n, k, c.poiId)
    {
      SeenMeans(r, plans, |plans|, c.poiId);
      ScheduledHasPlan(r, plans, c.poiId);
    }
  }

  lemma ScheduledHasPlan(r: Request, plans: seq<DayPlan>, p: PoiId)
    ensures ScheduledBefore(r, plans, |plans|, p) <==> exists n: nat, k: nat :: Scheduled(r, plans, n, k, p)
  {}
}
