/**
 * The solver against the checker: what `solve_greedy` emits is a valid plan, except for
 * days left empty although the bare transfer already fails, and for what a meal displaces:
 * it is placed with no regard to travel, to the deadline, or to the day's other meal.  A
 * condition on the request rules the latter out; having meals off is one way to meet it.
 */
module Soundness {
  import opened Prelude
  import opened Sorting
  import opened SolverModel
  import opened Route
  import opened Insertion
  import opened Expand
  import opened Feasibility
  import opened Meals
  import opened Greedy
  import opened Weave

  // ------------------------------------------------------------- what can go wrong

  /** The day works out with no stop at all; this depends on the request alone. */
  predicate RestDayOk(r: Request, day: Day) {
    var home := Home(r, day, day.startNode);
    MeetsDeadline(r, day, day.startTime + home.seconds) && !OverBudget(day, home.Walked())
  }

  predicate IsMeal(stop: Stop) {
    stop.Stop? && stop.poi.None?
  }

  /** Seconds of travel from the last visited place to stop `k`; meals are taken on the spot. */
  ghost function WayTo(r: Request, day: Day, stops: seq<Stop>, k: nat): nat
    requires k < |stops|
  {
    if IsVisit(r, stops[k]) then r.matrix.LegBetween(PlaceBefore(r, day, stops, k), NodeOf(r, stops[k])).seconds else 0
  }

  /** Stop `k` can be reached in time, if a meal precedes it. */
  ghost predicate MealLeavesRoom(r: Request, day: Day, stops: seq<Stop>, k: nat)
    requires k < |stops|
  {
    k > 0 && IsMeal(stops[k - 1]) && stops[k].Stop? ==> stops[k - 1].depart + WayTo(r, day, stops, k) <= stops[k].arrive
  }

  /** The day's end, if no visit comes last: the deadline, and the budget if there is no visit at all. */
  ghost predicate EndsInTime(r: Request, day: Day, stops: seq<Stop>) {
    var home := Home(r, day, PlaceBefore(r, day, stops, |stops|));
    && (stops == [] || IsMeal(stops[|stops| - 1]) ==>
        MeetsDeadline(r, day, FreeBefore(day, stops, |stops|) + home.seconds))
    && (VisitsBefore(stops, |stops|) == 0 ==> !OverBudget(day, Home(r, day, day.startNode).Walked()))
  }

  /** After each meal there is time for the way to the next stop, or home. */
  ghost predicate MealsLeaveRoom(r: Request, day: Day, stops: seq<Stop>) {
    EndsInTime(r, day, stops) && forall k: nat | k < |stops| :: MealLeavesRoom(r, day, stops, k)
  }

  // ------------------------------------------------------------- meals kept apart

  /** Where the traveller can be: the start of the day or a candidate. */
  ghost predicate IsPlace(r: Request, day: Day, n: Node) {
    n == day.startNode || exists c :: c in r.candidates && c.node == n
  }

  /** Wherever the traveller is when the window closes, they still reach the variant as it opens. */
  ghost predicate ReachedAfter(r: Request, day: Day, w: MealWindow, v: Variant) {
    forall n | IsPlace(r, day, n) :: w.closes + r.matrix.LegBetween(n, v.candidate.node).seconds <= v.opens
  }

  /** Any visit of the variant is over before the window, or starts well after it. */
  ghost predicate ApartFromVisits(r: Request, day: Day, w: MealWindow) {
    forall c, v | c in r.candidates && v in VariantsOf(r, c) && v.dayIndex == day.dayIndex ::
      v.latestStart + v.Seconds() <= MealFrom(day, w) || ReachedAfter(r, day, w, v)
  }

  /** From wherever the window closes there is time to get home. */
  ghost predicate HomeAfter(r: Request, day: Day, w: MealWindow) {
    forall n | IsPlace(r, day, n) :: MeetsDeadline(r, day, w.closes + Home(r, day, n).seconds)
  }

  /**
   * A condition on the request: on every day, the meal windows that have room for a meal at
   * all follow one another, stay apart from the visits, and leave time to get home.
   */
  ghost predicate MealsKeptApart(r: Request) {
    forall day | day in r.days ::
      && InOrder(r, day, Windows(r, day))
      && forall w | w in Windows(r, day) && CanServe(r, day, w) :: ApartFromVisits(r, day, w) && HomeAfter(r, day, w)
  }

  /** With meals off, or with windows too short for a meal, nothing needs to be kept apart. */
  lemma NoMealsKeptApart(r: Request)
    ensures MealsOff(r) ==> MealsKeptApart(r)
    ensures (forall day, w | day in r.days && w in Windows(r, day) :: !CanServe(r, day, w)) ==> MealsKeptApart(r)
  {
    hide CanServe;
  }

  // ------------------------------------------------------------- one emitted day

  /** The stops of a feasible route, woven with its meals. */
  ghost predicate EmittedAs(r: Request, day: Day, route: seq<Variant>, stops: seq<Planned>) {
    ValidRequest(r) && GoodRoute(r, day, route) && Woven(day, EarliestVisits(r.matrix, day, route, |route|), stops)
  }

  /** The meals among the stops belong to windows, and follow each other if the windows do. */
  ghost predicate MealsServed(r: Request, day: Day, stops: seq<Planned>) {
    && (forall s | s in stops && s.poi.None? :: ServedIn(r, day, Windows(r, day), s))
    && (InOrder(r, day, Windows(r, day)) ==> MealsFollow(stops))
  }

  lemma FeasibleVisits(r: Request, day: Day, route: seq<Variant>)
    requires GoodRoute(r, day, route)
    ensures Materialized(r, day, route).visits == EarliestVisits(r.matrix, day, route, |route|)
  {
    hide Belongs, EarliestVisit, TotalWalk, TotalTravel;
  }

  lemma EmittedStops(r: Request, day: Day, route: seq<Variant>, plan: DayPlan) returns (stops: seq<Planned>)
    requires ValidRequest(r) && r.options.meals.durationMin > 0 && GoodRoute(r, day, route)
        && EmittedDay(r, day, route, plan)
    ensures plan == DayPlan(Some(day.dayIndex), Numbered(stops)) && EmittedAs(r, day, route, stops)
    ensures MealsServed(r, day, stops)
  {
    hide GoodRoute, EmittedDay, Woven, EarliestVisits, Materialized, ValidRequest, ServedIn, InOrder, MealsFollow;
    stops := EmittedIsWoven(r, day, route, plan);
    FeasibleVisits(r, day, route);
  }

  lemma CandidateIsUnique(cs: seq<Candidate>, c: Candidate)
    requires DistinctPois(cs) && c in cs
    ensures KnownPoi(cs, c.poiId) && CandidateFor(cs, c.poiId) == c
  {
    var e := CandidateFor(cs, c.poiId);
    var i :| 0 <= i < |cs| && cs[i] == c;
    var j :| 0 <= j < |cs| && cs[j] == e;
    assert i == j;
  }

  /** A visit stop is a visit of the route, at its earliest time. */
  lemma VisitAt(r: Request, day: Day, route: seq<Variant>, stops: seq<Planned>, k: nat)
    requires EmittedAs(r, day, route, stops) && k < |stops| && stops[k].poi.Some?
    ensures var j, s := VisitsBefore(Numbered(stops), k), Numbered(stops)[k];
      && j < |route| && s.arrive == Earliest(r.matrix, day, route, j) && s.depart == s.arrive + route[j].Seconds()
      && IsVisit(r, s) && s.poi.value == route[j].candidate.poiId
      && NodeOf(r, s) == route[j].candidate.node && CandidateFor(r.candidates, s.poi.value) == route[j].candidate
  {
    hide Belongs, Earliest, LegInto, Materialized, KnownPoi, Woven, VisitsBefore;
    WovenAt(day, EarliestVisits(r.matrix, day, route, |route|), stops, k);
    var j := VisitsBefore(Numbered(stops), k);
    assert Belongs(r, day.dayIndex, route[j]);
    BelongsMeans(r, day.dayIndex, route[j]);
    CandidateIsUnique(r.candidates, route[j].candidate);
  }

  lemma AllVisited(r: Request, day: Day, route: seq<Variant>, stops: seq<Planned>)
    requires EmittedAs(r, day, route, stops)
    ensures VisitsBefore(Numbered(stops), |stops|) == |route|
  {
    WovenEnd(day, EarliestVisits(r.matrix, day, route, |route|), stops);
  }

  /** One step of the checker's bookkeeping. */
  lemma BookkeepingStep(r: Request, day: Day, stops: seq<Stop>, k: nat)
    requires 0 < k <= |stops|
    ensures var visit := IsVisit(r, stops[k - 1]);
      && PlaceBefore(r, day, stops, k) == (if visit then NodeOf(r, stops[k - 1]) else PlaceBefore(r, day, stops, k - 1))
      && WalkedBefore(r, day, stops, k) == WalkedBefore(r, day, stops, k - 1)
           + (if visit then r.matrix.LegBetween(PlaceBefore(r, day, stops, k - 1), NodeOf(r, stops[k - 1])).Walked()
               else 0.0)
  {
    hide IsVisit, NodeOf;
  }

  /** One step of the solver's. */
  lemma RouteStep(m: TravelMatrix, day: Day, route: seq<Variant>, j: nat)
    requires j < |route|
    ensures NodeBefore(day, route, j + 1) == route[j].candidate.node
    ensures WalkOf(m, day, route, j + 1) == WalkOf(m, day, route, j)
        + m.LegBetween(NodeBefore(day, route, j), route[j].candidate.node).Walked()
  {}

  lemma NothingYet(r: Request, day: Day, route: seq<Variant>, stops: seq<Stop>)
    ensures VisitsBefore(stops, 0) == 0 && PlaceBefore(r, day, stops, 0) == NodeBefore(day, route, 0)
    ensures WalkedBefore(r, day, stops, 0) == WalkOf(r.matrix, day, route, 0)
  {}

  /** Checker and solver agree on where the traveller is and how far they walked. */
  lemma {:induction false} SameBookkeeping(r: Request, day: Day, route: seq<Variant>, stops: seq<Planned>, k: nat)
    requires EmittedAs(r, day, route, stops) && k <= |stops|
    ensures var numbered := Numbered(stops); var j := VisitsBefore(numbered, k);
      && j <= |route|
      && PlaceBefore(r, day, numbered, k) == NodeBefore(day, route, j)
      && WalkedBefore(r, day, numbered, k) == WalkOf(r.matrix, day, route, j)
  {
    hide EmittedAs, IsVisit, NodeOf, Numbered, CandidateFor, KnownPoi, Earliest, PlaceBefore, WalkedBefore,
         VisitsBefore, NodeBefore, WalkOf;
    if k == 0 {
      NothingYet(r, day, route, Numbered(stops));
    } else {
      SameBookkeeping(r, day, route, stops, k - 1);
      BookkeepingStep(r, day, Numbered(stops), k);
      VisitsBeforeStep(Numbered(stops), k);
      if stops[k - 1].poi.Some? {
        VisitAt(r, day, route, stops, k - 1);
        RouteStep(r.matrix, day, route, VisitsBefore(Numbered(stops), k - 1));
      } else {
        MealsStay(r, Numbered(stops)[k - 1]);
      }
    }
  }

  lemma MealsStay(r: Request, stop: Stop)
    ensures IsMeal(stop) ==> !IsVisit(r, stop)
  {}

  lemma HoursHold(r: Request, day: Day, route: seq<Variant>, j: nat)
    requires GoodRoute(r, day, route) && j < |route|
    ensures Earliest(r.matrix, day, route, j) <= route[j].latestStart
    ensures route[j].durationMin >= route[j].candidate.durationMin
    ensures var v := EarliestVisit(r.matrix, day, route, j);
      InHours(route[j].candidate, day.dayIndex, v.arrive, v.depart)
  {
    hide VariantsOf;
    var v, c := route[j], route[j].candidate;
    assert Belongs(r, day.dayIndex, v);
    BelongsMeans(r, day.dayIndex, v);
    if c.windows != [] {
      VariantsRespectHours(r, c, v);
    }
  }

  /** A stop that follows a visit, or opens the day, is reached in time. */
  lemma ReachedInTime(r: Request, day: Day, route: seq<Variant>, stops: seq<Planned>, k: nat)
    requires EmittedAs(r, day, route, stops) && k < |stops| && (k == 0 || stops[k - 1].poi.Some?)
    ensures FreeBefore(day, Numbered(stops), k) + WayTo(r, day, Numbered(stops), k) <= stops[k].arrive
  {
    hide EmittedAs, IsVisit, NodeOf, Numbered, PlaceBefore, VisitsBefore, CandidateFor;
    var numbered := Numbered(stops);
    SameBookkeeping(r, day, route, stops, k);
    if k > 0 {
      VisitAt(r, day, route, stops, k - 1);
      VisitsBeforeStep(numbered, k);
    } else {
      NoVisitsAtStart(numbered);
    }
    if stops[k].poi.Some? {
      VisitAt(r, day, route, stops, k);
    } else {
      MealsStay(r, numbered[k]);
      MealIsClear(r, day, route, stops, k);
    }
  }

  lemma NoVisitsAtStart(stops: seq<Stop>)
    ensures VisitsBefore(stops, 0) == 0
  {}

  /** A meal starts within the day, and after the visit before it. */
  lemma MealIsClear(r: Request, day: Day, route: seq<Variant>, stops: seq<Planned>, k: nat)
    requires EmittedAs(r, day, route, stops) && k < |stops| && stops[k].poi.None?
    ensures day.startTime <= stops[k].arrive < stops[k].depart
    ensures k > 0 && stops[k - 1].poi.Some? ==> stops[k - 1].depart <= stops[k].arrive
  {
    hide GoodRoute, ValidRequest, EarliestVisits, VisitsIn;
    var visits := EarliestVisits(r.matrix, day, route, |route|);
    assert StandsClear(day, visits, stops[k]);
    if k > 0 && stops[k - 1].poi.Some? {
      WovenAt(day, visits, stops, k - 1);
      assert StopBefore(stops[k - 1], stops[k]);
    }
  }

  /** What a stop is tested for, besides its hours: the time since the stop before it. */
  ghost predicate Follows(r: Request, day: Day, stops: seq<Stop>, k: nat)
    requires k < |stops| && stops[k].Stop?
  {
    FreeBefore(day, stops, k) + WayTo(r, day, stops, k) <= stops[k].arrive
  }

  lemma VisitOnlyNeedsTime(r: Request, day: Day, route: seq<Variant>, stops: seq<Planned>, k: nat)
    requires EmittedAs(r, day, route, stops) && k < |stops| && stops[k].poi.Some?
    ensures StopOk(r, day, Numbered(stops), k) <==> Follows(r, day, Numbered(stops), k)
  {
    hide IsVisit, NodeOf, InHours, Woven, PlaceBefore, Numbered, CandidateFor, KnownPoi, FreeBefore, VisitsBefore,
         Earliest, ValidRequest, Belongs;
    VisitAt(r, day, route, stops, k);
    HoursHold(r, day, route, VisitsBefore(Numbered(stops), k));
  }

  lemma MealOnlyNeedsTime(r: Request, day: Day, route: seq<Variant>, stops: seq<Planned>, k: nat)
    requires EmittedAs(r, day, route, stops) && k < |stops| && stops[k].poi.None?
    ensures StopOk(r, day, Numbered(stops), k) <==> Follows(r, day, Numbered(stops), k)
  {
    hide IsVisit, NodeOf, EmittedAs, PlaceBefore, Numbered, FreeBefore;
    MealsStay(r, Numbered(stops)[k]);
    MealIsClear(r, day, route, stops, k);
  }

  lemma EmittedStopIsOk(r: Request, day: Day, route: seq<Variant>, stops: seq<Planned>, k: nat)
    requires EmittedAs(r, day, route, stops) && k < |stops|
    ensures StopOk(r, day, Numbered(stops), k) <==> MealLeavesRoom(r, day, Numbered(stops), k)
  {
    hide EmittedAs, StopOk, WayTo, Numbered;
    if stops[k].poi.Some? {
      VisitOnlyNeedsTime(r, day, route, stops, k);
    } else {
      MealOnlyNeedsTime(r, day, route, stops, k);
    }
    if k == 0 || stops[k - 1].poi.Some? {
      ReachedInTime(r, day, route, stops, k);
    }
  }

  /** An emitted day passes exactly if its meals leave room; visits never fail it. */
  lemma EmittedDayIsOk(r: Request, day: Day, route: seq<Variant>, stops: seq<Planned>)
    requires EmittedAs(r, day, route, stops)
    ensures DayOk(r, day, Numbered(stops)) <==> MealsLeaveRoom(r, day, Numbered(stops))
  {
    hide EmittedAs, StopOk, MealLeavesRoom, Numbered;
    var numbered := Numbered(stops);
    assert |numbered| == |stops|;
    forall k: nat | k < |stops|
      ensures StopOk(r, day, numbered, k) <==> MealLeavesRoom(r, day, numbered, k)
    {
      EmittedStopIsOk(r, day, route, stops, k);
    }
    EndIsOk(r, day, route, stops);
  }

  /** What feasibility says of a route's end. */
  lemma FeasibleEnd(r: Request, day: Day, route: seq<Variant>, stops: seq<Planned>)
    requires EmittedAs(r, day, route, stops)
    ensures var home := Home(r, day, NodeBefore(day, route, |route|));
      && (route != [] ==> MeetsDeadline(r, day, EarliestFree(r.matrix, day, route, |route|) + home.seconds))
      && (route != [] ==> WithinBudget(day, WalkOf(r.matrix, day, route, |route|) + home.Walked()))
      && (route == [] ==> WalkOf(r.matrix, day, route, |route|) == 0.0)
  {
    hide Belongs, Woven, ValidRequest, EarliestVisits, EarliestFree, Earliest, WalkOf, TravelOf, MeetsDeadline,
         FirstLate, NodeBefore;
    MaterializeStart(r.matrix, day, route);
    if route != [] {
      var a := Materialized(r, day, route);
      assert a.feasible;
      assert a.endsAt == EarliestFree(r.matrix, day, route, |route|) + EndSeconds(r.matrix, day, route);
    }
  }

  lemma EndIsOk(r: Request, day: Day, route: seq<Variant>, stops: seq<Planned>)
    requires EmittedAs(r, day, route, stops)
    ensures var numbered := Numbered(stops); var home := Home(r, day, PlaceBefore(r, day, numbered, |stops|));
      EndsInTime(r, day, numbered) <==>
        && MeetsDeadline(r, day, FreeBefore(day, numbered, |stops|) + home.seconds)
        && !OverBudget(day, WalkedBefore(r, day, numbered, |stops|) + home.Walked())
  {
    hide IsVisit, NodeOf, EmittedAs, Numbered, VisitsBefore, PlaceBefore, WalkedBefore, CandidateFor, Materialized;
    var n := |stops|;
    FeasibleEnd(r, day, route, stops);
    SameBookkeeping(r, day, route, stops, n);
    AllVisited(r, day, route, stops);
    if n > 0 {
      if stops[n - 1].poi.Some? {
        VisitAt(r, day, route, stops, n - 1);
        VisitsBeforeStep(Numbered(stops), n);
      }
    }
  }

  lemma VisitsBeforeStep(stops: seq<Stop>, k: nat)
    requires 0 < k <= |stops|
    ensures VisitsBefore(stops, k) == VisitsBefore(stops, k - 1)
        + (if stops[k - 1].Stop? && stops[k - 1].poi.Some? then 1 else 0)
  {}

  lemma PlaceIsKnown(r: Request, day: Day, route: seq<Variant>, stops: seq<Planned>, k: nat)
    requires EmittedAs(r, day, route, stops) && k <= |stops|
    ensures IsPlace(r, day, PlaceBefore(r, day, Numbered(stops), k))
  {
    hide Numbered, PlaceBefore, Woven, Materialized;
    SameBookkeeping(r, day, route, stops, k);
    var j := VisitsBefore(Numbered(stops), k);
    if j > 0 {
      assert Belongs(r, day.dayIndex, route[j - 1]);
      BelongsMeans(r, day.dayIndex, route[j - 1]);
    }
  }

  /** The visit at a stop is at a variant of its day, within the variant's times. */
  lemma VisitWithinVariant(r: Request, day: Day, route: seq<Variant>, stops: seq<Planned>, k: nat) returns (v: Variant)
    requires EmittedAs(r, day, route, stops) && k < |stops| && stops[k].poi.Some?
    ensures v.candidate in r.candidates && v in VariantsOf(r, v.candidate) && v.dayIndex == day.dayIndex
    ensures v.opens <= stops[k].arrive <= v.latestStart && v.Seconds() > 0
    ensures IsVisit(r, Numbered(stops)[k]) && NodeOf(r, Numbered(stops)[k]) == v.candidate.node
  {
    hide Numbered, Woven, IsVisit, NodeOf, CandidateFor, VariantsOf, VisitsBefore, Earliest;
    VisitAt(r, day, route, stops, k);
    var j := VisitsBefore(Numbered(stops), k);
    v := route[j];
    assert Belongs(r, day.dayIndex, v);
    BelongsMeans(r, day.dayIndex, v);
    HoursHold(r, day, route, j);
    EarliestIsOpen(r, day, route, j);
  }

  /** A visit right after a meal that is kept apart from it is reached in time. */
  lemma VisitAfterMeal(r: Request, day: Day, route: seq<Variant>, stops: seq<Planned>, k: nat, w: MealWindow)
    requires EmittedAs(r, day, route, stops) && 0 < k < |stops| && stops[k - 1].poi.None? && stops[k].poi.Some?
    requires MealFrom(day, w) <= stops[k - 1].arrive < stops[k - 1].depart <= w.closes && ApartFromVisits(r, day, w)
    ensures stops[k - 1].depart + WayTo(r, day, Numbered(stops), k) <= stops[k].arrive
  {
    hide EmittedAs, Numbered, PlaceBefore, IsVisit, NodeOf, VariantsOf, MealFrom, IsPlace;
    var v := VisitWithinVariant(r, day, route, stops, k);
    PlaceIsKnown(r, day, route, stops, k);
    WovenIsSorted(r, day, route, stops, k);
    assert v.latestStart + v.Seconds() <= MealFrom(day, w) || ReachedAfter(r, day, w, v);
  }

  lemma WovenIsSorted(r: Request, day: Day, route: seq<Variant>, stops: seq<Planned>, k: nat)
    requires EmittedAs(r, day, route, stops) && 0 < k < |stops|
    ensures stops[k - 1].arrive <= stops[k].arrive
  {
    hide StandsClear, VisitsIn;
    assert StopBefore(stops[k - 1], stops[k]);
  }

  lemma EarliestIsOpen(r: Request, day: Day, route: seq<Variant>, j: nat)
    requires j < |route|
    ensures route[j].opens <= Earliest(r.matrix, day, route, j)
  {}

  lemma ApartMealLeavesRoom(r: Request, day: Day, route: seq<Variant>, stops: seq<Planned>, k: nat)
    requires EmittedAs(r, day, route, stops) && MealsServed(r, day, stops) && MealsKeptApart(r) && day in r.days
        && k < |stops|
    ensures MealLeavesRoom(r, day, Numbered(stops), k)
  {
    hide EmittedAs, Numbered, ApartFromVisits, HomeAfter, CanServe, Windows, WayTo;
    if k > 0 && stops[k - 1].poi.None? {
      assert ServedIn(r, day, Windows(r, day), stops[k - 1]);
      var w :| w in Windows(r, day) && CanServe(r, day, w)
          && MealFrom(day, w) <= stops[k - 1].arrive < stops[k - 1].depart <= w.closes;
      if stops[k].poi.Some? {
        VisitAfterMeal(r, day, route, stops, k, w);
      } else {
        NoWayToMeal(r, day, Numbered(stops), k);
      }
    }
  }

  lemma NoWayToMeal(r: Request, day: Day, stops: seq<Stop>, k: nat)
    requires k < |stops| && IsMeal(stops[k])
    ensures WayTo(r, day, stops, k) == 0
  {}

  /** After a last meal kept apart there is time to get home. */
  lemma ApartMealsEndInTime(r: Request, day: Day, route: seq<Variant>, stops: seq<Planned>)
    requires EmittedAs(r, day, route, stops) && MealsServed(r, day, stops) && MealsKeptApart(r) && day in r.days
    ensures EndsInTime(r, day, Numbered(stops)) <==> (route == [] ==> RestDayOk(r, day))
  {
    hide Numbered, ApartFromVisits, CanServe, Windows, PlaceBefore, Home, GoodRoute, Woven, ValidRequest, VisitsBefore,
         InOrder;
    var n := |stops|;
    NoVisitsAtStart(Numbered(stops));
    AllVisited(r, day, route, stops);
    PlaceIsKnown(r, day, route, stops, n);
    SameBookkeeping(r, day, route, stops, n);
    if n > 0 {
      VisitsBeforeStep(Numbered(stops), n);
      if stops[n - 1].poi.None? {
        assert ServedIn(r, day, Windows(r, day), stops[n - 1]);
        var w :| w in Windows(r, day) && CanServe(r, day, w) && stops[n - 1].depart <= w.closes;
        assert HomeAfter(r, day, w);
        MealIsClear(r, day, route, stops, n - 1);
      }
    }
  }

  /** With meals kept apart, only a day left empty can fail, and only as a rest day. */
  lemma ApartMealsAreNoTrouble(r: Request, day: Day, route: seq<Variant>, stops: seq<Planned>)
    requires EmittedAs(r, day, route, stops) && MealsServed(r, day, stops) && MealsKeptApart(r) && day in r.days
    ensures MealsLeaveRoom(r, day, Numbered(stops)) <==> (route == [] ==> RestDayOk(r, day))
  {
    hide EmittedAs, Numbered, MealsServed, MealsKeptApart, EndsInTime, MealLeavesRoom, RestDayOk;
    ApartMealsEndInTime(r, day, route, stops);
    forall k: nat | k < |stops|
      ensures MealLeavesRoom(r, day, Numbered(stops), k)
    {
      ApartMealLeavesRoom(r, day, route, stops, k);
    }
  }

  // ------------------------------------------------------------- the whole plan

  /** The final routes and the bookkeeping that the solver guarantees for them. */
  ghost predicate SolvedBy(r: Request, routes: Routes, plans: seq<DayPlan>, unscheduled: seq<PoiId>) {
    && ValidRequest(r) && r.options.meals.durationMin > 0 && GoodRoutes(r, routes)
    && Accounted(r, routes, unscheduled, r.candidates) && OnlyOptional(r, unscheduled)
    && EmittedPlans(r, routes, plans)
  }

  lemma PlanIsWoven(r: Request, routes: Routes, plans: seq<DayPlan>, unscheduled: seq<PoiId>, n: nat)
    returns (stops: seq<Planned>)
    requires SolvedBy(r, routes, plans, unscheduled) && (n < |r.days| || n < |plans|)
    ensures n < |r.days| == |plans| && HasDay(r, plans[n]) && DayOf(r, plans[n]) == r.days[n]
    ensures r.days[n].dayIndex in routes && plans[n].DayPlan? && plans[n].stops == Numbered(stops)
    ensures EmittedAs(r, r.days[n], routes[r.days[n].dayIndex], stops)
    ensures MealsServed(r, r.days[n], stops)
  {
    hide GoodRoute, EmittedDay, Accounted, OnlyOptional, EmittedAs, MealsServed, Numbered;
    var day := r.days[n];
    stops := EmittedStops(r, day, routes[day.dayIndex], plans[n]);
    DayForIsUnique(r, day);
  }

  /** A scheduled visit is on the route of its day, at the place the stops before it lead up to. */
  lemma ScheduledMeansRouted(r: Request, routes: Routes, plans: seq<DayPlan>, unscheduled: seq<PoiId>, n: nat, k: nat,
                             p: PoiId)
    requires SolvedBy(r, routes, plans, unscheduled) && Scheduled(r, plans, n, k, p)
    ensures n < |r.days| && r.days[n].dayIndex in routes
    ensures var route, j := routes[r.days[n].dayIndex], VisitsBefore(plans[n].stops, k);
      j < |route| && route[j].candidate.poiId == p
  {
    hide SolvedBy, NodeOf, EmittedAs, Numbered;
    var stops := PlanIsWoven(r, routes, plans, unscheduled, n);
    VisitAt(r, r.days[n], routes[r.days[n].dayIndex], stops, k);
  }

  /** And every visit of a route is scheduled. */
  lemma RoutedMeansScheduled(r: Request, routes: Routes, plans: seq<DayPlan>, unscheduled: seq<PoiId>, n: nat, j: nat)
    returns (k: nat)
    requires SolvedBy(r, routes, plans, unscheduled) && n < |r.days|
    requires r.days[n].dayIndex in routes && j < |routes[r.days[n].dayIndex]|
    ensures Scheduled(r, plans, n, k, routes[r.days[n].dayIndex][j].candidate.poiId)
  {
    hide SolvedBy, NodeOf, EmittedAs, Numbered, IsVisit, HasDay;
    var stops := PlanIsWoven(r, routes, plans, unscheduled, n);
    var day := r.days[n];
    AllVisited(r, day, routes[day.dayIndex], stops);
    k := StopOfVisit(plans[n].stops, j, |stops|);
    VisitAt(r, day, routes[day.dayIndex], stops, k);
  }

  lemma {:induction false} AskedAtMostOnce(cs: seq<Candidate>, p: PoiId)
    requires DistinctPois(cs)
    ensures Asked(cs, p) <= 1
    ensures forall c | c in cs && c.poiId == p :: Asked(cs, p) == 1
  {
    if cs == [] {
    } else {
      AskedAtMostOnce(cs[1..], p);
      if cs[0].poiId == p {
        CountPositive(cs[1..], Naming(p));
      }
    }
  }

  lemma PlansHaveNoRepeats(r: Request, routes: Routes, plans: seq<DayPlan>, unscheduled: seq<PoiId>)
    requires SolvedBy(r, routes, plans, unscheduled)
    ensures NoRepeats(r, plans)
  {
    forall n: nat, k: nat, m: nat, l: nat, p: PoiId | Scheduled(r, plans, n, k, p) && Scheduled(r, plans, m, l, p)
      ensures n == m && k == l
    {
      OneVisitOnly(r, routes, plans, unscheduled, n, k, m, l, p);
    }
  }

  lemma OneVisitOnly(r: Request, routes: Routes, plans: seq<DayPlan>, unscheduled: seq<PoiId>, n: nat, k: nat, m: nat,
                     l: nat, p: PoiId)
    requires SolvedBy(r, routes, plans, unscheduled) && Scheduled(r, plans, n, k, p) && Scheduled(r, plans, m, l, p)
    ensures n == m && k == l
  {
    hide GoodRoute, IndexInRequest, SolvedBy, TimesInAll, Count, VisitsBefore, NodeOf, KnownPoi;
    ScheduledMeansRouted(r, routes, plans, unscheduled, n, k, p);
    ScheduledMeansRouted(r, routes, plans, unscheduled, m, l, p);
    var a, b := routes[r.days[n].dayIndex], routes[r.days[m].dayIndex];
    AtMostOnceInAll(r, routes, plans, unscheduled, p);
    if n == m {
      TotalCovers(routes, r.days, n, n, p);
      var i, j := VisitsBefore(plans[n].stops, k), VisitsBefore(plans[n].stops, l);
      if k < l {
        VisitsBeforeGrow(plans[n].stops, k, l);
        TwoHitsCountTwice(a, i, j, Visiting(p));
      }
      if l < k {
        VisitsBeforeGrow(plans[n].stops, l, k);
        TwoHitsCountTwice(a, j, i, Visiting(p));
      }
    } else {
      CountPositive(a, Visiting(p));
      CountPositive(b, Visiting(p));
      if n < m { TotalCovers(routes, r.days, n, m, p); } else { TotalCovers(routes, r.days, m, n, p); }
    }
  }

  lemma AtMostOnceInAll(r: Request, routes: Routes, plans: seq<DayPlan>, unscheduled: seq<PoiId>, p: PoiId)
    requires SolvedBy(r, routes, plans, unscheduled)
    ensures HasRoutes(routes, r.days) && TimesInAll(routes, r.days, p) <= 1
  {
    hide TimesInAll, GoodRoute, OnlyOptional, EmittedDay;
    AskedAtMostOnce(r.candidates, p);
  }

  lemma MustDosAreScheduled(r: Request, routes: Routes, plans: seq<DayPlan>, unscheduled: seq<PoiId>)
    requires SolvedBy(r, routes, plans, unscheduled)
    ensures MustDosPresent(r, plans)
  {
    hide GoodRoute, IsVisit, HasDay, GoodRoutes, EmittedDay, TimesInAll, Scheduled;
    forall c | c in r.candidates && c.mustDo
      ensures exists n: nat, k: nat :: Scheduled(r, plans, n, k, c.poiId)
    {
      var p := c.poiId;
      MustDoNotLeftOut(r, unscheduled, c);
      AskedAtMostOnce(r.candidates, p);
      GoodRoutesAreValid(r, routes);
      var n := SomeDayVisits(routes, r.days, p);
      CountPositive(routes[r.days[n].dayIndex], Visiting(p));
      var j: nat :| j < |routes[r.days[n].dayIndex]| && routes[r.days[n].dayIndex][j].candidate.poiId == p;
      var k := RoutedMeansScheduled(r, routes, plans, unscheduled, n, j);
      assert Scheduled(r, plans, n, k, p);
    }
  }

  lemma MustDoNotLeftOut(r: Request, unscheduled: seq<PoiId>, c: Candidate)
    requires ValidRequest(r) && OnlyOptional(r, unscheduled) && c in r.candidates && c.mustDo
    ensures Occurs(unscheduled, c.poiId) == 0
  {
    forall e | e in r.candidates && e.poiId == c.poiId
      ensures e.mustDo
    {
      CandidateIsUnique(r.candidates, c);
      CandidateIsUnique(r.candidates, e);
    }
    assert c.poiId !in unscheduled;
    assert c.poiId !in multiset(unscheduled);
  }

  /**
   * The emitted plan is valid exactly when on every day the meals leave room for the way
   * onwards.  If the request keeps its meals apart, as it does with meals off, that says:
   * exactly when every day that ends up empty would also do as a rest day.
   */
  lemma EmittedPlanIsValid(r: Request, routes: Routes, plans: seq<DayPlan>, unscheduled: seq<PoiId>)
    requires SolvedBy(r, routes, plans, unscheduled)
    ensures HasRoutes(routes, r.days) && |plans| == |r.days| && forall n | 0 <= n < |plans| :: plans[n].DayPlan?
    ensures ValidPlan(r, plans) <==> forall n | 0 <= n < |plans| :: MealsLeaveRoom(r, r.days[n], plans[n].stops)
    ensures MealsKeptApart(r) || MealsOff(r) ==>
      (ValidPlan(r, plans) <==> forall d | d in r.days :: routes[d.dayIndex] == [] ==> RestDayOk(r, d))
  {
    hide GoodRoute, PlanOk, NoRepeats, MustDosPresent, DayOk, RestDayOk, EmittedDay, Accounted, OnlyOptional,
         ValidRequest, MealsLeaveRoom, MealsKeptApart, MealsOff;
    PlansHaveNoRepeats(r, routes, plans, unscheduled);
    MustDosAreScheduled(r, routes, plans, unscheduled);
    NoMealsKeptApart(r);
    forall n | 0 <= n < |plans|
      ensures plans[n].DayPlan? && (PlanOk(r, plans[n]) <==> MealsLeaveRoom(r, r.days[n], plans[n].stops))
      ensures MealsKeptApart(r) ==>
        (PlanOk(r, plans[n]) <==> (routes[r.days[n].dayIndex] == [] ==> RestDayOk(r, r.days[n])))
    {
      EmittedPlanOk(r, routes, plans, unscheduled, n);
    }
  }

  lemma EmittedPlanOk(r: Request, routes: Routes, plans: seq<DayPlan>, unscheduled: seq<PoiId>, n: nat)
    requires SolvedBy(r, routes, plans, unscheduled) && n < |plans|
    ensures n < |r.days| && r.days[n].dayIndex in routes && plans[n].DayPlan?
    ensures PlanOk(r, plans[n]) <==> MealsLeaveRoom(r, r.days[n], plans[n].stops)
    ensures MealsKeptApart(r) ==>
      (PlanOk(r, plans[n]) <==> (routes[r.days[n].dayIndex] == [] ==> RestDayOk(r, r.days[n])))
  {
    hide DayOk, RestDayOk, SolvedBy, EmittedAs, MealsLeaveRoom, MealsServed, MealsKeptApart, Numbered;
    var stops := PlanIsWoven(r, routes, plans, unscheduled, n);
    EmittedDayIsOk(r, r.days[n], routes[r.days[n].dayIndex], stops);
    if MealsKeptApart(r) {
      ApartMealsAreNoTrouble(r, r.days[n], routes[r.days[n].dayIndex], stops);
    }
  }

  /**
   * The response of the solver passes the checker exactly when its meals leave room.  If
   * the request keeps its meals apart, exactly when every day left empty is fine as a rest
   * day, and so in particular whenever every day of the request is.
   */
  method SolveAndCheck(r: Request) returns (solution: Solution, issues: seq<Issue>, routes: Routes)
    requires ValidRequest(r) && r.options.meals.durationMin > 0
    ensures GoodRoutes(r, routes)
    ensures solution.Infeasible? ==> exists c :: c in r.candidates && c.mustDo
    ensures solution.Feasible? ==>
      && SolvedBy(r, routes, solution.plans, solution.unscheduled)
      && issues == ResponseIssues(r, solution.plans) && |solution.plans| == |r.days|
      && (forall n | 0 <= n < |r.days| :: solution.plans[n].DayPlan?)
      && (issues == [] <==> ValidPlan(r, solution.plans))
      && (issues == [] <==> forall n | 0 <= n < |r.days| :: MealsLeaveRoom(r, r.days[n], solution.plans[n].stops))
    ensures solution.Feasible? && (MealsKeptApart(r) || MealsOff(r)) ==>
      && (issues == [] <==> forall d | d in r.days :: routes[d.dayIndex] == [] ==> RestDayOk(r, d))
      && ((forall d | d in r.days :: RestDayOk(r, d)) ==> issues == [])
  {
    hide GoodRoute, ValidPlan, ResponseIssues, Accounted, OnlyOptional, EmittedDay, ImprovedFrom, PlacingRun,
         PlacingOrder, RestDayOk, FitsNowhere, ValidRequest, MealsLeaveRoom, MealsKeptApart, MealsOff;
    issues := [];
    ghost var states;
    solution, routes, states := SolveGreedy(r);
    if solution.Feasible? {
      issues := CheckResponse(r, solution.plans);
      EmittedPlanIsValid(r, routes, solution.plans, solution.unscheduled);
      CheckerIsExact(r, solution.plans);
    }
  }

  // ------------------------------------------------------------- the conditions matter

  const NO_MEALS := MealPolicy(false, 1, 45, 12, 14, 19, 21)
  const LUNCH := MealPolicy(true, 1, 45, 12, 14, 19, 21)
  const LONG_DINNER := MealPolicy(true, 2, 45, 12, 15, 12, 22)

  /** One day from eight o'clock at a single place, with nothing to visit. */
  function BareDay(deadline: Option<Time>): Day {
    Day(0, 28800, "hotel", deadline, None, None)
  }

  function BareRequest(deadline: Option<Time>, meals: MealPolicy): Request {
    Request([BareDay(deadline)], [], TravelMatrix(map[], (a, b) => Leg(Walk, 0, 0.0), Walk),
            Options(None, None, OtherDeparture, false, meals, [], 60, 720),
            (c, weather, golden) => 0, day => 0)
  }

  /** Any answer to it is one day without visits. */
  lemma BareAnswer(deadline: Option<Time>, meals: MealPolicy, routes: Routes, plans: seq<DayPlan>,
                   unscheduled: seq<PoiId>)
    requires SolvedBy(BareRequest(deadline, meals), routes, plans, unscheduled)
    ensures |plans| == 1 && 0 in routes && routes[0] == []
    ensures EmittedDay(BareRequest(deadline, meals), BareDay(deadline), [], plans[0])
  {
    hide EmittedDay, Accounted, OnlyOptional, Materialized, VariantsOf;
    var r := BareRequest(deadline, meals);
    assert BareDay(deadline) in r.days;
    NothingBelongs(r, 0, routes[0]);
    assert EmittedDay(r, r.days[0], routes[0], plans[0]);
  }

  lemma NothingBelongs(r: Request, d: nat, route: seq<Variant>)
    requires r.candidates == [] && forall v | v in route :: Belongs(r, d, v)
    ensures route == []
  {
    assert route != [] ==> route[0] in route && route[0].candidate in r.candidates;
  }

  lemma NothingToVisit(r: Request, day: Day)
    ensures Materialized(r, day, []).visits == []
  {}

  /** A day whose deadline has passed at its start is emitted all the same: every answer is rejected. */
  lemma EmptyDayMustFail(routes: Routes, plans: seq<DayPlan>, unscheduled: seq<PoiId>)
    requires SolvedBy(BareRequest(Some(28000), NO_MEALS), routes, plans, unscheduled)
    ensures !ValidPlan(BareRequest(Some(28000), NO_MEALS), plans)
  {
    hide SolvedBy, ValidPlan, EmittedDay;
    BareAnswer(Some(28000), NO_MEALS, routes, plans, unscheduled);
    EmittedPlanIsValid(BareRequest(Some(28000), NO_MEALS), routes, plans, unscheduled);
    assert !RestDayOk(BareRequest(Some(28000), NO_MEALS), BareDay(Some(28000)));
  }

  /** On a day without visits a window that can serve gives a meal as early as possible. */
  lemma MealAtOnce(r: Request, day: Day, w: MealWindow, meal: Option<Planned>)
    requires MealFor(r, day, [], w, meal) && CanServe(r, day, w)
    ensures meal == Some(Planned(MealFrom(day, w), MealFrom(day, w) + MealLength(r), None))
  {
    assert Free([], 0, MealFrom(day, w), MealLength(r));
  }

  /** The emitted stops of a bare day are its meals in order. */
  lemma BareStops(r: Request, day: Day, plan: DayPlan) returns (chosen: seq<Option<Planned>>)
    requires EmittedDay(r, day, [], plan)
    ensures plan == DayPlan(Some(day.dayIndex), Numbered(SortBy(Present(chosen), StopBefore)))
    ensures MealsFor(r, day, [], Windows(r, day), chosen)
  {
    hide Materialized, Windows, MealFor, SortBy, Present;
    NothingToVisit(r, day);
    chosen :| EmittedFor(r, day, [], plan, Present(chosen)) && MealsFor(r, day, [], Windows(r, day), chosen);
    assert PlannedVisits([]) + Present(chosen) == Present(chosen);
  }

  /** Lunch at noon ends after a deadline of half past twelve: a fine rest day is spoilt by its meal. */
  lemma LunchMustFail(routes: Routes, plans: seq<DayPlan>, unscheduled: seq<PoiId>)
    requires SolvedBy(BareRequest(Some(45000), LUNCH), routes, plans, unscheduled)
    ensures RestDayOk(BareRequest(Some(45000), LUNCH), BareDay(Some(45000)))
    ensures !ValidPlan(BareRequest(Some(45000), LUNCH), plans)
  {
    hide SolvedBy, ValidPlan, EmittedDay, MealFor, MealsLeaveRoom, RestDayOk, CanServe, MealFrom, MealLength, Present,
         SortBy;
    var r, day := BareRequest(Some(45000), LUNCH), BareDay(Some(45000));
    BareAnswer(Some(45000), LUNCH, routes, plans, unscheduled);
    EmittedPlanIsValid(r, routes, plans, unscheduled);
    var chosen := BareStops(r, day, plans[0]);
    LunchIsAtNoon(r, day, chosen);
    LunchIsTooLate(plans[0].stops);
  }

  lemma LunchIsAtNoon(r: Request, day: Day, chosen: seq<Option<Planned>>)
    requires r == BareRequest(Some(45000), LUNCH) && day == BareDay(Some(45000))
    requires MealsFor(r, day, [], Windows(r, day), chosen)
    ensures SortBy(Present(chosen), StopBefore) == [Planned(43200, 45900, None)]
  {
    hide MealFor, Present, SortBy;
    assert Windows(r, day) == [MealWindow(43200, 50400)];
    MealAtOnce(r, day, Windows(r, day)[0], chosen[0]);
    OnlyMeal(chosen, Planned(43200, 45900, None));
  }

  lemma LunchIsTooLate(stops: seq<Stop>)
    requires stops == Numbered([Planned(43200, 45900, None)])
    ensures var r, day := BareRequest(Some(45000), LUNCH), BareDay(Some(45000));
      RestDayOk(r, day) && !MealsLeaveRoom(r, day, stops)
  {
    hide MealLeavesRoom;
    assert !EndsInTime(BareRequest(Some(45000), LUNCH), BareDay(Some(45000)), stops);
  }

  lemma {:induction false} OnlyMeal(chosen: seq<Option<Planned>>, meal: Planned)
    requires |chosen| == 1 && chosen[0] == Some(meal)
    ensures SortBy(Present(chosen), StopBefore) == [meal]
  {
    assert chosen[..0] == [];
  }

  /** Two windows that both serve at noon give two meals at noon; no travel or deadline is involved. */
  lemma TwoMealsMustFail(routes: Routes, plans: seq<DayPlan>, unscheduled: seq<PoiId>)
    requires SolvedBy(BareRequest(None, LONG_DINNER), routes, plans, unscheduled)
    ensures !ValidPlan(BareRequest(None, LONG_DINNER), plans)
  {
    hide SolvedBy, ValidPlan, EmittedDay, MealFor, MealsLeaveRoom, RestDayOk, CanServe, MealFrom, MealLength, Present,
         SortBy;
    var r, day := BareRequest(None, LONG_DINNER), BareDay(None);
    BareAnswer(None, LONG_DINNER, routes, plans, unscheduled);
    EmittedPlanIsValid(r, routes, plans, unscheduled);
    var chosen := BareStops(r, day, plans[0]);
    BothAreAtNoon(r, day, chosen);
    TwoAtNoonCollide(plans[0].stops);
  }

  lemma BothAreAtNoon(r: Request, day: Day, chosen: seq<Option<Planned>>)
    requires r == BareRequest(None, LONG_DINNER) && day == BareDay(None)
    requires MealsFor(r, day, [], Windows(r, day), chosen)
    ensures SortBy(Present(chosen), StopBefore) == [Planned(43200, 45900, None), Planned(43200, 45900, None)]
  {
    hide MealFor, Present, SortBy;
    assert Windows(r, day) == [MealWindow(43200, 54000), MealWindow(43200, 79200)];
    MealAtOnce(r, day, Windows(r, day)[0], chosen[0]);
    MealAtOnce(r, day, Windows(r, day)[1], chosen[1]);
    TwiceTheMeal(chosen, Planned(43200, 45900, None));
  }

  lemma TwoAtNoonCollide(stops: seq<Stop>)
    requires stops == Numbered([Planned(43200, 45900, None), Planned(43200, 45900, None)])
    ensures var r, day := BareRequest(None, LONG_DINNER), BareDay(None);
      RestDayOk(r, day) && !MealsLeaveRoom(r, day, stops)
  {
    hide EndsInTime;
    var one: nat := 1;
    assert !MealLeavesRoom(BareRequest(None, LONG_DINNER), BareDay(None), stops, one);
  }

  lemma {:induction false} TwiceTheMeal(chosen: seq<Option<Planned>>, meal: Planned)
    requires |chosen| == 2 && chosen[0] == Some(meal) && chosen[1] == Some(meal)
    ensures SortBy(Present(chosen), StopBefore) == [meal, meal]
  {
    assert chosen[..1][..0] == [] && chosen[..1] == [Some(meal)];
    assert Present(chosen[..1]) == [meal];
    assert Present(chosen) == [meal, meal];
  }

  method AnswerBare(deadline: Option<Time>, meals: MealPolicy)
    returns (solution: Solution, issues: seq<Issue>, routes: Routes)
    requires meals.durationMin > 0
    ensures solution.Feasible? && SolvedBy(BareRequest(deadline, meals), routes, solution.plans, solution.unscheduled)
    ensures issues == [] <==> ValidPlan(BareRequest(deadline, meals), solution.plans)
  {
    hide SolvedBy, ValidPlan, MealsLeaveRoom, RestDayOk, MealsKeptApart, GoodRoutes, ResponseIssues;
    solution, issues, routes := SolveAndCheck(BareRequest(deadline, meals));
  }

  /** The solver does answer these requests, whatever it chooses, and each answer is rejected. */
  method RejectedAnswers() returns (empty: seq<Issue>, lunch: seq<Issue>, meals: seq<Issue>)
    ensures empty != [] && lunch != [] && meals != []
  {
    hide SolvedBy, ValidPlan, BareRequest, RestDayOk, BareDay;
    var solution, routes;
    solution, empty, routes := AnswerBare(Some(28000), NO_MEALS);
    EmptyDayMustFail(routes, solution.plans, solution.unscheduled);
    solution, lunch, routes := AnswerBare(Some(45000), LUNCH);
    LunchMustFail(routes, solution.plans, solution.unscheduled);
    solution, meals, routes := AnswerBare(None, LONG_DINNER);
    TwoMealsMustFail(routes, solution.plans, solution.unscheduled);
  }

  /** A lunch that is served and kept apart: the deadline leaves time after its window. */
  lemma LunchMayBeKeptApart()
    ensures var r, day := BareRequest(Some(50400), LUNCH), BareDay(Some(50400));
      MealsKeptApart(r) && Windows(r, day) != [] && CanServe(r, day, Windows(r, day)[0])
  {
    hide VariantsOf;
  }
}
