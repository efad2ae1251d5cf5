/**
 * An emitted day with its meals: the visits keep the order of the route, and every meal
 * stands clear of them.
 */
module Weave {
  import opened Prelude
  import opened Sorting
  import opened SolverModel
  import opened Route
  import opened Feasibility
  import opened Meals
  import opened Greedy

  /** The visits among the stops, in their order. */
  function VisitsIn(stops: seq<Planned>): seq<Planned> {
    if stops == [] then []
    else if stops[0].poi.Some? then [stops[0]] + VisitsIn(stops[1..])
    else VisitsIn(stops[1..])
  }

  lemma {:induction false} VisitsInConcat(a: seq<Planned>, b: seq<Planned>)
    ensures VisitsIn(a + b) == VisitsIn(a) + VisitsIn(b)
  {
    if a == [] {
      assert a + b == b;
    } else {
      assert (a + b)[1..] == a[1..] + b;
      VisitsInConcat(a[1..], b);
    }
  }

  lemma {:induction false} OnlyMeals(stops: seq<Planned>)
    requires forall s | s in stops :: s.poi.None?
    ensures VisitsIn(stops) == []
  {
    if stops == [] {
    } else {
      OnlyMeals(stops[1..]);
    }
  }

  /** An earlier visit is inserted in front of the others, whatever meals lie between. */
  lemma {:induction false} InsertedInFront(x: Planned, s: seq<Planned>)
    requires x.poi.Some? && forall y | y in VisitsIn(s) :: x.arrive < y.arrive
    ensures VisitsIn(Insert(x, s, StopBefore)) == [x] + VisitsIn(s)
  {
    if s == [] || StopBefore(x, s[0]) {
      assert ([x] + s)[1..] == s;
    } else {
      assert s[0].poi.Some? ==> s[0] in VisitsIn(s);
      InsertedInFront(x, s[1..]);
    }
  }

  ghost predicate ByArrival(visits: seq<Planned>) {
    && (forall v | v in visits :: v.poi.Some?)
    && forall i, j | 0 <= i < j < |visits| :: visits[i].arrive < visits[j].arrive
  }

  lemma SortedMeals(meals: seq<Planned>)
    requires forall m | m in meals :: m.poi.None?
    ensures VisitsIn(SortBy(meals, StopBefore)) == []
  {
    hide SortBy, VisitsIn;
    forall s | s in SortBy(meals, StopBefore)
      ensures s.poi.None?
    {
      assert s in multiset(SortBy(meals, StopBefore));
      assert s in multiset(meals);
    }
    OnlyMeals(SortBy(meals, StopBefore));
  }

  lemma SortingInserts(x: Planned, s: seq<Planned>)
    ensures SortBy([x] + s, StopBefore) == Insert(x, SortBy(s, StopBefore), StopBefore)
  {
    assert ([x] + s)[1..] == s;
  }

  lemma {:induction false} WeavingKeepsVisits(visits: seq<Planned>, meals: seq<Planned>)
    requires ByArrival(visits) && forall m | m in meals :: m.poi.None?
    ensures VisitsIn(SortBy(visits + meals, StopBefore)) == visits
  {
    hide SortBy, Insert, StopBefore, VisitsIn;
    if visits == [] {
      assert visits + meals == meals;
      SortedMeals(meals);
    } else {
      var rest := visits[1..];
      assert visits + meals == [visits[0]] + (rest + meals) && visits == [visits[0]] + rest;
      WeavingKeepsVisits(rest, meals);
      SortingInserts(visits[0], rest + meals);
      InsertedInFront(visits[0], SortBy(rest + meals, StopBefore));
    }
  }

  // ------------------------------------------------------------- woven days

  /** A meal within the day that overlaps no visit. */
  ghost predicate StandsClear(day: Day, visits: seq<Visit>, meal: Planned) {
    && day.startTime <= meal.arrive < meal.depart
    && forall k | 0 <= k < |visits| :: visits[k].depart <= meal.arrive || meal.depart <= visits[k].arrive
  }

  ghost predicate Woven(day: Day, visits: seq<Visit>, stops: seq<Planned>) {
    && VisitsIn(stops) == PlannedVisits(visits)
    && SortedBy(stops, StopBefore)
    && forall s | s in stops && s.poi.None? :: StandsClear(day, visits, s)
  }

  lemma {:induction false} PresentMember(chosen: seq<Option<Planned>>, m: Planned) returns (i: nat)
    requires m in Present(chosen)
    ensures i < |chosen| && chosen[i] == Some(m)
  {
    var last := |chosen| - 1;
    if chosen[last] == Some(m) {
      i := last;
    } else {
      i := PresentMember(chosen[..last], m);
    }
  }

  lemma ChosenMealsStandClear(r: Request, day: Day, visits: seq<Visit>, chosen: seq<Option<Planned>>, m: Planned)
    requires r.options.meals.durationMin > 0 && MealsFor(r, day, visits, Windows(r, day), chosen)
        && m in Present(chosen)
    ensures m.poi.None? && StandsClear(day, visits, m)
  {
    hide Windows;
    var i := PresentMember(chosen, m);
    assert MealFor(r, day, visits, Windows(r, day)[i], chosen[i]);
  }

  /** What the solver emits for a day is a weave of its visits with meals that stand clear of them. */
  lemma EmittedIsWoven(r: Request, day: Day, route: seq<Variant>, plan: DayPlan) returns (stops: seq<Planned>)
    requires ValidRequest(r) && r.options.meals.durationMin > 0 && GoodRoute(r, day, route)
        && EmittedDay(r, day, route, plan)
    ensures plan == DayPlan(Some(day.dayIndex), Numbered(stops))
        && Woven(day, Materialized(r, day, route).visits, stops)
    ensures forall s | s in stops && s.poi.None? :: ServedIn(r, day, Windows(r, day), s)
    ensures InOrder(r, day, Windows(r, day)) ==> MealsFollow(stops)
  {
    hide Materialized, GoodRoute, MealsFor, StandsClear, Present, SortBy, ValidRequest, ServedIn, InOrder, Windows,
         MealsFollow, Woven, EachBeforeNext, StopBefore;
    var visits := Materialized(r, day, route).visits;
    GoodRouteIsChronological(r, day, route);
    var chosen :| EmittedFor(r, day, route, plan, Present(chosen)) && MealsFor(r, day, visits, Windows(r, day), chosen);
    var meals := Present(chosen);
    stops := SortBy(PlannedVisits(visits) + meals, StopBefore);
    forall m | m in meals
      ensures m.poi.None? && StandsClear(day, visits, m)
    {
      ChosenMealsStandClear(r, day, visits, chosen, m);
    }
    SortedIsWoven(day, visits, meals, stops);
    ChosenAreServed(r, day, visits, Windows(r, day), chosen);
    if InOrder(r, day, Windows(r, day)) {
      ChosenAreInOrder(r, day, visits, Windows(r, day), chosen);
      ClearMealsTakeTime(day, visits, meals);
      SortedMealsFollow(PlannedVisits(visits), meals, stops);
    }
  }

  lemma ClearMealsTakeTime(day: Day, visits: seq<Visit>, meals: seq<Planned>)
    requires forall m | m in meals :: StandsClear(day, visits, m)
    ensures forall m | m in meals :: m.arrive < m.depart
  {}

  lemma SortedIsWoven(day: Day, visits: seq<Visit>, meals: seq<Planned>, stops: seq<Planned>)
    requires Chronological(visits) && stops == SortBy(PlannedVisits(visits) + meals, StopBefore)
    requires forall m | m in meals :: m.poi.None? && StandsClear(day, visits, m)
    ensures Woven(day, visits, stops) && SortedBy(stops, StopBefore)
    ensures multiset(stops) == multiset(PlannedVisits(visits)) + multiset(meals)
    ensures forall s | s in stops && s.poi.None? :: s in meals
    ensures forall v | v in PlannedVisits(visits) :: v.poi.Some?
  {
    hide StandsClear, SortBy, Chronological;
    PlannedAscend(visits);
    WeavingKeepsVisits(PlannedVisits(visits), meals);
    SortBySorts(PlannedVisits(visits) + meals, StopBefore);
    forall s | s in stops
      ensures s in PlannedVisits(visits) || s in meals
    {
      assert s in multiset(stops);
    }
  }

  /** Of two meals among the stops, the first is over when the second starts. */
  ghost predicate MealsFollow(stops: seq<Planned>) {
    forall a, b | 0 <= a < b < |stops| && stops[a].poi.None? && stops[b].poi.None? :: stops[a].depart <= stops[b].arrive
  }

  lemma SortedMealsFollow(visits: seq<Planned>, meals: seq<Planned>, stops: seq<Planned>)
    requires multiset(stops) == multiset(visits) + multiset(meals) && SortedBy(stops, StopBefore)
    requires forall v | v in visits :: v.poi.Some?
    requires EachBeforeNext(meals) && forall m | m in meals :: m.arrive < m.depart
    ensures MealsFollow(stops)
  {
    forall a, b | 0 <= a < b < |stops| && stops[a].poi.None? && stops[b].poi.None?
      ensures stops[a].depart <= stops[b].arrive
    {
      MealIsListed(visits, meals, stops, a);
      MealIsListed(visits, meals, stops, b);
      var i :| 0 <= i < |meals| && meals[i] == stops[a];
      var j :| 0 <= j < |meals| && meals[j] == stops[b];
      assert StopBefore(stops[a], stops[b]);
      if i == j {
        assert stops[a] !in visits && stops[a] !in multiset(visits);
        OnceInMeals(meals, i);
        TwiceInStops(stops, a, b);
      }
    }
  }

  lemma MealIsListed(visits: seq<Planned>, meals: seq<Planned>, stops: seq<Planned>, a: nat)
    requires multiset(stops) == multiset(visits) + multiset(meals) && a < |stops| && stops[a].poi.None?
    requires forall v | v in visits :: v.poi.Some?
    ensures stops[a] in meals
  {
    assert stops[a] in multiset(stops);
  }

  lemma TwiceInStops<T>(s: seq<T>, a: nat, b: nat)
    requires a < b < |s| && s[a] == s[b]
    ensures multiset(s)[s[a]] >= 2
  {
    assert s == s[..a] + [s[a]] + s[a + 1..b] + [s[b]] + s[b + 1..];
  }

  lemma OnceInMeals(meals: seq<Planned>, i: nat)
    requires EachBeforeNext(meals) && i < |meals| && forall m | m in meals :: m.arrive < m.depart
    ensures multiset(meals)[meals[i]] == 1
  {
    var x := meals[i];
    assert meals == meals[..i] + [x] + meals[i + 1..];
    assert x !in meals[..i] && x !in meals[i + 1..] by {
      assert forall k | 0 <= k < |meals| && k != i :: meals[k] != x;
    }
  }

  lemma PlannedAscend(visits: seq<Visit>)
    requires Chronological(visits)
    ensures ByArrival(PlannedVisits(visits))
  {
    forall i, j | 0 <= i < j < |visits|
      ensures visits[i].arrive < visits[j].arrive
    {
      assert visits[i].arrive < visits[i].depart;
    }
  }

  // ------------------------------------------------------------- finding a visit's place

  /** How many of the first `k` stops are visits. */
  function VisitsBefore(stops: seq<Stop>, k: nat): (n: nat)
    requires k <= |stops|
  {
    if k == 0 then 0
    else VisitsBefore(stops, k - 1) + (if stops[k - 1].Stop? && stops[k - 1].poi.Some? then 1 else 0)
  }

  lemma {:induction false} VisitsBeforeCounts(stops: seq<Planned>, k: nat)
    requires k <= |stops|
    ensures VisitsBefore(Numbered(stops), k) == |VisitsIn(stops[..k])|
  {
    if k == 0 {
    } else {
      VisitsBeforeCounts(stops, k - 1);
      assert stops[..k] == stops[..k - 1] + [stops[k - 1]];
      VisitsInConcat(stops[..k - 1], [stops[k - 1]]);
    }
  }

  lemma FrontVisit(x: Planned, s: seq<Planned>)
    requires x.poi.Some?
    ensures VisitsIn([x] + s) == [x] + VisitsIn(s)
  {
    assert ([x] + s)[1..] == s;
  }

  /** The visits of a woven day are those of the route, one after the other. */
  lemma WovenAt(day: Day, visits: seq<Visit>, stops: seq<Planned>, k: nat)
    requires Woven(day, visits, stops) && k < |stops| && stops[k].poi.Some?
    ensures var j := VisitsBefore(Numbered(stops), k); j < |visits| && stops[k] == PlannedVisit(visits[j])
  {
    hide StandsClear, VisitsIn, VisitsBefore, Numbered, StopBefore;
    VisitsBeforeCounts(stops, k);
    var a, b := stops[..k], stops[k + 1..];
    assert stops == a + ([stops[k]] + b);
    VisitsInConcat(a, [stops[k]] + b);
    FrontVisit(stops[k], b);
    assert PlannedVisits(visits)[|VisitsIn(a)|] == stops[k];
  }

  lemma WovenEnd(day: Day, visits: seq<Visit>, stops: seq<Planned>)
    requires Woven(day, visits, stops)
    ensures VisitsBefore(Numbered(stops), |stops|) == |visits|
  {
    VisitsBeforeCounts(stops, |stops|);
    assert stops[..|stops|] == stops;
  }

  lemma {:induction false} VisitsBeforeGrow(stops: seq<Stop>, k: nat, l: nat)
    requires k < l <= |stops| && stops[k].Stop? && stops[k].poi.Some?
    ensures VisitsBefore(stops, k) < VisitsBefore(stops, l)
  {
    if l == k + 1 {
    } else {
      VisitsBeforeGrow(stops, k, l - 1);
    }
  }

  /** The stop at which the `j`-th visit takes place. */
  lemma {:induction false} StopOfVisit(stops: seq<Stop>, j: nat, n: nat) returns (k: nat)
    requires n <= |stops| && j < VisitsBefore(stops, n)
    ensures k < n && VisitsBefore(stops, k) == j && stops[k].Stop? && stops[k].poi.Some?
  {
    if VisitsBefore(stops, n - 1) <= j {
      k := n - 1;
    } else {
      k := StopOfVisit(stops, j, n - 1);
    }
  }
}
