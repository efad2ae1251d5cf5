/** Meal stops: the first gap between the day's visits, window by window. */
module Meals {
  import opened Prelude
  import opened SolverModel
  import opened Route

  /** A stop before the day's stops are put in order and numbered; meals have no place. */
  datatype Planned = Planned(arrive: Time, depart: Time, poi: Option<PoiId>)

  datatype MealWindow = MealWindow(opens: Time, closes: Time)

  /** [s, s + length) touches none of the first `n` visits. */
  ghost predicate Free(visits: seq<Visit>, n: nat, s: Time, length: nat)
    requires n <= |visits|
  {
    forall k | 0 <= k < n :: visits[k].depart <= s || s + length <= visits[k].arrive
  }

  ghost predicate Chronological(visits: seq<Visit>) {
    && (forall k | 0 <= k < |visits| :: visits[k].arrive < visits[k].depart)
    && (forall i, j | 0 <= i < j < |visits| :: visits[i].depart <= visits[j].arrive)
  }

  /** The earliest free start at or after `from`. */
  ghost predicate IsFirstFit(visits: seq<Visit>, from: Time, length: nat, s: Time) {
    && s >= from && Free(visits, |visits|, s, length)
    && forall t | from <= t && Free(visits, |visits|, t, length) :: s <= t
  }

  /** The window loop's scan over the visits. */
  method FirstFit(visits: seq<Visit>, from: Time, length: nat) returns (starts: Time)
    requires length > 0
    ensures Chronological(visits) ==> IsFirstFit(visits, from, length, starts)
  {
    starts := from;
    for k := 0 to |visits|
      invariant starts >= from
      invariant Chronological(visits) ==> Free(visits, k, starts, length)
      invariant Chronological(visits) ==> forall t | from <= t && Free(visits, k, t, length) :: starts <= t
    {
      ghost var before := starts;
      if starts < visits[k].depart && visits[k].arrive < starts + length {
        starts := visits[k].depart;
      }
      if Chronological(visits) {
        ScanKeepsFit(visits, from, length, k, k + 1, before, starts);
      }
    }
  }

  lemma ScanKeepsFit(visits: seq<Visit>, from: Time, length: nat, k: nat, n: nat, before: Time, after: Time)
    requires length > 0 && Chronological(visits) && k < |visits| && n == k + 1
    requires before >= from && Free(visits, k, before, length)
    requires forall t | from <= t && Free(visits, k, t, length) :: before <= t
    requires after
          == if before < visits[k].depart && visits[k].arrive < before + length then visits[k].depart else before
    ensures Free(visits, n, after, length)
    ensures forall t | from <= t && Free(visits, n, t, length) :: after <= t
  {
    forall t | from <= t && Free(visits, n, t, length)
      ensures after <= t
    {
      assert Free(visits, k, t, length);
      assert visits[k].depart <= t || t + length <= visits[k].arrive;
    }
  }

  function Windows(r: Request, day: Day): seq<MealWindow> {
    var p, midnight := r.options.meals, r.midnightOf(day);
    if !p.enabled || p.countPerDay <= 0 then []
    else
      var lunch := MealWindow(midnight + 3600 * p.lunchStartHour, midnight + 3600 * p.lunchEndHour);
      var dinner := MealWindow(midnight + 3600 * p.dinnerStartHour, midnight + 3600 * p.dinnerEndHour);
      if p.countPerDay == 2 then [lunch, dinner] else [lunch]
  }

  function MealLength(r: Request): nat {
    60 * r.options.meals.durationMin
  }

  /** The earliest a meal of the window may start. */
  function MealFrom(day: Day, w: MealWindow): Time {
    MaxTime(w.opens, day.startTime)
  }

  /** The window has room for a meal, visits aside. */
  predicate CanServe(r: Request, day: Day, w: MealWindow) {
    MealFrom(day, w) + MealLength(r) <= w.closes
  }

  /** The meal of one window: a first fit that ends in time, or none at all. */
  ghost predicate MealFor(r: Request, day: Day, visits: seq<Visit>, w: MealWindow, meal: Option<Planned>) {
    var from, length := MealFrom(day, w), MealLength(r);
    match meal
    case Some(m) =>
      && m.poi.None? && m.depart == m.arrive + length
      && IsFirstFit(visits, from, length, m.arrive) && m.depart <= w.closes
    case None =>
      forall t | from <= t && Free(visits, |visits|, t, length) :: t + length > w.closes
  }

  /** `meals` are the meals of the first `n` windows, in order, `chosen` saying which exist. */
  ghost predicate MealsFor(r: Request, day: Day, visits: seq<Visit>, ws: seq<MealWindow>,
                           chosen: seq<Option<Planned>>) {
    |chosen| == |ws| && forall i | 0 <= i < |ws| :: MealFor(r, day, visits, ws[i], chosen[i])
  }

  function Present(chosen: seq<Option<Planned>>): seq<Planned> {
    if chosen == [] then []
    else
      var before, last := Present(chosen[..|chosen| - 1]), chosen[|chosen| - 1];
      if last.Some? then before + [last.value] else before
  }

  lemma NothingPresent()
    ensures Present([]) == []
  {}

  lemma PresentExtends(chosen: seq<Option<Planned>>, meal: Option<Planned>)
    ensures Present(chosen + [meal]) == if meal.Some? then Present(chosen) + [meal.value] else Present(chosen)
  {
    assert (chosen + [meal])[..|chosen|] == chosen;
  }

  lemma NoMealsWhenOff(r: Request, day: Day)
    ensures !r.options.meals.enabled || r.options.meals.countPerDay == 0 ==> Windows(r, day) == []
  {}

  lemma FirstFitDecides(r: Request, day: Day, visits: seq<Visit>, w: MealWindow, starts: Time, meal: Option<Planned>)
    requires IsFirstFit(visits, MealFrom(day, w), MealLength(r), starts)
    requires meal
          == if starts + MealLength(r) <= w.closes then Some(Planned(starts, starts + MealLength(r), None)) else None
    ensures MealFor(r, day, visits, w, meal)
  {}

  /** `_meal_stops`. */
  method MealStops(r: Request, day: Day, visits: seq<Visit>)
    returns (meals: seq<Planned>, ghost chosen: seq<Option<Planned>>)
    requires r.options.meals.durationMin > 0
    ensures meals == Present(chosen) && |chosen| == |Windows(r, day)|
    ensures Chronological(visits) ==> MealsFor(r, day, visits, Windows(r, day), chosen)
    ensures !r.options.meals.enabled || r.options.meals.countPerDay == 0 ==> meals == []
  {
    hide MealFor, Windows, Present, IsFirstFit, CanServe;
    NothingPresent();
    NoMealsWhenOff(r, day);
    var windows, length := Windows(r, day), MealLength(r);
    meals, chosen := [], [];
    for i := 0 to |windows|
      invariant |chosen| == i && meals == Present(chosen)
      invariant Chronological(visits) ==> forall j | 0 <= j < i :: MealFor(r, day, visits, windows[j], chosen[j])
    {
      var starts := FirstFit(visits, MealFrom(day, windows[i]), length);
      ghost var meal: Option<Planned> := None;
      if starts + length <= windows[i].closes {
        var stop := Planned(starts, starts + length, None);
        meals := meals + [stop];
        meal := Some(stop);
      }
      if Chronological(visits) {
        FirstFitDecides(r, day, visits, windows[i], starts, meal);
      }
      PresentExtends(chosen, meal);
      chosen := chosen + [meal];
    }
  }

  /** Hours after the day's midnight, in seconds. */
  function Hour(r: Request, day: Day, hour: nat): Time {
    r.midnightOf(day) + 60 * 60 * hour
  }

  /** The hours a meal is asked for: lunch, and dinner as well when there are two. */
  ghost predicate MealHours(r: Request, day: Day, i: nat, opens: Time, closes: Time) {
    var p := r.options.meals;
    && p.enabled && p.countPerDay > 0
    && match i
       case 0 => opens == Hour(r, day, p.lunchStartHour) && closes == Hour(r, day, p.lunchEndHour)
       case 1 =>
         p.countPerDay == 2 && opens == Hour(r, day, p.dinnerStartHour) && closes == Hour(r, day, p.dinnerEndHour)
       case _ => false
  }

  /** A meal of the given minutes, if any, within the hours and the day, and clear of the visits. */
  ghost predicate ServedWithin(day: Day, visits: seq<Visit>, opens: Time, closes: Time, length: nat,
                               meal: Option<Planned>) {
    match meal
    case Some(m) =>
      && opens <= m.arrive && day.startTime <= m.arrive && m.depart == m.arrive + length && m.depart <= closes
      && Free(visits, |visits|, m.arrive, length)
    case None =>
      forall t | opens <= t && day.startTime <= t && Free(visits, |visits|, t, length) :: closes < t + length
  }

  /** A meal is asked for exactly in these hours, and is missing only if no start in them would do. */
  lemma MealsKeepTheirHours(r: Request, day: Day, visits: seq<Visit>, chosen: seq<Option<Planned>>, i: nat)
    requires MealsFor(r, day, visits, Windows(r, day), chosen)
    ensures i < |chosen| <==> exists opens, closes :: MealHours(r, day, i, opens, closes)
    ensures forall opens, closes | MealHours(r, day, i, opens, closes) ::
      ServedWithin(day, visits, opens, closes, 60 * r.options.meals.durationMin, chosen[i])
  {
    hide MealFor, Windows, MealHours, ServedWithin;
    HoursAreWindows(r, day, i);
    if i < |chosen| {
      var w := Windows(r, day)[i];
      assert MealHours(r, day, i, w.opens, w.closes) && MealFor(r, day, visits, w, chosen[i]);
      MealIsServed(r, day, visits, w, chosen[i]);
    }
  }

  lemma MealIsServed(r: Request, day: Day, visits: seq<Visit>, w: MealWindow, meal: Option<Planned>)
    requires MealFor(r, day, visits, w, meal)
    ensures ServedWithin(day, visits, w.opens, w.closes, 60 * r.options.meals.durationMin, meal)
  {
    hide Free;
    assert MealLength(r) == 60 * r.options.meals.durationMin;
    if meal.None? {
      forall t | w.opens <= t && day.startTime <= t && Free(visits, |visits|, t, MealLength(r))
        ensures w.closes < t + MealLength(r)
      {
        assert MealFrom(day, w) <= t;
      }
    }
  }

  lemma HoursAreWindows(r: Request, day: Day, i: nat)
    ensures forall opens, closes :: MealHours(r, day, i, opens, closes) <==>
      i < |Windows(r, day)| && Windows(r, day)[i] == MealWindow(opens, closes)
  {}

  // ------------------------------------------------------------- two meals

  /** Two meals of the same length at the same time of day, in part. */
  predicate Overlap(a: Planned, b: Planned) {
    a.arrive < b.depart && b.arrive < a.depart
  }

  /**
   * A placed meal does not count as occupied when the next one is placed.  So the meals of
   * two windows, the first of which starts no later, overlap exactly if some start clear of
   * the visits lies between the second window's start and the end of the first meal; on a
   * day without visits, exactly if the second window's start precedes that end.
   */
  lemma MealsOverlapExactly(r: Request, day: Day, visits: seq<Visit>, w: MealWindow, u: MealWindow, a: Planned,
                            b: Planned)
    requires r.options.meals.durationMin > 0 && MealFrom(day, w) <= MealFrom(day, u)
    requires MealFor(r, day, visits, w, Some(a)) && MealFor(r, day, visits, u, Some(b))
    ensures Overlap(a, b) <==> exists t :: MealFrom(day, u) <= t < a.depart && Free(visits, |visits|, t, MealLength(r))
    ensures visits == [] ==> (Overlap(a, b) <==> MealFrom(day, u) < MealFrom(day, w) + MealLength(r))
  {
    assert Free(visits, |visits|, b.arrive, MealLength(r));
    if visits == [] {
      assert Free(visits, |visits|, MealFrom(day, w), MealLength(r))
          && Free(visits, |visits|, MealFrom(day, u), MealLength(r));
    }
  }

  /** Windows that can serve follow one another: each closes before the next may start. */
  ghost predicate InOrder(r: Request, day: Day, ws: seq<MealWindow>) {
    forall i, j | 0 <= i < j < |ws| && CanServe(r, day, ws[i]) && CanServe(r, day, ws[j]) ::
      ws[i].closes <= MealFrom(day, ws[j])
  }

  /** A meal of some window. */
  ghost predicate ServedIn(r: Request, day: Day, ws: seq<MealWindow>, meal: Planned) {
    exists w | w in ws :: CanServe(r, day, w) && MealFrom(day, w) <= meal.arrive < meal.depart <= w.closes
  }

  ghost predicate EachBeforeNext(meals: seq<Planned>) {
    forall i, j | 0 <= i < j < |meals| :: meals[i].depart <= meals[j].arrive
  }

  lemma ServedByWindow(r: Request, day: Day, visits: seq<Visit>, w: MealWindow, m: Planned)
    requires r.options.meals.durationMin > 0 && MealFor(r, day, visits, w, Some(m))
    ensures CanServe(r, day, w) && MealFrom(day, w) <= m.arrive < m.depart <= w.closes
  {}

  lemma {:induction false} ChosenAreServed(r: Request, day: Day, visits: seq<Visit>, ws: seq<MealWindow>,
                                           chosen: seq<Option<Planned>>)
    requires r.options.meals.durationMin > 0 && MealsFor(r, day, visits, ws, chosen)
    ensures forall m | m in Present(chosen) :: ServedIn(r, day, ws, m)
  {
    hide MealFor, CanServe;
    if chosen == [] {
    } else {
      var last := |chosen| - 1;
      ChosenAreServed(r, day, visits, ws[..last], chosen[..last]);
      assert MealFor(r, day, visits, ws[last], chosen[last]);
      if chosen[last].Some? {
        ServedByWindow(r, day, visits, ws[last], chosen[last].value);
      }
    }
  }

  /** Windows in order give meals in order. */
  lemma {:induction false} ChosenAreInOrder(r: Request, day: Day, visits: seq<Visit>, ws: seq<MealWindow>,
                                            chosen: seq<Option<Planned>>)
    requires r.options.meals.durationMin > 0 && MealsFor(r, day, visits, ws, chosen) && InOrder(r, day, ws)
    ensures EachBeforeNext(Present(chosen))
  {
    hide MealFor, CanServe;
    if chosen == [] {
    } else {
      var last := |chosen| - 1;
      var before := Present(chosen[..last]);
      ChosenAreInOrder(r, day, visits, ws[..last], chosen[..last]);
      ChosenAreServed(r, day, visits, ws[..last], chosen[..last]);
      assert MealFor(r, day, visits, ws[last], chosen[last]);
      if chosen[last].Some? {
        ServedByWindow(r, day, visits, ws[last], chosen[last].value);
        forall i | 0 <= i < |before|
          ensures before[i].depart <= chosen[last].value.arrive
        {
          assert ServedIn(r, day, ws[..last], before[i]);
          var w :| w in ws[..last] && CanServe(r, day, w) && before[i].depart <= w.closes;
          var k :| 0 <= k < last && ws[k] == w;
        }
      }
    }
  }
}
