/**
 * The greedy solver: place must-dos, then the rest, by cheapest insertion; improve each
 * day; emit.  `Soundness` relates what it emits to the independent checker.
 */
module Greedy {
  import opened Prelude
  import opened Keys
  import opened Sorting
  import opened SolverModel
  import opened Route
  import opened Insertion
  import TwoOpt
  import opened Expand
  import opened Feasibility
  import opened Meals

  datatype Solution =
    | Infeasible(blocking: PoiId)
    | Feasible(plans: seq<DayPlan>, unscheduled: seq<PoiId>, objective: nat)

  // ------------------------------------------------------------- placing order

  predicate MustDoBefore(x: Candidate, y: Candidate) {
    x.priority > y.priority || (x.priority == y.priority && AtMost(x.poiId, y.poiId))
  }

  function BestPrize(variants: seq<Variant>): nat {
    if variants == [] then 0
    else
      var before, last := BestPrize(variants[..|variants| - 1]), variants[|variants| - 1].prize;
      if last > before then last else before
  }

  /** The best prize is the greatest of the variants' prizes, and nothing if there is no variant. */
  lemma {:induction false} BestPrizeIsBest(variants: seq<Variant>)
    ensures forall v | v in variants :: v.prize <= BestPrize(variants)
    ensures variants == [] ==> BestPrize(variants) == 0
    ensures variants != [] ==> exists v | v in variants :: v.prize == BestPrize(variants)
  {
    if variants == [] {
    } else {
      var n := |variants| - 1;
      BestPrizeIsBest(variants[..n]);
      assert variants == variants[..n] + [variants[n]];
      if n > 0 && BestPrize(variants) == BestPrize(variants[..n]) {
        var v :| v in variants[..n] && v.prize == BestPrize(variants[..n]);
        assert v in variants;
      } else {
        assert variants[n] in variants;
      }
    }
  }

  predicate OptionalBefore(r: Request, x: Candidate, y: Candidate) {
    var a, b := BestPrize(VariantsOf(r, x)), BestPrize(VariantsOf(r, y));
    a > b || (a == b && AtMost(x.poiId, y.poiId))
  }

  function Where(cs: seq<Candidate>, mustDo: bool): (s: seq<Candidate>)
    ensures forall c :: c in s <==> c in cs && c.mustDo == mustDo
  {
    if cs == [] then []
    else if cs[0].mustDo == mustDo then [cs[0]] + Where(cs[1..], mustDo)
    else Where(cs[1..], mustDo)
  }

  /** Must-dos by priority, then the rest by best prize. */
  function PlacingOrder(r: Request): seq<Candidate> {
    SortBy(Where(r.candidates, true), MustDoBefore)
      + SortBy(Where(r.candidates, false), (x, y) => OptionalBefore(r, x, y))
  }

  lemma {:induction false} WherePartitions(cs: seq<Candidate>)
    ensures multiset(Where(cs, true)) + multiset(Where(cs, false)) == multiset(cs)
  {
    if cs == [] {
    } else {
      WherePartitions(cs[1..]);
      assert cs == [cs[0]] + cs[1..];
    }
  }

  /** Every candidate is placed exactly once in the order. */
  lemma OrderIsPermutation(r: Request)
    ensures multiset(PlacingOrder(r)) == multiset(r.candidates)
  {
    WherePartitions(r.candidates);
  }

  /** Whatever `y` could earn anywhere, `x` could earn somewhere. */
  ghost predicate EarnsAsMuch(r: Request, x: Candidate, y: Candidate) {
    forall v | v in VariantsOf(r, y) && v.prize > 0 :: exists w | w in VariantsOf(r, x) :: w.prize >= v.prize
  }

  /**
   * `x` is to be placed before `y`: must-dos first, by priority; then the rest, by what they
   * could earn; the ids settle ties.
   */
  ghost predicate RanksBefore(r: Request, x: Candidate, y: Candidate) {
    if x.mustDo != y.mustDo then x.mustDo
    else if x.mustDo then x.priority > y.priority || (x.priority == y.priority && !Less(y.poiId, x.poiId))
    else EarnsAsMuch(r, x, y) && (EarnsAsMuch(r, y, x) ==> !Less(y.poiId, x.poiId))
  }

  lemma EarnsByBestPrize(r: Request, x: Candidate, y: Candidate)
    ensures EarnsAsMuch(r, x, y) <==> BestPrize(VariantsOf(r, x)) >= BestPrize(VariantsOf(r, y))
  {
    hide VariantsOf, BestPrize;
    BestPrizeIsBest(VariantsOf(r, x));
    BestPrizeIsBest(VariantsOf(r, y));
  }

  lemma OrdersRank(r: Request, x: Candidate, y: Candidate)
    requires x.mustDo == y.mustDo && (if x.mustDo then MustDoBefore(x, y) else OptionalBefore(r, x, y))
    ensures RanksBefore(r, x, y)
  {
    hide VariantsOf, BestPrize, EarnsAsMuch, Less;
    EarnsByBestPrize(r, x, y);
    EarnsByBestPrize(r, y, x);
  }

  /** The candidates in an order in which each ranks before all later ones. */
  ghost predicate RightOrder(r: Request, order: seq<Candidate>) {
    && multiset(order) == multiset(r.candidates)
    && forall i, j | 0 <= i < j < |order| :: RanksBefore(r, order[i], order[j])
  }

  lemma MustDoOrderIsTotal()
    ensures Total(MustDoBefore)
  {
    forall x: Candidate, y: Candidate
      ensures MustDoBefore(x, y) || MustDoBefore(y, x)
    {
      LessAsymmetric(x.poiId, y.poiId);
    }
    forall x: Candidate, y: Candidate, z: Candidate | MustDoBefore(x, y) && MustDoBefore(y, z)
      ensures MustDoBefore(x, z)
    {
      AtMostTransitive(x.poiId, y.poiId, z.poiId);
    }
  }

  lemma OptionalOrderIsTotal(r: Request)
    ensures Total((x, y) => OptionalBefore(r, x, y))
  {
    hide VariantsOf, BestPrize;
    forall x: Candidate, y: Candidate
      ensures OptionalBefore(r, x, y) || OptionalBefore(r, y, x)
    {
      LessAsymmetric(x.poiId, y.poiId);
    }
    forall x: Candidate, y: Candidate, z: Candidate | OptionalBefore(r, x, y) && OptionalBefore(r, y, z)
      ensures OptionalBefore(r, x, z)
    {
      AtMostTransitive(x.poiId, y.poiId, z.poiId);
    }
  }

  lemma SortedMembers<T(!new)>(s: seq<T>, before: (T, T) -> bool)
    requires Total(before)
    ensures SortedBy(SortBy(s, before), before) && forall x | x in SortBy(s, before) :: x in s
  {
    SortBySorts(s, before);
    forall x | x in SortBy(s, before)
      ensures x in s
    {
      assert x in multiset(SortBy(s, before));
    }
  }

  /** The placing order ranks every earlier candidate before every later one. */
  lemma OrderRanks(r: Request)
    ensures RightOrder(r, PlacingOrder(r))
  {
    hide OptionalBefore, MustDoBefore, SortBy, RanksBefore;
    OrderIsPermutation(r);
    MustDoOrderIsTotal();
    OptionalOrderIsTotal(r);
    var musts, rest := Where(r.candidates, true), Where(r.candidates, false);
    var before := (x, y) => OptionalBefore(r, x, y);
    SortedMembers(musts, MustDoBefore);
    SortedMembers(rest, before);
    forall i, j | 0 <= i < j < |PlacingOrder(r)|
      ensures RanksBefore(r, PlacingOrder(r)[i], PlacingOrder(r)[j])
    {
      RankedPair(r, SortBy(musts, MustDoBefore), SortBy(rest, before), i, j);
    }
  }

  lemma RankedPair(r: Request, musts: seq<Candidate>, rest: seq<Candidate>, i: nat, j: nat)
    requires (forall c | c in musts :: c.mustDo) && (forall c | c in rest :: !c.mustDo)
    requires SortedBy(musts, MustDoBefore) && SortedBy(rest, (x, y) => OptionalBefore(r, x, y))
    requires i < j < |musts + rest|
    ensures RanksBefore(r, (musts + rest)[i], (musts + rest)[j])
  {
    hide OptionalBefore, MustDoBefore, EarnsAsMuch;
    var x, y := (musts + rest)[i], (musts + rest)[j];
    if j < |musts| {
      assert MustDoBefore(musts[i], musts[j]);
      OrdersRank(r, x, y);
    } else if i >= |musts| {
      var before := (x, y) => OptionalBefore(r, x, y);
      assert before(rest[i - |musts|], rest[j - |musts|]);
      OrdersRank(r, x, y);
    } else {
      assert x == musts[i] && x in musts && y == rest[j - |musts|] && y in rest;
    }
  }

  // ------------------------------------------------------------- counting visits

  ghost function Visiting(p: PoiId): Variant -> bool {
    (v: Variant) => v.candidate.poiId == p
  }

  ghost function Naming(p: PoiId): Candidate -> bool {
    (c: Candidate) => c.poiId == p
  }

  /** How often `p` is visited on the route. */
  ghost function Times(route: seq<Variant>, p: PoiId): nat {
    Count(route, Visiting(p))
  }

  /** How often `p` is among the candidates. */
  ghost function Asked(cs: seq<Candidate>, p: PoiId): nat {
    Count(cs, Naming(p))
  }

  ghost function Occurs(ids: seq<PoiId>, p: PoiId): nat {
    multiset(ids)[p]
  }

  ghost predicate HasRoutes(routes: Routes, days: seq<Day>) {
    forall d | d in days :: d.dayIndex in routes
  }

  /** How often `p` is visited over all days. */
  ghost function TimesInAll(routes: Routes, days: seq<Day>, p: PoiId): nat
    requires HasRoutes(routes, days)
  {
    if days == [] then 0 else TimesInAll(routes, days[1..], p) + Times(routes[days[0].dayIndex], p)
  }

  lemma TimesInserted(route: seq<Variant>, position: nat, v: Variant, p: PoiId)
    requires position <= |route|
    ensures Times(Inserted(route, position, v), p) == Times(route, p) + (if v.candidate.poiId == p then 1 else 0)
  {
    var a, b, f := route[..position], route[position..], Visiting(p);
    assert route == a + b && Inserted(route, position, v) == a + [v] + b;
    CountConcat(a, b, f);
    CountConcat(a + [v], b, f);
    CountConcat(a, [v], f);
    CountOne(v, f);
  }

  lemma AskedExtends(cs: seq<Candidate>, c: Candidate, p: PoiId)
    ensures Asked(cs + [c], p) == Asked(cs, p) + (if c.poiId == p then 1 else 0)
  {
    CountConcat(cs, [c], Naming(p));
    CountOne(c, Naming(p));
  }

  /** Changing one day's route changes the total by the difference on that day. */
  lemma {:induction false} TimesUpdate(routes: Routes, days: seq<Day>, n: nat, route: seq<Variant>, p: PoiId)
    requires HasRoutes(routes, days) && DistinctDays(days) && n < |days|
    ensures var d := days[n].dayIndex;
      && HasRoutes(routes[d := route], days)
      && TimesInAll(routes[d := route], days, p) + Times(routes[d], p) == TimesInAll(routes, days, p) + Times(route, p)
  {
    hide Times;
    var d := days[n].dayIndex;
    if n == 0 {
      TimesUnaffected(routes, days[1..], d, route, p);
    } else {
      assert days[1..][n - 1] == days[n] && days[0].dayIndex != d;
      TimesUpdate(routes, days[1..], n - 1, route, p);
    }
  }

  lemma {:induction false} TimesUnaffected(routes: Routes, days: seq<Day>, d: nat, route: seq<Variant>, p: PoiId)
    requires HasRoutes(routes, days) && forall x | x in days :: x.dayIndex != d
    ensures HasRoutes(routes[d := route], days)
        && TimesInAll(routes[d := route], days, p) == TimesInAll(routes, days, p)
  {
    hide Times;
    if days == [] {
    } else {
      TimesUnaffected(routes, days[1..], d, route, p);
    }
  }

  lemma {:induction false} NoVisitsYet(routes: Routes, days: seq<Day>, p: PoiId)
    requires HasRoutes(routes, days) && forall d | d in days :: routes[d.dayIndex] == []
    ensures TimesInAll(routes, days, p) == 0
  {
    if days == [] {
    } else {
      NoVisitsYet(routes, days[1..], p);
    }
  }

  /** The total covers any one day, and any two different days together. */
  lemma {:induction false} TotalCovers(routes: Routes, days: seq<Day>, n: nat, m: nat, p: PoiId)
    requires HasRoutes(routes, days) && n <= m < |days|
    ensures Times(routes[days[n].dayIndex], p) <= TimesInAll(routes, days, p)
    ensures n < m ==>
      Times(routes[days[n].dayIndex], p) + Times(routes[days[m].dayIndex], p) <= TimesInAll(routes, days, p)
  {
    hide Times;
    if n > 0 {
      TotalCovers(routes, days[1..], n - 1, m - 1, p);
    } else if m > 0 {
      TotalCovers(routes, days[1..], m - 1, m - 1, p);
    }
  }

  lemma {:induction false} SomeDayVisits(routes: Routes, days: seq<Day>, p: PoiId) returns (n: nat)
    requires HasRoutes(routes, days) && TimesInAll(routes, days, p) > 0
    ensures n < |days| && Times(routes[days[n].dayIndex], p) > 0
  {
    hide Times;
    if Times(routes[days[0].dayIndex], p) > 0 {
      n := 0;
    } else {
      n := SomeDayVisits(routes, days[1..], p);
      n := n + 1;
    }
  }

  // ------------------------------------------------------------- routes under construction

  /** A variant that belongs on day `d`. */
  ghost predicate Belongs(r: Request, d: nat, v: Variant) {
    v.dayIndex == d && v.candidate in r.candidates && v in VariantsOf(r, v.candidate)
  }

  /** Empty, or a feasible route of variants of that day. */
  ghost predicate GoodRoute(r: Request, day: Day, route: seq<Variant>) {
    && (forall v | v in route :: Belongs(r, day.dayIndex, v))
    && (route != [] ==> Materialized(r, day, route).feasible)
  }

  ghost predicate GoodRoutes(r: Request, routes: Routes) {
    && ValidRoutes(r, routes) && HasRoutes(routes, r.days)
    && forall d | d in r.days :: GoodRoute(r, d, routes[d.dayIndex])
  }

  /** Each candidate so far is on the routes once or in the unscheduled list once. */
  ghost predicate Accounted(r: Request, routes: Routes, unscheduled: seq<PoiId>, cs: seq<Candidate>)
    requires HasRoutes(routes, r.days)
  {
    forall p :: TimesInAll(routes, r.days, p) + Occurs(unscheduled, p) == Asked(cs, p)
  }

  ghost predicate OnlyOptional(r: Request, unscheduled: seq<PoiId>) {
    forall p | p in unscheduled :: exists c :: c in r.candidates && c.poiId == p && !c.mustDo
  }

  /** No variant of the candidate fits anywhere. */
  ghost predicate FitsNowhere(r: Request, routes: Routes, c: Candidate) {
    !exists i: nat, position: nat :: Fits(r, routes, VariantsOf(r, c), i, position)
  }

  /** `best` is a cheapest insertion of the candidate, and `after` has it in place. */
  ghost predicate PlacedAt(r: Request, c: Candidate, before: Routes, after: Routes, best: Placement) {
    && IsCheapest(r, before, VariantsOf(r, c), best)
    && after == before[best.dayIndex := Inserted(before[best.dayIndex], best.position, best.variant)]
  }

  /** One turn of the placing loop. */
  ghost predicate PlacingStep(r: Request, c: Candidate, before: Routes, after: Routes) {
    (FitsNowhere(r, before, c) && after == before) || exists best :: PlacedAt(r, c, before, after, best)
  }

  /** The routes after each candidate, starting from empty days. */
  ghost predicate PlacingRun(r: Request, cs: seq<Candidate>, states: seq<Routes>) {
    && |states| == |cs| + 1 && states[0] == (map d | d in r.days :: d.dayIndex := [])
    && forall i, n | 0 <= i < |cs| && n == i + 1 :: PlacingStep(r, cs[i], states[i], states[n])
  }

  /** No must-do of the run was turned away. */
  ghost predicate Unblocked(r: Request, cs: seq<Candidate>, states: seq<Routes>) {
    forall i | 0 <= i < |cs| && i < |states| && cs[i].mustDo :: !FitsNowhere(r, states[i], cs[i])
  }

  lemma UnblockedExtends(r: Request, cs: seq<Candidate>, states: seq<Routes>, c: Candidate, after: Routes)
    requires Unblocked(r, cs, states) && |states| == |cs| + 1
    requires c.mustDo ==> !FitsNowhere(r, states[|cs|], c)
    ensures Unblocked(r, cs + [c], states + [after])
  {
    hide FitsNowhere;
  }

  lemma PlacingRunExtends(r: Request, cs: seq<Candidate>, states: seq<Routes>, c: Candidate, after: Routes)
    requires PlacingRun(r, cs, states) && PlacingStep(r, c, states[|cs|], after)
    ensures PlacingRun(r, cs + [c], states + [after])
  {
    hide PlacingStep;
  }

  lemma VariantsKnowTheirDay(r: Request, routes: Routes, c: Candidate)
    requires HasRoutes(routes, r.days)
    ensures CoversDays(routes, VariantsOf(r, c))
    ensures forall v | v in VariantsOf(r, c) :: v.candidate == c && KnownDay(r, v.dayIndex)
  {
    ExpansionIsSound(r, c);
    forall v | v in VariantsOf(r, c)
      ensures v.candidate == c && KnownDay(r, v.dayIndex) && v.dayIndex in routes
    {
      assert IsVariantOf(r, c, v);
      VariantHasRoom(r, c, v);
    }
  }

  lemma PlacingKeepsRoutes(r: Request, routes: Routes, c: Candidate, best: Placement) returns (n: nat)
    requires ValidRequest(r) && GoodRoutes(r, routes) && c in r.candidates
    requires IsFit(r, routes, VariantsOf(r, c), best)
    ensures n < |r.days| && r.days[n].dayIndex == best.dayIndex && best.variant.candidate == c
    ensures GoodRoutes(r, routes[best.dayIndex := Inserted(routes[best.dayIndex], best.position, best.variant)])
  {
    hide Materialized, VariantsOf;
    VariantsKnowTheirDay(r, routes, c);
    var day := DayFor(r.days, best.dayIndex);
    n :| n < |r.days| && r.days[n] == day;
    var route := Inserted(routes[best.dayIndex], best.position, best.variant);
    var after := routes[best.dayIndex := route];
    forall v | v in route
      ensures Belongs(r, day.dayIndex, v)
    {
    }
    forall d | d in r.days
      ensures GoodRoute(r, d, after[d.dayIndex])
    {
      if d.dayIndex == best.dayIndex {
        DayForIsUnique(r, d);
      }
    }
  }

  lemma PlacingAccounts(r: Request, routes: Routes, unscheduled: seq<PoiId>, cs: seq<Candidate>, n: nat,
                        best: Placement)
    requires ValidRequest(r) && HasRoutes(routes, r.days) && Accounted(r, routes, unscheduled, cs)
    requires n < |r.days| && r.days[n].dayIndex == best.dayIndex && best.position <= |routes[best.dayIndex]|
    ensures var after := routes[best.dayIndex := Inserted(routes[best.dayIndex], best.position, best.variant)];
      HasRoutes(after, r.days) && Accounted(r, after, unscheduled, cs + [best.variant.candidate])
  {
    hide Times, TimesInAll;
    var route, c := Inserted(routes[best.dayIndex], best.position, best.variant), best.variant.candidate;
    forall p
      ensures HasRoutes(routes[best.dayIndex := route], r.days)
      ensures TimesInAll(routes[best.dayIndex := route], r.days, p) + Occurs(unscheduled, p) == Asked(cs + [c], p)
    {
      AskedExtends(cs, c, p);
      TimesUpdate(routes, r.days, n, route, p);
      TimesInserted(routes[best.dayIndex], best.position, best.variant, p);
    }
  }

  lemma SkippingAccounts(r: Request, routes: Routes, unscheduled: seq<PoiId>, cs: seq<Candidate>, c: Candidate)
    requires HasRoutes(routes, r.days) && Accounted(r, routes, unscheduled, cs)
    ensures Accounted(r, routes, unscheduled + [c.poiId], cs + [c])
  {
    hide TimesInAll, Asked;
    forall p
      ensures TimesInAll(routes, r.days, p) + Occurs(unscheduled + [c.poiId], p) == Asked(cs + [c], p)
    {
      AskedExtends(cs, c, p);
    }
  }

  /** What the placing loop has achieved for the candidates so far. */
  ghost predicate PlacedSoFar(r: Request, cs: seq<Candidate>, routes: Routes, unscheduled: seq<PoiId>,
                              states: seq<Routes>) {
    && GoodRoutes(r, routes) && OnlyOptional(r, unscheduled) && Accounted(r, routes, unscheduled, cs)
    && |states| == |cs| + 1 && states[|cs|] == routes && PlacingRun(r, cs, states) && Unblocked(r, cs, states)
  }

  /** The routes with a placement carried out. */
  function WithPlacement(routes: Routes, best: Placement): Routes
    requires best.dayIndex in routes && best.position <= |routes[best.dayIndex]|
  {
    routes[best.dayIndex := Inserted(routes[best.dayIndex], best.position, best.variant)]
  }

  lemma PlacesOne(r: Request, cs: seq<Candidate>, routes: Routes, unscheduled: seq<PoiId>, states: seq<Routes>,
                  c: Candidate, best: Placement)
    requires ValidRequest(r) && PlacedSoFar(r, cs, routes, unscheduled, states) && c in r.candidates
    requires IsCheapest(r, routes, VariantsOf(r, c), best)
    ensures best.dayIndex in routes && best.position <= |routes[best.dayIndex]|
    ensures var after := WithPlacement(routes, best); PlacedSoFar(r, cs + [c], after, unscheduled, states + [after])
  {
    hide Materialized, VariantsOf, TimesInAll, GoodRoutes, FitsNowhere, Fits, Accounted, IsFit, IsCheapest,
         OnlyOptional, PlacingRun, PlacingStep, Unblocked;
    GoodRoutesAreValid(r, routes);
    CheapestFits(r, routes, VariantsOf(r, c), best);
    var n := PlacingKeepsRoutes(r, routes, c, best);
    PlacingAccounts(r, routes, unscheduled, cs, n, best);
    FitsSomewhere(r, routes, c, best);
    UnblockedExtends(r, cs, states, c, WithPlacement(routes, best));
    PlacedStep(r, c, routes, best);
    PlacingRunExtends(r, cs, states, c, WithPlacement(routes, best));
  }

  lemma SkipsOne(r: Request, cs: seq<Candidate>, routes: Routes, unscheduled: seq<PoiId>, states: seq<Routes>,
                 c: Candidate)
    requires PlacedSoFar(r, cs, routes, unscheduled, states) && c in r.candidates && !c.mustDo
    requires FitsNowhere(r, routes, c)
    ensures PlacedSoFar(r, cs + [c], routes, unscheduled + [c.poiId], states + [routes])
  {
    hide GoodRoutes, FitsNowhere, Accounted, OnlyOptional, PlacingRun, PlacingStep, Unblocked;
    GoodRoutesAreValid(r, routes);
    SkippingAccounts(r, routes, unscheduled, cs, c);
    OnlyOptionalExtends(r, unscheduled, c);
    UnblockedExtends(r, cs, states, c, routes);
    SkippedStep(r, c, routes);
    PlacingRunExtends(r, cs, states, c, routes);
  }

  lemma SoFarMeans(r: Request, cs: seq<Candidate>, routes: Routes, unscheduled: seq<PoiId>, states: seq<Routes>)
    requires PlacedSoFar(r, cs, routes, unscheduled, states)
    ensures ValidRoutes(r, routes) && HasRoutes(routes, r.days)
    ensures GoodRoutes(r, routes) && OnlyOptional(r, unscheduled) && Accounted(r, routes, unscheduled, cs)
  {}

  /** The placing loop. */
  method PlaceAll(r: Request, expanded: map<PoiId, seq<Variant>>)
    returns (routes: Routes, unscheduled: seq<PoiId>, blocking: Option<Candidate>, ghost states: seq<Routes>)
    requires ValidRequest(r)
    requires forall c | c in r.candidates :: c.poiId in expanded && expanded[c.poiId] == VariantsOf(r, c)
    ensures GoodRoutes(r, routes) && OnlyOptional(r, unscheduled)
    ensures blocking.None? ==> Accounted(r, routes, unscheduled, PlacingOrder(r))
    ensures 0 < |states| <= |PlacingOrder(r)| + 1
    ensures PlacedSoFar(r, PlacingOrder(r)[..|states| - 1], routes, unscheduled, states)
    ensures blocking.None? ==> |states| == |PlacingOrder(r)| + 1
    ensures blocking.Some? ==>
      && |states| <= |PlacingOrder(r)| && PlacingOrder(r)[|states| - 1] == blocking.value
      && blocking.value in r.candidates && blocking.value.mustDo && FitsNowhere(r, routes, blocking.value)
  {
    hide Materialized, VariantsOf, PlacingOrder, FitsNowhere, IsCheapest, PlacedSoFar, GoodRoutes, Accounted,
         OnlyOptional;
    routes := map d | d in r.days :: d.dayIndex := [];
    unscheduled, blocking, states := [], None, [routes];
    NothingPlacedYet(r, routes);
    var order := PlacingOrder(r);
    OrderIsPermutation(r);
    for i := 0 to |order|
      invariant |states| == i + 1 && PlacedSoFar(r, order[..i], routes, unscheduled, states)
    {
      var c := order[i];
      assert c in r.candidates by { assert c in multiset(order); }
      assert order[..i + 1] == order[..i] + [c];
      SoFarMeans(r, order[..i], routes, unscheduled, states);
      VariantsKnowTheirDay(r, routes, c);
      var insertion := BestInsertion(r, routes, expanded[c.poiId]);
      if insertion.None? {
        FitsNowhereMeans(r, routes, c);
        if c.mustDo {
          return routes, unscheduled, Some(c), states;
        }
        SkipsOne(r, order[..i], routes, unscheduled, states, c);
        unscheduled := unscheduled + [c.poiId];
        states := states + [routes];
        continue;
      }
      PlacesOne(r, order[..i], routes, unscheduled, states, c, insertion.value);
      routes := WithPlacement(routes, insertion.value);
      states := states + [routes];
    }
    assert order[..|order|] == order;
    SoFarMeans(r, order, routes, unscheduled, states);
  }

  lemma SkippedStep(r: Request, c: Candidate, routes: Routes)
    requires FitsNowhere(r, routes, c)
    ensures PlacingStep(r, c, routes, routes)
  {}

  lemma PlacedStep(r: Request, c: Candidate, routes: Routes, best: Placement)
    requires IsCheapest(r, routes, VariantsOf(r, c), best)
    ensures best.dayIndex in routes && best.position <= |routes[best.dayIndex]|
    ensures PlacingStep(r, c, routes,
        routes[best.dayIndex := Inserted(routes[best.dayIndex], best.position, best.variant)])
  {
    hide VariantsOf, Proposal;
    assert PlacedAt(r, c, routes,
        routes[best.dayIndex := Inserted(routes[best.dayIndex], best.position, best.variant)], best);
  }

  lemma NothingPlacedYet(r: Request, routes: Routes)
    requires routes == map d | d in r.days :: d.dayIndex := []
    ensures PlacedSoFar(r, [], routes, [], [routes])
  {
    forall p
      ensures TimesInAll(routes, r.days, p) == 0
    {
      NoVisitsYet(routes, r.days, p);
    }
  }

  lemma GoodRoutesAreValid(r: Request, routes: Routes)
    requires GoodRoutes(r, routes)
    ensures ValidRoutes(r, routes) && HasRoutes(routes, r.days)
  {}

  lemma FitsNowhereMeans(r: Request, routes: Routes, c: Candidate)
    requires !exists i: nat, position: nat :: Fits(r, routes, VariantsOf(r, c), i, position)
    ensures FitsNowhere(r, routes, c)
  {}

  lemma FitsSomewhere(r: Request, routes: Routes, c: Candidate, best: Placement)
    requires IsFit(r, routes, VariantsOf(r, c), best)
    ensures !FitsNowhere(r, routes, c)
  {
    hide VariantsOf, Proposal;
    var i :| 0 <= i < |VariantsOf(r, c)| && VariantsOf(r, c)[i] == best.variant;
    assert Fits(r, routes, VariantsOf(r, c), i, best.position);
  }

  lemma OnlyOptionalExtends(r: Request, unscheduled: seq<PoiId>, c: Candidate)
    requires OnlyOptional(r, unscheduled) && c in r.candidates && !c.mustDo
    ensures OnlyOptional(r, unscheduled + [c.poiId])
  {}

  lemma CheapestFits(r: Request, routes: Routes, variants: seq<Variant>, best: Placement)
    requires IsCheapest(r, routes, variants, best)
    ensures IsFit(r, routes, variants, best)
    ensures best.dayIndex in routes && best.position <= |routes[best.dayIndex]|
  {}

  // ------------------------------------------------------------- improving each day

  /** What 2-opt leaves on a day. */
  ghost predicate Improved(r: Request, day: Day, route: seq<Variant>) {
    |route| >= 4 ==> TwoOpt.NoneInSearchImproves(r, day, route)
  }

  /** The improved route of a day against the one it started from. */
  ghost predicate ImprovedFrom(r: Request, day: Day, before: seq<Variant>, after: seq<Variant>) {
    && multiset(after) == multiset(before) && Improved(r, day, after) && TwoOpt.Polished(r, day, before, after)
    && Materialized(r, day, after).travelSeconds <= Materialized(r, day, before).travelSeconds
    && (Improved(r, day, before) ==> after == before)
  }

  lemma PermutedRouteIsGood(r: Request, day: Day, before: seq<Variant>, after: seq<Variant>)
    requires GoodRoute(r, day, before) && multiset(after) == multiset(before)
    requires after == before || Materialized(r, day, after).feasible
    ensures GoodRoute(r, day, after)
  {
    hide Materialized, Belongs;
    forall v | v in after
      ensures Belongs(r, day.dayIndex, v)
    {
      assert v in multiset(before);
    }
  }

  lemma ReplacingKeepsRoutes(r: Request, routes: Routes, n: nat, route: seq<Variant>)
    requires ValidRequest(r) && GoodRoutes(r, routes) && n < |r.days| && GoodRoute(r, r.days[n], route)
    ensures GoodRoutes(r, routes[r.days[n].dayIndex := route])
  {
    hide Materialized, Belongs;
    forall d | d in r.days && d.dayIndex == r.days[n].dayIndex
      ensures d == r.days[n]
    {
      SameIndexSameDay(r.days, d, r.days[n]);
    }
  }

  lemma ReplacingAccounts(r: Request, routes: Routes, unscheduled: seq<PoiId>, cs: seq<Candidate>, n: nat,
                          route: seq<Variant>)
    requires ValidRequest(r) && HasRoutes(routes, r.days) && Accounted(r, routes, unscheduled, cs)
    requires n < |r.days| && multiset(route) == multiset(routes[r.days[n].dayIndex])
    ensures HasRoutes(routes[r.days[n].dayIndex := route], r.days)
    ensures Accounted(r, routes[r.days[n].dayIndex := route], unscheduled, cs)
  {
    hide TimesInAll;
    forall p
      ensures HasRoutes(routes[r.days[n].dayIndex := route], r.days)
      ensures TimesInAll(routes[r.days[n].dayIndex := route], r.days, p) == TimesInAll(routes, r.days, p)
    {
      TimesUpdate(routes, r.days, n, route, p);
      CountPermuted(route, routes[r.days[n].dayIndex], Visiting(p));
    }
  }

  method ImproveAll(r: Request, placed: Routes, ghost unscheduled: seq<PoiId>, ghost cs: seq<Candidate>)
    returns (routes: Routes)
    requires ValidRequest(r) && GoodRoutes(r, placed) && Accounted(r, placed, unscheduled, cs)
    ensures GoodRoutes(r, routes) && Accounted(r, routes, unscheduled, cs)
    ensures forall d | d in r.days :: ImprovedFrom(r, d, placed[d.dayIndex], routes[d.dayIndex])
  {
    hide Materialized, GoodRoute, Accounted, TimesInAll, ImprovedFrom;
    routes := placed;
    for n := 0 to |r.days|
      invariant GoodRoutes(r, routes) && Accounted(r, routes, unscheduled, cs)
      invariant forall m | 0 <= m < n ::
        ImprovedFrom(r, r.days[m], placed[r.days[m].dayIndex], routes[r.days[m].dayIndex])
      invariant forall m | n <= m < |r.days| :: routes[r.days[m].dayIndex] == placed[r.days[m].dayIndex]
    {
      var day := r.days[n];
      var route := TwoOpt.Improve(r, day, routes[day.dayIndex]);
      PermutedRouteIsGood(r, day, routes[day.dayIndex], route);
      ImprovedMeans(r, day, routes[day.dayIndex], route);
      ReplacingKeepsRoutes(r, routes, n, route);
      ReplacingAccounts(r, routes, unscheduled, cs, n, route);
      assert forall m | 0 <= m < |r.days| && m != n :: r.days[m].dayIndex != day.dayIndex;
      routes := routes[day.dayIndex := route];
    }
  }

  lemma ImprovedMeans(r: Request, day: Day, before: seq<Variant>, after: seq<Variant>)
    requires multiset(after) == multiset(before)
    requires Materialized(r, day, after).travelSeconds <= Materialized(r, day, before).travelSeconds
    requires TwoOpt.Polished(r, day, before, after) && (|before| < 4 ==> after == before)
    requires |before| >= 4 ==> TwoOpt.NoneInSearchImproves(r, day, after)
    requires TwoOpt.NoneInSearchImproves(r, day, before) ==> after == before
    ensures ImprovedFrom(r, day, before, after)
  {
    hide Materialized, TwoOpt.Polished, TwoOpt.NoneInSearchImproves;
    assert |multiset(after)| == |after| && |multiset(before)| == |before|;
  }

  // ------------------------------------------------------------- emission

  /** By arrival time; at equal times a meal before a visit. */
  predicate StopBefore(x: Planned, y: Planned) {
    x.arrive < y.arrive || (x.arrive == y.arrive && (x.poi.None? || y.poi.Some?))
  }

  function PlannedVisit(v: Visit): Planned {
    Planned(v.arrive, v.depart, Some(v.variant.candidate.poiId))
  }

  function PlannedVisits(visits: seq<Visit>): (stops: seq<Planned>)
    ensures |stops| == |visits| && forall k | 0 <= k < |visits| :: stops[k] == PlannedVisit(visits[k])
  {
    seq(|visits|, k requires 0 <= k < |visits| => PlannedVisit(visits[k]))
  }

  function Numbered(stops: seq<Planned>): (numbered: seq<Stop>)
    ensures |numbered| == |stops|
    ensures forall k | 0 <= k < |stops| :: numbered[k] == Stop(Some(k), stops[k].arrive, stops[k].depart, stops[k].poi)
  {
    seq(|stops|, k requires 0 <= k < |stops| => Stop(Some(k), stops[k].arrive, stops[k].depart, stops[k].poi))
  }

  function PrizeOfVisits(visits: seq<Visit>): nat {
    if visits == [] then 0 else PrizeOfVisits(visits[..|visits| - 1]) + visits[|visits| - 1].variant.prize
  }

  /** The prizes of a route's variants. */
  ghost function RoutePrize(route: seq<Variant>): nat {
    if route == [] then 0 else route[0].prize + RoutePrize(route[1..])
  }

  lemma {:induction false} RoutePrizeAdds(a: seq<Variant>, b: seq<Variant>)
    ensures RoutePrize(a + b) == RoutePrize(a) + RoutePrize(b)
    ensures forall v: Variant :: RoutePrize([v]) == v.prize
  {
    if a == [] {
      assert a + b == b;
    } else {
      RoutePrizeAdds(a[1..], b);
      assert (a + b)[1..] == a[1..] + b;
    }
  }

  lemma {:induction false} RoutePrizePermuted(a: seq<Variant>, b: seq<Variant>)
    requires multiset(a) == multiset(b)
    ensures RoutePrize(a) == RoutePrize(b)
    decreases |a|
  {
    if a == [] {
      assert |multiset(b)| == 0;
    } else {
      assert a[0] in multiset(b);
      var i: nat :| i < |b| && b[i] == a[0];
      SameWithout(a, b, 0, i);
      RoutePrizePermuted(Without(a, 0), Without(b, i));
      RoutePrizeWithout(a, 0);
      RoutePrizeWithout(b, i);
    }
  }

  lemma {:induction false} RoutePrizeWithout(route: seq<Variant>, i: nat)
    requires i < |route|
    ensures RoutePrize(route) == RoutePrize(Without(route, i)) + route[i].prize
  {
    if i == 0 {
      assert Without(route, 0) == route[1..];
    } else {
      RoutePrizeWithout(route[1..], i - 1);
      assert Without(route, i)[1..] == Without(route[1..], i - 1);
    }
  }

  /** The visits of a feasible route earn what its variants are worth. */
  lemma VisitsEarnRoutePrize(r: Request, day: Day, route: seq<Variant>)
    requires GoodRoute(r, day, route)
    ensures PrizeOfVisits(Materialized(r, day, route).visits) == RoutePrize(route)
  {
    hide Earliest, LegInto, Belongs, FirstLate;
    var visits := Materialized(r, day, route).visits;
    if route != [] {
      assert forall k | 0 <= k < |route| :: visits[k].variant == route[k];
      VisitsEarn(visits, route);
    }
  }

  lemma {:induction false} VisitsEarn(visits: seq<Visit>, route: seq<Variant>)
    requires |visits| == |route| && forall k | 0 <= k < |route| :: visits[k].variant == route[k]
    ensures PrizeOfVisits(visits) == RoutePrize(route)
  {
    if visits == [] {
    } else {
      var n := |visits| - 1;
      VisitsEarn(visits[..n], route[..n]);
      RoutePrizeAdds(route[..n], [route[n]]);
      assert route == route[..n] + [route[n]];
    }
  }

  /** The prizes of all routes. */
  ghost function TotalPrize(routes: Routes, days: seq<Day>): nat
    requires HasRoutes(routes, days)
  {
    if days == [] then 0 else RoutePrize(routes[days[0].dayIndex]) + TotalPrize(routes, days[1..])
  }

  lemma {:induction false} TotalPrizeAdds(routes: Routes, a: seq<Day>, b: seq<Day>)
    requires HasRoutes(routes, a + b)
    ensures HasRoutes(routes, a) && HasRoutes(routes, b)
    ensures TotalPrize(routes, a + b) == TotalPrize(routes, a) + TotalPrize(routes, b)
  {
    assert forall d | d in a :: d in a + b;
    assert forall d | d in b :: d in a + b;
    if a == [] {
      assert a + b == b;
    } else {
      assert (a + b)[1..] == a[1..] + b;
      TotalPrizeAdds(routes, a[1..], b);
    }
  }

  /** The days' objective is the total prize. */
  lemma {:induction false} DaysEarnTotalPrize(r: Request, routes: Routes, n: nat)
    requires GoodRoutes(r, routes) && n <= |r.days|
    ensures HasRoutes(routes, r.days[..n]) && PrizeOfDays(r, routes, n) == TotalPrize(routes, r.days[..n])
  {
    hide Materialized, GoodRoute;
    if n == 0 {
    } else {
      var day := r.days[n - 1];
      DaysEarnTotalPrize(r, routes, n - 1);
      VisitsEarnRoutePrize(r, day, routes[day.dayIndex]);
      assert r.days[..n] == r.days[..n - 1] + [day];
      TotalPrizeAdds(routes, r.days[..n - 1], [day]);
    }
  }

  /** Routes that are permutations of each other day by day are worth the same. */
  lemma {:induction false} TotalPrizePermuted(a: Routes, b: Routes, days: seq<Day>)
    requires HasRoutes(a, days) && HasRoutes(b, days)
    requires forall d | d in days :: multiset(a[d.dayIndex]) == multiset(b[d.dayIndex])
    ensures TotalPrize(a, days) == TotalPrize(b, days)
  {
    if days == [] {
    } else {
      RoutePrizePermuted(a[days[0].dayIndex], b[days[0].dayIndex]);
      TotalPrizePermuted(a, b, days[1..]);
    }
  }

  /** Placing a visit adds exactly its prize, on whatever day and at whatever position. */
  lemma {:induction false} PlacementEarnsItsPrize(routes: Routes, days: seq<Day>, n: nat, best: Placement)
    requires HasRoutes(routes, days) && DistinctDays(days) && n < |days| && days[n].dayIndex == best.dayIndex
    requires best.position <= |routes[best.dayIndex]|
    ensures HasRoutes(WithPlacement(routes, best), days)
    ensures TotalPrize(WithPlacement(routes, best), days) == TotalPrize(routes, days) + best.variant.prize
  {
    hide Inserted;
    var after := WithPlacement(routes, best);
    if n == 0 {
      InsertedPrize(routes[best.dayIndex], best.position, best.variant);
      forall d | d in days[1..]
        ensures after[d.dayIndex] == routes[d.dayIndex]
      {
        var i :| 0 <= i < |days[1..]| && days[1..][i] == d;
        assert days[i + 1] == d;
      }
      TotalPrizePermuted(after, routes, days[1..]);
    } else {
      assert days[1..][n - 1] == days[n] && days[0].dayIndex != best.dayIndex;
      PlacementEarnsItsPrize(routes, days[1..], n - 1, best);
    }
  }

  lemma InsertedPrize(route: seq<Variant>, position: nat, v: Variant)
    requires position <= |route|
    ensures RoutePrize(Inserted(route, position, v)) == RoutePrize(route) + v.prize
  {
    assert route == route[..position] + route[position..];
    RoutePrizeAdds(route[..position], route[position..]);
    RoutePrizeAdds(route[..position] + [v], route[position..]);
    RoutePrizeAdds(route[..position], [v]);
  }

  predicate MealsOff(r: Request) {
    !r.options.meals.enabled || r.options.meals.countPerDay == 0
  }

  /** The emitted day: visits and meals by time, numbered from zero. */
  ghost predicate EmittedFor(r: Request, day: Day, route: seq<Variant>, plan: DayPlan, meals: seq<Planned>) {
    && plan == DayPlan(Some(day.dayIndex),
        Numbered(SortBy(PlannedVisits(Materialized(r, day, route).visits) + meals, StopBefore)))
    && (MealsOff(r) ==> meals == [])
  }

  method PlanVisits(visits: seq<Visit>) returns (stops: seq<Planned>, prize: nat)
    ensures stops == PlannedVisits(visits) && prize == PrizeOfVisits(visits)
  {
    stops, prize := [], 0;
    assert visits[..|visits|] == visits;
    for k := 0 to |visits|
      invariant |stops| == k && forall i | 0 <= i < k :: stops[i] == PlannedVisit(visits[i])
      invariant prize == PrizeOfVisits(visits[..k])
    {
      assert visits[..k + 1][..k] == visits[..k];
      prize := prize + visits[k].variant.prize;
      stops := stops + [PlannedVisit(visits[k])];
    }
  }

  method NumberStops(stops: seq<Planned>) returns (numbered: seq<Stop>)
    ensures numbered == Numbered(stops)
  {
    numbered := [];
    for k := 0 to |stops|
      invariant |numbered| == k && forall i | 0 <= i < k ::
        numbered[i] == Stop(Some(i), stops[i].arrive, stops[i].depart, stops[i].poi)
    {
      numbered := numbered + [Stop(Some(k), stops[k].arrive, stops[k].depart, stops[k].poi)];
    }
  }

  method EmitDay(r: Request, day: Day, route: seq<Variant>)
    returns (plan: DayPlan, prize: nat, ghost meals: seq<Planned>, ghost chosen: seq<Option<Planned>>)
    requires r.options.meals.durationMin > 0
    ensures EmittedFor(r, day, route, plan, meals) && meals == Present(chosen)
    ensures Chronological(Materialized(r, day, route).visits) ==>
      MealsFor(r, day, Materialized(r, day, route).visits, Windows(r, day), chosen)
    ensures prize == PrizeOfVisits(Materialized(r, day, route).visits)
  {
    hide Materialized, MealsFor, Windows, Present, SortBy, PlannedVisits, Numbered, PrizeOfVisits, Chronological;
    var attempt := Materialize(r, day, route);
    var stops;
    stops, prize := PlanVisits(attempt.visits);
    var mealStops;
    mealStops, chosen := MealStops(r, day, attempt.visits);
    meals := mealStops;
    var numbered := NumberStops(SortBy(stops + mealStops, StopBefore));
    plan := DayPlan(Some(day.dayIndex), numbered);
  }

  // ------------------------------------------------------------- the solver

  /** The day as emitted, with meals that are exact first fits. */
  ghost predicate EmittedDay(r: Request, day: Day, route: seq<Variant>, plan: DayPlan) {
    exists chosen: seq<Option<Planned>> ::
      && EmittedFor(r, day, route, plan, Present(chosen))
      && MealsFor(r, day, Materialized(r, day, route).visits, Windows(r, day), chosen)
  }

  ghost predicate EmittedPlans(r: Request, routes: Routes, plans: seq<DayPlan>)
    requires HasRoutes(routes, r.days)
  {
    |plans| == |r.days| && forall n | 0 <= n < |plans| :: EmittedDay(r, r.days[n], routes[r.days[n].dayIndex], plans[n])
  }

  ghost function PrizeOfDays(r: Request, routes: Routes, n: nat): nat
    requires HasRoutes(routes, r.days) && n <= |r.days|
  {
    if n == 0 then 0
    else
      var day := r.days[n - 1];
      PrizeOfDays(r, routes, n - 1) + PrizeOfVisits(Materialized(r, day, routes[day.dayIndex]).visits)
  }

  /** Feasible visits follow each other without overlap. */
  lemma GoodRouteIsChronological(r: Request, day: Day, route: seq<Variant>)
    requires ValidRequest(r) && GoodRoute(r, day, route)
    ensures Chronological(Materialized(r, day, route).visits)
  {
    hide Belongs, LegInto, VariantsOf;
    var visits := Materialized(r, day, route).visits;
    if visits != [] {
      forall k | 0 <= k < |visits|
        ensures visits[k].arrive < visits[k].depart
      {
        BelongsMeans(r, day.dayIndex, route[k]);
      }
      forall i, j | 0 <= i < j < |visits|
        ensures visits[i].depart <= visits[j].arrive
      {
        VisitsFollow(r, day, route, i, j);
      }
    }
  }

  lemma BelongsMeans(r: Request, d: nat, v: Variant)
    requires Belongs(r, d, v)
    ensures v.dayIndex == d && v.candidate in r.candidates && v.durationMin >= v.candidate.durationMin
  {
    ExpansionIsSound(r, v.candidate);
    assert IsVariantOf(r, v.candidate, v);
    VariantHasRoom(r, v.candidate, v);
  }

  lemma {:induction false} VisitsFollow(r: Request, day: Day, route: seq<Variant>, i: nat, j: nat)
    requires i < j < |route|
    ensures EarliestVisit(r.matrix, day, route, i).depart <= EarliestVisit(r.matrix, day, route, j).arrive
  {
    hide LegInto;
    TimeOnlyMovesForward(r.matrix, day, route, i + 1, j);
  }

  method EmitGoodDay(r: Request, day: Day, route: seq<Variant>) returns (plan: DayPlan, prize: nat)
    requires ValidRequest(r) && r.options.meals.durationMin > 0 && GoodRoute(r, day, route)
    ensures EmittedDay(r, day, route, plan) && prize == PrizeOfVisits(Materialized(r, day, route).visits)
  {
    hide Materialized, GoodRoute, EmittedDay, EmittedFor, MealsFor, Chronological, Present;
    ghost var meals, chosen;
    plan, prize, meals, chosen := EmitDay(r, day, route);
    GoodRouteIsChronological(r, day, route);
    EmittedDayHolds(r, day, route, plan, chosen);
  }

  method EmitAll(r: Request, routes: Routes) returns (plans: seq<DayPlan>, objective: nat)
    requires ValidRequest(r) && r.options.meals.durationMin > 0 && GoodRoutes(r, routes)
    ensures EmittedPlans(r, routes, plans) && objective == PrizeOfDays(r, routes, |r.days|)
  {
    hide Materialized, GoodRoute, EmittedDay, EmittedFor, MealsFor, Chronological, Present;
    plans, objective := [], 0;
    for n := 0 to |r.days|
      invariant |plans| == n && forall m | 0 <= m < n :: EmittedDay(r, r.days[m], routes[r.days[m].dayIndex], plans[m])
      invariant objective == PrizeOfDays(r, routes, n)
    {
      var day := r.days[n];
      var plan, prize := EmitGoodDay(r, day, routes[day.dayIndex]);
      plans := plans + [plan];
      objective := objective + prize;
    }
  }

  /** `solve_greedy`; the final routes, which the response leaves out, come along. */
  method SolveGreedy(r: Request) returns (solution: Solution, routes: Routes, ghost states: seq<Routes>)
    requires ValidRequest(r) && r.options.meals.durationMin > 0
    ensures GoodRoutes(r, routes) && RightOrder(r, PlacingOrder(r))
    ensures solution.Infeasible? ==>
      exists c :: c in r.candidates && c.poiId == solution.blocking && c.mustDo && FitsNowhere(r, routes, c)
    ensures solution.Infeasible? ==>
      && 0 < |states| <= |PlacingOrder(r)| && PlacingRun(r, PlacingOrder(r)[..|states| - 1], states)
      && routes == states[|states| - 1] && PlacingOrder(r)[|states| - 1].poiId == solution.blocking
      && PlacingOrder(r)[|states| - 1].mustDo && FitsNowhere(r, routes, PlacingOrder(r)[|states| - 1])
    ensures 0 < |states| <= |PlacingOrder(r)| + 1 && Unblocked(r, PlacingOrder(r)[..|states| - 1], states)
    ensures solution.Feasible? ==>
      && Accounted(r, routes, solution.unscheduled, r.candidates)
      && OnlyOptional(r, solution.unscheduled) && SortedBy(solution.unscheduled, AtMost)
      && |states| == |PlacingOrder(r)| + 1
      && PlacingRun(r, PlacingOrder(r), states) && HasRoutes(states[|states| - 1], r.days)
      && (forall d | d in r.days :: ImprovedFrom(r, d, states[|states| - 1][d.dayIndex], routes[d.dayIndex]))
      && EmittedPlans(r, routes, solution.plans)
      && solution.objective == PrizeOfDays(r, routes, |r.days|)
      && solution.objective == TotalPrize(routes, r.days) == TotalPrize(states[|states| - 1], r.days)
  {
    hide Materialized, GoodRoute, Accounted, TimesInAll, ImprovedFrom, VariantsOf, FitsNowhere, EmittedDay,
         PlacingOrder, PlacingRun, SortBy, EmittedFor, MealsFor, Chronological, OnlyOptional, Present, Unblocked,
         SortedBy, Total, RanksBefore, TotalPrize, PrizeOfDays;
    OrderRanks(r);
    var expanded := ExpandVariants(r);
    var placed, unscheduled, blocking;
    placed, unscheduled, blocking, states := PlaceAll(r, expanded);
    if blocking.Some? {
      return Infeasible(blocking.value.poiId), placed, states;
    }
    assert PlacingOrder(r)[..|PlacingOrder(r)|] == PlacingOrder(r);
    OrderIsPermutation(r);
    AccountedPermuted(r, placed, unscheduled, PlacingOrder(r), r.candidates);
    var improved := ImproveAll(r, placed, unscheduled, r.candidates);
    routes := improved;
    var plans, objective := EmitAll(r, improved);
    DaysEarnTotalPrize(r, routes, |r.days|);
    assert r.days[..|r.days|] == r.days;
    ImprovedArePermuted(r, placed, routes);
    TotalPrizePermuted(placed, routes, r.days);
    var listed := SortBy(unscheduled, AtMost);
    IdOrderIsTotal();
    SortBySorts(unscheduled, AtMost);
    AccountedListed(r, routes, unscheduled, listed, r.candidates);
    OnlyOptionalListed(r, unscheduled, listed);
    solution := Feasible(plans, listed, objective);
  }

  lemma ImprovedArePermuted(r: Request, placed: Routes, routes: Routes)
    requires HasRoutes(placed, r.days) && HasRoutes(routes, r.days)
    requires forall d | d in r.days :: ImprovedFrom(r, d, placed[d.dayIndex], routes[d.dayIndex])
    ensures forall d | d in r.days :: multiset(placed[d.dayIndex]) == multiset(routes[d.dayIndex])
  {}

  lemma IdOrderIsTotal()
    ensures Total(AtMost)
  {
    forall x: string, y: string
      ensures AtMost(x, y) || AtMost(y, x)
    {
      LessAsymmetric(x, y);
    }
    forall x: string, y: string, z: string | AtMost(x, y) && AtMost(y, z)
      ensures AtMost(x, z)
    {
      AtMostTransitive(x, y, z);
    }
  }

  lemma EmittedDayHolds(r: Request, day: Day, route: seq<Variant>, plan: DayPlan, chosen: seq<Option<Planned>>)
    requires EmittedFor(r, day, route, plan, Present(chosen))
    requires MealsFor(r, day, Materialized(r, day, route).visits, Windows(r, day), chosen)
    ensures EmittedDay(r, day, route, plan)
  {}

  lemma AccountedPermuted(r: Request, routes: Routes, unscheduled: seq<PoiId>, a: seq<Candidate>, b: seq<Candidate>)
    requires HasRoutes(routes, r.days) && Accounted(r, routes, unscheduled, a) && multiset(a) == multiset(b)
    ensures Accounted(r, routes, unscheduled, b)
  {
    hide TimesInAll;
    forall p
      ensures Asked(a, p) == Asked(b, p)
    {
      CountPermuted(a, b, Naming(p));
    }
  }

  lemma AccountedListed(r: Request, routes: Routes, a: seq<PoiId>, b: seq<PoiId>, cs: seq<Candidate>)
    requires HasRoutes(routes, r.days) && Accounted(r, routes, a, cs) && multiset(a) == multiset(b)
    ensures Accounted(r, routes, b, cs)
  {
    hide TimesInAll;
  }

  lemma OnlyOptionalListed(r: Request, a: seq<PoiId>, b: seq<PoiId>)
    requires OnlyOptional(r, a) && multiset(a) == multiset(b)
    ensures OnlyOptional(r, b)
  {
    forall p | p in b
      ensures p in a
    {
      assert p in multiset(b);
    }
  }
}
