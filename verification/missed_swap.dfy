/**
 * An outing on which the solver's own answer is valid, and could be improved by swapping
 * its last two stops: the gap in the 2-opt search is one that users meet.
 */
module MissedSwap {
  import opened Prelude
  import opened Sorting
  import opened SolverModel
  import opened Route
  import opened Insertion
  import opened Variants
  import opened Expand
  import opened Feasibility
  import opened Greedy
  import opened Soundness
  import TwoOpt

  // ------------------------------------------------------------- the outing

  /** All legs take ten seconds, except for these. */
  function Legs(): TravelMatrix {
    TravelMatrix(map[("b", "d") := Leg(Walk, 1, 0.0), ("c", "b") := Leg(Walk, 100, 0.0),
                     ("s", "d") := Leg(Walk, 20, 0.0), ("d", "b") := Leg(Walk, 20, 0.0),
                     ("b", "a") := Leg(Walk, 20, 0.0), ("c", "a") := Leg(Walk, 20, 0.0),
                     ("d", "a") := Leg(Walk, 20, 0.0)],
                 (x: Node, y: Node) => Leg(Walk, 10, 0.0), Walk)
  }

  function Trip(): Day {
    Day(0, 0, "s", None, None, None)
  }

  /** A ten-minute must-do, open all day, at a node of its own. */
  function Spot(node: Node, priority: real): Candidate {
    Candidate(node, node, 10, priority, true, [], [], false, true, false)
  }

  const A := Spot("a", 1.0)
  const B := Spot("b", 2.0)
  const C := Spot("c", 4.0)
  const D := Spot("d", 3.0)

  function Outing(): Request {
    Request([Trip()], [C, D, B, A], Legs(),
        Options(None, None, OtherDeparture, false, MealPolicy(false, 1, 60, 12, 15, 19, 22), [], 60, 720),
            (c: Candidate, weather, golden) => PrizeFor(c.priority), day => 0)
  }

  /** 64 times 4 to the priority, for the four priorities of the outing. */
  function PrizeFor(priority: real): nat {
    if priority <= 1.0 then 256 else if priority <= 2.0 then 1024 else if priority <= 3.0 then 4096 else 16384
  }

  /** The only variant of a spot: any start of the day. */
  function VisitTo(c: Candidate): Variant {
    Variant(VariantKey(c, 0, 0), c, 0, 0, 42600, 10, PrizeFor(c.priority))
  }

  ghost predicate IsSpot(c: Candidate) {
    c in Outing().candidates
  }

  lemma WholeDay(c: Candidate)
    requires IsSpot(c)
    ensures BaseSpans(Outing(), c, Trip()) == [Span(0, 43200)]
    ensures Segments(Outing(), c, Trip(), Span(0, 43200)) == [Span(0, 43200)]
  {
    hide Sorted, Pieces, Boundaries, BaseSpans;
    OneSpan(c);
    OnlyEnds(c);
    TwoTimes();
    OnePiece();
  }

  lemma OneSpan(c: Candidate)
    requires IsSpot(c)
    ensures BaseSpans(Outing(), c, Trip()) == [Span(0, 43200)]
  {
    assert c.windows == [];
  }

  lemma OnePiece()
    ensures Pieces([0, 43200]) == [Span(0, 43200)]
  {}

  lemma OnlyEnds(c: Candidate)
    requires IsSpot(c)
    ensures Boundaries(Outing(), c, Trip(), Span(0, 43200)) == {0, 43200}
  {
    assert c.bestTimeWindows == [] && Outing().options.weather == [];
  }

  lemma TwoTimes()
    ensures Sorted({0, 43200}) == [0, 43200]
  {
    var both: set<Time> := {0, 43200};
    assert 0 in both && 43200 in both;
    assert Least(both) == 0 && both - {0} == {43200};
    assert Least({43200}) == 43200 && {43200} - {43200} == {};
  }

  lemma OneVariant(c: Candidate)
    requires IsSpot(c)
    ensures VariantsOf(Outing(), c) == [VisitTo(c)]
  {
    hide BaseSpans, Segments;
    WholeDay(c);
    var r, whole := Outing(), Span(0, 43200);
    assert r.days == [Trip()] && r.days[..0] == [];
    assert AddSegments(r, c, 0, [whole], []) == [VisitTo(c)] by {
      assert [whole][..0] == [];
    }
    assert AddSpans(r, c, Trip(), [whole], []) == [VisitTo(c)] by {
      assert [whole][..0] == [];
    }
  }

  // ------------------------------------------------------------- timing

  ghost predicate Visits(route: seq<Variant>) {
    |route| <= 4 && forall v | v in route :: IsSpot(v.candidate) && v == VisitTo(v.candidate)
  }

  /** Travel of a whole route. */
  function Total(route: seq<Variant>): nat {
    TravelOf(Legs(), Trip(), route, |route|)
  }

  function Seconds(x: Node, y: Node): nat {
    Legs().LegBetween(x, y).seconds
  }

  lemma ShortLegs()
    ensures forall x: Node, y: Node :: Seconds(x, y) <= 100
  {}

  lemma {:induction false} ReachedEarly(route: seq<Variant>, k: nat)
    requires Visits(route) && k < |route|
    ensures Earliest(Legs(), Trip(), route, k) <= 100 + 700 * k
  {
    hide Legs, Outing, VariantKey;
    ShortLegs();
    assert LegInto(Legs(), Trip(), route, k).seconds == Seconds(NodeBefore(Trip(), route, k), route[k].candidate.node);
    if k == 0 {
    } else {
      ReachedEarly(route, k - 1);
    }
  }

  /** Any order of the visits works out. */
  lemma Timed(route: seq<Variant>)
    requires Visits(route)
    ensures var att := Materialized(Outing(), Trip(), route); att.feasible && att.travelSeconds == Total(route)
  {
    hide Legs, Earliest, EarliestFree, TravelOf, WalkOf, VariantKey, EarliestVisits;
    var late := FirstLate(Legs(), Trip(), route, 0);
    assert Outing().matrix == Legs() && Deadline(Outing(), Trip()).None?;
    if late < |route| {
      ReachedEarly(route, late);
      assert false;
    }
  }

  lemma NextLeg(route: seq<Variant>, k: nat)
    requires 0 < k < |route|
    ensures TravelOf(Legs(), Trip(), route, k + 1)
         == TravelOf(Legs(), Trip(), route, k) + Seconds(route[k - 1].candidate.node, route[k].candidate.node)
  {
    hide Legs;
  }

  lemma TravelLegs(route: seq<Variant>)
    requires |route| <= 4
    ensures |route| == 0 ==> Total(route) == 0
    ensures |route| == 1 ==> Total(route) == Seconds("s", route[0].candidate.node)
    ensures |route| == 2 ==>
      Total(route) == Seconds("s", route[0].candidate.node) + Seconds(route[0].candidate.node, route[1].candidate.node)
    ensures |route| == 3 ==>
      Total(route) == Seconds("s", route[0].candidate.node) + Seconds(route[0].candidate.node, route[1].candidate.node)
                      + Seconds(route[1].candidate.node, route[2].candidate.node)
    ensures |route| == 4 ==>
      Total(route) == Seconds("s", route[0].candidate.node) + Seconds(route[0].candidate.node, route[1].candidate.node)
                      + Seconds(route[1].candidate.node, route[2].candidate.node)
                      + Seconds(route[2].candidate.node, route[3].candidate.node)
  {
    hide Legs;
    var n := |route|;
    if n >= 1 { assert TravelOf(Legs(), Trip(), route, 1) == Seconds("s", route[0].candidate.node); }
    if n >= 2 { NextLeg(route, 1); }
    if n >= 3 { NextLeg(route, 2); }
    if n == 4 { NextLeg(route, 3); }
  }

  // ------------------------------------------------------------- placing

  lemma FitsAt(c: Candidate, route: seq<Variant>, q: nat)
    requires IsSpot(c) && Visits(route) && |route| < 4 && q <= |route|
    ensures VariantsOf(Outing(), c) == [VisitTo(c)] && Fits(Outing(), map[0 := route], [VisitTo(c)], 0, q)
    ensures var score := ScoreOf(Outing(), map[0 := route], VisitTo(c), q);
      && score.addedTravel
         == Total(Inserted(route, q, VisitTo(c))) - Materialized(Outing(), Trip(), route).travelSeconds
      && score.negatedPrize == 0 - PrizeFor(c.priority)
  {
    hide Materialized, VariantsOf, Total, Legs, Waiting, VariantKey;
    OneVariant(c);
    StillVisits(route, q, c);
    Timed(Inserted(route, q, VisitTo(c)));
  }

  lemma CheapestIsAt(c: Candidate, route: seq<Variant>, best: Placement)
    requires IsSpot(c) && IsCheapest(Outing(), map[0 := route], [VisitTo(c)], best)
    ensures best.variant == VisitTo(c) && best.dayIndex == 0 && best.position <= |route|
    ensures forall q: nat | Fits(Outing(), map[0 := route], [VisitTo(c)], 0, q) ::
      !ScoreOf(Outing(), map[0 := route], VisitTo(c), q)
         .Below(ScoreOf(Outing(), map[0 := route], VisitTo(c), best.position))
  {
    hide ScoreOf, Proposal, VariantKey;
    var zero: nat := 0;
    assert [VisitTo(c)][zero] == VisitTo(c);
  }

  /** If one position is strictly cheapest, that is where the candidate goes. */
  lemma StepPicks(c: Candidate, route: seq<Variant>, position: nat, after: Routes)
    requires IsSpot(c) && Visits(route) && |route| < 4 && position <= |route|
    requires forall q: nat | q <= |route| && q != position ::
      Total(Inserted(route, position, VisitTo(c))) < Total(Inserted(route, q, VisitTo(c)))
    requires PlacingStep(Outing(), c, map[0 := route], after)
    ensures after == map[0 := Inserted(route, position, VisitTo(c))]
  {
    hide Materialized, VariantsOf, Total, Outing, VisitTo, IsCheapest, Visits, Fits, ScoreOf, Inserted, IsSpot;
    var r, routes := Outing(), map[0 := route];
    FitsAt(c, route, position);
    SomewhereFits(r, routes, c, position);
    var best :| PlacedAt(r, c, routes, after, best);
    CheapestIsAt(c, route, best);
    FitsAt(c, route, best.position);
  }

  lemma SomewhereFits(r: Request, routes: Routes, c: Candidate, position: nat)
    requires Fits(r, routes, VariantsOf(r, c), 0, position)
    ensures !FitsNowhere(r, routes, c)
  {}

  lemma StillVisits(route: seq<Variant>, q: nat, c: Candidate)
    requires Visits(route) && |route| < 4 && q <= |route| && IsSpot(c)
    ensures Visits(Inserted(route, q, VisitTo(c)))
  {
    hide Outing, VariantKey;
    forall v | v in Inserted(route, q, VisitTo(c))
      ensures v in route || v == VisitTo(c)
    {
      assert v in multiset(Inserted(route, q, VisitTo(c)));
    }
  }

  // ------------------------------------------------------------- the outing, step by step

  function Routed(cs: seq<Candidate>): (route: seq<Variant>)
    ensures |route| == |cs| && forall k | 0 <= k < |cs| :: route[k] == VisitTo(cs[k])
  {
    seq(|cs|, k requires 0 <= k < |cs| => VisitTo(cs[k]))
  }

  lemma LegTable()
    ensures Seconds("s", "a") == Seconds("s", "b") == Seconds("s", "c") == 10 && Seconds("s", "d") == 20
    ensures Seconds("a", "b") == Seconds("a", "c") == Seconds("a", "d") == 10
    ensures Seconds("b", "a") == 20 && Seconds("b", "c") == 10 && Seconds("b", "d") == 1
    ensures Seconds("c", "a") == 20 && Seconds("c", "b") == 100 && Seconds("c", "d") == 10
    ensures Seconds("d", "a") == Seconds("d", "b") == 20 && Seconds("d", "c") == 10
  {}

  lemma Travel2(x: Candidate, y: Candidate)
    ensures Total(Routed([x, y])) == Seconds("s", x.node) + Seconds(x.node, y.node)
  {
    hide Total, Seconds, VariantKey;
    TravelLegs(Routed([x, y]));
  }

  lemma Travel3(x: Candidate, y: Candidate, z: Candidate)
    ensures Total(Routed([x, y, z])) == Seconds("s", x.node) + Seconds(x.node, y.node) + Seconds(y.node, z.node)
  {
    hide Total, Seconds, VariantKey;
    TravelLegs(Routed([x, y, z]));
  }

  lemma Travel4(w: Candidate, x: Candidate, y: Candidate, z: Candidate)
    ensures Total(Routed([w, x, y, z])) == Seconds("s", w.node) + Seconds(w.node, x.node) + Seconds(x.node, y.node)
        + Seconds(y.node, z.node)
  {
    hide Total, Seconds, VariantKey;
    TravelLegs(Routed([w, x, y, z]));
  }

  lemma RoutedVisits(cs: seq<Candidate>)
    requires |cs| <= 4 && forall c | c in cs :: IsSpot(c)
    ensures Visits(Routed(cs))
  {
    hide Outing, VariantKey;
  }

  /** The spots with one more at a place. */
  function With(cs: seq<Candidate>, q: nat, c: Candidate): seq<Candidate>
    requires q <= |cs|
  {
    cs[..q] + [c] + cs[q..]
  }

  lemma RoutedInserted(cs: seq<Candidate>, q: nat, c: Candidate)
    requires q <= |cs|
    ensures Inserted(Routed(cs), q, VisitTo(c)) == Routed(With(cs, q, c))
  {
    hide VisitTo;
  }

  /** If one place in the order is strictly cheapest, that is where the candidate goes. */
  lemma PicksCheapest(cs: seq<Candidate>, c: Candidate, position: nat, after: Routes)
    requires |cs| < 4 && IsSpot(c) && position <= |cs| && forall x | x in cs :: IsSpot(x)
    requires forall q: nat | q <= |cs| && q != position ::
      Total(Routed(With(cs, position, c))) < Total(Routed(With(cs, q, c)))
    requires PlacingStep(Outing(), c, map[0 := Routed(cs)], after)
    ensures after == map[0 := Routed(With(cs, position, c))]
  {
    hide PlacingStep, VisitTo, Outing, Total, Visits, Routed, IsSpot, Inserted, With;
    RoutedVisits(cs);
    forall q: nat | q <= |cs|
      ensures Inserted(Routed(cs), q, VisitTo(c)) == Routed(With(cs, q, c))
    {
      RoutedInserted(cs, q, c);
    }
    StepPicks(c, Routed(cs), position, after);
  }

  lemma WithAt(cs: seq<Candidate>, q: nat, c: Candidate, t: seq<Candidate>)
    requires q <= |cs| && |t| == |cs| + 1 && t[q] == c && t[..q] == cs[..q] && t[q + 1..] == cs[q..]
    ensures With(cs, q, c) == t
  {
    assert t == t[..q] + [t[q]] + t[q + 1..];
  }

  lemma AllSpots()
    ensures IsSpot(A) && IsSpot(B) && IsSpot(C) && IsSpot(D)
  {}

  lemma SecondStep(after: Routes)
    requires PlacingStep(Outing(), D, map[0 := Routed([C])], after)
    ensures after == map[0 := Routed([C, D])]
  {
    hide PlacingStep, Outing, Total, Routed, IsSpot, Seconds, With;
    AllSpots();
    LegTable();
    WithAt([C], 0, D, [D, C]);
    WithAt([C], 1, D, [C, D]);
    Travel2(D, C);
    Travel2(C, D);
    PicksCheapest([C], D, 1, after);
  }

  lemma ThirdTotals(q: nat)
    requires 0 < q <= 2
    ensures Total(Routed(With([C, D], 0, B))) < Total(Routed(With([C, D], q, B)))
  {
    hide Total, Routed, Seconds, With;
    LegTable();
    WithAt([C, D], 0, B, [B, C, D]);
    Travel3(B, C, D);
    if q == 1 {
      WithAt([C, D], 1, B, [C, B, D]);
      Travel3(C, B, D);
    } else {
      WithAt([C, D], 2, B, [C, D, B]);
      Travel3(C, D, B);
    }
  }

  lemma ThirdStep(after: Routes)
    requires PlacingStep(Outing(), B, map[0 := Routed([C, D])], after)
    ensures after == map[0 := Routed([B, C, D])]
  {
    hide PlacingStep, Outing, Total, Routed, IsSpot, With, Spot;
    AllSpots();
    forall q: nat | q <= 2 && q != 0
      ensures Total(Routed(With([C, D], 0, B))) < Total(Routed(With([C, D], q, B)))
    {
      ThirdTotals(q);
    }
    WithAt([C, D], 0, B, [B, C, D]);
    PicksCheapest([C, D], B, 0, after);
  }

  lemma FourthTotals(q: nat)
    requires 0 < q <= 3
    ensures Total(Routed(With([B, C, D], 0, A))) < Total(Routed(With([B, C, D], q, A)))
  {
    hide Total, Routed, Seconds, With;
    LegTable();
    WithAt([B, C, D], 0, A, [A, B, C, D]);
    Travel4(A, B, C, D);
    if q == 1 {
      WithAt([B, C, D], 1, A, [B, A, C, D]);
      Travel4(B, A, C, D);
    } else if q == 2 {
      WithAt([B, C, D], 2, A, [B, C, A, D]);
      Travel4(B, C, A, D);
    } else {
      WithAt([B, C, D], 3, A, [B, C, D, A]);
      Travel4(B, C, D, A);
    }
  }

  lemma FourthStep(after: Routes)
    requires PlacingStep(Outing(), A, map[0 := Routed([B, C, D])], after)
    ensures after == map[0 := Routed([A, B, C, D])]
  {
    hide PlacingStep, Outing, Total, Routed, IsSpot, With, Spot;
    AllSpots();
    forall q: nat | q <= 3 && q != 0
      ensures Total(Routed(With([B, C, D], 0, A))) < Total(Routed(With([B, C, D], q, A)))
    {
      FourthTotals(q);
    }
    WithAt([B, C, D], 0, A, [A, B, C, D]);
    PicksCheapest([B, C, D], A, 0, after);
  }

  lemma {:induction false} AllMustDos(cs: seq<Candidate>)
    requires forall c | c in cs :: c.mustDo
    ensures Where(cs, true) == cs && Where(cs, false) == []
  {
    if cs == [] {
    } else {
      AllMustDos(cs[1..]);
    }
  }

  lemma TheOrder()
    ensures PlacingOrder(Outing()) == [C, D, B, A]
  {
    hide Where, SortBy, VariantsOf;
    var cs := [C, D, B, A];
    AllMustDos(cs);
    SortByKeepsSorted(cs, MustDoBefore);
  }

  lemma EmptyStart(states: seq<Routes>)
    requires PlacingRun(Outing(), [C, D, B, A], states)
    ensures |states| == 5 && states[0] == map[0 := Routed([])]
    ensures PlacingStep(Outing(), C, states[0], states[1]) && PlacingStep(Outing(), D, states[1], states[2])
    ensures PlacingStep(Outing(), B, states[2], states[3]) && PlacingStep(Outing(), A, states[3], states[4])
  {
    hide PlacingStep;
    var order := [C, D, B, A];
    var n0: nat, n1: nat, n2: nat, n3: nat, n4: nat := 0, 1, 2, 3, 4;
    assert PlacingStep(Outing(), order[n0], states[n0], states[n1])
        && PlacingStep(Outing(), order[n1], states[n1], states[n2]);
    assert PlacingStep(Outing(), order[n2], states[n2], states[n3])
        && PlacingStep(Outing(), order[n3], states[n3], states[n4]);
    assert Trip() in Outing().days;
    assert Routed([]) == [];
  }

  /** Whatever the solver does, it places the four spots like this. */
  lemma Placed(states: seq<Routes>)
    requires PlacingRun(Outing(), PlacingOrder(Outing()), states)
    ensures states[|states| - 1] == map[0 := Routed([A, B, C, D])]
  {
    hide PlacingStep, PlacingOrder, PlacingRun, Routed, Outing;
    TheOrder();
    EmptyStart(states);
    AllSpots();
    assert With([], 0, C) == [C];
    PicksCheapest([], C, 0, states[1]);
    SecondStep(states[2]);
    ThirdStep(states[3]);
    FourthStep(states[4]);
  }

  // ------------------------------------------------------------- 2-opt

  /** Reversing a segment gives another order of the spots; it improves exactly if its travel is less. */
  lemma Swapped(left: nat, right: nat, cs: seq<Candidate>)
    requires left <= right <= 4 && |cs| == 4 && forall c | c in cs :: IsSpot(c)
    requires forall k: nat | k < 4 :: cs[k] == [A, B, C, D][if left <= k < right then left + right - 1 - k else k]
    ensures TwoOpt.Improves(Outing(), Trip(), Routed([A, B, C, D]), left, right) <==>
      Total(Routed(cs)) < Total(Routed([A, B, C, D]))
  {
    hide Materialized, Total, VisitTo, IsSpot, Outing;
    AllSpots();
    var route := Routed([A, B, C, D]);
    assert TwoOpt.WithReversal(route, left, right) == Routed(cs);
    RoutedVisits(cs);
    RoutedVisits([A, B, C, D]);
    Timed(Routed(cs));
    Timed(route);
  }

  /** Only one order would be better, and the search does not try it. */
  lemma OtherOrders()
    ensures var total := Total(Routed([A, B, C, D]));
      && Total(Routed([A, B, D, C])) < total
      && Total(Routed([B, A, C, D])) >= total && Total(Routed([C, B, A, D])) >= total
          && Total(Routed([D, C, B, A])) >= total
      && Total(Routed([A, C, B, D])) >= total && Total(Routed([A, D, C, B])) >= total
  {
    hide Total, Routed, Seconds;
    LegTable();
    Travel4(A, B, C, D);
    Travel4(A, B, D, C);
    Travel4(B, A, C, D);
    Travel4(C, B, A, D);
    Travel4(D, C, B, A);
    Travel4(A, C, B, D);
    Travel4(A, D, C, B);
  }

  lemma TriedPair(left: nat, right: nat)
    requires TwoOpt.InSearch(4, left, right)
    ensures !TwoOpt.Improves(Outing(), Trip(), Routed([A, B, C, D]), left, right)
  {
    hide Total, Routed, IsSpot, Outing, TwoOpt.Improves;
    AllSpots();
    OtherOrders();
    if left == 0 && right == 2 {
      Swapped(0, 2, [B, A, C, D]);
    } else if left == 0 && right == 3 {
      Swapped(0, 3, [C, B, A, D]);
    } else if left == 0 {
      Swapped(0, 4, [D, C, B, A]);
    } else if right == 3 {
      Swapped(1, 3, [A, C, B, D]);
    } else {
      Swapped(1, 4, [A, D, C, B]);
    }
  }

  /** The search leaves the route as it is, though swapping its last two stops saves time. */
  lemma LastPairIsMissed()
    ensures var r, day, route := Outing(), Trip(), Routed([A, B, C, D]);
      && TwoOpt.NoneInSearchImproves(r, day, route) && TwoOpt.Improves(r, day, route, 2, 4)
          && !TwoOpt.LocallyOptimal(r, day, route)
  {
    hide Total, IsSpot, Outing, TwoOpt.Improves, VisitTo;
    AllSpots();
    OtherOrders();
    Swapped(2, 4, [A, B, D, C]);
    assert TwoOpt.IsSegment(4, 2, 4);
    forall left: nat, right: nat | TwoOpt.InSearch(4, left, right)
      ensures !TwoOpt.Improves(Outing(), Trip(), Routed([A, B, C, D]), left, right)
    {
      TriedPair(left, right);
    }
  }

  /** The placing loop never gets stuck on the outing. */
  lemma StepVisits(c: Candidate, route: seq<Variant>, after: Routes) returns (next: seq<Variant>)
    requires IsSpot(c) && Visits(route) && |route| < 4 && PlacingStep(Outing(), c, map[0 := route], after)
    ensures after == map[0 := next] && Visits(next) && |next| <= |route| + 1
  {
    hide Materialized, VariantsOf, Outing, VisitTo, IsCheapest, Visits, Fits, Inserted, IsSpot;
    if after == map[0 := route] {
      next := route;
    } else {
      var best :| PlacedAt(Outing(), c, map[0 := route], after, best);
      OneVariant(c);
      CheapestIsAt(c, route, best);
      StillVisits(route, best.position, c);
      next := Inserted(route, best.position, VisitTo(c));
    }
  }

  lemma {:induction false} NeverStuck(cs: seq<Candidate>, states: seq<Routes>, k: nat) returns (route: seq<Variant>)
    requires PlacingRun(Outing(), cs, states) && k <= |cs| <= 3 && forall c | c in cs :: IsSpot(c)
    ensures |states| == |cs| + 1 && states[k] == map[0 := route] && Visits(route) && |route| <= k
  {
    hide PlacingStep, IsSpot, VisitTo;
    if k == 0 {
      assert Trip() in Outing().days;
      route := [];
    } else {
      var before := k - 1;
      var shorter := NeverStuck(cs, states, before);
      assert PlacingStep(Outing(), cs[before], states[before], states[k]);
      route := StepVisits(cs[before], shorter, states[k]);
    }
  }

  lemma AlwaysFits(cs: seq<Candidate>, states: seq<Routes>, c: Candidate)
    requires PlacingRun(Outing(), cs, states) && |cs| <= 3 && (forall x | x in cs :: IsSpot(x)) && IsSpot(c)
    ensures !FitsNowhere(Outing(), states[|cs|], c)
  {
    hide PlacingRun, IsSpot, VisitTo, Outing, Fits, VariantsOf, FitsNowhere, Materialized;
    var route := NeverStuck(cs, states, |cs|);
    FitsAt(c, route, 0);
    SomewhereFits(Outing(), states[|cs|], c, 0);
  }

  /** The solver, run on the outing, answers with a valid plan whose route is not locally optimal. */
  method MissedByTheSolver() returns (solution: Solution, routes: Routes)
    ensures solution.Feasible? && ValidPlan(Outing(), solution.plans)
    ensures 0 in routes && routes[0] == Routed([A, B, C, D])
    ensures TwoOpt.Improves(Outing(), Trip(), routes[0], 2, 4) && !TwoOpt.LocallyOptimal(Outing(), Trip(), routes[0])
  {
    hide GoodRoutes, Accounted, OnlyOptional, EmittedPlans, PlacingRun, PlacingOrder, Materialized, Routed, FitsNowhere,
         TwoOpt.Improves, TwoOpt.LocallyOptimal, TwoOpt.NoneInSearchImproves, ValidPlan, MealsLeaveRoom, RestDayOk,
         RightOrder, MealsKeptApart;
    ghost var states;
    solution, routes, states := SolveGreedy(Outing());
    GoodRoutesAreValid(Outing(), routes);
    LastPairIsMissed();
    TheOrder();
    assert Trip() in Outing().days;
    if solution.Infeasible? {
      ghost var c :| c in Outing().candidates && FitsNowhere(Outing(), routes, c);
      assert forall x | x in [C, D, B, A][..|states| - 1] :: IsSpot(x);
      AlwaysFits([C, D, B, A][..|states| - 1], states, c);
    } else {
      Placed(states);
      assert routes[0] == Routed([A, B, C, D]);
      EmittedPlanIsValid(Outing(), routes, solution.plans, solution.unscheduled);
    }
  }
}
