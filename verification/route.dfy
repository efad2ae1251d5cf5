/**
 * Timing one day's route: `_materialize`, the declarative notion of a schedule it
 * decides, and why its arrivals are the earliest possible.
 */
module Route {
  import opened Prelude
  import opened SolverModel

  datatype Visit = Visit(variant: Variant, arrive: Time, depart: Time, leg: Leg)

  datatype Attempt = Attempt(feasible: bool, visits: seq<Visit>, walking: Meters, endsAt: Time, travelSeconds: nat)

  // ------------------------------------------------------------- legs of a route

  /** Where leg `k` starts; leg `|route|` is the one to the end anchor. */
  function NodeBefore(day: Day, route: seq<Variant>, k: nat): Node
    requires k <= |route|
  {
    if k == 0 then day.startNode else route[k - 1].candidate.node
  }

  function LegInto(m: TravelMatrix, day: Day, route: seq<Variant>, k: nat): Leg
    requires k < |route|
  {
    m.LegBetween(NodeBefore(day, route, k), route[k].candidate.node)
  }

  /** Travel seconds of the first `k` legs. */
  function TravelOf(m: TravelMatrix, day: Day, route: seq<Variant>, k: nat): nat
    requires k <= |route|
  {
    if k == 0 then 0 else TravelOf(m, day, route, k - 1) + LegInto(m, day, route, k - 1).seconds
  }

  /** Metres walked on the first `k` legs. */
  function WalkOf(m: TravelMatrix, day: Day, route: seq<Variant>, k: nat): Meters
    requires k <= |route|
  {
    if k == 0 then 0.0 else WalkOf(m, day, route, k - 1) + LegInto(m, day, route, k - 1).Walked()
  }

  /** The leg home, if the day has an end anchor. */
  function EndSeconds(m: TravelMatrix, day: Day, route: seq<Variant>): nat {
    if day.endNode.None? then 0 else m.LegBetween(NodeBefore(day, route, |route|), day.endNode.value).seconds
  }

  function EndWalk(m: TravelMatrix, day: Day, route: seq<Variant>): Meters {
    if day.endNode.None? then 0.0 else m.LegBetween(NodeBefore(day, route, |route|), day.endNode.value).Walked()
  }

  function TotalTravel(m: TravelMatrix, day: Day, route: seq<Variant>): nat {
    TravelOf(m, day, route, |route|) + EndSeconds(m, day, route)
  }

  function TotalWalk(m: TravelMatrix, day: Day, route: seq<Variant>): Meters {
    WalkOf(m, day, route, |route|) + EndWalk(m, day, route)
  }

  // ------------------------------------------------------------- schedules

  /** When the traveller is free before leg `k`, given the arrival times. */
  function FreeAt(day: Day, route: seq<Variant>, arrivals: seq<Time>, k: nat): Time
    requires k <= |route| == |arrivals|
  {
    if k == 0 then day.startTime else arrivals[k - 1] + route[k - 1].Seconds()
  }

  /** Arrival times that respect travel and every [opens, latest_start]. */
  ghost predicate Timed(m: TravelMatrix, day: Day, route: seq<Variant>, arrivals: seq<Time>) {
    && |arrivals| == |route|
    && forall k | 0 <= k < |route| ::
         && FreeAt(day, route, arrivals, k) + LegInto(m, day, route, k).seconds <= arrivals[k]
         && route[k].opens <= arrivals[k] <= route[k].latestStart
  }

  predicate MeetsDeadline(r: Request, day: Day, end: Time) {
    Deadline(r, day).Some? ==> end <= Deadline(r, day).value
  }

  predicate WithinBudget(day: Day, walked: Meters) {
    day.walkingBudget.Some? ==> walked <= day.walkingBudget.value
  }

  /** A schedule of the day: timed visits, the deadline met, the walking budget kept. */
  ghost predicate Schedule(r: Request, day: Day, route: seq<Variant>, arrivals: seq<Time>) {
    && Timed(r.matrix, day, route, arrivals)
    && (Deadline(r, day).Some? ==>
          FreeAt(day, route, arrivals, |route|) + EndSeconds(r.matrix, day, route) <= Deadline(r, day).value)
    && (day.walkingBudget.Some? ==> TotalWalk(r.matrix, day, route) <= day.walkingBudget.value)
  }

  // ------------------------------------------------------------- materialize

  function EarliestFree(m: TravelMatrix, day: Day, route: seq<Variant>, k: nat): Time
    requires k <= |route|
    decreases k, 0
  {
    if k == 0 then day.startTime else Earliest(m, day, route, k - 1) + route[k - 1].Seconds()
  }

  /** Earliest arrival at stop `k`, waiting for it to open. */
  function Earliest(m: TravelMatrix, day: Day, route: seq<Variant>, k: nat): Time
    requires k < |route|
    decreases k, 1
  {
    MaxTime(EarliestFree(m, day, route, k) + LegInto(m, day, route, k).seconds, route[k].opens)
  }

  /** The first stop from `k` on whose earliest arrival is too late, or the route's length. */
  function FirstLate(m: TravelMatrix, day: Day, route: seq<Variant>, k: nat): (n: nat)
    requires k <= |route|
    ensures k <= n <= |route|
    ensures forall i | k <= i < n :: Earliest(m, day, route, i) <= route[i].latestStart
    ensures n < |route| ==> Earliest(m, day, route, n) > route[n].latestStart
    decreases |route| - k
  {
    if k < |route| && Earliest(m, day, route, k) <= route[k].latestStart then FirstLate(m, day, route, k + 1) else k
  }

  function EarliestVisit(m: TravelMatrix, day: Day, route: seq<Variant>, k: nat): Visit
    requires k < |route|
  {
    var arrive := Earliest(m, day, route, k);
    Visit(route[k], arrive, arrive + route[k].Seconds(), LegInto(m, day, route, k))
  }

  function EarliestVisits(m: TravelMatrix, day: Day, route: seq<Variant>, k: nat): (vs: seq<Visit>)
    requires k <= |route|
    ensures |vs| == k && forall i | 0 <= i < k :: vs[i] == EarliestVisit(m, day, route, i)
  {
    if k == 0 then [] else EarliestVisits(m, day, route, k - 1) + [EarliestVisit(m, day, route, k - 1)]
  }

  /** What `_materialize` returns. */
  function Materialized(r: Request, day: Day, route: seq<Variant>): Attempt {
    var m := r.matrix;
    var late := FirstLate(m, day, route, 0);
    if late < |route| then
      Attempt(false, [], WalkOf(m, day, route, late + 1), Earliest(m, day, route, late),
          TravelOf(m, day, route, late + 1))
    else
      var end := EarliestFree(m, day, route, |route|) + EndSeconds(m, day, route);
      var ok := MeetsDeadline(r, day, end) && WithinBudget(day, TotalWalk(m, day, route));
      var visits := if ok then EarliestVisits(m, day, route, |route|) else [];
      Attempt(ok, visits, TotalWalk(m, day, route), end, TotalTravel(m, day, route))
  }

  lemma MaterializeStart(m: TravelMatrix, day: Day, route: seq<Variant>)
    ensures TravelOf(m, day, route, 0) == 0 && WalkOf(m, day, route, 0) == 0.0
    ensures EarliestFree(m, day, route, 0) == day.startTime && EarliestVisits(m, day, route, 0) == []
    ensures FirstLate(m, day, route, |route|) == |route|
  {}

  /** One turn of the loop, in terms of the specification. */
  lemma MaterializeStep(m: TravelMatrix, day: Day, route: seq<Variant>, k: nat)
    requires k < |route|
    ensures TravelOf(m, day, route, k + 1) == TravelOf(m, day, route, k) + LegInto(m, day, route, k).seconds
    ensures WalkOf(m, day, route, k + 1) == WalkOf(m, day, route, k) + LegInto(m, day, route, k).Walked()
    ensures Earliest(m, day, route, k)
         == MaxTime(EarliestFree(m, day, route, k) + LegInto(m, day, route, k).seconds, route[k].opens)
    ensures EarliestFree(m, day, route, k + 1) == Earliest(m, day, route, k) + route[k].Seconds()
    ensures EarliestVisits(m, day, route, k + 1) == EarliestVisits(m, day, route, k) + [EarliestVisit(m, day, route, k)]
    ensures FirstLate(m, day, route, k)
         == if Earliest(m, day, route, k) <= route[k].latestStart then FirstLate(m, day, route, k + 1) else k
  {}

  /** `_materialize`. */
  method Materialize(r: Request, day: Day, route: seq<Variant>) returns (a: Attempt)
    ensures a == Materialized(r, day, route)
  {
    hide TravelOf, WalkOf, Earliest, EarliestVisits, FirstLate, EarliestFree;
    MaterializeStart(r.matrix, day, route);
    var now, node := day.startTime, day.startNode;
    var walking: Meters, travelSeconds: nat := 0.0, 0;
    var visits: seq<Visit> := [];
    for k := 0 to |route|
      invariant now == EarliestFree(r.matrix, day, route, k) && node == NodeBefore(day, route, k)
      invariant walking == WalkOf(r.matrix, day, route, k) && travelSeconds == TravelOf(r.matrix, day, route, k)
      invariant visits == EarliestVisits(r.matrix, day, route, k)
      invariant FirstLate(r.matrix, day, route, 0) == FirstLate(r.matrix, day, route, k)
    {
      MaterializeStep(r.matrix, day, route, k);
      var variant := route[k];
      var leg := r.matrix.LegBetween(node, variant.candidate.node);
      travelSeconds := travelSeconds + leg.seconds;
      if leg.mode.Walk? {
        walking := walking + leg.meters;
      }
      var arrive := MaxTime(now + leg.seconds, variant.opens);
      if arrive > variant.latestStart {
        return Attempt(false, [], walking, arrive, travelSeconds);
      }
      var depart := arrive + variant.Seconds();
      visits := visits + [Visit(variant, arrive, depart, leg)];
      now, node := depart, variant.candidate.node;
    }
    if day.endNode.Some? {
      var endLeg := r.matrix.LegBetween(node, day.endNode.value);
      travelSeconds := travelSeconds + endLeg.seconds;
      if endLeg.mode.Walk? {
        walking := walking + endLeg.meters;
      }
      now := now + endLeg.seconds;
    }
    var deadline := Deadline(r, day);
    if deadline.Some? && now > deadline.value {
      return Attempt(false, [], walking, now, travelSeconds);
    }
    if day.walkingBudget.Some? && walking > day.walkingBudget.value {
      return Attempt(false, [], walking, now, travelSeconds);
    }
    a := Attempt(true, visits, walking, now, travelSeconds);
  }

  // ------------------------------------------------------------- exactness

  function EarliestArrivals(m: TravelMatrix, day: Day, route: seq<Variant>): (ts: seq<Time>)
    ensures |ts| == |route| && forall k | 0 <= k < |route| :: ts[k] == Earliest(m, day, route, k)
  {
    seq(|route|, k requires 0 <= k < |route| => Earliest(m, day, route, k))
  }

  /** No timed schedule reaches any stop, or the end, before the earliest times. */
  lemma {:induction false} NothingArrivesEarlier(m: TravelMatrix, day: Day, route: seq<Variant>, arrivals: seq<Time>,
                                                 k: nat)
    requires Timed(m, day, route, arrivals) && k <= |route|
    ensures EarliestFree(m, day, route, k) <= FreeAt(day, route, arrivals, k)
    ensures k < |route| ==> Earliest(m, day, route, k) <= arrivals[k]
    decreases k
  {
    hide LegInto;
    if k == 0 {
    } else {
      NothingArrivesEarlier(m, day, route, arrivals, k - 1);
    }
  }

  lemma EarliestIsTimed(m: TravelMatrix, day: Day, route: seq<Variant>)
    requires FirstLate(m, day, route, 0) == |route|
    ensures Timed(m, day, route, EarliestArrivals(m, day, route))
  {
    forall k | 0 <= k <= |route|
      ensures FreeAt(day, route, EarliestArrivals(m, day, route), k) == EarliestFree(m, day, route, k)
    {}
  }

  /**
   * `_materialize` is exact: it reports feasible precisely when some schedule exists,
   * and then its own arrivals form a schedule that no other beats at any stop.
   */
  lemma MaterializeIsExact(r: Request, day: Day, route: seq<Variant>)
    ensures Materialized(r, day, route).feasible <==> exists arrivals :: Schedule(r, day, route, arrivals)
    ensures Materialized(r, day, route).feasible ==>
      var arrivals := ArrivalsOf(Materialized(r, day, route).visits);
      && Schedule(r, day, route, arrivals)
      && forall other | Schedule(r, day, route, other) ::
           forall k | 0 <= k < |route| :: arrivals[k] <= other[k]
  {
    var m, earliest := r.matrix, EarliestArrivals(r.matrix, day, route);
    if Materialized(r, day, route).feasible {
      EarliestIsTimed(m, day, route);
      assert FreeAt(day, route, earliest, |route|) == EarliestFree(m, day, route, |route|);
      assert Schedule(r, day, route, earliest);
      assert ArrivalsOf(Materialized(r, day, route).visits) == earliest;
      forall other, k | Schedule(r, day, route, other) && 0 <= k < |route|
        ensures earliest[k] <= other[k]
      {
        NothingArrivesEarlier(m, day, route, other, k);
      }
    } else if exists arrivals :: Schedule(r, day, route, arrivals) {
      var arrivals :| Schedule(r, day, route, arrivals);
      var late := FirstLate(m, day, route, 0);
      NothingArrivesEarlier(m, day, route, arrivals, late);
      NothingArrivesEarlier(m, day, route, arrivals, |route|);
      assert false;
    }
  }

  function ArrivalsOf(visits: seq<Visit>): (ts: seq<Time>)
    ensures |ts| == |visits| && forall k | 0 <= k < |visits| :: ts[k] == visits[k].arrive
  {
    seq(|visits|, k requires 0 <= k < |visits| => visits[k].arrive)
  }

  // ------------------------------------------------------------- where the time goes

  /** When the visit before `k` ends, or the day begins. */
  function DepartBefore(day: Day, visits: seq<Visit>, k: nat): Time
    requires k <= |visits|
  {
    if k == 0 then day.startTime else visits[k - 1].depart
  }

  /** Time spent at the first `k` places. */
  function Dwelt(visits: seq<Visit>, k: nat): int
    requires k <= |visits|
  {
    if k == 0 then 0 else Dwelt(visits, k - 1) + (visits[k - 1].depart - visits[k - 1].arrive)
  }

  /** Time spent on the road and before closed doors until the arrival at visit `k`, travel aside. */
  function Idled(day: Day, visits: seq<Visit>, k: nat): int
    requires k <= |visits|
  {
    if k == 0 then 0
    else
      Idled(day, visits, k - 1)
        + (visits[k - 1].arrive - DepartBefore(day, visits, k - 1) - visits[k - 1].leg.seconds)
  }

  lemma {:induction false} TimeUpTo(m: TravelMatrix, day: Day, route: seq<Variant>, visits: seq<Visit>, k: nat)
    requires k <= |route| && visits == EarliestVisits(m, day, route, |route|)
    ensures EarliestFree(m, day, route, k) == DepartBefore(day, visits, k)
    ensures EarliestFree(m, day, route, k)
         == day.startTime + TravelOf(m, day, route, k) + Dwelt(visits, k) + Idled(day, visits, k)
  {
    hide LegInto;
    if k == 0 {
    } else {
      TimeUpTo(m, day, route, visits, k - 1);
      assert visits[k - 1] == EarliestVisit(m, day, route, k - 1);
    }
  }

  /**
   * Every second of a feasible day is accounted for: its end is its beginning plus the
   * reported travel, the visits, and the waiting between arriving and being let in.
   */
  lemma TimeIsAccountedFor(r: Request, day: Day, route: seq<Variant>)
    requires Materialized(r, day, route).feasible
    ensures var a := Materialized(r, day, route); var n := |a.visits|;
      && a.endsAt == day.startTime + a.travelSeconds + Dwelt(a.visits, n) + Idled(day, a.visits, n)
      && a.endsAt == DepartBefore(day, a.visits, n) + EndSeconds(r.matrix, day, route)
  {
    hide LegInto, EarliestFree, FirstLate;
    TimeUpTo(r.matrix, day, route, EarliestVisits(r.matrix, day, route, |route|), |route|);
  }
}
