/**
 * Cheapest insertion: the search over every (variant, position) for the
 * lexicographically least score.
 */
module Insertion {
  import opened Prelude
  import opened Keys
  import opened SolverModel
  import opened Route

  type Routes = map<nat, seq<Variant>>

  /** Compared field by field, first to last. */
  datatype Score = Score(negatedPrize: int, addedTravel: int, waiting: int, position: nat, key: string) {
    predicate Below(other: Score) {
      if negatedPrize != other.negatedPrize then negatedPrize < other.negatedPrize
      else if addedTravel != other.addedTravel then addedTravel < other.addedTravel
      else if waiting != other.waiting then waiting < other.waiting
      else if position != other.position then position < other.position
      else Less(key, other.key)
    }
  }

  datatype Placement = Placement(dayIndex: nat, position: nat, variant: Variant, attempt: Attempt)

  // ------------------------------------------------------------- days

  function DayFor(days: seq<Day>, dayIndex: nat): (d: Day)
    requires exists d :: d in days && d.dayIndex == dayIndex
    ensures d in days && d.dayIndex == dayIndex
  {
    if days[0].dayIndex == dayIndex then days[0] else DayFor(days[1..], dayIndex)
  }

  ghost predicate KnownDay(r: Request, dayIndex: nat) {
    exists d :: d in r.days && d.dayIndex == dayIndex
  }

  lemma DayForIsUnique(r: Request, d: Day)
    requires DistinctDays(r.days) && d in r.days
    ensures DayFor(r.days, d.dayIndex) == d
  {
    SameIndexSameDay(r.days, DayFor(r.days, d.dayIndex), d);
  }

  ghost predicate ValidRoutes(r: Request, routes: Routes) {
    forall d | d in routes :: KnownDay(r, d)
  }

  lemma DayIsKnown(r: Request, routes: Routes, d: nat)
    requires ValidRoutes(r, routes) && d in routes
    ensures KnownDay(r, d)
  {}

  // ------------------------------------------------------------- scores

  function Inserted<T>(s: seq<T>, position: nat, x: T): (t: seq<T>)
    requires position <= |s|
    ensures |t| == |s| + 1
    ensures multiset(t) == multiset(s) + multiset{x}
  {
    assert s == s[..position] + s[position..];
    s[..position] + [x] + s[position..]
  }

  function Waiting(visits: seq<Visit>): int {
    if visits == [] then 0
    else Waiting(visits[..|visits| - 1]) + (visits[|visits| - 1].arrive - visits[|visits| - 1].variant.opens)
  }

  /** The routes cover every day a variant may name. */
  ghost predicate CoversDays(routes: Routes, variants: seq<Variant>) {
    forall v | v in variants :: v.dayIndex in routes
  }

  function Proposal(r: Request, routes: Routes, v: Variant, position: nat): Attempt
    requires ValidRoutes(r, routes) && v.dayIndex in routes && position <= |routes[v.dayIndex]|
  {
    Materialized(r, DayFor(r.days, v.dayIndex), Inserted(routes[v.dayIndex], position, v))
  }

  function ScoreOf(r: Request, routes: Routes, v: Variant, position: nat): Score
    requires ValidRoutes(r, routes) && v.dayIndex in routes && position <= |routes[v.dayIndex]|
  {
    var attempt := Proposal(r, routes, v, position);
    var baseline := Materialized(r, DayFor(r.days, v.dayIndex), routes[v.dayIndex]);
    Score(0 - v.prize, attempt.travelSeconds - baseline.travelSeconds, Waiting(attempt.visits), position, v.key)
  }

  /** Variant `i` inserted at `position` gives a feasible route. */
  ghost predicate Fits(r: Request, routes: Routes, variants: seq<Variant>, i: nat, position: nat) {
    && ValidRoutes(r, routes) && i < |variants| && variants[i].dayIndex in routes
    && position <= |routes[variants[i].dayIndex]|
    && Proposal(r, routes, variants[i], position).feasible
  }

  /** `best` is a feasible insertion. */
  ghost predicate IsFit(r: Request, routes: Routes, variants: seq<Variant>, best: Placement) {
    && best.variant in variants && best.dayIndex == best.variant.dayIndex
    && ValidRoutes(r, routes) && best.dayIndex in routes && best.position <= |routes[best.dayIndex]|
    && best.attempt == Proposal(r, routes, best.variant, best.position)
    && best.attempt.feasible
  }

  /** `best` is a feasible insertion that no other feasible insertion scores below. */
  ghost predicate IsCheapest(r: Request, routes: Routes, variants: seq<Variant>, best: Placement) {
    && IsFit(r, routes, variants, best)
    && forall i: nat, position: nat | Fits(r, routes, variants, i, position) ::
         !ScoreOf(r, routes, variants[i], position).Below(ScoreOf(r, routes, best.variant, best.position))
  }

  lemma BelowTransitive(a: Score, b: Score, c: Score)
    requires a.Below(b) && b.Below(c)
    ensures a.Below(c)
  {
    if Less(a.key, b.key) && Less(b.key, c.key) {
      LessTransitive(a.key, b.key, c.key);
    }
  }

  lemma BelowIrreflexive(a: Score)
    ensures !a.Below(a)
  {
    LessIrreflexive(a.key);
  }

  lemma BelowNotAbove(a: Score, b: Score, c: Score)
    requires a.Below(b) && !c.Below(b)
    ensures !c.Below(a)
  {
    if c.Below(a) {
      BelowTransitive(c, a, b);
    }
  }

  method WaitingOf(visits: seq<Visit>) returns (total: int)
    ensures total == Waiting(visits)
  {
    total := 0;
    assert visits[..|visits|] == visits;
    for i := 0 to |visits|
      invariant total == Waiting(visits[..i])
    {
      assert visits[..i + 1][..i] == visits[..i];
      total := total + (visits[i].arrive - visits[i].variant.opens);
    }
  }

  /** `_best_insertion`. */
  method BestInsertion(r: Request, routes: Routes, variants: seq<Variant>) returns (best: Option<Placement>)
    requires ValidRoutes(r, routes) && CoversDays(routes, variants)
    ensures best.None? <==> !exists i: nat, position: nat :: Fits(r, routes, variants, i, position)
    ensures best.Some? ==> IsCheapest(r, routes, variants, best.value)
  {
    hide Fits, BestSoFar, IsFit, IsCheapest, Materialized, ValidRoutes;
    NothingTried(r, routes, variants);
    best := None;
    var bestScore := Score(0, 0, 0, 0, "");
    for n := 0 to |variants|
      invariant BestSoFar(r, routes, variants, n, 0, best, bestScore)
    {
      var variant := variants[n];
      var route := routes[variant.dayIndex];
      DayIsKnown(r, routes, variant.dayIndex);
      var day := DayFor(r.days, variant.dayIndex);
      var baseline := Materialize(r, day, route);
      for position := 0 to |route| + 1
        invariant BestSoFar(r, routes, variants, n, position, best, bestScore)
      {
        var attempt := Materialize(r, day, Inserted(route, position, variant));
        SkipInfeasible(r, routes, variants, n, position, best, bestScore);
        if attempt.feasible {
          var waiting := WaitingOf(attempt.visits);
          var score := Score(0 - variant.prize, attempt.travelSeconds - baseline.travelSeconds, waiting, position,
              variant.key);
          BetterSoFar(r, routes, variants, n, position, best, bestScore, attempt, score);
          if best.None? || score.Below(bestScore) {
            best, bestScore := Some(Placement(variant.dayIndex, position, variant, attempt)), score;
          }
        }
      }
      NextVariant(r, routes, variants, n, best, bestScore);
    }
    AllTried(r, routes, variants, best, bestScore);
  }

  /** The pairs already tried: every variant before `n`, and positions before `p` for variant `n`. */
  ghost predicate Tried(i: nat, position: nat, n: nat, p: nat) {
    i < n || (i == n && position < p)
  }

  /** `best` is cheapest among the pairs already tried. */
  ghost predicate BestSoFar(r: Request, routes: Routes, variants: seq<Variant>, n: nat, p: nat,
                            best: Option<Placement>, score: Score)
    requires ValidRoutes(r, routes)
  {
    match best
    case None =>
      forall i: nat, position: nat | Fits(r, routes, variants, i, position) :: !Tried(i, position, n, p)
    case Some(b) =>
      && IsFit(r, routes, variants, b) && score == ScoreOf(r, routes, b.variant, b.position)
      && forall i: nat, position: nat | Fits(r, routes, variants, i, position) && Tried(i, position, n, p) ::
           !ScoreOf(r, routes, variants[i], position).Below(score)
  }

  lemma NothingTried(r: Request, routes: Routes, variants: seq<Variant>)
    requires ValidRoutes(r, routes)
    ensures forall score :: BestSoFar(r, routes, variants, 0, 0, None, score)
  {
    hide Fits;
  }

  lemma AllTried(r: Request, routes: Routes, variants: seq<Variant>, best: Option<Placement>, score: Score)
    requires ValidRoutes(r, routes) && BestSoFar(r, routes, variants, |variants|, 0, best, score)
    ensures best.None? <==> !exists i: nat, position: nat :: Fits(r, routes, variants, i, position)
    ensures best.Some? ==> IsCheapest(r, routes, variants, best.value)
  {
    hide Proposal, ScoreOf;
    forall i: nat, position: nat | Fits(r, routes, variants, i, position)
      ensures Tried(i, position, |variants|, 0)
    {}
    if best.Some? {
      var i :| 0 <= i < |variants| && variants[i] == best.value.variant;
      assert Fits(r, routes, variants, i, best.value.position);
    }
  }

  lemma BetterSoFar(r: Request, routes: Routes, variants: seq<Variant>, n: nat, p: nat, best: Option<Placement>,
                    bestScore: Score, attempt: Attempt, score: Score)
    requires ValidRoutes(r, routes) && n < |variants| && variants[n].dayIndex in routes
        && p <= |routes[variants[n].dayIndex]|
    requires attempt == Proposal(r, routes, variants[n], p) && attempt.feasible
    requires score == ScoreOf(r, routes, variants[n], p)
    requires BestSoFar(r, routes, variants, n, p, best, bestScore)
    ensures best.None? || score.Below(bestScore) ==>
      BestSoFar(r, routes, variants, n, p + 1, Some(Placement(variants[n].dayIndex, p, variants[n], attempt)), score)
    ensures best.Some? && !score.Below(bestScore) ==> BestSoFar(r, routes, variants, n, p + 1, best, bestScore)
  {
    hide Proposal, ScoreOf;
    BelowIrreflexive(score);
    if best.Some? && score.Below(bestScore) {
      forall i: nat, position: nat | Fits(r, routes, variants, i, position) && Tried(i, position, n, p)
        ensures !ScoreOf(r, routes, variants[i], position).Below(score)
      {
        BelowNotAbove(score, bestScore, ScoreOf(r, routes, variants[i], position));
      }
    }
  }

  lemma SkipInfeasible(r: Request, routes: Routes, variants: seq<Variant>, n: nat, p: nat, best: Option<Placement>,
                       score: Score)
    requires ValidRoutes(r, routes) && n < |variants| && variants[n].dayIndex in routes
        && p <= |routes[variants[n].dayIndex]|
    requires BestSoFar(r, routes, variants, n, p, best, score)
    ensures !Proposal(r, routes, variants[n], p).feasible ==> BestSoFar(r, routes, variants, n, p + 1, best, score)
  {
    hide Proposal, ScoreOf;
  }

  lemma NextVariant(r: Request, routes: Routes, variants: seq<Variant>, n: nat, best: Option<Placement>, score: Score)
    requires ValidRoutes(r, routes) && n < |variants| && variants[n].dayIndex in routes
    requires BestSoFar(r, routes, variants, n, |routes[variants[n].dayIndex]| + 1, best, score)
    ensures BestSoFar(r, routes, variants, n + 1, 0, best, score)
  {
    hide Proposal, ScoreOf;
    forall i: nat, position: nat | Fits(r, routes, variants, i, position) && Tried(i, position, n + 1, 0)
      ensures Tried(i, position, n, |routes[variants[n].dayIndex]| + 1)
    {}
  }

  // ------------------------------------------------------------- what cheapest means

  /** Waiting is summed over the visits, each counted from its opening to the arrival. */
  lemma {:induction false} WaitingAdds(a: seq<Visit>, b: seq<Visit>)
    ensures Waiting(a + b) == Waiting(a) + Waiting(b)
    ensures forall x: Visit :: Waiting([x]) == x.arrive - x.variant.opens
  {
    forall x: Visit
      ensures Waiting([x]) == x.arrive - x.variant.opens
    {
      assert [x][..0] == [];
    }
    if b == [] {
      assert a + b == a;
    } else {
      WaitingAdds(a, b[..|b| - 1]);
      assert (a + b)[..|a + b| - 1] == a + b[..|b| - 1];
    }
  }

  /** Travel seconds that an insertion adds to its day. */
  function AddedTravel(r: Request, routes: Routes, v: Variant, position: nat): int
    requires ValidRoutes(r, routes) && v.dayIndex in routes && position <= |routes[v.dayIndex]|
  {
    Proposal(r, routes, v, position).travelSeconds
      - Materialized(r, DayFor(r.days, v.dayIndex), routes[v.dayIndex]).travelSeconds
  }

  /**
   * A cheapest insertion earns at least as much as any other feasible one; among those that
   * earn as much it adds the least travel, then waits the least, then comes first in the
   * route, and then has the smallest key.
   */
  lemma CheapestBeats(r: Request, routes: Routes, variants: seq<Variant>, best: Placement, i: nat, position: nat)
    requires IsCheapest(r, routes, variants, best) && Fits(r, routes, variants, i, position)
    ensures var v, w := variants[i], best.variant;
      var added, least := AddedTravel(r, routes, v, position), AddedTravel(r, routes, w, best.position);
      var waits, shortest := Waiting(Proposal(r, routes, v, position).visits), Waiting(best.attempt.visits);
      && v.prize <= w.prize
      && (v.prize == w.prize ==> least <= added)
      && (v.prize == w.prize && added == least ==> shortest <= waits)
      && (v.prize == w.prize && added == least && waits == shortest ==> best.position <= position)
      && (v.prize == w.prize && added == least && waits == shortest && position == best.position ==>
          AtMost(w.key, v.key))
  {
    hide Proposal, Materialized, Waiting;
    assert !ScoreOf(r, routes, variants[i], position).Below(ScoreOf(r, routes, best.variant, best.position));
  }
}
