/**
 * 2-opt improvement of one day's route: what it keeps, that it terminates, and
 * which reversals it does not try.
 */
module TwoOpt {
  import opened Prelude
  import opened SolverModel
  import opened Route

  /** The route with its segment [left, right) reversed. */
  function WithReversal<T>(s: seq<T>, left: nat, right: nat): (t: seq<T>)
    requires left <= right <= |s|
    ensures |t| == |s|
    ensures forall k | 0 <= k < |s| :: t[k] == s[if left <= k < right then left + right - 1 - k else k]
  {
    s[..left] + Reversed(s[left..right]) + s[right..]
  }

  lemma ReversalPermutes<T>(s: seq<T>, left: nat, right: nat)
    requires left <= right <= |s|
    ensures multiset(WithReversal(s, left, right)) == multiset(s)
  {
    ReversedPermutes(s[left..right]);
    assert s == s[..left] + s[left..right] + s[right..];
  }

  /** Reversing [left, right) gives a feasible route with less travel. */
  predicate Improves(r: Request, day: Day, route: seq<Variant>, left: nat, right: nat)
    requires left <= right <= |route|
  {
    var candidate := Materialized(r, day, WithReversal(route, left, right));
    candidate.feasible && candidate.travelSeconds < Materialized(r, day, route).travelSeconds
  }

  /** The pairs the loops range over: `left` stops three short of the end. */
  predicate InSearch(n: nat, left: nat, right: nat) {
    left + 3 <= n && left + 2 <= right <= n
  }

  /** Every segment of at least two stops. */
  predicate IsSegment(n: nat, left: nat, right: nat) {
    left + 2 <= right <= n
  }

  ghost predicate NoneInSearchImproves(r: Request, day: Day, route: seq<Variant>) {
    forall left: nat, right: nat | InSearch(|route|, left, right) :: !Improves(r, day, route, left, right)
  }

  ghost predicate LocallyOptimal(r: Request, day: Day, route: seq<Variant>) {
    forall left: nat, right: nat | IsSegment(|route|, left, right) :: !Improves(r, day, route, left, right)
  }

  /** The first pair, in the order of the loops, whose reversal helps. */
  ghost predicate FirstImproving(r: Request, day: Day, route: seq<Variant>, left: nat, right: nat) {
    && InSearch(|route|, left, right) && Improves(r, day, route, left, right)
    && forall l: nat, h: nat | InSearch(|route|, l, h) && (l < left || (l == left && h < right)) ::
         !Improves(r, day, route, l, h)
  }

  /** One turn of the search. */
  ghost predicate Turn(r: Request, day: Day, before: seq<Variant>, after: seq<Variant>) {
    exists left: nat, right: nat ::
      FirstImproving(r, day, before, left, right) && after == WithReversal(before, left, right)
  }

  ghost predicate IsDescent(r: Request, day: Day, trace: seq<seq<Variant>>) {
    trace != [] && forall i, n | 0 <= i < |trace| - 1 && n == i + 1 :: Turn(r, day, trace[i], trace[n])
  }

  ghost predicate DescendsTo(r: Request, day: Day, route: seq<Variant>, result: seq<Variant>,
                             trace: seq<seq<Variant>>) {
    IsDescent(r, day, trace) && trace[0] == route && trace[|trace| - 1] == result
  }

  /** Turn after turn until no pair in the search helps; short routes are left alone. */
  ghost predicate Polished(r: Request, day: Day, route: seq<Variant>, result: seq<Variant>) {
    if |route| < 4 then result == route
    else NoneInSearchImproves(r, day, result) && exists trace :: DescendsTo(r, day, route, result, trace)
  }

  lemma DescentExtends(r: Request, day: Day, trace: seq<seq<Variant>>, left: nat, right: nat)
    requires IsDescent(r, day, trace) && FirstImproving(r, day, trace[|trace| - 1], left, right)
    ensures IsDescent(r, day, trace + [WithReversal(trace[|trace| - 1], left, right)])
  {
    hide Improves, WithReversal;
    assert Turn(r, day, trace[|trace| - 1], WithReversal(trace[|trace| - 1], left, right));
  }

  lemma TurnIsUnique(r: Request, day: Day, before: seq<Variant>, a: seq<Variant>, b: seq<Variant>)
    requires Turn(r, day, before, a) && Turn(r, day, before, b)
    ensures a == b
  {
    hide Improves, WithReversal;
    var l, h :| FirstImproving(r, day, before, l, h) && a == WithReversal(before, l, h);
    var m, n :| FirstImproving(r, day, before, m, n) && b == WithReversal(before, m, n);
    assert l == m && h == n;
  }

  lemma {:induction false} DescentsAgree(r: Request, day: Day, a: seq<seq<Variant>>, b: seq<seq<Variant>>, k: nat)
    requires IsDescent(r, day, a) && IsDescent(r, day, b) && a[0] == b[0] && k < |a| && k < |b|
    ensures a[k] == b[k]
  {
    hide Turn;
    if k == 0 {
    } else {
      var before := k - 1;
      DescentsAgree(r, day, a, b, before);
      assert Turn(r, day, a[before], a[k]) && Turn(r, day, b[before], b[k]);
      TurnIsUnique(r, day, a[before], a[k], b[k]);
    }
  }

  lemma DescentGoesOn(r: Request, day: Day, trace: seq<seq<Variant>>, k: nat)
    requires IsDescent(r, day, trace) && k < |trace| - 1
    ensures !NoneInSearchImproves(r, day, trace[k])
  {
    hide Improves, WithReversal;
    var next := k + 1;
    assert Turn(r, day, trace[k], trace[next]);
  }

  /** A finished search does not go on. */
  lemma DescentsEndTogether(r: Request, day: Day, a: seq<seq<Variant>>, b: seq<seq<Variant>>)
    requires IsDescent(r, day, a) && IsDescent(r, day, b) && a[0] == b[0]
    requires NoneInSearchImproves(r, day, a[|a| - 1])
    ensures |b| <= |a|
  {
    hide NoneInSearchImproves, Turn;
    if |b| > |a| {
      DescentsAgree(r, day, a, b, |a| - 1);
      DescentGoesOn(r, day, b, |a| - 1);
    }
  }

  /** The improved route is determined by the route it started from. */
  lemma PolishedIsUnique(r: Request, day: Day, route: seq<Variant>, a: seq<Variant>, b: seq<Variant>)
    requires Polished(r, day, route, a) && Polished(r, day, route, b)
    ensures a == b
  {
    hide NoneInSearchImproves, IsDescent;
    if |route| >= 4 {
      var s :| DescendsTo(r, day, route, a, s);
      var t :| DescendsTo(r, day, route, b, t);
      SameEnd(r, day, s, t);
    }
  }

  lemma SameEnd(r: Request, day: Day, a: seq<seq<Variant>>, b: seq<seq<Variant>>)
    requires IsDescent(r, day, a) && IsDescent(r, day, b) && a[0] == b[0]
    requires NoneInSearchImproves(r, day, a[|a| - 1]) && NoneInSearchImproves(r, day, b[|b| - 1])
    ensures a[|a| - 1] == b[|b| - 1]
  {
    hide NoneInSearchImproves, Turn;
    DescentsEndTogether(r, day, a, b);
    DescentsEndTogether(r, day, b, a);
    DescentsAgree(r, day, a, b, |a| - 1);
  }

  /** `_two_opt`. */
  method Improve(r: Request, day: Day, route: seq<Variant>) returns (current: seq<Variant>)
    ensures multiset(current) == multiset(route)
    ensures Polished(r, day, route, current)
    ensures Materialized(r, day, current).travelSeconds <= Materialized(r, day, route).travelSeconds
    ensures current == route || Materialized(r, day, current).feasible
    ensures |route| < 4 ==> current == route
    ensures |route| >= 4 ==> NoneInSearchImproves(r, day, current)
    ensures NoneInSearchImproves(r, day, route) ==> current == route
    ensures |route| >= 4 ==> (LocallyOptimal(r, day, current) <==> !LastPairImproves(r, day, current))
    ensures |route| >= 4 && NoneInSearchImproves(r, day, route) ==>
      (LocallyOptimal(r, day, current) <==> !LastPairImproves(r, day, route))
  {
    hide Materialized, WithReversal, LocallyOptimal, LastPairImproves;
    if |route| < 4 {
      return route;
    }
    current := route;
    ghost var trace := [route];
    var currentAttempt := Materialize(r, day, current);
    var improved := true;
    while improved
      invariant currentAttempt == Materialized(r, day, current) && multiset(current) == multiset(route)
          && |current| == |route|
      invariant currentAttempt.travelSeconds <= Materialized(r, day, route).travelSeconds
      invariant current == route || currentAttempt.feasible
      invariant DescendsTo(r, day, route, current, trace)
      invariant !improved ==> NoneInSearchImproves(r, day, current)
      invariant NoneInSearchImproves(r, day, route) ==> current == route
      decreases currentAttempt.travelSeconds, improved
    {
      improved := false;
      ghost var start, startAttempt, startTrace := current, currentAttempt, trace;
      for left := 0 to |current| - 2
        invariant !improved && current == start && currentAttempt == startAttempt && trace == startTrace
        invariant forall l: nat, h: nat | InSearch(|current|, l, h) && l < left :: !Improves(r, day, current, l, h)
      {
        for right := left + 2 to |current| + 1
          invariant !improved && current == start && currentAttempt == startAttempt && trace == startTrace
          invariant forall l: nat, h: nat | InSearch(|current|, l, h) && (l < left || (l == left && h < right)) ::
            !Improves(r, day, current, l, h)
        {
          var candidate := WithReversal(current, left, right);
          var attempt := Materialize(r, day, candidate);
          if attempt.feasible && attempt.travelSeconds < currentAttempt.travelSeconds {
            assert Improves(r, day, current, left, right) && InSearch(|current|, left, right);
            assert FirstImproving(r, day, current, left, right);
            ReversalPermutes(current, left, right);
            DescentExtends(r, day, trace, left, right);
            trace := trace + [candidate];
            current, currentAttempt, improved := candidate, attempt, true;
            break;
          }
        }
        if improved {
          break;
        }
      }
    }
    LocalOptimalityOfResult(r, day, current);
  }

  /** Swapping the last two stops alone, which the search never tries, would help. */
  predicate LastPairImproves(r: Request, day: Day, route: seq<Variant>) {
    |route| >= 2 && Improves(r, day, route, |route| - 2, |route|)
  }

  /**
   * The search never reverses the last two stops alone.  A route it leaves is locally
   * optimal exactly when that one reversal would not improve it.
   */
  lemma LocalOptimalityOfResult(r: Request, day: Day, route: seq<Variant>)
    requires |route| >= 4 && NoneInSearchImproves(r, day, route)
    ensures LocallyOptimal(r, day, route) <==> !LastPairImproves(r, day, route)
  {
    hide Improves;
    assert IsSegment(|route|, |route| - 2, |route|);
    forall left: nat, right: nat | IsSegment(|route|, left, right)
      ensures InSearch(|route|, left, right) || (left == |route| - 2 && right == |route|)
    {}
  }
}
