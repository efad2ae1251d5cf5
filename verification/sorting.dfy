/** Stable sorting by an order, for the places where the program calls a library sort, and counting. */
module Sorting {
  /** `before(x, y)`: x may stand before y. */
  function Insert<T>(x: T, s: seq<T>, before: (T, T) -> bool): (r: seq<T>)
    ensures multiset(r) == multiset{x} + multiset(s)
  {
    if s == [] || before(x, s[0]) then [x] + s
    else
      assert s == [s[0]] + s[1..];
      [s[0]] + Insert(x, s[1..], before)
  }

  function SortBy<T>(s: seq<T>, before: (T, T) -> bool): (r: seq<T>)
    ensures multiset(r) == multiset(s)
  {
    if s == [] then []
    else
      assert s == [s[0]] + s[1..];
      Insert(s[0], SortBy(s[1..], before), before)
  }

  ghost predicate Total<T(!new)>(before: (T, T) -> bool) {
    && (forall x, y :: before(x, y) || before(y, x))
    && (forall x, y, z :: before(x, y) && before(y, z) ==> before(x, z))
  }

  ghost predicate SortedBy<T>(s: seq<T>, before: (T, T) -> bool) {
    forall i, j | 0 <= i < j < |s| :: before(s[i], s[j])
  }

  lemma {:induction false} InsertSorts<T(!new)>(x: T, s: seq<T>, before: (T, T) -> bool)
    requires Total(before) && SortedBy(s, before)
    ensures SortedBy(Insert(x, s, before), before)
  {
    if s == [] || before(x, s[0]) {
    } else {
      var rest := Insert(x, s[1..], before);
      InsertSorts(x, s[1..], before);
      forall j | 0 <= j < |rest|
        ensures before(s[0], rest[j])
      {
        assert rest[j] in multiset(rest);
        assert rest[j] == x || rest[j] in s[1..];
      }
    }
  }

  lemma {:induction false} SortBySorts<T(!new)>(s: seq<T>, before: (T, T) -> bool)
    requires Total(before)
    ensures SortedBy(SortBy(s, before), before)
  {
    if s == [] {
    } else {
      SortBySorts(s[1..], before);
      InsertSorts(s[0], SortBy(s[1..], before), before);
    }
  }

  /** A sequence already in order is left as it is. */
  lemma {:induction false} SortByKeepsSorted<T>(s: seq<T>, before: (T, T) -> bool)
    requires SortedBy(s, before)
    ensures SortBy(s, before) == s
  {
    if s == [] {
    } else {
      SortByKeepsSorted(s[1..], before);
      assert s == [s[0]] + s[1..];
    }
  }

  /** The head of a sorted, non-empty sequence stands before every element. */
  lemma SortByHead<T(!new)>(s: seq<T>, before: (T, T) -> bool)
    requires Total(before) && s != []
    ensures SortBy(s, before) != [] && SortBy(s, before)[0] in s
    ensures forall x | x in s :: before(SortBy(s, before)[0], x)
  {
    var r := SortBy(s, before);
    SortBySorts(s, before);
    assert |r| == |s| by {
      assert |multiset(r)| == |r| && |multiset(s)| == |s|;
    }
    assert r[0] in multiset(r);
    forall x | x in s
      ensures before(r[0], x)
    {
      assert x in multiset(s);
      var i :| 0 <= i < |r| && r[i] == x;
      if i == 0 {
        assert before(x, x);
      }
    }
  }

  // ------------------------------------------------------------- counting

  ghost function Count<T>(s: seq<T>, f: T -> bool): nat {
    if s == [] then 0 else Count(s[1..], f) + (if f(s[0]) then 1 else 0)
  }

  lemma {:induction false} CountConcat<T>(a: seq<T>, b: seq<T>, f: T -> bool)
    ensures Count(a + b, f) == Count(a, f) + Count(b, f)
  {
    if a == [] {
      assert a + b == b;
    } else {
      CountConcat(a[1..], b, f);
      assert (a + b)[1..] == a[1..] + b;
    }
  }

  lemma CountOne<T>(x: T, f: T -> bool)
    ensures Count([x], f) == if f(x) then 1 else 0
  {}

  lemma {:induction false} CountPermuted<T>(a: seq<T>, b: seq<T>, f: T -> bool)
    requires multiset(a) == multiset(b)
    ensures Count(a, f) == Count(b, f)
  {
    if a == [] {
      assert |multiset(b)| == 0;
    } else {
      var x := a[0];
      assert a == [x] + a[1..];
      assert x in multiset(b);
      var i: nat :| i < |b| && b[i] == x;
      assert b == b[..i] + [x] + b[i + 1..];
      assert multiset(a[1..]) == multiset(a) - multiset{x};
      assert multiset(b[..i] + b[i + 1..]) == multiset(b) - multiset{x};
      CountPermuted(a[1..], b[..i] + b[i + 1..], f);
      CountConcat(b[..i], b[i + 1..], f);
      CountConcat(b[..i] + [x], b[i + 1..], f);
      CountConcat(b[..i], [x], f);
      CountOne(x, f);
    }
  }

  lemma {:induction false} CountPositive<T>(s: seq<T>, f: T -> bool)
    ensures Count(s, f) > 0 <==> exists k :: 0 <= k < |s| && f(s[k])
  {
    if s == [] {
    } else {
      CountPositive(s[1..], f);
      if !f(s[0]) && exists k :: 0 <= k < |s| && f(s[k]) {
        var k :| 0 <= k < |s| && f(s[k]);
        assert s[1..][k - 1] == s[k];
      }
    }
  }

  /** The places that hit. */
  ghost function Hits<T>(s: seq<T>, f: T -> bool): set<int> {
    set k | 0 <= k < |s| && f(s[k])
  }

  lemma {:induction false} CountIsCardinality<T>(s: seq<T>, f: T -> bool)
    ensures Count(s, f) == |Hits(s, f)|
  {
    if s == [] {
    } else {
      var n := |s| - 1;
      CountIsCardinality(s[..n], f);
      CountConcat(s[..n], [s[n]], f);
      CountOne(s[n], f);
      assert s == s[..n] + [s[n]];
      assert Hits(s, f) == Hits(s[..n], f) + (if f(s[n]) then {n} else {});
    }
  }

  lemma TwoHitsCountTwice<T>(s: seq<T>, k: nat, l: nat, f: T -> bool)
    requires k < l < |s| && f(s[k]) && f(s[l])
    ensures Count(s, f) >= 2
  {
    assert s == s[..l] + s[l..];
    CountConcat(s[..l], s[l..], f);
    assert f(s[..l][k]) && f(s[l..][0]);
    CountPositive(s[..l], f);
    CountPositive(s[l..], f);
  }

  // ------------------------------------------------------------- permuting

  function Upto(n: nat): (r: seq<nat>)
    ensures |r| == n && forall i | 0 <= i < n :: r[i] == i
  {
    seq(n, i requires 0 <= i < n => i)
  }

  /** The elements of s at the given places. */
  function Pick<T>(s: seq<T>, places: seq<nat>): (r: seq<T>)
    requires forall i | 0 <= i < |places| :: places[i] < |s|
    ensures |r| == |places| && forall i | 0 <= i < |r| :: r[i] == s[places[i]]
  {
    seq(|places|, i requires 0 <= i < |places| => s[places[i]])
  }

  function Without<T>(s: seq<T>, i: nat): (r: seq<T>)
    requires i < |s|
    ensures |r| == |s| - 1 && forall k | 0 <= k < |r| :: r[k] == s[if k < i then k else k + 1]
  {
    s[..i] + s[i + 1..]
  }

  lemma WithoutOne<T>(s: seq<T>, i: nat)
    requires i < |s|
    ensures multiset(s) == multiset(Without(s, i)) + multiset{s[i]}
  {
    assert s == s[..i] + [s[i]] + s[i + 1..];
  }

  lemma SameWithout<T>(a: seq<T>, b: seq<T>, i: nat, j: nat)
    requires multiset(a) == multiset(b) && i < |a| && j < |b| && a[i] == b[j]
    ensures multiset(Without(a, i)) == multiset(Without(b, j))
  {
    WithoutOne(a, i);
    WithoutOne(b, j);
    assert multiset(Without(a, i)) == multiset(a) - multiset{a[i]};
    assert multiset(Without(b, j)) == multiset(b) - multiset{b[j]};
  }

  lemma {:induction false} PickPermutes<T>(s: seq<T>, a: seq<nat>, b: seq<nat>)
    requires multiset(a) == multiset(b)
    requires forall i | 0 <= i < |a| :: a[i] < |s|
    requires forall i | 0 <= i < |b| :: b[i] < |s|
    ensures multiset(Pick(s, a)) == multiset(Pick(s, b))
    decreases |a|
  {
    if a == [] {
      assert |multiset(b)| == 0;
    } else {
      assert a[0] in multiset(b);
      var i: nat :| i < |b| && b[i] == a[0];
      SameWithout(a, b, 0, i);
      PickPermutes(s, Without(a, 0), Without(b, i));
      PickWithout(s, a, 0);
      PickWithout(s, b, i);
    }
  }

  lemma PickWithout<T>(s: seq<T>, places: seq<nat>, i: nat)
    requires i < |places| && forall k | 0 <= k < |places| :: places[k] < |s|
    ensures multiset(Pick(s, places)) == multiset(Pick(s, Without(places, i))) + multiset{s[places[i]]}
  {
    WithoutOne(Pick(s, places), i);
    assert Pick(s, Without(places, i)) == Without(Pick(s, places), i);
  }
}
