/**
 * The key that `midpoint` returns is, among all keys between the bounds, a shortest one and
 * the middle one of its length; and what that means for a list that grows at its front.
 */
module Middle {
  import opened Prelude
  import opened Keys

  // ------------------------------------------------------------- shortest

  /** `k` is a canonical string strictly between the bounds. */
  ghost predicate Between(a: string, k: string, b: Option<string>) {
    Canonical(k) && Less(a, k) && (b.Some? ==> Less(k, b.value))
  }

  /** No key between the bounds is shorter. */
  ghost predicate Shortest(a: string, r: string, b: Option<string>) {
    forall k | Between(a, k, b) :: |r| <= |k|
  }

  /** Where both bounds go the same way, everything between them goes that way too. */
  lemma {:induction false} BetweenSharesPrefix(a: string, k: string, b: string, n: nat)
    requires AscendingBounds(a, Some(b)) && Between(a, k, Some(b))
    requires n < |b| && PaddedPrefix(a, b[..n])
    ensures n < |k| && k[..n] == b[..n]
    ensures Canonical(Slice(a, n)) && Canonical(b[n..]) && Between(Slice(a, n), k[n..], Some(b[n..]))
    decreases n
  {
    if n == 0 {
    } else {
      assert PaddedAt(a, 0) == b[..n][0];
      BetweenSharesDigit(a, k, b);
      PrefixOfRest(a, b, n);
      BetweenSharesPrefix(Slice(a, 1), k[1..], b[1..], n - 1);
      assert Slice(Slice(a, 1), n - 1) == Slice(a, n) && b[1..][n - 1..] == b[n..] && k[1..][n - 1..] == k[n..];
      assert k[..n] == [k[0]] + k[1..][..n - 1] && b[..n] == [b[0]] + b[1..][..n - 1];
    }
  }

  lemma BetweenSharesDigit(a: string, k: string, b: string)
    requires AscendingBounds(a, Some(b)) && Between(a, k, Some(b)) && |b| > 1 && PaddedAt(a, 0) == b[0]
    ensures k != "" && k[0] == b[0]
    ensures AscendingBounds(Slice(a, 1), Some(b[1..])) && Between(Slice(a, 1), k[1..], Some(b[1..]))
  {
    assert k[0] == b[0];
    assert k == [k[0]] + k[1..];
  }

  lemma PrefixOfRest(a: string, b: string, n: nat)
    requires 0 < n < |b| && PaddedPrefix(a, b[..n])
    ensures PaddedPrefix(Slice(a, 1), b[1..][..n - 1])
  {
    forall i | 0 <= i < n - 1
      ensures PaddedAt(Slice(a, 1), i) == b[1..][..n - 1][i]
    {
      assert PaddedAt(Slice(a, 1), i) == PaddedAt(a, i + 1) && b[1..][..n - 1][i] == b[..n][i + 1];
    }
  }

  lemma {:induction false} MidpointIsShortest(a: string, b: Option<string>)
    requires AscendingBounds(a, b)
    ensures MidpointOf(a, b).Ok? && Shortest(a, MidpointOf(a, b).value, b)
    decreases if b.Some? then 1 + |b.value| else 0, |a|, 1
  {
    MidpointIsBetween(a, b);
    if b.Some? && SharedPrefix(a, b.value, 0) > 0 {
      var n := SharedPrefix(a, b.value, 0);
      PrefixLeavesUpperBound(a, b.value, n);
      MidpointIsShortest(Slice(a, n), Some(b.value[n..]));
      forall k | Between(a, k, b)
        ensures |MidpointOf(a, b).value| <= |k|
      {
        BetweenSharesPrefix(a, k, b.value, n);
      }
    } else {
      ShortestOfDistinctDigits(a, b);
    }
  }

  lemma {:induction false} ShortestOfDistinctDigits(a: string, b: Option<string>)
    requires AscendingBounds(a, b) && (b.Some? ==> SharedPrefix(a, b.value, 0) == 0)
    ensures MidpointOf(a, b).Ok? && Shortest(a, MidpointOf(a, b).value, b)
    decreases if b.Some? then 1 + |b.value| else 0, |a|, 0
  {
    MidpointIsBetween(a, b);
    if UpperDigit(b) - Digit(PaddedAt(a, 0)) > 1 || (b.Some? && |b.value| > 1) {
      assert |MidpointOf(a, b).value| == 1;
    } else {
      MidpointIsShortest(Slice(a, 1), None);
      forall k | Between(a, k, b)
        ensures |MidpointOf(a, b).value| <= |k|
      {
        FollowsLowerBound(a, k, b);
      }
    }
  }

  /** Where the digits are consecutive, everything between the bounds starts as the lower one does. */
  lemma FollowsLowerBound(a: string, k: string, b: Option<string>)
    requires AscendingBounds(a, b) && Between(a, k, b) && (b.Some? ==> |b.value| == 1)
    requires UpperDigit(b) - Digit(PaddedAt(a, 0)) <= 1
    ensures k != "" && k[0] == PaddedAt(a, 0) && Between(Slice(a, 1), k[1..], None)
  {
    if b.None? {
      assert a != "" && Digit(a[0]) == BASE - 1;
      assert Digit(k[0]) <= BASE - 1;
    } else {
      assert !Less(k[1..], b.value[1..]);
      SameDigit(k[0], b.value[0]);
    }
    SameDigit(k[0], PaddedAt(a, 0));
    assert k == [k[0]] + k[1..];
  }

  lemma SameDigit(c: char, d: char)
    requires IsDigit(c) && IsDigit(d)
    ensures Digit(c) == Digit(d) <==> c == d
    ensures Digit(c) < Digit(d) <==> c < d
  {}

  // ------------------------------------------------------------- in the middle

  /** The digit that bounds a key of prefix `p` from above. */
  ghost function DigitAbove(p: string, b: Option<string>): nat
    requires b.Some? ==> AllDigits(b.value)
  {
    if b.Some? && |p| < |b.value| && p == b.value[..|p|] then Digit(b.value[|p|]) else BASE
  }

  /**
   * All digits but the last follow the lower bound.  The last one halves the gap between the
   * bounding digits, rounding up; if they are neighbours, it is the upper one, and the upper
   * bound goes on.
   */
  ghost predicate Halves(a: string, r: string, b: Option<string>)
    requires AllDigits(a) && AllDigits(r) && (b.Some? ==> AllDigits(b.value))
  {
    r != "" && PaddedPrefix(a, r[..|r| - 1])
    && var p, last := r[..|r| - 1], Digit(r[|r| - 1]);
       var below, above := Digit(PaddedAt(a, |p|)), DigitAbove(p, b);
       if above == below + 1 then last == above && b.Some? && |b.value| > |r|
       else above > below + 1 && below + above <= 2 * last <= below + above + 1
  }

  /** `r` lies between the bounds, no key between them is shorter, and it is the middle one of its length. */
  ghost predicate IsMiddle(a: string, r: string, b: Option<string>)
    requires AscendingBounds(a, b)
  {
    Between(a, r, b) && Shortest(a, r, b) && Halves(a, r, b)
  }

  lemma HalvesWithPrefix(a: string, t: string, b: string, n: nat)
    requires AllDigits(a) && AllDigits(t) && AllDigits(b) && 0 < n < |b| && PaddedPrefix(a, b[..n])
    requires AllDigits(Slice(a, n)) && AllDigits(b[n..]) && Halves(Slice(a, n), t, Some(b[n..]))
    ensures AllDigits(b[..n] + t) && Halves(a, b[..n] + t, Some(b))
  {
    var r, p := b[..n] + t, t[..|t| - 1];
    assert r[..|r| - 1] == b[..n] + p;
    forall i | 0 <= i < |r| - 1
      ensures PaddedAt(a, i) == r[..|r| - 1][i]
    {
      if i < n {
        assert b[..n][i] == r[..|r| - 1][i];
      } else {
        assert PaddedAt(a, i) == PaddedAt(Slice(a, n), i - n) && p[i - n] == r[..|r| - 1][i];
      }
    }
    assert PaddedAt(a, n + |p|) == PaddedAt(Slice(a, n), |p|);
    assert n + |p| < |b| ==> b[..n + |p|] == b[..n] + b[n..][..|p|];
    assert DigitAbove(b[..n] + p, Some(b)) == DigitAbove(p, Some(b[n..]));
  }

  lemma HalvesAfterDigit(a: string, t: string, b: Option<string>)
    requires AscendingBounds(a, b) && AllDigits(t) && AllDigits(Slice(a, 1))
    requires b.Some? ==> |b.value| == 1 && PaddedAt(a, 0) != b.value[0]
    requires Halves(Slice(a, 1), t, None)
    ensures AllDigits([PaddedAt(a, 0)] + t) && Halves(a, [PaddedAt(a, 0)] + t, b)
  {
    var r, p := [PaddedAt(a, 0)] + t, t[..|t| - 1];
    assert r[..|r| - 1] == [PaddedAt(a, 0)] + p;
    forall i | 0 < i < |r| - 1
      ensures PaddedAt(a, i) == r[..|r| - 1][i]
    {
      assert PaddedAt(a, i) == PaddedAt(Slice(a, 1), i - 1) && p[i - 1] == r[..|r| - 1][i];
    }
    assert PaddedAt(a, 1 + |p|) == PaddedAt(Slice(a, 1), |p|);
  }

  lemma {:induction false} MidpointHalves(a: string, b: Option<string>)
    requires AscendingBounds(a, b)
    ensures MidpointOf(a, b).Ok? && AllDigits(MidpointOf(a, b).value) && Halves(a, MidpointOf(a, b).value, b)
    decreases if b.Some? then 1 + |b.value| else 0, |a|, 1
  {
    hide Halves;
    MidpointIsBetween(a, b);
    if b.Some? && SharedPrefix(a, b.value, 0) > 0 {
      var n := SharedPrefix(a, b.value, 0);
      PrefixLeavesUpperBound(a, b.value, n);
      MidpointHalves(Slice(a, n), Some(b.value[n..]));
      HalvesWithPrefix(a, MidpointOf(Slice(a, n), Some(b.value[n..])).value, b.value, n);
    } else {
      HalvesDistinctDigits(a, b);
    }
  }

  lemma {:induction false} HalvesDistinctDigits(a: string, b: Option<string>)
    requires AscendingBounds(a, b) && (b.Some? ==> SharedPrefix(a, b.value, 0) == 0)
    ensures MidpointOf(a, b).Ok? && AllDigits(MidpointOf(a, b).value) && Halves(a, MidpointOf(a, b).value, b)
    decreases if b.Some? then 1 + |b.value| else 0, |a|, 0
  {
    MidpointIsBetween(a, b);
    SameDigit(PaddedAt(a, 0), if b.Some? then b.value[0] else ZERO);
    if UpperDigit(b) - Digit(PaddedAt(a, 0)) > 1 || (b.Some? && |b.value| > 1) {
      assert MidpointOf(a, b).value[..0] == "";
    } else {
      MidpointHalves(Slice(a, 1), None);
      HalvesAfterDigit(a, MidpointOf(Slice(a, 1), None).value, b);
      assert DigitChar(Digit(PaddedAt(a, 0))) == PaddedAt(a, 0) by {
        SameDigit(DigitChar(Digit(PaddedAt(a, 0))), PaddedAt(a, 0));
      }
    }
  }

  /** There is one such key. */
  lemma MiddleIsUnique(a: string, r: string, s: string, b: Option<string>)
    requires AscendingBounds(a, b) && IsMiddle(a, r, b) && IsMiddle(a, s, b)
    ensures r == s
  {
    var n := |r| - 1;
    assert |r| == |s|;
    assert r[..n] == s[..n];
    SameDigit(r[n], s[n]);
    assert r == r[..n] + [r[n]] && s == s[..n] + [s[n]];
  }

  /** `midpoint` returns the middle of the shortest keys between its bounds, and nothing else is that. */
  lemma MidpointIsTheMiddle(a: string, b: Option<string>, r: string)
    requires AscendingBounds(a, b)
    ensures MidpointOf(a, b) == Ok(r) <==> IsMiddle(a, r, b)
  {
    hide Halves, Shortest;
    MidpointIsBetween(a, b);
    MidpointIsShortest(a, b);
    MidpointHalves(a, b);
    if IsMiddle(a, r, b) {
      MiddleIsUnique(a, r, MidpointOf(a, b).value, b);
    }
  }

  // ------------------------------------------------------------- growing at the front

  /** `keyBefore`. */
  function KeyBefore(b: string): (k: string)
    requires IsValidKey(b)
    ensures IsValidKey(k) && Less(k, b)
  {
    KeyBetweenContract(None, Some(b));
    KeyBetween(None, Some(b)).value
  }

  /** The first key of a list after `moves` rows were put in front of it, one after the other. */
  function FirstKey(b: string, moves: nat): (k: string)
    requires IsValidKey(b)
    ensures IsValidKey(k)
    decreases moves
  {
    if moves == 0 then b else FirstKey(KeyBefore(b), moves - 1)
  }

  /** How many zeros a key starts with. */
  function Zeros(k: string): (n: nat)
    ensures n <= |k| && (forall i | 0 <= i < n :: k[i] == ZERO) && (n < |k| ==> k[n] != ZERO)
  {
    if k != "" && k[0] == ZERO then 1 + Zeros(k[1..]) else 0
  }

  lemma ZerosOf(k: string, n: nat)
    requires n < |k| && k[n] != ZERO && forall i | 0 <= i < n :: k[i] == ZERO
    ensures Zeros(k) == n
  {}

  lemma ValidKeyHasDigit(k: string)
    requires IsValidKey(k)
    ensures Zeros(k) < |k|
  {}

  /** The first digit of a key that is not zero. */
  function FirstDigit(k: string): (d: nat)
    requires IsValidKey(k)
    ensures 1 <= d < BASE
  {
    ValidKeyHasDigit(k);
    SameNonZero(k[Zeros(k)]);
    Digit(k[Zeros(k)])
  }

  lemma SameNonZero(c: char)
    requires IsDigit(c)
    ensures Digit(c) == 0 <==> c == ZERO
  {}

  /** What goes in front of a key that does not start with zero. */
  lemma BeforeTail(tail: string)
    requires IsValidKey(tail) && tail[0] != ZERO
    ensures MidpointOf("", Some(tail)).Ok?
    ensures var d, t := Digit(tail[0]), MidpointOf("", Some(tail)).value;
      if d > 1 then t == [DigitChar((d + 1) / 2)]
      else if |tail| > 1 then t == [DigitChar(1)]
      else t == [DigitChar(0), DigitChar(31)]
  {
    SameNonZero(tail[0]);
    SameDigit(tail[0], DigitChar(1));
    assert MidpointOf("", None) == Ok([DigitChar(31)]);
    assert tail[..1] == [tail[0]];
    assert [DigitChar(0)] + [DigitChar(31)] == [DigitChar(0), DigitChar(31)];
  }

  lemma BeforeZeros(b: string)
    requires IsValidKey(b)
    ensures var z := Zeros(b);
      && z < |b| && IsValidKey(b[z..]) && b[z] != ZERO
      && MidpointOf("", Some(b[z..])).Ok? && KeyBefore(b) == b[..z] + MidpointOf("", Some(b[z..])).value
  {
    hide MidpointOf, KeyBefore, IsValidKey, SharedPrefix;
    var z := Zeros(b);
    TailIsKey(b);
    BeforeTail(b[z..]);
    KeyBeforeIs(b);
    if z == 0 {
      assert b[..0] == "" && b[0..] == b;
    } else {
      SharedZeros(b, 0);
      MidpointAfterPrefix(b, z);
    }
  }

  lemma TailIsKey(b: string)
    requires IsValidKey(b)
    ensures Zeros(b) < |b| && IsValidKey(b[Zeros(b)..]) && AllDigits(b[Zeros(b)..]) && b[Zeros(b)] != ZERO
  {
    ValidKeyHasDigit(b);
  }

  lemma KeyBeforeIs(b: string)
    requires IsValidKey(b)
    ensures MidpointOf("", Some(b)).Ok? && KeyBefore(b) == MidpointOf("", Some(b)).value
  {
    hide MidpointOf;
    KeyBetweenContract(None, Some(b));
  }

  lemma MidpointAfterPrefix(b: string, z: nat)
    requires IsValidKey(b) && 0 < z < |b| && SharedPrefix("", b, 0) == z && AllDigits(b[z..])
    requires MidpointOf("", Some(b[z..])).Ok?
    ensures MidpointOf("", Some(b)) == Ok(b[..z] + MidpointOf("", Some(b[z..])).value)
  {
    hide SharedPrefix;
    assert Slice("", z) == "" && Less("", b);
  }

  /** What goes in front of a key: half its first digit, or a new digit under a lone 1. */
  lemma BeforeKey(b: string)
    requires IsValidKey(b)
    ensures var z, d, k := Zeros(b), FirstDigit(b), KeyBefore(b);
      if d > 1 then |k| == z + 1 && FirstDigit(k) == (d + 1) / 2
      else if |b| > z + 1 then |k| == z + 1 && FirstDigit(k) == 1
      else |k| == z + 2 && FirstDigit(k) == 31
  {
    hide KeyBefore, MidpointOf;
    var z, d, k := Zeros(b), FirstDigit(b), KeyBefore(b);
    BeforeZeros(b);
    BeforeTail(b[z..]);
    var t := MidpointOf("", Some(b[z..])).value;
    SameNonZero(DigitChar(0));
    SameNonZero(DigitChar(31));
    if |t| == 2 {
      ZerosOf(k, z + 1);
    } else {
      SameNonZero(t[0]);
      ZerosOf(k, z);
    }
  }

  lemma {:induction false} SharedZeros(b: string, n: nat)
    requires n <= Zeros(b)
    ensures SharedPrefix("", b, n) == Zeros(b)
    decreases Zeros(b) - n
  {
    if n < Zeros(b) {
      SharedZeros(b, n + 1);
    }
  }

  /** How many prepends, counted up to six, until the key grows. */
  function Patience(d: nat): nat {
    if d <= 1 then 1 else if d <= 2 then 2 else if d <= 4 then 3 else if d <= 8 then 4 else if d <= 16 then 5 else 6
  }

  lemma {:induction false} PatientGrowth(b: string, moves: nat)
    requires IsValidKey(b)
    ensures 6 * |FirstKey(b, moves)| <= 6 * |b| + moves + 6 - Patience(FirstDigit(b))
    decreases moves
  {
    hide KeyBefore, FirstDigit, IsValidKey;
    if moves == 0 {
    } else {
      BeforeKey(b);
      ValidKeyHasDigit(b);
      PatientGrowth(KeyBefore(b), moves - 1);
    }
  }

  /** Putting row after row in front of a list lengthens the first key by one digit in six moves at most. */
  lemma PrependsAreCheap(b: string, moves: nat)
    requires IsValidKey(b)
    ensures |FirstKey(b, moves)| <= |b| + (moves + 5) / 6
  {
    PatientGrowth(b, moves);
  }
}
