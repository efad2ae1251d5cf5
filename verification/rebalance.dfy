/**
 * Fresh evenly spaced keys for a whole list: `rebalanceKeys`, its big-integer
 * digit loops, and why the keys it returns are valid, short and ascending.
 */
module Rebalance {
  import opened Keys
  import opened Prelude

  // --------------------------------------------------------- powers of the base

  function Pow62(m: nat): (p: nat)
    ensures p >= 1
  {
    if m == 0 then 1 else 62 * Pow62(m - 1)
  }

  lemma {:induction false} Pow62Monotone(m: nat, n: nat)
    requires m <= n
    ensures Pow62(m) <= Pow62(n)
    decreases n
  {
    if m >= n {
    } else {
      Pow62Monotone(m, n - 1);
    }
  }

  /** Smallest exponent from `m` on whose power reaches `need`. */
  function ExponentFor(need: nat, m: nat): (n: nat)
    ensures n >= m && Pow62(n) >= need
    decreases need - Pow62(m)
  {
    if Pow62(m) >= need then m else ExponentFor(need, m + 1)
  }

  lemma {:induction false} ExponentIsSmallest(need: nat, m: nat, k: nat)
    requires Pow62(k) >= need && k >= m
    ensures ExponentFor(need, m) <= k
    decreases need - Pow62(m)
  {
    if Pow62(m) >= need {
    } else {
      ExponentIsSmallest(need, m + 1, k);
    }
  }

  /** The digit count for `count` keys: enough to tell them apart, and one more. */
  function KeyWidth(count: nat): nat {
    ExponentFor(count + 1, 1) + 1
  }

  // -------------------------------------------------------------------- digits

  /** The `m` base-62 digits of `v`, most significant first. */
  function Encode(v: nat, m: nat): (s: string)
    ensures |s| == m && AllDigits(s)
  {
    if m == 0 then "" else Encode(v / BASE, m - 1) + [DigitChar(v % BASE)]
  }

  function StripTrailingZeros(s: string): string {
    if EndsWithZero(s) then StripTrailingZeros(s[..|s| - 1]) else s
  }

  function ScaledFloor(i: nat, cap: nat, need: nat): nat
    requires need > 0
  {
    i * cap / need
  }

  /** The value `floor(i * 62^m / (count + 1))` that key `i` encodes. */
  function SlotValue(count: nat, i: nat): nat {
    ScaledFloor(i, Pow62(KeyWidth(count)), count + 1)
  }

  function SlotKey(count: nat, i: nat): string {
    StripTrailingZeros(Encode(SlotValue(count, i), KeyWidth(count)))
  }

  /** All keys of a rebalanced list of `count` rows; row `k` gets slot `k + 1`. */
  function SlotKeys(count: nat): (keys: seq<string>)
    ensures |keys| == count
    ensures forall k | 0 <= k < count :: keys[k] == SlotKey(count, k + 1)
  {
    Tabulated(count, k => SlotKey(count, k + 1))
  }

  method StripZeros(s: string) returns (r: string)
    ensures r == StripTrailingZeros(s)
  {
    var end := |s|;
    assert s[..end] == s;
    while end > 0 && s[end - 1] == ZERO
      invariant 0 <= end <= |s|
      invariant StripTrailingZeros(s) == StripTrailingZeros(s[..end])
    {
      end := end - 1;
      assert s[..end + 1][..end] == s[..end];
    }
    r := s[..end];
  }

  method EncodeDigits(value: nat, m: nat) returns (s: string)
    ensures s == Encode(value, m)
  {
    var v := value;
    var buf := "";
    for k := 0 to m
      invariant |buf| == k <= m
      invariant v >= 0 && Encode(value, m) == Encode(v, m - k) + Reversed(buf)
    {
      var c := DigitChar(v % BASE);
      assert (buf + [c])[..k] == buf;
      buf := buf + [c];
      v := v / BASE;
    }
    s := Reversed(buf);
  }

  /** `rebalanceKeys`. */
  method RebalanceKeys(count: int) returns (keys: seq<string>)
    ensures keys == if count <= 0 then [] else SlotKeys(count)
  {
    if count <= 0 {
      return [];
    }
    var need := count + 1;
    var m, cap := 1, BASE;
    while cap < need
      invariant m >= 1 && cap == Pow62(m)
      invariant ExponentFor(need, 1) == ExponentFor(need, m)
      decreases need - cap
    {
      cap := cap * BASE;
      m := m + 1;
    }
    m := m + 1;
    cap := cap * BASE;

    keys := [];
    for i := 1 to count + 1
      invariant |keys| == i - 1
      invariant forall k | 0 <= k < i - 1 :: keys[k] == SlotKey(count, k + 1)
    {
      var buf := EncodeDigits(i * cap / need, m);
      var key := StripZeros(buf);
      keys := keys + [key];
    }
  }

  // ------------------------------------------------- what the keys stand for

  /** `x` moved `m` digit places to the right: x / 62^m. */
  ghost function Shift(x: real, m: nat): real {
    if m == 0 then x else Shift(x, m - 1) / 62.0
  }

  lemma {:induction false} ShiftAdds(x: real, y: real, m: nat)
    ensures Shift(x + y, m) == Shift(x, m) + Shift(y, m)
  {
    if m == 0 {
    } else {
      ShiftAdds(x, y, m - 1);
    }
  }

  lemma {:induction false} ShiftAscends(x: real, y: real, m: nat)
    ensures x < y ==> Shift(x, m) < Shift(y, m)
    ensures x <= y ==> Shift(x, m) <= Shift(y, m)
    ensures Shift(0.0, m) == 0.0
  {
    if m == 0 {
    } else {
      ShiftAscends(x, y, m - 1);
    }
  }

  lemma {:induction false} ShiftWholeBase(x: real, m: nat)
    ensures Shift(62.0 * x, m + 1) == Shift(x, m)
  {
    if m == 0 {
    } else {
      ShiftWholeBase(x, m - 1);
    }
  }

  lemma {:induction false} ShiftCancelsPower(x: real, y: real, m: nat)
    requires y == x * Pow62(m) as real
    ensures Shift(y, m) == x
    decreases m
  {
    if m == 0 {
    } else {
      assert y == 62.0 * x * Pow62(m - 1) as real;
      ShiftCancelsPower(62.0 * x, y, m - 1);
    }
  }

  lemma {:induction false} FracAppend(s: string, c: char)
    requires AllDigits(s) && IsDigit(c)
    ensures AllDigits(s + [c])
    ensures Frac(s + [c]) == Frac(s) + Shift(Digit(c) as real, |s| + 1)
  {
    if s == "" {
      assert (s + [c])[1..] == "";
    } else {
      FracAppend(s[1..], c);
      assert (s + [c])[1..] == s[1..] + [c];
    }
  }

  /** The digits of `v` stand for `v / 62^m`. */
  lemma {:induction false} EncodeFrac(v: nat, m: nat)
    requires v < Pow62(m)
    ensures Frac(Encode(v, m)) == Shift(v as real, m)
  {
    if m == 0 {
    } else {
      var q, d := v / BASE, v % BASE;
      EncodeFrac(q, m - 1);
      FracAppend(Encode(q, m - 1), DigitChar(d));
      ShiftWholeBase(q as real, m - 1);
      ShiftAdds(62.0 * q as real, d as real, m);
      assert v as real == 62.0 * q as real + d as real;
    }
  }

  /** Dropping trailing zeros keeps the value and makes the string canonical. */
  lemma {:induction false} StripKeepsFrac(s: string)
    requires AllDigits(s)
    ensures var r := StripTrailingZeros(s);
      Canonical(r) && Frac(r) == Frac(s) && |r| <= |s|
  {
    if !EndsWithZero(s) {
    } else {
      var t := s[..|s| - 1];
      StripKeepsFrac(t);
      FracAppend(t, ZERO);
      ShiftAscends(0.0, 0.0, |s|);
      assert t + [ZERO] == s;
    }
  }

  lemma MulMonotone(a: int, b: int, d: nat)
    ensures a <= b ==> a * d <= b * d
  {}

  /** Quotients inherit the bounds of the dividend. */
  lemma FloorAtLeast(x: nat, d: nat, lo: nat)
    requires d > 0 && lo * d <= x
    ensures lo <= x / d
  {
    MulMonotone(x / d + 1, lo, d);
  }

  lemma FloorBelow(x: nat, d: nat, hi: nat)
    requires d > 0 && x < hi * d
    ensures x / d < hi
  {
    MulMonotone(hi, x / d, d);
  }

  lemma SlotInRange(count: nat, i: nat)
    requires 1 <= i <= count
    ensures 0 < SlotValue(count, i) < Pow62(KeyWidth(count))
  {
    var cap := Pow62(KeyWidth(count));
    MulMonotone(1, i, cap);
    MulMonotone(i + 1, count + 1, cap);
    FloorAtLeast(i * cap, count + 1, 1);
    FloorBelow(i * cap, count + 1, cap);
  }

  /** Consecutive slots are at least one whole base apart, so stripping cannot merge them. */
  lemma SlotsFarApart(count: nat, i: nat)
    requires 1 <= i < count
    ensures SlotValue(count, i + 1) >= SlotValue(count, i) + BASE
  {
    FloorStep(i * Pow62(KeyWidth(count)), Pow62(KeyWidth(count)), count + 1);
    assert (i + 1) * Pow62(KeyWidth(count)) == i * Pow62(KeyWidth(count)) + Pow62(KeyWidth(count));
  }

  lemma FloorStep(x: nat, step: nat, d: nat)
    requires d > 0 && step >= 62 * d
    ensures (x + step) / d >= x / d + 62
  {
    var q := x / d;
    assert (q + 62) * d == q * d + 62 * d;
    FloorAtLeast(x + step, d, q + 62);
  }

  lemma {:induction false} SlotsAscend(count: nat, i: nat, j: nat)
    requires 1 <= i < j <= count
    ensures SlotValue(count, i) < SlotValue(count, j)
    decreases j
  {
    SlotsFarApart(count, j - 1);
    if i >= j - 1 {
    } else {
      SlotsAscend(count, i, j - 1);
    }
  }

  /** Encoding a positive value gives a valid key standing for `v / 62^m`. */
  lemma EncodedKey(v: nat, m: nat)
    requires 0 < v < Pow62(m)
    ensures var key := StripTrailingZeros(Encode(v, m));
      IsValidKey(key) && |key| <= m && Frac(key) == Shift(v as real, m)
  {
    EncodeFrac(v, m);
    StripKeepsFrac(Encode(v, m));
    ShiftAscends(0.0, v as real, m);
  }

  lemma EncodedOrder(v: nat, w: nat, m: nat)
    requires 0 < v < w < Pow62(m)
    ensures Less(StripTrailingZeros(Encode(v, m)), StripTrailingZeros(Encode(w, m)))
  {
    EncodedKey(v, m);
    EncodedKey(w, m);
    ShiftAscends(v as real, w as real, m);
    OrderIsNumeric(StripTrailingZeros(Encode(v, m)), StripTrailingZeros(Encode(w, m)));
  }

  /** `rebalanceKeys(n)`: n valid keys of at most `KeyWidth(n)` digits, strictly ascending. */
  lemma SlotKeysAscend(count: nat)
    ensures forall k | 0 <= k < count :: IsValidKey(SlotKeys(count)[k]) && |SlotKeys(count)[k]| <= KeyWidth(count)
    ensures forall j, k | 0 <= j < k < count :: Less(SlotKeys(count)[j], SlotKeys(count)[k])
  {
    var keys := SlotKeys(count);
    forall k | 0 <= k < count
      ensures IsValidKey(keys[k]) && |keys[k]| <= KeyWidth(count)
    {
      SlotInRange(count, k + 1);
      EncodedKey(SlotValue(count, k + 1), KeyWidth(count));
    }
    forall j, k | 0 <= j < k < count
      ensures Less(keys[j], keys[k])
    {
      SlotInRange(count, j + 1);
      SlotInRange(count, k + 1);
      SlotsAscend(count, j + 1, k + 1);
      EncodedOrder(SlotValue(count, j + 1), SlotValue(count, k + 1), KeyWidth(count));
    }
  }

  /** Evenly spaced: key `i` is `i / (count + 1)` rounded down to its digit count. */
  lemma SlotKeysAreEven(count: nat, i: nat)
    requires 1 <= i <= count
    ensures AllDigits(SlotKey(count, i))
    ensures Frac(SlotKey(count, i))
         <= i as real / (count + 1) as real < Frac(SlotKey(count, i)) + Shift(1.0, KeyWidth(count))
  {
    SlotInRange(count, i);
    EncodedKey(SlotValue(count, i), KeyWidth(count));
    FloorShifted(i, count + 1, KeyWidth(count));
  }

  /** `floor(i * 62^m / need)`, moved m places, falls short of `i / need` by less than 62^-m. */
  lemma FloorShifted(i: nat, need: nat, m: nat)
    requires need > 0
    ensures var v := (i * Pow62(m) / need) as real;
      Shift(v, m) <= i as real / need as real < Shift(v, m) + Shift(1.0, m)
  {
    var x := i as real / need as real;
    var y := FloorIsClose(i, Pow62(m), need, x);
    ShiftCancelsPower(x, y, m);
    ShiftSandwich((i * Pow62(m) / need) as real, y, m);
  }

  lemma ShiftSandwich(v: real, y: real, m: nat)
    requires v <= y < v + 1.0
    ensures Shift(v, m) <= Shift(y, m) < Shift(v, m) + Shift(1.0, m)
  {
    ShiftAscends(v, y, m);
    ShiftAscends(y, v + 1.0, m);
    ShiftAdds(v, 1.0, m);
  }

  lemma FloorIsClose(i: nat, cap: nat, need: nat, x: real) returns (y: real)
    requires need > 0 && x == i as real / need as real
    ensures y == x * cap as real
    ensures (i * cap / need) as real <= y < (i * cap / need) as real + 1.0
  {
    var f := i * cap / need;
    y := x * cap as real;
    assert f * need <= i * cap < f * need + need;
    var v, n := f as real, need as real;
    assert (f * need) as real == v * n && (i * cap) as real == i as real * cap as real;
    assert y * n == x * n * cap as real == i as real * cap as real;
    assert v * n + n == (v + 1.0) * n;
    RealMonotone(y, v, n);
    RealMonotone(v + 1.0, y, n);
  }

  lemma RealMonotone(a: real, b: real, n: real)
    requires n > 0.0
    ensures a < b ==> a * n < b * n
    ensures a <= b ==> a * n <= b * n
  {}

  /** With fewer than 62^digits rows the keys have at most `digits + 1` digits. */
  lemma KeyWidthBound(count: nat, digits: nat)
    requires count < Pow62(digits) && digits >= 1
    ensures KeyWidth(count) <= digits + 1
  {
    ExponentIsSmallest(count + 1, 1, digits);
  }
}
