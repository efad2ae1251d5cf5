/**
 * Base-62 fractional ordering keys.
 *
 * A key is a string of digits after an implicit leading "0.".  The list layer
 * compares keys by codepoint; this module relates that order to the numeric
 * order of the fractions and verifies the midpoint construction.
 */
module Keys {
  import opened Prelude

  const NUMERALS: string := "0123456789"
  const UPPER: string := "ABCDEFGHIJKLMNOPQRSTUVWXYZ"
  const LOWER: string := "abcdefghijklmnopqrstuvwxyz"
  const DIGITS: string := NUMERALS + UPPER + LOWER
  const BASE: nat := 62
  const ZERO: char := '0'

  // ------------------------------------------------------------------ digits

  predicate IsDigit(c: char) {
    '0' <= c <= '9' || 'A' <= c <= 'Z' || 'a' <= c <= 'z'
  }

  /** `DIGITS.indexOf(c)` for a digit, in closed form; `Alphabet` ties it to the table. */
  function Digit(c: char): (d: nat)
    requires IsDigit(c)
    ensures d < BASE
  {
    if c <= '9' then c as int - '0' as int
    else if c <= 'Z' then c as int - 'A' as int + 10
    else c as int - 'a' as int + 36
  }

  /** `DIGITS[d]` in closed form. */
  function DigitChar(d: nat): (c: char)
    requires d < BASE
    ensures IsDigit(c) && Digit(c) == d
  {
    if d < 10 then '0' + d as char
    else if d < 36 then 'A' + (d - 10) as char
    else 'a' + (d - 36) as char
  }

  /** The three runs of the table; reading them apart keeps the literals short. */
  lemma NumeralAt(d: nat)
    requires d < 10
    ensures NUMERALS[d] == DigitChar(d)
  {}

  lemma UpperAt(d: nat)
    requires d < 26
    ensures UPPER[d] == DigitChar(d + 10)
  {}

  lemma LowerAt(d: nat)
    requires d < 26
    ensures LOWER[d] == DigitChar(d + 36)
  {}

  lemma AlphabetAt(d: nat)
    requires d < BASE
    ensures |DIGITS| == BASE && DIGITS[d] == DigitChar(d)
  {
    if d < 10 { NumeralAt(d); } else if d < 36 { UpperAt(d - 10); } else { LowerAt(d - 36); }
  }

  /** The table is in ascending codepoint order and the closed forms read it correctly. */
  lemma Alphabet(c: char)
    ensures c in DIGITS <==> IsDigit(c)
    ensures IsDigit(c) ==> |DIGITS| == BASE && DIGITS[Digit(c)] == c
    ensures forall e: char | IsDigit(c) && IsDigit(e) :: c < e <==> Digit(c) < Digit(e)
  {
    if IsDigit(c) {
      AlphabetAt(Digit(c));
    }
    if c in DIGITS {
      var d: nat :| d < |DIGITS| && DIGITS[d] == c;
      AlphabetAt(d);
    }
  }

  // ------------------------------------------------------------------- order

  /** Codepoint order on strings: JavaScript `<`, SQL `COLLATE "C"`. */
  predicate Less(a: string, b: string) {
    b != "" && (a == "" || a[0] < b[0] || (a[0] == b[0] && Less(a[1..], b[1..])))
  }

  lemma LessIrreflexive(a: string)
    ensures !Less(a, a)
  {}

  lemma {:induction false} LessTransitive(a: string, b: string, c: string)
    requires Less(a, b) && Less(b, c)
    ensures Less(a, c)
  {
    if a == "" || a[0] != b[0] || b[0] != c[0] {
    } else {
      LessTransitive(a[1..], b[1..], c[1..]);
    }
  }

  lemma {:induction false} LessTotal(a: string, b: string)
    ensures Less(a, b) || a == b || Less(b, a)
  {
    if a == "" || b == "" || a[0] != b[0] {
    } else {
      LessTotal(a[1..], b[1..]);
      assert a == [a[0]] + a[1..] && b == [b[0]] + b[1..];
    }
  }

  lemma LessAsymmetric(a: string, b: string)
    ensures Less(a, b) ==> !Less(b, a) && a != b
  {
    LessIrreflexive(a);
    if Less(a, b) && Less(b, a) {
      LessTransitive(a, b, a);
    }
  }

  predicate AtMost(a: string, b: string) {
    !Less(b, a)
  }

  lemma AtMostTransitive(a: string, b: string, c: string)
    ensures AtMost(a, b) && AtMost(b, c) ==> AtMost(a, c)
  {
    LessTotal(a, b);
    LessTotal(b, c);
    LessAsymmetric(a, c);
    if Less(a, b) && Less(b, c) {
      LessTransitive(a, b, c);
    }
  }

  /** A common prefix does not affect the comparison. */
  lemma {:induction false} LessPrefix(p: string, a: string, b: string)
    ensures Less(p + a, p + b) <==> Less(a, b)
  {
    if p == "" {
      assert p + a == a && p + b == b;
    } else {
      LessPrefix(p[1..], a, b);
      assert (p + a)[1..] == p[1..] + a && (p + b)[1..] == p[1..] + b;
    }
  }

  // --------------------------------------------------------------- legal keys

  predicate AllDigits(s: string) {
    forall i | 0 <= i < |s| :: IsDigit(s[i])
  }

  predicate EndsWithZero(s: string) {
    s != "" && s[|s| - 1] == ZERO
  }

  /** `isValidKey`; `Alphabet` shows that `IsDigit` is membership in the table. */
  predicate IsValidKey(key: string) {
    key != "" && !EndsWithZero(key) && AllDigits(key)
  }

  /** A digit string without a trailing zero: a valid key, or "" for the list start. */
  ghost predicate Canonical(s: string) {
    AllDigits(s) && !EndsWithZero(s)
  }

  // ---------------------------------------------------- keys as real fractions

  /** The real number `0.s` in base 62. */
  ghost function Frac(s: string): (r: real)
    requires AllDigits(s)
    ensures 0.0 <= r < 1.0
  {
    if s == "" then 0.0 else (Digit(s[0]) as real + Frac(s[1..])) / 62.0
  }

  lemma {:induction false} FracPositive(s: string)
    requires Canonical(s) && s != ""
    ensures Frac(s) > 0.0
  {
    if |s| <= 1 {
    } else {
      FracPositive(s[1..]);
    }
  }

  /**
   * For strings without a trailing '0', codepoint order is numeric order of the
   * fractions, and the representation of each fraction is unique.
   */
  lemma {:induction false} OrderIsNumeric(a: string, b: string)
    requires Canonical(a) && Canonical(b)
    ensures Less(a, b) <==> Frac(a) < Frac(b)
    ensures a == b <==> Frac(a) == Frac(b)
  {
    if a == "" || b == "" {
      if a != "" { FracPositive(a); }
      if b != "" { FracPositive(b); }
    } else {
      var s, t := a[1..], b[1..];
      OrderIsNumeric(s, t);
      assert a == [a[0]] + s && b == [b[0]] + t;
      if a[0] != b[0] {
        assert a[0] < b[0] <==> Digit(a[0]) < Digit(b[0]);
        assert Digit(a[0]) != Digit(b[0]);
      }
    }
  }

  // ----------------------------------------------------------------- midpoint

  datatype KeyError = NotAscending | TrailingZero | InvalidLower | InvalidUpper

  /** Digit `n` of `a`, padded with the zero digit past its end. */
  function PaddedAt(a: string, n: nat): char {
    if n < |a| then a[n] else ZERO
  }

  /** Length of the longest prefix of `b` that `a`, zero-padded, shares from index `n` on. */
  function SharedPrefix(a: string, b: string, n: nat): (m: nat)
    requires n <= |b|
    ensures n <= m <= |b|
    ensures forall i | n <= i < m :: PaddedAt(a, i) == b[i]
    ensures m < |b| ==> PaddedAt(a, m) != b[m]
    decreases |b| - n
  {
    if n < |b| && PaddedAt(a, n) == b[n] then SharedPrefix(a, b, n + 1) else n
  }

  /** `a.slice(n)`: empty when `n` is past the end. */
  function Slice(a: string, n: nat): string {
    if n <= |a| then a[n..] else ""
  }

  function Prepend(p: string, r: Result<string, KeyError>): Result<string, KeyError> {
    match r
    case Ok(s) => Ok(p + s)
    case Err(e) => Err(e)
  }

  /** What `midpoint` computes; `None` is the list end. */
  function MidpointOf(a: string, b: Option<string>): Result<string, KeyError>
    requires AllDigits(a) && (b.Some? ==> AllDigits(b.value))
    decreases if b.Some? then 1 + |b.value| else 0, |a|
  {
    if b.Some? && !Less(a, b.value) then Err(NotAscending)
    else if EndsWithZero(a) || (b.Some? && EndsWithZero(b.value)) then Err(TrailingZero)
    else
      var n := if b.Some? then SharedPrefix(a, b.value, 0) else 0;
      if n > 0 then Prepend(b.value[..n], MidpointOf(Slice(a, n), Some(b.value[n..])))
      else
        var digitA := if a == "" then 0 else Digit(a[0]);
        var digitB := if b.None? then BASE else Digit(b.value[0]);
        if digitB - digitA > 1 then Ok([DigitChar((digitA + digitB + 1) / 2)])
        else if b.Some? && |b.value| > 1 then Ok(b.value[..1])
        else Prepend([DigitChar(digitA)], MidpointOf(if a == "" then "" else a[1..], None))
  }

  /** `midpoint`, with its prefix loop. */
  method Midpoint(a: string, b: Option<string>) returns (r: Result<string, KeyError>)
    requires AllDigits(a) && (b.Some? ==> AllDigits(b.value))
    ensures r == MidpointOf(a, b)
    decreases if b.Some? then 1 + |b.value| else 0, |a|
  {
    if b.Some? && !Less(a, b.value) {
      return Err(NotAscending);
    }
    if EndsWithZero(a) || (b.Some? && EndsWithZero(b.value)) {
      return Err(TrailingZero);
    }
    if b.Some? {
      var n := 0;
      while n < |b.value| && PaddedAt(a, n) == b.value[n]
        invariant 0 <= n <= |b.value|
        invariant SharedPrefix(a, b.value, 0) == SharedPrefix(a, b.value, n)
      {
        n := n + 1;
      }
      if n > 0 {
        var rest := Midpoint(Slice(a, n), Some(b.value[n..]));
        return Prepend(b.value[..n], rest);
      }
    }
    var digitA := if a == "" then 0 else Digit(a[0]);
    var digitB := if b.None? then BASE else Digit(b.value[0]);
    if digitB - digitA > 1 {
      return Ok([DigitChar((digitA + digitB + 1) / 2)]);
    }
    if b.Some? && |b.value| > 1 {
      return Ok(b.value[..1]);
    }
    var rest := Midpoint(if a == "" then "" else a[1..], None);
    return Prepend([DigitChar(digitA)], rest);
  }

  ghost predicate PaddedPrefix(a: string, p: string) {
    forall i | 0 <= i < |p| :: PaddedAt(a, i) == p[i]
  }

  /**
   * The prefix loop stops inside `b`: a canonical upper bound is never just `a`
   * padded with zeros, so a digit of `b` is left to work with.
   */
  lemma {:induction false} PrefixLeavesUpperBound(a: string, b: string, n: nat)
    requires n <= |b| && PaddedPrefix(a, b[..n])
    requires Canonical(b) && Less(a, b)
    ensures n < |b| && Less(Slice(a, n), b[n..])
  {
    assert forall i | 0 <= i < n :: PaddedAt(a, i) == b[..n][i];
    if n == 0 {
    } else {
      var a' := Slice(a, 1);
      forall i | 0 <= i < n - 1
        ensures PaddedAt(a', i) == b[1..][..n - 1][i]
      {
        assert PaddedAt(a', i) == PaddedAt(a, i + 1);
        assert b[..n][i + 1] == b[1..][..n - 1][i];
      }
      assert PaddedAt(a, 0) == b[..n][0] == b[0];
      assert b[1..] != "";
      PrefixLeavesUpperBound(a', b[1..], n - 1);
      assert Slice(a', n - 1) == Slice(a, n);
      assert b[1..][n - 1..] == b[n..];
    }
  }

  /** Putting the stripped prefix back keeps the result above `a`. */
  lemma {:induction false} RestorePrefix(a: string, p: string, t: string)
    requires PaddedPrefix(a, p) && Less(Slice(a, |p|), t)
    ensures Less(a, p + t)
  {
    if p == "" {
      assert p + t == t;
    } else {
      var a' := Slice(a, 1);
      assert PaddedAt(a, 0) == p[0];
      forall i | 0 <= i < |p[1..]|
        ensures PaddedAt(a', i) == p[1..][i]
      {
        assert PaddedAt(a', i) == PaddedAt(a, i + 1);
      }
      assert Slice(a', |p| - 1) == Slice(a, |p|);
      RestorePrefix(a', p[1..], t);
      assert (p + t)[1..] == p[1..] + t;
    }
  }

  ghost predicate AscendingBounds(a: string, b: Option<string>) {
    Canonical(a) && (b.Some? ==> Canonical(b.value) && Less(a, b.value))
  }

  ghost function LongestBound(a: string, b: Option<string>): nat {
    if b.Some? && |b.value| > |a| then |b.value| else |a|
  }

  /** `r` is a valid key strictly between the bounds, at most one digit longer than both. */
  ghost predicate FitsBetween(a: string, r: string, b: Option<string>) {
    && r != "" && Canonical(r)
    && Less(a, r) && (b.Some? ==> Less(r, b.value))
    && |r| <= LongestBound(a, b) + 1
  }

  lemma FitsWithPrefix(a: string, t: string, b: string, n: nat)
    requires AscendingBounds(a, Some(b)) && 0 < n < |b| && PaddedPrefix(a, b[..n])
    requires FitsBetween(Slice(a, n), t, Some(b[n..]))
    ensures FitsBetween(a, b[..n] + t, Some(b))
  {
    var r := b[..n] + t;
    RestorePrefix(a, b[..n], t);
    LessPrefix(b[..n], t, b[n..]);
    assert b[..n] + b[n..] == b;
    assert r[|r| - 1] == t[|t| - 1];
  }

  lemma FitsBorrowedDigit(a: string, b: string)
    requires AscendingBounds(a, Some(b)) && |b| > 1
    requires PaddedAt(a, 0) != b[0]
    ensures FitsBetween(a, b[..1], Some(b))
  {
    var r := b[..1];
    assert IsDigit(r[0]);
    assert a == "" || a[0] < b[0];
    assert b[0] != ZERO;
    assert r[1..] == "" && b[1..] != "";
  }

  /**
   * Between ascending canonical bounds `midpoint` never throws; its result is a
   * valid key strictly between them and at most one digit longer than the longer
   * bound.
   */
  lemma {:induction false} MidpointIsBetween(a: string, b: Option<string>)
    requires AscendingBounds(a, b)
    ensures MidpointOf(a, b).Ok?
    ensures FitsBetween(a, MidpointOf(a, b).value, b)
    decreases if b.Some? then 1 + |b.value| else 0, |a|, 1
  {
    if b.Some? && SharedPrefix(a, b.value, 0) > 0 {
      var n := SharedPrefix(a, b.value, 0);
      PrefixLeavesUpperBound(a, b.value, n);
      MidpointIsBetween(Slice(a, n), Some(b.value[n..]));
      FitsWithPrefix(a, MidpointOf(Slice(a, n), Some(b.value[n..])).value, b.value, n);
    } else {
      MidpointOfDistinctDigits(a, b);
    }
  }

  ghost predicate DistinctLeadingDigits(a: string, b: Option<string>) {
    b.Some? ==> b.value != "" && PaddedAt(a, 0) < b.value[0]
  }

  ghost function UpperDigit(b: Option<string>): int
    requires b.Some? ==> b.value != "" && AllDigits(b.value)
  {
    if b.None? then BASE else Digit(b.value[0])
  }

  lemma {:induction false} MidpointOfDistinctDigits(a: string, b: Option<string>)
    requires AscendingBounds(a, b) && (b.Some? ==> SharedPrefix(a, b.value, 0) == 0)
    ensures MidpointOf(a, b).Ok?
    ensures FitsBetween(a, MidpointOf(a, b).value, b)
    decreases if b.Some? then 1 + |b.value| else 0, |a|, 0
  {
    var digitA := if a == "" then 0 else Digit(a[0]);
    assert DistinctLeadingDigits(a, b);
    if UpperDigit(b) - digitA > 1 {
    } else if b.Some? && |b.value| > 1 {
      FitsBorrowedDigit(a, b.value);
    } else {
      MidpointIsBetween(Slice(a, 1), None);
    }
  }

  // ----------------------------------------------------- keyBetween and friends

  /** `keyBetween`: `None` bounds are the list start and end. */
  function KeyBetween(a: Option<string>, b: Option<string>): Result<string, KeyError> {
    if a.Some? && !IsValidKey(a.value) then Err(InvalidLower)
    else if b.Some? && !IsValidKey(b.value) then Err(InvalidUpper)
    else if a.Some? && b.Some? && !Less(a.value, b.value) then Err(NotAscending)
    else
      MidpointOf(if a.Some? then a.value else "", b)
  }

  function KeyAfter(a: Option<string>): Result<string, KeyError> {
    KeyBetween(a, None)
  }

  ghost predicate AcceptableBounds(a: Option<string>, b: Option<string>) {
    && (a.Some? ==> IsValidKey(a.value))
    && (b.Some? ==> IsValidKey(b.value))
    && (a.Some? && b.Some? ==> Less(a.value, b.value))
  }

  /**
   * `keyBetween` throws exactly on an illegal bound or an unordered pair, and
   * otherwise mints a valid key that lies strictly between the bounds.
   */
  lemma KeyBetweenContract(a: Option<string>, b: Option<string>)
    ensures KeyBetween(a, b).Ok? <==> AcceptableBounds(a, b)
    ensures KeyBetween(a, b) == Err(InvalidLower) <==> a.Some? && !IsValidKey(a.value)
    ensures KeyBetween(a, b) == Err(InvalidUpper) <==>
      (a.Some? ==> IsValidKey(a.value)) && b.Some? && !IsValidKey(b.value)
    ensures KeyBetween(a, b).Ok? ==>
      var r := KeyBetween(a, b).value;
      && IsValidKey(r)
      && (a.Some? ==> Less(a.value, r)) && (b.Some? ==> Less(r, b.value))
      && |r| <= LongestBound(if a.Some? then a.value else "", b) + 1
  {
    if AcceptableBounds(a, b) {
      var lower := if a.Some? then a.value else "";
      MidpointIsBetween(lower, b);
    }
  }

  /** The minted key also lies strictly between its bounds as a number. */
  lemma KeyBetweenIsNumericallyBetween(a: string, b: string)
    requires AcceptableBounds(Some(a), Some(b))
    ensures KeyBetween(Some(a), Some(b)).Ok?
    ensures var r := KeyBetween(Some(a), Some(b)).value;
      AllDigits(a) && AllDigits(r) && AllDigits(b) && Frac(a) < Frac(r) < Frac(b)
  {
    KeyBetweenContract(Some(a), Some(b));
    var r := KeyBetween(Some(a), Some(b)).value;
    OrderIsNumeric(a, r);
    OrderIsNumeric(r, b);
  }

  ghost predicate AllLast(s: string) {
    forall i | 0 <= i < |s| :: s[i] == DigitChar(BASE - 1)
  }

  /** The length bound of `keyAfter` is reached: after "zz...z" comes "zz...zV". */
  lemma {:induction false} AfterLastDigits(a: string)
    requires AllLast(a)
    ensures MidpointOf(a, None) == Ok(a + [DigitChar(31)])
  {
    if a != "" {
      AfterLastDigits(a[1..]);
      assert a == [DigitChar(BASE - 1)] + a[1..];
      assert a + [DigitChar(31)] == [DigitChar(BASE - 1)] + (a[1..] + [DigitChar(31)]);
    } else {
      assert "" + [DigitChar(31)] == [DigitChar(31)];
    }
  }

  /** How many of the leading digits are the last one. */
  function Lead(a: string): (n: nat)
    ensures n <= |a|
  {
    if a != "" && a[0] == DigitChar(BASE - 1) then 1 + Lead(a[1..]) else 0
  }

  /** An appended key is as long as the run of last digits it has to climb over, and one digit. */
  lemma {:induction false} AppendLength(a: string)
    requires Canonical(a)
    ensures MidpointOf(a, None).Ok? && |MidpointOf(a, None).value| == Lead(a) + 1
  {
    if a == "" || a[0] != DigitChar(BASE - 1) {
    } else {
      AppendLength(a[1..]);
    }
  }

  /** The greater of two keys has the longer run. */
  lemma {:induction false} LeadFollowsOrder(a: string, b: string)
    requires AllDigits(a) && AllDigits(b) && Lead(a) > Lead(b)
    ensures Less(b, a)
  {
    if b == "" || b[0] != a[0] {
    } else {
      LeadFollowsOrder(a[1..], b[1..]);
    }
  }

  /** Nothing as short sorts after a key of last digits only. */
  lemma {:induction false} AboveLastDigits(a: string, k: string)
    requires AllLast(a) && AllDigits(k) && Less(a, k)
    ensures |k| > |a|
  {
    if a == "" {
    } else {
      AboveLastDigits(a[1..], k[1..]);
    }
  }

  // ------------------------------------------------------------------- jitter

  /** `out` is `key` followed by one or two digits other than '0'. */
  ghost predicate IsJitterOf(key: string, out: string) {
    && |key| + 1 <= |out| <= |key| + 2
    && out[..|key|] == key
    && forall i | |key| <= i < |out| :: IsDigit(out[i]) && out[i] != ZERO
  }

  /** A digit in [1, BASE-1]. */
  method RandomNonZeroDigit() returns (c: char)
    ensures IsDigit(c) && c != ZERO
  {
    var d: nat :| 1 <= d < BASE;
    c := DigitChar(d);
  }

  /** `jitter`: any choice of one or two digits other than '0' is possible. */
  method Jitter(key: string) returns (out: string)
    ensures IsJitterOf(key, out)
  {
    var count: nat :| 1 <= count <= 2;
    out := key;
    for i := 0 to count
      invariant |out| == |key| + i && out[..|key|] == key
      invariant forall j | |key| <= j < |out| :: IsDigit(out[j]) && out[j] != ZERO
    {
      var c := RandomNonZeroDigit();
      out := out + [c];
    }
  }

  /**
   * A jittered key is valid, sorts after its base, and stays below every larger
   * key that does not itself extend the base.
   */
  lemma JitterSortsAfter(key: string, out: string)
    requires IsValidKey(key) && IsJitterOf(key, out)
    ensures IsValidKey(out) && Less(key, out)
    ensures forall k: string | Less(key, k) && !(key <= k) :: Less(out, k)
  {
    var suffix := out[|key|..];
    assert out == key + suffix && key == key + "";
    forall i | 0 <= i < |out|
      ensures IsDigit(out[i])
    {
      assert i < |key| ==> out[i] == key[i];
    }
    LessPrefix(key, "", suffix);
    forall k: string | Less(key, k) && !(key <= k)
      ensures Less(out, k)
    {
      ExtensionStaysBelow(key, suffix, k);
    }
  }

  lemma {:induction false} ExtensionStaysBelow(key: string, suffix: string, k: string)
    requires Less(key, k) && !(key <= k)
    ensures Less(key + suffix, k)
  {
    if key[0] != k[0] {
    } else {
      ExtensionStaysBelow(key[1..], suffix, k[1..]);
      assert (key + suffix)[1..] == key[1..] + suffix;
    }
  }

}
