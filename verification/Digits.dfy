/** Decimal digit strings and the numbers they denote: the arithmetic under every amount codec. */
module Digits {

  predicate IsDigit(c: char) {
    '0' <= c <= '9'
  }

  predicate AllDigits(s: string) {
    forall i :: 0 <= i < |s| ==> IsDigit(s[i])
  }

  predicate AllZeros(s: string) {
    forall i :: 0 <= i < |s| ==> s[i] == '0'
  }

  function DigitValue(c: char): (v: nat)
    requires IsDigit(c)
    ensures v < 10
  {
    c as int - '0' as int
  }

  function DigitChar(v: nat): (c: char)
    requires v < 10
    ensures IsDigit(c) && DigitValue(c) == v
  {
    ('0' as int + v) as char
  }

  function Pow10(k: nat): (p: nat)
    ensures p > 0
  {
    if k == 0 then 1 else 10 * Pow10(k - 1)
  }

  /** The number a digit string denotes. */
  function Value(s: string): nat
    requires AllDigits(s)
  {
    if s == "" then 0 else 10 * Value(s[..|s| - 1]) + DigitValue(s[|s| - 1])
  }

  /** (*big.Int).String for a non-negative number. */
  function ToDigits(n: nat): (s: string)
    ensures AllDigits(s) && |s| > 0
    ensures Value(s) == n
    ensures s[0] == '0' ==> s == "0"
  {
    if n < 10 then [DigitChar(n)] else
    var s := ToDigits(n / 10) + [DigitChar(n % 10)];
    assert s[..|s| - 1] == ToDigits(n / 10);
    s
  }

  lemma {:induction false} Pow10Add(a: nat, b: nat)
    ensures Pow10(a + b) == Pow10(a) * Pow10(b)
  {
    if a != 0 {
      Pow10Add(a - 1, b);
      assert Pow10(a + b) == 10 * (Pow10(a - 1) * Pow10(b)) == (10 * Pow10(a - 1)) * Pow10(b);
    }
  }

  lemma ValueSnoc(s: string, c: char)
    requires AllDigits(s) && IsDigit(c)
    ensures AllDigits(s + [c]) && Value(s + [c]) == 10 * Value(s) + DigitValue(c)
  {
    assert (s + [c])[..|s|] == s;
  }

  lemma {:induction false} ValueAppend(a: string, b: string)
    requires AllDigits(a) && AllDigits(b)
    ensures AllDigits(a + b)
    ensures Value(a + b) == Value(a) * Pow10(|b|) + Value(b)
  {
    if b == "" {
      assert a + b == a;
    } else {
      var b', d := b[..|b| - 1], b[|b| - 1];
      ValueAppend(a, b');
      ValueSnoc(a + b', d);
      assert a + b == (a + b') + [d];
      Horner(Value(a), Pow10(|b'|), Value(b'), DigitValue(d));
    }
  }

  lemma Horner(a: nat, p: nat, b: nat, d: nat)
    ensures 10 * (a * p + b) + d == a * (10 * p) + (10 * b + d)
  {
  }

  lemma {:induction false} ValueBound(s: string)
    requires AllDigits(s)
    ensures Value(s) < Pow10(|s|)
  {
    if s != "" {
      ValueBound(s[..|s| - 1]);
    }
  }

  lemma {:induction false} ValueZero(s: string)
    requires AllDigits(s)
    ensures Value(s) == 0 <==> AllZeros(s)
  {
    if s != "" {
      ValueZero(s[..|s| - 1]);
    }
  }

  /** Two digit strings of the same length denote the same number only if they are equal. */
  lemma {:induction false} ValueInjective(a: string, b: string)
    requires AllDigits(a) && AllDigits(b) && |a| == |b| && Value(a) == Value(b)
    ensures a == b
  {
    if a != "" {
      var n := |a| - 1;
      var a', b' := a[..n], b[..n];
      assert a == a' + [a[n]] && b == b' + [b[n]];
      ValueSnoc(a', a[n]);
      ValueSnoc(b', b[n]);
      SameTenfold(Value(a'), DigitValue(a[n]), Value(b'), DigitValue(b[n]));
      ValueInjective(a', b');
    }
  }

  /** Without a superfluous leading zero, a digit string is at least Pow10 of its length less one. */
  lemma {:induction false} ValueLowerBound(s: string)
    requires AllDigits(s) && |s| > 0 && s[0] != '0'
    ensures Value(s) >= Pow10(|s| - 1)
  {
    if |s| > 1 {
      ValueLowerBound(s[..|s| - 1]);
    }
  }

  lemma {:induction false} Pow10Monotone(a: nat, b: nat)
    requires a <= b
    ensures Pow10(a) <= Pow10(b)
  {
    if a < b {
      Pow10Monotone(a, b - 1);
    }
  }

  /** ToDigits yields the shortest digit string for its number, and the only one of that length. */
  lemma ToDigitsShortest(s: string)
    requires AllDigits(s) && |s| > 0
    ensures |ToDigits(Value(s))| <= |s|
    ensures ToDigits(Value(s)) == s <==> (s[0] == '0' ==> s == "0")
  {
    var t := ToDigits(Value(s));
    if t != "0" {
      NoLongerThan(t, s);
    }
    if s[0] != '0' {
      NoLongerThan(s, t);
      ValueInjective(s, t);
    }
  }

  lemma NoLongerThan(t: string, s: string)
    requires AllDigits(s) && AllDigits(t) && |s| > 0 && |t| > 0
    requires Value(s) == Value(t) && t[0] != '0'
    ensures |t| <= |s|
  {
    ValueLowerBound(t);
    ValueBound(s);
    if |s| <= |t| - 1 {
      Pow10Monotone(|s|, |t| - 1);
    }
  }

  lemma SameTenfold(a: nat, c: nat, b: nat, d: nat)
    requires 10 * a + c == 10 * b + d && c < 10 && d < 10
    ensures a == b && c == d
  {
  }

  /** Divisibility by a power of ten is a statement about trailing zeros, at any length. */
  lemma DivisibleIffTrailingZeros(s: string, k: nat)
    requires AllDigits(s) && k <= |s|
    ensures Value(s) % Pow10(k) == 0 <==> AllZeros(s[|s| - k..])
    ensures AllZeros(s[|s| - k..]) ==> Value(s) / Pow10(k) == Value(s[..|s| - k])
  {
    var hi, lo := s[..|s| - k], s[|s| - k..];
    assert s == hi + lo;
    ValueAppend(hi, lo);
    ValueBound(lo);
    ValueZero(lo);
    DivMod(Value(hi), Pow10(k), Value(lo));
  }

  lemma DivMod(q: nat, d: nat, r: nat)
    requires r < d
    ensures (q * d + r) / d == q && (q * d + r) % d == r
  {
    var n := q * d + r;
    var e := n / d - q;
    assert e * d == d * (n / d) - q * d == r - n % d;
    SmallMultiple(e, d);
  }

  lemma SmallMultiple(e: int, d: int)
    requires -d < e * d < d
    ensures e == 0
  {
    assert e >= 1 ==> e * d >= d;
    assert e <= -1 ==> e * d <= -d;
  }
}
