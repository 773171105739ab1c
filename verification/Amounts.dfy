/**
  USDC money values and their two text codecs (server/amount.go).

  An amount is an exact count of micro-units. ParseAmount reads a decimal string
  through an exact rational and a divisibility test; FormatAmount prints the minimal
  decimal; MicroString and AmountFromMicroString are the on-chain integer form.
*/
module Amounts {
  import opened Wrappers
  import opened Text
  import opened Digits

  type Amount = nat

  const STABLECOIN_DECIMALS: nat := 6
  const MICRO_SCALE: nat := 1_000_000

  datatype AmountError = EmptyAmount | NotDecimal | TooPrecise | NotMicroCount

  /** What comes before the first point, and what comes after it. */
  function IntPart(t: string): string {
    t[..IndexOrLength(t, '.')]
  }

  function FracPart(t: string): string {
    var d := IndexOrLength(t, '.');
    if d < |t| then t[d + 1..] else ""
  }

  predicate HasPoint(t: string) {
    IndexOrLength(t, '.') < |t|
  }

  /** The regular expression of decimalRe: digits, then optionally a point and more digits. */
  predicate MatchesDecimal(t: string) {
    && IntPart(t) != "" && AllDigits(IntPart(t))
    && (HasPoint(t) ==> FracPart(t) != "" && AllDigits(FracPart(t)))
  }

  datatype Rat = Rat(num: nat, den: nat)

  /** (*big.Rat).SetString on a plain decimal: all its digits over a power of ten. */
  function DecimalRat(t: string): (r: Rat)
    requires MatchesDecimal(t)
    ensures r.den > 0
  {
    Rat(Value(IntPart(t) + FracPart(t)), Pow10(|FracPart(t)|))
  }

  function ParseAmount(s: string): Result<Amount, AmountError> {
    var t := TrimSpace(s);
    if t == "" then Err(EmptyAmount)
    else if !MatchesDecimal(t) then Err(NotDecimal)
    else
      var r := DecimalRat(t);
      if (r.num * MICRO_SCALE) % r.den != 0 then Err(TooPrecise)
      else Ok((r.num * MICRO_SCALE) / r.den)
  }

  function Zeros(n: nat): (z: string)
    ensures |z| == n && AllDigits(z) && AllZeros(z)
  {
    seq(n, _ => '0')
  }

  /** Sprintf("%0*d", 6, r) */
  function PadMicros(r: nat): string {
    var d := ToDigits(r);
    if |d| < STABLECOIN_DECIMALS then Zeros(STABLECOIN_DECIMALS - |d|) + d else d
  }

  /** Amount.String */
  function FormatAmount(a: Amount): string {
    FormatUnits(a / MICRO_SCALE, a % MICRO_SCALE)
  }

  function FormatUnits(q: nat, r: nat): string {
    if r == 0 then ToDigits(q)
    else ToDigits(q) + "." + TrimRight(PadMicros(r), '0')
  }

  function MicroString(a: Amount): string {
    ToDigits(a)
  }

  /** (*big.Int).SetString in base 10: an optional sign, then digits. */
  function BigIntFromString(s: string): Option<int> {
    var digits := if s != "" && (s[0] == '+' || s[0] == '-') then s[1..] else s;
    if digits == "" || !AllDigits(digits) then None
    else
      var n: int := Value(digits);
      Some(if s[0] == '-' then -n else n)
  }

  function AmountFromMicroString(s: string): Result<Amount, AmountError> {
    var i := BigIntFromString(TrimSpace(s));
    if i.None? || i.value < 0 then Err(NotMicroCount) else Ok(i.value)
  }

  predicate GreaterThan(a: Amount, b: Amount) {
    a > b
  }

  function Max(a: Amount, b: Amount): (m: Amount)
    ensures m >= a && m >= b && m in {a, b}
  {
    if GreaterThan(a, b) then a else b
  }

  function Min(a: Amount, b: Amount): (m: Amount)
    ensures m <= a && m <= b && m in {a, b}
  {
    if GreaterThan(a, b) then b else a
  }

  /* ----- what the decimal grammar means -------------------------------------- */

  function Join(i: string, f: string): string {
    if f == "" then i else i + "." + f
  }

  lemma JoinParts(i: string, f: string)
    requires AllDigits(i) && AllDigits(f) && i != ""
    ensures IntPart(Join(i, f)) == i && FracPart(Join(i, f)) == f
    ensures HasPoint(Join(i, f)) <==> f != ""
    ensures MatchesDecimal(Join(i, f))
    ensures TrimSpace(Join(i, f)) == Join(i, f)
  {
    var t := Join(i, f);
    var d := IndexOrLength(t, '.');
    assert forall k :: 0 <= k < |i| ==> t[k] == i[k];
    assert f != "" ==> t[|i|] == '.' && t[|i| + 1..] == f && t[|t| - 1] == f[|f| - 1];
    assert d == |i|;
    TrimSpaceIdentity(t);
  }

  lemma PartsJoin(t: string)
    requires MatchesDecimal(t)
    ensures t == Join(IntPart(t), FracPart(t))
    ensures AllDigits(IntPart(t)) && AllDigits(FracPart(t)) && IntPart(t) != ""
  {
  }

  /** The first six fractional digits, padded on the right with zeros. */
  function MicroDigits(f: string): (m: string)
    requires AllDigits(f)
    ensures |m| == STABLECOIN_DECIMALS && AllDigits(m)
    ensures forall k :: 0 <= k < |m| ==> m[k] == if k < |f| then f[k] else '0'
  {
    if |f| >= STABLECOIN_DECIMALS then f[..STABLECOIN_DECIMALS] else f + Zeros(STABLECOIN_DECIMALS - |f|)
  }

  ghost predicate ExactInMicros(f: string) {
    forall k :: STABLECOIN_DECIMALS <= k < |f| ==> f[k] == '0'
  }

  /**
    ParseAmount accepts exactly the trimmed decimals whose digits after the sixth
    fractional place are all zero, and then yields their value in micro-units.
  */
  lemma ParseAmountExact(s: string)
    ensures var t := TrimSpace(s);
      && (ParseAmount(s).Ok? <==> MatchesDecimal(t) && ExactInMicros(FracPart(t)))
      && (ParseAmount(s).Ok? ==>
            ParseAmount(s).value == Value(IntPart(t)) * MICRO_SCALE + Value(MicroDigits(FracPart(t))))
      && (ParseAmount(s) == Err(TooPrecise) <==> MatchesDecimal(t) && !ExactInMicros(FracPart(t)))
      && (ParseAmount(s) == Err(EmptyAmount) <==> t == "")
  {
    var t := TrimSpace(s);
    if MatchesDecimal(t) {
      ScaledDecimal(IntPart(t), FracPart(t));
    }
  }

  /** The divisibility test on the rational i.f * 10^6, and its quotient, in terms of digits. */
  lemma ScaledDecimal(i: string, f: string)
    requires AllDigits(i) && AllDigits(f)
    ensures AllDigits(i + f)
    ensures (Value(i + f) * MICRO_SCALE) % Pow10(|f|) == 0 <==> ExactInMicros(f)
    ensures ExactInMicros(f) ==>
      (Value(i + f) * MICRO_SCALE) / Pow10(|f|) == Value(i) * MICRO_SCALE + Value(MicroDigits(f))
  {
    MicroScaleIsPow10();
    if |f| <= STABLECOIN_DECIMALS {
      ScaledShort(i, f);
    } else {
      ScaledLong(i, f);
    }
  }

  lemma MicroScaleIsPow10()
    ensures Pow10(STABLECOIN_DECIMALS) == MICRO_SCALE
  {
    assert Pow10(1) == 10 && Pow10(2) == 100 && Pow10(3) == 1000;
    Pow10Add(3, 3);
  }

  lemma ScaledShort(i: string, f: string)
    requires AllDigits(i) && AllDigits(f) && |f| <= STABLECOIN_DECIMALS
    ensures AllDigits(i + f)
    ensures (Value(i + f) * MICRO_SCALE) % Pow10(|f|) == 0
    ensures (Value(i + f) * MICRO_SCALE) / Pow10(|f|) == Value(i) * MICRO_SCALE + Value(MicroDigits(f))
  {
    var pad := Zeros(STABLECOIN_DECIMALS - |f|);
    MicroScaleIsPow10();
    Pow10Add(|pad|, |f|);
    ValueZero(pad);
    ValueAppend(f, pad);
    ValueAppend(i, f);
    assert MicroDigits(f) == f + pad;
    ScaleUp(Value(i), Value(f), Pow10(|f|), Pow10(|pad|));
  }

  lemma ScaleUp(w: nat, m: nat, d: nat, p: nat)
    requires d > 0 && p * d == MICRO_SCALE
    ensures ((w * d + m) * MICRO_SCALE) % d == 0
    ensures ((w * d + m) * MICRO_SCALE) / d == w * MICRO_SCALE + m * p
  {
    var v := w * d + m;
    assert v * MICRO_SCALE == (v * p) * d;
    DivMod(v * p, d, 0);
    assert v * p == w * (p * d) + m * p;
  }

  lemma ScaledLong(i: string, f: string)
    requires AllDigits(i) && AllDigits(f) && |f| > STABLECOIN_DECIMALS
    ensures AllDigits(i + f)
    ensures (Value(i + f) * MICRO_SCALE) % Pow10(|f|) == 0 <==> ExactInMicros(f)
    ensures ExactInMicros(f) ==>
      (Value(i + f) * MICRO_SCALE) / Pow10(|f|) == Value(i) * MICRO_SCALE + Value(MicroDigits(f))
  {
    var k := |f| - STABLECOIN_DECIMALS;
    var s, m := i + f, f[..STABLECOIN_DECIMALS];
    MicroScaleIsPow10();
    Pow10Add(k, STABLECOIN_DECIMALS);
    ScaleBoth(Value(s), Pow10(k), MICRO_SCALE);
    DivisibleIffTrailingZeros(s, k);
    assert s[|s| - k..] == f[STABLECOIN_DECIMALS..];
    assert s[..|s| - k] == i + m;
    assert AllZeros(f[STABLECOIN_DECIMALS..]) <==> ExactInMicros(f) by {
      assert forall j :: STABLECOIN_DECIMALS <= j < |f| ==> f[j] == f[STABLECOIN_DECIMALS..][j - STABLECOIN_DECIMALS];
    }
    ValueAppend(i, m);
  }

  lemma ScaleBoth(v: nat, d: nat, c: nat)
    requires d > 0 && c > 0
    ensures d * c > 0
    ensures (v * c) % (d * c) == 0 <==> v % d == 0
    ensures (v * c) / (d * c) == v / d
  {
    var q, r := v / d, v % d;
    assert v == q * d + r;
    assert v * c == q * (d * c) + r * c;
    LessTimes(r, d, c);
    DivMod(q, d * c, r * c);
  }

  lemma LessTimes(r: nat, d: nat, c: nat)
    requires r < d && c > 0
    ensures r * c < d * c && (r * c == 0 <==> r == 0)
  {
    assert (d - r) * c > 0;
  }

  /* ----- the printer -------------------------------------------------------- */

  lemma PadMicrosValue(r: nat)
    requires r < MICRO_SCALE
    ensures AllDigits(PadMicros(r)) && |PadMicros(r)| == STABLECOIN_DECIMALS && Value(PadMicros(r)) == r
  {
    var d := ToDigits(r);
    MicroScaleIsPow10();
    if d != "0" {
      ValueLowerBound(d);
      if |d| - 1 >= STABLECOIN_DECIMALS { Pow10Monotone(STABLECOIN_DECIMALS, |d| - 1); }
    }
    var z := Zeros(STABLECOIN_DECIMALS - |d|);
    ValueZero(z);
    ValueAppend(z, d);
    assert z + d == PadMicros(r) || (z == "" && d == PadMicros(r));
  }

  lemma FormatByParts(a: Amount, whole: nat, r: nat)
    requires a == whole * MICRO_SCALE + r && r < MICRO_SCALE
    ensures FormatAmount(a) == FormatUnits(whole, r)
  {
    DivMod(whole, MICRO_SCALE, r);
    assert a / MICRO_SCALE == whole && a % MICRO_SCALE == r;
  }

  /** The micro digits of a fraction without their trailing zeros. */
  lemma TrimmedMicroDigits(f: string)
    requires AllDigits(f) && ExactInMicros(f)
    ensures var u := TrimRight(MicroDigits(f), '0');
      && AllDigits(u) && |u| <= |f| && |u| <= STABLECOIN_DECIMALS
      && (u != "" ==> u[|u| - 1] != '0')
      && (u == "" <==> AllZeros(MicroDigits(f)))
      && (u == f <==> |f| <= STABLECOIN_DECIMALS && (f != "" ==> f[|f| - 1] != '0'))
  {
    var m := MicroDigits(f);
    var u := TrimRight(m, '0');
    assert forall k :: 0 <= k < |u| ==> u[k] == m[k];
    if |f| <= STABLECOIN_DECIMALS && (f != "" ==> f[|f| - 1] != '0') {
      TrimRightUnique(m, '0', f);
    }
  }

  /** The printed form, by its parts: whole units, and micro digits without their trailing zeros. */
  lemma FormatParts(a: Amount, whole: nat, f: string)
    requires AllDigits(f) && ExactInMicros(f)
    requires a == whole * MICRO_SCALE + Value(MicroDigits(f))
    ensures FormatAmount(a) == Join(ToDigits(whole), TrimRight(MicroDigits(f), '0'))
  {
    var m := MicroDigits(f);
    var r := Value(m);
    ValueBound(m);
    MicroScaleIsPow10();
    FormatByParts(a, whole, r);
    PadMicrosValue(r);
    ValueInjective(PadMicros(r), m);
    ValueZero(m);
    TrimmedMicroDigits(f);
  }

  /** Reading back what was printed gives the amount, for every amount. */
  lemma ParseInvertsFormat(a: Amount)
    ensures ParseAmount(FormatAmount(a)) == Ok(a)
  {
    var q, f := a / MICRO_SCALE, PadMicros(a % MICRO_SCALE);
    PadMicrosValue(a % MICRO_SCALE);
    assert MicroDigits(f) == f;
    FormatParts(a, q, f);
    TrimmedMicroDigits(f);
    MicroDigitsOfTrimmed(f);
    var i, u := ToDigits(q), TrimRight(f, '0');
    assert FormatAmount(a) == Join(i, u);
    ParseJoined(i, u, a);
  }

  /** A whole number of units is a million times as many micro-units, both ways. */
  lemma WholeUnits(q: nat)
    ensures FormatAmount(q * 1_000_000) == ToDigits(q)
    ensures ParseAmount(ToDigits(q)) == Ok(q * 1_000_000)
  {
    ParseInvertsFormat(q * 1_000_000);
  }

  lemma MicroDigitsOfTrimmed(f: string)
    requires AllDigits(f) && |f| == STABLECOIN_DECIMALS
    ensures AllDigits(TrimRight(f, '0')) && MicroDigits(TrimRight(f, '0')) == f
  {
    var u := TrimRight(f, '0');
    assert forall k :: 0 <= k < |u| ==> u[k] == f[k];
  }

  lemma ParseJoined(i: string, f: string, a: Amount)
    requires AllDigits(i) && i != "" && AllDigits(f) && |f| <= STABLECOIN_DECIMALS
    requires a == Value(i) * MICRO_SCALE + Value(MicroDigits(f))
    ensures ParseAmount(Join(i, f)) == Ok(a)
  {
    var t := Join(i, f);
    JoinParts(i, f);
    ParseAmountExact(t);
    var r := ParseAmount(t);
    assert TrimSpace(t) == t && IntPart(t) == i && FracPart(t) == f;
    assert r.Ok? && r.value == a;
  }

  /** The one spelling of each amount: no spare leading zero, no spare trailing zero or point. */
  predicate IsNormalForm(t: string) {
    MatchesDecimal(t) && NormalParts(IntPart(t), FracPart(t))
  }

  predicate NormalParts(i: string, f: string) {
    && i != "" && (i[0] == '0' ==> i == "0")
    && |f| <= STABLECOIN_DECIMALS && (f != "" ==> f[|f| - 1] != '0')
  }

  /**
    Printing after reading normalises: it is no longer than what was read, leaves exactly
    the normal forms unchanged, and maps two spellings to one exactly when they denote
    the same amount.
  */
  lemma FormatNormalises(s: string)
    requires ParseAmount(s).Ok?
    ensures var n := FormatAmount(ParseAmount(s).value);
      && IsNormalForm(n)
      && |n| <= |TrimSpace(s)| <= |s|
      && (n == TrimSpace(s) <==> IsNormalForm(TrimSpace(s)))
  {
    var t := TrimSpace(s);
    ParseAmountExact(s);
    PartsJoin(t);
    var i, f := IntPart(t), FracPart(t);
    JoinParts(i, f);
    NormaliseParts(i, f, ParseAmount(s).value);
  }

  lemma NormaliseParts(i: string, f: string, a: Amount)
    requires AllDigits(i) && i != "" && AllDigits(f) && ExactInMicros(f)
    requires a == Value(i) * MICRO_SCALE + Value(MicroDigits(f))
    ensures IsNormalForm(FormatAmount(a))
    ensures |FormatAmount(a)| <= |Join(i, f)|
    ensures FormatAmount(a) == Join(i, f) <==> NormalParts(i, f)
  {
    var w, u := ToDigits(Value(i)), TrimRight(MicroDigits(f), '0');
    FormatParts(a, Value(i), f);
    TrimmedMicroDigits(f);
    ToDigitsShortest(i);
    assert FormatAmount(a) == Join(w, u);
    assert NormalParts(w, u);
    JoinNormal(w, u);
    JoinInjective(w, u, i, f);
  }

  lemma JoinNormal(i: string, f: string)
    requires AllDigits(i) && AllDigits(f) && NormalParts(i, f)
    ensures IsNormalForm(Join(i, f))
  {
    JoinParts(i, f);
  }

  lemma JoinInjective(i: string, f: string, j: string, g: string)
    requires AllDigits(i) && AllDigits(f) && i != "" && AllDigits(j) && AllDigits(g) && j != ""
    ensures Join(i, f) == Join(j, g) <==> i == j && f == g
    ensures |i| <= |j| && |f| <= |g| ==> |Join(i, f)| <= |Join(j, g)|
  {
    JoinParts(i, f);
    JoinParts(j, g);
  }

  lemma SameFormatIffSameAmount(s: string, t: string)
    requires ParseAmount(s).Ok? && ParseAmount(t).Ok?
    ensures FormatAmount(ParseAmount(s).value) == FormatAmount(ParseAmount(t).value)
       <==> ParseAmount(s).value == ParseAmount(t).value
  {
    ParseInvertsFormat(ParseAmount(s).value);
    ParseInvertsFormat(ParseAmount(t).value);
  }

  /* ----- the micro-unit codec ------------------------------------------------ */

  lemma BigIntOfDigits(n: nat)
    ensures BigIntFromString(ToDigits(n)) == Some(n)
    ensures TrimSpace(ToDigits(n)) == ToDigits(n)
  {
    TrimSpaceIdentity(ToDigits(n));
  }

  lemma MicroRoundTrip(a: Amount)
    ensures AmountFromMicroString(MicroString(a)) == Ok(a)
  {
    BigIntOfDigits(a);
  }

  function Unsigned(t: string): string {
    if t != "" && (t[0] == '+' || t[0] == '-') then t[1..] else t
  }

  /**
    The micro codec accepts exactly the trimmed digit strings with an optional sign, a minus
    only before zeros, and yields their value.
  */
  lemma AmountFromMicroStringExact(s: string)
    ensures var t := TrimSpace(s); var digits := Unsigned(t); var r := AmountFromMicroString(s);
      && (r.Ok? <==> digits != "" && AllDigits(digits) && (t[0] == '-' ==> AllZeros(digits)))
      && (r.Ok? ==> r.value == Value(digits))
      && (r.Err? ==> r.error == NotMicroCount)
  {
    var digits := Unsigned(TrimSpace(s));
    if digits != "" && AllDigits(digits) {
      ValueZero(digits);
    }
  }
}
