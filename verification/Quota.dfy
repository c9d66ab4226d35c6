/** Quota conversions: saturation to int32 or to the wallet range, the two roundings, and
    the three-stage rounded price of a channel test. */
module Quota {
  import opened Pricing

  const MAX_QUOTA := 2147483647
  const MIN_QUOTA := -2147483648
  const MAX_WALLET := 9007199254740991   // 2^53 - 1

  datatype ClampKind = Overflow | Underflow | NotANumber

  /** A converted quota, and the clamp that was needed, if any. */
  datatype Conversion = Exact(quota: int) | Clamped(quota: int, kind: ClampKind)

  /** Truncation toward zero, as int(float64) does. */
  function Truncate(x: real): int { if x >= 0.0 then x.Floor else -((-x).Floor) }

  /** math.Round and decimal.Round(0): half away from zero. */
  function RoundHalfAway(x: real): int { if x >= 0.0 then (x + 0.5).Floor else -((0.5 - x).Floor) }

  function Round(f: Float): Float { if f.Fin? then Fin(RoundHalfAway(f.r) as real) else f }

  predicate Above(f: Float, bound: int) { f.PosInf? || (f.Fin? && f.r > bound as real) }

  predicate Beneath(f: Float, bound: int) { f.NegInf? || (f.Fin? && f.r < bound as real) }

  function Saturate(f: Float, max: int, min: int): Conversion {
    if f.NaN? then Clamped(0, NotANumber)
    else if Above(f, max) then Clamped(max, Overflow)
    else if Beneath(f, min) then Clamped(min, Underflow)
    else Exact(Truncate(f.r))
  }

  function QuotaFromFloat(f: Float): int { Saturate(f, MAX_QUOTA, MIN_QUOTA).quota }

  function QuotaRound(f: Float): int { Saturate(Round(f), MAX_QUOTA, MIN_QUOTA).quota }

  /** The strict forms fail where the others clamp. */
  predicate StrictOk(c: Conversion) { c.Exact? }

  // ----- Rounding -----

  /** The rounded value is the nearest integer, ties going away from zero. */
  lemma RoundNearest(x: real)
    ensures var n := RoundHalfAway(x) as real;
      && n - 0.5 <= x <= n + 0.5
      && (x == n - 0.5 ==> x >= 0.0) && (x == n + 0.5 ==> x <= 0.0)
  {
  }

  lemma RoundMonotone(x: real, y: real)
    requires x <= y
    ensures RoundHalfAway(x) <= RoundHalfAway(y)
  {
  }

  lemma RoundOfInteger(n: int)
    ensures RoundHalfAway(n as real) == n && Truncate(n as real) == n
  {
  }

  lemma TruncateMonotone(x: real, y: real)
    requires x <= y
    ensures Truncate(x) <= Truncate(y)
  {
  }

  /** Truncation drops the fraction: toward zero, by less than one. */
  lemma TruncateIs(x: real)
    ensures x >= 0.0 ==> Truncate(x) as real <= x < Truncate(x) as real + 1.0
    ensures x <= 0.0 ==> Truncate(x) as real - 1.0 < x <= Truncate(x) as real
  {
  }

  // ----- Saturation -----

  function Clamp(n: int, max: int, min: int): int { if n > max then max else if n < min then min else n }

  /** For every finite value the int32 forms are the rounded or truncated value, clamped. */
  lemma FormsAreClamps(x: real)
    ensures QuotaRound(Fin(x)) == Clamp(RoundHalfAway(x), 2147483647, -2147483648)
    ensures QuotaFromFloat(Fin(x)) == Clamp(Truncate(x), 2147483647, -2147483648)
  {
    RoundOfInteger(RoundHalfAway(x));
    RoundOfInteger(MAX_QUOTA);
    RoundOfInteger(MIN_QUOTA);
    if x > MAX_QUOTA as real { TruncateMonotone(MAX_QUOTA as real, x); }
    if x < MIN_QUOTA as real { TruncateMonotone(x, MIN_QUOTA as real); }
  }

  /** The bounds, the special values, and when a clamp is reported: int32 from -2^31 to 2^31 - 1,
      infinities at the bounds, NaN as 0. */
  lemma SaturationIs(f: Float)
    ensures -2147483648 <= QuotaRound(f) <= 2147483647 && -2147483648 <= QuotaFromFloat(f) <= 2147483647
    ensures f.PosInf? ==> QuotaRound(f) == QuotaFromFloat(f) == 2147483647
    ensures f.NegInf? ==> QuotaRound(f) == QuotaFromFloat(f) == -2147483648
    ensures f.NaN? ==> QuotaRound(f) == QuotaFromFloat(f) == 0
    ensures var c := Saturate(f, 2147483647, -2147483648);
      && (c.Exact? <==> f.Fin? && -2147483648.0 <= f.r <= 2147483647.0)
      && (c == Clamped(2147483647, Overflow) <==> f.PosInf? || (f.Fin? && f.r > 2147483647.0))
      && (c == Clamped(-2147483648, Underflow) <==> f.NegInf? || (f.Fin? && f.r < -2147483648.0))
      && (c == Clamped(0, NotANumber) <==> f.NaN?)
  {
    if f.Fin? { FormsAreClamps(f.r); }
  }

  /** The order of float64 without NaN. */
  predicate AtMost(a: Float, b: Float) {
    a.NegInf? || b.PosInf? || (a.Fin? && b.Fin? && a.r <= b.r)
  }

  lemma FormsMonotone(a: Float, b: Float)
    requires AtMost(a, b) && !a.NaN? && !b.NaN?
    ensures QuotaRound(a) <= QuotaRound(b) && QuotaFromFloat(a) <= QuotaFromFloat(b)
  {
    if a.Fin? { FormsAreClamps(a.r); }
    if b.Fin? { FormsAreClamps(b.r); }
    if a.Fin? && b.Fin? {
      RoundMonotone(a.r, b.r);
      TruncateMonotone(a.r, b.r);
    }
  }

  // ----- Decimals through float64 -----

  /** Converting an integer to float64: monotone, and exact up to 2^53. */
  ghost predicate FloatLike(toFloat: int -> Float) {
    && (forall n :: !toFloat(n).NaN?)
    && (forall m, n | m <= n :: AtMost(toFloat(m), toFloat(n)))
    && (forall n | -(MAX_WALLET + 1) <= n <= MAX_WALLET + 1 :: toFloat(n) == Fin(n as real))
  }

  /** Rounded as a decimal, converted to float64, saturated. */
  function FromDecimal(toFloat: int -> Float, d: real, max: int, min: int): Conversion {
    Saturate(toFloat(RoundHalfAway(d)), max, min)
  }

  /** For every range within 2^53 the detour through float64 is harmless: exactly the decimals
      that round into the range convert without a clamp, and the others saturate at the bound
      they pass. */
  lemma DecimalIsClamp(toFloat: int -> Float, d: real, max: int, min: int)
    requires FloatLike(toFloat) && -MAX_WALLET <= min <= max <= MAX_WALLET
    ensures var c := FromDecimal(toFloat, d, max, min);
      c.quota == Clamp(RoundHalfAway(d), max, min) && (StrictOk(c) <==> min <= RoundHalfAway(d) <= max)
  {
    var n := RoundHalfAway(d);
    var top := MAX_WALLET + 1;
    assert toFloat(top) == Fin(top as real) && toFloat(-top) == Fin((-top) as real);
    if n > top {
      assert AtMost(toFloat(top), toFloat(n));
    } else if n < -top {
      assert AtMost(toFloat(n), toFloat(-top));
    } else {
      assert toFloat(n) == Fin(n as real);
      RoundOfInteger(n);
    }
  }

  /** WalletQuotaFromDecimalStrict accepts exactly the decimals that round into the wallet
      range, and returns the rounded value; QuotaFromDecimal is the rounded value clamped. */
  lemma DecimalForms(toFloat: int -> Float, d: real)
    requires FloatLike(toFloat)
    ensures var wallet := FromDecimal(toFloat, d, MAX_WALLET, -MAX_WALLET);
      && (StrictOk(wallet) <==> -9007199254740991 <= RoundHalfAway(d) <= 9007199254740991)
      && (StrictOk(wallet) ==> wallet.quota == RoundHalfAway(d))
    ensures FromDecimal(toFloat, d, MAX_QUOTA, MIN_QUOTA).quota == Clamp(RoundHalfAway(d), MAX_QUOTA, MIN_QUOTA)
  {
    DecimalIsClamp(toFloat, d, MAX_WALLET, -MAX_WALLET);
    DecimalIsClamp(toFloat, d, MAX_QUOTA, MIN_QUOTA);
  }

  // ----- The price of a channel test -----

  /** A token count times a ratio, rounded. */
  function Priced(tokens: int, ratio: real): int { QuotaRound(Fin(tokens as real * ratio)) }

  function Tokens(prompt: nat, completionQuota: int): int { QuotaRound(Fin(prompt as real + completionQuota as real)) }

  /** settleTestQuota without a fixed price: three roundings, and at least 1 for a ratio that
      is not zero. Token counts are non-negative. */
  function TestQuota(prompt: nat, completion: nat, completionRatio: real, modelRatio: real): int {
    var quota := Priced(Tokens(prompt, Priced(completion, completionRatio)), modelRatio);
    if modelRatio != 0.0 && quota <= 0 then 1 else quota
  }

  lemma RealScale(a: real, b: real, c: real)
    requires a <= b && c >= 0.0
    ensures a * c <= b * c
  {
  }

  lemma RoundedMonotone(x: real, y: real)
    requires x <= y
    ensures QuotaRound(Fin(x)) <= QuotaRound(Fin(y))
  {
    FormsMonotone(Fin(x), Fin(y));
  }

  lemma TokensMonotone(p: nat, p': nat, a: int, a': int)
    requires p <= p' && a <= a'
    ensures Tokens(p, a) <= Tokens(p', a')
  {
    RoundedMonotone(p as real + a as real, p' as real + a' as real);
  }

  lemma PricedMonotone(t: int, t': int, ratio: real)
    requires t <= t' && ratio >= 0.0
    ensures Priced(t, ratio) <= Priced(t', ratio)
  {
    var x, y := t as real * ratio, t' as real * ratio;
    assert x <= y by { RealScale(t as real, t' as real, ratio); }
    RoundedMonotone(x, y);
  }

  /** More tokens never cost less. */
  lemma TestQuotaMonotone(p: nat, p': nat, c: nat, c': nat, completionRatio: real, modelRatio: real)
    requires p <= p' && c <= c' && completionRatio >= 0.0 && modelRatio >= 0.0
    ensures TestQuota(p, c, completionRatio, modelRatio) <= TestQuota(p', c', completionRatio, modelRatio)
  {
    var a, a' := Priced(c, completionRatio), Priced(c', completionRatio);
    PricedMonotone(c, c', completionRatio);
    TokensMonotone(p, p', a, a');
    PricedMonotone(Tokens(p, a), Tokens(p', a'), modelRatio);
  }

  lemma PricedAtZero(t: int)
    ensures Priced(t, 0.0) == 0
  {
    assert t as real * 0.0 == 0.0;
  }

  /** A test is free exactly when the model ratio is zero, whatever the tokens and the other
      ratio; otherwise it costs at least 1. */
  lemma FreeIffZeroRatio(p: nat, c: nat, completionRatio: real, modelRatio: real)
    ensures TestQuota(p, c, completionRatio, modelRatio) >= 0
    ensures TestQuota(p, c, completionRatio, modelRatio) == 0 <==> modelRatio == 0.0
  {
    PricedAtZero(Tokens(p, Priced(c, completionRatio)));
  }

  // Accuracy. The products are named, so that the roundings are stated over plain reals.

  ghost predicate InRange(n: int) { MIN_QUOTA <= n <= MAX_QUOTA }

  predicate Near(x: real, y: real, slack: real) { y - slack <= x <= y + slack }

  lemma RoundedNear(y: real, exact: real, slack: real)
    requires Near(y, exact, slack) && InRange(RoundHalfAway(y))
    ensures Near(QuotaRound(Fin(y)) as real, exact, 0.5 + slack)
  {
    FormsAreClamps(y);
    RoundNearest(y);
  }

  lemma TokensExact(p: nat, a: int)
    requires InRange(p + a)
    ensures Tokens(p, a) == p + a
  {
    assert p as real + a as real == (p + a) as real;
    RoundOfInteger(p + a);
    FormsAreClamps((p + a) as real);
  }

  lemma CompletionSlack(p: nat, x: real)
    requires InRange(RoundHalfAway(x)) && InRange(p + QuotaRound(Fin(x)))
    ensures Near(Tokens(p, QuotaRound(Fin(x))) as real, p as real + x, 0.5)
  {
    RoundedNear(x, x, 0.0);
    TokensExact(p, QuotaRound(Fin(x)));
  }

  lemma ScaledDifference(e: real, t: real, ratio: real)
    ensures t * ratio - e * ratio == (t - e) * ratio
  {
  }

  /** If t is within 1/2 of e, then t times a ratio is within half the ratio of e times it. */
  lemma ScaledSlack(e: real, t: real, ratio: real, y: real, exact: real)
    requires Near(t, e, 0.5) && ratio >= 0.0 && y == t * ratio && exact == e * ratio
    ensures Near(y, exact, 0.5 * ratio)
  {
    ScaledDifference(e, t, ratio);
    RealScale(-0.5, t - e, ratio);
    RealScale(t - e, 0.5, ratio);
  }

  /** While none of the three conversions saturates, the rounded quota is within 1/2 + ratio/2
      of the exact price: x, the completion tokens times their ratio, is what the first
      conversion rounds, t is the token total, y = t times the model ratio is what the last
      conversion rounds, e is the exact token cost and exact the price without any rounding. */
  lemma StagesAccurate(p: nat, x: real, t: int, y: real, modelRatio: real, e: real, exact: real)
    requires modelRatio >= 0.0
    requires t == Tokens(p, QuotaRound(Fin(x))) && y == t as real * modelRatio
    requires e == p as real + x && exact == e * modelRatio
    requires InRange(RoundHalfAway(x)) && InRange(p + QuotaRound(Fin(x))) && InRange(RoundHalfAway(y))
    ensures Near(QuotaRound(Fin(y)) as real, exact, 0.5 + 0.5 * modelRatio)
  {
    assert Near(t as real, e, 0.5) by { CompletionSlack(p, x); }
    assert Near(y, exact, 0.5 * modelRatio) by { ScaledSlack(e, t as real, modelRatio, y, exact); }
    RoundedNear(y, exact, 0.5 * modelRatio);
  }

  lemma PricedIs(t: int, ratio: real, y: real)
    requires y == t as real * ratio
    ensures Priced(t, ratio) == QuotaRound(Fin(y))
  {
  }

  lemma TestQuotaIs(p: nat, c: nat, completionRatio: real, modelRatio: real, a: int, t: int, q: int)
    requires a == Priced(c, completionRatio) && t == Tokens(p, a) && q == Priced(t, modelRatio)
    ensures TestQuota(p, c, completionRatio, modelRatio) == if modelRatio != 0.0 && q <= 0 then 1 else q
  {
  }

  /** While none of the three conversions saturates, the charged quota is within 1/2 + ratio/2
      of the exact price; where the floor of 1 is charged instead, the exact price is at most
      1/2 + ratio/2. x, t, y, e and exact are as above. */
  lemma TestQuotaAccurate(p: nat, c: nat, completionRatio: real, modelRatio: real,
                          x: real, t: int, y: real, e: real, exact: real)
    requires modelRatio >= 0.0 && x == c as real * completionRatio
    requires t == Tokens(p, QuotaRound(Fin(x))) && y == t as real * modelRatio
    requires e == p as real + x && exact == e * modelRatio
    requires InRange(RoundHalfAway(x)) && InRange(p + QuotaRound(Fin(x))) && InRange(RoundHalfAway(y))
    ensures var q := TestQuota(p, c, completionRatio, modelRatio);
      if modelRatio != 0.0 && QuotaRound(Fin(y)) <= 0 then q == 1 && exact <= 0.5 + 0.5 * modelRatio
      else Near(q as real, exact, 0.5 + 0.5 * modelRatio)
  {
    PricedIs(c, completionRatio, x);
    PricedIs(t, modelRatio, y);
    TestQuotaIs(p, c, completionRatio, modelRatio, QuotaRound(Fin(x)), t, QuotaRound(Fin(y)));
    assert Near(QuotaRound(Fin(y)) as real, exact, 0.5 + 0.5 * modelRatio) by {
      StagesAccurate(p, x, t, y, modelRatio, e, exact);
    }
  }
}
