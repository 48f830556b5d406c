/** `field_within`: is a reading within a percentage of its reference? */
module Bands {
  import opened Decimals
  import opened Options

  /** An optional key: absent, present without being a number, or a number. */
  datatype Key = Unset | NotNumber | Number(x: real)

  datatype Operands = Operands(
    value: Option<real>, reference: Option<real>, tolerance: Option<real>,
    referenceSubtract: Key, fieldSubtract: Key)

  datatype State = Within | Outside | NoDatum | BadReference | Void

  datatype Answer =
    | Refused
    | Answer(state: State, referenceEffective: Option<real>, valueEffective: Option<real>,
             ratio: Option<real>, deviation: Option<real>)

  function Subtract(k: Key): Option<real> {
    match k case Unset => Some(0.0) case NotNumber => None case Number(x) => Some(x)
  }

  /** The division and its band, once both sides are effective. */
  function Judge(refEff: real, valEff: Option<real>, tolerance: real, round: real -> real): Answer {
    if refEff <= 0.0 then Answer(Void, Some(refEff), None, None, None)
    else if valEff.None? then Answer(NoDatum, Some(refEff), None, None, None)
    else
      var ratio := round(valEff.value / refEff);
      var deviation := round(Abs(round(ratio - 1.0)) * 100.0);
      Answer(if deviation <= tolerance then Within else Outside, Some(refEff), valEff, Some(ratio), Some(deviation))
  }

  function Minus(x: Option<real>, y: real, round: real -> real): Option<real> {
    if x.None? then None else Some(round(x.value - y))
  }

  /** The check, every operation rounded by `round`. */
  function FieldWithinCheck(o: Operands, round: real -> real): Answer {
    if o.tolerance.None? || o.tolerance.value < 0.0 then Refused
    else
      var refSub, valSub := Subtract(o.referenceSubtract), Subtract(o.fieldSubtract);
      if o.reference.None? || refSub.None? || valSub.None? then Answer(BadReference, None, None, None, None)
      else Judge(round(o.reference.value - refSub.value), Minus(o.value, valSub.value, round), o.tolerance.value, round)
  }

  /** The operands under which the check has something to decide. */
  predicate Decidable(o: Operands) {
    && o.tolerance.Some? && o.tolerance.value >= 0.0
    && o.value.Some? && o.reference.Some? && !o.referenceSubtract.NotNumber? && !o.fieldSubtract.NotNumber?
  }

  function TrueReference(o: Operands): real
    requires Decidable(o)
  {
    o.reference.value - Subtract(o.referenceSubtract).value
  }

  function TrueValue(o: Operands): real
    requires Decidable(o)
  {
    o.value.value - Subtract(o.fieldSubtract).value
  }

  /** The band as the record defines it, without a division. */
  predicate InBand(o: Operands)
    requires Decidable(o)
  {
    100.0 * Abs(TrueValue(o) - TrueReference(o)) <= o.tolerance.value * TrueReference(o)
  }

  // ---------------------------------------------------------------- exact arithmetic

  lemma CancelFactor(a: real, b: real, r: real)
    requires r > 0.0
    ensures a * r <= b * r <==> a <= b
  {
    if a > b {
      assert (a - b) * r > 0.0;
    } else if a < b {
      assert (b - a) * r > 0.0;
    }
  }

  lemma DeviationTimes(q: real, r: real)
    requires r > 0.0
    ensures Abs(q * r - r) == Abs(q - 1.0) * r
  {
    assert q * r - r == (q - 1.0) * r;
    if q < 1.0 {
      assert (1.0 - q) * r > 0.0;
    } else if q > 1.0 {
      assert (q - 1.0) * r > 0.0;
    }
  }

  /** A band on the quotient is a band on the difference. */
  lemma QuotientBand(v: real, r: real, t: real)
    requires r > 0.0
    ensures 100.0 * Abs(v - r) <= t * r <==> 100.0 * Abs(v / r - 1.0) <= t
  {
    var q := v / r;
    assert q * r == v;
    DeviationTimes(q, r);
    assert 100.0 * (Abs(q - 1.0) * r) == (100.0 * Abs(q - 1.0)) * r;
    CancelFactor(100.0 * Abs(q - 1.0), t, r);
  }

  function Exactly(x: real): real { x }

  /** Without rounding the check answers within exactly in the band. */
  lemma {:induction false} ExactIsBand(o: Operands)
    requires Decidable(o) && TrueReference(o) > 0.0
    ensures FieldWithinCheck(o, Exactly).Answer?
    ensures FieldWithinCheck(o, Exactly).state == if InBand(o) then Within else Outside
  {
    var v, r, t := TrueValue(o), TrueReference(o), o.tolerance.value;
    QuotientBand(v, r, t);
    assert Abs(v / r - 1.0) * 100.0 == 100.0 * Abs(v / r - 1.0);
  }

  function Times(c: real, x: real): real { c * x }

  function ScaleKey(k: Key, c: real): Key { if k.Number? then Number(Times(c, k.x)) else k }

  function ScaleOption(x: Option<real>, c: real): Option<real> { if x.Some? then Some(Times(c, x.value)) else None }

  /** Another unit for all four operands. */
  function Scaled(o: Operands, c: real): Operands {
    Operands(ScaleOption(o.value, c), ScaleOption(o.reference, c), o.tolerance,
             ScaleKey(o.referenceSubtract, c), ScaleKey(o.fieldSubtract, c))
  }

  lemma ScaledDifference(x: real, y: real, c: real)
    ensures Times(c, x) - Times(c, y) == Times(c, x - y)
  {
  }

  lemma QuotientUnique(a: real, b: real, q: real)
    requires b > 0.0 && q * b == a
    ensures a / b == q
  {
    var p := a / b;
    assert p * b == a;
    CancelFactor(p, q, b);
    CancelFactor(q, p, b);
  }

  lemma ScaledQuotient(v: real, r: real, c: real)
    requires c > 0.0 && r > 0.0
    ensures Times(c, r) > 0.0 && Times(c, v) / Times(c, r) == v / r
  {
    var q, a, b := v / r, Times(c, v), Times(c, r);
    assert q * r == v;
    assert q * b == a by { assert q * (c * r) == c * (q * r); }
    QuotientUnique(a, b, q);
  }

  lemma ScaledZero(c: real)
    ensures Times(c, 0.0) == 0.0
  {
  }

  lemma ScaledSign(r: real, c: real)
    requires c > 0.0
    ensures Times(c, r) <= 0.0 <==> r <= 0.0
  {
    CancelFactor(r, 0.0, c);
    assert 0.0 * c == 0.0 && r * c == c * r;
  }

  lemma ScaledJudgement(r: real, v: Option<real>, t: real, c: real)
    requires c > 0.0
    ensures SameAnswer(Judge(r, v, t, Exactly), Judge(Times(c, r), ScaleOption(v, c), t, Exactly))
  {
    hide Times;
    ScaledSign(r, c);
    if r > 0.0 && v.Some? {
      ScaledQuotient(v.value, r, c);
    }
  }

  /** The same state, ratio and deviation. */
  predicate SameAnswer(a: Answer, b: Answer) {
    (a.Refused? && b.Refused?)
    || (a.Answer? && b.Answer? && a.state == b.state && a.ratio == b.ratio && a.deviation == b.deviation)
  }

  /** Exactly computed, the answer's state and ratio do not depend on the unit. */
  lemma ScaleInvariant(o: Operands, c: real)
    requires c > 0.0
    ensures SameAnswer(FieldWithinCheck(o, Exactly), FieldWithinCheck(Scaled(o, c), Exactly))
  {
    hide Judge, Times;
    ScaledZero(c);
    if o.reference.Some? && !o.referenceSubtract.NotNumber? && !o.fieldSubtract.NotNumber? && o.tolerance.Some? {
      var y, w := Subtract(o.referenceSubtract).value, Subtract(o.fieldSubtract).value;
      var s := Scaled(o, c);
      assert Subtract(s.referenceSubtract).value == Times(c, y) && Subtract(s.fieldSubtract).value == Times(c, w);
      ScaledDifference(o.reference.value, y, c);
      if o.value.Some? {
        ScaledDifference(o.value.value, w, c);
      }
      ScaledJudgement(o.reference.value - y, Minus(o.value, w, Exactly), o.tolerance.value, c);
    }
  }

  // ---------------------------------------------------------------- 28 digits

  /** Both effective operands and the tolerance have at most 28 digits. */
  predicate ExactOperands(o: Operands)
    requires Decidable(o)
  {
    Fits(TrueReference(o)) && Fits(TrueValue(o)) && Fits(o.tolerance.value)
  }

  /** Neither edge of the band is rounded out of it. */
  predicate EdgesRoundInward(t: real) {
    Round(1.0 + t / 100.0) <= 1.0 + t / 100.0 && 1.0 - t / 100.0 <= Round(1.0 - t / 100.0)
  }

  lemma RoundAbs(x: real)
    ensures Abs(Round(x)) == Round(Abs(x))
  {
    hide RoundPositive;
    if x > 0.0 { PositiveMonotone(x, x); }
    if x < 0.0 { PositiveMonotone(-x, -x); }
  }

  lemma RoundHundred(x: real)
    ensures Round(x * 100.0) == Round(x) * 100.0
  {
    hide Round;
    RoundShift(x);
    RoundShift(10.0 * x);
    assert x * 100.0 == 10.0 * (10.0 * x);
  }

  /** A deviation within the tolerance stays within it through both roundings. */
  lemma RoundedDeviation(ratio: real, t: real)
    requires t >= 0.0 && Fits(t) && 1.0 - t / 100.0 <= ratio <= 1.0 + t / 100.0
    ensures Round(Abs(Round(ratio - 1.0)) * 100.0) <= t
  {
    hide Round;
    var d := Abs(ratio - 1.0);
    RoundAbs(ratio - 1.0);
    RoundMonotone(d, t / 100.0);
    RoundHundred(t / 100.0);
    assert t / 100.0 * 100.0 == t;
    RoundMonotone(Round(d) * 100.0, t);
  }

  /** Where both edges round inward, a reading in the band, edges included, is answered within. */
  lemma BandIsWithin(o: Operands)
    requires Decidable(o) && ExactOperands(o) && TrueReference(o) > 0.0
    requires EdgesRoundInward(o.tolerance.value) && InBand(o)
    ensures FieldWithinCheck(o, Round).Answer? && FieldWithinCheck(o, Round).state == Within
  {
    hide Round;
    var v, r, t := TrueValue(o), TrueReference(o), o.tolerance.value;
    QuotientBand(v, r, t);
    RoundMonotone(1.0 - t / 100.0, v / r);
    RoundMonotone(v / r, 1.0 + t / 100.0);
    RoundedDeviation(Round(v / r), t);
  }

  const SLACK := 0.00000000000000000000000005   // 5e-26

  lemma DeviationIsExact(ratio: real)
    requires Fits(ratio - 1.0)
    ensures Round(Abs(Round(ratio - 1.0)) * 100.0) == Abs(ratio - 1.0) * 100.0
  {
    hide Round;
    RoundAbs(ratio - 1.0);
    RoundHundred(Abs(ratio - 1.0));
  }

  /** From a tenth up to ten a quotient is off by at most half its 27th decimal,
      and its distance from one is then computed exactly. */
  lemma QuotientSlack(q: real)
    requires 0.1 <= q < 10.0
    ensures Abs(Round(q) - q) * 100.0 <= SLACK
    ensures Fits(Round(q) - 1.0)
  {
    hide Round, Fits;
    var ratio := Round(q);
    if q < 1.0 {
      var n := RoundTenths(q);
      var m := n - P28.Floor;
      assert P28.Floor as real == P28;
      assert P28 * (ratio - 1.0) == m as real;
      FitsOnGrid28(ratio - 1.0, m);
    } else {
      var n := RoundOnes(q);
      var m := n - P27.Floor;
      assert P27.Floor as real == P27;
      assert P27 * (ratio - 1.0) == m as real;
      FitsOnGrid27(ratio - 1.0, m);
    }
  }

  /** The exact condition: for a quotient from a tenth up to ten, the answer is within if and
      only if the rounded quotient lies in the band. */
  lemma WithinExactlyWhen(o: Operands)
    requires Decidable(o) && Fits(TrueReference(o)) && Fits(TrueValue(o)) && TrueReference(o) > 0.0
    requires 0.1 <= TrueValue(o) / TrueReference(o) < 10.0
    ensures var q, t, answer := TrueValue(o) / TrueReference(o), o.tolerance.value, FieldWithinCheck(o, Round);
      answer.Answer? && (answer.state == Within <==> 1.0 - t / 100.0 <= Round(q) <= 1.0 + t / 100.0)
  {
    hide Round;
    var q := TrueValue(o) / TrueReference(o);
    QuotientSlack(q);
    DeviationIsExact(Round(q));
  }

  /** So a reading on the upper edge is kept exactly when that edge rounds inward. */
  lemma UpperEdgeKeptExactlyWhen(o: Operands)
    requires Decidable(o) && Fits(TrueReference(o)) && Fits(TrueValue(o)) && TrueReference(o) > 0.0
    requires TrueValue(o) / TrueReference(o) == 1.0 + o.tolerance.value / 100.0 && o.tolerance.value < 900.0
    ensures FieldWithinCheck(o, Round).Answer?
    ensures FieldWithinCheck(o, Round).state == Within <==>
      Round(1.0 + o.tolerance.value / 100.0) <= 1.0 + o.tolerance.value / 100.0
  {
    hide Round;
    WithinExactlyWhen(o);
    var t := o.tolerance.value;
    OneFits();
    RoundMonotone(1.0, 1.0 + t / 100.0);
  }

  /** And one on the lower edge, down to a tenth. */
  lemma LowerEdgeKeptExactlyWhen(o: Operands)
    requires Decidable(o) && Fits(TrueReference(o)) && Fits(TrueValue(o)) && TrueReference(o) > 0.0
    requires TrueValue(o) / TrueReference(o) == 1.0 - o.tolerance.value / 100.0 && o.tolerance.value <= 90.0
    ensures FieldWithinCheck(o, Round).Answer?
    ensures FieldWithinCheck(o, Round).state == Within <==>
      1.0 - o.tolerance.value / 100.0 <= Round(1.0 - o.tolerance.value / 100.0)
  {
    hide Round;
    WithinExactlyWhen(o);
    OneFits();
    RoundMonotone(1.0 - o.tolerance.value / 100.0, 1.0);
  }

  lemma OneFits()
    ensures Round(1.0) == 1.0
  {
    IntegerFits(1);
  }

  /** A within answer for a quotient from a tenth up to ten is true to 5e-26 percentage points. */
  lemma WithinIsNearBand(o: Operands)
    requires Decidable(o) && Fits(TrueReference(o)) && Fits(TrueValue(o)) && TrueReference(o) > 0.0
    requires 0.1 <= TrueValue(o) / TrueReference(o) < 10.0
    requires FieldWithinCheck(o, Round).Answer? && FieldWithinCheck(o, Round).state == Within
    ensures 100.0 * Abs(TrueValue(o) / TrueReference(o) - 1.0) <= o.tolerance.value + SLACK
  {
    hide Round;
    var q := TrueValue(o) / TrueReference(o);
    QuotientSlack(q);
    DeviationIsExact(Round(q));
  }

  // ---------------------------------------------------------------- how far the hypotheses reach

  /** Every tolerance below 900 % with at most 25 decimals has an exact band. */
  lemma UsualTolerance(t: real, n: int)
    requires 10000000000000000000000000.0 * t == n as real && 0.0 <= t < 900.0
    ensures Fits(t) && Fits(1.0 + t / 100.0) && Fits(1.0 - t / 100.0) && EdgesRoundInward(t)
  {
    hide Round;
    var one := P27.Floor;
    assert one as real == P27;
    assert P27 * (t / 100.0) == n as real;
    assert P27 * (1.0 + t / 100.0) == (one + n) as real;
    assert P27 * (1.0 - t / 100.0) == (one - n) as real;
    FitsOnGrid27(t / 100.0, n);
    FitsOnGrid27(1.0 + t / 100.0, one + n);
    FitsOnGrid27(1.0 - t / 100.0, one - n);
    RoundHundred(t / 100.0);
    assert t / 100.0 * 100.0 == t;
  }

  function Plain(value: real, reference: real, tolerance: real): Operands {
    Operands(Some(value), Some(reference), Some(tolerance), Unset, Unset)
  }

  /** The slack is real: with a tolerance of zero, two different readings are answered within. */
  lemma RoundingAdmits()
    ensures var r := 3000000000000000000000000000.0;
      var o := Plain(r + 1.0, r, 0.0);
      ExactOperands(o) && EdgesRoundInward(0.0) && !InBand(o) && FieldWithinCheck(o, Round) ==
        Answer(Within, Some(r), Some(r + 1.0), Some(1.0), Some(0.0))
  {
    hide Round;
    var n := 3000000000000000000000000000;
    var r := n as real;
    var q := (r + 1.0) / r;
    IntegerFits(n);
    IntegerFits(n + 1);
    IntegerFits(0);
    IntegerFits(1);
    RoundShift27(q);
    LargeRound(P27 * q);
  }

  lemma LargeRound(x: real)
    requires P27 <= x < P28
    ensures Round(x) == HalfEven(x) as real
  {
  }

  /** An edge that rounds outward is lost: this reading lies on it, and is answered outside. */
  lemma LongEdgeIsLost()
    ensures var r, t := 5000000000000000000000000000.0, 0.00000000000000000000000006;
      var o := Plain(r + 3.0, r, t);
      InBand(o) && ExactOperands(o) && !EdgesRoundInward(t)
      && FieldWithinCheck(o, Round).Answer? && FieldWithinCheck(o, Round).state == Outside
  {
    hide Round;
    var n := 5000000000000000000000000000;
    var r, t := n as real, 0.00000000000000000000000006;
    var q := (r + 3.0) / r;
    assert q == 1.0 + t / 100.0;
    IntegerFits(n);
    IntegerFits(n + 3);
    FitsOnGrid27(t, 60);
    RoundShift27(q);
    LargeRound(P27 * q);
    var ratio := Round(q);
    assert P27 * ratio == P27 + 1.0;
    FitsOnGrid27(ratio - 1.0, 1);
    DeviationIsExact(ratio);
  }

  /** An edge with too many digits that rounds inward is kept. */
  lemma LongEdgeCanBeKept()
    ensures var r, t := 5000000000000000000000000000.0, 0.00000000000000000000000004;
      var o := Plain(r + 2.0, r, t);
      InBand(o) && ExactOperands(o) && !Fits(1.0 + t / 100.0)
      && FieldWithinCheck(o, Round).Answer? && FieldWithinCheck(o, Round).state == Within
  {
    hide Round;
    var n := 5000000000000000000000000000;
    var r, t := n as real, 0.00000000000000000000000004;
    var q := (r + 2.0) / r;
    assert q == 1.0 + t / 100.0;
    IntegerFits(n);
    IntegerFits(n + 2);
    FitsOnGrid27(t, 40);
    RoundShift27(q);
    LargeRound(P27 * q);
    assert P27 * Round(q) == P27;
    UpperEdgeKeptExactlyWhen(Plain(r + 2.0, r, t));
  }
}
