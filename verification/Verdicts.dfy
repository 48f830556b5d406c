/** What each verdict of a datum says about the numbers it was read from. */
module Verdicts {
  import opened Bands
  import opened Decimals
  import opened Options
  import opened Staleness

  /** A subtraction of that amount; an absent one subtracts nothing. */
  predicate Amount(k: Key, x: real) { k == Number(x) || (k.Unset? && x == 0.0) }

  /** When the check decides nothing, and why. */
  lemma {:induction false} UndecidedWhen(o: Operands, round: real -> real)
    ensures var answer := FieldWithinCheck(o, round);
      && (answer.Refused? <==> o.tolerance.None? || o.tolerance.value < 0.0)
      && (!answer.Refused? ==>
            && (answer.state == BadReference <==> o.reference.None? || o.referenceSubtract.NotNumber? || o.fieldSubtract.NotNumber?)
            && (forall a: real, b: real :: o.reference.Some? && Amount(o.referenceSubtract, a) && Amount(o.fieldSubtract, b) ==>
                  && (answer.state == Void <==> round(o.reference.value - a) <= 0.0)
                  && (answer.state == NoDatum <==> round(o.reference.value - a) > 0.0 && o.value.None?)
                  && (answer.state in {Within, Outside} <==> round(o.reference.value - a) > 0.0 && o.value.Some?)))
  {
  }

  /** The value is within `t` percent of the reference. */
  predicate Near(value: real, reference: real, t: real) { 100.0 * Abs(value - reference) <= t * reference }

  /** Computed exactly: the value less its offset is within the tolerance of the reference less its tare. */
  lemma {:induction false} ExactVerdict(o: Operands, v: real, r: real, t: real, a: real, b: real)
    requires o.value == Some(v) && o.reference == Some(r) && o.tolerance == Some(t) && t >= 0.0
    requires Amount(o.referenceSubtract, a) && Amount(o.fieldSubtract, b) && r - a > 0.0
    ensures var answer := FieldWithinCheck(o, Exactly);
      && answer.Answer? && answer.state in {Within, Outside}
      && (answer.state == Within <==> Near(v - b, r - a, t))
      && answer.ratio == Some((v - b) / (r - a))
  {
    ExactIsBand(o);
  }

  // ---------------------------------------------------------------- the bias

  /** Dividing the quotient by a factor is dividing by the product. */
  lemma QuotientByFactor(v: real, r: real, f: real)
    requires r > 0.0 && f > 0.0
    ensures Times(r, f) > 0.0 && (v / r) / f == v / Times(r, f)
  {
    var q := (v / r) / f;
    assert q * f == v / r;
    assert q * Times(r, f) == v by { assert q * (r * f) == (q * f) * r; }
    assert Times(r, f) > 0.0;
    QuotientUnique(v, Times(r, f), q);
  }

  lemma FactorPositive(b: real)
    requires b > -100.0
    ensures 1.0 + b / 100.0 > 0.0
  {
  }

  /** Computed exactly, a biased datum is judged against the reference raised by the bias. */
  lemma CorrectedBand(v: real, r: real, b: real, t: real)
    requires r > 0.0 && b > -100.0
    ensures Abs(CorrectedRatio(v, r, b, Exactly) - 1.0) * 100.0 <= t <==> Near(v, Times(r, 1.0 + b / 100.0), t)
  {
    FactorPositive(b);
    var f := 1.0 + b / 100.0;
    QuotientByFactor(v, r, f);
    QuotientBand(v, Times(r, f), t);
    assert CorrectedRatio(v, r, b, Exactly) == v / Times(r, f);
    hide Times, Abs, CorrectedRatio;
  }

  /** Without a bias a datum is WITHIN exactly when it lies in the band and its witness is fresh. */
  lemma {:induction false} UnbiasedVerdict(x: Read, v: real, r: real, t: real, a: real, b: real)
    requires x.operands.value == Some(v) && x.operands.reference == Some(r) && x.operands.tolerance == Some(t) && t >= 0.0
    requires Amount(x.operands.referenceSubtract, a) && Amount(x.operands.fieldSubtract, b) && r - a > 0.0 && x.bias.Unset?
    ensures (Evaluate(x, Exactly).Evaluation? && Evaluate(x, Exactly).state.Within?) <==>
      Near(v - b, r - a, t) && ProvedFresh(x)
  {
    ExactVerdict(x.operands, v, r, t, a, b);
    WithinExactly(x, Exactly);
    assert JudgedDeviation(x, Exactly) == FieldWithinCheck(x.operands, Exactly).deviation.value;
    hide Evaluate, CorrectedRatio;
  }

  lemma ExactEffective(o: Operands, v: real, r: real, t: real, a: real, b: real)
    requires o.value == Some(v) && o.reference == Some(r) && o.tolerance == Some(t) && t >= 0.0
    requires Amount(o.referenceSubtract, a) && Amount(o.fieldSubtract, b) && r - a > 0.0
    ensures var answer := FieldWithinCheck(o, Exactly);
      && answer.Answer? && answer.state in {Within, Outside} && answer.deviation.Some?
      && answer.valueEffective == Some(v - b) && answer.referenceEffective == Some(r - a)
  {
  }

  lemma JudgedBiased(x: Read, v: real, r: real, t: real, a: real, b: real, bias: real)
    requires x.operands.value == Some(v) && x.operands.reference == Some(r) && x.operands.tolerance == Some(t) && t >= 0.0
    requires Amount(x.operands.referenceSubtract, a) && Amount(x.operands.fieldSubtract, b) && r - a > 0.0
    requires x.bias == Number(bias)
    ensures var answer := FieldWithinCheck(x.operands, Exactly);
      && answer.Answer? && Decided(answer.state) && answer.deviation.Some?
      && JudgedDeviation(x, Exactly) == Abs(CorrectedRatio(v - b, r - a, bias, Exactly) - 1.0) * 100.0
  {
    ExactEffective(x.operands, v, r, t, a, b);
    hide CorrectedRatio, FieldWithinCheck, Times, Abs;
  }

  /** With a bias of `bias` percent it is WITHIN exactly when the value is within the tolerance of the
      reference raised by that percentage, and its witness is fresh. */
  lemma {:induction false} BiasedVerdict(x: Read, v: real, r: real, t: real, a: real, b: real, bias: real)
    requires x.operands.value == Some(v) && x.operands.reference == Some(r) && x.operands.tolerance == Some(t) && t >= 0.0
    requires Amount(x.operands.referenceSubtract, a) && Amount(x.operands.fieldSubtract, b) && r - a > 0.0
    requires x.bias == Number(bias) && bias > -100.0
    ensures (Evaluate(x, Exactly).Evaluation? && Evaluate(x, Exactly).state.Within?) <==>
      Near(v - b, Times(r - a, 1.0 + bias / 100.0), t) && ProvedFresh(x)
  {
    JudgedBiased(x, v, r, t, a, b, bias);
    hide Evaluate, CorrectedRatio, FieldWithinCheck, Times, Abs, JudgedDeviation, Near;
    WithinExactly(x, Exactly);
    CorrectedBand(v - b, r - a, bias, t);
  }

  /** When an evaluation refuses its scenario: a tolerance, a bias or, for a decided datum, a window
      that is no usable number. */
  lemma {:induction false} RefusesWhen(x: Read, round: real -> real)
    ensures Evaluate(x, round).Refusal? <==>
      || x.operands.tolerance.None? || x.operands.tolerance.value < 0.0
      || x.bias.NotNumber? || (x.bias.Number? && x.bias.x <= -100.0)
      || (FieldWithinCheck(x.operands, round).state in {Within, Outside}
          && (x.freshWithin.NotNumber? || (x.freshWithin.Number? && x.freshWithin.x < 0.0)))
  {
    UndecidedWhen(x.operands, round);
    hide FieldWithinCheck, CorrectedRatio;
  }

  /** When an evaluation voids: a reference that is not positive, or a decided datum whose witness is
      unknown or older than its window. */
  lemma {:induction false} VoidsWhen(x: Read, round: real -> real)
    requires Evaluate(x, round).Evaluation?
    ensures Evaluate(x, round).state.Void? <==>
      var was := FieldWithinCheck(x.operands, round).state;
      was == Void
      || (was in {Within, Outside} && x.freshWithin.Number? && (x.age.None? || x.age.value > x.freshWithin.x))
    ensures Evaluate(x, round).state in {NoDatum, BadReference} ==> Evaluate(x, round).state == FieldWithinCheck(x.operands, round).state
  {
    hide FieldWithinCheck, CorrectedRatio;
  }

  /** A deadline stamps the last receipt VOID and keeps the rest of it; without one, it stamps a receipt
      of the operands without their value, which decides nothing; a tolerance that is no usable number
      refuses. */
  lemma {:induction false} DeadlineMeans(last: Option<Receipt>, o: Operands, round: real -> real)
    ensures AtDeadline(last, o, round).None? <==> last.None? && (o.tolerance.None? || o.tolerance.value < 0.0)
    ensures last.Some? ==> AtDeadline(last, o, round) == Some(last.value.(verdict := Void))
    ensures last.None? && AtDeadline(last, o, round).Some? ==>
      var r := AtDeadline(last, o, round).value;
      && r.verdict == Void && r.answer.Answer? && r.answer.state in {NoDatum, BadReference, Void}
      && r.biasPct.None? && r.judgedOn == Undecided && r.freshWithin.None? && r.witnessAge.None?
  {
  }
}
