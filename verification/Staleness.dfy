/** A datum's receipt, from the runner that writes it to the grading that audits it. */
module Staleness {
  import opened Bands
  import opened Decimals
  import opened Options

  /** Everything one evaluation reads. `age` is the rounded age of a numeric witness. */
  datatype Read = Read(operands: Operands, bias: Key, freshWithin: Key, age: Option<real>)

  datatype Basis = Undecided | OnRatio | OnCorrected

  /** What is banked; an unset field is one the runner did not write. */
  datatype Receipt = Receipt(
    verdict: State, answer: Answer, tolerance: real,
    biasPct: Option<real>, correctedRatio: Option<real>, correctedDeviation: Option<real>, judgedOn: Basis,
    freshWithin: Option<real>, witnessAge: Option<real>, reason: bool)

  datatype Evaluation = Refusal | Evaluation(state: State, receipt: Receipt)

  predicate Decided(s: State) { s.Within? || s.Outside? }

  function CorrectedRatio(valEff: real, refEff: real, bias: real, round: real -> real): real {
    var factor := round(1.0 + round(bias / 100.0));
    if refEff == 0.0 || factor == 0.0 then 0.0 else round(round(valEff / refEff) / factor)
  }

  /** The bias and its corrected ratio, beside the datum. */
  function ApplyBias(r: Receipt, bias: Key, round: real -> real): Option<Receipt> {
    match bias
    case Unset => Some(r)
    case NotNumber => None
    case Number(b) =>
      if b <= -100.0 then None
      else
        var ratio := if r.answer.Answer? && r.answer.valueEffective.Some? && r.answer.referenceEffective.Some?
          then Some(CorrectedRatio(r.answer.valueEffective.value, r.answer.referenceEffective.value, b, round)) else None;
        Some(r.(biasPct := Some(b), correctedRatio := ratio))
  }

  /** A decided datum with a bias is judged again, on the corrected ratio. */
  function Rejudge(state: State, r: Receipt, round: real -> real): (State, Receipt) {
    if !Decided(state) then (state, r)
    else if r.biasPct.None? || r.correctedRatio.None? then (state, r.(judgedOn := OnRatio))
    else
      var deviation := round(Abs(round(r.correctedRatio.value - 1.0)) * 100.0);
      var final := if deviation <= r.tolerance then Within else Outside;
      (final, r.(correctedDeviation := Some(deviation), judgedOn := OnCorrected, verdict := final))
  }

  /** A witness older than its window, or none at all, voids a decided verdict. */
  function ApplyFreshness(state: State, r: Receipt, freshWithin: Key, age: Option<real>): Evaluation {
    if freshWithin.Unset? || !Decided(state) then Evaluation(state, r)
    else if freshWithin.NotNumber? || freshWithin.x < 0.0 then Refusal
    else
      var aged := r.(freshWithin := Some(freshWithin.x), witnessAge := age);
      if age.None? || age.value > freshWithin.x then Evaluation(Void, aged.(reason := true, verdict := Void))
      else Evaluation(state, aged)
  }

  function Fresh(o: Operands, answer: Answer): Receipt
    requires answer.Answer? && o.tolerance.Some?
  {
    Receipt(answer.state, answer, o.tolerance.value, None, None, None, Undecided, None, None, false)
  }

  /** `eval_field_within`: the band, the bias, the second judgement, the freshness. */
  function Evaluate(x: Read, round: real -> real): Evaluation {
    var answer := FieldWithinCheck(x.operands, round);
    if answer.Refused? then Refusal
    else
      match ApplyBias(Fresh(x.operands, answer), x.bias, round)
      case None => Refusal
      case Some(biased) =>
        var (state, judged) := Rejudge(answer.state, biased, round);
        ApplyFreshness(state, judged, x.freshWithin, x.age)
  }

  /** `void_at_deadline`: the last poll's receipt, or a bare one, stamped VOID. */
  function AtDeadline(last: Option<Receipt>, o: Operands, round: real -> real): Option<Receipt> {
    if last.Some? then Some(last.value.(verdict := Void))
    else
      var answer := FieldWithinCheck(o.(value := None), round);
      if answer.Refused? then None else Some(Fresh(o, answer).(verdict := Void))
  }

  // ---------------------------------------------------------------- the audit

  datatype Bin = Unchecked | StalePass | MissingWitness | VoidOnStale | InOrder

  /** Floats keep the order of the decimals they read. */
  ghost predicate Monotone(float: real -> real) {
    forall a: real, b: real :: a <= b ==> float(a) <= float(b)
  }

  /** Where attestation A3 files a receipt. */
  function BinOf(r: Receipt, float: real -> real): Bin {
    if r.freshWithin.None? then Unchecked
    else
      var stale := r.witnessAge.None? || float(r.witnessAge.value) > float(r.freshWithin.value);
      if Decided(r.verdict) then
        if r.witnessAge.None? then MissingWitness else if stale then StalePass else InOrder
      else if r.verdict.Void? && stale then VoidOnStale
      else InOrder
  }

  /** A checked receipt that was passed or failed, though its witness's age is unknown or, as floats
      compare, over its window. */
  predicate Unproved(r: Receipt, float: real -> real) {
    && r.freshWithin.Some? && (r.verdict == Within || r.verdict == Outside)
    && (r.witnessAge.None? || float(r.witnessAge.value) > float(r.freshWithin.value))
  }

  /** Where each receipt is filed. */
  lemma BinMeans(r: Receipt, float: real -> real)
    ensures var bin := BinOf(r, float);
      && (bin == Unchecked <==> r.freshWithin.None?)
      && (bin == MissingWitness <==> Unproved(r, float) && r.witnessAge.None?)
      && (bin == StalePass <==> Unproved(r, float) && r.witnessAge.Some?)
      && (bin == VoidOnStale <==>
            && r.freshWithin.Some? && r.verdict == Void
            && (r.witnessAge.None? || float(r.witnessAge.value) > float(r.freshWithin.value)))
  {
  }

  datatype Word = PASS | FAIL | NOT_APPLICABLE

  datatype Attestation = Attestation(
    word: Word, checked: nat, unchecked: nat, voidOnStale: nat, stalePass: seq<Receipt>, missing: seq<Receipt>)

  function Filed(rs: seq<Receipt>, bin: Bin, float: real -> real): seq<Receipt> {
    if |rs| == 0 then []
    else
      var rest := Filed(rs[..|rs| - 1], bin, float);
      if BinOf(rs[|rs| - 1], float) == bin then rest + [rs[|rs| - 1]] else rest
  }

  lemma {:induction false} FiledMeans(rs: seq<Receipt>, bin: Bin, float: real -> real)
    ensures forall r :: r in Filed(rs, bin, float) <==> r in rs && BinOf(r, float) == bin
    ensures |Filed(rs, bin, float)| <= |rs|
  {
    hide BinOf;
    if |rs| > 0 {
      var n := |rs| - 1;
      FiledMeans(rs[..n], bin, float);
      assert forall r :: r in rs <==> r in rs[..n] || r == rs[n];
    }
  }

  /** Attestation A3 over the banked receipts: FAIL exactly when one of them was passed
      or failed on a stale or missing witness, and NOT-APPLICABLE exactly when none was checked. */
  method AttestA3(receipts: seq<Receipt>, float: real -> real) returns (a: Attestation)
    ensures a.stalePass == Filed(receipts, StalePass, float) && a.missing == Filed(receipts, MissingWitness, float)
    ensures a.unchecked == |Filed(receipts, Unchecked, float)| && a.voidOnStale == |Filed(receipts, VoidOnStale, float)|
    ensures a.checked + a.unchecked == |receipts|
    ensures forall r :: r in a.stalePass <==> r in receipts && Unproved(r, float) && r.witnessAge.Some?
    ensures forall r :: r in a.missing <==> r in receipts && Unproved(r, float) && r.witnessAge.None?
    ensures a.word.FAIL? <==> exists r :: r in receipts && Unproved(r, float)
    ensures a.word.NOT_APPLICABLE? <==> forall r :: r in receipts ==> r.freshWithin.None?
  {
    var stalePass: seq<Receipt>, missing: seq<Receipt> := [], [];
    var voidOnStale, unchecked := 0, 0;
    assert receipts[..0] == [];
    for i := 0 to |receipts|
      invariant stalePass == Filed(receipts[..i], StalePass, float)
      invariant missing == Filed(receipts[..i], MissingWitness, float)
      invariant unchecked == |Filed(receipts[..i], Unchecked, float)|
      invariant voidOnStale == |Filed(receipts[..i], VoidOnStale, float)|
      invariant unchecked <= i && (unchecked == i <==> forall r :: r in receipts[..i] ==> r.freshWithin.None?)
    {
      var r := receipts[i];
      assert receipts[..i + 1][..i] == receipts[..i];
      assert forall x :: x in receipts[..i + 1] <==> x in receipts[..i] || x == r;
      if r.freshWithin.None? {
        unchecked := unchecked + 1;
      } else if Decided(r.verdict) {
        if r.witnessAge.None? {
          missing := missing + [r];
        } else if float(r.witnessAge.value) > float(r.freshWithin.value) {
          stalePass := stalePass + [r];
        }
      } else if r.verdict.Void? && (r.witnessAge.None? || float(r.witnessAge.value) > float(r.freshWithin.value)) {
        voidOnStale := voidOnStale + 1;
      }
    }
    assert receipts[..|receipts|] == receipts;
    FiledMeans(receipts, StalePass, float);
    FiledMeans(receipts, MissingWitness, float);
    var checked := |receipts| - unchecked;
    var word := if stalePass != [] || missing != [] then FAIL else if checked == 0 then NOT_APPLICABLE else PASS;
    forall r { BinMeans(r, float); }
    hide Unproved;
    FailsIff(receipts, stalePass, missing, float);
    assert word.NOT_APPLICABLE? ==> checked == 0;
    assert checked == 0 ==> forall r :: r in receipts ==> BinOf(r, float) == Unchecked;
    a := Attestation(word, checked, unchecked, voidOnStale, stalePass, missing);
  }

  lemma FailsIff(receipts: seq<Receipt>, stalePass: seq<Receipt>, missing: seq<Receipt>, float: real -> real)
    requires stalePass == Filed(receipts, StalePass, float) && missing == Filed(receipts, MissingWitness, float)
    ensures stalePass != [] || missing != [] <==>
      exists r :: r in receipts && BinOf(r, float) in {StalePass, MissingWitness}
  {
    hide BinOf;
    FiledMeans(receipts, StalePass, float);
    FiledMeans(receipts, MissingWitness, float);
    if stalePass != [] { assert stalePass[0] in stalePass; }
    if missing != [] { assert missing[0] in missing; }
  }

  // ---------------------------------------------------------------- what the runner can write

  /** The receipt's verdict is the final state, whatever was read. */
  lemma {:induction false} VerdictIsState(x: Read, round: real -> real)
    requires Evaluate(x, round).Evaluation?
    ensures Evaluate(x, round).receipt.verdict == Evaluate(x, round).state
  {
    hide FieldWithinCheck, CorrectedRatio;
  }

  /** The band's own answer, before freshness: on the ratio, or on the corrected ratio. */
  function BandState(x: Read, round: real -> real): Option<State> {
    var answer := FieldWithinCheck(x.operands, round);
    if answer.Refused? then None
    else
      match ApplyBias(Fresh(x.operands, answer), x.bias, round)
      case None => None
      case Some(biased) => Some(Rejudge(answer.state, biased, round).0)
  }

  /** Freshness only ever voids: a state that is not WITHIN never becomes WITHIN. */
  lemma {:induction false} FreshnessOnlyVoids(x: Read, round: real -> real)
    requires Evaluate(x, round).Evaluation?
    ensures BandState(x, round).Some?
    ensures var before, after := BandState(x, round).value, Evaluate(x, round).state;
      after == before || (Decided(before) && after == Void)
  {
    hide FieldWithinCheck, CorrectedRatio;
  }

  /** A witness is fresh when no window is set, or its age is known and inside it. */
  predicate ProvedFresh(x: Read) {
    x.freshWithin.Unset? || (x.freshWithin.Number? && x.freshWithin.x >= 0.0 && x.age.Some? && x.age.value <= x.freshWithin.x)
  }

  /** The deviation the band judges: the corrected one when a bias is set. */
  function JudgedDeviation(x: Read, round: real -> real): real
    requires FieldWithinCheck(x.operands, round).Answer? && FieldWithinCheck(x.operands, round).deviation.Some?
  {
    var answer := FieldWithinCheck(x.operands, round);
    if x.bias.Number? && answer.valueEffective.Some? && answer.referenceEffective.Some? then
      var c := CorrectedRatio(answer.valueEffective.value, answer.referenceEffective.value, x.bias.x, round);
      round(Abs(round(c - 1.0)) * 100.0)
    else answer.deviation.value
  }

  predicate UsableBias(k: Key) { k.Unset? || (k.Number? && k.x > -100.0) }

  /** WITHIN exactly when every operand is usable, the judged deviation is in the band and the witness is fresh. */
  lemma {:induction false} WithinExactly(x: Read, round: real -> real)
    ensures (Evaluate(x, round).Evaluation? && Evaluate(x, round).state.Within?) <==>
      && FieldWithinCheck(x.operands, round).Answer?
      && Decided(FieldWithinCheck(x.operands, round).state)
      && FieldWithinCheck(x.operands, round).deviation.Some?
      && UsableBias(x.bias)
      && JudgedDeviation(x, round) <= x.operands.tolerance.value
      && ProvedFresh(x)
  {
    hide CorrectedRatio;
  }

  /** A WITHIN receipt without a bias is true: its real deviation is in the band to 5e-26
      percentage points, and its witness was fresh. */
  lemma {:induction false} WithinIsTrue(x: Read)
    requires Evaluate(x, Round).Evaluation? && Evaluate(x, Round).state.Within? && x.bias.Unset?
    requires Decidable(x.operands) && Fits(TrueReference(x.operands)) && Fits(TrueValue(x.operands))
    requires TrueReference(x.operands) > 0.0 && 0.1 <= TrueValue(x.operands) / TrueReference(x.operands) < 10.0
    ensures 100.0 * Abs(TrueValue(x.operands) / TrueReference(x.operands) - 1.0) <= x.operands.tolerance.value + SLACK
    ensures ProvedFresh(x)
  {
    hide Round, CorrectedRatio, FieldWithinCheck;
    FreshnessOnlyVoids(x, Round);
    WithinExactly(x, Round);
    WithinIsNearBand(x.operands);
  }

  /** No receipt of an evaluation is ever filed as a stale pass or a missing witness. */
  lemma {:induction false} NeverStalePass(x: Read, round: real -> real, float: real -> real)
    requires Monotone(float) && Evaluate(x, round).Evaluation?
    ensures BinOf(Evaluate(x, round).receipt, float) !in {StalePass, MissingWitness}
  {
    hide FieldWithinCheck, CorrectedRatio;
    if x.age.Some? && x.freshWithin.Number? && x.age.value <= x.freshWithin.x {
      assert float(x.age.value) <= float(x.freshWithin.x);
    }
  }

  /** Neither is a receipt stamped at the deadline. */
  lemma {:induction false} DeadlineNeverStale(last: Option<Receipt>, o: Operands, round: real -> real, float: real -> real)
    requires AtDeadline(last, o, round).Some?
    ensures AtDeadline(last, o, round).value.verdict == Void
    ensures BinOf(AtDeadline(last, o, round).value, float) !in {StalePass, MissingWitness}
  {
    hide FieldWithinCheck;
  }

  /** A receipt the runner banked: an evaluation's, or one stamped at the deadline. */
  ghost predicate Written(r: Receipt, round: real -> real) {
    (exists x: Read :: Evaluate(x, round).Evaluation? && Evaluate(x, round).receipt == r)
    || (exists last: Option<Receipt>, o: Operands :: AtDeadline(last, o, round) == Some(r))
  }

  /** However many receipts the runner banks, A3 does not fail on them. */
  lemma A3HoldsForTheRunner(receipts: seq<Receipt>, round: real -> real, float: real -> real)
    requires Monotone(float) && forall r :: r in receipts ==> Written(r, round)
    ensures Filed(receipts, StalePass, float) == [] && Filed(receipts, MissingWitness, float) == []
  {
    hide BinOf, Evaluate, AtDeadline, Monotone;
    forall r | r in receipts
      ensures BinOf(r, float) !in {StalePass, MissingWitness}
    {
      if x: Read :| Evaluate(x, round).Evaluation? && Evaluate(x, round).receipt == r {
        NeverStalePass(x, round, float);
      } else {
        var last: Option<Receipt>, o: Operands :| AtDeadline(last, o, round) == Some(r);
        DeadlineNeverStale(last, o, round, float);
      }
    }
    FiledMeans(receipts, StalePass, float);
    FiledMeans(receipts, MissingWitness, float);
    FailsIff(receipts, Filed(receipts, StalePass, float), Filed(receipts, MissingWitness, float), float);
  }
}
