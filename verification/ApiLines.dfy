/** One evaluation of an api positive, as a function of what the outside world answers. */
module ApiLines {
  import opened EvidenceState
  import opened NewRuns
  import opened Options
  import opened Scenarios
  import opened Templates

  datatype ApiState = Fine | NotYet | Wrong | OnRecord | Declined(why: Refusal)

  /** The state, the runs bound on the way, and the next interaction. */
  datatype Step = Step(state: ApiState, found: seq<Bound>, tick: nat)

  type Known = Option<set<Option<string>>>

  /** One `new_run_after`: its anchor is resolved with the line and once more. */
  function RunStep(w: World, v: View, known: Known, a: Assert, rows: seq<RunRow>, tick: nat): Step
    requires a.NewRunAfter?
  {
    var argument := Token(w, v.lets, a.anchor);
    if argument.None? then Step(Declined(Unbound), [], tick)
    else
      var anchor := Token(w, v.lets, argument.value);
      if anchor.None? then Step(Declined(Unbound), [], tick)
      else if anchor.value !in v.utc then Step(Declined(VacuousAnchor), [], tick)
      else
        var b := RunVerdict(w, rows, known, anchor.value, v.utc[anchor.value], tick);
        var next := tick + RunReads(w, rows, known, anchor.value, v.utc[anchor.value], tick);
        if b.Some? then Step(Fine, [b.value], next) else Step(NotYet, [], next)
  }

  function JudgeStep(w: World, records: bool, tick: nat): Step {
    var state := match w.judge(tick)
      case Ok => Fine
      case Pending => NotYet
      case Fail => Wrong
      case Recorded => if records then OnRecord else Wrong;
    Step(state, [], tick + 1)
  }

  function AssertStep(w: World, v: View, known: Known, records: bool, a: Assert, rows: seq<RunRow>, tick: nat): Step {
    if a.NewRunAfter? then RunStep(w, v, known, a, rows, tick) else JudgeStep(w, records, tick)
  }

  /** Runs bound earlier count only if the rest is fine. */
  function After(found: seq<Bound>, s: Step): Step {
    if s.state.Fine? then s.(found := found + s.found) else s
  }

  /** The first assert that is not fine decides. */
  function AssertsStep(
    w: World, v: View, known: Known, records: bool, asserts: seq<Assert>, rows: seq<RunRow>, tick: nat): Step
    decreases asserts
  {
    if |asserts| == 0 then Step(Fine, [], tick)
    else
      var s := AssertStep(w, v, known, records, asserts[0], rows, tick);
      if s.state.Fine? then After(s.found, AssertsStep(w, v, known, records, asserts[1..], rows, s.tick))
      else s
  }

  function ApiStep(w: World, v: View, known: Known, p: Positive, tick: nat): Step
    requires p.Api?
  {
    if exists name :: name in p.letNames && name !in v.lets then Step(Declined(Unbound), [], tick)
    else if w.body(tick).None? then Step(NotYet, [], tick + 1)
    else AssertsStep(w, v, known, p.records, p.asserts, w.body(tick).value, tick + 1)
  }

  lemma AfterTwice(a: seq<Bound>, b: seq<Bound>, s: Step)
    ensures After(a, After(b, s)) == After(a + b, s)
  {
    if s.state.Fine? {
      assert a + (b + s.found) == (a + b) + s.found;
    }
  }

  // ---------------------------------------------------------------- a step in words

  /** What an assert other than `new_run_after` makes of the judgement it is given: an OUTSIDE fails
      the line unless the line puts it on record. */
  lemma {:induction false} JudgeMeans(w: World, records: bool, tick: nat)
    ensures var s := JudgeStep(w, records, tick);
      && s.found == [] && s.tick == tick + 1
      && (s.state == Fine <==> w.judge(tick) == Ok)
      && (s.state == NotYet <==> w.judge(tick) == Pending)
      && (s.state == OnRecord <==> w.judge(tick) == Recorded && records)
      && (s.state == Wrong <==> w.judge(tick) == Fail || (w.judge(tick) == Recorded && !records))
  {
  }

  /** The anchor of a `new_run_after`: its text resolved, and what that gives resolved once more. */
  function AnchorOf(w: World, v: View, a: Assert): Option<string>
    requires a.NewRunAfter?
  {
    if Token(w, v.lets, a.anchor).Some? then Token(w, v.lets, Token(w, v.lets, a.anchor).value) else None
  }

  /** A `new_run_after` is refused when its anchor does not resolve or was never observed, and is else
      fine exactly when a run that appeared since the snapshot binds to the anchor's observation. */
  lemma {:induction false} RunStepMeans(w: World, v: View, known: Known, a: Assert, rows: seq<RunRow>, tick: nat)
    requires a.NewRunAfter?
    ensures var s, anchor := RunStep(w, v, known, a, rows, tick), AnchorOf(w, v, a);
      && (s.state == Declined(Unbound) <==> anchor.None?)
      && (s.state == Declined(VacuousAnchor) <==> anchor.Some? && anchor.value !in v.utc)
      && (s.state.Declined? ==> s.tick == tick && s.found == [])
      && (anchor.Some? && anchor.value in v.utc ==>
            var b := RunVerdict(w, rows, known, anchor.value, v.utc[anchor.value], tick);
            && (s.state == Fine <==> b.Some?) && (s.state == NotYet <==> b.None?)
            && s.found == (if b.Some? then [b.value] else [])
            && s.tick == tick + RunReads(w, rows, known, anchor.value, v.utc[anchor.value], tick))
  {
    hide Token, RunVerdict, RunReads;
  }

  function FoundOf(steps: seq<Step>): seq<Bound> { if |steps| == 0 then [] else steps[0].found + FoundOf(steps[1..]) }

  /** The asserts are taken in order, each from where the one before it left off, as long as they are fine. */
  ghost predicate OneByOne(
    w: World, v: View, known: Known, records: bool, asserts: seq<Assert>, rows: seq<RunRow>, tick: nat, steps: seq<Step>)
    decreases steps
  {
    steps != [] ==>
      && asserts != [] && steps[0] == AssertStep(w, v, known, records, asserts[0], rows, tick)
      && (|steps| > 1 ==> steps[0].state.Fine? && OneByOne(w, v, known, records, asserts[1..], rows, steps[0].tick, steps[1..]))
  }

  /** The first assert that is not fine decides; when all are, the runs they bound are kept in order. */
  lemma {:induction false} AssertsDecide(
    w: World, v: View, known: Known, records: bool, asserts: seq<Assert>, rows: seq<RunRow>, tick: nat) returns (steps: seq<Step>)
    ensures OneByOne(w, v, known, records, asserts, rows, tick, steps)
    ensures var s := AssertsStep(w, v, known, records, asserts, rows, tick);
      if steps == [] || steps[|steps| - 1].state.Fine? then
        |steps| == |asserts| && s.state == Fine && s.found == FoundOf(steps)
        && s.tick == if steps == [] then tick else steps[|steps| - 1].tick
      else s == steps[|steps| - 1]
    decreases asserts
  {
    hide AssertStep;
    if |asserts| == 0 {
      steps := [];
    } else {
      var s := AssertStep(w, v, known, records, asserts[0], rows, tick);
      if s.state.Fine? {
        var rest := AssertsDecide(w, v, known, records, asserts[1..], rows, s.tick);
        steps := [s] + rest;
        assert steps[1..] == rest;
      } else {
        steps := [s];
      }
    }
  }

  /** A line waits for its names, then for its read, and then for its asserts. */
  lemma {:induction false} ApiStepMeans(w: World, v: View, known: Known, p: Positive, tick: nat)
    requires p.Api?
    ensures var s := ApiStep(w, v, known, p, tick);
      if exists name :: name in p.letNames && name !in v.lets then s == Step(Declined(Unbound), [], tick)
      else if w.body(tick).None? then s == Step(NotYet, [], tick + 1)
      else s == AssertsStep(w, v, known, p.records, p.asserts, w.body(tick).value, tick + 1)
  {
  }

  // ---------------------------------------------------------------- what a step proves

  /** One assert: fine binds a proved run, and a vacuous refusal has its anchor. */
  lemma {:induction false} AssertStepSound(
    w: World, v: View, known: Known, p: Positive, a: Assert, rows: seq<RunRow>, tick: nat)
    requires p.Api? && a in p.asserts
    ensures var s := AssertStep(w, v, known, p.records, a, rows, tick);
      && s.tick >= tick
      && (forall b :: b in s.found ==> BoundHolds(v, known, b) && Listed(w, rows, b, tick))
      && (s.state.Fine? ==> Answers(w, v.lets, s.found, a))
      && (s.state.OnRecord? ==> p.records)
      && (s.state == Declined(VacuousAnchor) ==> VacuousLine(w, v, p))
  {
    hide Token, RunVerdict, RunReads, Proved, Listed;
    if a.NewRunAfter? && Token(w, v.lets, a.anchor).Some? {
      var argument := Token(w, v.lets, a.anchor).value;
      if Token(w, v.lets, argument).Some? && Token(w, v.lets, argument).value in v.utc {
        var anchor := Token(w, v.lets, argument).value;
        if RunVerdict(w, rows, known, anchor, v.utc[anchor], tick).Some? {
          BoundIsProved(w, rows, known, anchor, v.utc[anchor], tick);
        }
      } else if Token(w, v.lets, argument).Some? {
        assert RefusedAnchor(w, v, a);
      }
    }
  }

  lemma {:induction false} AssertsStepSound(
    w: World, v: View, known: Known, p: Positive, asserts: seq<Assert>, rows: seq<RunRow>, tick: nat)
    requires p.Api? && forall a :: a in asserts ==> a in p.asserts
    ensures var s := AssertsStep(w, v, known, p.records, asserts, rows, tick);
      && s.tick >= tick
      && (s.state.Fine? ==> forall b :: b in s.found ==> BoundHolds(v, known, b) && Listed(w, rows, b, tick))
      && (s.state.Fine? ==> AllAnswered(w, v.lets, s.found, asserts))
      && (s.state.OnRecord? ==> p.records)
      && (s.state == Declined(VacuousAnchor) ==> VacuousLine(w, v, p))
    decreases asserts
  {
    hide AssertStep, VacuousLine, BoundHolds, Answers, BoundBy;
    if |asserts| > 0 {
      var s := AssertStep(w, v, known, p.records, asserts[0], rows, tick);
      AssertStepSound(w, v, known, p, asserts[0], rows, tick);
      if s.state.Fine? {
        AssertsStepSound(w, v, known, p, asserts[1..], rows, s.tick);
        var rest := AssertsStep(w, v, known, p.records, asserts[1..], rows, s.tick);
        if rest.state.Fine? {
          AnswersFirst(w, v.lets, s.found, rest.found, asserts);
        }
      }
    }
  }

  lemma AnswersFirst(w: World, lets: Lets, found: seq<Bound>, rest: seq<Bound>, asserts: seq<Assert>)
    requires |asserts| > 0 && Answers(w, lets, found, asserts[0]) && AllAnswered(w, lets, rest, asserts[1..])
    ensures AllAnswered(w, lets, found + rest, asserts)
  {
    hide Token;
    assert forall b :: b in found || b in rest ==> b in found + rest;
    forall a | a in asserts
      ensures Answers(w, lets, found + rest, a)
    {
      assert a == asserts[0] || a in asserts[1..];
    }
  }

  /** An api line that is fine has a proved run for every new_run_after; it is put on record only
      if it says so; and it is refused as vacuous only over an anchor that resolves anew. */
  lemma {:induction false} ApiStepSound(w: World, v: View, known: Known, p: Positive, tick: nat)
    requires p.Api?
    ensures var s := ApiStep(w, v, known, p, tick);
      && s.tick >= tick && (!s.state.Declined? ==> s.tick > tick)
      && (s.state.Fine? ==> Evidenced(w, v.lets, s.found, p) && forall b :: b in s.found ==>
          BoundHolds(v, known, b) && w.body(tick).Some? && Listed(w, w.body(tick).value, b, tick + 1))
      && (s.state.OnRecord? ==> p.records)
      && (s.state == Declined(VacuousAnchor) ==> VacuousLine(w, v, p))
  {
    hide AssertsStep, VacuousLine, BoundHolds, AllAnswered, Listed;
    if w.body(tick).Some? {
      AssertsStepSound(w, v, known, p, p.asserts, w.body(tick).value, tick + 1);
    }
  }

  // ---------------------------------------------------------------- an evaluation stays true

  /** Lets and observations are kept, and the snapshot is unless no assert depends on it. */
  ghost predicate SameReads(v: View, more: View, known: Known, later: Known, p: Positive)
    requires p.Api?
  {
    && Extends(more.lets, v.lets) && (forall t :: t in v.utc ==> t in more.utc && more.utc[t] == v.utc[t])
    && (known == later || forall a :: a in p.asserts ==> !a.NewRunAfter?)
  }

  lemma AssertStepKept(
    w: World, v: View, more: View, known: Known, later: Known, p: Positive, a: Assert, rows: seq<RunRow>, tick: nat)
    requires p.Api? && a in p.asserts && SameReads(v, more, known, later, p)
    requires !AssertStep(w, v, known, p.records, a, rows, tick).state.Declined?
    ensures AssertStep(w, more, later, p.records, a, rows, tick) == AssertStep(w, v, known, p.records, a, rows, tick)
  {
    hide Token, RunVerdict, RunReads, Extends;
    if a.NewRunAfter? {
      TokenExtends(w, v.lets, more.lets, a.anchor);
      TokenExtends(w, v.lets, more.lets, Token(w, v.lets, a.anchor).value);
    }
  }

  lemma {:induction false} AssertsStepKept(
    w: World, v: View, more: View, known: Known, later: Known, p: Positive,
    asserts: seq<Assert>, rows: seq<RunRow>, tick: nat)
    requires p.Api? && SameReads(v, more, known, later, p) && forall a :: a in asserts ==> a in p.asserts
    requires !AssertsStep(w, v, known, p.records, asserts, rows, tick).state.Declined?
    ensures AssertsStep(w, more, later, p.records, asserts, rows, tick)
      == AssertsStep(w, v, known, p.records, asserts, rows, tick)
    decreases asserts
  {
    hide AssertStep, SameReads;
    if |asserts| > 0 {
      var s := AssertStep(w, v, known, p.records, asserts[0], rows, tick);
      AssertStepKept(w, v, more, known, later, p, asserts[0], rows, tick);
      if s.state.Fine? {
        AssertsStepKept(w, v, more, known, later, p, asserts[1..], rows, s.tick);
      }
    }
  }

  /** An evaluation that was not refused is judged the same after more was typed and observed. */
  lemma ApiStepKept(w: World, v: View, more: View, known: Known, later: Known, p: Positive, tick: nat)
    requires p.Api? && SameReads(v, more, known, later, p) && !ApiStep(w, v, known, p, tick).state.Declined?
    ensures ApiStep(w, more, later, p, tick) == ApiStep(w, v, known, p, tick)
  {
    hide AssertsStep;
    if w.body(tick).Some? {
      AssertsStepKept(w, v, more, known, later, p, p.asserts, w.body(tick).value, tick + 1);
    }
  }

  // ---------------------------------------------------------------- when the refusal is reached

  /** The asserts before the k-th all hold, and the k-th has its anchor refused. */
  ghost predicate RefusedAt(
    w: World, v: View, known: Known, records: bool, asserts: seq<Assert>, rows: seq<RunRow>, tick: nat, k: nat)
  {
    && k < |asserts| && RefusedAnchor(w, v, asserts[k])
    && AssertsStep(w, v, known, records, asserts[..k], rows, tick).state.Fine?
  }

  ghost predicate SomeRefused(w: World, v: View, known: Known, p: Positive, rows: seq<RunRow>, tick: nat)
    requires p.Api?
  {
    exists k: nat :: RefusedAt(w, v, known, p.records, p.asserts, rows, tick, k)
  }

  lemma RunStepRefusal(w: World, v: View, known: Known, records: bool, a: Assert, rows: seq<RunRow>, tick: nat)
    ensures AssertStep(w, v, known, records, a, rows, tick).state == Declined(VacuousAnchor) <==> RefusedAnchor(w, v, a)
  {
    hide Token, RunVerdict, RunReads;
  }

  lemma {:induction false} AssertsRefusal(
    w: World, v: View, known: Known, records: bool, asserts: seq<Assert>, rows: seq<RunRow>, tick: nat)
    ensures AssertsStep(w, v, known, records, asserts, rows, tick).state == Declined(VacuousAnchor) <==>
      exists k: nat :: RefusedAt(w, v, known, records, asserts, rows, tick, k)
    decreases asserts
  {
    hide AssertStep, RefusedAnchor;
    if |asserts| > 0 {
      var s := AssertStep(w, v, known, records, asserts[0], rows, tick);
      RunStepRefusal(w, v, known, records, asserts[0], rows, tick);
      assert asserts[..0] == [];
      assert RefusedAt(w, v, known, records, asserts, rows, tick, 0) <==> s.state == Declined(VacuousAnchor);
      forall k: nat | 0 < k < |asserts|
        ensures RefusedAt(w, v, known, records, asserts, rows, tick, k) <==>
          s.state.Fine? && RefusedAt(w, v, known, records, asserts[1..], rows, s.tick, k - 1)
      {
        assert asserts[..k][1..] == asserts[1..][..k - 1];
      }
      if s.state.Fine? {
        AssertsRefusal(w, v, known, records, asserts[1..], rows, s.tick);
        if k: nat :| RefusedAt(w, v, known, records, asserts[1..], rows, s.tick, k) {
          assert RefusedAt(w, v, known, records, asserts, rows, tick, k + 1);
        }
      }
    }
  }

  /** The exact condition. On a linted line, with the lines before it satisfied, an evaluation is
      refused as vacuous if and only if its names are bound, its read came, and some assert, those
      before it holding, has a resolved anchor that resolves again to a token never observed. Such
      an anchor's resolved text was observed and holds a reference: one that holds none is never refused. */
  lemma {:induction false} VacuousExactlyWhen(w: World, v: View, known: Known, ps: seq<Positive>, i: nat, tick: nat)
    requires i < |ps| && LintedLine(ps, i) && ps[i].Api?
    requires forall j :: 0 <= j < i ==> Shown(w, v, ps[j])
    ensures ApiStep(w, v, known, ps[i], tick).state == Declined(VacuousAnchor) <==>
      && (forall name :: name in ps[i].letNames ==> name in v.lets) && w.body(tick).Some?
      && SomeRefused(w, v, known, ps[i], w.body(tick).value, tick + 1)
    ensures forall a :: a in ps[i].asserts && RefusedAnchor(w, v, a) ==>
      Token(w, v.lets, a.anchor).value in v.utc && !NoReference(Token(w, v.lets, a.anchor).value)
  {
    hide Token, AssertsStep, NoReference, LintedLine, Shown, RefusedAt;
    LintObservesAnchors(w, v, ps, i);
    if w.body(tick).Some? {
      AssertsRefusal(w, v, known, ps[i].records, ps[i].asserts, w.body(tick).value, tick + 1);
    }
    forall a | a in ps[i].asserts && RefusedAnchor(w, v, a)
      ensures Token(w, v.lets, a.anchor).value in v.utc && !NoReference(Token(w, v.lets, a.anchor).value)
    {
      RefusedAnchorHoldsReference(w, v, ps[i], a);
    }
  }

  /** The view after the log line for such a let was satisfied by its only line. */
  function VacuousView(w: World, lets: Lets, text: string, line: Positive, at: nat): View {
    View([text], lets, map[text := 0], map[text := w.utc(at)], map[text := at], [Mark(0, line, 1, at)])
  }

  /** The refusal is reached: a let `n` holds the text of a reference to a constant `m`. The log
      line for the let is satisfied by that text; the assert resolves it once more and is refused. */
  lemma {:induction false} VacuousRefusalHappens(
    w: World, n: string, m: string, x: string, lets: Lets, known: Known, tick: nat, at: nat)
    requires ProperName(n) && ProperName(m) && w.body(tick).Some?
    requires Lookup(lets, n) == Some(Text(Written(Ref(C, m)))) && Lookup(w.constants, m) == Some(Text(x))
    requires x != Written(Ref(C, m))
    ensures var anchor, text := Written(Ref(Let, n)), Written(Ref(C, m));
      var ps := [Log([anchor], false, [], 1, None, 5, []), Api([NewRunAfter(anchor)], false, 5, [])];
      var v := VacuousView(w, lets, text, ps[0], at);
      && LintedLine(ps, 0) && LintedLine(ps, 1) && Shown(w, v, ps[0]) && MarkHolds(w, v, v.marks[0])
      && ApiStep(w, v, known, ps[1], tick).state == Declined(VacuousAnchor)
  {
    hide Resolve, Lookup, ProperName, Written, MatchIndices, RunVerdict, RunReads;
    var anchor, text := Written(Ref(Let, n)), Written(Ref(C, m));
    var scope := Scope(w.constants, lets, w.render);
    ResolveWritten(Ref(Let, n), scope, text);
    ResolveWritten(Ref(C, m), scope, x);
    var ps := [Log([anchor], false, [], 1, None, 5, []), Api([NewRunAfter(anchor)], false, 5, [])];
    var v := VacuousView(w, lets, text, ps[0], at);
    assert PlainLog(ps[0], anchor);
    OneToken(w, lets, anchor, text);
    OneMatch(text);
    assert v.lines[..1] == [text];
    var a := NewRunAfter(anchor);
    assert RunStep(w, v, known, a, w.body(tick).value, tick + 1).state == Declined(VacuousAnchor);
    assert ps[1].asserts[0] == a;
  }

  lemma OneToken(w: World, lets: Lets, raw: string, token: string)
    requires Token(w, lets, raw) == Some(token)
    ensures Tokens(w, lets, [raw]) == Some([token]) && Tokens(w, lets, []) == Some([])
  {
    hide Token;
    var one, none := Tokens(w, lets, [raw]), Tokens(w, lets, []);
    assert forall r :: r in [raw] ==> r == raw;
    assert one.Some? && [raw][0] == raw && one.value == [token];
    assert none.Some? && none.value == [];
  }

  lemma OneMatch(text: string)
    ensures MatchIndices([text], [text], []) == [0]
  {
    assert text <= text[0..];
    assert Contains(text, text);
    assert text in [text];
    assert LineMatches([text][0], [text], []);
    assert [text][..0] == [];
  }

  /** Such names exist: a let bound to the text of a reference, and the constant it names. */
  lemma VacuousRefusalExample(w: World, known: Known, tick: nat, at: nat)
    requires w.constants == map["b" := Text("x")] && w.body(tick).Some?
    ensures var line := Log(["${let.v}"], false, [], 1, None, 5, []);
      var v := VacuousView(w, map["v" := Text("${C.b}")], "${C.b}", line, at);
      && Shown(w, v, line)
      && ApiStep(w, v, known, Api([NewRunAfter("${let.v}")], false, 5, []), tick).state == Declined(VacuousAnchor)
  {
    hide Shown, ApiStep, Lookup;
    assert Written(Ref(C, "b")) == "${C.b}" && Written(Ref(Let, "v")) == "${let.v}";
    var lets: Lets := map["v" := Text("${C.b}")];
    LookupSingle("v", Text("${C.b}"));
    LookupSingle("b", Text("x"));
    VacuousRefusalHappens(w, "v", "b", "x", lets, known, tick, at);
  }

  lemma LookupSingle(name: string, value: Value)
    requires |name| == 1 && IsName(name[0]) && name[0] != '.'
    ensures Lookup(map[name := value], name) == Some(value) && ProperName(name)
  {
    assert Segments(name[1..]) == [""];
    assert [name[0]] + "" == name;
    assert Segments(name) == [name];
  }
}
