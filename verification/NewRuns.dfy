/** `new_run_after`: a run that appeared after the anchor was observed, with an executed chain. */
module NewRuns {
  import opened EvidenceState
  import Logs
  import opened Options
  import opened Scenarios
  import opened Templates

  /** The banked evidence of one satisfied assert. */
  datatype Bound = Bound(
    anchor: string, runId: Option<string>, matched: int, observed: int, outcomes: seq<string>, agree: bool)

  const SECOND := 1000000

  /** The outcomes the executed actions name. */
  function Outcomes(actions: seq<Option<string>>): seq<string> {
    if |actions| == 0 then []
    else if actions[0].Some? && actions[0].value != "" then [actions[0].value] + Outcomes(actions[1..])
    else Outcomes(actions[1..])
  }

  function Instant(w: World, raw: Option<string>): Option<int> {
    if raw.None? then None else w.instant(raw.value)
  }

  /** What one run's chain, as read, proves. */
  function Bind(w: World, row: RunRow, chain: Option<Chain>, anchor: string, observed: int): Option<Bound> {
    if chain.None? then None
    else
      var matched, outcomes := Instant(w, chain.value.matchedAt), Outcomes(chain.value.outcomes);
      if matched.None? || matched.value < observed || outcomes == [] then None
      else
        var triggered := Instant(w, row.triggeredAt);
        Some(Bound(anchor, row.runId, matched.value, observed, outcomes,
                   triggered.Some? && matched.value / SECOND == triggered.value / SECOND))
  }

  function NewRows(rows: seq<RunRow>, known: set<Option<string>>): (r: seq<RunRow>)
    ensures forall row :: row in r <==> row in rows && row.runId !in known
  {
    if |rows| == 0 then []
    else if rows[0].runId !in known then [rows[0]] + NewRows(rows[1..], known)
    else NewRows(rows[1..], known)
  }

  /** The first new run whose chain, read in turn from interaction `tick` on, proves it. */
  function FirstBound(w: World, rows: seq<RunRow>, anchor: string, observed: int, tick: nat): Option<Bound>
    decreases rows
  {
    if |rows| == 0 then None
    else
      var b := Bind(w, rows[0], w.chain(tick, rows[0].runId), anchor, observed);
      if b.Some? then b else FirstBound(w, rows[1..], anchor, observed, tick + 1)
  }

  /** Everything one evaluation over a read of the runs yields. */
  function RunVerdict(
    w: World, rows: seq<RunRow>, known: Option<set<Option<string>>>, anchor: string, observed: int, tick: nat
  ): Option<Bound> {
    if known.None? then None else FirstBound(w, NewRows(rows, known.value), anchor, observed, tick)
  }

  /** How many chains that evaluation reads. */
  function RunReads(
    w: World, rows: seq<RunRow>, known: Option<set<Option<string>>>, anchor: string, observed: int, tick: nat
  ): nat
    decreases rows
  {
    if |rows| == 0 || known.None? then 0
    else if rows[0].runId in known.value then RunReads(w, rows[1..], known, anchor, observed, tick)
    else if Bind(w, rows[0], w.chain(tick, rows[0].runId), anchor, observed).Some? then 1
    else 1 + RunReads(w, rows[1..], known, anchor, observed, tick + 1)
  }

  lemma RunVerdictStep(
    w: World, rows: seq<RunRow>, known: Option<set<Option<string>>>, anchor: string, observed: int, tick: nat)
    requires |rows| > 0 && known.Some?
    ensures RunVerdict(w, rows, known, anchor, observed, tick) ==
      if rows[0].runId in known.value then RunVerdict(w, rows[1..], known, anchor, observed, tick)
      else
        var b := Bind(w, rows[0], w.chain(tick, rows[0].runId), anchor, observed);
        if b.Some? then b else RunVerdict(w, rows[1..], known, anchor, observed, tick + 1)
  {
    hide Bind;
    var appeared := NewRows(rows, known.value);
    if rows[0].runId !in known.value {
      assert appeared[0] == rows[0] && appeared[1..] == NewRows(rows[1..], known.value);
    }
  }

  lemma NoRows(w: World, known: Option<set<Option<string>>>, anchor: string, observed: int, tick: nat)
    ensures RunVerdict(w, [], known, anchor, observed, tick).None?
  {
  }

  lemma NoSnapshot(w: World, rows: seq<RunRow>, anchor: string, observed: int, tick: nat)
    ensures RunVerdict(w, rows, None, anchor, observed, tick).None?
  {
  }

  // ---------------------------------------------------------------- what is bound, in words

  predicate HasOutcome(a: Option<string>) { a.Some? && a.value != "" }

  /** The outcomes are those of the actions that name one, in order. */
  ghost predicate OutcomesIn(actions: seq<Option<string>>, outcomes: seq<string>) {
    var named := Logs.Select(actions, HasOutcome);
    |outcomes| == |named| && forall i :: 0 <= i < |named| ==> named[i] == Some(outcomes[i])
  }

  lemma {:induction false} OutcomesMean(actions: seq<Option<string>>)
    ensures OutcomesIn(actions, Outcomes(actions))
  {
    if |actions| > 0 {
      OutcomesMean(actions[1..]);
      var named, rest := Logs.Select(actions, HasOutcome), Logs.Select(actions[1..], HasOutcome);
      assert named == (if HasOutcome(actions[0]) then [actions[0]] else []) + rest;
      hide Logs.Select;
      if !HasOutcome(actions[0]) { assert named == rest; }
    }
  }

  lemma {:induction false} OutcomesAreOne(actions: seq<Option<string>>, outcomes: seq<string>)
    requires OutcomesIn(actions, outcomes)
    ensures outcomes == Outcomes(actions)
  {
    OutcomesMean(actions);
    assert forall i :: 0 <= i < |outcomes| ==> Some(outcomes[i]) == Some(Outcomes(actions)[i]);
  }

  /** Two instants, and both within one second of the clock. */
  predicate SameSecond(w: World, raw: Option<string>, matched: int) {
    raw.Some? && w.instant(raw.value).Some? && matched / 1000000 == w.instant(raw.value).value / 1000000
  }

  /** A chain proves a run exactly when it could be read, was matched at a readable instant no earlier
      than the anchor was observed, and names an outcome; that, and whether the listing agrees on the
      second, is what is banked. */
  lemma {:induction false} BindExactly(w: World, row: RunRow, chain: Option<Chain>, anchor: string, observed: int, b: Bound)
    ensures Bind(w, row, chain, anchor, observed) == Some(b) <==>
      && chain.Some? && chain.value.matchedAt.Some? && w.instant(chain.value.matchedAt.value) == Some(b.matched)
      && b.matched >= observed && b.outcomes != [] && OutcomesIn(chain.value.outcomes, b.outcomes)
      && b.anchor == anchor && b.runId == row.runId && b.observed == observed
      && (b.agree <==> SameSecond(w, row.triggeredAt, b.matched))
    ensures Bind(w, row, chain, anchor, observed).None? <==>
      !(&& chain.Some? && chain.value.matchedAt.Some? && w.instant(chain.value.matchedAt.value).Some?
        && w.instant(chain.value.matchedAt.value).value >= observed
        && exists a :: a in chain.value.outcomes && HasOutcome(a))
  {
    if chain.Some? {
      OutcomesMean(chain.value.outcomes);
      if OutcomesIn(chain.value.outcomes, b.outcomes) { OutcomesAreOne(chain.value.outcomes, b.outcomes); }
      Logs.SelectEmpty(chain.value.outcomes, HasOutcome);
      hide Outcomes;
    }
  }

  /** The new runs in listed order, each read in turn, up to the first that binds. */
  lemma {:induction false} RunVerdictMeans(
    w: World, rows: seq<RunRow>, known: set<Option<string>>, anchor: string, observed: int, tick: nat) returns (k: nat)
    ensures var appeared := Logs.Select(rows, (row: RunRow) => row.runId !in known);
      && k <= |appeared|
      && (forall i :: 0 <= i < k ==> Bind(w, appeared[i], w.chain(tick + i, appeared[i].runId), anchor, observed).None?)
      && (k < |appeared| ==> Bind(w, appeared[k], w.chain(tick + k, appeared[k].runId), anchor, observed).Some?)
      && RunVerdict(w, rows, Some(known), anchor, observed, tick)
         == (if k == |appeared| then None else Bind(w, appeared[k], w.chain(tick + k, appeared[k].runId), anchor, observed))
      && RunReads(w, rows, Some(known), anchor, observed, tick) == (if k == |appeared| then k else k + 1)
  {
    NewRowsAre(rows, known);
    ReadsOfNew(w, rows, known, anchor, observed, tick);
    hide Bind, NewRows, Logs.Select;
    k := FirstBoundMeans(w, NewRows(rows, known), anchor, observed, tick);
  }

  lemma {:induction false} NewRowsAre(rows: seq<RunRow>, known: set<Option<string>>)
    ensures NewRows(rows, known) == Logs.Select(rows, (row: RunRow) => row.runId !in known)
  {
    if |rows| > 0 { NewRowsAre(rows[1..], known); }
  }

  /** How many of the new runs' chains are read. */
  function ReadsOf(w: World, appeared: seq<RunRow>, anchor: string, observed: int, tick: nat): nat
    decreases |appeared|
  {
    if |appeared| == 0 then 0
    else if Bind(w, appeared[0], w.chain(tick, appeared[0].runId), anchor, observed).Some? then 1
    else 1 + ReadsOf(w, appeared[1..], anchor, observed, tick + 1)
  }

  lemma {:induction false} ReadsOfNew(w: World, rows: seq<RunRow>, known: set<Option<string>>, anchor: string, observed: int, tick: nat)
    ensures RunReads(w, rows, Some(known), anchor, observed, tick) == ReadsOf(w, NewRows(rows, known), anchor, observed, tick)
    decreases |rows|
  {
    hide Bind;
    if |rows| > 0 {
      if rows[0].runId in known {
        ReadsOfNew(w, rows[1..], known, anchor, observed, tick);
      } else {
        ReadsOfNew(w, rows[1..], known, anchor, observed, tick + 1);
        assert NewRows(rows, known)[1..] == NewRows(rows[1..], known);
      }
    }
  }

  /** The bound run is the earliest that qualifies, and the last whose chain is read; without one, none of them did. */
  lemma {:induction false} FirstBoundMeans(w: World, appeared: seq<RunRow>, anchor: string, observed: int, tick: nat) returns (k: nat)
    ensures k <= |appeared|
    ensures forall i :: 0 <= i < k ==> Bind(w, appeared[i], w.chain(tick + i, appeared[i].runId), anchor, observed).None?
    ensures k < |appeared| ==> Bind(w, appeared[k], w.chain(tick + k, appeared[k].runId), anchor, observed).Some?
    ensures FirstBound(w, appeared, anchor, observed, tick)
      == if k == |appeared| then None else Bind(w, appeared[k], w.chain(tick + k, appeared[k].runId), anchor, observed)
    ensures ReadsOf(w, appeared, anchor, observed, tick) == if k == |appeared| then k else k + 1
    decreases |appeared|
  {
    hide Bind;
    if |appeared| == 0 || Bind(w, appeared[0], w.chain(tick, appeared[0].runId), anchor, observed).Some? {
      k := 0;
    } else {
      var rest := FirstBoundMeans(w, appeared[1..], anchor, observed, tick + 1);
      k := rest + 1;
      forall i | 0 < i < k
        ensures Bind(w, appeared[i], w.chain(tick + i, appeared[i].runId), anchor, observed).None?
      {
        var j := i - 1;
        assert appeared[1..][j] == appeared[i];
      }
    }
  }

  /** A banked run was absent from the snapshot, matched no earlier than the anchor
      was observed, and shows an executed action. */
  predicate Proved(b: Bound, known: Option<set<Option<string>>>) {
    && known.Some? && b.runId !in known.value
    && b.matched >= b.observed && b.outcomes != []
  }

  /** One of the rows is the banked run's, and its chain, read at interaction `t`, is what was banked. */
  ghost predicate BoundBy(w: World, rows: seq<RunRow>, b: Bound, row: RunRow, t: nat) {
    row in rows && row.runId == b.runId && Bind(w, row, w.chain(t, row.runId), b.anchor, b.observed) == Some(b)
  }

  /** The read of the runs listed the banked run, and a chain read from interaction `tick` on bound it. */
  ghost predicate Listed(w: World, rows: seq<RunRow>, b: Bound, tick: nat) {
    exists row, t: nat :: tick <= t && BoundBy(w, rows, b, row, t)
  }

  lemma BoundIsProved(
    w: World, rows: seq<RunRow>, known: Option<set<Option<string>>>, anchor: string, observed: int, tick: nat)
    requires RunVerdict(w, rows, known, anchor, observed, tick).Some?
    ensures var b := RunVerdict(w, rows, known, anchor, observed, tick).value;
      Proved(b, known) && b.anchor == anchor && b.observed == observed && Listed(w, rows, b, tick)
  {
    hide FirstBound, NewRows, Outcomes, Instant;
    var b := RunVerdict(w, rows, known, anchor, observed, tick).value;
    var appeared := NewRows(rows, known.value);
    var k := FirstBoundMeans(w, appeared, anchor, observed, tick);
    assert appeared[k] in appeared;
    assert BoundBy(w, rows, b, appeared[k], tick + k);
  }

  /** The runs a read of the runs surface lists. */
  function RunIds(body: Option<seq<RunRow>>): Option<set<Option<string>>> {
    if body.None? then None else Some(set row | row in body.value :: row.runId)
  }

  // ---------------------------------------------------------------- anchors

  /** Every anchor of an api line, resolved, has been observed. */
  ghost predicate AnchorsObserved(w: World, v: View, p: Positive) {
    p.Api? ==> forall a :: a in p.asserts && a.NewRunAfter? && Token(w, v.lets, a.anchor).Some? ==>
      Token(w, v.lets, a.anchor).value in v.utc
  }

  /** The anchor resolves, resolves once more, and what that gives was never observed. */
  predicate RefusedAnchor(w: World, v: View, a: Assert) {
    && a.NewRunAfter? && Token(w, v.lets, a.anchor).Some?
    && var again := Token(w, v.lets, Token(w, v.lets, a.anchor).value);
      again.Some? && again.value !in v.utc
  }

  ghost predicate VacuousLine(w: World, v: View, p: Positive) {
    p.Api? && exists a :: a in p.asserts && RefusedAnchor(w, v, a)
  }

  /** The lint's ordering check makes the anchor observed by the time its assert is evaluated. */
  lemma {:induction false} LintObservesAnchors(w: World, v: View, ps: seq<Positive>, i: nat)
    requires i < |ps| && LintedLine(ps, i) && forall j :: 0 <= j < i ==> Shown(w, v, ps[j])
    ensures AnchorsObserved(w, v, ps[i])
  {
    hide Token, MatchesOf;
    if ps[i].Api? {
      forall a | a in ps[i].asserts && a.NewRunAfter? && Token(w, v.lets, a.anchor).Some?
        ensures Token(w, v.lets, a.anchor).value in v.utc
      {
        var j :| 0 <= j < i && PlainLog(ps[j], a.anchor);
        assert Shown(w, v, ps[j]);
        var k :| 0 <= k < |ps[j].tokens| && ps[j].tokens[k] == a.anchor;
        assert Tokens(w, v.lets, ps[j].tokens).value[k] in Tokens(w, v.lets, ps[j].tokens).value;
      }
    }
  }

  lemma TokenTwice(w: World, lets: Lets, raw: string)
    requires Token(w, lets, raw).Some? && NoReference(Token(w, lets, raw).value)
    ensures Token(w, lets, Token(w, lets, raw).value) == Token(w, lets, raw)
  {
    hide Resolve;
    ResolveTwice(raw, Scope(w.constants, lets, w.render));
  }

  /** An observed anchor is refused only when its resolved text holds a reference of its own. */
  lemma {:induction false} RefusedAnchorHoldsReference(w: World, v: View, p: Positive, a: Assert)
    requires p.Api? && a in p.asserts && AnchorsObserved(w, v, p) && RefusedAnchor(w, v, a)
    ensures Token(w, v.lets, a.anchor).value in v.utc && !NoReference(Token(w, v.lets, a.anchor).value)
  {
    hide Token, NoReference;
    if NoReference(Token(w, v.lets, a.anchor).value) {
      TokenTwice(w, v.lets, a.anchor);
    }
  }

  // ---------------------------------------------------------------- banked runs

  /** A banked run is proved against the snapshot and against its anchor's observation. */
  predicate BoundHolds(v: View, known: Option<set<Option<string>>>, b: Bound) {
    Proved(b, known) && b.anchor in v.utc && b.observed == v.utc[b.anchor]
  }

  ghost predicate Answers(w: World, lets: Lets, found: seq<Bound>, a: Assert) {
    a.NewRunAfter? ==>
      && Token(w, lets, a.anchor).Some?
      && exists b :: b in found && Token(w, lets, Token(w, lets, a.anchor).value) == Some(b.anchor)
  }

  ghost predicate AllAnswered(w: World, lets: Lets, found: seq<Bound>, asserts: seq<Assert>) {
    forall a :: a in asserts ==> Answers(w, lets, found, a)
  }

  /** Every new_run_after of the line has its banked run. */
  ghost predicate Evidenced(w: World, lets: Lets, found: seq<Bound>, p: Positive) {
    p.Api? ==> AllAnswered(w, lets, found, p.asserts)
  }

  lemma EvidencedKept(w: World, lets: Lets, more: Lets, found: seq<Bound>, all: seq<Bound>, p: Positive)
    requires Evidenced(w, lets, found, p) && Extends(more, lets) && forall b :: b in found ==> b in all
    ensures Evidenced(w, more, all, p)
  {
    hide Token, Extends;
    if p.Api? {
      forall a | a in p.asserts
        ensures Answers(w, more, all, a)
      {
        assert Answers(w, lets, found, a);
        if a.NewRunAfter? {
          TokenExtends(w, lets, more, a.anchor);
          TokenExtends(w, lets, more, Token(w, lets, a.anchor).value);
        }
      }
    }
  }
}
