/** A run against a captured log: what it establishes line by line, and what its PASS means. */
module Fixtures {
  import opened Acts
  import opened ApiLines
  import opened Endings
  import opened EvidenceState
  import opened NewRuns
  import opened Options
  import opened Passing
  import opened Progress
  import opened Scenarios

  /** A read that is wrong, or is not enough on a line that puts nothing on record. */
  predicate Fails(p: Positive, s: Step)
    requires p.Api?
  {
    s.state == Wrong || (s.state == NotYet && !p.records)
  }

  /** Why a line fails: the window does not show it, or an evaluation that was made was wrong or not enough. */
  ghost predicate FixtureFailure(w: World, s: Scenario, v: View, known: Known, asked: seq<Ask>, i: nat) {
    && i < |s.positives|
    && (s.positives[i].Log? ==>
        s.positives[i].count >= 1 && LogVerdictOf(w, v.lets, v.lines, s.positives[i]).Waiting?)
    && (s.positives[i].Api? ==> exists a :: a in asked && FailedBy(w, s, v, known, a, i))
  }

  ghost predicate FailedBy(w: World, s: Scenario, v: View, known: Known, a: Ask, i: nat) {
    a.line == i && OfApi(s, a) && Fails(s.positives[i], Judged(w, s, v, known, a))
  }

  /** How many positives have passed: those before the first that failed. */
  function PassedLines(failed: Option<nat>, behind: nat): nat { if failed.Some? then failed.value else behind }

  /** What a fixture run has established: what every run keeps, every satisfied line judged on the
      whole window, the books backed, and the first failure, if any, explained. */
  ghost predicate DryEstablished(
    w: World, s: Scenario, v: View, known: Known, b: Books, scripted: bool, failed: Option<nat>, tick: nat)
  {
    && Base(w, s, v, b.behind, tick)
    && (forall m :: m in v.marks ==> m.size == |v.lines|)
    && PassedLines(failed, b.behind) <= b.behind
    && BooksHold(w, s, v, known, b, scripted, PassedLines(failed, b.behind), tick)
    && (failed.Some? ==> failed.value < b.behind && FixtureFailure(w, s, v, known, b.asked, failed.value))
  }

  // ---------------------------------------------------------------- scripted reads

  /** An api line against its scripted responses: evaluated anew until one decides or all are used. */
  function ScriptedStep(w: World, v: View, known: Known, p: Positive, responses: nat, tick: nat): Step
    requires p.Api? && responses > 0
    decreases responses
  {
    var s := ApiStep(w, v, known, p, tick);
    if s.state.NotYet? && responses > 1 then ScriptedStep(w, v, known, p, responses - 1, s.tick) else s
  }

  /** The interaction at which its last evaluation began. */
  function LastBegun(w: World, v: View, known: Known, p: Positive, responses: nat, tick: nat): (t: nat)
    requires p.Api? && responses > 0
    ensures ApiStep(w, v, known, p, t) == ScriptedStep(w, v, known, p, responses, tick)
    decreases responses
  {
    var s := ApiStep(w, v, known, p, tick);
    if s.state.NotYet? && responses > 1 then LastBegun(w, v, known, p, responses - 1, s.tick) else tick
  }

  /** Evaluations of the line one after another, each from where the one before it left off. */
  ghost predicate Evaluations(w: World, v: View, known: Known, p: Positive, tick: nat, steps: seq<Step>)
    requires p.Api?
    decreases steps
  {
    steps != [] ==>
      && steps[0] == ApiStep(w, v, known, p, tick)
      && (|steps| > 1 ==> steps[0].state.NotYet? && Evaluations(w, v, known, p, steps[0].tick, steps[1..]))
  }

  /** The scripted answer is that of the first evaluation that decides, or, when none does, of the
      last response. */
  lemma {:induction false} ScriptedMeans(w: World, v: View, known: Known, p: Positive, responses: nat, tick: nat) returns (steps: seq<Step>)
    requires p.Api? && responses > 0
    ensures 0 < |steps| <= responses && Evaluations(w, v, known, p, tick, steps)
    ensures ScriptedStep(w, v, known, p, responses, tick) == steps[|steps| - 1]
    ensures steps[|steps| - 1].state.NotYet? ==> |steps| == responses
    decreases responses
  {
    hide ApiStep;
    var s := ApiStep(w, v, known, p, tick);
    if s.state.NotYet? && responses > 1 {
      var rest := ScriptedMeans(w, v, known, p, responses - 1, s.tick);
      steps := [s] + rest;
      assert steps[1..] == rest;
    } else {
      steps := [s];
    }
  }

  // ---------------------------------------------------------------- a failure stays a failure

  /** Nothing a fixture run does later unmakes a failure. */
  lemma FailureKept(
    w: World, s: Scenario, v: View, more: View, known: Known, later: Known, asked: seq<Ask>, all: seq<Ask>,
    i: nat, tick: nat)
    requires FixtureFailure(w, s, v, known, asked, i) && Keeps(v, more, tick) && asked <= all
    requires v.lines == more.lines && v.lets == more.lets && (UsesRunAfter(s.positives) ==> known == later)
    ensures FixtureFailure(w, s, more, later, all, i)
  {
    hide LogVerdictOf, Judged, UsesRunAfter, Keeps;
    if s.positives[i].Api? {
      var a :| a in asked && FailedBy(w, s, v, known, a, i);
      JudgedKept(w, s, v, more, known, later, a, tick);
      assert a in all && FailedBy(w, s, more, later, a, i);
    }
  }

  // ---------------------------------------------------------------- steps

  /** The first line that failed, once line `i` is judged. */
  function First(failed: Option<nat>, failure: bool, i: nat): Option<nat> {
    if failed.Some? || !failure then failed else Some(i)
  }

  /** Observations, evaluations and time accumulate; lines and lets stay. */
  lemma {:induction false} DryKept(
    w: World, s: Scenario, v: View, known: Known, later: Known, b: Books, all: Books,
    scripted: bool, failed: Option<nat>, tick: nat, now: nat)
    requires DryEstablished(w, s, v, known, b, scripted, failed, tick) && tick <= now
    requires UsesRunAfter(s.positives) ==> known == later
    requires all.captures == b.captures && all.recorded == b.recorded && all.performed == b.performed
    requires b.asked <= all.asked && all.behind == b.behind
    ensures DryEstablished(w, s, v, later, all, scripted, failed, now)
  {
    hide Base, BooksHold, FixtureFailure, UsesRunAfter;
    KeepsItself(v, tick);
    BooksIn(w, s, v, known, b, scripted, PassedLines(failed, b.behind), tick);
    BaseLater(w, s, v, b.behind, b.behind, tick, now);
    BooksKept(w, s, v, v, known, later, b, all, scripted, PassedLines(failed, b.behind), tick, now);
    if failed.Some? {
      FailureKept(w, s, v, v, known, later, b.asked, all.asked, failed.value, tick);
    }
  }

  /** A line that fails, or is skipped after a failure. */
  lemma {:induction false} DryFails(
    w: World, s: Scenario, v: View, known: Known, b: Books, scripted: bool, failed: Option<nat>, tick: nat)
    requires DryEstablished(w, s, v, known, b, scripted, failed, tick) && b.behind < |s.positives|
    requires failed.None? ==> FixtureFailure(w, s, v, known, b.asked, b.behind)
    ensures DryEstablished(w, s, v, known, b.(behind := b.behind + 1), scripted, First(failed, true, b.behind), tick)
  {
    hide Base, BooksHold, FixtureFailure;
    BaseLater(w, s, v, b.behind, b.behind + 1, tick, tick);
    BooksSame(w, s, v, known, b, b.(behind := b.behind + 1), scripted, PassedLines(failed, b.behind), tick, tick);
  }

  /** A line that passes; `all` are the books with what it added. */
  lemma {:induction false} DryPasses(
    w: World, s: Scenario, v: View, known: Known, all: Books, scripted: bool, failed: Option<nat>, tick: nat)
    requires Base(w, s, v, all.behind, tick) && (forall m :: m in v.marks ==> m.size == |v.lines|)
    requires all.behind > 0 && PassedLines(failed, all.behind - 1) <= all.behind - 1
    requires BooksHold(w, s, v, known, all, scripted, PassedLines(failed, all.behind - 1), tick)
    requires failed.Some? ==> failed.value < all.behind && FixtureFailure(w, s, v, known, all.asked, failed.value)
    requires all.behind <= |s.positives| && Passed(w, s, v, known, all, scripted, all.behind - 1)
    requires forall d :: d in all.performed ==> d.line < all.behind - 1
    ensures DryEstablished(w, s, v, known, all, scripted, failed, tick)
  {
    hide Base, Passed, FixtureFailure, BooksHold;
    if failed.None? {
      BooksNext(w, s, v, known, all, scripted, all.behind - 1, tick);
    }
  }

  lemma PlannedPasses(w: World, s: Scenario, v: View, known: Known, b: Books, j: nat)
    requires j < |s.positives| && s.positives[j].Api?
    ensures Passed(w, s, v, known, b, false, j)
  {
  }

  /** Without responses an api line is only planned. */
  lemma {:induction false} DryPlans(
    w: World, s: Scenario, v: View, known: Known, b: Books, failed: Option<nat>, tick: nat)
    requires DryEstablished(w, s, v, known, b, false, failed, tick)
    requires b.behind < |s.positives| && s.positives[b.behind].Api?
    ensures DryEstablished(w, s, v, known, b.(behind := b.behind + 1), false, failed, tick)
  {
    hide Base, BooksHold, FixtureFailure, Passed;
    var all := b.(behind := b.behind + 1);
    BaseLater(w, s, v, b.behind, b.behind + 1, tick, tick);
    BooksSame(w, s, v, known, b, all, false, PassedLines(failed, b.behind), tick, tick);
    PlannedPasses(w, s, v, known, all, b.behind);
    BooksIn(w, s, v, known, b, false, PassedLines(failed, b.behind), tick);
    DryPasses(w, s, v, known, all, false, failed, tick);
  }

  /** A scripted evaluation that is ok. */
  lemma {:induction false} DryAnswered(
    w: World, s: Scenario, v: View, known: Known, b: Books, failed: Option<nat>, tick: nat, a: Ask)
    requires DryEstablished(w, s, v, known, b, true, failed, tick) && a in b.asked && OfApi(s, a) && a.line == b.behind
    requires Judged(w, s, v, known, a).state.Fine?
    ensures DryEstablished(
      w, s, v, known, b.(captures := b.captures + Judged(w, s, v, known, a).found, behind := b.behind + 1),
      true, failed, tick)
  {
    hide Base, BooksHold, FixtureFailure, Passed, Judged, Answered;
    var next := b.(behind := b.behind + 1);
    var all := next.(captures := b.captures + Judged(w, s, v, known, a).found);
    BaseLater(w, s, v, b.behind, b.behind + 1, tick, tick);
    BooksSame(w, s, v, known, b, next, true, PassedLines(failed, b.behind), tick, tick);
    BooksBank(w, s, v, known, next, true, PassedLines(failed, b.behind), tick, a);
    ApiPasses(w, s, v, known, all, b.behind);
    BooksIn(w, s, v, known, b, true, PassedLines(failed, b.behind), tick);
    DryPasses(w, s, v, known, all, true, failed, tick);
  }

  /** One that is put on record. */
  lemma {:induction false} DryRecorded(
    w: World, s: Scenario, v: View, known: Known, b: Books, failed: Option<nat>, tick: nat, a: Ask)
    requires DryEstablished(w, s, v, known, b, true, failed, tick) && a in b.asked && OfApi(s, a) && a.line == b.behind
    requires OnTheBooks(s.positives[a.line], Judged(w, s, v, known, a))
    ensures DryEstablished(
      w, s, v, known, b.(recorded := b.recorded + [b.behind], behind := b.behind + 1), true, failed, tick)
  {
    hide Base, BooksHold, FixtureFailure, Passed, Judged, Answered;
    var next := b.(behind := b.behind + 1);
    var all := next.(recorded := b.recorded + [b.behind]);
    BaseLater(w, s, v, b.behind, b.behind + 1, tick, tick);
    BooksSame(w, s, v, known, b, next, true, PassedLines(failed, b.behind), tick, tick);
    assert RecordedBy(w, s, v, known, a, a.line);
    BooksRecord(w, s, v, known, next, true, PassedLines(failed, b.behind), tick, a);
    ApiPasses(w, s, v, known, all, b.behind);
    BooksIn(w, s, v, known, b, true, PassedLines(failed, b.behind), tick);
    DryPasses(w, s, v, known, all, true, failed, tick);
  }

  lemma CountIsPositive(s: Scenario, n: nat)
    requires n < |s.positives| && LintedLine(s.positives, n) && s.positives[n].Log?
    ensures s.positives[n].count >= 1
  {
  }

  lemma DryParts(w: World, s: Scenario, v: View, known: Known, b: Books, scripted: bool, failed: Option<nat>, tick: nat)
    requires DryEstablished(w, s, v, known, b, scripted, failed, tick)
    ensures Base(w, s, v, b.behind, tick) && forall m :: m in v.marks ==> m.size == |v.lines|
    ensures PassedLines(failed, b.behind) <= b.behind && BooksHold(w, s, v, known, b, scripted, PassedLines(failed, b.behind), tick)
    ensures failed.Some? ==> failed.value < b.behind && FixtureFailure(w, s, v, known, b.asked, failed.value)
  {
    hide Base, BooksHold, FixtureFailure;
  }

  /** A satisfied log line. */
  lemma {:induction false} DryStamped(
    w: World, s: Scenario, v: View, more: View, known: Known, b: Books, scripted: bool, failed: Option<nat>,
    from: nat, now: nat)
    requires DryEstablished(w, s, v, known, b, scripted, failed, from) && b.behind < |s.positives|
    requires LintedLine(s.positives, b.behind) && s.positives[b.behind].Log?
    requires Stamped(w, v, b.behind, s.positives[b.behind], more, from, now)
    ensures DryEstablished(w, s, more, known, b.(behind := b.behind + 1), scripted, failed, now)
  {
    var n, p := b.behind, s.positives[b.behind];
    var m, all := Mark(n, p, |v.lines|, from), b.(behind := b.behind + 1);
    hide DryEstablished, Base, BooksHold, FixtureFailure, Passed, Stamped, Keeps, UsesRunAfter, MarkHolds;
    CountIsPositive(s, n);
    hide LintedLine;
    DryParts(w, s, v, known, b, scripted, failed, from);
    StampedMark(w, v, n, p, more, from, now);
    BaseStamped(w, s, v, n, p, more, from, now);
    BooksKept(w, s, v, more, known, known, b, all, scripted, PassedLines(failed, n), from, now);
    LogPasses(w, s, more, known, all, scripted, m);
    BooksIn(w, s, v, known, b, scripted, PassedLines(failed, n), from);
    if failed.Some? {
      FailureKept(w, s, v, more, known, known, b.asked, b.asked, failed.value, from);
    }
    DryPasses(w, s, more, known, all, scripted, failed, now);
  }

  /** The one read of the log, before any line was judged. */
  lemma DryGrows(
    w: World, s: Scenario, v: View, more: View, known: Known, b: Books, scripted: bool, tick: nat, now: nat)
    requires DryEstablished(w, s, v, known, b, scripted, None, tick) && Grown(v, more) && tick <= now
    requires b.behind == 0
    ensures DryEstablished(w, s, more, known, b, scripted, None, now)
  {
    BaseGrows(w, s, v, more, 0, tick, now);
    GrownKeeps(v, more, tick);
    AtMost(v.marks, 0);
    hide Base, BooksHold, Keeps, Grown;
    BooksIn(w, s, v, known, b, scripted, 0, tick);
    BooksKept(w, s, v, more, known, known, b, b, scripted, 0, tick, now);
  }

  /** Lines that rise below `n` are at most `n`. */
  lemma {:induction false} AtMost(marks: seq<Mark>, n: nat)
    requires forall i, j :: 0 <= i < j < |marks| ==> marks[i].line < marks[j].line
    requires forall i :: 0 <= i < |marks| ==> marks[i].line < n
    ensures |marks| <= n
    decreases |marks|
  {
    if |marks| > 0 {
      AtMost(marks[..|marks| - 1], marks[|marks| - 1].line);
    }
  }

  /** An act done on account of the log line just judged. */
  lemma {:induction false} DryDone(
    w: World, s: Scenario, v: View, known: Known, b: Books, scripted: bool, failed: Option<nat>, tick: nat, g: Gated)
    requires DryEstablished(w, s, v, known, b, scripted, failed, tick) && b.behind > 0
    requires s.positives[b.behind - 1].Log? && Releases(w, v.lets, g, s.positives[b.behind - 1])
    ensures DryEstablished(
      w, s, v, known, b.(performed := b.performed + [Done(g, b.behind - 1, tick)]), scripted, failed, tick)
  {
    hide Base, BooksHold, FixtureFailure, Releases;
    if failed.None? {
      LastMark(w, s, v, known, b, scripted, tick);
    }
    BooksDone(w, s, v, known, b, scripted, PassedLines(failed, b.behind), tick, g, b.behind - 1);
  }

  /** Without a failure every anchor a line asks after is observed. */
  lemma {:induction false} DryObserves(
    w: World, s: Scenario, v: View, known: Known, b: Books, scripted: bool, tick: nat)
    requires Linted(s) && b.behind < |s.positives| && DryEstablished(w, s, v, known, b, scripted, None, tick)
    ensures AnchorsObserved(w, v, s.positives[b.behind])
  {
    assert LintedLine(s.positives, b.behind);
    forall j | 0 <= j < b.behind
      ensures Shown(w, v, s.positives[j])
    {
      assert Passed(w, s, v, known, b, scripted, j) && LintedLine(s.positives, j);
      HandledShown(w, s, v, b.behind, tick, j);
    }
    hide Base, BooksHold, Linted, Shown, AnchorsObserved;
    LintObservesAnchors(w, v, s.positives, b.behind);
  }

  // ---------------------------------------------------------------- verdicts

  /** The anchor is not observed when its line comes up. */
  predicate Unmatched(w: World, v: View, a: Assert) {
    a.NewRunAfter? && Token(w, v.lets, a.anchor).Some? && Token(w, v.lets, a.anchor).value !in v.utc
  }

  predicate RefusedBy(w: World, s: Scenario, v: View, known: Known, a: Ask, cause: Refusal, i: nat) {
    a.line == i && OfApi(s, a) && Judged(w, s, v, known, a).state == Declined(cause)
  }

  /** Why an api line of a fixture is refused: a planned line has an unbound name, a line after a
      failure an unbound anchor, and any other a last evaluation that was refused. */
  ghost predicate DryApiRefused(
    w: World, s: Scenario, v: View, known: Known, b: Books, scripted: bool, failed: Option<nat>, cause: Refusal, i: nat)
    requires i < |s.positives| && s.positives[i].Api?
  {
    if !scripted then cause == Unbound && exists name :: name in s.positives[i].letNames && name !in v.lets
    else
      || (failed.Some? && cause == Unbound && exists a :: a in s.positives[i].asserts && a.NewRunAfter? && Token(w, v.lets, a.anchor).None?)
      || (|b.asked| > 0 && RefusedBy(w, s, v, known, b.asked[|b.asked| - 1], cause, i))
  }

  /** A fixture verdict other than PASS says what the run saw. */
  ghost predicate DryExplained(
    w: World, s: Scenario, v: View, known: Known, b: Books, scripted: bool, failed: Option<nat>, out: Outcome)
  {
    match out
    case Failed(ForbiddenHit(which, line)) => b.behind == |s.positives| && HitAt(w, s, v, which, line)
    case Failed(FixtureLine(first)) =>
      b.behind == |s.positives| && AllCleared(w, s, v) && failed == Some(first)
    case Failed(OnTheRecord) =>
      b.behind == |s.positives| && AllCleared(w, s, v) && failed.None? && b.recorded != []
    case RefusedRun(cause, InLine(i)) =>
      && i == b.behind && i < |s.positives|
      && (s.positives[i].Log? ==>
          s.positives[i].count >= 1 && LogVerdictOf(w, v.lets, v.lines, s.positives[i]) == Refused(cause))
      && (s.positives[i].Api? ==> DryApiRefused(w, s, v, known, b, scripted, failed, cause, i))
    case RefusedRun(cause, InCheck(k)) => cause == Unbound && b.behind == |s.positives| && CheckRefused(w, s, v, k)
    case RefusedRun(cause, InAct(g, i)) =>
      cause == Unbound && i + 1 == b.behind && g in s.gated && Token(w, v.lets, g.after).None?
    case _ => false
  }

  /** What PASS means for a fixture: what a live PASS says of positives, banked runs and acts, every
      line satisfied by the whole window, and nothing forbidden past an anchor's last index. */
  ghost predicate DrySound(w: World, s: Scenario, v: View, known: Known, b: Books, scripted: bool, tick: nat) {
    && Proven(w, s, v, known, b, scripted, tick)
    && (forall m :: m in v.marks ==> m.size == |v.lines|)
    && AllCleared(w, s, v)
  }

  lemma {:induction false} DryPassIsSound(
    w: World, s: Scenario, v: View, known: Known, b: Books, scripted: bool, tick: nat)
    requires Linted(s) && AllCleared(w, s, v) && b.behind == |s.positives| && b.recorded == []
    requires DryEstablished(w, s, v, known, b, scripted, None, tick)
    ensures DrySound(w, s, v, known, b, scripted, tick)
  {
    hide Base, BooksHold, Linted, AllCleared, Proven;
    BooksProve(w, s, v, known, b, scripted, tick);
  }

  /** The live promise holds of a fixture PASS if and only if nothing forbidden stands between an
      index its anchor was given and the last one. */
  lemma {:induction false} DryPassExactlyWhen(
    w: World, s: Scenario, v: View, known: Known, b: Books, scripted: bool, tick: nat)
    requires DrySound(w, s, v, known, b, scripted, tick)
    ensures (forall f :: f in s.forbidden ==> NeverSeen(w, v, f)) <==> (forall f :: f in s.forbidden ==> Held(w, v, f))
  {
    hide ValueShown, Marked, Indexed, NeverSeen, Held, Cleared, Shown, Answered, Evidenced, RunProved, DoneInTime, AnchorSatisfied;
    forall f | f in s.forbidden
      ensures NeverSeen(w, v, f) <==> Held(w, v, f)
    {
      NeverSeenExactlyWhen(w, s, v, f);
    }
  }

  lemma {:induction false} DryShown(w: World, s: Scenario, v: View, known: Known, b: Books, scripted: bool, tick: nat)
    requires Linted(s) && b.behind == |s.positives| && DryEstablished(w, s, v, known, b, scripted, None, tick)
    ensures forall j :: 0 <= j < |s.positives| ==> Shown(w, v, s.positives[j])
  {
    forall j | 0 <= j < |s.positives|
      ensures Shown(w, v, s.positives[j])
    {
      assert Passed(w, s, v, known, b, scripted, j) && LintedLine(s.positives, j);
      HandledShown(w, s, v, b.behind, tick, j);
    }
  }

  lemma StartsDry(w: World, s: Scenario, v: View, known: Known, b: Books, scripted: bool, tick: nat)
    requires v == View([], v.lets, map[], map[], map[], []) && b == Books([], [], [], [], [], 0)
    ensures DryEstablished(w, s, v, known, b, scripted, None, tick)
  {
  }
}
