/** The evidence run, live or against a captured log: never let a forbidden line pass. */
module Evidence {
  import opened Acts
  import opened ApiLines
  import opened Endings
  import opened EvidenceState
  import opened Fixtures
  import opened LogWindow
  import opened NewRuns
  import opened Options
  import opened Passing
  import opened Progress
  import opened Scenarios
  import opened Templates
  import opened Utf8

  const LOG_POLL := 500     // milliseconds
  const API_POLL := 1000

  /** Against the bench, or against a captured log, with or without scripted api responses. */
  datatype Mode = Live | Dry(scripted: bool)

  datatype Check = Clear | Hit(which: nat, line: nat) | Unresolved(which: nat)

  /** The observations there were before stay, and new ones were taken from interaction `from` up to `now`. */
  ghost predicate ObservedSince(
    w: World, utc: map<string, int>, seen: map<string, nat>, more: map<string, int>, later: map<string, nat>,
    from: nat, now: nat)
  {
    && more.Keys == later.Keys && from <= now
    && (forall t :: t in utc ==> t in more && more[t] == utc[t] && t in seen && later[t] == seen[t])
    && (forall t :: t in more && t !in utc ==> more[t] == w.utc(later[t]) && from <= later[t] < now)
  }

  lemma NothingSince(w: World, utc: map<string, int>, seen: map<string, nat>, now: nat)
    requires utc.Keys == seen.Keys
    ensures ObservedSince(w, utc, seen, utc, seen, now, now)
  {
    assert forall t :: t in utc <==> t in utc.Keys;
    assert forall t :: t in seen <==> t in seen.Keys;
  }

  lemma ObservedNext(
    w: World, utc: map<string, int>, seen: map<string, nat>, more: map<string, int>, later: map<string, nat>,
    from: nat, now: nat, token: string)
    requires ObservedSince(w, utc, seen, more, later, from, now)
    ensures ObservedSince(
      w, utc, seen, if token in more then more else more[token := w.utc(now)],
      if token in later then later else later[token := now], from, now + 1)
  {
    assert forall t :: t in more <==> t in more.Keys;
    assert forall t :: t in later <==> t in later.Keys;
  }

  /** What a run of either mode has established. */
  ghost predicate Running(
    w: World, s: Scenario, mode: Mode, v: View, known: Known, b: Books, failed: Option<nat>, tick: nat)
  {
    match mode
    case Live => failed.None? && Established(w, s, v, known, b, tick)
    case Dry(scripted) => DryEstablished(w, s, v, known, b, scripted, failed, tick)
  }

  /** The log grew, entries were typed, a snapshot was taken, time passed. */
  lemma RunningMoves(
    w: World, s: Scenario, mode: Mode, v: View, more: View, known: Known, later: Known, b: Books,
    failed: Option<nat>, tick: nat, now: nat)
    requires Running(w, s, mode, v, known, b, failed, tick) && Grown(v, more) && (mode.Dry? ==> more == v)
    requires tick <= now && (UsesRunAfter(s.positives) ==> later == known)
    ensures Running(w, s, mode, more, later, b, failed, now)
  {
    hide Established, DryEstablished, UsesRunAfter, Grown;
    match mode
    case Live =>
      EstablishedGrows(w, s, v, more, known, b, tick, now);
      EstablishedRepinned(w, s, more, known, later, b, now, now);
    case Dry(scripted) =>
      DryKept(w, s, v, known, later, b, b, scripted, failed, tick, now);
  }

  /** A gated act was done on account of the log line just behind the run. */
  lemma RunningDone(
    w: World, s: Scenario, mode: Mode, v: View, known: Known, b: Books, failed: Option<nat>, tick: nat, g: Gated)
    requires Running(w, s, mode, v, known, b, failed, tick) && 0 < b.behind <= |s.positives|
    requires s.positives[b.behind - 1].Log? && Releases(w, v.lets, g, s.positives[b.behind - 1])
    requires mode.Live? ==> Polled(b, b.behind - 1)
    ensures Running(w, s, mode, v, known, b.(performed := b.performed + [Done(g, b.behind - 1, tick)]), failed, tick)
  {
    hide Established, DryEstablished, Releases;
    match mode
    case Live => EstablishedDone(w, s, v, known, b, tick, g);
    case Dry(scripted) => DryDone(w, s, v, known, b, scripted, failed, tick, g);
  }

  lemma BehindInRange(
    w: World, s: Scenario, mode: Mode, v: View, known: Known, b: Books, failed: Option<nat>, tick: nat)
    requires Running(w, s, mode, v, known, b, failed, tick)
    ensures b.behind <= |s.positives| && v.utc.Keys == v.seen.Keys
  {
    hide Passed, Banked, Recordable, DoneInTime, Entitled, MarkHolds, Indexed, FixtureFailure, ReadFor, Guarded;
  }

  class ScenarioRun {
    const scenario: Scenario
    const world: World
    const mode: Mode
    const given: Lets                      // the bindings made before the evidence
    const reader: Reader

    var tick: nat                          // interactions so far
    var clock: nat                         // monotonic milliseconds
    var lets: Lets
    var satisfiedAtIndex: map<string, nat>
    var satisfiedAtUtc: map<string, int>
    var snapshot: Known
    var snapshotAttempted: bool
    var recorded: seq<nat>
    var captures: seq<Bound>
    var performed: seq<Done>               // the gated acts done, in order
    var failed: Option<nat>                // the first positive of a fixture run that failed

    ghost var polled: seq<Read>            // the reads of the log
    ghost var asked: seq<Ask>              // the evaluations of api lines
    ghost var behind: nat                  // positives behind the run
    ghost var readAt: nat                  // the interaction that last read the log
    ghost var seenAt: map<string, nat>
    ghost var marks: seq<Mark>             // the log lines satisfied
    ghost var firstSnapshot: Known

    constructor (scenario: Scenario, world: World, mode: Mode, given: Lets)
      ensures this.scenario == scenario && this.world == world && this.mode == mode && this.given == given
      ensures fresh(reader) && Windowed() && Pinned()
      ensures Look() == View([], given, map[], map[], map[], []) && Ledger() == Books([], [], [], [], [], 0)
      ensures !snapshotAttempted && failed.None? && tick == 0 && TypedIn(lets, 0)
    {
      this.scenario, this.world, this.mode, this.given := scenario, world, mode, given;
      reader := new Reader(|world.before|);
      tick, clock := 0, 0;
      lets := given;
      satisfiedAtIndex, satisfiedAtUtc := map[], map[];
      snapshot, snapshotAttempted, recorded, captures, performed, failed := None, false, [], [], [], None;
      polled, asked, behind, readAt, seenAt, marks, firstSnapshot := [], [], 0, 0, map[], [], None;
      new;
      assert reader.lines == [];
    }

    ghost function Look(): View
      reads `lets, `satisfiedAtIndex, `satisfiedAtUtc, `seenAt, `marks, reader
    {
      View(reader.lines, lets, satisfiedAtIndex, satisfiedAtUtc, seenAt, marks)
    }

    ghost function Ledger(): Books
      reads `captures, `recorded, `performed, `polled, `asked, `behind
    {
      Books(captures, recorded, performed, polled, asked, behind)
    }

    /** The reader holds what the file held at its last read. */
    ghost predicate Windowed()
      reads `readAt, `tick, reader
    {
      && reader.Consistent() && reader.Whole() && reader.marker == |world.before|
      && readAt <= tick && reader.text <= world.text(readAt)
    }

    /** A scenario with a new_run_after keeps its first attempt at a snapshot. */
    ghost predicate Pinned()
      reads `snapshot, `snapshotAttempted, `firstSnapshot
    {
      UsesRunAfter(scenario.positives) && snapshotAttempted ==> snapshot == firstSnapshot
    }

    method Interact()
      modifies `tick, `clock
      ensures tick == old(tick) + 1 && clock >= old(clock)
    {
      clock := clock + world.lag(tick);
      tick := tick + 1;
    }

    /** A read of what the log has gained, for the positive in turn. */
    method ReadWindow()
      requires Windowed() && Growing(world)
      modifies `tick, `clock, `readAt, `polled, reader
      ensures polled == old(polled) + [Read(behind, old(tick), old(clock))]
      ensures Windowed() && Grown(old(Look()), Look())
      ensures readAt == old(tick) && tick == old(tick) + 1 && clock >= old(clock)
      ensures reader.text == world.text(readAt) && reader.lines == CompleteLines(world.text(readAt))
    {
      hide EncodeAll, Decode, CompleteLines, Extends;
      ExtendsSame(lets);
      var now := world.text(tick);
      assert world.text(readAt) <= now;
      ghost var appended := now[|reader.text|..];
      assert reader.text + appended == now;
      var file := world.before + EncodeAll(now);
      assert file[reader.marker..] == EncodeAll(now);
      WholeRead(file, reader.marker, reader.text, appended);
      reader.ReadWindow(file);
      readAt, polled := tick, polled + [Read(behind, tick, clock)];
      Interact();
    }

    /** A check of every forbidden line against the whole window. */
    method CheckForbidden() returns (v: Check)
      ensures v.Clear? <==> AllCleared(world, scenario, Look())
      ensures v.Hit? ==> HitAt(world, scenario, Look(), v.which, v.line)
      ensures v.Unresolved? ==> CheckRefused(world, scenario, Look(), v.which)
    {
      hide Token, Contains;
      for i := 0 to |scenario.forbidden|
        invariant ClearedUpTo(world, scenario, Look(), i)
      {
        var f := scenario.forbidden[i];
        assert f in scenario.forbidden;
        var token := Token(world, lets, f.token);
        if token.None? { return Unresolved(i); }
        var start := 0;
        if f.after.Some? {
          var anchor := Token(world, lets, f.after.value);
          if anchor.None? { return Unresolved(i); }
          if anchor.value !in satisfiedAtIndex { continue; }
          start := satisfiedAtIndex[anchor.value] + 1;
        }
        var idx := start;
        while idx < |reader.lines|
          invariant start <= idx
          invariant forall k :: start <= k < idx && k < |reader.lines| ==> !Contains(reader.lines[k], token.value)
        {
          if Contains(reader.lines[idx], token.value) { return Hit(i, idx); }
          idx := idx + 1;
        }
        assert ClearFrom(reader.lines, start, token.value);
      }
      v := Clear;
    }

    method FindMatches(tokens: seq<string>, same: seq<string>) returns (matches: seq<nat>)
      ensures matches == MatchIndices(reader.lines, tokens, same)
    {
      hide LineMatches;
      matches := [];
      assert reader.lines[..0] == [];
      for idx := 0 to |reader.lines|
        invariant matches == MatchIndices(reader.lines[..idx], tokens, same)
      {
        assert reader.lines[..idx + 1][..idx] == reader.lines[..idx];
        if LineMatches(reader.lines[idx], tokens, same) { matches := matches + [idx]; }
      }
      assert reader.lines[..|reader.lines|] == reader.lines;
    }

    /** `setdefault`: the earliest observation stays, a new one is taken now. */
    method Observe(token: string)
      requires satisfiedAtUtc.Keys == seenAt.Keys
      modifies `tick, `clock, `satisfiedAtUtc, `seenAt
      ensures tick == old(tick) + 1 && clock >= old(clock)
      ensures satisfiedAtUtc == if token in old(satisfiedAtUtc) then old(satisfiedAtUtc)
        else old(satisfiedAtUtc)[token := world.utc(old(tick))]
      ensures seenAt == if token in old(seenAt) then old(seenAt) else old(seenAt)[token := old(tick)]
    {
      if token !in satisfiedAtUtc {
        satisfiedAtUtc, seenAt := satisfiedAtUtc[token := world.utc(tick)], seenAt[token := tick];
      }
      Interact();
    }

    /** Every token of a satisfied line takes its index; a token that a match contains,
        and that was never observed, is observed now. */
    method StampTokens(tokens: seq<string>, matches: seq<nat>, at: nat)
      requires forall k :: k in matches ==> k < |reader.lines|
      requires satisfiedAtUtc.Keys == seenAt.Keys
      modifies `tick, `clock, `satisfiedAtIndex, `satisfiedAtUtc, `seenAt
      ensures tick >= old(tick) && clock >= old(clock)
      ensures satisfiedAtIndex == Stamp(old(satisfiedAtIndex), tokens, at)
      ensures forall t :: t in satisfiedAtUtc <==>
        t in old(satisfiedAtUtc) || (t in tokens && InMatch(reader.lines, matches, t))
      ensures ObservedSince(world, old(satisfiedAtUtc), old(seenAt), satisfiedAtUtc, seenAt, old(tick), tick)
    {
      hide InMatch, ObservedSince;
      NothingSince(world, satisfiedAtUtc, seenAt, tick);
      assert tokens[..0] == [];
      for j := 0 to |tokens|
        invariant tick >= old(tick) && clock >= old(clock)
        invariant satisfiedAtIndex == Stamp(old(satisfiedAtIndex), tokens[..j], at)
        invariant satisfiedAtUtc.Keys == seenAt.Keys
        invariant forall t :: t in satisfiedAtUtc <==>
          t in old(satisfiedAtUtc) || (t in tokens[..j] && InMatch(reader.lines, matches, t))
        invariant ObservedSince(world, old(satisfiedAtUtc), old(seenAt), satisfiedAtUtc, seenAt, old(tick), tick)
      {
        var token := tokens[j];
        assert tokens[..j + 1][..j] == tokens[..j];
        assert forall t :: t in tokens[..j + 1] <==> t in tokens[..j] || t == token;
        satisfiedAtIndex := satisfiedAtIndex[token := at];
        if InMatch(reader.lines, matches, token) {
          ObservedNext(world, old(satisfiedAtUtc), old(seenAt), satisfiedAtUtc, seenAt, old(tick), tick, token);
          Observe(token);
        }
      }
      assert tokens[..|tokens|] == tokens;
    }

    /** One evaluation of log positive `line` over the window as it stands. */
    method EvalLogLine(p: Positive, ghost line: nat) returns (v: LogVerdict)
      requires p.Log? && p.count >= 1 && satisfiedAtUtc.Keys == seenAt.Keys
      modifies `tick, `clock, `satisfiedAtIndex, `satisfiedAtUtc, `seenAt, `marks
      ensures tick >= old(tick) && clock >= old(clock)
      ensures v == LogVerdictOf(world, lets, reader.lines, p)
      ensures v.Satisfied? ==> Stamped(world, old(Look()), line, p, Look(), old(tick), tick)
      ensures !v.Satisfied? ==> Look() == old(Look()) && tick == old(tick) && clock == old(clock)
    {
      hide Tokens, MatchIndices, Extracted, Stamp, InMatch;
      var tokens, same := Tokens(world, lets, p.tokens), Tokens(world, lets, p.sameLine);
      if tokens.None? || same.None? { return Refused(Unbound); }
      var matches := FindMatches(tokens.value, same.value);
      if |matches| < p.count { return Waiting; }
      var at := matches[p.count - 1];
      if p.extract.Some? {
        at := matches[|matches| - 1];
        assert at in matches;
        v := Extracted(world, reader.lines, p.extract.value, at);
        if !v.Satisfied? { return; }
        ExtractedAt(world, reader.lines, p.extract.value, at);
      }
      v := Satisfied(at);
      marks := marks + [Mark(line, p, |reader.lines|, tick)];
      StampTokens(tokens.value, matches, at);
    }

    /** The runs known at the marker; a scenario with a new_run_after keeps its first attempt. */
    method SnapshotRuns()
      requires Pinned()
      modifies `tick, `clock, `snapshot, `snapshotAttempted, `firstSnapshot
      ensures Pinned() && tick >= old(tick) && clock >= old(clock)
      ensures UsesRunAfter(scenario.positives) ==> snapshotAttempted
      ensures if UsesRunAfter(scenario.positives) && old(snapshotAttempted)
        then snapshot == old(snapshot) && firstSnapshot == old(firstSnapshot)
        else snapshot == RunIds(world.body(old(tick)))
    {
      if UsesRunAfter(scenario.positives) {
        if snapshotAttempted { return; }
        snapshotAttempted := true;
      }
      snapshot := RunIds(world.body(tick));
      firstSnapshot := snapshot;
      Interact();
    }

    /** One run's chain, read and judged. */
    method ReadChain(row: RunRow, anchor: string, observed: int) returns (b: Option<Bound>)
      modifies `tick, `clock
      ensures tick == old(tick) + 1 && clock >= old(clock)
      ensures b == Bind(world, row, world.chain(old(tick), row.runId), anchor, observed)
    {
      hide Outcomes, Instant;
      var chain := world.chain(tick, row.runId);
      Interact();
      if chain.None? { return None; }
      var matched := Instant(world, chain.value.matchedAt);
      if matched.None? { return None; }
      if matched.value < observed { return None; }
      var outcomes := Outcomes(chain.value.outcomes);
      if outcomes == [] { return None; }
      var triggered := Instant(world, row.triggeredAt);
      var agree := triggered.Some? && matched.value / SECOND == triggered.value / SECOND;
      b := Some(Bound(anchor, row.runId, matched.value, observed, outcomes, agree));
    }

    /** One evaluation of `new_run_after` over a read of the runs: the first new run that proves the anchor. */
    method EvalNewRunAfter(rows: seq<RunRow>, anchor: string) returns (found: Option<Bound>)
      requires anchor in satisfiedAtUtc
      modifies `tick, `clock
      ensures found == RunVerdict(world, rows, snapshot, anchor, satisfiedAtUtc[anchor], old(tick))
      ensures tick == old(tick) + RunReads(world, rows, snapshot, anchor, satisfiedAtUtc[anchor], old(tick))
      ensures clock >= old(clock)
    {
      hide Token, Bind, RunVerdict;
      found := None;
      var observed := satisfiedAtUtc[anchor];
      if snapshot.None? {
        NoSnapshot(world, rows, anchor, observed, tick);
        return None;
      }
      assert rows[0..] == rows;
      for i := 0 to |rows|
        invariant clock >= old(clock) && found.None?
        invariant RunVerdict(world, rows, snapshot, anchor, observed, old(tick))
          == RunVerdict(world, rows[i..], snapshot, anchor, observed, tick)
        invariant old(tick) + RunReads(world, rows, snapshot, anchor, observed, old(tick))
          == tick + RunReads(world, rows[i..], snapshot, anchor, observed, tick)
      {
        RunVerdictStep(world, rows[i..], snapshot, anchor, observed, tick);
        assert rows[i..][0] == rows[i] && rows[i..][1..] == rows[i + 1..];
        if rows[i].runId in snapshot.value { continue; }
        found := ReadChain(rows[i], anchor, observed);
        if found.Some? { return; }
      }
      assert rows[|rows|..] == [];
      NoRows(world, snapshot, anchor, observed, tick);
    }

    method EvalAssert(a: Assert, records: bool, rows: seq<RunRow>) returns (state: ApiState, found: seq<Bound>)
      modifies `tick, `clock
      ensures Step(state, found, tick) == AssertStep(world, Look(), snapshot, records, a, rows, old(tick))
      ensures tick >= old(tick) && clock >= old(clock)
    {
      hide Token, RunVerdict, RunReads;
      found := [];
      if a.NewRunAfter? {
        var argument := Token(world, lets, a.anchor);
        if argument.None? { return Declined(Unbound), []; }
        var anchor := Token(world, lets, argument.value);
        if anchor.None? { return Declined(Unbound), []; }
        if anchor.value !in satisfiedAtUtc { return Declined(VacuousAnchor), []; }
        var one := EvalNewRunAfter(rows, anchor.value);
        if one.None? { return NotYet, []; }
        return Fine, [one.value];
      }
      var j := world.judge(tick);
      Interact();
      match j
      case Ok => state := Fine;
      case Pending => state := NotYet;
      case Fail => state := Wrong;
      case Recorded => state := if records then OnRecord else Wrong;
    }

    /** One evaluation of an api positive: the first assert that is not fine decides. */
    method EvalApiLine(p: Positive, ghost line: nat) returns (state: ApiState, found: seq<Bound>)
      requires p.Api?
      modifies `tick, `clock, `asked
      ensures asked == old(asked) + [Ask(line, old(tick))]
      ensures var s := ApiStep(world, Look(), snapshot, p, old(tick));
        state == s.state && tick == s.tick && (state.Fine? ==> found == s.found)
      ensures tick >= old(tick) && clock >= old(clock)
    {
      hide AssertStep;
      found := [];
      asked := asked + [Ask(line, tick)];
      if exists name :: name in p.letNames && name !in lets { return Declined(Unbound), []; }
      var body := world.body(tick);
      Interact();
      if body.None? { return NotYet, []; }
      assert p.asserts[0..] == p.asserts;
      for k := 0 to |p.asserts|
        invariant tick >= old(tick) && clock >= old(clock) && asked == old(asked) + [Ask(line, old(tick))]
        invariant ApiStep(world, Look(), snapshot, p, old(tick))
          == After(found, AssertsStep(world, Look(), snapshot, p.records, p.asserts[k..], body.value, tick))
      {
        ghost var before := found;
        assert p.asserts[k..][1..] == p.asserts[k + 1..];
        var more;
        state, more := EvalAssert(p.asserts[k], p.records, body.value);
        if !state.Fine? { return; }
        found := found + more;
        AfterTwice(before, more, AssertsStep(world, Look(), snapshot, p.records, p.asserts[k + 1..], body.value, tick));
      }
      state := Fine;
      assert found + [] == found;
    }

    // -------------------------------------------------------------- the keyboard

    /** An operator entry declared no later than some entry the names need now. */
    ghost predicate DeclaredBefore(n: string, names: seq<string>, bound: Lets) {
      exists i, j :: 0 <= i <= j < |scenario.operators| && scenario.operators[i] == n
        && scenario.operators[j] in names && scenario.operators[j] !in bound
    }

    /** The keyboard gave this value for this entry at an interaction from `from` up to `now`. */
    ghost predicate WasTyped(n: string, v: Value, from: nat, now: nat) {
      exists t: nat :: from <= t < now && world.typed(t, n) == Some(v)
    }

    lemma IsTyped(t: nat, n: string, v: Value, from: nat, now: nat)
      requires from <= t < now && world.typed(t, n) == Some(v)
      ensures WasTyped(n, v, from, now)
    {
    }

    lemma TypedLonger(n: string, v: Value, from: nat, now: nat, earlier: nat, later: nat)
      requires WasTyped(n, v, from, now) && earlier <= from && now <= later
      ensures WasTyped(n, v, earlier, later)
    {
    }

    lemma IsDeclaredBefore(i: nat, j: nat, names: seq<string>, bound: Lets)
      requires i <= j < |scenario.operators| && scenario.operators[j] in names && scenario.operators[j] !in bound
      ensures DeclaredBefore(scenario.operators[i], names, bound)
    {
    }

    /** Every let was given, or is an operator entry with the value typed for it. */
    ghost predicate TypedIn(bound: Lets, now: nat) {
      && Extends(bound, given)
      && forall n :: n in bound && n !in given ==> n in scenario.operators && WasTyped(n, bound[n], 0, now)
    }

    lemma TypedGrows(bound: Lets, more: Lets, from: nat, now: nat)
      requires TypedIn(bound, from) && Extends(more, bound) && from <= now
      requires forall n :: n in more && n !in bound ==> n in scenario.operators && WasTyped(n, more[n], from, now)
      ensures TypedIn(more, now)
    {
      hide WasTyped;
      forall n | n in more && n !in given
        ensures WasTyped(n, more[n], 0, now)
      {
        if n in bound {
          TypedLonger(n, more[n], 0, from, 0, now);
        } else {
          TypedLonger(n, more[n], from, now, 0, now);
        }
      }
    }

    /** The entries the keyboard is asked for: a dry run has bound stand-ins up front. */
    ghost function Keyboard(): seq<string> { if mode.Live? then scenario.operators else [] }

    /** Operator entries are typed in declared order, up to the last one that is needed now. */
    method EnsureOperatorLets(names: seq<string>) returns (ok: bool)
      modifies `tick, `clock, `lets
      ensures tick >= old(tick) && clock >= old(clock)
      ensures Extends(lets, old(lets)) && (mode.Dry? ==> ok && lets == old(lets))
      ensures ok ==> forall n :: n in names && n in Keyboard() ==> n in lets
      ensures !ok ==> KeyboardGone(world, scenario, lets, tick, names)
      ensures forall n :: n in lets && n !in old(lets) ==>
        DeclaredBefore(n, names, old(lets)) && n in scenario.operators && WasTyped(n, lets[n], old(tick), tick)
    {
      hide DeclaredBefore, WasTyped;
      if mode.Dry? { return true; }
      var upto := 0;
      for i := 0 to |scenario.operators|
        invariant upto <= i
        invariant forall k :: upto <= k < i && scenario.operators[k] in names ==> scenario.operators[k] in lets
        invariant upto > 0 ==> scenario.operators[upto - 1] in names && scenario.operators[upto - 1] !in lets
      {
        if scenario.operators[i] in names && scenario.operators[i] !in lets { upto := i + 1; }
      }
      for i := 0 to upto
        invariant tick >= old(tick) && clock >= old(clock) && Extends(lets, old(lets))
        invariant forall k :: 0 <= k < i ==> scenario.operators[k] in lets
        invariant forall n :: n in lets && n !in old(lets) ==>
          DeclaredBefore(n, names, old(lets)) && n in scenario.operators && WasTyped(n, lets[n], old(tick), tick)
      {
        var name := scenario.operators[i];
        if name !in lets {
          var value := world.typed(tick, name);
          ghost var when := tick;
          Interact();
          forall n | n in lets && n !in old(lets)
            ensures WasTyped(n, lets[n], old(tick), tick)
          {
            TypedLonger(n, lets[n], old(tick), when, old(tick), tick);
          }
          if value.None? {
            NoneTyped(i, upto - 1, names, old(lets), when);
            return false;
          }
          IsDeclaredBefore(i, upto - 1, names, old(lets));
          IsTyped(when, name, value.value, old(tick), tick);
          lets := lets[name := value.value];
        }
      }
      ok := true;
    }

    lemma NoneTyped(i: nat, j: nat, names: seq<string>, bound: Lets, when: nat)
      requires i <= j < |scenario.operators| && scenario.operators[j] in names
      requires scenario.operators[i] !in lets && world.typed(when, scenario.operators[i]).None?
      ensures KeyboardGone(world, scenario, lets, when + 1, names)
    {
      assert AskedFor(scenario.operators, scenario.operators[i], names);
    }

    // -------------------------------------------------------------- gated acts

    /** The run has an api to read: the bench's, or scripted responses. */
    predicate Surfaced() { mode.Live? || mode.scripted }

    predicate NeedsSnapshot() {
      Surfaced() && (UsesRunAfter(scenario.positives) || UsesConfirmedRun(scenario.positives))
    }

    /** A pinned snapshot is the one there was. */
    ghost predicate KeepsPin(attempted: bool, known: Known)
      reads `snapshot, `snapshotAttempted
    {
      && (UsesRunAfter(scenario.positives) && attempted ==> snapshotAttempted && snapshot == known)
      && (!Surfaced() ==> snapshot == known && snapshotAttempted == attempted)
    }

    /** What every step of a run keeps. */
    ghost predicate Ready()
      reads this, reader
    {
      && Pinned() && TypedIn(lets, tick)
      && (Surfaced() && UsesRunAfter(scenario.positives) ==> snapshotAttempted)
      && (mode.Live? ==> Windowed()) && (mode.Dry? ==> lets == given)
      && Running(world, scenario, mode, Look(), snapshot, Ledger(), failed, tick)
    }

    /** A verdict other than PASS says what the run saw. */
    ghost predicate Honest(out: Outcome)
      reads this, reader
    {
      match mode
      case Live => Explained(world, scenario, Look(), snapshot, Ledger(), tick, clock, out)
      case Dry(scripted) => DryExplained(world, scenario, Look(), snapshot, Ledger(), scripted, failed, out)
    }

    lemma HonestIsNoPass(out: Outcome)
      requires Honest(out)
      ensures !out.Pass?
    {
      hide DryExplained;
      match mode
      case Live => ExplainedIsNoPass(world, scenario, Look(), snapshot, Ledger(), tick, clock, out);
      case Dry(scripted) => DryExplainedIsNoPass(world, scenario, Look(), snapshot, Ledger(), scripted, failed, out);
    }

    lemma Moves(before: View, known: Known, t: nat)
      requires Running(world, scenario, mode, before, known, Ledger(), failed, t) && TypedIn(before.lets, t)
      requires Grown(before, Look()) && t <= tick && (mode.Dry? ==> Look() == before)
      requires UsesRunAfter(scenario.positives) ==> snapshot == known
      requires forall n :: n in lets && n !in before.lets ==> n in scenario.operators && WasTyped(n, lets[n], t, tick)
      ensures Running(world, scenario, mode, Look(), snapshot, Ledger(), failed, tick) && TypedIn(lets, tick)
    {
      hide Running, UsesRunAfter, WasTyped, TypedIn;
      RunningMoves(world, scenario, mode, before, Look(), known, snapshot, Ledger(), failed, t, tick);
      TypedGrows(before.lets, lets, t, tick);
    }

    /** A marker is stamped: the runs known now, where the scenario needs them. */
    method StampMarker()
      requires Ready()
      modifies `tick, `clock, `snapshot, `snapshotAttempted, `firstSnapshot
      ensures Ready() && tick >= old(tick) && clock >= old(clock)
      ensures KeepsPin(old(snapshotAttempted), old(snapshot))
    {
      hide Running, UsesRunAfter, UsesConfirmedRun, TypedIn, Extends;
      ghost var known, t := snapshot, tick;
      if NeedsSnapshot() { SnapshotRuns(); }
      ExtendsSame(lets);
      Moves(Look(), known, t);
    }

    /** An act is done on account of the log line just behind: its entries are typed, its marker is stamped. */
    method Execute(act: Gated, line: nat)
      requires Ready() && line + 1 == behind <= |scenario.positives| && scenario.positives[line].Log?
      requires Releases(world, lets, act, scenario.positives[line]) && EntriesTyped(Keyboard(), lets, act)
      requires mode.Live? ==> Polled(Ledger(), line)
      modifies `tick, `clock, `snapshot, `snapshotAttempted, `firstSnapshot, `performed
      ensures Ready() && tick >= old(tick) && clock >= old(clock)
      ensures KeepsPin(old(snapshotAttempted), old(snapshot))
      ensures performed == old(performed) + [Done(act, line, old(tick))]
    {
      hide Running, UsesRunAfter, Releases, EntriesTyped, TypedIn;
      RunningDone(world, scenario, mode, Look(), snapshot, Ledger(), failed, tick, act);
      performed := performed + [Done(act, line, tick)];
      StampMarker();
    }

    /** One gated act: done, its entries typed first, if the line's tokens hold the one it waits for. */
    method FireAct(act: Gated, line: nat) returns (released: bool, stop: Option<Outcome>)
      requires Ready() && line + 1 == behind <= |scenario.positives| && act in scenario.gated
      requires LineTokens(world, lets, scenario.positives[line]).Some?
      requires mode.Live? ==> Polled(Ledger(), line)
      modifies `tick, `clock, `lets, `snapshot, `snapshotAttempted, `firstSnapshot, `performed
      ensures Ready() && tick >= old(tick) && clock >= old(clock)
      ensures Grown(old(Look()), Look()) && KeepsPin(old(snapshotAttempted), old(snapshot))
      ensures stop.Some? ==> Honest(stop.value) && performed == old(performed)
      ensures var p := scenario.positives[line]; stop.None? ==>
        && Token(world, old(lets), act.after).Some?
        && (released <==> Releases(world, old(lets), act, p)) && (released ==> EntriesTyped(Keyboard(), lets, act))
        && |performed| == |old(performed)| + (if released then 1 else 0) && old(performed) <= performed
        && (released ==> performed[|old(performed)|].act == act)
    {
      hide Token, Tokens, Running, UsesRunAfter, KeyboardGone, DeclaredBefore, WasTyped, EntriesTyped, Extends, TypedIn;
      ghost var before, t := Look(), tick;
      ExtendsSame(lets);
      var p := scenario.positives[line];
      var after, tokens := Token(world, lets, act.after), LineTokens(world, lets, p).value;
      released, stop := false, None;
      if after.None? {
        return false, Some(RefusedRun(Unbound, InAct(act, line)));
      }
      if after.value in tokens {
        assert p.Log?;
        assert Releases(world, lets, act, p);
        var ok := EnsureOperatorLets(act.letNames);
        Moves(before, snapshot, t);
        ReleasesExtends(world, before.lets, lets, act, p);
        if !ok {
          return false, Some(NoKeyboard(InAct(act, line)));
        }
        AllTyped(Keyboard(), lets, act);
        Execute(act, line);
        released := true;
      }
    }

    /** Of the acts, those the line releases were done in order, up to some point. */
    ghost predicate Fired(before: seq<Done>, gated: seq<Gated>, p: Positive)
      reads `lets, `performed
    {
      before <= performed &&
      exists k :: 0 <= k <= |gated| && ActsOf(performed[|before|..]) == Released(world, lets, gated[..k], p)
    }

    /** The gated acts that name a token of the line just behind are done; the others stay gated, in order. */
    method FireGatedActs(gated: seq<Gated>, line: nat) returns (remaining: seq<Gated>, stop: Option<Outcome>)
      requires Ready() && line + 1 == behind <= |scenario.positives| && forall g :: g in gated ==> g in scenario.gated
      requires LineTokens(world, lets, scenario.positives[line]).Some?
      requires mode.Live? ==> Polled(Ledger(), line)
      modifies `tick, `clock, `lets, `snapshot, `snapshotAttempted, `firstSnapshot, `performed
      ensures Ready() && tick >= old(tick) && clock >= old(clock)
      ensures Grown(old(Look()), Look()) && KeepsPin(old(snapshotAttempted), old(snapshot))
      ensures stop.Some? ==> Honest(stop.value) && Fired(old(performed), gated, scenario.positives[line])
      ensures var p := scenario.positives[line]; stop.None? ==>
        && old(performed) <= performed
        && ActsOf(performed[|old(performed)|..]) == Released(world, lets, gated, p)
        && remaining == Unreleased(world, lets, gated, p)
        && AftersResolve(world, lets, gated, p) && ReleasedTyped(world, Keyboard(), lets, gated, p)
    {
      hide Token, Ready, UsesRunAfter, ReleasedTyped, AftersResolve, Unreleased, Released, Honest, Releases, LineTokens,
        EntriesTyped, Extends;
      remaining, stop := [], None;
      var p := scenario.positives[line];
      ExtendsSame(lets);
      NothingGated(world, Keyboard(), lets, p);
      assert gated[..0] == [] && performed[|old(performed)|..] == [];
      for i := 0 to |gated|
        invariant Ready() && tick >= old(tick) && clock >= old(clock) && stop.None?
        invariant Grown(old(Look()), Look()) && KeepsPin(old(snapshotAttempted), old(snapshot))
        invariant LineTokens(world, lets, p).Some?
        invariant AftersResolve(world, lets, gated[..i], p) && ReleasedTyped(world, Keyboard(), lets, gated[..i], p)
        invariant remaining == Unreleased(world, lets, gated[..i], p)
        invariant old(performed) <= performed
        invariant ActsOf(performed[|old(performed)|..]) == Released(world, lets, gated[..i], p)
      {
        ghost var before, did := Look(), performed;
        assert gated[i] in gated && gated[..i + 1] == gated[..i] + [gated[i]];
        var released;
        released, stop := FireAct(gated[i], line);
        GrownTwice(old(Look()), before, Look());
        GatedExtends(world, Keyboard(), before.lets, lets, gated[..i], p);
        if stop.Some? { return; }
        GatedOneMore(world, Keyboard(), lets, gated[..i], gated[i], p, before.lets);
        ReleasesExtends(world, before.lets, lets, gated[i], p);
        if released {
          ActsOneMore(old(performed), did, performed);
        } else {
          assert performed == did;
          remaining := remaining + [gated[i]];
        }
      }
      assert gated[..|gated|] == gated;
    }

    // -------------------------------------------------------------- polls

    /** The last evaluation of the positive in turn puts it on record, and the run goes on. */
    method Record(i: nat)
      requires mode.Live? && Ready() && i == behind < |scenario.positives| && scenario.positives[i].Api?
      requires Polled(Ledger(), i) && LastAsk(Ledger(), i) in asked
      requires OnTheBooks(scenario.positives[i], Judged(world, scenario, Look(), snapshot, LastAsk(Ledger(), i)))
      modifies `recorded, `behind
      ensures recorded == old(recorded) + [i] && behind == i + 1 && Ready()
    {
      hide Established, UsesRunAfter, Judged, TypedIn;
      EstablishedRecorded(world, scenario, Look(), snapshot, Ledger(), tick, LastAsk(Ledger(), i));
      recorded, behind := recorded + [i], behind + 1;
    }

    /** One evaluation of the api positive in turn, after a read for it. */
    method AskLive(i: nat) returns (state: ApiState, found: seq<Bound>)
      requires mode.Live? && Ready() && i == behind < |scenario.positives| && scenario.positives[i].Api?
      requires Polled(Ledger(), i) && LastAsk(Ledger(), i).at == tick
      modifies `tick, `clock, `asked
      ensures tick >= old(tick) && clock >= old(clock)
      ensures var s := ApiStep(world, Look(), snapshot, scenario.positives[i], old(tick));
        state == s.state && tick == s.tick && (state.Fine? ==> found == s.found)
      ensures Ready() && asked == old(asked) + [Ask(i, old(tick))]
    {
      hide Established, UsesRunAfter, ApiStep, TypedIn, Extends, CompleteLines, EncodeAll;
      ghost var t, b := tick, Ledger();
      state, found := EvalApiLine(scenario.positives[i], i);
      EstablishedAsked(world, scenario, Look(), snapshot, b, t, tick, Ask(i, t));
      TypedLater(lets, t, tick);
    }

    /** The evaluation was ok: its runs are banked, and the positive is behind the run. */
    method Bank(i: nat, found: seq<Bound>)
      requires mode.Live? && Ready() && i == behind < |scenario.positives| && scenario.positives[i].Api?
      requires Polled(Ledger(), i) && LastAsk(Ledger(), i) in asked
      requires var s := Judged(world, scenario, Look(), snapshot, LastAsk(Ledger(), i)); s.state.Fine? && found == s.found
      modifies `captures, `behind
      ensures captures == old(captures) + found && behind == i + 1 && Ready()
    {
      hide Established, UsesRunAfter, Judged, TypedIn;
      EstablishedAnswered(world, scenario, Look(), snapshot, Ledger(), tick, LastAsk(Ledger(), i));
      captures, behind := captures + found, behind + 1;
    }

    /** An api positive, judged on a window that was just read. */
    method PollApi(i: nat) returns (end: PollEnd)
      requires mode.Live? && Ready() && i == behind < |scenario.positives| && scenario.positives[i].Api?
      requires LineTyped(scenario, lets, scenario.positives[i])
      requires Polled(Ledger(), i) && Latest(world, Look(), Ledger()) && LastAsk(Ledger(), i).at == tick
      modifies `tick, `clock, `captures, `recorded, `asked, `behind
      ensures tick >= old(tick) && clock >= old(clock)
      ensures var s := ApiStep(world, Look(), snapshot, scenario.positives[i], old(tick));
        && end == EndOfApi(s.state, i) && tick == s.tick && asked == old(asked) + [Ask(i, old(tick))]
        && captures == old(captures) + (if s.state.Fine? then s.found else [])
        && recorded == old(recorded) + (if s.state.OnRecord? then [i] else [])
      ensures Ready() && behind == i + (if end.Behind? then 1 else 0)
      ensures end.Again? ==> Undecided(world, scenario, Look(), snapshot, Ledger(), i)
      ensures end.Over? ==> Honest(end.outcome)
    {
      hide Ready, UsesRunAfter, ApiStep, LineTyped, Explained, Undecided, CompleteLines;
      var state, found := AskLive(i);
      assert captures + [] == captures && recorded + [] == recorded;
      end := EndOfApi(state, i);
      assert LastAsk(Ledger(), i) == asked[|asked| - 1];
      ApiEndExplained(world, scenario, Look(), snapshot, Ledger(), tick, clock, i);
      if state.Fine? {
        Bank(i, found);
      } else if state.OnRecord? {
        Record(i);
      }
    }

    /** The log positive in turn, evaluated on a window that was just read and checked. */
    method StampLive(i: nat) returns (v: LogVerdict)
      requires mode.Live? && Ready() && i == behind < |scenario.positives| && scenario.positives[i].Log?
      requires LintedLine(scenario.positives, i) && AllCleared(world, scenario, Look()) && scenario.positives[i].count >= 1
      requires Polled(Ledger(), i) && Latest(world, Look(), Ledger()) && LastAsk(Ledger(), i).at == tick
      modifies `tick, `clock, `satisfiedAtIndex, `satisfiedAtUtc, `seenAt, `marks, `behind
      ensures tick >= old(tick) && clock >= old(clock) && Ready()
      ensures v == LogVerdictOf(world, lets, reader.lines, scenario.positives[i])
      ensures v.Satisfied? ==>
        behind == i + 1 && Stamped(world, old(Look()), i, scenario.positives[i], Look(), old(tick), tick)
      ensures !v.Satisfied? ==>
        behind == i && Look() == old(Look()) && tick == old(tick) && clock == old(clock) && Ledger() == old(Ledger())
    {
      hide Established, UsesRunAfter, Stamped, AllCleared, LogVerdictOf, LintedLine, TypedIn, Extends, CompleteLines, EncodeAll;
      ghost var seen, t := Look(), tick;
      BehindInRange(world, scenario, mode, Look(), snapshot, Ledger(), failed, tick);
      v := EvalLogLine(scenario.positives[i], i);
      if v.Satisfied? {
        EstablishedStamped(world, scenario, seen, Look(), snapshot, Ledger(), t, tick);
        StampedMark(world, seen, i, scenario.positives[i], Look(), t, tick);
        TypedLater(lets, t, tick);
        behind := behind + 1;
      }
    }

    /** A log positive, judged on a window that was just read and checked. */
    method PollLog(i: nat) returns (end: PollEnd)
      requires mode.Live? && Ready() && i == behind < |scenario.positives| && scenario.positives[i].Log?
      requires LintedLine(scenario.positives, i) && LineTyped(scenario, lets, scenario.positives[i])
      requires Polled(Ledger(), i) && Latest(world, Look(), Ledger()) && LastAsk(Ledger(), i).at == tick
      requires AllCleared(world, scenario, Look()) && scenario.positives[i].count >= 1
      modifies `tick, `clock, `satisfiedAtIndex, `satisfiedAtUtc, `seenAt, `marks, `behind
      ensures tick >= old(tick) && clock >= old(clock)
      ensures end == EndOfLog(LogVerdictOf(world, lets, reader.lines, scenario.positives[i]), i)
      ensures end.Behind? ==> Stamped(world, old(Look()), i, scenario.positives[i], Look(), old(tick), tick)
      ensures Ready() && behind == i + (if end.Behind? then 1 else 0)
      ensures end.Again? ==> Undecided(world, scenario, Look(), snapshot, Ledger(), i)
      ensures end.Over? ==> Honest(end.outcome)
    {
      hide Ready, Stamped, AllCleared, LogVerdictOf, LineTyped, LintedLine, Explained, Undecided, CompleteLines;
      LogEndExplained(world, scenario, Look(), snapshot, Ledger(), tick, clock, i);
      var v := StampLive(i);
      end := EndOfLog(v, i);
    }

    lemma TypedLater(bound: Lets, from: nat, now: nat)
      requires TypedIn(bound, from) && from <= now
      ensures TypedIn(bound, now)
    {
      ExtendsSame(bound);
      TypedGrows(bound, bound, from, now);
    }

    /** The view once the log is read at interaction `now`. */
    ghost function Reread(now: nat): View
      reads `lets, `satisfiedAtIndex, `satisfiedAtUtc, `seenAt, `marks, reader
    {
      Look().(lines := CompleteLines(world.text(now)))
    }

    /** The log is read for the positive in turn. */
    method ReadTurn()
      requires mode.Live? && Ready() && Growing(world)
      modifies `tick, `clock, `readAt, `polled, reader
      ensures Ready() && Look() == old(Reread(tick)) && Latest(world, Look(), Ledger())
      ensures polled == old(polled) + [Read(behind, old(tick), old(clock))]
      ensures readAt == old(tick) && tick == old(tick) + 1 && clock >= old(clock)
    {
      hide Established, UsesRunAfter, TypedIn, Extends;
      ghost var before, t, when := Look(), tick, clock;
      ReadWindow();
      EstablishedGrows(world, scenario, before, Look(), snapshot, old(Ledger()), t, t);
      EstablishedRead(world, scenario, Look(), snapshot, old(Ledger()), t, when);
      TypedLater(lets, t, tick);
    }

    /** One poll of the positive in turn: read, check every forbidden line, then evaluate. */
    method PollOnce(i: nat) returns (end: PollEnd)
      requires mode.Live? && Ready() && Linted(scenario) && Growing(world) && i == behind < |scenario.positives|
      requires LineTyped(scenario, lets, scenario.positives[i])
      modifies `tick, `clock, `readAt, `polled, `satisfiedAtIndex, `satisfiedAtUtc, `seenAt, `marks
      modifies `captures, `recorded, `asked, `behind, reader
      ensures polled == old(polled) + [Read(i, old(tick), old(clock))]
      ensures readAt == old(tick) && tick > readAt && clock >= old(clock)
      ensures var p, v := scenario.positives[i], old(Reread(tick));
        if !AllCleared(world, scenario, v) then end.Over? && (end.outcome.RefusedRun? || end.outcome.Failed?)
        else if p.Api? then end == EndOfApi(ApiStep(world, v, snapshot, p, old(tick) + 1).state, i)
        else p.count >= 1 && end == EndOfLog(LogVerdictOf(world, v.lets, v.lines, p), i)
      ensures Ready() && behind == i + (if end.Behind? then 1 else 0)
      ensures end.Again? ==> Undecided(world, scenario, Look(), snapshot, Ledger(), i)
      ensures end.Again? && scenario.positives[i].Api? ==> LastAsk(Ledger(), i) in asked
      ensures end.Over? ==> Honest(end.outcome)
    {
      hide Ready, UsesRunAfter, AllCleared, LogVerdictOf, ApiStep, HitAt, LineTyped, CheckRefused, Latest;
      LintedEach(scenario, i);
      ReadTurn();
      var check := CheckForbidden();
      if check.Hit? {
        end := Over(Failed(ForbiddenHit(check.which, check.line)));
      } else if check.Unresolved? {
        end := Over(RefusedRun(Unbound, InCheck(check.which)));
        NotCleared(world, scenario, Look(), check.which);
      } else if scenario.positives[i].Api? {
        end := PollApi(i);
      } else {
        end := PollLog(i);
      }
    }

    method Sleep(ms: nat)
      requires mode.Live? && Ready()
      modifies `tick, `clock
      ensures Ready() && tick == old(tick) + 1 && clock >= old(clock) + ms
    {
      hide Established, UsesRunAfter, TypedIn;
      GrownItself(Look());
      EstablishedGrows(world, scenario, Look(), Look(), snapshot, Ledger(), tick, tick + 1);
      TypedLater(lets, tick, tick + 1);
      clock := clock + ms + world.lag(tick);
      tick := tick + 1;
    }

    /** Poll the positive in turn until it is behind the run or its deadline has passed. */
    method PollLine(i: nat) returns (stop: Option<Outcome>)
      requires mode.Live? && Ready() && Linted(scenario) && Growing(world) && i == behind < |scenario.positives|
      requires LineTyped(scenario, lets, scenario.positives[i])
      modifies `tick, `clock, `readAt, `polled, `satisfiedAtIndex, `satisfiedAtUtc, `seenAt, `marks
      modifies `captures, `recorded, `asked, `behind, reader
      ensures Ready() && behind == i + (if stop.None? then 1 else 0)
      ensures stop.Some? ==> Honest(stop.value)
      ensures exists n :: 1 <= n <= MostPolls(scenario.positives[i]) && PolledFor(old(polled), polled, i, n)
    {
      hide Ready, UsesRunAfter, Linted, AllCleared, ApiStep, LogVerdictOf, Reread, EndOfApi, EndOfLog, PolledFor,
        LineTyped, Undecided;
      var p := scenario.positives[i];
      var deadline := clock + 1000 * p.within;
      var poll := if p.Api? then API_POLL else LOG_POLL;
      ghost var start, n := clock, 0;
      NoPoll(polled, i);
      while true
        invariant Ready() && behind == i && LineTyped(scenario, lets, p) && PolledFor(old(polled), polled, i, n)
        invariant n > 0 ==> |polled| > |old(polled)| && polled[|old(polled)|].line == i && polled[|old(polled)|].when == start
        invariant n == 0 ==> polled == old(polled) && clock == start
        invariant p.Api? ==> start + API_POLL * n <= clock && n <= p.within + 1
        invariant p.Log? ==> start + LOG_POLL * n <= clock && n <= 2 * p.within + 1
        decreases if clock <= deadline then deadline + 1 - clock else 0, n == 0
      {
        PollCounted(old(polled), polled, i, n, Read(i, tick, clock));
        var end := PollOnce(i);
        n := n + 1;
        assert 1 <= n <= MostPolls(p) && PolledFor(old(polled), polled, i, n);
        if end.Behind? { return None; }
        if end.Over? { return Some(end.outcome); }
        if clock > deadline {
          if p.Api? && p.records {
            RecordLast(i);
            assert 1 <= n <= MostPolls(p) && PolledFor(old(polled), polled, i, n);
            return None;
          }
          TimeIsUp(i, |old(polled)|);
          return Some(Failed(NotSeen(i)));
        }
        Sleep(poll);
      }
    }

    lemma TimeIsUp(i: nat, k: nat)
      requires mode.Live? && i < |scenario.positives| && Undecided(world, scenario, Look(), snapshot, Ledger(), i)
      requires scenario.positives[i].Api? ==> !scenario.positives[i].records
      requires k < |polled| && polled[k].line == i && clock > polled[k].when + 1000 * scenario.positives[i].within
      ensures Honest(Failed(NotSeen(i)))
    {
      hide Undecided;
      assert polled[k] in polled;
    }

    /** Still no datum at the deadline, on a line that records. */
    method RecordLast(i: nat)
      requires mode.Live? && Ready() && i == behind < |scenario.positives| && scenario.positives[i].Api?
      requires scenario.positives[i].records && Undecided(world, scenario, Look(), snapshot, Ledger(), i)
      requires LastAsk(Ledger(), i) in asked
      modifies `recorded, `behind
      ensures recorded == old(recorded) + [i] && behind == i + 1 && Ready()
    {
      hide Ready, Judged, Latest;
      Record(i);
    }

    // -------------------------------------------------------------- the live run

    /** The entries that are needed now are typed. */
    method Capture(names: seq<string>) returns (ok: bool)
      requires mode.Live? && Ready()
      modifies `tick, `clock, `lets
      ensures Ready() && Extends(lets, old(lets)) && tick >= old(tick)
      ensures ok ==> forall x :: x in names && x in scenario.operators ==> x in lets
      ensures !ok ==> KeyboardGone(world, scenario, lets, tick, names)
    {
      hide Running, UsesRunAfter, DeclaredBefore, WasTyped, KeyboardGone, Pinned, TypedIn;
      ghost var before, t := Look(), tick;
      ok := EnsureOperatorLets(names);
      Moves(before, snapshot, t);
    }

    /** The lets a positive needs are bound and its tokens resolve, before its clock starts. */
    method Prepare(i: nat) returns (stop: Option<Outcome>)
      requires mode.Live? && Ready() && Linted(scenario) && i == behind < |scenario.positives|
      modifies `tick, `clock, `lets
      ensures Ready() && Extends(lets, old(lets))
      ensures stop.None? ==> LineTyped(scenario, lets, scenario.positives[i])
      ensures stop.Some? ==> Honest(stop.value)
    {
      hide Ready, UsesRunAfter, Tokens, Extends, KeyboardGone;
      LintedEach(scenario, i);
      var p := scenario.positives[i];
      var ok := Capture(p.letNames);
      if !ok { return Some(NoKeyboard(InLine(i))); }
      if p.Log? && (Tokens(world, lets, p.tokens).None? || Tokens(world, lets, p.sameLine).None?) {
        return Some(RefusedRun(Unbound, InLine(i)));
      }
      stop := None;
    }

    lemma FiredOnce(before: seq<Done>, gated: seq<Gated>, p: Positive)
      requires Fired(before, gated, p)
      ensures multiset(ActsOf(performed)) <= multiset(ActsOf(before)) + multiset(gated)
    {
      hide Released, Unreleased;
      var k :| 0 <= k <= |gated| && ActsOf(performed[|before|..]) == Released(world, lets, gated[..k], p);
      ReleasedSplits(world, lets, gated[..k], p);
      assert gated == gated[..k] + gated[k..];
      ActsSplit(before, performed);
    }

    /** The gated acts a positive releases: each is done once or stays gated. */
    method Release(gated: seq<Gated>, i: nat) returns (remaining: seq<Gated>, stop: Option<Outcome>)
      requires Ready() && i + 1 == behind <= |scenario.positives| && (mode.Live? ==> Polled(Ledger(), i))
      requires LineTokens(world, lets, scenario.positives[i]).Some?
      requires StillWaiting(world, scenario, lets, gated, i) && forall g :: g in gated ==> g in scenario.gated
      modifies `tick, `clock, `lets, `snapshot, `snapshotAttempted, `firstSnapshot, `performed
      ensures Ready() && KeepsPin(old(snapshotAttempted), old(snapshot))
      ensures stop.Some? ==>
        Honest(stop.value) && multiset(ActsOf(performed)) <= old(multiset(ActsOf(performed))) + multiset(gated)
      ensures stop.None? ==>
        multiset(ActsOf(performed)) + multiset(remaining) == old(multiset(ActsOf(performed))) + multiset(gated)
      ensures stop.None? ==> forall g :: g in remaining ==> g in gated
      ensures stop.None? ==> StillWaiting(world, scenario, lets, remaining, i + 1)
    {
      hide Ready, Honest, UsesRunAfter, StillWaiting, AftersResolve, ReleasedTyped, Unreleased, Released, LineTokens,
        Fired;
      ghost var before, did := lets, performed;
      remaining, stop := FireGatedActs(gated, i);
      StillWaitingExtends(world, scenario, before, lets, gated, i);
      if stop.None? {
        StillWaitingOneMore(world, scenario, lets, gated, i);
        ReleasedSplits(world, lets, gated, scenario.positives[i]);
        UnreleasedMeans(world, lets, gated, scenario.positives[i]);
        ActsSplit(did, performed);
      } else {
        FiredOnce(did, gated, scenario.positives[i]);
      }
    }

    /** The tokens of a line behind a live run resolve. */
    lemma BehindResolves(i: nat)
      requires mode.Live? && Ready() && i + 1 == behind <= |scenario.positives|
      ensures LineTokens(world, lets, scenario.positives[i]).Some?
    {
      if scenario.positives[i].Log? {
        LastMark(world, scenario, Look(), snapshot, Ledger(), true, tick);
        MarkResolves(world, scenario, Look(), behind, tick, |marks| - 1);
      }
    }

    /** The close: the remaining entries are typed, and one more read is checked. */
    method Close() returns (out: Outcome)
      requires mode.Live? && Ready() && Growing(world) && Linted(scenario) && behind == |scenario.positives|
      modifies `tick, `clock, `lets, `readAt, `polled, reader
      ensures Ready() && PolledFor(old(polled), polled, |scenario.positives|, |polled| - |old(polled)|)
      ensures out.Pass? ==> Polled(Ledger(), |scenario.positives|) && |polled| > |old(polled)|
      ensures out.Pass? ==> Sound(world, scenario, Look(), snapshot, Ledger(), tick) && recorded == []
      ensures out.Pass? ==> reader.lines == CompleteLines(world.text(readAt)) && tick == readAt + 1
      ensures !out.Pass? ==> Honest(out)
    {
      hide Ready, UsesRunAfter, AllCleared, Linted, Sound, HitAt, KeyboardGone, CheckRefused;
      var ok := Capture(scenario.operators);
      if !ok { return NoKeyboard(AtClose); }
      ReadTurn();
      var check := CheckForbidden();
      if check.Hit? { return Failed(ForbiddenHit(check.which, check.line)); }
      if check.Unresolved? { return RefusedRun(Unbound, InCheck(check.which)); }
      if recorded != [] { return Failed(OnTheRecord); }
      IsSound();
      out := Pass;
    }

    lemma IsSound()
      requires mode.Live? && Ready() && Linted(scenario) && behind == |scenario.positives|
      requires recorded == [] && AllCleared(world, scenario, Look())
      ensures Sound(world, scenario, Look(), snapshot, Ledger(), tick)
    {
      hide Established, AllCleared, Linted, Sound, TypedIn, Windowed, Pinned;
      PassIsSound(world, scenario, Look(), snapshot, Ledger(), tick);
    }

    /** One positive of the live run: what it needs is typed, it is polled, and the acts it releases are done. */
    method LiveStep(gated: seq<Gated>, i: nat) returns (remaining: seq<Gated>, stop: Option<Outcome>)
      requires mode.Live? && Ready() && Linted(scenario) && Growing(world) && i == behind < |scenario.positives|
      requires StillWaiting(world, scenario, lets, gated, i) && forall g :: g in gated ==> g in scenario.gated
      modifies this, reader
      ensures Ready()
      ensures stop.Some? ==>
        Honest(stop.value) && multiset(ActsOf(performed)) <= old(multiset(ActsOf(performed))) + multiset(gated)
      ensures stop.None? ==> behind == i + 1 && StillWaiting(world, scenario, lets, remaining, i + 1)
      ensures stop.None? ==>
        multiset(ActsOf(performed)) + multiset(remaining) == old(multiset(ActsOf(performed))) + multiset(gated)
      ensures stop.None? ==> forall g :: g in remaining ==> g in gated
      ensures exists n :: 0 <= n <= MostPolls(scenario.positives[i]) && PolledFor(old(polled), polled, i, n)
      ensures stop.None? ==> |polled| > |old(polled)|
      ensures KeepsPin(old(snapshotAttempted), old(snapshot))
    {
      hide Ready, Linted, Honest, MostPolls, StillWaiting, UsesRunAfter, LineTyped, LineTokens, Extends, ActsOf;
      ghost var before := lets;
      remaining := gated;
      stop := Prepare(i);
      if stop.Some? {
        assert PolledFor(old(polled), polled, i, 0);
        return;
      }
      StillWaitingExtends(world, scenario, before, lets, gated, i);
      stop := PollLine(i);
      ghost var n :| 1 <= n <= MostPolls(scenario.positives[i]) && PolledFor(old(polled), polled, i, n);
      if stop.None? {
        BehindResolves(i);
        remaining, stop := Release(gated, i);
      }
      assert PolledFor(old(polled), polled, i, n);
    }

    /** With every positive behind the run no act is left. */
    lemma NothingLeft(gated: seq<Gated>)
      requires mode.Live? && Ready() && Linted(scenario) && behind == |scenario.positives|
      requires StillWaiting(world, scenario, lets, gated, |scenario.positives|)
      requires forall g :: g in gated ==> g in scenario.gated
      ensures gated == []
    {
      AllShown(world, scenario, Look(), snapshot, Ledger(), true, tick);
      NoActIsLeft(world, scenario, Look(), gated);
    }

    /** The whole live run. Whatever the verdict, every step's promises hold at its end: no act was
        done before its line was satisfied or twice, no positive was polled past its bound, every let
        was given or typed, and a pinned snapshot stays. PASS is sound for the log as last read and
        did every gated act; any other verdict says what it saw, of the positive it was at. */
    method RunEvidence() returns (out: Outcome)
      requires mode.Live? && Ready() && Linted(scenario) && Growing(world) && behind == 0
      modifies this, reader
      ensures Ready()
      ensures out.Pass? ==> Sound(world, scenario, Look(), snapshot, Ledger(), tick) && recorded == []
      ensures out.Pass? ==> behind == |scenario.positives|
      ensures out.Pass? ==> reader.lines == CompleteLines(world.text(readAt)) && tick == readAt + 1
      ensures out.Pass? ==> multiset(ActsOf(performed)) == old(multiset(ActsOf(performed))) + multiset(scenario.gated)
      ensures !out.Pass? ==> Honest(out)
      ensures multiset(ActsOf(performed)) <= old(multiset(ActsOf(performed))) + multiset(scenario.gated)
      ensures WithinPolls(scenario, old(polled), polled, if out.Pass? then |scenario.positives| else 0)
      ensures out.Pass? ==> Polled(Ledger(), |scenario.positives|)
      ensures KeepsPin(old(snapshotAttempted), old(snapshot))
    {
      hide Ready, UsesRunAfter, Linted, Honest, Sound, MostPolls, StillWaiting, WithinPolls, Unpolled, PolledFor;
      var gated := scenario.gated;
      NobodyReleased(world, scenario, lets, gated);
      NothingPolled(scenario, polled);
      for i := 0 to |scenario.positives|
        invariant Ready() && behind == i && KeepsPin(old(snapshotAttempted), old(snapshot))
        invariant WithinPolls(scenario, old(polled), polled, i) && Unpolled(scenario, old(polled), polled, i)
        invariant multiset(ActsOf(performed)) + multiset(gated)
          == old(multiset(ActsOf(performed))) + multiset(scenario.gated)
        invariant StillWaiting(world, scenario, lets, gated, i) && forall g :: g in gated ==> g in scenario.gated
      {
        ghost var sofar := polled;
        var stop;
        gated, stop := LiveStep(gated, i);
        WithinPollsOneMore(scenario, old(polled), sofar, polled, i);
        if stop.Some? {
          HonestIsNoPass(stop.value);
          return stop.value;
        }
      }
      ghost var sofar := polled;
      NothingLeft(gated);
      out := Close();
      WithinPollsClosed(scenario, old(polled), sofar, polled);
    }

    /** The ungated acts, or the bare start of the window, stamp the markers before the evidence. */
    method Stimulate()
      requires Pinned() && !snapshotAttempted
      modifies `tick, `clock, `snapshot, `snapshotAttempted, `firstSnapshot
      ensures Pinned() && tick >= old(tick)
      ensures Surfaced() && UsesRunAfter(scenario.positives) ==>
        snapshotAttempted && snapshot == RunIds(world.body(old(tick)))
      ensures !Surfaced() ==> !snapshotAttempted && snapshot == old(snapshot)
    {
      hide UsesRunAfter, UsesConfirmedRun;
      var stamps := if scenario.immediate == 0 then 1 else scenario.immediate;
      for k := 0 to stamps
        invariant Pinned() && tick >= old(tick)
        invariant k == 0 ==> tick == old(tick) && !snapshotAttempted
        invariant k > 0 && Surfaced() && UsesRunAfter(scenario.positives) ==>
          snapshotAttempted && snapshot == RunIds(world.body(old(tick)))
        invariant !Surfaced() ==> !snapshotAttempted && snapshot == old(snapshot)
      {
        if NeedsSnapshot() { SnapshotRuns(); }
      }
    }

    // -------------------------------------------------------------- against a captured log

    /** An api line against its scripted responses, until one decides or all are used. */
    method EvalScripted(p: Positive, responses: nat, ghost line: nat) returns (state: ApiState, found: seq<Bound>)
      requires p.Api? && responses > 0
      modifies `tick, `clock, `asked
      ensures var s := ScriptedStep(world, Look(), snapshot, p, responses, old(tick));
        state == s.state && tick == s.tick && (state.Fine? ==> found == s.found)
      ensures old(asked) < asked && |asked| <= |old(asked)| + responses
      ensures asked[|asked| - 1] == Ask(line, LastBegun(world, Look(), snapshot, p, responses, old(tick)))
      ensures forall k :: |old(asked)| <= k < |asked| ==> asked[k].line == line
      ensures tick >= old(tick) && clock >= old(clock)
    {
      hide ApiStep;
      var left := responses;
      while true
        invariant left > 0 && tick >= old(tick) && clock >= old(clock)
        invariant old(asked) <= asked && |asked| + left == |old(asked)| + responses
        invariant forall k :: |old(asked)| <= k < |asked| ==> asked[k].line == line
        invariant ScriptedStep(world, Look(), snapshot, p, responses, old(tick))
          == ScriptedStep(world, Look(), snapshot, p, left, tick)
        invariant LastBegun(world, Look(), snapshot, p, responses, old(tick))
          == LastBegun(world, Look(), snapshot, p, left, tick)
        decreases left
      {
        state, found := EvalApiLine(p, line);
        if !state.NotYet? || left == 1 { return; }
        left := left - 1;
      }
    }

    /** The scripted evaluations of the api positive in turn. */
    method AskScripted(i: nat, responses: nat) returns (state: ApiState, found: seq<Bound>)
      requires Ready() && mode == Dry(true) && i == behind < |scenario.positives|
      requires scenario.positives[i].Api? && responses > 0
      modifies `tick, `clock, `asked
      ensures var s := ScriptedStep(world, Look(), snapshot, scenario.positives[i], responses, old(tick));
        && state == s.state && (state.Fine? ==> found == s.found) && Ready()
        && |asked| > 0 && asked[|asked| - 1].line == i
        && Judged(world, scenario, Look(), snapshot, asked[|asked| - 1]) == s
    {
      hide UsesRunAfter, ScriptedStep, DryEstablished, TypedIn, ApiStep, Extends, LastBegun;
      ghost var start, b := tick, Ledger();
      state, found := EvalScripted(scenario.positives[i], responses, i);
      DryKept(world, scenario, Look(), snapshot, snapshot, b, Ledger(), true, failed, start, tick);
      TypedLater(lets, start, tick);
    }

    /** A scripted answer that is ok: its runs are banked. */
    method BankDry(i: nat, found: seq<Bound>)
      requires Ready() && mode == Dry(true) && i == behind < |scenario.positives| && scenario.positives[i].Api?
      requires |asked| > 0 && asked[|asked| - 1].line == i
      requires var s := Judged(world, scenario, Look(), snapshot, asked[|asked| - 1]); s.state.Fine? && found == s.found
      modifies `captures, `behind
      ensures captures == old(captures) + found && behind == i + 1 && Ready()
    {
      hide UsesRunAfter, DryEstablished, TypedIn, Judged;
      DryAnswered(world, scenario, Look(), snapshot, Ledger(), failed, tick, asked[|asked| - 1]);
      captures, behind := captures + found, behind + 1;
    }

    /** One that goes on record. */
    method RecordDry(i: nat)
      requires Ready() && mode == Dry(true) && i == behind < |scenario.positives| && scenario.positives[i].Api?
      requires |asked| > 0 && asked[|asked| - 1].line == i
      requires OnTheBooks(scenario.positives[i], Judged(world, scenario, Look(), snapshot, asked[|asked| - 1]))
      modifies `recorded, `behind
      ensures recorded == old(recorded) + [i] && behind == i + 1 && Ready()
    {
      hide UsesRunAfter, DryEstablished, TypedIn, Judged;
      DryRecorded(world, scenario, Look(), snapshot, Ledger(), failed, tick, asked[|asked| - 1]);
      recorded, behind := recorded + [i], behind + 1;
    }

    /** The positive in turn failed; the first one that did is kept. */
    method Fail(i: nat)
      requires Ready() && mode.Dry? && i == behind < |scenario.positives|
      requires failed.None? ==> FixtureFailure(world, scenario, Look(), snapshot, asked, i)
      modifies `failed, `behind
      ensures failed == First(old(failed), true, i) && behind == i + 1 && Ready()
    {
      hide UsesRunAfter, DryEstablished, TypedIn, FixtureFailure;
      DryFails(world, scenario, Look(), snapshot, Ledger(), mode.scripted, failed, tick);
      failed, behind := First(failed, true, i), behind + 1;
    }

    /** What the scripted responses of an api line lead to. */
    method PollScripted(i: nat, responses: nat) returns (failure: bool, stop: Option<Outcome>)
      requires Ready() && mode == Dry(true) && i == behind < |scenario.positives|
      requires scenario.positives[i].Api? && responses > 0
      modifies `tick, `clock, `captures, `recorded, `asked, `behind, `failed
      ensures var p := scenario.positives[i]; var s := ScriptedStep(world, Look(), snapshot, p, responses, old(tick));
        && stop == (if s.state.Declined? then Some(RefusedRun(s.state.why, InLine(i))) else None)
        && (failure <==> Fails(p, s))
        && captures == old(captures) + (if s.state.Fine? then s.found else [])
        && recorded == old(recorded) + (if OnTheBooks(p, s) then [i] else [])
      ensures Ready() && behind == i + (if stop.None? then 1 else 0) && failed == First(old(failed), failure, i)
      ensures stop.Some? ==> Honest(stop.value)
    {
      hide ScriptedStep, Ready, Judged;
      var p := scenario.positives[i];
      var state, found := AskScripted(i, responses);
      ghost var a := asked[|asked| - 1];
      assert captures + [] == captures && recorded + [] == recorded;
      failure, stop := state.Wrong? || (state.NotYet? && !p.records), None;
      if state.Declined? {
        stop := Some(RefusedRun(state.why, InLine(i)));
        assert RefusedBy(world, scenario, Look(), snapshot, a, state.why, i);
      } else if failure {
        assert a in asked && FailedBy(world, scenario, Look(), snapshot, a, i);
        Fail(i);
      } else if state.Fine? {
        BankDry(i, found);
      } else {
        RecordDry(i);
      }
    }

    /** Without responses an api line is only planned. */
    method Plan(i: nat)
      requires Ready() && mode == Dry(false) && i == behind < |scenario.positives| && scenario.positives[i].Api?
      modifies `behind
      ensures Ready() && behind == i + 1
    {
      hide UsesRunAfter, DryEstablished, TypedIn;
      DryPlans(world, scenario, Look(), snapshot, Ledger(), failed, tick);
      behind := behind + 1;
    }

    /** An api line of a fixture run: planned without responses; skipped when an anchor that a failed
        line left unobserved is its own; else polled. */
    method DryApi(i: nat, responses: nat) returns (failure: bool, stop: Option<Outcome>)
      requires Ready() && mode.Dry? && i == behind < |scenario.positives|
      requires scenario.positives[i].Api? && responses > 0
      modifies `tick, `clock, `captures, `recorded, `asked, `behind, `failed
      ensures var p := scenario.positives[i];
        if !mode.scripted then !failure
        else if old(failed).Some? && exists a :: a in p.asserts && Unmatched(world, Look(), a) then stop.None? ==> failure
        else stop.None? ==> (failure <==> Fails(p, ScriptedStep(world, Look(), snapshot, p, responses, old(tick))))
      ensures Ready() && behind == i + (if stop.None? then 1 else 0) && failed == First(old(failed), failure, i)
      ensures stop.Some? ==> Honest(stop.value)
    {
      hide Ready, UsesRunAfter, Token, ScriptedStep, Fails;
      var p := scenario.positives[i];
      failure, stop := false, None;
      if mode == Dry(false) {
        if exists name :: name in p.letNames && name !in lets {
          return false, Some(RefusedRun(Unbound, InLine(i)));
        }
        Plan(i);
        return;
      }
      if failed.Some? {
        if exists a :: a in p.asserts && a.NewRunAfter? && Token(world, lets, a.anchor).None? {
          return false, Some(RefusedRun(Unbound, InLine(i)));
        }
        if exists a :: a in p.asserts && a.NewRunAfter? && Token(world, lets, a.anchor).value !in satisfiedAtUtc {
          assert exists a :: a in p.asserts && Unmatched(world, Look(), a);
          Fail(i);
          return true, None;
        }
      }
      failure, stop := PollScripted(i, responses);
    }

    /** The log positive in turn of a fixture run, evaluated. */
    method StampDry(i: nat) returns (v: LogVerdict)
      requires Ready() && mode.Dry? && i == behind < |scenario.positives| && scenario.positives[i].Log?
      requires LintedLine(scenario.positives, i) && scenario.positives[i].count >= 1
      modifies `tick, `clock, `satisfiedAtIndex, `satisfiedAtUtc, `seenAt, `marks, `behind
      ensures v == LogVerdictOf(world, lets, reader.lines, scenario.positives[i]) && Ready()
      ensures v.Satisfied? ==>
        behind == i + 1 && Stamped(world, old(Look()), i, scenario.positives[i], Look(), old(tick), tick)
      ensures !v.Satisfied? ==> behind == i && Look() == old(Look()) && tick == old(tick)
    {
      hide UsesRunAfter, DryEstablished, TypedIn, Stamped, LogVerdictOf, LintedLine, Extends;
      ghost var seen, t := Look(), tick;
      BehindInRange(world, scenario, mode, Look(), snapshot, Ledger(), failed, tick);
      v := EvalLogLine(scenario.positives[i], i);
      if v.Satisfied? {
        DryStamped(world, scenario, seen, Look(), snapshot, Ledger(), mode.scripted, failed, t, tick);
        StampedMark(world, seen, i, scenario.positives[i], Look(), t, tick);
        TypedLater(lets, t, tick);
        behind := behind + 1;
      }
    }

    /** A log line of a fixture run. */
    method DryLog(i: nat) returns (failure: bool, stop: Option<Outcome>)
      requires Ready() && mode.Dry? && Linted(scenario) && i == behind < |scenario.positives|
      requires scenario.positives[i].Log?
      modifies `tick, `clock, `satisfiedAtIndex, `satisfiedAtUtc, `seenAt, `marks, `behind, `failed
      ensures scenario.positives[i].count >= 1
      ensures var v := LogVerdictOf(world, lets, reader.lines, scenario.positives[i]);
        && stop == (if v.Refused? then Some(RefusedRun(v.why, InLine(i))) else None)
        && (failure <==> v.Waiting?)
        && (v.Satisfied? ==> Stamped(world, old(Look()), i, scenario.positives[i], Look(), old(tick), tick))
      ensures Ready() && behind == i + (if stop.None? then 1 else 0) && failed == First(old(failed), failure, i)
      ensures stop.Some? ==> Honest(stop.value)
      ensures stop.None? ==> LineTokens(world, lets, scenario.positives[i]).Some?
    {
      hide Ready, Stamped, LogVerdictOf, Linted, LintedLine, LineTokens;
      LintedEach(scenario, i);
      var v := StampDry(i);
      failure, stop := v.Waiting?, None;
      if v.Refused? {
        stop := Some(RefusedRun(v.why, InLine(i)));
      } else {
        VerdictResolves(world, lets, reader.lines, scenario.positives[i]);
        if v.Waiting? { Fail(i); }
      }
    }

    /** The one read of a fixture, its unterminated tail included. */
    method ReadFixture()
      requires Ready() && mode.Dry? && Growing(world) && Windowed() && behind == 0 && failed.None?
      modifies `tick, `clock, `readAt, `polled, reader
      ensures Ready() && reader.lines == AllLines(world.text(readAt)) && readAt == old(tick)
    {
      hide DryEstablished, UsesRunAfter, TypedIn, Extends;
      ghost var before, b, t := Look(), Ledger(), tick;
      ReadWindow();
      ghost var complete := reader.lines;
      reader.Flush();
      FlushOnlyAdds(complete, reader.text, reader.lines);
      DryGrows(world, scenario, before, Look(), snapshot, b, mode.scripted, t, tick);
      DryKept(world, scenario, Look(), snapshot, snapshot, b, Ledger(), mode.scripted, failed, tick, tick);
      TypedLater(lets, t, tick);
    }

    /** One positive of a fixture run, then the acts a log line releases, whether it passed or not. */
    method DryStep(gated: seq<Gated>, i: nat, responses: nat) returns (remaining: seq<Gated>, stop: Option<Outcome>)
      requires Ready() && mode.Dry? && Linted(scenario) && i == behind < |scenario.positives| && responses > 0
      requires StillWaiting(world, scenario, lets, gated, i) && forall g :: g in gated ==> g in scenario.gated
      modifies `tick, `clock, `satisfiedAtIndex, `satisfiedAtUtc, `seenAt, `marks, `captures, `recorded, `asked
      modifies `behind, `failed, `lets, `snapshot, `snapshotAttempted, `firstSnapshot, `performed
      ensures Ready() && KeepsPin(old(snapshotAttempted), old(snapshot))
      ensures stop.Some? ==>
        Honest(stop.value) && multiset(ActsOf(performed)) <= old(multiset(ActsOf(performed))) + multiset(gated)
      ensures stop.None? ==> behind == i + 1 && StillWaiting(world, scenario, lets, remaining, i + 1)
      ensures stop.None? ==>
        multiset(ActsOf(performed)) + multiset(remaining) == old(multiset(ActsOf(performed))) + multiset(gated)
      ensures stop.None? ==> forall g :: g in remaining ==> g in gated
    {
      hide Ready, StillWaiting, UsesRunAfter, Linted, LogVerdictOf, ScriptedStep, Unmatched, Honest, LineTokens, Stamped;
      remaining := gated;
      var failure;
      if scenario.positives[i].Api? {
        failure, stop := DryApi(i, responses);
        StillWaitingApi(world, scenario, lets, gated, i);
      } else {
        failure, stop := DryLog(i);
        if stop.None? {
          remaining, stop := Release(gated, i);
        }
      }
    }

    /** The close of a fixture run: the forbidden lines, then the first failure, then what is on record. */
    method CloseDry() returns (out: Outcome)
      requires Ready() && mode.Dry? && Linted(scenario) && behind == |scenario.positives|
      ensures out.Pass? ==> failed.None? && recorded == []
      ensures out.Pass? ==> DrySound(world, scenario, Look(), snapshot, Ledger(), mode.scripted, tick)
      ensures !out.Pass? ==> Honest(out)
    {
      hide DryEstablished, UsesRunAfter, AllCleared, DrySound, HitAt, CheckRefused, TypedIn;
      var check := CheckForbidden();
      if check.Hit? { return Failed(ForbiddenHit(check.which, check.line)); }
      if check.Unresolved? { return RefusedRun(Unbound, InCheck(check.which)); }
      if failed.Some? { return Failed(FixtureLine(failed.value)); }
      if recorded != [] { return Failed(OnTheRecord); }
      DryPassIsSound(world, scenario, Look(), snapshot, Ledger(), mode.scripted, tick);
      out := Pass;
    }

    lemma NothingLeftDry(gated: seq<Gated>)
      requires mode.Dry? && Ready() && Linted(scenario) && behind == |scenario.positives| && failed.None?
      requires StillWaiting(world, scenario, lets, gated, |scenario.positives|)
      requires forall g :: g in gated ==> g in scenario.gated
      ensures gated == []
    {
      DryShown(world, scenario, Look(), snapshot, Ledger(), mode.scripted, tick);
      NoActIsLeft(world, scenario, Look(), gated);
    }

    /** A run against a captured log: one read, every positive once, then the forbidden lines. PASS
        did every gated act exactly once; a failure over a line names the first one that failed. */
    method RunEvidenceDry(responses: seq<nat>) returns (out: Outcome)
      requires Ready() && mode.Dry? && Linted(scenario) && Growing(world) && Windowed() && behind == 0 && failed.None?
      requires |responses| == |scenario.positives| && forall k :: 0 <= k < |responses| ==> responses[k] > 0
      modifies this, reader
      ensures Ready()
      ensures out.Pass? ==> DrySound(world, scenario, Look(), snapshot, Ledger(), mode.scripted, tick) && recorded == []
      ensures out.Pass? ==> failed.None? && behind == |scenario.positives|
      ensures out.Pass? ==> multiset(ActsOf(performed)) == old(multiset(ActsOf(performed))) + multiset(scenario.gated)
      ensures !out.Pass? ==> Honest(out)
      ensures reader.lines == AllLines(world.text(readAt)) && readAt == old(tick)
      ensures multiset(ActsOf(performed)) <= old(multiset(ActsOf(performed))) + multiset(scenario.gated)
      ensures KeepsPin(old(snapshotAttempted), old(snapshot))
    {
      hide Ready, StillWaiting, UsesRunAfter, Linted, DrySound, Honest, Windowed;
      ReadFixture();
      NobodyReleased(world, scenario, lets, scenario.gated);
      var gated := scenario.gated;
      for i := 0 to |scenario.positives|
        invariant Ready() && behind == i && reader.lines == AllLines(world.text(readAt)) && readAt == old(tick)
        invariant KeepsPin(old(snapshotAttempted), old(snapshot))
        invariant multiset(ActsOf(performed)) + multiset(gated)
          == old(multiset(ActsOf(performed))) + multiset(scenario.gated)
        invariant StillWaiting(world, scenario, lets, gated, i) && forall g :: g in gated ==> g in scenario.gated
      {
        var stop;
        gated, stop := DryStep(gated, i, responses[i]);
        if stop.Some? {
          HonestIsNoPass(stop.value);
          return stop.value;
        }
      }
      out := CloseDry();
      if out.Pass? {
        NothingLeftDry(gated);
      }
    }

    /** A run that has read and done nothing is ready. */
    lemma StartsReady()
      requires Windowed() && Pinned() && lets == given && failed.None?
      requires Look() == View([], given, map[], map[], map[], []) && Ledger() == Books([], [], [], [], [], 0)
      requires Surfaced() && UsesRunAfter(scenario.positives) ==> snapshotAttempted
      ensures Ready()
    {
      hide UsesRunAfter, DryEstablished, Established;
      StartsEstablished(world, scenario, Look(), snapshot, Ledger(), tick);
      StartsDry(world, scenario, Look(), snapshot, Ledger(), mode == Dry(true), tick);
      ExtendsSame(given);
    }

    /** What is proved against the snapshot is proved against the read it was pinned to. */
    lemma Repinned(first: Known)
      requires Ready() && Linted(scenario) && recorded == [] && behind == |scenario.positives|
      requires Surfaced() && (mode.Dry? ==> failed.None?)
      requires UsesRunAfter(scenario.positives) ==> snapshot == first
      ensures Proven(world, scenario, Look(), first, Ledger(), true, tick)
    {
      hide Base, BooksHold, Proven, Linted, UsesRunAfter, Guarded, ReadsHold, FixtureFailure, TypedIn;
      ProvenRepinned(world, scenario, Look(), snapshot, first, Ledger(), true, tick);
    }

  }

  lemma DryExplainedIsNoPass(
    w: World, s: Scenario, v: View, known: Known, b: Books, scripted: bool, failed: Option<nat>, out: Outcome)
    requires DryExplained(w, s, v, known, b, scripted, failed, out)
    ensures !out.Pass?
  {
  }

  lemma GrownTwice(a: View, b: View, c: View)
    requires Grown(a, b) && Grown(b, c)
    ensures Grown(a, c)
  {
  }

  lemma ActsOneMore(before: seq<Done>, did: seq<Done>, now: seq<Done>)
    requires before <= did <= now && |now| == |did| + 1
    ensures ActsOf(now[|before|..]) == ActsOf(did[|before|..]) + [now[|did|].act]
  {
    assert now[|before|..] == did[|before|..] + [now[|did|]];
  }

  lemma AllTyped(asked: seq<string>, lets: Lets, g: Gated)
    requires forall n :: n in g.letNames && n in asked ==> n in lets
    ensures EntriesTyped(asked, lets, g)
  {
  }

  lemma ActsSplit(before: seq<Done>, now: seq<Done>)
    requires before <= now
    ensures multiset(ActsOf(now)) == multiset(ActsOf(before)) + multiset(ActsOf(now[|before|..]))
  {
    assert ActsOf(now) == ActsOf(before) + ActsOf(now[|before|..]);
  }

  lemma NotCleared(w: World, s: Scenario, v: View, k: nat)
    requires CheckRefused(w, s, v, k)
    ensures !AllCleared(w, s, v)
  {
    hide Resolves;
    assert s.forbidden[k] in s.forbidden;
  }

  lemma MarkResolves(w: World, s: Scenario, v: View, n: nat, tick: nat, k: nat)
    requires Base(w, s, v, n, tick) && k < |v.marks|
    ensures LineTokens(w, v.lets, v.marks[k].p).Some?
  {
    hide Indexed, Observed;
    assert v.marks[k] in v.marks;
    MarkTokens(w, v, v.marks[k]);
  }

  /** A poll at the start, one per interval, and one past the deadline. */
  function MostPolls(p: Positive): nat {
    if p.Api? then p.within + 2 else 2 * p.within + 2
  }

  lemma LintedEach(s: Scenario, i: nat)
    requires Linted(s) && i < |s.positives|
    ensures LintedLine(s.positives, i) && (s.positives[i].Log? ==> s.positives[i].count >= 1)
  {
    assert LintedLine(s.positives, i);
  }

  // ---------------------------------------------------------------- how often each positive is polled

  /** Every read since `before` was for positive `i`, and there were `n` of them. */
  ghost predicate PolledFor(before: seq<Read>, after: seq<Read>, i: nat, n: int) {
    && before <= after && |after| == |before| + n
    && (forall k :: |before| <= k < |after| ==> after[k].line == i)
  }

  /** How often a positive was polled. */
  function Polls(polled: seq<Read>, j: nat): nat {
    if |polled| == 0 then 0
    else Polls(polled[..|polled| - 1], j) + if polled[|polled| - 1].line == j then 1 else 0
  }

  /** Since `before` no positive was polled more often than its deadline allows, and each of
      the first `n` was at least once. */
  ghost predicate WithinPolls(s: Scenario, before: seq<Read>, after: seq<Read>, n: nat) {
    && n <= |s.positives|
    && (forall j :: 0 <= j < |s.positives| ==> Polls(after, j) <= Polls(before, j) + MostPolls(s.positives[j]))
    && (forall j :: 0 <= j < n ==> Polls(after, j) > Polls(before, j))
  }

  ghost predicate Unpolled(s: Scenario, before: seq<Read>, after: seq<Read>, n: nat) {
    forall j :: n <= j < |s.positives| ==> Polls(after, j) == Polls(before, j)
  }

  lemma {:induction false} PolledCounts(before: seq<Read>, after: seq<Read>, i: nat, n: int)
    requires PolledFor(before, after, i, n)
    ensures forall j: nat :: Polls(after, j) == Polls(before, j) + if j == i then n else 0
    decreases |after|
  {
    if |after| > |before| {
      PolledCounts(before, after[..|after| - 1], i, n - 1);
    } else {
      assert after == before;
    }
  }

  lemma NoPoll(polled: seq<Read>, i: nat)
    ensures PolledFor(polled, polled, i, 0)
  {
  }

  lemma PollCounted(before: seq<Read>, after: seq<Read>, i: nat, n: int, r: Read)
    requires PolledFor(before, after, i, n) && r.line == i
    ensures PolledFor(before, after + [r], i, n + 1)
  {
  }

  lemma NothingPolled(s: Scenario, polled: seq<Read>)
    ensures WithinPolls(s, polled, polled, 0) && Unpolled(s, polled, polled, 0)
  {
  }

  lemma WithinPollsOneMore(s: Scenario, before: seq<Read>, sofar: seq<Read>, after: seq<Read>, i: nat)
    requires i < |s.positives| && WithinPolls(s, before, sofar, i) && Unpolled(s, before, sofar, i)
    requires exists n :: 0 <= n <= MostPolls(s.positives[i]) && PolledFor(sofar, after, i, n)
    ensures WithinPolls(s, before, after, 0) && Unpolled(s, before, after, i + 1)
    ensures |after| > |sofar| ==> WithinPolls(s, before, after, i + 1)
  {
    hide MostPolls, Polls;
    var n :| 0 <= n <= MostPolls(s.positives[i]) && PolledFor(sofar, after, i, n);
    PolledCounts(sofar, after, i, n);
  }

  lemma WithinPollsClosed(s: Scenario, before: seq<Read>, sofar: seq<Read>, after: seq<Read>)
    requires WithinPolls(s, before, sofar, |s.positives|)
    requires PolledFor(sofar, after, |s.positives|, |after| - |sofar|)
    ensures WithinPolls(s, before, after, |s.positives|) && WithinPolls(s, before, after, 0)
  {
    hide MostPolls, Polls;
    PolledCounts(sofar, after, |s.positives|, |after| - |sofar|);
  }

  lemma FlushOnlyAdds(lines: seq<string>, text: string, flushed: seq<string>)
    requires lines == CompleteLines(text) && flushed == AllLines(text)
    ensures lines <= flushed
  {
  }

  lemma StillWaitingApi(w: World, s: Scenario, lets: Lets, gated: seq<Gated>, n: nat)
    requires n < |s.positives| && s.positives[n].Api? && StillWaiting(w, s, lets, gated, n)
    ensures StillWaiting(w, s, lets, gated, n + 1)
  {
    hide Waits;
  }

  lemma VerdictResolves(w: World, lets: Lets, lines: seq<string>, p: Positive)
    requires p.Log? && p.count >= 1 && !LogVerdictOf(w, lets, lines, p).Refused?
    ensures LineTokens(w, lets, p).Some?
  {
  }

  // ---------------------------------------------------------------- whole scenarios

  /** A scenario from its start, live: every run the asserts banked is absent from the read of the
      runs at the first marker. */
  method RunScenario(scenario: Scenario, world: World, given: Lets) returns (run: ScenarioRun, out: Outcome)
    requires Linted(scenario) && Growing(world)
    ensures run.mode == Live && run.scenario == scenario && run.world == world && run.given == given && run.Ready()
    ensures out.Pass? ==>
      && Sound(world, scenario, run.Look(), run.snapshot, run.Ledger(), run.tick) && run.recorded == []
      && Proven(world, scenario, run.Look(), RunIds(world.body(0)), run.Ledger(), true, run.tick)
    ensures out.Pass? ==> run.reader.lines == CompleteLines(world.text(run.readAt)) && run.tick == run.readAt + 1
    ensures out.Pass? ==> multiset(ActsOf(run.performed)) == multiset(scenario.gated)
    ensures !out.Pass? ==> run.Honest(out)
    ensures multiset(ActsOf(run.performed)) <= multiset(scenario.gated)
    ensures WithinPolls(scenario, [], run.polled, if out.Pass? then |scenario.positives| else 0)
  {
    hide UsesRunAfter, Linted, Sound, Proven, Explained, WithinPolls;
    run := new ScenarioRun(scenario, world, Live, given);
    run.Stimulate();
    run.StartsReady();
    hide ScenarioRun.Ready;
    out := run.RunEvidence();
    if out.Pass? {
      run.Repinned(RunIds(world.body(0)));
    }
  }

  /** The same scenario against a captured log, with or without scripted responses. */
  method RunFixture(scenario: Scenario, world: World, scripted: bool, given: Lets, responses: seq<nat>)
    returns (run: ScenarioRun, out: Outcome)
    requires Linted(scenario) && Growing(world)
    requires |responses| == |scenario.positives| && forall k :: 0 <= k < |responses| ==> responses[k] > 0
    ensures run.mode == Dry(scripted) && run.scenario == scenario && run.world == world && run.given == given
    ensures run.Ready() && run.reader.lines == AllLines(world.text(run.readAt))
    ensures out.Pass? ==>
      && DrySound(world, scenario, run.Look(), run.snapshot, run.Ledger(), scripted, run.tick) && run.recorded == []
      && (scripted ==> Proven(world, scenario, run.Look(), RunIds(world.body(0)), run.Ledger(), true, run.tick))
    ensures out.Pass? ==> multiset(ActsOf(run.performed)) == multiset(scenario.gated)
    ensures !out.Pass? ==> run.Honest(out)
    ensures multiset(ActsOf(run.performed)) <= multiset(scenario.gated)
  {
    hide UsesRunAfter, Linted, DrySound, Proven, DryExplained;
    run := new ScenarioRun(scenario, world, Dry(scripted), given);
    run.Stimulate();
    run.StartsReady();
    hide ScenarioRun.Ready;
    out := run.RunEvidenceDry(responses);
    if out.Pass? && scripted {
      run.Repinned(RunIds(world.body(0)));
    }
  }
}
