/** `build_runs`: every terminal run record finds its automation run. */
module Runs {
  import opened Events
  import opened Logs
  import opened Options

  datatype Run = Run(runId: Option<Id>, triggered: Option<Event>, terminals: seq<Event>)

  /** Runs by key in first-seen order; terminal records carried in inside the start
      grace (kept nowhere) and after it (kept under a carried run). */
  datatype RunBook = RunBook(order: seq<Option<Id>>, runs: map<Option<Id>, Run>,
                             carriedInGrace: seq<Event>, carriedLater: seq<Event>)

  const EMPTY_RUNS := RunBook([], map[], [], [])

  predicate IsRunTerminal(e: Event) { e.kind.AutomationCompleted? || e.kind.AutomationRunCancelled? }

  predicate IsTrigger(e: Event) { e.kind.AutomationTriggered? }

  function RunIdOf(e: Event): Option<Id> { if IsOpaque(e) then None else e.payload.runId }

  function TerminalKey(e: Event): Option<Id> {
    if e.kind.AutomationCompleted? then RunIdOf(e)
    else if IsOpaque(e) then None else e.payload.cancelledRunId
  }

  /** `"carried:" + str(key)`. */
  function CarriedKey(key: Option<Id>): Option<Id> {
    Some("carried:" + if key.None? then "None" else key.value)
  }

  ghost predicate RunsOk(b: RunBook) {
    && (forall k :: k in b.order <==> k in b.runs)
    && (forall i, j :: 0 <= i < j < |b.order| ==> b.order[i] != b.order[j])
  }

  function OpenRun(b: RunBook, e: Event): (r: RunBook)
    requires RunsOk(b)
    ensures RunsOk(r)
  {
    if !IsTrigger(e) then b
    else
      var key := RunIdOf(e);
      b.(order := if key in b.runs then b.order else b.order + [key],
         runs := b.runs[key := Run(key, Some(e), [])])
  }

  function OpenRuns(b: RunBook, events: seq<Event>): (r: RunBook)
    requires RunsOk(b)
    ensures RunsOk(r)
    decreases |events|
  {
    if |events| == 0 then b else OpenRuns(OpenRun(b, events[0]), events[1..])
  }

  function CloseRun(b: RunBook, e: Event, fromUs: int, graceUs: int): (r: RunBook)
    requires RunsOk(b)
    ensures RunsOk(r)
  {
    if !IsRunTerminal(e) then b
    else
      var key := TerminalKey(e);
      if key in b.runs then b.(runs := b.runs[key := b.runs[key].(terminals := b.runs[key].terminals + [e])])
      else if e.ingest - fromUs <= graceUs then b.(carriedInGrace := b.carriedInGrace + [e])
      else
        var carried := CarriedKey(key);
        var run := if carried in b.runs then b.runs[carried] else Run(key, None, []);
        b.(order := if carried in b.runs then b.order else b.order + [carried],
           runs := b.runs[carried := run.(terminals := run.terminals + [e])],
           carriedLater := b.carriedLater + [e])
  }

  function CloseRuns(b: RunBook, events: seq<Event>, fromUs: int, graceUs: int): (r: RunBook)
    requires RunsOk(b)
    ensures RunsOk(r)
    decreases |events|
  {
    if |events| == 0 then b
    else CloseRuns(CloseRun(b, events[0], fromUs, graceUs), events[1..], fromUs, graceUs)
  }

  function BuildRunBook(events: seq<Event>, fromUs: int, graceUs: int): (r: RunBook)
    ensures RunsOk(r)
  {
    CloseRuns(OpenRuns(EMPTY_RUNS, events), events, fromUs, graceUs)
  }

  /** Terminal records the listed runs hold. */
  ghost function RunHeld(runs: map<Option<Id>, Run>, keys: seq<Option<Id>>): multiset<Event> {
    if |keys| == 0 then multiset{}
    else
      var k := keys[|keys| - 1];
      RunHeld(runs, keys[..|keys| - 1]) + (if k in runs then multiset(runs[k].terminals) else multiset{})
  }

  /** Triggers the listed runs hold. */
  ghost function TriggersHeld(runs: map<Option<Id>, Run>, keys: seq<Option<Id>>): multiset<Event> {
    if |keys| == 0 then multiset{}
    else
      var k := keys[|keys| - 1];
      TriggersHeld(runs, keys[..|keys| - 1])
      + (if k in runs && runs[k].triggered.Some? then multiset{runs[k].triggered.value} else multiset{})
  }

  lemma {:induction false} RunHeldElsewhere(runs: map<Option<Id>, Run>, keys: seq<Option<Id>>, k: Option<Id>, run: Run)
    requires k !in keys
    ensures RunHeld(runs[k := run], keys) == RunHeld(runs, keys)
    ensures TriggersHeld(runs[k := run], keys) == TriggersHeld(runs, keys)
  {
    if |keys| > 0 { RunHeldElsewhere(runs, keys[..|keys| - 1], k, run); }
  }

  lemma {:induction false} RunHeldAppend(runs: map<Option<Id>, Run>, keys: seq<Option<Id>>, k: Option<Id>, e: Event)
    requires k in keys && k in runs
    requires forall i, j :: 0 <= i < j < |keys| ==> keys[i] != keys[j]
    ensures var next := runs[k := runs[k].(terminals := runs[k].terminals + [e])];
      && RunHeld(next, keys) == RunHeld(runs, keys) + multiset{e}
      && TriggersHeld(next, keys) == TriggersHeld(runs, keys)
  {
    var front, run := keys[..|keys| - 1], runs[k].(terminals := runs[k].terminals + [e]);
    if keys[|keys| - 1] == k {
      RunHeldElsewhere(runs, front, k, run);
      assert multiset(runs[k].terminals + [e]) == multiset(runs[k].terminals) + multiset{e};
    } else {
      RunHeldAppend(runs, front, k, e);
    }
  }

  /** A run listed for the first time adds its own rows. */
  lemma RunHeldNew(runs: map<Option<Id>, Run>, keys: seq<Option<Id>>, k: Option<Id>, run: Run)
    requires k !in keys
    ensures RunHeld(runs[k := run], keys + [k]) == RunHeld(runs, keys) + multiset(run.terminals)
    ensures TriggersHeld(runs[k := run], keys + [k])
         == TriggersHeld(runs, keys) + if run.triggered.Some? then multiset{run.triggered.value} else multiset{}
  {
    RunHeldElsewhere(runs, keys, k, run);
    assert (keys + [k])[..|keys|] == keys;
  }

  /** The record went to one run, or was carried in inside the grace. */
  ghost predicate Closed(b: RunBook, r: RunBook, e: Event) {
    && RunHeld(r.runs, r.order) + multiset(r.carriedInGrace) == RunHeld(b.runs, b.order) + multiset(b.carriedInGrace) + multiset{e}
    && TriggersHeld(r.runs, r.order) == TriggersHeld(b.runs, b.order)
  }

  lemma CloseKnown(b: RunBook, k: Option<Id>, e: Event, later: seq<Event>)
    requires RunsOk(b) && k in b.runs
    ensures Closed(b, b.(runs := b.runs[k := b.runs[k].(terminals := b.runs[k].terminals + [e])], carriedLater := later), e)
  {
    RunHeldAppend(b.runs, b.order, k, e);
  }

  lemma CloseNew(b: RunBook, k: Option<Id>, run: Run, e: Event, later: seq<Event>)
    requires RunsOk(b) && k !in b.runs && run.triggered.None? && run.terminals == [e]
    ensures Closed(b, b.(order := b.order + [k], runs := b.runs[k := run], carriedLater := later), e)
  {
    RunHeldNew(b.runs, b.order, k, run);
  }

  lemma CloseRunConserves(b: RunBook, e: Event, fromUs: int, graceUs: int)
    requires RunsOk(b) && IsRunTerminal(e)
    ensures Closed(b, CloseRun(b, e, fromUs, graceUs), e)
  {
    hide Closed, TerminalKey, CarriedKey;
    var key := TerminalKey(e);
    var carried, later := CarriedKey(key), b.carriedLater + [e];
    assert [] + [e] == [e];
    CloseInGrace(b, e);
    if key in b.runs {
      CloseKnown(b, key, e, b.carriedLater);
    } else if carried in b.runs {
      CloseKnown(b, carried, e, later);
    } else {
      CloseNew(b, carried, Run(key, None, [] + [e]), e, later);
    }
    hide RunsOk;
  }

  lemma CloseInGrace(b: RunBook, e: Event)
    ensures Closed(b, b.(carriedInGrace := b.carriedInGrace + [e]), e)
  {}

  lemma {:induction false} CloseRunsConserve(b: RunBook, events: seq<Event>, fromUs: int, graceUs: int)
    requires RunsOk(b)
    ensures var r := CloseRuns(b, events, fromUs, graceUs);
      && RunHeld(r.runs, r.order) + multiset(r.carriedInGrace)
         == RunHeld(b.runs, b.order) + multiset(b.carriedInGrace) + multiset(Select(events, IsRunTerminal))
      && TriggersHeld(r.runs, r.order) == TriggersHeld(b.runs, b.order)
    decreases |events|
  {
    if |events| > 0 {
      if IsRunTerminal(events[0]) { CloseRunConserves(b, events[0], fromUs, graceUs); }
      CloseRunsConserve(CloseRun(b, events[0], fromUs, graceUs), events[1..], fromUs, graceUs);
    }
  }

  ghost predicate DistinctRunIds(events: seq<Event>) {
    forall i, j :: 0 <= i < j < |events| && IsTrigger(events[i]) && IsTrigger(events[j]) ==> RunIdOf(events[i]) != RunIdOf(events[j])
  }

  lemma OpenRunHolds(b: RunBook, e: Event)
    requires RunsOk(b) && (IsTrigger(e) ==> RunIdOf(e) !in b.runs)
    ensures var r := OpenRun(b, e);
      TriggersHeld(r.runs, r.order) == TriggersHeld(b.runs, b.order) + multiset(Select([e], IsTrigger))
  {
    assert Select([e], IsTrigger) == if IsTrigger(e) then [e] else [] by { assert [e][1..] == []; }
    if IsTrigger(e) { RunHeldNew(b.runs, b.order, RunIdOf(e), Run(RunIdOf(e), Some(e), [])); }
    hide Select, RunHeld, TriggersHeld, RunsOk, RunIdOf;
  }

  /** No trigger of the rest names a run already opened. */
  ghost predicate FreshTriggers(b: RunBook, events: seq<Event>) {
    forall i :: 0 <= i < |events| && IsTrigger(events[i]) ==> RunIdOf(events[i]) !in b.runs
  }

  lemma RestFresh(b: RunBook, events: seq<Event>)
    requires RunsOk(b) && |events| > 0 && DistinctRunIds(events) && FreshTriggers(b, events)
    ensures DistinctRunIds(events[1..]) && FreshTriggers(OpenRun(b, events[0]), events[1..])
  {
    assert forall i :: 0 <= i < |events[1..]| ==> events[1..][i] == events[i + 1];
  }

  lemma {:induction false} OpenRunsHold(b: RunBook, events: seq<Event>)
    requires RunsOk(b) && DistinctRunIds(events) && FreshTriggers(b, events)
    ensures var r := OpenRuns(b, events);
      TriggersHeld(r.runs, r.order) == TriggersHeld(b.runs, b.order) + multiset(Select(events, IsTrigger))
    decreases |events|
  {
    if |events| > 0 {
      var e, next := events[0], OpenRun(b, events[0]);
      OpenRunHolds(b, e);
      RestFresh(b, events);
      SelectAppend([e], events[1..], IsTrigger);
      assert [e] + events[1..] == events;
      hide OpenRun, RunHeld, TriggersHeld, RunIdOf, Select, RunsOk, FreshTriggers, DistinctRunIds;
      OpenRunsHold(next, events[1..]);
    }
  }

  lemma {:induction false} OpenRunsHoldNothing(b: RunBook, events: seq<Event>)
    requires RunsOk(b) && forall k :: k in b.runs ==> b.runs[k].terminals == []
    ensures var r := OpenRuns(b, events);
      (forall k :: k in r.runs ==> r.runs[k].terminals == []) && r.carriedInGrace == b.carriedInGrace
    decreases |events|
  {
    if |events| > 0 { OpenRunsHoldNothing(OpenRun(b, events[0]), events[1..]); }
  }

  lemma {:induction false} RunHeldNothing(runs: map<Option<Id>, Run>, keys: seq<Option<Id>>)
    requires forall k :: k in runs ==> runs[k].terminals == []
    ensures RunHeld(runs, keys) == multiset{}
  {
    if |keys| > 0 { RunHeldNothing(runs, keys[..|keys| - 1]); }
  }

  /** Every terminal run record lies in exactly one run, or was carried in inside the grace. */
  lemma RunRecordsConserved(events: seq<Event>, fromUs: int, graceUs: int)
    ensures var r := BuildRunBook(events, fromUs, graceUs);
      RunHeld(r.runs, r.order) + multiset(r.carriedInGrace) == multiset(Select(events, IsRunTerminal))
  {
    OpenRunsHoldNothing(EMPTY_RUNS, events);
    var started := OpenRuns(EMPTY_RUNS, events);
    RunHeldNothing(started.runs, started.order);
    CloseRunsConserve(started, events, fromUs, graceUs);
  }

  /** With distinct run ids every trigger opens its own run. */
  lemma TriggersConserved(events: seq<Event>, fromUs: int, graceUs: int)
    requires DistinctRunIds(events)
    ensures var r := BuildRunBook(events, fromUs, graceUs);
      TriggersHeld(r.runs, r.order) == multiset(Select(events, IsTrigger))
  {
    OpenRunsHold(EMPTY_RUNS, events);
    CloseRunsConserve(OpenRuns(EMPTY_RUNS, events), events, fromUs, graceUs);
  }

  // ---- which run holds which record

  /** A completion names the run of its `run_id`, a cancellation that of its `cancelled_run_id`; a
      record that cannot be read names none. */
  predicate Names(e: Event, k: Option<Id>) {
    || (e.kind.AutomationCompleted? && k == (if e.payload.Opaque? then None else e.payload.runId))
    || (e.kind.AutomationRunCancelled? && k == (if e.payload.Opaque? then None else e.payload.cancelledRunId))
  }

  predicate Opens(e: Event, k: Option<Id>) {
    e.kind.AutomationTriggered? && k == (if e.payload.Opaque? then None else e.payload.runId)
  }

  predicate Triggered(events: seq<Event>, k: Option<Id>) { exists i :: 0 <= i < |events| && Opens(events[i], k) }

  predicate LastOpener(events: seq<Event>, k: Option<Id>, e: Event) {
    exists i :: 0 <= i < |events| && events[i] == e && Opens(e, k) && forall j :: i < j < |events| ==> !Opens(events[j], k)
  }

  predicate LooksCarried(k: Option<Id>) { k.Some? && "carried:" <= k.value }

  lemma LastOpenerTail(events: seq<Event>, k: Option<Id>, e: Event)
    requires |events| > 0
    ensures Triggered(events, k) <==> Opens(events[0], k) || Triggered(events[1..], k)
    ensures LastOpener(events[1..], k, e) ==> LastOpener(events, k, e)
    ensures Opens(events[0], k) && !Triggered(events[1..], k) ==> LastOpener(events, k, events[0])
  {
    assert forall i :: 0 <= i < |events[1..]| ==> events[1..][i] == events[i + 1];
    if i :| 0 <= i < |events| && Opens(events[i], k) {
      if i > 0 { assert events[1..][i - 1] == events[i]; }
    }
    if i :| 0 <= i < |events[1..]| && events[1..][i] == e && Opens(e, k) && forall j :: i < j < |events[1..]| ==> !Opens(events[1..][j], k) {
      assert events[i + 1] == e;
      assert forall j :: i + 1 < j < |events| ==> events[j] == events[1..][j - 1];
    }
    if Opens(events[0], k) && !Triggered(events[1..], k) {
      assert forall j :: 0 < j < |events| ==> events[j] == events[1..][j - 1];
    }
  }

  /** The first pass: a run for each triggered id, opened by the last trigger of it. */
  lemma {:induction false} OpenRunsAre(b: RunBook, events: seq<Event>, k: Option<Id>)
    requires RunsOk(b)
    ensures var r := OpenRuns(b, events);
      && (k in r.runs <==> k in b.runs || Triggered(events, k))
      && (Triggered(events, k) ==>
            r.runs[k].runId == k && r.runs[k].terminals == [] && r.runs[k].triggered.Some?
            && LastOpener(events, k, r.runs[k].triggered.value))
      && (k in b.runs && !Triggered(events, k) ==> r.runs[k] == b.runs[k])
      && r.carriedInGrace == b.carriedInGrace && r.carriedLater == b.carriedLater
    decreases |events|
  {
    if |events| > 0 {
      var next := OpenRun(b, events[0]);
      OpenRunsAre(next, events[1..], k);
      var r := OpenRuns(next, events[1..]);
      LastOpenerTail(events, k, if k in r.runs && r.runs[k].triggered.Some? then r.runs[k].triggered.value else events[0]);
      hide Triggered, LastOpener, RunsOk;
    }
  }

  /** One record of the second pass, for a run that does not look carried. */
  lemma CloseRunKeeps(b: RunBook, e: Event, fromUs: int, graceUs: int, k: Option<Id>)
    requires RunsOk(b) && !LooksCarried(k)
    ensures var r := CloseRun(b, e, fromUs, graceUs);
      && (k in r.runs <==> k in b.runs)
      && (k in b.runs ==> r.runs[k] == b.runs[k].(terminals := b.runs[k].terminals + if Names(e, k) then [e] else []))
  {
    hide RunsOk;
    if k in b.runs { assert b.runs[k].terminals + [] == b.runs[k].terminals; }
    if IsRunTerminal(e) { assert LooksCarried(CarriedKey(TerminalKey(e))); }
  }

  lemma {:induction false} CloseRunsKeep(b: RunBook, events: seq<Event>, fromUs: int, graceUs: int, k: Option<Id>)
    requires RunsOk(b) && !LooksCarried(k)
    ensures var r := CloseRuns(b, events, fromUs, graceUs);
      && (k in r.runs <==> k in b.runs)
      && (k in b.runs ==> r.runs[k] == b.runs[k].(terminals := b.runs[k].terminals + Select(events, e => Names(e, k))))
    decreases |events|
  {
    if |events| == 0 {
      if k in b.runs { assert b.runs[k].terminals + [] == b.runs[k].terminals; }
    } else {
      CloseRunKeeps(b, events[0], fromUs, graceUs, k);
      var next := CloseRun(b, events[0], fromUs, graceUs);
      CloseRunsKeep(next, events[1..], fromUs, graceUs, k);
      hide CloseRun, RunsOk, Names, LooksCarried;
    }
  }

  /** The run of a triggered id: opened by the last trigger of it, and closed by exactly the
      completions and cancellations that name it, in log order. */
  lemma {:induction false} RunOfId(events: seq<Event>, fromUs: int, graceUs: int, k: Option<Id>)
    requires !LooksCarried(k)
    ensures var b := BuildRunBook(events, fromUs, graceUs);
      && (k in b.runs <==> Triggered(events, k))
      && (k in b.runs ==>
            && b.runs[k].runId == k
            && b.runs[k].triggered.Some? && LastOpener(events, k, b.runs[k].triggered.value)
            && b.runs[k].terminals == Select(events, e => Names(e, k)))
  {
    OpenRunsAre(EMPTY_RUNS, events, k);
    CloseRunsKeep(OpenRuns(EMPTY_RUNS, events), events, fromUs, graceUs, k);
    hide OpenRuns, CloseRuns, Triggered, LastOpener, Names;
    if Triggered(events, k) { assert [] + Select(events, e => Names(e, k)) == Select(events, e => Names(e, k)); }
  }

  /** Records are only ever appended. */
  ghost predicate RunsGrow(b: RunBook, r: RunBook) {
    && b.carriedInGrace <= r.carriedInGrace
    && forall k :: k in b.runs ==> k in r.runs && b.runs[k].terminals <= r.runs[k].terminals
  }

  lemma {:induction false} CloseRunsGrow(b: RunBook, events: seq<Event>, fromUs: int, graceUs: int)
    requires RunsOk(b)
    ensures RunsGrow(b, CloseRuns(b, events, fromUs, graceUs))
    decreases |events|
  {
    if |events| > 0 {
      var next := CloseRun(b, events[0], fromUs, graceUs);
      assert RunsGrow(b, next);
      CloseRunsGrow(next, events[1..], fromUs, graceUs);
      hide CloseRun, RunsOk;
    }
  }

  lemma {:induction false} CloseRunsAppend(b: RunBook, xs: seq<Event>, ys: seq<Event>, fromUs: int, graceUs: int)
    requires RunsOk(b)
    ensures CloseRuns(b, xs + ys, fromUs, graceUs) == CloseRuns(CloseRuns(b, xs, fromUs, graceUs), ys, fromUs, graceUs)
    decreases |xs|
  {
    if |xs| == 0 {
      assert xs + ys == ys;
    } else {
      assert (xs + ys)[1..] == xs[1..] + ys;
      CloseRunsAppend(CloseRun(b, xs[0], fromUs, graceUs), xs[1..], ys, fromUs, graceUs);
      hide CloseRun;
    }
  }

  /** A record that names no triggered run: inside the grace it is carried in, after it the carried
      run of that name holds it. */
  lemma {:induction false} StrayRecord(events: seq<Event>, fromUs: int, graceUs: int, i: nat, k: Option<Id>)
    requires i < |events| && Names(events[i], k) && !Triggered(events, k) && !LooksCarried(k)
    ensures var b, e := BuildRunBook(events, fromUs, graceUs), events[i];
      if e.ingest - fromUs <= graceUs then e in b.carriedInGrace
      else
        var carried := Some("carried:" + if k.None? then "None" else k.value);
        carried in b.runs && e in b.runs[carried].terminals
  {
    var start, e := OpenRuns(EMPTY_RUNS, events), events[i];
    OpenRunsAre(EMPTY_RUNS, events, k);
    hide OpenRuns, Triggered;
    var was := CloseRuns(start, events[..i], fromUs, graceUs);
    CloseRunsKeep(start, events[..i], fromUs, graceUs, k);
    var next := CloseRun(was, e, fromUs, graceUs);
    assert if e.ingest - fromUs <= graceUs then e in next.carriedInGrace
           else CarriedKey(k) in next.runs && e in next.runs[CarriedKey(k)].terminals;
    assert events == events[..i] + events[i..] && events[i..][0] == e && events[i..][1..] == events[i + 1..];
    CloseRunsAppend(start, events[..i], events[i..], fromUs, graceUs);
    assert BuildRunBook(events, fromUs, graceUs) == CloseRuns(next, events[i + 1..], fromUs, graceUs);
    CloseRunsGrow(next, events[i + 1..], fromUs, graceUs);
    hide CloseRuns, CloseRun, Names, LooksCarried;
  }

  /** One terminal run record: its run, the grace, or a run of its own. */
  method CloseOne(order: seq<Option<Id>>, runs: map<Option<Id>, Run>, e: Event, fromUs: int, graceUs: int, ghost b: RunBook)
    returns (listed: seq<Option<Id>>, closed: map<Option<Id>, Run>, carriedIn: nat)
    requires RunsOk(b) && b.order == order && b.runs == runs && IsRunTerminal(e)
    ensures var r := CloseRun(b, e, fromUs, graceUs);
      && listed == r.order && closed == r.runs
      && |b.carriedInGrace| + |b.carriedLater| + carriedIn == |r.carriedInGrace| + |r.carriedLater|
  {
    listed, closed, carriedIn := order, runs, 0;
    var key := TerminalKey(e);
    if key in runs {
      closed := runs[key := runs[key].(terminals := runs[key].terminals + [e])];
    } else if e.ingest - fromUs <= graceUs {
      carriedIn := 1;
    } else {
      carriedIn := 1;
      var carried := CarriedKey(key);
      if carried !in runs {
        listed := order + [carried];
        closed := runs[carried := Run(key, None, [])];
      }
      closed := closed[carried := closed[carried].(terminals := closed[carried].terminals + [e])];
    }
  }

  method BuildRuns(events: seq<Event>, fromUs: int, graceUs: int)
    returns (order: seq<Option<Id>>, runs: map<Option<Id>, Run>, carriedIn: nat)
    ensures var b := BuildRunBook(events, fromUs, graceUs);
      order == b.order && runs == b.runs && carriedIn == |b.carriedInGrace| + |b.carriedLater|
  {
    order, runs, carriedIn := [], map[], 0;
    ghost var b := EMPTY_RUNS;
    assert events[0..] == events;
    for i := 0 to |events|
      invariant RunsOk(b) && b == RunBook(order, runs, [], [])
      invariant OpenRuns(EMPTY_RUNS, events) == OpenRuns(b, events[i..])
    {
      var e := events[i];
      assert events[i..][1..] == events[i + 1..];
      b := OpenRun(b, e);
      if e.kind.AutomationTriggered? {
        var key := RunIdOf(e);
        if key !in runs { order := order + [key]; }
        runs := runs[key := Run(key, Some(e), [])];
      }
    }
    for i := 0 to |events|
      invariant RunsOk(b) && b.order == order && b.runs == runs && carriedIn == |b.carriedInGrace| + |b.carriedLater|
      invariant BuildRunBook(events, fromUs, graceUs) == CloseRuns(b, events[i..], fromUs, graceUs)
    {
      var e := events[i];
      assert events[i..][1..] == events[i + 1..];
      ghost var was := b;
      b := CloseRun(b, e, fromUs, graceUs);
      if IsRunTerminal(e) {
        var more;
        order, runs, more := CloseOne(order, runs, e, fromUs, graceUs, was);
        carriedIn := carriedIn + more;
      }
    }
  }
}
