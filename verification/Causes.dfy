/** The cause of a timeout, decided from the store's own rows. */
module Causes {
  import opened Commands
  import opened Events
  import opened Logs
  import opened Options

  datatype Reason = NoExpectation | NoPriorValue | OpaqueState | NotDispatched | MatchedInWindow

  datatype Cause = Bench | Device | Unattributed(reason: Reason)

  datatype Prior = Prior(kind: Kind, id: Id, value: Option<Reading>, ageUs: int)

  datatype Late = Late(id: Id, afterUs: int)

  datatype CauseRow = CauseRow(
    command: Id, subject: Id, commandType: Option<string>, issuedUs: int,
    cause: Cause, expectation: Option<(string, Reading)>,
    timedOutAfterUs: int, timeoutMs: int, dispatchDelayUs: Option<int>, resultOutcome: Option<Option<string>>,
    prior: Option<Prior>, opaqueId: Option<Id>, mismatched: Option<nat>, late: Option<Late>)

  const EXPECT_TRUE := Reading("true", None)
  const EXPECT_FALSE := Reading("false", None)

  function ExpectationOf(commandType: Option<string>): Option<(string, Reading)> {
    if commandType == Some("turn_on") then Some(("on", EXPECT_TRUE))
    else if commandType == Some("turn_off") then Some(("on", EXPECT_FALSE))
    else None
  }

  /** The last row of `s` with property `p`. */
  function Newest(s: seq<Event>, p: Event -> bool): Option<Event> {
    if |s| == 0 then None
    else if p(s[|s| - 1]) then Some(s[|s| - 1])
    else Newest(s[..|s| - 1], p)
  }

  /** The first row of `s` with property `p`. */
  function First(s: seq<Event>, p: Event -> bool): Option<Event> {
    if |s| == 0 then None
    else if p(s[0]) then Some(s[0])
    else First(s[1..], p)
  }

  lemma {:induction false} NewestIs(s: seq<Event>, p: Event -> bool)
    ensures Newest(s, p).None? <==> forall x :: x in s ==> !p(x)
    ensures Newest(s, p).Some? ==> exists i :: 0 <= i < |s| && s[i] == Newest(s, p).value && p(s[i])
                                               && forall j :: i < j < |s| ==> !p(s[j])
  {
    if |s| > 0 {
      var front := s[..|s| - 1];
      NewestIs(front, p);
      assert forall x :: x in s <==> x in front || x == s[|s| - 1];
      if !p(s[|s| - 1]) && Newest(front, p).Some? {
        var i :| 0 <= i < |front| && front[i] == Newest(front, p).value && p(front[i])
                 && forall j :: i < j < |front| ==> !p(front[j]);
        assert s[i] == front[i] && forall j :: i < j < |front| ==> s[j] == front[j];
      }
    }
  }

  lemma {:induction false} FirstIs(s: seq<Event>, p: Event -> bool)
    ensures First(s, p).None? <==> forall x :: x in s ==> !p(x)
    ensures First(s, p).Some? ==> exists i :: 0 <= i < |s| && s[i] == First(s, p).value && p(s[i])
                                              && forall j :: 0 <= j < i ==> !p(s[j])
  {
    if |s| > 0 {
      FirstIs(s[1..], p);
      assert forall x :: x in s <==> x == s[0] || x in s[1..];
      if !p(s[0]) && First(s[1..], p).Some? {
        var i :| 0 <= i < |s[1..]| && s[1..][i] == First(s[1..], p).value && p(s[1..][i])
                 && forall j :: 0 <= j < i ==> !p(s[1..][j]);
        assert s[i + 1] == s[1..][i] && forall j :: 1 <= j < i + 1 ==> s[j] == s[1..][j - 1];
      }
    }
  }

  lemma FirstOne(e: Event, p: Event -> bool)
    ensures First([e], p) == if p(e) then Some(e) else None
    ensures Select([e], p) == if p(e) then [e] else []
  {
    assert [e][1..] == [];
  }

  lemma {:induction false} FirstAppend(a: seq<Event>, b: seq<Event>, p: Event -> bool)
    ensures First(a + b, p) == if First(a, p).Some? then First(a, p) else First(b, p)
  {
    if |a| == 0 {
      assert a + b == b;
    } else {
      assert (a + b)[1..] == a[1..] + b;
      FirstAppend(a[1..], b, p);
    }
  }

  lemma {:induction false} SelectNone(s: seq<Event>, p: Event -> bool)
    requires forall x :: x in s ==> !p(x)
    ensures Select(s, p) == []
  {
    if |s| > 0 { SelectNone(s[1..], p); }
  }

  // The rows a cause is decided from, for issue position `issue` and timeout position `end`.

  predicate Relevant(e: Event, attribute: string) { IsOpaque(e) || AttributeOf(e) == Some(attribute) }

  predicate Readable(e: Event, attribute: string) { !IsOpaque(e) && AttributeOf(e) == Some(attribute) }

  /** A report inside the window: after the issue, before the timeout. */
  predicate Inside(e: Event, issue: int, end: int) {
    e.kind.StateReported? && issue < e.position < end
  }

  predicate Hit(e: Event, attribute: string, expected: Reading) {
    Readable(e, attribute) && ValuesMatch(ValueOf(e), expected)
  }

  predicate Miss(e: Event, attribute: string, expected: Reading) {
    Readable(e, attribute) && !ValuesMatch(ValueOf(e), expected)
  }

  predicate LateHit(e: Event, issue: int, end: int, attribute: string, expected: Reading) {
    e.kind.StateReported? && issue < e.position && end <= e.position && Hit(e, attribute, expected)
  }

  function PriorValue(e: Event): Option<Reading> {
    if e.kind.StateReported? then ValueOf(e) else ExpectedValueOf(e)
  }

  /** The subject's newest state row before the issue that is opaque or of the attribute. */
  function NewestBefore(states: seq<Event>, issue: int, attribute: string): Option<Event> {
    Newest(Select(states, (e: Event) => e.position < issue), (e: Event) => Relevant(e, attribute))
  }

  /** On a position-ordered log it is the relevant row nearest before the issue. */
  lemma NewestBeforeIsNearest(states: seq<Event>, issue: int, attribute: string)
    requires InOrder(states)
    ensures var n := NewestBefore(states, issue, attribute);
      && (n.None? <==> forall e :: e in states && e.position < issue ==> !Relevant(e, attribute))
      && (n.Some? ==> n.value in states && n.value.position < issue && Relevant(n.value, attribute)
                      && forall e :: e in states && e.position < issue && Relevant(e, attribute) ==> e.position <= n.value.position)
  {
    var before := Select(states, (e: Event) => e.position < issue);
    SelectInOrder(states, (e: Event) => e.position < issue);
    NewestIs(before, (e: Event) => Relevant(e, attribute));
    var n := NewestBefore(states, issue, attribute);
    if n.Some? {
      var i :| 0 <= i < |before| && before[i] == n.value && Relevant(before[i], attribute)
               && forall j :: i < j < |before| ==> !Relevant(before[j], attribute);
      assert before[i] in before;
      forall e | e in states && e.position < issue && Relevant(e, attribute) ensures e.position <= n.value.position {
        var j :| 0 <= j < |before| && before[j] == e;
      }
    }
  }

  function NewestReadable(states: seq<Event>, issue: int, attribute: string): Option<Event> {
    Newest(Select(states, (e: Event) => e.position < issue), (e: Event) => Readable(e, attribute))
  }

  /** The declarative rule for the cause. */
  ghost function CauseRule(states: seq<Event>, issue: int, end: int, dispatched: bool, attribute: string, expected: Reading): Cause {
    var n := NewestBefore(states, issue, attribute);
    if n.Some? && IsOpaque(n.value) then Unattributed(OpaqueState)
    else if n.None? || PriorValue(n.value).None? then Unattributed(NoPriorValue)
    else if ValuesMatch(PriorValue(n.value), expected) then Bench
    else if !dispatched then Unattributed(NotDispatched)
    else if exists e :: e in states && Inside(e, issue, end) && Hit(e, attribute, expected) then Unattributed(MatchedInWindow)
    else if exists e :: e in states && Inside(e, issue, end) && IsOpaque(e) then Unattributed(OpaqueState)
    else Device
  }

  /** `bench` and `device` without the order of the arms. */
  lemma {:induction false} BenchAndDevice(states: seq<Event>, issue: int, end: int, dispatched: bool, attribute: string, expected: Reading)
    ensures var n, cause := NewestBefore(states, issue, attribute), CauseRule(states, issue, end, dispatched, attribute, expected);
      && (cause == Bench <==> n.Some? && !IsOpaque(n.value) && ValuesMatch(PriorValue(n.value), expected))
      && (cause == Device <==>
            && n.Some? && !IsOpaque(n.value) && PriorValue(n.value).Some? && !ValuesMatch(PriorValue(n.value), expected)
            && dispatched
            && forall e :: e in states && Inside(e, issue, end) ==> !Hit(e, attribute, expected) && !IsOpaque(e))
  {}

  datatype Seen = Seen(matched: Option<Event>, opaqueInside: Option<Event>, mismatched: nat, late: Option<Event>)
  {
    function Then(y: Seen): Seen {
      Seen(if matched.Some? then matched else y.matched,
           if opaqueInside.Some? then opaqueInside else y.opaqueInside,
           mismatched + y.mismatched,
           if late.Some? then late else y.late)
    }
  }

  /** What the rows after the issue show. */
  ghost function SeenRule(states: seq<Event>, issue: int, end: int, attribute: string, expected: Reading): Seen {
    Seen(First(states, (e: Event) => Inside(e, issue, end) && Hit(e, attribute, expected)),
         First(states, (e: Event) => Inside(e, issue, end) && IsOpaque(e)),
         |Select(states, (e: Event) => Inside(e, issue, end) && Miss(e, attribute, expected))|,
         First(states, (e: Event) => LateHit(e, issue, end, attribute, expected)))
  }

  function LastOf<T>(s: seq<T>): Option<T> { if |s| == 0 then None else Some(s[|s| - 1]) }

  /** The opaque row that kept the cause undecided. */
  function OpaqueIdRule(cause: Cause, newest: Option<Event>, inside: Option<Event>): Option<Id> {
    if cause != Unattributed(OpaqueState) then None
    else if newest.Some? && IsOpaque(newest.value) then Some(newest.value.id)
    else if inside.Some? then Some(inside.value.id)
    else None
  }

  /** The whole row, from the subject's state rows `states`. */
  ghost function RowRule(c: Chain, states: seq<Event>): CauseRow
    requires |c.timedOut| > 0
  {
    hide SeenRule, NewestBefore, NewestReadable, CauseRule, OpaqueIdRule;
    var timeout := c.timedOut[0].row;
    var issue, end := c.issue.position, timeout.position;
    var delay := if |c.dispatched| > 0 then Some(c.dispatched[0].row.ingest - c.issue.ingest) else None;
    var blank := CauseRow(c.issue.id, c.Subject(), c.CommandType(), c.IssuedUs(), Unattributed(NoExpectation), None,
                          timeout.ingest - c.issue.ingest, c.TimeoutMs(), delay, LastOf(c.Outcomes()),
                          None, None, None, None);
    match ExpectationOf(c.CommandType())
    case None => blank
    case Some((attribute, expected)) =>
      var n := NewestBefore(states, issue, attribute);
      var p := NewestReadable(states, issue, attribute);
      var cause := CauseRule(states, issue, end, |c.dispatched| > 0, attribute, expected);
      var seen := SeenRule(states, issue, end, attribute, expected);
      blank.(
        cause := cause, expectation := Some((attribute, expected)),
        prior := if p.None? then None
                 else Some(Prior(p.value.kind, p.value.id, PriorValue(p.value), c.issue.ingest - p.value.ingest)),
        opaqueId := OpaqueIdRule(cause, n, seen.opaqueInside),
        mismatched := Some(seen.mismatched),
        late := if seen.late.None? then None else Some(Late(seen.late.value.id, seen.late.value.ingest - timeout.ingest)))
  }

  /** The walk back from the issue: the newest readable row of the attribute, and
      an opaque row met before it. */
  method WalkBack(states: seq<Event>, issue: int, attribute: string) returns (prior: Option<Event>, opaqueBefore: Option<Event>)
    ensures prior == NewestReadable(states, issue, attribute)
    ensures var n := NewestBefore(states, issue, attribute);
      && (opaqueBefore.Some? <==> n.Some? && IsOpaque(n.value))
      && (opaqueBefore.Some? ==> opaqueBefore == n)
      && (opaqueBefore.None? ==> n == prior)
  {
    var before := Select(states, (e: Event) => e.position < issue);
    ghost var readable, relevant := (e: Event) => Readable(e, attribute), (e: Event) => Relevant(e, attribute);
    prior, opaqueBefore := None, None;
    var i := |before|;
    assert before[..|before|] == before;
    while i > 0
      invariant 0 <= i <= |before|
      invariant prior.None?
      invariant Newest(before, readable) == Newest(before[..i], readable)
      invariant opaqueBefore.None? ==> Newest(before, relevant) == Newest(before[..i], relevant)
      invariant opaqueBefore.Some? ==> Newest(before, relevant) == opaqueBefore && IsOpaque(opaqueBefore.value)
    {
      i := i - 1;
      var e := before[i];
      assert before[..i + 1][..i] == before[..i];
      if IsOpaque(e) {
        if opaqueBefore.None? { opaqueBefore := Some(e); }
      } else if AttributeOf(e) == Some(attribute) {
        prior := Some(e);
        break;
      }
    }
  }

  lemma SeenAppend(a: seq<Event>, b: seq<Event>, issue: int, end: int, attribute: string, expected: Reading)
    ensures var x, y := SeenRule(a, issue, end, attribute, expected), SeenRule(b, issue, end, attribute, expected);
      SeenRule(a + b, issue, end, attribute, expected) == x.Then(y)
  {
    FirstAppend(a, b, (e: Event) => Inside(e, issue, end) && Hit(e, attribute, expected));
    FirstAppend(a, b, (e: Event) => Inside(e, issue, end) && IsOpaque(e));
    FirstAppend(a, b, (e: Event) => LateHit(e, issue, end, attribute, expected));
    SelectAppend(a, b, (e: Event) => Inside(e, issue, end) && Miss(e, attribute, expected));
  }

  /** What one row adds. */
  function SeenIn(e: Event, issue: int, end: int, attribute: string, expected: Reading): Seen {
    Seen(if Inside(e, issue, end) && Hit(e, attribute, expected) then Some(e) else None,
         if Inside(e, issue, end) && IsOpaque(e) then Some(e) else None,
         if Inside(e, issue, end) && Miss(e, attribute, expected) then 1 else 0,
         if LateHit(e, issue, end, attribute, expected) then Some(e) else None)
  }

  lemma SeenPush(s: seq<Event>, e: Event, issue: int, end: int, attribute: string, expected: Reading)
    ensures SeenRule(s + [e], issue, end, attribute, expected)
         == SeenRule(s, issue, end, attribute, expected).Then(SeenIn(e, issue, end, attribute, expected))
  {
    SeenAppend(s, [e], issue, end, attribute, expected);
    FirstOne(e, (e: Event) => Inside(e, issue, end) && Hit(e, attribute, expected));
    FirstOne(e, (e: Event) => Inside(e, issue, end) && IsOpaque(e));
    FirstOne(e, (e: Event) => LateHit(e, issue, end, attribute, expected));
    FirstOne(e, (e: Event) => Inside(e, issue, end) && Miss(e, attribute, expected));
  }

  /** Past the timeout no row is inside the window: the early break loses nothing. */
  lemma SeenNothingAfter(rest: seq<Event>, issue: int, end: int, attribute: string, expected: Reading)
    requires forall e :: e in rest ==> end <= e.position
    ensures var y := SeenRule(rest, issue, end, attribute, expected);
      y.matched.None? && y.opaqueInside.None? && y.mismatched == 0
  {
    SelectNone(rest, (e: Event) => Inside(e, issue, end) && Miss(e, attribute, expected));
    FirstIs(rest, (e: Event) => Inside(e, issue, end) && Hit(e, attribute, expected));
    FirstIs(rest, (e: Event) => Inside(e, issue, end) && IsOpaque(e));
  }

  lemma SeenDecides(states: seq<Event>, issue: int, end: int, attribute: string, expected: Reading)
    ensures var seen := SeenRule(states, issue, end, attribute, expected);
      && (seen.matched.Some? <==> exists e :: e in states && Inside(e, issue, end) && Hit(e, attribute, expected))
      && (seen.opaqueInside.Some? <==> exists e :: e in states && Inside(e, issue, end) && IsOpaque(e))
  {
    FirstIs(states, (e: Event) => Inside(e, issue, end) && Hit(e, attribute, expected));
    FirstIs(states, (e: Event) => Inside(e, issue, end) && IsOpaque(e));
  }

  /** The walk forward through the window and past the timeout. */
  method WalkForward(states: seq<Event>, issue: int, end: int, attribute: string, expected: Reading) returns (seen: Seen)
    requires InOrder(states)
    ensures seen == SeenRule(states, issue, end, attribute, expected)
  {
    seen := Seen(None, None, 0, None);
    assert states[..0] == [];
    assert seen == SeenRule([], issue, end, attribute, expected);
    hide SeenRule;
    for i := 0 to |states|
      invariant seen == SeenRule(states[..i], issue, end, attribute, expected)
    {
      var e := states[i];
      assert states[..i + 1] == states[..i] + [e];
      SeenPush(states[..i], e, issue, end, attribute, expected);
      if e.position <= issue || !e.kind.StateReported? { continue; }
      var inside := e.position < end;
      if !inside && seen.late.Some? {
        assert states == states[..i] + states[i..];
        SeenAppend(states[..i], states[i..], issue, end, attribute, expected);
        SeenNothingAfter(states[i..], issue, end, attribute, expected);
        return;
      }
      if IsOpaque(e) {
        if inside && seen.opaqueInside.None? { seen := seen.(opaqueInside := Some(e)); }
        continue;
      }
      if AttributeOf(e) != Some(attribute) { continue; }
      var hit := ValuesMatch(ValueOf(e), expected);
      if inside && hit {
        if seen.matched.None? { seen := seen.(matched := Some(e)); }
      } else if inside {
        seen := seen.(mismatched := seen.mismatched + 1);
      } else if hit {
        seen := seen.(late := Some(e));
      }
    }
    assert states[..|states|] == states;
  }

  /** The five steps, in order, on the evidence the walks left. */
  method Decide(prior: Option<Event>, opaqueBefore: Option<Event>, dispatched: bool, seen: Seen, expected: Reading,
                ghost states: seq<Event>, ghost issue: int, ghost end: int, ghost attribute: string)
    returns (cause: Cause, opaqueId: Option<Id>)
    requires seen == SeenRule(states, issue, end, attribute, expected)
    requires var n := NewestBefore(states, issue, attribute);
      && (opaqueBefore.Some? <==> n.Some? && IsOpaque(n.value))
      && (opaqueBefore.Some? ==> opaqueBefore == n)
      && (opaqueBefore.None? ==> n == prior)
    ensures cause == CauseRule(states, issue, end, dispatched, attribute, expected)
    ensures opaqueId == OpaqueIdRule(cause, NewestBefore(states, issue, attribute), seen.opaqueInside)
  {
    SeenDecides(states, issue, end, attribute, expected);
    hide SeenRule, NewestBefore;
    if opaqueBefore.Some? {
      return Unattributed(OpaqueState), Some(opaqueBefore.value.id);
    } else if prior.None? || PriorValue(prior.value).None? {
      return Unattributed(NoPriorValue), None;
    } else if ValuesMatch(PriorValue(prior.value), expected) {
      return Bench, None;
    } else if !dispatched {
      return Unattributed(NotDispatched), None;
    } else if seen.matched.Some? {
      return Unattributed(MatchedInWindow), None;
    } else if seen.opaqueInside.Some? {
      return Unattributed(OpaqueState), Some(seen.opaqueInside.value.id);
    } else {
      return Device, None;
    }
  }

  /** One timed-out command: its cause and its evidence. */
  method TimeoutRow(c: Chain, states: seq<Event>, outcomes: seq<Option<string>>) returns (row: CauseRow)
    requires |c.timedOut| > 0 && outcomes == c.Outcomes() && InOrder(states)
    ensures row == RowRule(c, states)
  {
    hide SeenRule, NewestBefore, NewestReadable, CauseRule, OpaqueIdRule;
    var timeout := c.timedOut[0].row;
    var issue, end := c.issue.position, timeout.position;
    row := CauseRow(c.issue.id, c.Subject(), c.CommandType(), c.IssuedUs(), Unattributed(NoExpectation), None,
                    timeout.ingest - c.issue.ingest, c.TimeoutMs(),
                    if |c.dispatched| > 0 then Some(c.dispatched[0].row.ingest - c.issue.ingest) else None,
                    LastOf(outcomes), None, None, None, None);
    if ExpectationOf(c.CommandType()).None? { return; }
    var (attribute, expected) := ExpectationOf(c.CommandType()).value;
    row := row.(expectation := Some((attribute, expected)));
    var prior, opaqueBefore := WalkBack(states, issue, attribute);
    var seen := WalkForward(states, issue, end, attribute, expected);
    row := row.(
      prior := if prior.None? then None
               else Some(Prior(prior.value.kind, prior.value.id, PriorValue(prior.value), c.issue.ingest - prior.value.ingest)),
      mismatched := Some(seen.mismatched),
      late := if seen.late.None? then None else Some(Late(seen.late.value.id, seen.late.value.ingest - timeout.ingest)));
    var cause, opaqueId := Decide(prior, opaqueBefore, |c.dispatched| > 0, seen, expected, states, issue, end, attribute);
    row := row.(cause := cause, opaqueId := opaqueId);
  }

  /** A subject's state rows, in log order. */
  function StatesOf(events: seq<Event>, subject: Id): seq<Event> {
    Select(events, (e: Event) => IsStateRow(e) && e.subject == subject)
  }

  /** The rows of the block: the commands on the timeout arm, in book order. */
  ghost function CauseRows(ids: seq<Id>, chains: map<Id, Chain>, events: seq<Event>): seq<CauseRow> {
    if |ids| == 0 then []
    else
      var id := ids[|ids| - 1];
      CauseRows(ids[..|ids| - 1], chains, events)
      + if id in chains && chains[id].OnTimeoutArm() then [RowRule(chains[id], StatesOf(events, chains[id].Subject()))] else []
  }

  datatype Totals = Totals(bench: nat, device: nat, unattributed: nat)

  ghost function TotalsOf(rows: seq<CauseRow>): Totals {
    Totals(|Select(rows, (r: CauseRow) => r.cause == Bench)|,
           |Select(rows, (r: CauseRow) => r.cause == Device)|,
           |Select(rows, (r: CauseRow) => r.cause.Unattributed?)|)
  }

  function OfReason(rows: seq<CauseRow>, why: Reason): seq<CauseRow> {
    Select(rows, (r: CauseRow) => r.cause == Unattributed(why))
  }

  function OfSubject(rows: seq<CauseRow>, subject: Id): seq<CauseRow> {
    Select(rows, (r: CauseRow) => r.subject == subject)
  }

  /** The counts beside the rows: by cause, by reason, and by subject and cause. */
  datatype Tables = Tables(totals: Totals, byReason: map<Reason, nat>, bySubject: map<Id, Totals>)

  ghost predicate Tabulates(t: Tables, rows: seq<CauseRow>) {
    && t.totals == TotalsOf(rows)
    && (forall why :: why in t.byReason && t.byReason[why] == |OfReason(rows, why)|)
    && (forall s :: s in t.bySubject <==> exists r :: r in rows && r.subject == s)
    && (forall s :: s in t.bySubject ==> t.bySubject[s] == TotalsOf(OfSubject(rows, s)))
  }

  lemma StatesPush(events: seq<Event>, e: Event, subject: Id)
    ensures StatesOf(events + [e], subject)
         == StatesOf(events, subject) + if IsStateRow(e) && e.subject == subject then [e] else []
  {
    SelectPush(events, e, (e: Event) => IsStateRow(e) && e.subject == subject);
  }

  method IndexStates(events: seq<Event>) returns (states: map<Id, seq<Event>>)
    ensures forall s :: (if s in states then states[s] else []) == StatesOf(events, s)
  {
    states := map[];
    assert forall s :: StatesOf([], s) == [];
    hide StatesOf;
    assert events[..0] == [];
    for i := 0 to |events|
      invariant forall s :: (if s in states then states[s] else []) == StatesOf(events[..i], s)
    {
      var e := events[i];
      assert events[..i + 1] == events[..i] + [e];
      forall s ensures StatesOf(events[..i + 1], s) == StatesOf(events[..i], s) + if IsStateRow(e) && e.subject == s then [e] else [] {
        StatesPush(events[..i], e, s);
      }
      if IsStateRow(e) {
        var own := if e.subject in states then states[e.subject] else [];
        assert own == StatesOf(events[..i], e.subject);
        states := states[e.subject := own + [e]];
      }
    }
    assert events[..|events|] == events;
  }

  function CountCause(t: Totals, cause: Cause): Totals {
    match cause
    case Bench => t.(bench := t.bench + 1)
    case Device => t.(device := t.device + 1)
    case Unattributed(_) => t.(unattributed := t.unattributed + 1)
  }

  lemma TotalsPush(rows: seq<CauseRow>, row: CauseRow)
    ensures TotalsOf(rows + [row]) == CountCause(TotalsOf(rows), row.cause)
  {
    SelectPush(rows, row, (r: CauseRow) => r.cause == Bench);
    SelectPush(rows, row, (r: CauseRow) => r.cause == Device);
    SelectPush(rows, row, (r: CauseRow) => r.cause.Unattributed?);
  }

  lemma ReasonPush(rows: seq<CauseRow>, row: CauseRow, why: Reason)
    ensures OfReason(rows + [row], why) == OfReason(rows, why) + if row.cause == Unattributed(why) then [row] else []
  {
    SelectPush(rows, row, (r: CauseRow) => r.cause == Unattributed(why));
  }

  lemma TotalsOfNothing()
    ensures TotalsOf([]) == Totals(0, 0, 0) && forall why: Reason :: OfReason([], why) == []
  {
  }

  /** Every row has one cause, and every unattributed row one reason. */
  lemma {:induction false} TotalsAddUp(rows: seq<CauseRow>)
    ensures TotalsOf(rows).bench + TotalsOf(rows).device + TotalsOf(rows).unattributed == |rows|
    ensures TotalsOf(rows).unattributed == |OfReason(rows, NoExpectation)| + |OfReason(rows, NoPriorValue)|
      + |OfReason(rows, OpaqueState)| + |OfReason(rows, NotDispatched)| + |OfReason(rows, MatchedInWindow)|
    decreases |rows|
  {
    hide TotalsOf, OfReason;
    if |rows| == 0 {
      assert rows == [];
      TotalsOfNothing();
    } else {
      var front, row := rows[..|rows| - 1], rows[|rows| - 1];
      assert rows == front + [row];
      TotalsAddUp(front);
      TotalsPush(front, row);
      ReasonPush(front, row, NoExpectation);
      ReasonPush(front, row, NoPriorValue);
      ReasonPush(front, row, OpaqueState);
      ReasonPush(front, row, NotDispatched);
      ReasonPush(front, row, MatchedInWindow);
      if row.cause.Unattributed? {
        match row.cause.reason
        case NoExpectation =>
        case NoPriorValue =>
        case OpaqueState =>
        case NotDispatched =>
        case MatchedInWindow =>
      }
    }
  }

  lemma SubjectPush(rows: seq<CauseRow>, row: CauseRow, subject: Id)
    ensures OfSubject(rows + [row], subject) == OfSubject(rows, subject) + if row.subject == subject then [row] else []
    ensures TotalsOf(OfSubject(rows + [row], subject)) ==
      if row.subject == subject then CountCause(TotalsOf(OfSubject(rows, subject)), row.cause)
      else TotalsOf(OfSubject(rows, subject))
    ensures (exists r :: r in rows + [row] && r.subject == subject) <==>
      (exists r :: r in rows && r.subject == subject) || row.subject == subject
  {
    SelectPush(rows, row, (r: CauseRow) => r.subject == subject);
    TotalsPush(OfSubject(rows, subject), row);
    assert forall r :: r in rows + [row] <==> r in rows || r == row;
    assert OfSubject(rows, subject) + [] == OfSubject(rows, subject);
  }

  lemma NoRowOfSubject(rows: seq<CauseRow>, subject: Id)
    requires !exists r :: r in rows && r.subject == subject
    ensures TotalsOf(OfSubject(rows, subject)) == Totals(0, 0, 0)
  {
    SelectEmpty(rows, (r: CauseRow) => r.subject == subject);
  }

  /** One row counted into the tables. */
  method CountRow(t: Tables, ghost rows: seq<CauseRow>, row: CauseRow) returns (more: Tables)
    requires Tabulates(t, rows)
    ensures Tabulates(more, rows + [row])
  {
    hide TotalsOf, OfReason, OfSubject;
    TotalsPush(rows, row);
    forall why { ReasonPush(rows, row, why); }
    forall s { SubjectPush(rows, row, s); }
    if row.subject !in t.bySubject { NoRowOfSubject(rows, row.subject); }
    var own := if row.subject in t.bySubject then t.bySubject[row.subject] else Totals(0, 0, 0);
    more := Tables(CountCause(t.totals, row.cause), t.byReason, t.bySubject[row.subject := CountCause(own, row.cause)]);
    if row.cause.Unattributed? {
      more := more.(byReason := t.byReason[row.cause.reason := t.byReason[row.cause.reason] + 1]);
    }
  }

  lemma NothingCounted(t: Tables)
    requires t == Tables(Totals(0, 0, 0), NO_REASONS, map[])
    ensures Tabulates(t, [])
  {
    forall why: Reason
      ensures why in NO_REASONS && NO_REASONS[why] == 0
    {
      match why case NoExpectation => case NoPriorValue => case OpaqueState => case NotDispatched => case MatchedInWindow =>
    }
  }

  const NO_REASONS: map<Reason, nat> :=
    map[NoExpectation := 0, NoPriorValue := 0, OpaqueState := 0, NotDispatched := 0, MatchedInWindow := 0]

  /** The second loop: the tables of the rows. */
  method Tabulate(rows: seq<CauseRow>) returns (t: Tables)
    ensures Tabulates(t, rows)
  {
    hide Tabulates;
    t := Tables(Totals(0, 0, 0), NO_REASONS, map[]);
    NothingCounted(t);
    assert rows[..0] == [];
    for i := 0 to |rows|
      invariant Tabulates(t, rows[..i])
    {
      assert rows[..i + 1] == rows[..i] + [rows[i]];
      t := CountRow(t, rows[..i], rows[i]);
    }
    assert rows[..|rows|] == rows;
  }

  method TimeoutCauses(order: seq<Id>, chains: map<Id, Chain>, events: seq<Event>)
    returns (rows: seq<CauseRow>, tables: Tables)
    requires InOrder(events) && forall id :: id in order ==> id in chains
    ensures rows == CauseRows(order, chains, events) && Tabulates(tables, rows)
  {
    hide Tabulates;
    var states := IndexStates(events);
    rows := [];
    for i := 0 to |order|
      invariant rows == CauseRows(order[..i], chains, events)
    {
      var c := chains[order[i]];
      assert order[..i + 1][..i] == order[..i];
      var outcomes := c.Outcomes();
      if c.Classify().0 == UNCONFIRMED && |c.timedOut| > 0 && OUTCOME_UNCONFIRMED !in outcomes {
        var own := if c.Subject() in states then states[c.Subject()] else [];
        SelectInOrder(events, (e: Event) => IsStateRow(e) && e.subject == c.Subject());
        var row := TimeoutRow(c, own, outcomes);
        rows := rows + [row];
      }
    }
    assert order[..|order|] == order;
    tables := Tabulate(rows);
  }
}
