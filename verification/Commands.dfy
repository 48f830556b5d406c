/** A command, its attached rows, and the outcome read from them. */
module Commands {
  import opened Events
  import opened Logs
  import opened Options

  /** How a row named its command. */
  datatype Match =
    | CausationIssued | CausationDispatched | PayloadCommandEventId
    | FallbackSubject | FallbackSubjectType

  datatype Placed = Placed(row: Event, how: Match)

  datatype TerminalKind = ByConfirmation | ByTimeout | ByResult

  datatype Terminal = Terminal(row: Event, kind: TerminalKind, how: Match)

  datatype Outcome = DISPATCHED | CONFIRMED | UNCONFIRMED | FAILED

  const ACKNOWLEDGED := Some("acknowledged")
  const SUPERSEDED := Some("superseded")
  const OUTCOME_UNCONFIRMED := Some("unconfirmed")

  /** Every outcome but the three named ones fails the command, a null included. */
  predicate IsFailure(o: Option<string>) {
    o != ACKNOWLEDGED && o != SUPERSEDED && o != OUTCOME_UNCONFIRMED
  }

  /** The abstract value of a `Command` object. */
  datatype Chain = Chain(
    issue: Event, dispatched: seq<Placed>, results: seq<Placed>,
    confirmed: seq<Placed>, timedOut: seq<Placed>)
  {
    function Subject(): Id { issue.subject }
    function Correlation(): Option<Id> { issue.correlation }
    function CommandType(): Option<string> { CommandTypeOf(issue) }
    function IssuedUs(): int { issue.ingest }
    function TimeoutMs(): int { TimeoutMsOf(issue) }

    function ReadableResults(): seq<Placed> { Select(results, (p: Placed) => !IsOpaque(p.row)) }

    /** Outcomes of the results that can be read; a null outcome stays in the list. */
    function Outcomes(): seq<Option<string>> { OutcomesOf(ReadableResults()) }

    function TerminalResults(): seq<Placed> {
      Select(results, (p: Placed) => !IsOpaque(p.row) && OutcomeOf(p.row) != ACKNOWLEDGED)
    }

    function Unsorted(): seq<Terminal> {
      Tag(confirmed, ByConfirmation) + Tag(timedOut, ByTimeout) + Tag(TerminalResults(), ByResult)
    }

    function Terminals(): seq<Terminal> { SortTerminals(Unsorted()) }

    function WindowEndUs(): int {
      if |Terminals()| > 0 then Terminals()[0].row.ingest else IssuedUs() + TimeoutMs() * 1000
    }

    /** The core's precedence: confirmed, failed, unconfirmed, timed out, dispatched. */
    function Classify(): (Outcome, bool) {
      var outcomes := Outcomes();
      if |confirmed| > 0 then (CONFIRMED, true)
      else if exists o :: o in outcomes && IsFailure(o) then (FAILED, true)
      else if OUTCOME_UNCONFIRMED in outcomes then (UNCONFIRMED, true)
      else if |timedOut| > 0 then (UNCONFIRMED, true)
      else (DISPATCHED, |outcomes| > 0 && outcomes[|outcomes| - 1].Some? && outcomes[|outcomes| - 1] != ACKNOWLEDGED)
    }

    /** UNCONFIRMED by a timeout and by nothing else. */
    predicate OnTimeoutArm() {
      Classify().0 == UNCONFIRMED && |timedOut| > 0 && OUTCOME_UNCONFIRMED !in Outcomes()
    }

    /** The row files under the list its type names. */
    function Append(e: Event, how: Match): Chain
      requires IsChainRow(e)
    {
      match e.kind
      case CommandDispatched => this.(dispatched := dispatched + [Placed(e, how)])
      case CommandResult => this.(results := results + [Placed(e, how)])
      case CommandTimedOut => this.(timedOut := timedOut + [Placed(e, how)])
      case StateConfirmed => this.(confirmed := confirmed + [Placed(e, how)])
    }

    /** Every row the command holds, list by list. */
    function Rows(): seq<Event> {
      RowsOf(dispatched) + RowsOf(results) + RowsOf(confirmed) + RowsOf(timedOut)
    }
  }

  function NewChain(e: Event): Chain { Chain(e, [], [], [], []) }

  function RowsOf(ps: seq<Placed>): (r: seq<Event>) {
    seq(|ps|, i requires 0 <= i < |ps| => ps[i].row)
  }

  function OutcomesOf(ps: seq<Placed>): seq<Option<string>> {
    seq(|ps|, i requires 0 <= i < |ps| => OutcomeOf(ps[i].row))
  }

  function Tag(ps: seq<Placed>, kind: TerminalKind): (ts: seq<Terminal>) {
    seq(|ps|, i requires 0 <= i < |ps| => Terminal(ps[i].row, kind, ps[i].how))
  }

  /** `sorted(terminals, key=global_position)`. */
  function InsertTerminal(s: seq<Terminal>, t: Terminal): (r: seq<Terminal>)
    ensures multiset(r) == multiset(s) + multiset{t}
    ensures |r| == |s| + 1
    ensures forall x :: x in r <==> x == t || x in s
  {
    if |s| == 0 || s[|s| - 1].row.position <= t.row.position then s + [t]
    else
      assert s == s[..|s| - 1] + [s[|s| - 1]];
      InsertTerminal(s[..|s| - 1], t) + [s[|s| - 1]]
  }

  function SortTerminals(s: seq<Terminal>): (r: seq<Terminal>)
    ensures multiset(r) == multiset(s)
    ensures |r| == |s|
    ensures forall x :: x in r <==> x in s
  {
    if |s| == 0 then []
    else
      assert s == s[..|s| - 1] + [s[|s| - 1]];
      InsertTerminal(SortTerminals(s[..|s| - 1]), s[|s| - 1])
  }

  ghost predicate TerminalsInOrder(s: seq<Terminal>) {
    forall i, j :: 0 <= i < j < |s| ==> s[i].row.position <= s[j].row.position
  }

  lemma {:induction false} InsertTerminalInOrder(s: seq<Terminal>, t: Terminal)
    requires TerminalsInOrder(s)
    ensures TerminalsInOrder(InsertTerminal(s, t))
  {
    if |s| > 0 && s[|s| - 1].row.position > t.row.position {
      InsertTerminalInOrder(s[..|s| - 1], t);
      var r := InsertTerminal(s[..|s| - 1], t);
      forall x | x in r ensures x.row.position <= s[|s| - 1].row.position {
        if x != t { var i :| 0 <= i < |s| - 1 && s[i] == x; }
      }
    }
  }

  lemma {:induction false} SortTerminalsInOrder(s: seq<Terminal>)
    ensures TerminalsInOrder(SortTerminals(s))
  {
    if |s| > 0 {
      SortTerminalsInOrder(s[..|s| - 1]);
      InsertTerminalInOrder(SortTerminals(s[..|s| - 1]), s[|s| - 1]);
    }
  }

  /** What a terminal is: a confirmation, a timeout, or a readable result that
      is not an acknowledgement; the first in position order ends the window. */
  lemma {:induction false} TerminalsAre(c: Chain)
    ensures forall t :: t in c.Terminals() <==>
      || (t.kind == ByConfirmation && Placed(t.row, t.how) in c.confirmed)
      || (t.kind == ByTimeout && Placed(t.row, t.how) in c.timedOut)
      || (t.kind == ByResult && Placed(t.row, t.how) in c.results && !IsOpaque(t.row) && OutcomeOf(t.row) != ACKNOWLEDGED)
    ensures |c.Terminals()| == |c.confirmed| + |c.timedOut| + |c.TerminalResults()|
    ensures forall t :: t in c.Terminals() ==> c.Terminals()[0].row.position <= t.row.position
  {
    TagIs(c.confirmed, ByConfirmation);
    TagIs(c.timedOut, ByTimeout);
    TagIs(c.TerminalResults(), ByResult);
    SortTerminalsInOrder(c.Unsorted());
    var ts := c.Terminals();
    forall t | t in ts ensures ts[0].row.position <= t.row.position {
      var i :| 0 <= i < |ts| && ts[i] == t;
    }
  }

  lemma TagIs(ps: seq<Placed>, kind: TerminalKind)
    ensures forall t :: t in Tag(ps, kind) <==> t.kind == kind && Placed(t.row, t.how) in ps
  {
    var ts := Tag(ps, kind);
    forall t ensures t in ts <==> t.kind == kind && Placed(t.row, t.how) in ps {
      if t in ts { var i :| 0 <= i < |ts| && ts[i] == t; assert ps[i] == Placed(t.row, t.how); }
      if t.kind == kind && Placed(t.row, t.how) in ps {
        var i :| 0 <= i < |ps| && ps[i] == Placed(t.row, t.how);
        assert ts[i] == t;
      }
    }
  }

  lemma OutcomesAre(c: Chain)
    ensures forall o :: o in c.Outcomes() <==> exists p :: p in c.results && !IsOpaque(p.row) && OutcomeOf(p.row) == o
  {
    var ps := c.ReadableResults();
    forall o ensures o in c.Outcomes() <==> exists p :: p in c.results && !IsOpaque(p.row) && OutcomeOf(p.row) == o {
      if o in c.Outcomes() {
        var i :| 0 <= i < |ps| && c.Outcomes()[i] == o;
        assert ps[i] in ps;
      }
      if p :| p in c.results && !IsOpaque(p.row) && OutcomeOf(p.row) == o {
        assert p in ps;
        var i :| 0 <= i < |ps| && ps[i] == p;
        assert c.Outcomes()[i] == o;
      }
    }
  }

  predicate SaysSuperseded(t: Terminal) { t.kind == ByResult && OutcomeOf(t.row) == SUPERSEDED }

  /** DISPATCHED means exactly that no terminal says otherwise: every one is a superseded result. */
  lemma DispatchedIffSuperseded(c: Chain)
    ensures c.Classify().0 == DISPATCHED <==> forall t :: t in c.Terminals() ==> SaysSuperseded(t)
  {
    if c.Classify().0 == DISPATCHED { DispatchedOnlySuperseded(c); }
    if forall t :: t in c.Terminals() ==> SaysSuperseded(t) { OnlySupersededDispatched(c); }
  }

  lemma DispatchedOnlySuperseded(c: Chain)
    requires c.Classify().0 == DISPATCHED
    ensures forall t :: t in c.Terminals() ==> SaysSuperseded(t)
  {
    TerminalsAre(c);
    OutcomesAre(c);
    forall t | t in c.Terminals() ensures SaysSuperseded(t) {
      if t.kind == ByResult { assert OutcomeOf(t.row) in c.Outcomes(); }
    }
  }

  lemma OnlySupersededDispatched(c: Chain)
    requires forall t :: t in c.Terminals() ==> SaysSuperseded(t)
    ensures c.Classify().0 == DISPATCHED
  {
    TerminalsAre(c);
    OutcomesAre(c);
    hide Chain.Terminals, Chain.Outcomes, Chain.TerminalResults, Select;
    NonEmptyHas(c.confirmed);
    assert forall p :: p in c.confirmed ==> Terminal(p.row, ByConfirmation, p.how) in c.Terminals();
    NonEmptyHas(c.timedOut);
    assert forall p :: p in c.timedOut ==> Terminal(p.row, ByTimeout, p.how) in c.Terminals();
    forall o | o in c.Outcomes() ensures o == ACKNOWLEDGED || o == SUPERSEDED {
      var p :| p in c.results && !IsOpaque(p.row) && OutcomeOf(p.row) == o;
      if o != ACKNOWLEDGED { assert Terminal(p.row, ByResult, p.how) in c.Terminals(); }
    }
  }

  /** A settled command has a terminal, and a command without one is unsettled DISPATCHED. */
  lemma SettledHasTerminal(c: Chain)
    ensures c.Classify().1 ==> |c.Terminals()| > 0
    ensures |c.Terminals()| == 0 ==> c.Classify() == (DISPATCHED, false)
  {
    hide Chain.Terminals, Chain.Outcomes;
    TerminalsAre(c);
    OutcomesAre(c);
    DispatchedIffSuperseded(c);
    if c.Classify().1 {
      if c.Classify().0 == DISPATCHED {
        var o := c.Outcomes()[|c.Outcomes()| - 1];
        assert o in c.Outcomes();
        var p :| p in c.results && !IsOpaque(p.row) && OutcomeOf(p.row) == o;
        assert Terminal(p.row, ByResult, p.how) in c.Terminals();
      } else {
        assert exists t :: t in c.Terminals();
      }
    }
  }

  /** On the timeout arm nothing was confirmed and the only non-acknowledged results are superseded. */
  lemma {:induction false} TimeoutArmShape(c: Chain)
    ensures c.OnTimeoutArm() <==>
      && c.confirmed == [] && |c.timedOut| > 0
      && forall o :: o in c.Outcomes() ==> o == ACKNOWLEDGED || o == SUPERSEDED
  {}

  // ---- the outcome in words

  /** The result can be read and says that outcome; a null outcome is said too. */
  predicate SaysOutcome(p: Placed, o: Option<string>) { !IsOpaque(p.row) && p.row.payload.outcome == o }

  /** A readable result whose outcome is none of the three that do not fail. */
  predicate Fails(p: Placed) {
    !IsOpaque(p.row) && p.row.payload.outcome !in {Some("acknowledged"), Some("superseded"), Some("unconfirmed")}
  }

  predicate AnyFails(c: Chain) { exists p :: p in c.results && Fails(p) }

  predicate AnyOutcome(c: Chain, o: Option<string>) { exists p :: p in c.results && SaysOutcome(p, o) }

  /** Nothing came back but acknowledgements and supersessions. */
  predicate Quiet(c: Chain) {
    c.confirmed == [] && forall p :: p in c.results ==>
      IsOpaque(p.row) || p.row.payload.outcome == Some("acknowledged") || p.row.payload.outcome == Some("superseded")
  }

  /** The last result that can be read. */
  predicate LastReadable(ps: seq<Placed>, i: nat) {
    i < |ps| && !IsOpaque(ps[i].row) && forall j :: i < j < |ps| ==> IsOpaque(ps[j].row)
  }

  lemma LastReadablePush(front: seq<Placed>, x: Placed, i: nat)
    ensures !IsOpaque(x.row) ==> LastReadable(front + [x], |front|)
    ensures IsOpaque(x.row) && LastReadable(front, i) ==> LastReadable(front + [x], i)
  {
  }

  /** The last of the results that can be read. */
  lemma {:induction false} LastOfReadable(ps: seq<Placed>)
    ensures var r := Select(ps, (p: Placed) => !IsOpaque(p.row));
      r != [] ==> exists i: nat :: LastReadable(ps, i) && ps[i] == r[|r| - 1]
  {
    if |ps| > 0 {
      var front, x := ps[..|ps| - 1], ps[|ps| - 1];
      assert ps == front + [x];
      LastOfReadable(front);
      SelectPush(front, x, (p: Placed) => !IsOpaque(p.row));
      var r := Select(front, (p: Placed) => !IsOpaque(p.row));
      assert r + [] == r;
      if !IsOpaque(x.row) {
        LastReadablePush(front, x, 0);
        hide LastReadable, Select;
      } else if r != [] {
        var i: nat :| LastReadable(front, i) && front[i] == r[|r| - 1];
        LastReadablePush(front, x, i);
        assert ps[i] == front[i];
        hide LastReadable, Select;
      }
    }
  }

  /** The last outcome that can be read. */
  lemma LastOutcome(c: Chain)
    ensures c.Outcomes() == [] <==> forall p :: p in c.results ==> IsOpaque(p.row)
    ensures c.Outcomes() != [] ==>
      exists i: nat :: LastReadable(c.results, i) && c.results[i].row.payload.outcome == c.Outcomes()[|c.Outcomes()| - 1]
  {
    LastOfReadable(c.results);
    SelectEmpty(c.results, (p: Placed) => !IsOpaque(p.row));
    hide Select;
    LastMapped(c.ReadableResults());
  }

  lemma LastMapped(r: seq<Placed>)
    ensures |OutcomesOf(r)| == |r|
    ensures r != [] ==> OutcomesOf(r)[|r| - 1] == OutcomeOf(r[|r| - 1].row)
  {
  }

  /** What each word says about the rows, and when the command is settled. */
  lemma {:induction false} ClassifyMeans(c: Chain)
    ensures var (word, settled) := c.Classify();
      && (word == CONFIRMED <==> c.confirmed != [])
      && (word == FAILED <==> c.confirmed == [] && AnyFails(c))
      && (word == UNCONFIRMED <==>
            c.confirmed == [] && !AnyFails(c) && (AnyOutcome(c, Some("unconfirmed")) || c.timedOut != []))
      && (word == DISPATCHED <==> Quiet(c) && c.timedOut == [])
      && (settled <==>
            (|| word != DISPATCHED
             || exists i: nat :: LastReadable(c.results, i) && c.results[i].row.payload.outcome == Some("superseded")))
    ensures c.OnTimeoutArm() <==> Quiet(c) && c.timedOut != []
  {
    var os := c.Outcomes();
    OutcomesAre(c);
    LastOutcome(c);
    assert AnyFails(c) <==> exists o :: o in os && IsFailure(o) by {
      if o :| o in os && IsFailure(o) {
        var p :| p in c.results && !IsOpaque(p.row) && OutcomeOf(p.row) == o;
        assert Fails(p);
      }
      if p :| p in c.results && Fails(p) { assert OutcomeOf(p.row) in os; }
    }
    assert AnyOutcome(c, Some("unconfirmed")) <==> OUTCOME_UNCONFIRMED in os by {
      if OUTCOME_UNCONFIRMED in os {
        var p :| p in c.results && !IsOpaque(p.row) && OutcomeOf(p.row) == OUTCOME_UNCONFIRMED;
        assert SaysOutcome(p, Some("unconfirmed"));
      }
    }
    assert Quiet(c) <==> c.confirmed == [] && !AnyFails(c) && !AnyOutcome(c, Some("unconfirmed")) by { QuietIs(c); }
    hide Chain.Outcomes, AnyFails, AnyOutcome, Quiet;
    var word := c.Classify().0;
    if word == DISPATCHED && os != [] { LastIsUnique(c.results); assert os[|os| - 1] in os; }
  }

  lemma QuietIs(c: Chain)
    ensures Quiet(c) <==> c.confirmed == [] && !AnyFails(c) && !AnyOutcome(c, Some("unconfirmed"))
  {
    if c.confirmed == [] && !AnyFails(c) && !AnyOutcome(c, Some("unconfirmed")) {
      forall p | p in c.results
        ensures IsOpaque(p.row) || p.row.payload.outcome == Some("acknowledged") || p.row.payload.outcome == Some("superseded")
      {
        assert !Fails(p) && !SaysOutcome(p, Some("unconfirmed"));
      }
    }
  }

  lemma LastIsUnique(ps: seq<Placed>)
    ensures forall i: nat, j: nat :: LastReadable(ps, i) && LastReadable(ps, j) ==> i == j
  {
  }

  /** A command without a terminal: nothing confirmed, nothing timed out, every readable result an acknowledgement. */
  lemma NoTerminalMeans(c: Chain)
    ensures |c.Terminals()| == 0 <==>
      c.confirmed == [] && c.timedOut == [] && forall p :: p in c.results ==> IsOpaque(p.row) || SaysOutcome(p, Some("acknowledged"))
  {
    TerminalsAre(c);
    hide Chain.Terminals, Chain.TerminalResults;
    if |c.Terminals()| == 0 {
      forall p | p in c.results ensures IsOpaque(p.row) || SaysOutcome(p, Some("acknowledged")) {
        assert Terminal(p.row, ByResult, p.how) !in c.Terminals();
      }
    } else {
      assert c.Terminals()[0] in c.Terminals();
    }
  }

  /** A row that ends the command: a confirmation, a timeout, or a readable result that is not an acknowledgement. */
  predicate Ends(c: Chain, e: Event) {
    || (exists p :: p in c.confirmed && p.row == e)
    || (exists p :: p in c.timedOut && p.row == e)
    || (exists p :: p in c.results && p.row == e && !IsOpaque(e) && e.payload.outcome != Some("acknowledged"))
  }

  lemma TerminalEnds(c: Chain, t: Terminal)
    requires t in c.Terminals()
    ensures Ends(c, t.row)
  {
    TerminalsAre(c);
    hide Chain.Terminals;
    assert Placed(t.row, t.how).row == t.row;
  }

  lemma EndIsTerminal(c: Chain, e: Event)
    requires Ends(c, e)
    ensures exists t :: t in c.Terminals() && t.row == e
  {
    TerminalsAre(c);
    hide Chain.Terminals;
    if p :| p in c.confirmed && p.row == e {
      assert Terminal(e, ByConfirmation, p.how).row == e;
    } else if p :| p in c.timedOut && p.row == e {
      assert Terminal(e, ByTimeout, p.how).row == e;
    } else {
      var p :| p in c.results && p.row == e && !IsOpaque(e) && e.payload.outcome != Some("acknowledged");
      assert Terminal(e, ByResult, p.how).row == e;
    }
  }

  /** The pending window closes at the ending row of the lowest position, or, without one, when the
      confirmation timeout of the issue runs out: 30 seconds when none or a zero is given. */
  lemma {:induction false} WindowEndMeans(c: Chain)
    ensures (exists e :: Ends(c, e)) ==>
      exists e :: Ends(c, e) && c.WindowEndUs() == e.ingest && forall x :: Ends(c, x) ==> e.position <= x.position
    ensures (forall e :: !Ends(c, e)) ==>
      c.WindowEndUs() == c.issue.ingest
        + (if IsOpaque(c.issue) || c.issue.payload.timeoutMs in {None, Some(0)} then 30000 else c.issue.payload.timeoutMs.value) * 1000
  {
    TerminalsAre(c);
    forall e | Ends(c, e) ensures exists t :: t in c.Terminals() && t.row == e { EndIsTerminal(c, e); }
    assert c.TimeoutMs() == (if IsOpaque(c.issue) || c.issue.payload.timeoutMs in {None, Some(0)} then 30000
                             else c.issue.payload.timeoutMs.value);
    hide Chain.Terminals, Ends;
    if |c.Terminals()| > 0 {
      assert c.Terminals()[0] in c.Terminals();
      TerminalEnds(c, c.Terminals()[0]);
    }
  }
}
