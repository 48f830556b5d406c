/** Rows of the exported event log, as the offline grading reads them. */
module Events {
  import opened Options

  type Id = string

  /** A payload scalar seen through `str(x).strip().lower()` and `float(x)`:
      the two readings values are compared by. */
  datatype Reading = Reading(text: string, number: Option<real>)

  /** A payload entry whose absence is told apart from a null. */
  datatype Slot<+T> = Absent | Null | Has(value: T)

  /** A JSON number or something else; a JSON boolean reads as the integer 0 or 1. */
  datatype Count = Whole(n: int) | Fraction(x: real) | NotANumber

  datatype Payload =
    | Opaque   // ciphered at rest: no entry can be read
    | Readable(
        commandType: Option<string>, timeoutMs: Option<int>,
        commandEventId: Option<Id>, outcome: Option<string>,
        attributeKey: Option<string>, value: Option<Reading>, expectedValue: Option<Reading>,
        runId: Option<Id>, cancelledRunId: Option<Id>,
        finalStatus: Slot<string>, actionCount: Slot<Count>, commandCount: Slot<Count>)

  datatype Kind =
    | CommandIssued | CommandDispatched | CommandResult | CommandTimedOut | StateConfirmed
    | StateReported
    | AutomationTriggered | AutomationCompleted | AutomationRunCancelled
    | Ambient(name: string)      // any other whitelisted type
    | OffCatalog(name: string)   // a type the catalog does not hold

  datatype Event = Event(
    id: Id, kind: Kind, ingest: int, position: int,
    subject: Id, correlation: Option<Id>, causation: Option<Id>, payload: Payload)

  predicate IsOpaque(e: Event) { e.payload.Opaque? }

  function CommandTypeOf(e: Event): Option<string> {
    if IsOpaque(e) then None else e.payload.commandType
  }

  function OutcomeOf(e: Event): Option<string> {
    if IsOpaque(e) then None else e.payload.outcome
  }

  function CommandEventIdOf(e: Event): Option<Id> {
    if IsOpaque(e) then None else e.payload.commandEventId
  }

  function AttributeOf(e: Event): Option<string> {
    if IsOpaque(e) then None else e.payload.attributeKey
  }

  function ValueOf(e: Event): Option<Reading> {
    if IsOpaque(e) then None else e.payload.value
  }

  function ExpectedValueOf(e: Event): Option<Reading> {
    if IsOpaque(e) then None else e.payload.expectedValue
  }

  const DEFAULT_TIMEOUT_MS := 30000

  /** `p.get("confirmation_timeout_ms") or 30000`: a null and a zero both default. */
  function TimeoutMsOf(e: Event): int {
    if IsOpaque(e) || e.payload.timeoutMs.None? || e.payload.timeoutMs.value == 0
    then DEFAULT_TIMEOUT_MS else e.payload.timeoutMs.value
  }

  predicate ValuesMatch(saw: Option<Reading>, expected: Reading) {
    && saw.Some?
    && (saw.value.text == expected.text
        || (saw.value.number.Some? && saw.value.number == expected.number))
  }

  predicate IsPartition(e: Event) {
    || e.kind.CommandIssued? || e.kind.CommandDispatched? || e.kind.CommandResult?
    || e.kind.CommandTimedOut? || e.kind.StateConfirmed?
  }

  /** The partition rows that must be attached to a command. */
  predicate IsChainRow(e: Event) { IsPartition(e) && !e.kind.CommandIssued? }

  predicate IsStateRow(e: Event) { e.kind.StateReported? || e.kind.StateConfirmed? }
}

/** Order-keeping selection, and logs in position order. */
module Logs {
  import opened Events

  function Select<T(!new)>(s: seq<T>, p: T -> bool): (r: seq<T>)
    ensures forall x :: x in r <==> x in s && p(x)
    ensures |r| <= |s|
  {
    if |s| == 0 then [] else (if p(s[0]) then [s[0]] else []) + Select(s[1..], p)
  }

  lemma NonEmptyHas<T(!new)>(s: seq<T>)
    ensures |s| > 0 ==> exists x :: x in s
  {
    if |s| > 0 { assert s[0] in s; }
  }

  /** Nothing selected means nothing qualifies. */
  lemma SelectEmpty<T(!new)>(s: seq<T>, p: T -> bool)
    ensures Select(s, p) == [] <==> forall x :: x in s ==> !p(x)
  {
    NonEmptyHas(Select(s, p));
  }

  lemma {:induction false} SelectAppend<T(!new)>(a: seq<T>, b: seq<T>, p: T -> bool)
    ensures Select(a + b, p) == Select(a, p) + Select(b, p)
  {
    if |a| == 0 {
      assert a + b == b;
    } else {
      assert (a + b)[1..] == a[1..] + b;
      SelectAppend(a[1..], b, p);
    }
  }

  lemma SelectPush<T(!new)>(s: seq<T>, x: T, p: T -> bool)
    ensures Select(s + [x], p) == Select(s, p) + if p(x) then [x] else []
  {
    SelectAppend(s, [x], p);
    assert [x][1..] == [];
  }

  lemma {:induction false} SelectSelect<T(!new)>(s: seq<T>, p: T -> bool, q: T -> bool, pq: T -> bool)
    requires forall x :: x in s ==> (pq(x) <==> p(x) && q(x))
    ensures Select(Select(s, p), q) == Select(s, pq)
  {
    if |s| > 0 {
      SelectSelect(s[1..], p, q, pq);
      var head := if p(s[0]) then [s[0]] else [];
      SelectAppend(head, Select(s[1..], p), q);
      assert Select([s[0]], q) == if q(s[0]) then [s[0]] else [];
    }
  }

  lemma {:induction false} SelectSame<T(!new)>(s: seq<T>, p: T -> bool, q: T -> bool)
    requires forall x :: x in s ==> (p(x) <==> q(x))
    ensures Select(s, p) == Select(s, q)
  {
    if |s| > 0 { SelectSame(s[1..], p, q); }
  }

  lemma {:induction false} SelectCount<T(!new)>(s: seq<T>, p: T -> bool)
    ensures |Select(s, p)| + |Select(s, x => !p(x))| == |s|
  {
    if |s| > 0 { SelectCount(s[1..], p); }
  }

  /** Positions never decrease. */
  ghost predicate InOrder(s: seq<Event>) {
    forall i, j :: 0 <= i < j < |s| ==> s[i].position <= s[j].position
  }

  /** Positions strictly increase: one row per global position. */
  ghost predicate Positioned(s: seq<Event>) {
    forall i, j :: 0 <= i < j < |s| ==> s[i].position < s[j].position
  }

  lemma {:induction false} SelectPositioned(s: seq<Event>, p: Event -> bool)
    requires Positioned(s)
    ensures Positioned(Select(s, p))
  {
    if |s| > 0 {
      SelectPositioned(s[1..], p);
      var rest := Select(s[1..], p);
      forall x | x in rest ensures s[0].position < x.position {
        var i :| 0 <= i < |s[1..]| && s[1..][i] == x;
        assert x == s[i + 1];
      }
    }
  }

  lemma {:induction false} SelectInOrder(s: seq<Event>, p: Event -> bool)
    requires InOrder(s)
    ensures InOrder(Select(s, p))
  {
    if |s| > 0 {
      SelectInOrder(s[1..], p);
      var rest := Select(s[1..], p);
      forall x | x in rest ensures s[0].position <= x.position {
        var i :| 0 <= i < |s[1..]| && s[1..][i] == x;
        assert x == s[i + 1];
      }
    }
  }

  /** Two position-ordered logs with the same rows are the same log. */
  lemma {:induction false} PositionedUnique(a: seq<Event>, b: seq<Event>)
    requires Positioned(a) && Positioned(b)
    requires forall x :: x in a <==> x in b
    ensures a == b
  {
    assert |b| > 0 ==> b[0] in b;
    if |a| == 0 {
    } else {
      assert a[0] in b;
      assert b[0] in a;
      var i :| 0 <= i < |b| && b[i] == a[0];
      var j :| 0 <= j < |a| && a[j] == b[0];
      assert a[0] == b[0];
      forall x ensures x in a[1..] <==> x in b[1..] {
        if x in a[1..] {
          var k :| 0 <= k < |a[1..]| && a[1..][k] == x;
          assert a[k + 1] == x && a[0].position < x.position;
          assert x in b && x != b[0];
        }
        if x in b[1..] {
          var k :| 0 <= k < |b[1..]| && b[1..][k] == x;
          assert b[k + 1] == x && b[0].position < x.position;
          assert x in a && x != a[0];
        }
      }
      PositionedUnique(a[1..], b[1..]);
    }
  }

  lemma {:induction false} PositionedOnce(log: seq<Event>, e: Event)
    requires Positioned(log) && e in log
    ensures multiset(log)[e] == 1
  {
    assert log == [log[0]] + log[1..];
    if log[0] == e {
      assert forall i :: 0 <= i < |log[1..]| ==> log[1..][i] == log[i + 1];
      assert e !in log[1..];
    } else {
      PositionedOnce(log[1..], e);
    }
  }

  /** `sorted(rows, key=global_position)`: stable, by insertion. */
  function InsertRow(s: seq<Event>, e: Event): (r: seq<Event>)
    ensures multiset(r) == multiset(s) + multiset{e} && |r| == |s| + 1
    ensures forall x :: x in r <==> x == e || x in s
  {
    if |s| == 0 || s[|s| - 1].position <= e.position then s + [e]
    else
      assert s == s[..|s| - 1] + [s[|s| - 1]];
      InsertRow(s[..|s| - 1], e) + [s[|s| - 1]]
  }

  function SortRows(s: seq<Event>): (r: seq<Event>)
    ensures multiset(r) == multiset(s) && |r| == |s|
    ensures forall x :: x in r <==> x in s
  {
    if |s| == 0 then []
    else
      assert s == s[..|s| - 1] + [s[|s| - 1]];
      InsertRow(SortRows(s[..|s| - 1]), s[|s| - 1])
  }

  lemma {:induction false} InsertRowInOrder(s: seq<Event>, e: Event)
    requires InOrder(s)
    ensures InOrder(InsertRow(s, e))
  {
    if |s| > 0 && s[|s| - 1].position > e.position {
      InsertRowInOrder(s[..|s| - 1], e);
      var r := InsertRow(s[..|s| - 1], e);
      forall x | x in r ensures x.position <= s[|s| - 1].position {
        if x != e { var i :| 0 <= i < |s| - 1 && s[i] == x; }
      }
    }
  }

  lemma {:induction false} SortRowsInOrder(s: seq<Event>)
    ensures InOrder(SortRows(s))
  {
    if |s| > 0 {
      SortRowsInOrder(s[..|s| - 1]);
      InsertRowInOrder(SortRows(s[..|s| - 1]), s[|s| - 1]);
    }
  }

  /** Rows that belong to one position-ordered log sort back into its order. */
  lemma SortRowsRestores(s: seq<Event>, log: seq<Event>, p: Event -> bool)
    requires Positioned(log)
    requires forall x :: x in s <==> x in log && p(x)
    requires forall x :: multiset(s)[x] <= 1
    ensures SortRows(s) == Select(log, p)
  {
    var r := SortRows(s);
    SortRowsInOrder(s);
    forall i, j | 0 <= i < j < |r| ensures r[i].position < r[j].position {
      assert r[i] in log && r[j] in log;
      OnceInSeq(r, i, j);
      if r[i].position == r[j].position { SamePositionSameRow(log, r[i], r[j]); }
    }
    SelectPositioned(log, p);
    PositionedUnique(r, Select(log, p));
  }

  lemma SamePositionSameRow(log: seq<Event>, a: Event, b: Event)
    requires Positioned(log) && a in log && b in log && a.position == b.position
    ensures a == b
  {
    var i :| 0 <= i < |log| && log[i] == a;
    var j :| 0 <= j < |log| && log[j] == b;
  }

  lemma OnceInSeq<T>(s: seq<T>, i: nat, j: nat)
    requires i < j < |s| && multiset(s)[s[i]] <= 1
    ensures s[i] != s[j]
  {
    assert s == s[..j] + s[j..];
    assert s[i] in s[..j] by { assert s[..j][i] == s[i]; }
    assert s[j] in s[j..] by { assert s[j..][0] == s[j]; }
  }
}
