/** `breakdown`: the same classifier on a query-restricted read of the store. */
module Pushdown {
  import opened Attach
  import opened Causes
  import opened Commands
  import opened Events
  import opened Logs
  import opened Options
  import opened Ulid

  /** A stored row: its subject is a blob, rendered as ULID text on export. */
  datatype StoreRow = StoreRow(subject: Blob, row: Event)

  function Render(r: StoreRow): Event { r.row.(subject := UlidStr(r.subject)) }

  function RenderAll(rows: seq<StoreRow>): (events: seq<Event>)
    ensures |events| == |rows|
  {
    seq(|rows|, i requires 0 <= i < |rows| => Render(rows[i]))
  }

  lemma RenderCons(r: StoreRow, rest: seq<StoreRow>)
    ensures RenderAll([r] + rest) == [Render(r)] + RenderAll(rest)
  {}

  lemma {:induction false} RenderSelect(rows: seq<StoreRow>, p: StoreRow -> bool, q: Event -> bool)
    requires forall r :: r in rows ==> (p(r) <==> q(Render(r)))
    ensures RenderAll(Select(rows, p)) == Select(RenderAll(rows), q)
  {
    if |rows| > 0 {
      RenderSelect(rows[1..], p, q);
      var rest := Select(rows[1..], p);
      RenderCons(rows[0], rows[1..]);
      RenderCons(rows[0], rest);
      assert rows == [rows[0]] + rows[1..];
      assert RenderAll(rows)[0] == Render(rows[0]) && RenderAll(rows)[1..] == RenderAll(rows[1..]);
      assert [] + rest == rest;
      hide RenderAll, Render;
    }
  }

  lemma {:induction false} EnrollSkips(b: Book, events: seq<Event>)
    requires BookOk(b)
    ensures Enroll(b, events) == Enroll(b, Select(events, IsPartition))
    decreases |events|
  {
    if |events| > 0 {
      EnrollSkips(EnrollRow(b, events[0]), events[1..]);
      var rest := Select(events[1..], IsPartition);
      assert Select(events, IsPartition) == (if IsPartition(events[0]) then [events[0]] else []) + rest;
      assert ([events[0]] + rest)[1..] == rest && [] + rest == rest;
    }
  }

  lemma {:induction false} PlaceSkips(b: Book, events: seq<Event>, fromUs: int, graceUs: int)
    requires BookOk(b)
    ensures PlaceAll(b, events, fromUs, graceUs) == PlaceAll(b, Select(events, IsPartition), fromUs, graceUs)
    decreases |events|
  {
    if |events| > 0 {
      PlaceSkips(Place(b, events[0], fromUs, graceUs), events[1..], fromUs, graceUs);
      var rest := Select(events[1..], IsPartition);
      assert Select(events, IsPartition) == (if IsPartition(events[0]) then [events[0]] else []) + rest;
      assert ([events[0]] + rest)[1..] == rest && [] + rest == rest;
    }
  }

  /** The book needs the five partition types only. */
  lemma {:induction false} BookOnPartition(events: seq<Event>, fromUs: int, graceUs: int)
    ensures BuildBook(Select(events, IsPartition), fromUs, graceUs) == BuildBook(events, fromUs, graceUs)
  {
    EnrollSkips(EMPTY_BOOK, events);
    PlaceSkips(Enroll(EMPTY_BOOK, events), events, fromUs, graceUs);
  }

  ghost predicate IssuesFrom(b: Book, events: seq<Event>) {
    forall id :: id in b.chains ==> b.chains[id].issue in events && b.chains[id].issue.kind.CommandIssued?
  }

  lemma {:induction false} EnrollIssues(b: Book, rest: seq<Event>, events: seq<Event>)
    requires BookOk(b) && IssuesFrom(b, events) && forall e :: e in rest ==> e in events
    ensures IssuesFrom(Enroll(b, rest), events)
    decreases |rest|
  {
    if |rest| > 0 { EnrollIssues(EnrollRow(b, rest[0]), rest[1..], events); }
  }

  lemma FileRowIssues(b: Book, e: Event, target: Option<(Id, Match)>, events: seq<Event>, fromUs: int, graceUs: int)
    requires IssuesFrom(b, events) && IsChainRow(e) && (target.Some? ==> target.value.0 in b.chains)
    ensures IssuesFrom(FileRow(b, e, target, fromUs, graceUs), events)
  {}

  lemma {:induction false} PlaceIssues(b: Book, rest: seq<Event>, events: seq<Event>, fromUs: int, graceUs: int)
    requires BookOk(b) && IssuesFrom(b, events)
    ensures IssuesFrom(PlaceAll(b, rest, fromUs, graceUs), events)
    decreases |rest|
  {
    if |rest| > 0 {
      if IsChainRow(rest[0]) {
        TargetInBook(b, rest[0]);
        FileRowIssues(b, rest[0], Target(b, rest[0]), events, fromUs, graceUs);
      }
      PlaceIssues(Place(b, rest[0], fromUs, graceUs), rest[1..], events, fromUs, graceUs);
    }
  }

  /** Every command of the book was issued by a row of the log. */
  lemma BookIssues(events: seq<Event>, fromUs: int, graceUs: int)
    ensures IssuesFrom(BuildBook(events, fromUs, graceUs), events)
  {
    EnrollIssues(EMPTY_BOOK, events, events);
    PlaceIssues(Enroll(EMPTY_BOOK, events), events, events, fromUs, graceUs);
  }

  /** The subjects of the commands on the timeout arm. */
  ghost function ArmSubjects(ids: seq<Id>, chains: map<Id, Chain>): set<Id> {
    set id | id in ids && id in chains && chains[id].OnTimeoutArm() :: chains[id].Subject()
  }

  function SubjectsOf(rows: seq<CauseRow>): set<Id> { set r | r in rows :: r.subject }

  /** The first pass names exactly the arm's subjects, whatever states it saw. */
  lemma {:induction false} FirstPassSubjects(ids: seq<Id>, chains: map<Id, Chain>, events: seq<Event>)
    ensures SubjectsOf(CauseRows(ids, chains, events)) == ArmSubjects(ids, chains)
  {
    if |ids| > 0 {
      var front, id := ids[..|ids| - 1], ids[|ids| - 1];
      FirstPassSubjects(front, chains, events);
      var rows := CauseRows(front, chains, events);
      assert forall x :: x in ids <==> x in front || x == id;
      if id in chains && chains[id].OnTimeoutArm() {
        var row := RowRule(chains[id], StatesOf(events, chains[id].Subject()));
        assert SubjectsOf(rows + [row]) == SubjectsOf(rows) + {row.subject};
        assert row.subject == chains[id].Subject();
        assert ArmSubjects(ids, chains) == ArmSubjects(front, chains) + {chains[id].Subject()};
      } else {
        assert ArmSubjects(ids, chains) == ArmSubjects(front, chains);
      }
    }
  }

  /** A cause is decided from its own subject's state rows. */
  lemma {:induction false} RowsNeedOwnStates(ids: seq<Id>, chains: map<Id, Chain>, some: seq<Event>, all: seq<Event>)
    requires forall s :: s in ArmSubjects(ids, chains) ==> StatesOf(some, s) == StatesOf(all, s)
    ensures CauseRows(ids, chains, some) == CauseRows(ids, chains, all)
  {
    if |ids| > 0 {
      var front, id := ids[..|ids| - 1], ids[|ids| - 1];
      assert forall x :: x in front ==> x in ids;
      assert ArmSubjects(front, chains) <= ArmSubjects(ids, chains);
      RowsNeedOwnStates(front, chains, some, all);
      if id in chains && chains[id].OnTimeoutArm() {
        assert id in ids;
        assert chains[id].Subject() in ArmSubjects(ids, chains);
      }
    }
  }

  predicate Kept(e: Event, subjects: set<Id>) {
    IsPartition(e) || (e.kind.StateReported? && e.subject in subjects)
  }

  /** Partition rows and the arm's reports, merged by position, are the window
      restricted to them. */
  lemma MergeRestores(window: seq<Event>, subjects: set<Id>)
    requires Positioned(window)
    ensures SortRows(Select(window, IsPartition) + Select(window, (e: Event) => e.kind.StateReported? && e.subject in subjects))
         == Select(window, (e: Event) => Kept(e, subjects))
  {
    var part := Select(window, IsPartition);
    var states := Select(window, (e: Event) => e.kind.StateReported? && e.subject in subjects);
    SelectPositioned(window, IsPartition);
    SelectPositioned(window, (e: Event) => e.kind.StateReported? && e.subject in subjects);
    forall x ensures multiset(part + states)[x] <= 1 {
      if x in part { PositionedOnce(part, x); }
      if x in states { PositionedOnce(states, x); }
    }
    SortRowsRestores(part + states, window, (e: Event) => Kept(e, subjects));
  }

  /** Push-down: the second pass on the restricted read gives the causes of the whole window. */
  lemma {:induction false} CausesOnRestriction(window: seq<Event>, fromUs: int, graceUs: int, subjects: set<Id>)
    requires var b := BuildBook(window, fromUs, graceUs); subjects == ArmSubjects(b.order, b.chains)
    ensures var b := BuildBook(window, fromUs, graceUs);
      CauseRows(b.order, b.chains, Select(window, (e: Event) => Kept(e, subjects))) == CauseRows(b.order, b.chains, window)
  {
    var b := BuildBook(window, fromUs, graceUs);
    var some := Select(window, (e: Event) => Kept(e, subjects));
    forall s | s in subjects ensures StatesOf(some, s) == StatesOf(window, s) {
      SelectSelect(window, (e: Event) => Kept(e, subjects), (e: Event) => IsStateRow(e) && e.subject == s,
                   (e: Event) => IsStateRow(e) && e.subject == s);
    }
    RowsNeedOwnStates(b.order, b.chains, some, window);
  }

  /** `raw`: rendered subject to blob, over the partition rows. */
  function RawSubjects(rows: seq<StoreRow>): (raw: map<Id, Blob>)
    ensures forall s :: s in raw ==> UlidStr(raw[s]) == s
    ensures forall r :: r in rows ==> UlidStr(r.subject) in raw
  {
    if |rows| == 0 then map[]
    else RawSubjects(rows[..|rows| - 1])[UlidStr(rows[|rows| - 1].subject) := rows[|rows| - 1].subject]
  }

  /** Selecting by blob selects by text: no two blobs share a text. */
  lemma {:induction false} SelectByBlob(rows: seq<StoreRow>, raw: map<Id, Blob>, subjects: set<Id>)
    requires forall s :: s in raw ==> UlidStr(raw[s]) == s
    requires subjects <= raw.Keys
    ensures var blobs := set s | s in subjects :: raw[s];
      RenderAll(Select(rows, (r: StoreRow) => r.row.kind.StateReported? && r.subject in blobs))
      == Select(RenderAll(rows), (e: Event) => e.kind.StateReported? && e.subject in subjects)
  {
    var blobs := set s | s in subjects :: raw[s];
    forall r: StoreRow ensures r.subject in blobs <==> UlidStr(r.subject) in subjects {
      if UlidStr(r.subject) in subjects { UlidStrInjective(r.subject, raw[UlidStr(r.subject)]); }
    }
    RenderSelect(rows, (r: StoreRow) => r.row.kind.StateReported? && r.subject in blobs,
                 (e: Event) => e.kind.StateReported? && e.subject in subjects);
  }

  lemma ArmIsRaw(rows: seq<StoreRow>, fromUs: int, graceUs: int)
    ensures var part := Select(rows, (r: StoreRow) => IsPartition(r.row));
      var b := BuildBook(RenderAll(part), fromUs, graceUs);
      ArmSubjects(b.order, b.chains) <= RawSubjects(part).Keys
  {
    var part := Select(rows, (r: StoreRow) => IsPartition(r.row));
    var b := BuildBook(RenderAll(part), fromUs, graceUs);
    BookIssues(RenderAll(part), fromUs, graceUs);
    hide Chain.OnTimeoutArm, BuildBook;
    forall s | s in ArmSubjects(b.order, b.chains) ensures s in RawSubjects(part) {
      var id :| id in b.order && id in b.chains && b.chains[id].OnTimeoutArm() && b.chains[id].Subject() == s;
      var i :| 0 <= i < |part| && RenderAll(part)[i] == b.chains[id].issue;
      assert part[i] in part;
    }
  }

  /** The two-pass read. Its commands, unplaced rows, carried count and causes are
      those of one pass over the whole window. */
  method Breakdown(rows: seq<StoreRow>, fromUs: int, graceUs: int)
    returns (order: seq<Id>, chains: map<Id, Chain>, unplaced: seq<Event>, carriedIn: nat,
             causes: seq<CauseRow>, tables: Tables, armSubjects: set<Id>)
    requires Positioned(RenderAll(rows))
    ensures var window := RenderAll(rows);
      var b := BuildBook(window, fromUs, graceUs);
      && order == b.order && chains == b.chains && unplaced == b.unplaced && carriedIn == |b.carriedIn|
      && armSubjects == ArmSubjects(b.order, b.chains)
      && causes == CauseRows(b.order, b.chains, window)
      && Tabulates(tables, causes)
  {
    hide Tabulates, CauseRows, ArmSubjects, SortRows, RawSubjects, SubjectsOf, Select, UlidStr;
    ghost var window := RenderAll(rows);
    var partRows := Select(rows, (r: StoreRow) => IsPartition(r.row));
    var part := RenderAll(partRows);
    RenderSelect(rows, (r: StoreRow) => IsPartition(r.row), IsPartition);
    var commands;
    order, commands, unplaced, carriedIn := BuildCommands(part, fromUs, graceUs);
    chains := Views(commands);
    BookOnPartition(window, fromUs, graceUs);
    ghost var b := BuildBook(window, fromUs, graceUs);
    SelectPositioned(window, IsPartition);
    var first, _ := TimeoutCauses(order, chains, part);
    armSubjects := SubjectsOf(first);
    FirstPassSubjects(order, chains, part);
    var raw := RawSubjects(partRows);
    ArmIsRaw(rows, fromUs, graceUs);
    var blobs := set s | s in armSubjects :: raw[s];
    var states := RenderAll(Select(rows, (r: StoreRow) => r.row.kind.StateReported? && r.subject in blobs));
    SelectByBlob(rows, raw, armSubjects);
    var events := SortRows(part + states);
    MergeRestores(window, armSubjects);
    SelectPositioned(window, (e: Event) => Kept(e, armSubjects));
    causes, tables := TimeoutCauses(order, chains, events);
    CausesOnRestriction(window, fromUs, graceUs, armSubjects);
  }
}
