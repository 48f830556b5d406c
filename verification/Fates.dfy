/** A command's fate and its place in the fitness readings: three classifications
    that must agree. */
module Fates {
  import opened Attach
  import opened Causes
  import opened Commands
  import opened Events
  import opened Logs
  import opened Options

  datatype Fate =
    | Confirmed | UnconfirmedBench | UnconfirmedDevice | UnconfirmedUnattributed | UnconfirmedResult
    | Failed | DispatchedSuperseded | DispatchedOpen | DispatchedEdgeOpen

  datatype Class = OnOff | Level | Color | Identify | Other(commandType: Option<string>)

  datatype Exclusion = Unconfirmable | BenchRow | Superseded | EdgeOpen

  function ClassOf(commandType: Option<string>): Class {
    if commandType in {Some("turn_on"), Some("turn_off"), Some("toggle")} then OnOff
    else if commandType == Some("set_brightness") then Level
    else if commandType == Some("set_color_temperature") then Color
    else if commandType == Some("identify") then Identify
    else Other(commandType)
  }

  /** The end of the window and its grace. */
  datatype Edge = Edge(toUs: int, graceUs: int)

  predicate AtEdge(c: Chain, edge: Edge) { |c.Terminals()| == 0 && edge.toUs - c.IssuedUs() <= edge.graceUs }

  /** `fate_of`: the outcome, split by the cause row the block holds for the command. */
  function FateOf(c: Chain, cause: Option<Cause>, edge: Edge): Fate {
    var (word, settled) := c.Classify();
    match word
    case UNCONFIRMED =>
      (match cause
       case None => UnconfirmedResult
       case Some(Bench) => UnconfirmedBench
       case Some(Device) => UnconfirmedDevice
       case Some(Unattributed(_)) => UnconfirmedUnattributed)
    case DISPATCHED =>
      if settled then DispatchedSuperseded else if AtEdge(c, edge) then DispatchedEdgeOpen else DispatchedOpen
    case CONFIRMED => Confirmed
    case FAILED => Failed
  }

  /** Why `fitness` leaves a send out of the confirmed ratio. */
  function ExclusionOf(c: Chain, inBench: bool, edge: Edge): Option<Exclusion> {
    if ClassOf(c.CommandType()) == Identify then Some(Unconfirmable)
    else if inBench then Some(BenchRow)
    else if c.Classify() == (DISPATCHED, true) then Some(Superseded)
    else if AtEdge(c, edge) then Some(EdgeOpen)
    else None
  }

  /** The cause the block holds for a command: one exactly on the timeout arm. */
  ghost function CauseFor(c: Chain, events: seq<Event>): Option<Cause> {
    if c.OnTimeoutArm() then Some(RowRule(c, StatesOf(events, c.Subject())).cause) else None
  }

  /** Chains are kept under the id of their issue row. */
  ghost predicate KeyedByIssue(chains: map<Id, Chain>) { forall id :: id in chains ==> chains[id].issue.id == id }

  /** Looking the command up in the block gives its cause. */
  lemma {:induction false} BlockHolds(ids: seq<Id>, chains: map<Id, Chain>, events: seq<Event>, id: Id)
    requires KeyedByIssue(chains) && id in chains
    requires forall i, j :: 0 <= i < j < |ids| ==> ids[i] != ids[j]
    ensures var rows := CauseRows(ids, chains, events);
      && (forall r :: r in rows && r.command == id ==> id in ids && CauseFor(chains[id], events) == Some(r.cause))
      && (id in ids && CauseFor(chains[id], events).Some? ==> exists r :: r in rows && r.command == id)
  {
    if |ids| > 0 {
      var front, last := ids[..|ids| - 1], ids[|ids| - 1];
      BlockHolds(front, chains, events, id);
      hide Chain.OnTimeoutArm, StatesOf;
      assert forall x :: x in ids <==> x in front || x == last;
      var rows := CauseRows(front, chains, events);
      if last in chains && chains[last].OnTimeoutArm() {
        var row := RowRule(chains[last], StatesOf(events, chains[last].Subject()));
        assert row.command == last by { hide CauseRule, SeenRule, NewestBefore, NewestReadable; }
        assert row in CauseRows(ids, chains, events);
        assert forall r :: r in CauseRows(ids, chains, events) <==> r in rows || r == row;
      }
    }
  }

  /** Exclusions are exactly the three fates, for every class that can be confirmed. */
  lemma ExclusionsAreFates(c: Chain, cause: Option<Cause>, edge: Edge)
    requires cause.Some? <==> c.OnTimeoutArm()
    requires ClassOf(c.CommandType()) != Identify
    ensures var fate, why := FateOf(c, cause, edge), ExclusionOf(c, cause == Some(Bench), edge);
      && (why == Some(BenchRow) <==> fate == UnconfirmedBench)
      && (why == Some(Superseded) <==> fate == DispatchedSuperseded)
      && (why == Some(EdgeOpen) <==> fate == DispatchedEdgeOpen)
      && why != Some(Unconfirmable)
      && (c.Classify().0 == CONFIRMED <==> fate == Confirmed)
  {
    SettledHasTerminal(c);
    hide Chain.Terminals, ClassOf, Chain.Outcomes;
  }

  /** Nothing came back but acknowledgements: the command has no terminal. */
  predicate OnlyAcknowledged(c: Chain) {
    c.confirmed == [] && c.timedOut == [] && forall p :: p in c.results ==> IsOpaque(p.row) || p.row.payload.outcome == Some("acknowledged")
  }

  /** The last readable result says superseded. */
  ghost predicate EndsSuperseded(c: Chain) {
    exists i: nat :: LastReadable(c.results, i) && c.results[i].row.payload.outcome == Some("superseded")
  }

  /** Each of the nine fates by the command's own rows and the cause the block gives it. */
  lemma {:induction false} FateMeans(c: Chain, cause: Option<Cause>, edge: Edge)
    requires cause.Some? <==> c.OnTimeoutArm()
    ensures var fate := FateOf(c, cause, edge);
      && (fate == Confirmed <==> c.confirmed != [])
      && (fate == Failed <==> c.confirmed == [] && AnyFails(c))
      && (fate == UnconfirmedResult <==> c.confirmed == [] && !AnyFails(c) && AnyOutcome(c, Some("unconfirmed")))
      && (fate == UnconfirmedBench <==> Quiet(c) && c.timedOut != [] && cause == Some(Bench))
      && (fate == UnconfirmedDevice <==> Quiet(c) && c.timedOut != [] && cause == Some(Device))
      && (fate == UnconfirmedUnattributed <==> Quiet(c) && c.timedOut != [] && cause.Some? && cause.value.Unattributed?)
      && (fate == DispatchedSuperseded <==> Quiet(c) && c.timedOut == [] && EndsSuperseded(c))
      && (fate == DispatchedEdgeOpen <==> OnlyAcknowledged(c) && edge.toUs - c.issue.ingest <= edge.graceUs)
      && (fate == DispatchedOpen <==>
            && Quiet(c) && c.timedOut == [] && !EndsSuperseded(c)
            && !(OnlyAcknowledged(c) && edge.toUs - c.issue.ingest <= edge.graceUs))
  {
    ClassifyMeans(c);
    NoTerminalMeans(c);
    QuietIs(c);
    if EndsSuperseded(c) { EndsOtherwise(c); }
    assert OnlyAcknowledged(c) ==> Quiet(c);
    hide Chain.Terminals, Chain.Outcomes, Chain.Classify, Quiet, AnyFails, AnyOutcome, Chain.OnTimeoutArm;
  }

  lemma EndsOtherwise(c: Chain)
    requires EndsSuperseded(c)
    ensures !OnlyAcknowledged(c)
  {
    var i: nat :| LastReadable(c.results, i) && c.results[i].row.payload.outcome == Some("superseded");
    assert c.results[i] in c.results;
  }

  /** Why a send is left out of the confirmed ratio, each reason by the command's own rows. */
  lemma {:induction false} ExclusionMeans(c: Chain, inBench: bool, edge: Edge)
    ensures var why := ExclusionOf(c, inBench, edge);
      var identify := !IsOpaque(c.issue) && c.issue.payload.commandType == Some("identify");
      && (why == Some(Unconfirmable) <==> identify)
      && (why == Some(BenchRow) <==> !identify && inBench)
      && (why == Some(Superseded) <==> !identify && !inBench && Quiet(c) && c.timedOut == [] && EndsSuperseded(c))
      && (why == Some(EdgeOpen) <==>
            !identify && !inBench && OnlyAcknowledged(c) && edge.toUs - c.issue.ingest <= edge.graceUs)
  {
    ClassifyMeans(c);
    NoTerminalMeans(c);
    if EndsSuperseded(c) { EndsOtherwise(c); }
    hide Chain.Terminals, Chain.Outcomes, Chain.Classify, Quiet, AnyFails, AnyOutcome, Chain.OnTimeoutArm;
  }

  /** Which class a command type belongs to. */
  lemma ClassTable(commandType: Option<string>)
    ensures ClassOf(commandType) == OnOff <==> commandType == Some("turn_on") || commandType == Some("turn_off") || commandType == Some("toggle")
    ensures ClassOf(commandType) == Level <==> commandType == Some("set_brightness")
    ensures ClassOf(commandType) == Color <==> commandType == Some("set_color_temperature")
    ensures ClassOf(commandType) == Identify <==> commandType == Some("identify")
    ensures ClassOf(commandType).Other? ==> ClassOf(commandType).commandType == commandType
  {
  }

  // ---- the tallies

  datatype Tally = Tally(issued: nat, eligible: nat, confirmed: nat,
                         unconfirmable: nat, bench: nat, superseded: nat, edgeOpen: nat)
  {
    function Count(why: Option<Exclusion>, isConfirmed: bool): Tally {
      var t := this.(issued := issued + 1);
      match why
      case None => t.(eligible := eligible + 1, confirmed := confirmed + if isConfirmed then 1 else 0)
      case Some(Unconfirmable) => t.(unconfirmable := unconfirmable + 1)
      case Some(BenchRow) => t.(bench := bench + 1)
      case Some(Superseded) => t.(superseded := superseded + 1)
      case Some(EdgeOpen) => t.(edgeOpen := edgeOpen + 1)
    }
  }

  const NO_TALLY := Tally(0, 0, 0, 0, 0, 0, 0)

  /** One send as the readings see it. */
  datatype Send = Send(subject: Id, cls: Class, why: Option<Exclusion>, isConfirmed: bool)

  function SendOf(c: Chain, inBench: bool, edge: Edge): Send {
    Send(c.Subject(), ClassOf(c.CommandType()), ExclusionOf(c, inBench, edge), c.Classify().0 == CONFIRMED)
  }

  function CountAll(sends: seq<Send>): Tally {
    if |sends| == 0 then NO_TALLY
    else CountAll(sends[..|sends| - 1]).Count(sends[|sends| - 1].why, sends[|sends| - 1].isConfirmed)
  }

  /** Every send is eligible or excluded for one reason. */
  lemma {:induction false} TallyAddsUp(sends: seq<Send>)
    ensures var t := CountAll(sends);
      && t.issued == |sends|
      && t.issued == t.eligible + t.unconfirmable + t.bench + t.superseded + t.edgeOpen
      && t.confirmed <= t.eligible
  {
    if |sends| > 0 { TallyAddsUp(sends[..|sends| - 1]); }
  }

  function SendsOf(ids: seq<Id>, chains: map<Id, Chain>, bench: set<Id>, edge: Edge): seq<Send> {
    if |ids| == 0 then []
    else
      var id := ids[|ids| - 1];
      SendsOf(ids[..|ids| - 1], chains, bench, edge) + if id in chains then [SendOf(chains[id], id in bench, edge)] else []
  }

  /** A class of commands, over every subject or one. */
  datatype Group = Group(subject: Option<Id>, cls: Class)
  {
    predicate Holds(s: Id, c: Class) { c == cls && (subject.None? || subject.value == s) }

    predicate Has(c: Chain) { Holds(c.Subject(), ClassOf(c.CommandType())) }
  }

  function InGroup(sends: seq<Send>, group: Group): seq<Send> {
    Select(sends, (s: Send) => group.Holds(s.subject, s.cls))
  }

  lemma GroupPush(sends: seq<Send>, s: Send, group: Group)
    ensures var was := CountAll(InGroup(sends, group));
      CountAll(InGroup(sends + [s], group)) == if group.Holds(s.subject, s.cls) then was.Count(s.why, s.isConfirmed) else was
  {
    hide Group.Holds;
    SelectPush(sends, s, (s: Send) => group.Holds(s.subject, s.cls));
    var was := InGroup(sends, group);
    assert (was + [s])[..|was|] == was && was + [] == was;
  }

  function At(table: map<Class, Tally>, cls: Class): Tally { if cls in table then table[cls] else NO_TALLY }

  function AtPair(table: map<(Id, Class), Tally>, subject: Id, cls: Class): Tally {
    if (subject, cls) in table then table[(subject, cls)] else NO_TALLY
  }

  function BenchOf(causes: seq<CauseRow>): set<Id> { set r | r in causes && r.cause == Bench :: r.command }

  method Fitness(order: seq<Id>, chains: map<Id, Chain>, causes: seq<CauseRow>, edge: Edge)
    returns (byClass: map<Class, Tally>, bySubject: map<(Id, Class), Tally>)
    requires forall id :: id in order ==> id in chains
    ensures var sends := SendsOf(order, chains, BenchOf(causes), edge);
      && (forall cls :: At(byClass, cls) == CountAll(InGroup(sends, Group(None, cls))))
      && (forall s, cls :: AtPair(bySubject, s, cls) == CountAll(InGroup(sends, Group(Some(s), cls))))
  {
    var bench := BenchOf(causes);
    byClass, bySubject := map[], map[];
    ghost var sends: seq<Send> := [];
    hide SendOf;
    for i := 0 to |order|
      invariant sends == SendsOf(order[..i], chains, bench, edge)
      invariant forall cls :: At(byClass, cls) == CountAll(InGroup(sends, Group(None, cls)))
      invariant forall s, cls :: AtPair(bySubject, s, cls) == CountAll(InGroup(sends, Group(Some(s), cls)))
    {
      var id := order[i];
      assert order[..i + 1][..i] == order[..i];
      var s := SendOf(chains[id], id in bench, edge);
      forall cls { GroupPush(sends, s, Group(None, cls)); }
      forall subject, cls { GroupPush(sends, s, Group(Some(subject), cls)); }
      hide InGroup, CountAll;
      sends := sends + [s];
      byClass := byClass[s.cls := At(byClass, s.cls).Count(s.why, s.isConfirmed)];
      bySubject := bySubject[(s.subject, s.cls) := AtPair(bySubject, s.subject, s.cls).Count(s.why, s.isConfirmed)];
    }
    assert order[..|order|] == order;
  }

  // ---- fates and readings together

  /** The fates a send of the confirmed ratio can have. */
  const ELIGIBLE_FATES := {Confirmed, UnconfirmedDevice, UnconfirmedUnattributed, UnconfirmedResult, Failed, DispatchedOpen}

  /** The commands of a group whose fate is among `fates`. */
  ghost function WithFate(ids: seq<Id>, chains: map<Id, Chain>, events: seq<Event>, edge: Edge, group: Group, fates: set<Fate>): seq<Id> {
    Select(ids, id => id in chains && group.Has(chains[id])
                      && FateOf(chains[id], CauseFor(chains[id], events), edge) in fates)
  }

  function OfGroup(ids: seq<Id>, chains: map<Id, Chain>, group: Group): seq<Id> {
    Select(ids, id => id in chains && group.Has(chains[id]))
  }

  /** The tally of a group counted by fate. */
  ghost function FateTally(ids: seq<Id>, chains: map<Id, Chain>, events: seq<Event>, edge: Edge, group: Group): Tally {
    Tally(|OfGroup(ids, chains, group)|,
          |WithFate(ids, chains, events, edge, group, ELIGIBLE_FATES)|,
          |WithFate(ids, chains, events, edge, group, {Confirmed})|,
          0,
          |WithFate(ids, chains, events, edge, group, {UnconfirmedBench})|,
          |WithFate(ids, chains, events, edge, group, {DispatchedSuperseded})|,
          |WithFate(ids, chains, events, edge, group, {DispatchedEdgeOpen})|)
  }

  function CountFate(t: Tally, fate: Fate): Tally {
    Tally(t.issued + 1,
          t.eligible + if fate in ELIGIBLE_FATES then 1 else 0,
          t.confirmed + if fate in {Confirmed} then 1 else 0,
          t.unconfirmable,
          t.bench + if fate in {UnconfirmedBench} then 1 else 0,
          t.superseded + if fate in {DispatchedSuperseded} then 1 else 0,
          t.edgeOpen + if fate in {DispatchedEdgeOpen} then 1 else 0)
  }

  lemma FatePush(ids: seq<Id>, id: Id, chains: map<Id, Chain>, events: seq<Event>, edge: Edge, group: Group, fates: set<Fate>)
    requires id in chains
    ensures |WithFate(ids + [id], chains, events, edge, group, fates)| == |WithFate(ids, chains, events, edge, group, fates)|
      + if group.Has(chains[id]) && FateOf(chains[id], CauseFor(chains[id], events), edge) in fates then 1 else 0
  {
    hide FateOf, CauseFor, ClassOf;
    SelectPush(ids, id, id => id in chains && group.Has(chains[id])
                              && FateOf(chains[id], CauseFor(chains[id], events), edge) in fates);
  }

  lemma GroupOfPush(ids: seq<Id>, id: Id, chains: map<Id, Chain>, group: Group)
    requires id in chains
    ensures |OfGroup(ids + [id], chains, group)| == |OfGroup(ids, chains, group)| + if group.Has(chains[id]) then 1 else 0
  {
    hide ClassOf;
    SelectPush(ids, id, id => id in chains && group.Has(chains[id]));
  }

  lemma FateTallyPush(ids: seq<Id>, id: Id, chains: map<Id, Chain>, events: seq<Event>, edge: Edge, group: Group)
    requires id in chains
    ensures FateTally(ids + [id], chains, events, edge, group) ==
      if group.Has(chains[id])
      then CountFate(FateTally(ids, chains, events, edge, group), FateOf(chains[id], CauseFor(chains[id], events), edge))
      else FateTally(ids, chains, events, edge, group)
  {
    GroupOfPush(ids, id, chains, group);
    FatePush(ids, id, chains, events, edge, group, ELIGIBLE_FATES);
    FatePush(ids, id, chains, events, edge, group, {Confirmed});
    FatePush(ids, id, chains, events, edge, group, {UnconfirmedBench});
    FatePush(ids, id, chains, events, edge, group, {DispatchedSuperseded});
    FatePush(ids, id, chains, events, edge, group, {DispatchedEdgeOpen});
    hide WithFate, OfGroup, FateOf, CauseFor, ClassOf;
  }

  lemma SendCounts(c: Chain, inBench: bool, cause: Option<Cause>, edge: Edge, t: Tally)
    requires cause.Some? <==> c.OnTimeoutArm()
    requires inBench <==> cause == Some(Bench)
    requires ClassOf(c.CommandType()) != Identify
    ensures t.Count(SendOf(c, inBench, edge).why, SendOf(c, inBench, edge).isConfirmed) == CountFate(t, FateOf(c, cause, edge))
  {
    ExclusionsAreFates(c, cause, edge);
    hide FateOf, ExclusionOf, Chain.Classify, ClassOf, Chain.OnTimeoutArm;
  }

  /** The confirmed-ratio reading of a group. */
  function Readings(ids: seq<Id>, chains: map<Id, Chain>, bench: set<Id>, edge: Edge, group: Group): Tally {
    CountAll(InGroup(SendsOf(ids, chains, bench, edge), group))
  }

  lemma ReadingPush(front: seq<Id>, id: Id, chains: map<Id, Chain>, bench: set<Id>, edge: Edge, group: Group)
    requires id in chains
    ensures Readings(front + [id], chains, bench, edge, group) ==
      var t, s := Readings(front, chains, bench, edge, group), SendOf(chains[id], id in bench, edge);
      if group.Has(chains[id]) then t.Count(s.why, s.isConfirmed) else t
  {
    assert (front + [id])[..|front|] == front;
    GroupPush(SendsOf(front, chains, bench, edge), SendOf(chains[id], id in bench, edge), group);
    hide InGroup, CountAll, ClassOf, ExclusionOf, Chain.Classify;
  }

  /** The readings of a group are its commands counted by fate. */
  lemma {:induction false} ReadingsAreFates(ids: seq<Id>, chains: map<Id, Chain>, events: seq<Event>, bench: set<Id>, edge: Edge, group: Group)
    requires forall id :: id in ids ==> id in chains
    requires forall id :: id in chains ==> (id in bench <==> CauseFor(chains[id], events) == Some(Bench))
    requires group.cls != Identify
    ensures Readings(ids, chains, bench, edge, group) == FateTally(ids, chains, events, edge, group)
  {
    hide Readings, FateTally, CountFate, FateOf, SendOf, CauseFor, ClassOf;
    if |ids| == 0 {
      assert ids == [];
      NothingToRead(chains, events, bench, edge, group);
    } else {
      var front, id := ids[..|ids| - 1], ids[|ids| - 1];
      assert id in ids && forall x :: x in front ==> x in ids;
      ReadingsAreFates(front, chains, events, bench, edge, group);
      FateTallyPush(front, id, chains, events, edge, group);
      ReadingPush(front, id, chains, bench, edge, group);
      if group.Has(chains[id]) {
        CauseOnArm(chains[id], events);
        SendCounts(chains[id], id in bench, CauseFor(chains[id], events), edge, Readings(front, chains, bench, edge, group));
      }
      assert front + [id] == ids;
    }
  }

  lemma NothingToRead(chains: map<Id, Chain>, events: seq<Event>, bench: set<Id>, edge: Edge, group: Group)
    ensures Readings([], chains, bench, edge, group) == FateTally([], chains, events, edge, group)
  {
    hide FateOf, SendOf, CauseFor, ClassOf;
  }

  lemma CauseOnArm(c: Chain, events: seq<Event>)
    ensures CauseFor(c, events).Some? <==> c.OnTimeoutArm()
  {}

  lemma {:induction false} EnrollKeyed(b: Book, events: seq<Event>)
    requires BookOk(b) && KeyedByIssue(b.chains)
    ensures KeyedByIssue(Enroll(b, events).chains)
    decreases |events|
  {
    if |events| > 0 { EnrollKeyed(EnrollRow(b, events[0]), events[1..]); }
  }

  lemma FileRowKeyed(b: Book, e: Event, target: Option<(Id, Match)>, fromUs: int, graceUs: int)
    requires KeyedByIssue(b.chains) && IsChainRow(e) && (target.Some? ==> target.value.0 in b.chains)
    ensures KeyedByIssue(FileRow(b, e, target, fromUs, graceUs).chains)
  {}

  lemma {:induction false} PlaceAllKeyed(b: Book, events: seq<Event>, fromUs: int, graceUs: int)
    requires BookOk(b) && KeyedByIssue(b.chains)
    ensures KeyedByIssue(PlaceAll(b, events, fromUs, graceUs).chains)
    decreases |events|
  {
    if |events| > 0 {
      if IsChainRow(events[0]) {
        TargetInBook(b, events[0]);
        FileRowKeyed(b, events[0], Target(b, events[0]), fromUs, graceUs);
      }
      PlaceAllKeyed(Place(b, events[0], fromUs, graceUs), events[1..], fromUs, graceUs);
    }
  }

  ghost function BenchIds(b: Book, events: seq<Event>): set<Id> {
    BenchOf(CauseRows(b.order, b.chains, events))
  }

  /** In a graded window, for every class but identify, over all subjects or for one:
      the fitness readings are the commands counted by fate, so `confirmed` is every
      CONFIRMED command and the exclusions are exactly the bench, superseded and
      edge-open fates. */
  lemma {:induction false} FitnessAgreesWithFates(events: seq<Event>, fromUs: int, graceUs: int, edge: Edge, group: Group)
    requires group.cls != Identify
    ensures var b := BuildBook(events, fromUs, graceUs);
      Readings(b.order, b.chains, BenchIds(b, events), edge, group) == FateTally(b.order, b.chains, events, edge, group)
  {
    var b := BuildBook(events, fromUs, graceUs);
    EnrollKeyed(EMPTY_BOOK, events);
    PlaceAllKeyed(Enroll(EMPTY_BOOK, events), events, fromUs, graceUs);
    forall id | id in b.chains ensures id in BenchIds(b, events) <==> CauseFor(b.chains[id], events) == Some(Bench) {
      BlockHolds(b.order, b.chains, events, id);
      hide BuildBook, CauseFor, CauseRows;
    }
    hide CauseFor, CauseRows, FateTally, Readings;
    ReadingsAreFates(b.order, b.chains, events, BenchIds(b, events), edge, group);
  }
}
