/** `build_commands`: every partition row finds its command by exact key, by one
    hop through a dispatch, or by the oldest command still open. */
module Attach {
  import opened Commands
  import opened Events
  import opened Options

  /** The working state: commands in first-seen order, the dispatch rows
      already attached, and the rows no command claimed. */
  datatype Book = Book(
    order: seq<Id>, chains: map<Id, Chain>, dispatches: map<Id, Id>,
    unplaced: seq<Event>, carriedIn: seq<Event>)

  /** Every listed id is a command, listed once; dispatches point at commands. */
  ghost predicate BookOk(b: Book) {
    && (forall id :: id in b.order <==> id in b.chains)
    && (forall i, j :: 0 <= i < j < |b.order| ==> b.order[i] != b.order[j])
    && (forall d :: d in b.dispatches ==> b.dispatches[d] in b.chains)
  }

  function EnrollRow(b: Book, e: Event): (r: Book)
    requires BookOk(b)
    ensures BookOk(r)
  {
    if e.kind.CommandIssued? then
      b.(order := if e.id in b.chains then b.order else b.order + [e.id],
         chains := b.chains[e.id := NewChain(e)])
    else b
  }

  /** The first pass: one command per issue row; a repeated id replaces in place. */
  function Enroll(b: Book, events: seq<Event>): (r: Book)
    requires BookOk(b)
    ensures BookOk(r)
    decreases |events|
  {
    if |events| == 0 then b else Enroll(EnrollRow(b, events[0]), events[1..])
  }

  const EMPTY_BOOK := Book([], map[], map[], [], [])

  /** May row `e` still close this command: same correlation, subject and type
      (when the row names one), issued by then, first terminal not before it. */
  predicate StillOpen(c: Chain, e: Event, commandType: Option<string>) {
    && c.Correlation() == e.correlation && c.Subject() == e.subject
    && (commandType.Some? ==> c.CommandType() == commandType)
    && c.IssuedUs() <= e.ingest
    && !(|c.Terminals()| > 0 && c.Terminals()[0].row.ingest < e.ingest)
  }

  /** The scan of `open_fallback`: keep the earliest issue, the first listed on a tie. */
  function Oldest(ids: seq<Id>, open: Id -> bool, issuedUs: Id -> int): (r: Option<Id>)
    ensures r.Some? ==> r.value in ids && open(r.value)
  {
    if |ids| == 0 then None
    else
      var best := Oldest(ids[..|ids| - 1], open, issuedUs);
      var id := ids[|ids| - 1];
      if open(id) && (best.None? || issuedUs(id) < issuedUs(best.value)) then Some(id) else best
  }

  function OpenIn(chains: map<Id, Chain>, e: Event, commandType: Option<string>): Id -> bool {
    id => id in chains && StillOpen(chains[id], e, commandType)
  }

  function IssuedIn(chains: map<Id, Chain>): Id -> int {
    id => if id in chains then chains[id].IssuedUs() else 0
  }

  function OldestOpen(chains: map<Id, Chain>, ids: seq<Id>, e: Event, commandType: Option<string>): Option<Id> {
    Oldest(ids, OpenIn(chains, e, commandType), IssuedIn(chains))
  }

  /** The command a row's own keys name, if any. */
  function KeyedTarget(b: Book, e: Event): Option<(Id, Match)>
    requires IsChainRow(e)
  {
    if e.kind.CommandDispatched? then
      if e.causation.Some? && e.causation.value in b.chains then Some((e.causation.value, CausationIssued)) else None
    else if e.kind.CommandResult? then
      if e.causation.Some? && e.causation.value in b.chains then Some((e.causation.value, CausationIssued))
      else if e.causation.Some? && e.causation.value in b.dispatches
      then Some((b.dispatches[e.causation.value], CausationDispatched))
      else None
    else
      var key := CommandEventIdOf(e);
      if key.Some? && key.value in b.chains then Some((key.value, PayloadCommandEventId))
      else if e.causation.Some? && e.causation.value in b.chains then Some((e.causation.value, CausationIssued))
      else None
  }

  function FallbackTarget(b: Book, e: Event): Option<(Id, Match)> {
    var commandType := if e.kind.CommandResult? then CommandTypeOf(e) else None;
    match OldestOpen(b.chains, b.order, e, commandType)
    case None => None
    case Some(id) => Some((id, if e.kind.CommandResult? then FallbackSubjectType else FallbackSubject))
  }

  function Target(b: Book, e: Event): Option<(Id, Match)>
    requires IsChainRow(e)
  {
    if KeyedTarget(b, e).Some? then KeyedTarget(b, e) else FallbackTarget(b, e)
  }

  lemma TargetInBook(b: Book, e: Event)
    requires BookOk(b) && IsChainRow(e)
    ensures Target(b, e).Some? ==> Target(b, e).value.0 in b.chains
  {}

  /** What a row does once its target is known. */
  function FileRow(b: Book, e: Event, target: Option<(Id, Match)>, fromUs: int, graceUs: int): Book
    requires IsChainRow(e) && (target.Some? ==> target.value.0 in b.chains)
  {
    match target
    case Some((id, how)) =>
      b.(chains := b.chains[id := b.chains[id].Append(e, how)],
         dispatches := if e.kind.CommandDispatched? then b.dispatches[e.id := id] else b.dispatches)
    case None =>
      if e.ingest - fromUs <= graceUs then b.(carriedIn := b.carriedIn + [e])
      else b.(unplaced := b.unplaced + [e])
  }

  /** One row of the second pass. */
  function Place(b: Book, e: Event, fromUs: int, graceUs: int): (r: Book)
    requires BookOk(b)
    ensures BookOk(r) && r.order == b.order && r.chains.Keys == b.chains.Keys
  {
    if IsChainRow(e) then TargetInBook(b, e); FileRow(b, e, Target(b, e), fromUs, graceUs) else b
  }

  function PlaceAll(b: Book, events: seq<Event>, fromUs: int, graceUs: int): (r: Book)
    requires BookOk(b)
    ensures BookOk(r) && r.order == b.order && r.chains.Keys == b.chains.Keys
    decreases |events|
  {
    if |events| == 0 then b
    else PlaceAll(Place(b, events[0], fromUs, graceUs), events[1..], fromUs, graceUs)
  }

  /** The specification of `build_commands`. */
  function BuildBook(events: seq<Event>, fromUs: int, graceUs: int): Book {
    PlaceAll(Enroll(EMPTY_BOOK, events), events, fromUs, graceUs)
  }

  /** The fallback's answer, without its scan: an open command, none issued
      earlier, and none issued at the same instant listed before it. */
  lemma {:induction false} OldestIsOldest(ids: seq<Id>, open: Id -> bool, issuedUs: Id -> int)
    ensures Oldest(ids, open, issuedUs).None? <==> forall id :: id in ids ==> !open(id)
    ensures Oldest(ids, open, issuedUs).Some? ==>
      exists k :: 0 <= k < |ids| && IsOldest(ids, open, issuedUs, k) && Oldest(ids, open, issuedUs) == Some(ids[k])
  {
    if |ids| > 0 {
      var front, id := ids[..|ids| - 1], ids[|ids| - 1];
      OldestIsOldest(front, open, issuedUs);
      assert forall x :: x in ids <==> x in front || x == id;
      assert forall i :: 0 <= i < |front| ==> ids[i] == front[i] && ids[i] in front;
      var was, best := Oldest(front, open, issuedUs), Oldest(ids, open, issuedUs);
      if was.Some? {
        var k :| 0 <= k < |front| && IsOldest(front, open, issuedUs, k) && was == Some(front[k]);
        assert IsOldest(ids, open, issuedUs, if best == was then k else |ids| - 1);
      } else if best.Some? {
        assert IsOldest(ids, open, issuedUs, |ids| - 1);
      }
    }
  }

  ghost predicate IsOldest(ids: seq<Id>, open: Id -> bool, issuedUs: Id -> int, k: int)
    requires 0 <= k < |ids|
  {
    && open(ids[k])
    && (forall i :: 0 <= i < |ids| && open(ids[i]) ==> issuedUs(ids[k]) <= issuedUs(ids[i]))
    && (forall i :: 0 <= i < k && open(ids[i]) ==> issuedUs(ids[k]) < issuedUs(ids[i]))
  }

  lemma {:induction false} PlaceAllAppend(b: Book, xs: seq<Event>, ys: seq<Event>, fromUs: int, graceUs: int)
    requires BookOk(b)
    ensures PlaceAll(b, xs + ys, fromUs, graceUs) == PlaceAll(PlaceAll(b, xs, fromUs, graceUs), ys, fromUs, graceUs)
    decreases |xs|
  {
    if |xs| == 0 {
      assert xs + ys == ys;
    } else {
      assert (xs + ys)[1..] == xs[1..] + ys;
      PlaceAllAppend(Place(b, xs[0], fromUs, graceUs), xs[1..], ys, fromUs, graceUs);
    }
  }

  lemma {:induction false} EnrollAppend(b: Book, xs: seq<Event>, ys: seq<Event>)
    requires BookOk(b)
    ensures Enroll(b, xs + ys) == Enroll(Enroll(b, xs), ys)
    decreases |xs|
  {
    if |xs| == 0 {
      assert xs + ys == ys;
    } else {
      assert (xs + ys)[1..] == xs[1..] + ys;
      EnrollAppend(EnrollRow(b, xs[0]), xs[1..], ys);
    }
  }

  /** A command and the lists its rows are appended to. */
  class Command {
    const issue: Event
    var dispatched: seq<Placed>
    var results: seq<Placed>
    var confirmed: seq<Placed>
    var timedOut: seq<Placed>

    constructor (e: Event)
      ensures View() == NewChain(e)
    {
      issue := e;
      dispatched, results, confirmed, timedOut := [], [], [], [];
    }

    function View(): Chain
      reads this
    {
      Chain(issue, dispatched, results, confirmed, timedOut)
    }

    method Attach(e: Event, how: Match)
      requires IsChainRow(e)
      modifies this
      ensures View() == old(View()).Append(e, how)
    {
      match e.kind {
        case CommandDispatched => dispatched := dispatched + [Placed(e, how)];
        case CommandResult => results := results + [Placed(e, how)];
        case CommandTimedOut => timedOut := timedOut + [Placed(e, how)];
        case StateConfirmed => confirmed := confirmed + [Placed(e, how)];
      }
    }
  }

  /** The values of a dictionary of commands. */
  function Views(commands: map<Id, Command>): map<Id, Chain>
    reads commands.Values
  {
    map id | id in commands :: commands[id].View()
  }

  ghost predicate Separate(commands: map<Id, Command>) {
    forall a, b :: a in commands && b in commands && a != b ==> commands[a] != commands[b]
  }

  method OpenFallback(order: seq<Id>, commands: map<Id, Command>, e: Event, commandType: Option<string>)
    returns (best: Option<Id>)
    requires forall id :: id in order ==> id in commands
    ensures best == OldestOpen(Views(commands), order, e, commandType)
  {
    best := None;
    ghost var views := Views(commands);
    ghost var open, issuedUs := OpenIn(views, e, commandType), IssuedIn(views);
    hide Chain.Terminals;
    for i := 0 to |order|
      invariant best == Oldest(order[..i], open, issuedUs)
    {
      assert order[..i + 1][..i] == order[..i];
      var id := order[i];
      var c := commands[id];
      assert open(id) == StillOpen(c.View(), e, commandType) && issuedUs(id) == c.issue.ingest;
      assert best.Some? ==> issuedUs(best.value) == commands[best.value].issue.ingest;
      if StillOpen(c.View(), e, commandType)
         && (best.None? || c.issue.ingest < commands[best.value].issue.ingest) {
        best := Some(id);
      }
    }
    assert order[..|order|] == order;
  }

  /** The key rules of the second pass, then the fallback. */
  method FindTarget(order: seq<Id>, commands: map<Id, Command>, viaDispatch: map<Id, Id>, e: Event, ghost b: Book)
    returns (target: Option<(Id, Match)>)
    requires IsChainRow(e) && BookOk(b)
    requires b.order == order && b.chains == Views(commands) && b.dispatches == viaDispatch
    ensures target == Target(b, e)
  {
    var key := if e.kind.CommandTimedOut? || e.kind.StateConfirmed? then CommandEventIdOf(e) else None;
    if key.Some? && key.value in commands {
      return Some((key.value, PayloadCommandEventId));
    }
    if e.causation.Some? && e.causation.value in commands {
      return Some((e.causation.value, CausationIssued));
    }
    if e.kind.CommandResult? && e.causation.Some? && e.causation.value in viaDispatch {
      return Some((viaDispatch[e.causation.value], CausationDispatched));
    }
    var best := OpenFallback(order, commands, e, if e.kind.CommandResult? then CommandTypeOf(e) else None);
    return if best.None? then None
           else Some((best.value, if e.kind.CommandResult? then FallbackSubjectType else FallbackSubject));
  }

  method Enlist(commands: map<Id, Command>, e: Event) returns (more: map<Id, Command>)
    requires Separate(commands)
    ensures Separate(more) && fresh(more.Values - commands.Values)
    ensures Views(more) == Views(commands)[e.id := NewChain(e)]
  {
    assert forall id :: id in commands ==> commands[id] in commands.Values;
    var c := new Command(e);
    more := commands[e.id := c];
    assert more.Values <= commands.Values + {c};
  }

  method EnrollCommands(events: seq<Event>) returns (order: seq<Id>, commands: map<Id, Command>)
    ensures Separate(commands) && fresh(commands.Values)
    ensures var b := Enroll(EMPTY_BOOK, events);
      b == Book(order, Views(commands), map[], [], [])
  {
    order, commands := [], map[];
    ghost var b := EMPTY_BOOK;
    for i := 0 to |events|
      invariant fresh(commands.Values) && Separate(commands)
      invariant BookOk(b) && b == Book(order, Views(commands), map[], [], [])
      invariant Enroll(EMPTY_BOOK, events) == Enroll(b, events[i..])
    {
      var e := events[i];
      assert events[i..][1..] == events[i + 1..];
      b := EnrollRow(b, e);
      if e.kind.CommandIssued? {
        if e.id !in commands { order := order + [e.id]; }
        commands := Enlist(commands, e);
      }
    }
    assert events[|events|..] == [];
  }

  /** Appending to one command leaves every other as it was. */
  method AttachRow(order: seq<Id>, commands: map<Id, Command>, viaDispatch: map<Id, Id>, e: Event, ghost b: Book)
    returns (target: Option<(Id, Match)>)
    requires IsChainRow(e) && BookOk(b) && Separate(commands)
    requires b.order == order && b.chains == Views(commands) && b.dispatches == viaDispatch
    modifies commands.Values
    ensures target == Target(b, e) && (target.Some? ==> target.value.0 in b.chains)
    ensures Views(commands) == if target.None? then b.chains
                               else b.chains[target.value.0 := b.chains[target.value.0].Append(e, target.value.1)]
  {
    target := FindTarget(order, commands, viaDispatch, e, b);
    TargetInBook(b, e);
    if target.Some? {
      var c := commands[target.value.0];
      assert c in commands.Values;
      c.Attach(e, target.value.1);
    }
  }

  method BuildCommands(events: seq<Event>, fromUs: int, graceUs: int)
    returns (order: seq<Id>, commands: map<Id, Command>, unplaced: seq<Event>, carriedIn: nat)
    ensures Separate(commands) && fresh(commands.Values)
    ensures var b := BuildBook(events, fromUs, graceUs);
      && order == b.order && Views(commands) == b.chains
      && unplaced == b.unplaced && carriedIn == |b.carriedIn|
  {
    order, commands := EnrollCommands(events);
    ghost var b := Enroll(EMPTY_BOOK, events);
    var viaDispatch: map<Id, Id> := map[];
    unplaced, carriedIn := [], 0;
    for i := 0 to |events|
      invariant BookOk(b) && b.order == order && b.chains == Views(commands)
      invariant b.dispatches == viaDispatch && b.unplaced == unplaced && |b.carriedIn| == carriedIn
      invariant BuildBook(events, fromUs, graceUs) == PlaceAll(b, events[i..], fromUs, graceUs)
    {
      var e := events[i];
      assert events[i..][1..] == events[i + 1..];
      ghost var next := Place(b, e, fromUs, graceUs);
      if IsChainRow(e) {
        var target := AttachRow(order, commands, viaDispatch, e, b);
        assert next == FileRow(b, e, target, fromUs, graceUs);
        if target.Some? {
          if e.kind.CommandDispatched? { viaDispatch := viaDispatch[e.id := target.value.0]; }
        } else if e.ingest - fromUs <= graceUs {
          carriedIn := carriedIn + 1;
        } else {
          unplaced := unplaced + [e];
        }
      }
      b := next;
    }
    assert events[|events|..] == [];
  }
}
