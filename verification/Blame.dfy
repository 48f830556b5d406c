/** What the timeout block says of a command, read off the log: each cause and each piece of evidence
    by the rows that decide it. */
module Blame {
  import opened Attach
  import opened Causes
  import opened Commands
  import opened Events
  import opened Logs
  import opened Options
  import opened Destinations

  /** The command asks for that word. */
  predicate Wants(c: Chain, word: string) {
    && !IsOpaque(c.issue)
    && ((c.issue.payload.commandType == Some("turn_on") && word == "true")
        || (c.issue.payload.commandType == Some("turn_off") && word == "false"))
  }

  /** A state row of the command's subject, before its issue. */
  predicate Earlier(c: Chain, e: Event) {
    (e.kind.StateReported? || e.kind.StateConfirmed?) && e.subject == c.issue.subject && e.position < c.issue.position
  }

  predicate OfSwitch(e: Event) { !IsOpaque(e) && e.payload.attributeKey == Some("on") }

  /** The last row before the issue that is opaque or of the switch: in a log in position order, the newest. */
  predicate Latest(events: seq<Event>, c: Chain, k: nat) {
    && k < |events| && Earlier(c, events[k]) && (IsOpaque(events[k]) || OfSwitch(events[k]))
    && forall j :: k < j < |events| && Earlier(c, events[j]) ==> !IsOpaque(events[j]) && !OfSwitch(events[j])
  }

  /** The last readable row of the switch before the issue. */
  predicate LatestReadable(events: seq<Event>, c: Chain, k: nat) {
    && k < |events| && Earlier(c, events[k]) && OfSwitch(events[k])
    && forall j :: k < j < |events| && Earlier(c, events[j]) ==> !OfSwitch(events[j])
  }

  /** A report says its value, a confirmation the value it expected. */
  function Said(e: Event): Option<Reading>
    requires !IsOpaque(e)
  {
    if e.kind.StateReported? then e.payload.value else e.payload.expectedValue
  }

  predicate Says(e: Event, word: string) { !IsOpaque(e) && Said(e).Some? && Said(e).value.text == word }

  predicate SaysOther(e: Event, word: string) { !IsOpaque(e) && Said(e).Some? && Said(e).value.text != word }

  /** A report of the command's subject after its issue. */
  predicate Report(c: Chain, e: Event) {
    e.kind.StateReported? && e.subject == c.issue.subject && c.issue.position < e.position
  }

  /** A report between the issue and the first timeout row. */
  predicate InWindow(c: Chain, e: Event)
    requires c.timedOut != []
  {
    Report(c, e) && e.position < c.timedOut[0].row.position
  }

  predicate Matches(e: Event, word: string) { OfSwitch(e) && e.payload.value.Some? && e.payload.value.value.text == word }

  ghost predicate LatestSaysOther(events: seq<Event>, c: Chain, word: string) {
    exists k: nat :: Latest(events, c, k) && SaysOther(events[k], word)
  }

  ghost predicate MatchedInside(events: seq<Event>, c: Chain, word: string)
    requires c.timedOut != []
  {
    exists i :: 0 <= i < |events| && InWindow(c, events[i]) && Matches(events[i], word)
  }

  ghost predicate OpaqueInside(events: seq<Event>, c: Chain)
    requires c.timedOut != []
  {
    exists i :: 0 <= i < |events| && InWindow(c, events[i]) && IsOpaque(events[i])
  }

  /** The cause of a command that asks for `word`, each by its own condition. */
  ghost predicate CauseOf(events: seq<Event>, c: Chain, word: string, cause: Cause)
    requires c.timedOut != []
  {
    && (cause == Bench <==> exists k: nat :: Latest(events, c, k) && Says(events[k], word))
    && (cause == Device <==>
          && LatestSaysOther(events, c, word) && c.dispatched != []
          && !MatchedInside(events, c, word) && !OpaqueInside(events, c))
    && (cause == Unattributed(NoPriorValue) <==>
          forall k: nat :: Latest(events, c, k) ==> !IsOpaque(events[k]) && Said(events[k]).None?)
    && (cause == Unattributed(NotDispatched) <==> LatestSaysOther(events, c, word) && c.dispatched == [])
    && (cause == Unattributed(MatchedInWindow) <==>
          LatestSaysOther(events, c, word) && c.dispatched != [] && MatchedInside(events, c, word))
    && (cause == Unattributed(OpaqueState) <==>
          || (exists k: nat :: Latest(events, c, k) && IsOpaque(events[k]))
          || (LatestSaysOther(events, c, word) && c.dispatched != []
              && !MatchedInside(events, c, word) && OpaqueInside(events, c)))
    && cause != Unattributed(NoExpectation)
  }

  // ---------------------------------------------------------------- searches over the whole log

  lemma NewestPush(s: seq<Event>, x: Event, p: Event -> bool)
    ensures Newest(s + [x], p) == if p(x) then Some(x) else Newest(s, p)
  {
    assert (s + [x])[..|s|] == s;
  }

  lemma {:induction false} NewestSelect(s: seq<Event>, p: Event -> bool, q: Event -> bool, pq: Event -> bool)
    requires forall x :: x in s ==> (pq(x) <==> p(x) && q(x))
    ensures Newest(Select(s, p), q) == Newest(s, pq)
  {
    if |s| > 0 {
      var front, x := s[..|s| - 1], s[|s| - 1];
      assert s == front + [x];
      NewestSelect(front, p, q, pq);
      SelectPush(front, x, p);
      NewestPush(front, x, pq);
      hide Select, Newest;
      var r := Select(front, p);
      NewestPush(r, x, q);
      assert r + [] == r;
    }
  }

  lemma {:induction false} FirstSelect(s: seq<Event>, p: Event -> bool, q: Event -> bool, pq: Event -> bool)
    requires forall x :: x in s ==> (pq(x) <==> p(x) && q(x))
    ensures First(Select(s, p), q) == First(s, pq)
  {
    if |s| > 0 {
      FirstSelect(s[1..], p, q, pq);
      var rest := Select(s[1..], p);
      assert ([s[0]] + rest)[1..] == rest && [] + rest == rest;
    }
  }

  /** The places of the rows with a property. */
  function Places(s: seq<Event>, p: Event -> bool): set<int> { set i | 0 <= i < |s| && p(s[i]) }

  lemma PlacesPush(s: seq<Event>, x: Event, p: Event -> bool)
    ensures Places(s + [x], p) == Places(s, p) + if p(x) then {|s|} else {}
  {
    assert forall i :: 0 <= i < |s| ==> (s + [x])[i] == s[i];
  }

  lemma {:induction false} SelectCounts(s: seq<Event>, p: Event -> bool)
    ensures |Select(s, p)| == |Places(s, p)|
  {
    if |s| == 0 {
      assert Places(s, p) == {};
    } else {
      var front, x := s[..|s| - 1], s[|s| - 1];
      assert s == front + [x];
      SelectCounts(front, p);
      SelectPush(front, x, p);
      PlacesPush(front, x, p);
      assert |front| !in Places(front, p);
    }
  }

  /** The newest row of the block's search is the last such row of the log. */
  lemma {:induction false} NewestBeforeIs(events: seq<Event>, c: Chain)
    ensures var n := NewestBefore(StatesOf(events, c.issue.subject), c.issue.position, "on");
      && (n.None? <==> forall k: nat :: !Latest(events, c, k))
      && (n.Some? ==> exists k: nat :: Latest(events, c, k) && events[k] == n.value)
  {
    var ours := (e: Event) => IsStateRow(e) && e.subject == c.issue.subject;
    var early, relevant := (e: Event) => e.position < c.issue.position, (e: Event) => Relevant(e, "on");
    var oursEarly, all := (e: Event) => ours(e) && early(e), (e: Event) => Earlier(c, e) && (IsOpaque(e) || OfSwitch(e));
    SelectSelect(events, ours, early, oursEarly);
    NewestSelect(events, oursEarly, relevant, all);
    LastIs(events, all);
    assert forall k: nat :: Latest(events, c, k) <==> LastWith(events, all, k);
  }

  lemma {:induction false} NewestReadableIs(events: seq<Event>, c: Chain)
    ensures var n := NewestReadable(StatesOf(events, c.issue.subject), c.issue.position, "on");
      && (n.None? <==> forall k: nat :: !LatestReadable(events, c, k))
      && (n.Some? ==> exists k: nat :: LatestReadable(events, c, k) && events[k] == n.value)
  {
    var ours := (e: Event) => IsStateRow(e) && e.subject == c.issue.subject;
    var early, readable := (e: Event) => e.position < c.issue.position, (e: Event) => Causes.Readable(e, "on");
    var oursEarly, all := (e: Event) => ours(e) && early(e), (e: Event) => Earlier(c, e) && OfSwitch(e);
    SelectSelect(events, ours, early, oursEarly);
    NewestSelect(events, oursEarly, readable, all);
    LastIs(events, all);
    assert forall k: nat :: LatestReadable(events, c, k) <==> LastWith(events, all, k);
  }

  predicate LastWith(s: seq<Event>, p: Event -> bool, k: nat) {
    k < |s| && p(s[k]) && forall j :: k < j < |s| ==> !p(s[j])
  }

  predicate FirstWith(s: seq<Event>, p: Event -> bool, k: nat) {
    k < |s| && p(s[k]) && forall j :: 0 <= j < k ==> !p(s[j])
  }

  lemma LastIs(s: seq<Event>, p: Event -> bool)
    ensures Newest(s, p).None? <==> forall k: nat :: !LastWith(s, p, k)
    ensures Newest(s, p).Some? ==> exists k: nat :: LastWith(s, p, k) && s[k] == Newest(s, p).value
  {
    NewestIs(s, p);
    if Newest(s, p).Some? {
      var i: nat :| i < |s| && s[i] == Newest(s, p).value && p(s[i]) && forall j :: i < j < |s| ==> !p(s[j]);
      assert LastWith(s, p, i);
    }
  }

  lemma FirstIsWith(s: seq<Event>, p: Event -> bool)
    ensures First(s, p).None? <==> forall i :: 0 <= i < |s| ==> !p(s[i])
    ensures First(s, p).Some? ==> exists k: nat :: FirstWith(s, p, k) && s[k] == First(s, p).value
  {
    FirstIs(s, p);
    if First(s, p).Some? {
      var i: nat :| i < |s| && s[i] == First(s, p).value && p(s[i]) && forall j :: 0 <= j < i ==> !p(s[j]);
      assert FirstWith(s, p, i) && s[i] in s;
    }
  }

  // ---------------------------------------------------------------- the window and after

  lemma FirstOfStates(events: seq<Event>, c: Chain, q: Event -> bool, all: Event -> bool)
    requires forall e :: all(e) <==> IsStateRow(e) && e.subject == c.issue.subject && q(e)
    ensures First(StatesOf(events, c.issue.subject), q).None? <==> forall i :: 0 <= i < |events| ==> !all(events[i])
    ensures First(StatesOf(events, c.issue.subject), q).Some? ==>
      exists k: nat :: FirstWith(events, all, k) && events[k] == First(StatesOf(events, c.issue.subject), q).value
  {
    FirstSelect(events, (e: Event) => IsStateRow(e) && e.subject == c.issue.subject, q, all);
    FirstIsWith(events, all);
  }

  /** A readable report of the window that reads anything else. */
  predicate Mismatch(c: Chain, e: Event, word: string)
    requires c.timedOut != []
  {
    InWindow(c, e) && OfSwitch(e) && !Matches(e, word)
  }

  /** A matching report at or after the timeout. */
  predicate LateMatch(c: Chain, e: Event, word: string)
    requires c.timedOut != []
  {
    Report(c, e) && c.timedOut[0].row.position <= e.position && Matches(e, word)
  }

  /** What the walk forward finds, each by the rows of the log. */
  ghost predicate SeenWell(events: seq<Event>, c: Chain, word: string, seen: Seen)
    requires c.timedOut != []
  {
    && (seen.matched.Some? <==> MatchedInside(events, c, word))
    && (seen.opaqueInside.Some? <==> OpaqueInside(events, c))
    && (seen.opaqueInside.Some? ==>
          exists k: nat :: FirstWith(events, e => InWindow(c, e) && IsOpaque(e), k) && events[k] == seen.opaqueInside.value)
    && seen.mismatched == |Places(events, e => Mismatch(c, e, word))|
    && (seen.late.None? <==> forall i :: 0 <= i < |events| ==> !LateMatch(c, events[i], word))
    && (seen.late.Some? ==> exists k: nat :: FirstWith(events, e => LateMatch(c, e, word), k) && events[k] == seen.late.value)
  }

  lemma MismatchesAre(events: seq<Event>, c: Chain, word: string)
    requires c.timedOut != []
    ensures |Select(StatesOf(events, c.issue.subject),
                    (e: Event) => Inside(e, c.issue.position, c.timedOut[0].row.position) && Miss(e, "on", Reading(word, None)))|
      == |Places(events, e => Mismatch(c, e, word))|
  {
    var ours := (e: Event) => IsStateRow(e) && e.subject == c.issue.subject;
    var miss := (e: Event) => Inside(e, c.issue.position, c.timedOut[0].row.position) && Miss(e, "on", Reading(word, None));
    SelectSelect(events, ours, miss, e => Mismatch(c, e, word));
    SelectCounts(events, e => Mismatch(c, e, word));
  }

  lemma {:induction false} SeenIs(events: seq<Event>, c: Chain, word: string)
    requires c.timedOut != []
    ensures SeenWell(events, c, word,
      SeenRule(StatesOf(events, c.issue.subject), c.issue.position, c.timedOut[0].row.position, "on", Reading(word, None)))
  {
    var issue, end, expected := c.issue.position, c.timedOut[0].row.position, Reading(word, None);
    MismatchesAre(events, c, word);
    FirstOfStates(events, c, (e: Event) => Inside(e, issue, end) && Hit(e, "on", expected), e => InWindow(c, e) && Matches(e, word));
    FirstOfStates(events, c, (e: Event) => Inside(e, issue, end) && IsOpaque(e), e => InWindow(c, e) && IsOpaque(e));
    FirstOfStates(events, c, (e: Event) => LateHit(e, issue, end, "on", expected), e => LateMatch(c, e, word));
    hide Inside, Hit, Miss, LateHit, InWindow, Matches, LateMatch, Mismatch, StatesOf;
  }

  // ---------------------------------------------------------------- the whole row

  /** What the row copies from the command: its issue, its first timeout, its first dispatch, its last readable result. */
  ghost predicate Copies(c: Chain, r: CauseRow)
    requires c.timedOut != []
  {
    && r.command == c.issue.id && r.subject == c.issue.subject && r.issuedUs == c.issue.ingest
    && r.commandType == (if IsOpaque(c.issue) then None else c.issue.payload.commandType)
    && r.timedOutAfterUs == c.timedOut[0].row.ingest - c.issue.ingest
    && r.timeoutMs == (if IsOpaque(c.issue) || c.issue.payload.timeoutMs in {None, Some(0)} then 30000
                       else c.issue.payload.timeoutMs.value)
    && r.dispatchDelayUs == (if c.dispatched == [] then None else Some(c.dispatched[0].row.ingest - c.issue.ingest))
    && (r.resultOutcome.None? <==> forall p :: p in c.results ==> IsOpaque(p.row))
    && (r.resultOutcome.Some? ==>
          exists i: nat :: LastReadable(c.results, i) && c.results[i].row.payload.outcome == r.resultOutcome.value)
  }

  /** The evidence beside the cause of a command that asks for `word`. */
  ghost predicate EvidenceShown(events: seq<Event>, c: Chain, word: string, r: CauseRow)
    requires c.timedOut != []
  {
    && r.expectation == Some(("on", Reading(word, None)))
    && (r.prior.None? <==> forall k: nat :: !LatestReadable(events, c, k))
    && (r.prior.Some? ==>
          exists k: nat :: LatestReadable(events, c, k)
            && r.prior.value == Prior(events[k].kind, events[k].id, Said(events[k]), c.issue.ingest - events[k].ingest))
    && (r.opaqueId.Some? <==> r.cause == Unattributed(OpaqueState))
    && (r.opaqueId.Some? ==>
          || (exists k: nat :: Latest(events, c, k) && IsOpaque(events[k]) && r.opaqueId.value == events[k].id)
          || ((forall k: nat :: Latest(events, c, k) ==> !IsOpaque(events[k]))
              && exists k: nat :: FirstWith(events, e => InWindow(c, e) && IsOpaque(e), k) && r.opaqueId.value == events[k].id))
    && r.mismatched == Some(|Places(events, e => Mismatch(c, e, word))|)
    && (r.late.None? <==> forall i :: 0 <= i < |events| ==> !LateMatch(c, events[i], word))
    && (r.late.Some? ==>
          exists k: nat :: FirstWith(events, e => LateMatch(c, e, word), k)
            && r.late.value == Late(events[k].id, events[k].ingest - c.timedOut[0].row.ingest))
  }

  /** The whole row of a command on the timeout arm. */
  ghost predicate Blamed(events: seq<Event>, c: Chain, r: CauseRow)
    requires c.timedOut != []
  {
    && Copies(c, r)
    && (forall word :: Wants(c, word) ==> CauseOf(events, c, word, r.cause) && EvidenceShown(events, c, word, r))
    && (!Wants(c, "true") && !Wants(c, "false") ==>
          && r.cause == Unattributed(NoExpectation) && r.expectation.None? && r.prior.None?
          && r.opaqueId.None? && r.mismatched.None? && r.late.None?)
  }

  lemma LatestOnce(events: seq<Event>, c: Chain)
    ensures forall j: nat, k: nat :: Latest(events, c, j) && Latest(events, c, k) ==> j == k
  {
  }

  /** The five steps on the row that decides them. */
  function CauseFrom(e: Event, word: string, dispatched: bool, matched: bool, opaqueInside: bool): Cause {
    if IsOpaque(e) then Unattributed(OpaqueState)
    else if Said(e).None? then Unattributed(NoPriorValue)
    else if Said(e).value.text == word then Bench
    else if !dispatched then Unattributed(NotDispatched)
    else if matched then Unattributed(MatchedInWindow)
    else if opaqueInside then Unattributed(OpaqueState)
    else Device
  }

  lemma CauseFromLatest(events: seq<Event>, c: Chain, word: string, k: nat)
    requires c.timedOut != [] && Latest(events, c, k)
    ensures CauseOf(events, c, word,
      CauseFrom(events[k], word, c.dispatched != [], MatchedInside(events, c, word), OpaqueInside(events, c)))
  {
    LatestOnce(events, c);
    hide Latest, MatchedInside, OpaqueInside, Said;
  }

  lemma RuleFromLatest(events: seq<Event>, c: Chain, word: string, n: Option<Event>, cause: Cause)
    requires c.timedOut != []
    requires n == NewestBefore(StatesOf(events, c.issue.subject), c.issue.position, "on")
    requires cause == CauseRule(StatesOf(events, c.issue.subject), c.issue.position, c.timedOut[0].row.position, c.dispatched != [],
                                "on", Reading(word, None))
    ensures n.None? ==> cause == Unattributed(NoPriorValue)
    ensures n.Some? ==>
      && cause == CauseFrom(n.value, word, c.dispatched != [], MatchedInside(events, c, word), OpaqueInside(events, c))
  {
    var states, expected := StatesOf(events, c.issue.subject), Reading(word, None);
    var issue, end := c.issue.position, c.timedOut[0].row.position;
    NewestBeforeIs(events, c);
    SeenIs(events, c, word);
    SeenDecides(states, issue, end, "on", expected);
    hide NewestBefore, StatesOf, SeenRule, Latest, MatchedInside, OpaqueInside, Inside, Hit, FirstWith, Places;
  }

  lemma {:induction false} CauseIs(events: seq<Event>, c: Chain, word: string)
    requires c.timedOut != []
    ensures CauseOf(events, c, word,
      CauseRule(StatesOf(events, c.issue.subject), c.issue.position, c.timedOut[0].row.position, c.dispatched != [], "on",
                Reading(word, None)))
  {
    var n := NewestBefore(StatesOf(events, c.issue.subject), c.issue.position, "on");
    NewestBeforeIs(events, c);
    RuleFromLatest(events, c, word, n,
      CauseRule(StatesOf(events, c.issue.subject), c.issue.position, c.timedOut[0].row.position, c.dispatched != [], "on",
                Reading(word, None)));
    hide NewestBefore, StatesOf, Latest, CauseRule, CauseFrom, MatchedInside, OpaqueInside, Says, SaysOther;
    if n.Some? {
      var k: nat :| Latest(events, c, k) && events[k] == n.value;
      CauseFromLatest(events, c, word, k);
      hide CauseOf;
    }
  }

  lemma CopiesHold(c: Chain, r: CauseRow, states: seq<Event>)
    requires c.timedOut != [] && r == RowRule(c, states)
    ensures Copies(c, r)
  {
    LastOutcome(c);
    hide CauseRule, SeenRule, NewestBefore, NewestReadable, OpaqueIdRule, Chain.Outcomes;
    assert r.resultOutcome == LastOf(c.Outcomes());
    assert r.timeoutMs == (if IsOpaque(c.issue) || c.issue.payload.timeoutMs in {None, Some(0)} then 30000
                           else c.issue.payload.timeoutMs.value);
  }

  lemma EvidenceHolds(events: seq<Event>, c: Chain, word: string, r: CauseRow)
    requires c.timedOut != [] && Wants(c, word) && r == RowRule(c, StatesOf(events, c.issue.subject))
    requires CauseOf(events, c, word, r.cause)
    ensures EvidenceShown(events, c, word, r)
  {
    NewestBeforeIs(events, c);
    NewestReadableIs(events, c);
    LatestOnce(events, c);
    SeenIs(events, c, word);
    hide CauseRule, SeenRule, NewestBefore, NewestReadable, StatesOf, Latest, LatestReadable, MatchedInside, OpaqueInside,
      FirstWith, Places;
  }

  lemma {:induction false} RowIsBlamed(events: seq<Event>, c: Chain)
    requires c.timedOut != []
    ensures Blamed(events, c, RowRule(c, StatesOf(events, c.issue.subject)))
  {
    var r := RowRule(c, StatesOf(events, c.issue.subject));
    CopiesHold(c, r, StatesOf(events, c.issue.subject));
    forall word | Wants(c, word) ensures CauseOf(events, c, word, r.cause) && EvidenceShown(events, c, word, r) {
      CauseIs(events, c, word);
      assert CauseOf(events, c, word, r.cause) by {
        hide CauseRule, SeenRule, NewestBefore, NewestReadable, OpaqueIdRule, CauseOf, StatesOf;
      }
      EvidenceHolds(events, c, word, r);
    }
    hide CauseRule, SeenRule, NewestBefore, NewestReadable, OpaqueIdRule, StatesOf, CauseOf, EvidenceShown, Copies;
  }

  /** Timed out, and nothing else came back but acknowledgements and supersessions. */
  predicate TimedOutAlone(c: Chain) { Quiet(c) && c.timedOut != [] }

  function Arm(ids: seq<Id>, chains: map<Id, Chain>): (arm: seq<Id>)
    ensures forall i :: 0 <= i < |arm| ==> arm[i] in chains && TimedOutAlone(chains[arm[i]])
  {
    var arm := Select(ids, id => id in chains && TimedOutAlone(chains[id]));
    assert forall i :: 0 <= i < |arm| ==> arm[i] in arm;
    arm
  }

  /** The block has one row for each command that only timed out, in the order of the commands, and
      each row blames what the log shows. */
  lemma {:induction false} BlockBlames(ids: seq<Id>, chains: map<Id, Chain>, events: seq<Event>)
    ensures var rows, arm := CauseRows(ids, chains, events), Arm(ids, chains);
      |rows| == |arm| && forall i :: 0 <= i < |arm| ==> Blamed(events, chains[arm[i]], rows[i])
  {
    if |ids| == 0 {
      assert Arm(ids, chains) == [];
    } else {
      var front, id := ids[..|ids| - 1], ids[|ids| - 1];
      BlockBlames(front, chains, events);
      assert ids == front + [id];
      SelectPush(front, id, id => id in chains && TimedOutAlone(chains[id]));
      if id in chains { ClassifyMeans(chains[id]); }
      hide Blamed, Quiet, Chain.OnTimeoutArm, RowRule, StatesOf;
      if id in chains {
        if TimedOutAlone(chains[id]) { RowIsBlamed(events, chains[id]); }
      }
    }
  }

  /** In the book of a log: a row for each issued command that only timed out, in the order of first
      issue, naming the command and blaming what the log shows. */
  lemma {:induction false} BookBlames(events: seq<Event>, fromUs: int, graceUs: int)
    ensures var b := BuildBook(events, fromUs, graceUs);
      var rows, arm := CauseRows(b.order, b.chains, events), Arm(b.order, b.chains);
      && (forall id :: id in arm <==> Issued(events, id) && id in b.chains && TimedOutAlone(b.chains[id]))
      && |rows| == |arm|
      && forall i :: 0 <= i < |arm| ==> rows[i].command == arm[i] && Blamed(events, b.chains[arm[i]], rows[i])
  {
    var b := BuildBook(events, fromUs, graceUs);
    IssuesListed(events, fromUs, graceUs);
    BlockBlames(b.order, b.chains, events);
    hide BuildBook, CauseRows, Issued, TimedOutAlone, CauseOf, EvidenceShown;
  }
}
