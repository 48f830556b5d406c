/** What a run has banked, put on record and done so far, and what backs each entry. */
module Progress {
  import opened Acts
  import opened ApiLines
  import opened EvidenceState
  import opened LogWindow
  import opened NewRuns
  import opened Options
  import opened Scenarios
  import opened Templates

  /** One read of the log: for which positive, at which interaction, at what clock. */
  datatype Read = Read(line: nat, at: nat, when: nat)

  /** One evaluation of an api positive, begun at interaction `at`. */
  datatype Ask = Ask(line: nat, at: nat)

  /** A gated act, done at interaction `at` on account of positive `line`. */
  datatype Done = Done(act: Gated, line: nat, at: nat)

  /** The banked runs, the positives on record and the acts done; the reads of the log and the
      evaluations of api lines that were made; and how many positives are behind the run. */
  datatype Books = Books(
    captures: seq<Bound>, recorded: seq<nat>, performed: seq<Done>,
    polled: seq<Read>, asked: seq<Ask>, behind: nat)

  function ActsOf(performed: seq<Done>): seq<Gated> {
    seq(|performed|, i requires 0 <= i < |performed| => performed[i].act)
  }

  predicate OfApi(s: Scenario, a: Ask) { a.line < |s.positives| && s.positives[a.line].Api? }

  /** What an evaluation said. */
  function Judged(w: World, s: Scenario, v: View, known: Known, a: Ask): Step
    requires OfApi(s, a)
  {
    ApiStep(w, v, known, s.positives[a.line], a.at)
  }

  /** The answer puts the line on record: it says so, or it never came to anything on a line that records. */
  predicate OnTheBooks(p: Positive, s: Step)
    requires p.Api?
  {
    s.state.OnRecord? || (s.state.NotYet? && p.records)
  }

  ghost predicate BankedBy(w: World, s: Scenario, v: View, known: Known, a: Ask, c: Bound) {
    OfApi(s, a) && Judged(w, s, v, known, a).state.Fine? && c in Judged(w, s, v, known, a).found
  }

  /** An evaluation that was ok banked the run. */
  ghost predicate Banked(w: World, s: Scenario, v: View, known: Known, asked: seq<Ask>, c: Bound) {
    exists a :: a in asked && BankedBy(w, s, v, known, a, c)
  }

  ghost predicate RecordedBy(w: World, s: Scenario, v: View, known: Known, a: Ask, i: nat) {
    a.line == i && OfApi(s, a) && OnTheBooks(s.positives[i], Judged(w, s, v, known, a))
  }

  /** An evaluation put the line on record. */
  ghost predicate Recordable(w: World, s: Scenario, v: View, known: Known, asked: seq<Ask>, i: nat) {
    exists a :: a in asked && RecordedBy(w, s, v, known, a, i)
  }

  ghost predicate AnsweredBy(w: World, s: Scenario, v: View, known: Known, captures: seq<Bound>, a: Ask, j: nat) {
    && a.line == j && OfApi(s, a) && Judged(w, s, v, known, a).state.Fine?
    && forall c :: c in Judged(w, s, v, known, a).found ==> c in captures
  }

  /** An evaluation of the line was ok, and its runs are banked. */
  ghost predicate Answered(w: World, s: Scenario, v: View, known: Known, b: Books, j: nat) {
    exists a :: a in b.asked && AnsweredBy(w, s, v, known, b.captures, a, j)
  }

  ghost predicate DoneAt(w: World, v: View, d: Done, k: nat, tick: nat) {
    && k < |v.marks| && v.marks[k].line == d.line && Releases(w, v.lets, d.act, v.marks[k].p)
    && v.marks[k].at <= d.at <= Until(v.marks, k, tick)
  }

  /** The act was done after a line that releases it was satisfied, and before the next one was. */
  ghost predicate DoneInTime(w: World, v: View, d: Done, tick: nat) {
    exists k: nat :: DoneAt(w, v, d, k, tick)
  }

  /** The positive was satisfied, answered, or put on record. */
  ghost predicate Passed(w: World, s: Scenario, v: View, known: Known, b: Books, surfaced: bool, j: nat)
    requires j < |s.positives|
  {
    && Handled(v, s.positives, j)
    && (surfaced && s.positives[j].Api? ==> j in b.recorded || Answered(w, s, v, known, b, j))
  }

  /** Every entry is backed, the first `n` positives have passed, and the acts done for them came in time. */
  ghost predicate BooksHold(
    w: World, s: Scenario, v: View, known: Known, b: Books, surfaced: bool, n: nat, tick: nat)
  {
    && n <= b.behind <= |s.positives|
    && (forall j :: 0 <= j < n ==> Passed(w, s, v, known, b, surfaced, j))
    && (forall c :: c in b.captures ==> Banked(w, s, v, known, b.asked, c))
    && (forall i :: i in b.recorded ==> i < b.behind && Recordable(w, s, v, known, b.asked, i))
    && (forall d :: d in b.performed ==> Entitled(w, s, v, d, b.behind, tick) && (d.line < n ==> DoneInTime(w, v, d, tick)))
  }

  /** Some log line behind the run releases the act. */
  ghost predicate Entitled(w: World, s: Scenario, v: View, d: Done, behind: nat, tick: nat) {
    && d.line < behind && d.line < |s.positives| && s.positives[d.line].Log?
    && Releases(w, v.lets, d.act, s.positives[d.line]) && d.at <= tick
  }

  // ---------------------------------------------------------------- entries stay backed

  lemma NoRunAfter(s: Scenario, p: Positive)
    requires !UsesRunAfter(s.positives) && p in s.positives && p.Api?
    ensures forall a :: a in p.asserts ==> !a.NewRunAfter?
  {
    forall a | a in p.asserts
      ensures !a.NewRunAfter?
    {
      assert !IsRunAfter(a);
    }
  }

  lemma JudgedKept(w: World, s: Scenario, v: View, more: View, known: Known, later: Known, a: Ask, tick: nat)
    requires Keeps(v, more, tick) && OfApi(s, a) && (UsesRunAfter(s.positives) ==> known == later)
    requires !Judged(w, s, v, known, a).state.Declined?
    ensures Judged(w, s, more, later, a) == Judged(w, s, v, known, a)
  {
    hide ApiStep, Extends, UsesRunAfter;
    var p := s.positives[a.line];
    if !UsesRunAfter(s.positives) {
      NoRunAfter(s, p);
    }
    ApiStepKept(w, v, more, known, later, p, a.at);
  }

  lemma BankedKept(
    w: World, s: Scenario, v: View, more: View, known: Known, later: Known,
    asked: seq<Ask>, all: seq<Ask>, c: Bound, tick: nat)
    requires Keeps(v, more, tick) && (UsesRunAfter(s.positives) ==> known == later) && asked <= all
    requires Banked(w, s, v, known, asked, c)
    ensures Banked(w, s, more, later, all, c)
  {
    hide Judged, Keeps, UsesRunAfter;
    var a :| a in asked && BankedBy(w, s, v, known, a, c);
    JudgedKept(w, s, v, more, known, later, a, tick);
    assert a in all && BankedBy(w, s, more, later, a, c);
  }

  lemma RecordableKept(
    w: World, s: Scenario, v: View, more: View, known: Known, later: Known,
    asked: seq<Ask>, all: seq<Ask>, i: nat, tick: nat)
    requires Keeps(v, more, tick) && (UsesRunAfter(s.positives) ==> known == later) && asked <= all
    requires Recordable(w, s, v, known, asked, i)
    ensures Recordable(w, s, more, later, all, i)
  {
    hide Judged, Keeps, UsesRunAfter;
    var a :| a in asked && RecordedBy(w, s, v, known, a, i);
    JudgedKept(w, s, v, more, known, later, a, tick);
    assert a in all && RecordedBy(w, s, more, later, a, i);
  }

  lemma AnsweredKept(
    w: World, s: Scenario, v: View, more: View, known: Known, later: Known, b: Books, all: Books, j: nat, tick: nat)
    requires Keeps(v, more, tick) && (UsesRunAfter(s.positives) ==> known == later)
    requires b.asked <= all.asked && b.captures <= all.captures && Answered(w, s, v, known, b, j)
    ensures Answered(w, s, more, later, all, j)
  {
    hide Judged, Keeps, UsesRunAfter;
    var a :| a in b.asked && AnsweredBy(w, s, v, known, b.captures, a, j);
    JudgedKept(w, s, v, more, known, later, a, tick);
    assert a in all.asked && AnsweredBy(w, s, more, later, all.captures, a, j);
  }

  lemma DoneKept(w: World, v: View, more: View, d: Done, tick: nat, now: nat)
    requires Keeps(v, more, tick) && tick <= now && DoneInTime(w, v, d, tick)
    ensures DoneInTime(w, more, d, now)
  {
    hide Token, LineTokens, Extends;
    var k: nat :| DoneAt(w, v, d, k, tick);
    assert more.marks[k] == v.marks[k];
    if k + 1 < |v.marks| {
      assert more.marks[k + 1] == v.marks[k + 1];
    }
    ReleasesExtends(w, v.lets, more.lets, d.act, v.marks[k].p);
    assert DoneAt(w, more, d, k, now);
  }

  lemma EntitledKept(
    w: World, s: Scenario, v: View, more: View, d: Done, behind: nat, later: nat, tick: nat, now: nat)
    requires Keeps(v, more, tick) && tick <= now && behind <= later && Entitled(w, s, v, d, behind, tick)
    ensures Entitled(w, s, more, d, later, now)
  {
    hide Token, LineTokens, Extends;
    ReleasesExtends(w, v.lets, more.lets, d.act, s.positives[d.line]);
  }

  /** The books as they were, with more reads, evaluations and banked runs. */
  ghost predicate Continued(b: Books, all: Books) {
    && b.captures <= all.captures && b.recorded <= all.recorded && b.performed <= all.performed
    && b.asked <= all.asked && b.behind <= all.behind
  }

  lemma PassedKept(
    w: World, s: Scenario, v: View, more: View, known: Known, later: Known, b: Books, all: Books,
    surfaced: bool, j: nat, tick: nat)
    requires Keeps(v, more, tick) && (UsesRunAfter(s.positives) ==> known == later) && Continued(b, all)
    requires j < |s.positives| && Passed(w, s, v, known, b, surfaced, j)
    ensures Passed(w, s, more, later, all, surfaced, j)
  {
    hide Answered, UsesRunAfter, Extends;
    if s.positives[j].Log? {
      var m :| m in v.marks && m.line == j;
      assert m in more.marks;
    } else if surfaced && j !in b.recorded {
      AnsweredKept(w, s, v, more, known, later, b, all, j, tick);
    }
  }

  /** Nothing is lost as lines, lets, observations, reads and evaluations accumulate. */
  lemma {:induction false} BooksKept(
    w: World, s: Scenario, v: View, more: View, known: Known, later: Known, b: Books, all: Books,
    surfaced: bool, n: nat, tick: nat, now: nat)
    requires BooksHold(w, s, v, known, b, surfaced, n, tick) && Keeps(v, more, tick) && tick <= now
    requires UsesRunAfter(s.positives) ==> known == later
    requires Continued(b, all) && all.captures == b.captures && all.recorded == b.recorded
    requires all.performed == b.performed && all.behind <= |s.positives|
    ensures BooksHold(w, s, more, later, all, surfaced, n, now)
  {
    hide Passed, Banked, Recordable, DoneInTime, Entitled, Keeps, UsesRunAfter;
    forall j | 0 <= j < n
      ensures Passed(w, s, more, later, all, surfaced, j)
    {
      PassedKept(w, s, v, more, known, later, b, all, surfaced, j, tick);
    }
    forall c | c in b.captures
      ensures Banked(w, s, more, later, all.asked, c)
    {
      BankedKept(w, s, v, more, known, later, b.asked, all.asked, c, tick);
    }
    forall i | i in b.recorded
      ensures Recordable(w, s, more, later, all.asked, i)
    {
      RecordableKept(w, s, v, more, known, later, b.asked, all.asked, i, tick);
    }
    forall d | d in b.performed
      ensures Entitled(w, s, more, d, all.behind, now) && (d.line < n ==> DoneInTime(w, more, d, now))
    {
      EntitledKept(w, s, v, more, d, b.behind, all.behind, tick, now);
      if d.line < n {
        DoneKept(w, v, more, d, tick, now);
      }
    }
  }

  lemma KeepsItself(v: View, tick: nat)
    ensures Keeps(v, v, tick)
  {
  }

  lemma GrownKeeps(v: View, more: View, tick: nat)
    requires Grown(v, more) && v.utc.Keys == v.seen.Keys
    ensures Keeps(v, more, tick)
  {
  }

  /** One more positive has passed. */
  lemma BooksNext(w: World, s: Scenario, v: View, known: Known, b: Books, surfaced: bool, n: nat, tick: nat)
    requires BooksHold(w, s, v, known, b, surfaced, n, tick) && n < b.behind
    requires Passed(w, s, v, known, b, surfaced, n) && forall d :: d in b.performed ==> d.line < n
    ensures BooksHold(w, s, v, known, b, surfaced, n + 1, tick)
  {
    hide Passed, Banked, Recordable, DoneInTime, Entitled;
  }

  /** The last evaluation was ok: its runs are banked. */
  lemma BooksBank(
    w: World, s: Scenario, v: View, known: Known, b: Books, surfaced: bool, n: nat, tick: nat, a: Ask)
    requires BooksHold(w, s, v, known, b, surfaced, n, tick) && a in b.asked
    requires OfApi(s, a) && Judged(w, s, v, known, a).state.Fine?
    ensures var all := b.(captures := b.captures + Judged(w, s, v, known, a).found);
      && BooksHold(w, s, v, known, all, surfaced, n, tick)
      && Answered(w, s, v, known, all, a.line)
  {
    hide Judged, DoneInTime, Entitled, Recordable, Banked, Keeps, UsesRunAfter, Passed;
    var found := Judged(w, s, v, known, a).found;
    var all := b.(captures := b.captures + found);
    KeepsItself(v, tick);
    forall j | 0 <= j < n
      ensures Passed(w, s, v, known, all, surfaced, j)
    {
      PassedKept(w, s, v, v, known, known, b, all, surfaced, j, tick);
    }
    forall c | c in all.captures
      ensures Banked(w, s, v, known, b.asked, c)
    {
      if c in found {
        BankedNow(w, s, v, known, b.asked, a, c);
      }
    }
    assert AnsweredBy(w, s, v, known, all.captures, a, a.line);
  }

  lemma BankedNow(w: World, s: Scenario, v: View, known: Known, asked: seq<Ask>, a: Ask, c: Bound)
    requires a in asked && BankedBy(w, s, v, known, a, c)
    ensures Banked(w, s, v, known, asked, c)
  {
  }

  /** The last evaluation puts the line on record. */
  lemma BooksRecord(
    w: World, s: Scenario, v: View, known: Known, b: Books, surfaced: bool, n: nat, tick: nat, a: Ask)
    requires BooksHold(w, s, v, known, b, surfaced, n, tick) && a in b.asked && a.line < b.behind
    requires RecordedBy(w, s, v, known, a, a.line)
    ensures BooksHold(w, s, v, known, b.(recorded := b.recorded + [a.line]), surfaced, n, tick)
  {
    hide Judged, DoneInTime, Entitled, Banked, Keeps, UsesRunAfter, Passed, RecordedBy;
    var all := b.(recorded := b.recorded + [a.line]);
    KeepsItself(v, tick);
    forall j | 0 <= j < n
      ensures Passed(w, s, v, known, all, surfaced, j)
    {
      PassedKept(w, s, v, v, known, known, b, all, surfaced, j, tick);
    }
  }

  /** An act is done on account of the last log line; if it passed, it was the last one satisfied. */
  lemma BooksDone(
    w: World, s: Scenario, v: View, known: Known, b: Books, surfaced: bool, n: nat, tick: nat, g: Gated, line: nat)
    requires BooksHold(w, s, v, known, b, surfaced, n, tick) && line < b.behind
    requires s.positives[line].Log? && Releases(w, v.lets, g, s.positives[line])
    requires line < n ==> |v.marks| > 0 && var m := v.marks[|v.marks| - 1];
      m.line == line && m.p == s.positives[line] && m.at <= tick
    ensures BooksHold(w, s, v, known, b.(performed := b.performed + [Done(g, line, tick)]), surfaced, n, tick)
  {
    hide Judged, Banked, Recordable, Keeps, UsesRunAfter, Passed, Releases;
    var d := Done(g, line, tick);
    var all := b.(performed := b.performed + [d]);
    if line < n {
      assert DoneAt(w, v, d, |v.marks| - 1, tick);
    }
    KeepsItself(v, tick);
    forall j | 0 <= j < n
      ensures Passed(w, s, v, known, all, surfaced, j)
    {
      PassedKept(w, s, v, v, known, known, b, all, surfaced, j, tick);
    }
  }

  // ---------------------------------------------------------------- the reads of a live run

  ghost predicate ReadFor(w: World, v: View, r: Read, m: Mark) {
    && r.line == m.line && r.at + 1 == m.at
    && m.size <= |v.lines| && v.lines[..m.size] == CompleteLines(w.text(r.at))
  }

  /** The reads come in order, for one positive after the other. Every line was satisfied by what
      the log held at a read made for it, every evaluation follows such a read, and no act waited
      past a read for a later positive. */
  ghost predicate ReadsHold(w: World, v: View, b: Books, tick: nat) {
    && (forall i, j :: 0 <= i < j < |b.polled| ==>
        b.polled[i].at < b.polled[j].at && b.polled[i].line <= b.polled[j].line)
    && (forall r :: r in b.polled ==> r.at < tick && r.line <= b.behind)
    && (forall m :: m in v.marks ==> exists r :: r in b.polled && ReadFor(w, v, r, m))
    && (forall a :: a in b.asked ==> exists r :: r in b.polled && r.line == a.line && r.at + 1 == a.at)
    && (forall d, r :: d in b.performed && r in b.polled && r.line > d.line ==> d.at <= r.at)
  }

  /** More lines and more lets take nothing from the reads. */
  lemma ReadsGrow(w: World, v: View, more: View, b: Books, tick: nat, now: nat)
    requires ReadsHold(w, v, b, tick) && Grown(v, more) && tick <= now
    ensures ReadsHold(w, more, b, now)
  {
    hide Extends;
    forall m | m in more.marks
      ensures exists r :: r in b.polled && ReadFor(w, more, r, m)
    {
      var r :| r in b.polled && ReadFor(w, v, r, m);
      assert more.lines[..m.size] == v.lines[..m.size];
      assert ReadFor(w, more, r, m);
    }
  }

  /** A read for the positive in turn. */
  lemma ReadsRead(w: World, v: View, b: Books, tick: nat, when: nat)
    requires ReadsHold(w, v, b, tick) && forall d :: d in b.performed ==> d.at <= tick
    ensures ReadsHold(w, v, b.(polled := b.polled + [Read(b.behind, tick, when)]), tick + 1)
  {
    hide ReadFor;
    var all := b.polled + [Read(b.behind, tick, when)];
    forall m | m in v.marks
      ensures exists r :: r in all && ReadFor(w, v, r, m)
    {
      var r :| r in b.polled && ReadFor(w, v, r, m);
      assert r in all;
    }
    forall a | a in b.asked
      ensures exists r :: r in all && r.line == a.line && r.at + 1 == a.at
    {
      var r :| r in b.polled && r.line == a.line && r.at + 1 == a.at;
      assert r in all;
    }
  }

  /** An evaluation right after a read. */
  lemma ReadsAsk(w: World, v: View, b: Books, tick: nat, now: nat, a: Ask)
    requires ReadsHold(w, v, b, tick) && tick <= now
    requires |b.polled| > 0 && b.polled[|b.polled| - 1].line == a.line && b.polled[|b.polled| - 1].at + 1 == a.at
    ensures ReadsHold(w, v, b.(asked := b.asked + [a]), now)
  {
    hide ReadFor;
    assert b.polled[|b.polled| - 1] in b.polled;
  }

  /** A line satisfied by what was just read. */
  lemma ReadsMark(w: World, v: View, more: View, b: Books, tick: nat, now: nat, m: Mark)
    requires ReadsHold(w, v, b, tick) && tick <= now && b.behind == m.line
    requires more.lines == v.lines && more.marks == v.marks + [m] && m.size == |v.lines|
    requires |b.polled| > 0 && var r := b.polled[|b.polled| - 1];
      r.line == m.line && r.at + 1 == m.at && v.lines == CompleteLines(w.text(r.at))
    ensures ReadsHold(w, more, b.(behind := b.behind + 1), now)
  {
    forall x | x in more.marks
      ensures exists r :: r in b.polled && ReadFor(w, more, r, x)
    {
      if x in v.marks {
        var r :| r in b.polled && ReadFor(w, v, r, x);
        assert ReadFor(w, more, r, x);
      } else {
        var r := b.polled[|b.polled| - 1];
        assert more.lines[..m.size] == v.lines;
        assert r in b.polled && ReadFor(w, more, r, x);
      }
    }
  }

  /** An act done on account of the positive just passed. */
  lemma ReadsDone(w: World, v: View, b: Books, tick: nat, d: Done)
    requires ReadsHold(w, v, b, tick) && d.line + 1 == b.behind && forall r :: r in b.polled ==> r.line <= d.line
    ensures ReadsHold(w, v, b.(performed := b.performed + [d]), tick)
  {
    hide ReadFor;
  }
}
