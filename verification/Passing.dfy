/** What a live run has established at each step, and what its PASS means. */
module Passing {
  import opened Acts
  import opened ApiLines
  import opened EvidenceState
  import opened LogWindow
  import opened NewRuns
  import opened Options
  import opened Progress
  import opened Scenarios
  import opened Templates

  ghost predicate Established(w: World, s: Scenario, v: View, known: Known, b: Books, tick: nat) {
    && Base(w, s, v, b.behind, tick) && Guarded(w, s, v)
    && BooksHold(w, s, v, known, b, true, b.behind, tick) && ReadsHold(w, v, b, tick)
  }

  lemma GrownItself(v: View)
    ensures Grown(v, v)
  {
  }

  /** Reading more of the log, typing more entries, and letting time pass. */
  lemma EstablishedGrows(w: World, s: Scenario, v: View, more: View, known: Known, b: Books, tick: nat, now: nat)
    requires Established(w, s, v, known, b, tick) && Grown(v, more) && tick <= now
    ensures Established(w, s, more, known, b, now)
  {
    hide Marked, InTurn, Indexed, Guarded, BooksHold, ReadsHold, Grown, Keeps;
    BaseGrows(w, s, v, more, b.behind, tick, now);
    GuardedGrows(w, s, v, more);
    GrownKeeps(v, more, tick);
    BooksIn(w, s, v, known, b, true, b.behind, tick);
    BooksKept(w, s, v, more, known, known, b, b, true, b.behind, tick, now);
    ReadsGrow(w, v, more, b, tick, now);
  }

  lemma BooksIn(w: World, s: Scenario, v: View, known: Known, b: Books, surfaced: bool, n: nat, tick: nat)
    requires BooksHold(w, s, v, known, b, surfaced, n, tick)
    ensures b.behind <= |s.positives| && forall d :: d in b.performed ==> d.at <= tick && d.line < b.behind
  {
    hide Passed, Banked, Recordable, DoneInTime, Releases;
  }

  lemma BooksSame(
    w: World, s: Scenario, v: View, known: Known, b: Books, all: Books, surfaced: bool, n: nat, tick: nat, now: nat)
    requires BooksHold(w, s, v, known, b, surfaced, n, tick) && tick <= now
    requires all.captures == b.captures && all.recorded == b.recorded && all.performed == b.performed
    requires b.asked <= all.asked && b.behind <= all.behind <= |s.positives|
    ensures BooksHold(w, s, v, known, all, surfaced, n, now)
  {
    KeepsItself(v, tick);
    hide BooksHold, Keeps, UsesRunAfter;
    BooksKept(w, s, v, v, known, known, b, all, surfaced, n, tick, now);
  }

  lemma BaseLater(w: World, s: Scenario, v: View, n: nat, more: nat, tick: nat, now: nat)
    requires Base(w, s, v, n, tick) && n <= more && tick <= now
    ensures Base(w, s, v, more, now)
  {
    GrownItself(v);
    BaseGrows(w, s, v, v, n, tick, now);
    hide Marked, Indexed, Observed, Grown;
  }

  /** A read for the positive in turn. */
  lemma EstablishedRead(w: World, s: Scenario, v: View, known: Known, b: Books, tick: nat, when: nat)
    requires Established(w, s, v, known, b, tick)
    ensures Established(w, s, v, known, b.(polled := b.polled + [Read(b.behind, tick, when)]), tick + 1)
  {
    hide Base, Guarded, BooksHold, ReadsHold;
    BaseLater(w, s, v, b.behind, b.behind, tick, tick + 1);
    BooksIn(w, s, v, known, b, true, b.behind, tick);
    BooksSame(w, s, v, known, b, b.(polled := b.polled + [Read(b.behind, tick, when)]), true, b.behind, tick, tick + 1);
    ReadsRead(w, v, b, tick, when);
  }

  /** An evaluation of an api line, right after a read for it. */
  lemma EstablishedAsked(w: World, s: Scenario, v: View, known: Known, b: Books, tick: nat, now: nat, a: Ask)
    requires Established(w, s, v, known, b, tick) && tick <= now
    requires |b.polled| > 0 && b.polled[|b.polled| - 1].line == a.line && b.polled[|b.polled| - 1].at + 1 == a.at
    ensures Established(w, s, v, known, b.(asked := b.asked + [a]), now)
  {
    hide Base, Guarded, BooksHold, ReadsHold;
    BaseLater(w, s, v, b.behind, b.behind, tick, now);
    BooksIn(w, s, v, known, b, true, b.behind, tick);
    BooksSame(w, s, v, known, b, b.(asked := b.asked + [a]), true, b.behind, tick, now);
    ReadsAsk(w, v, b, tick, now, a);
  }

  lemma ReadsAdvance(w: World, v: View, b: Books, all: Books, tick: nat)
    requires ReadsHold(w, v, b, tick) && all.behind >= b.behind
    requires all.polled == b.polled && all.asked == b.asked && all.performed == b.performed
    ensures ReadsHold(w, v, all, tick)
  {
    hide ReadFor;
  }

  lemma ApiPasses(w: World, s: Scenario, v: View, known: Known, b: Books, j: nat)
    requires j < |s.positives| && s.positives[j].Api? && (j in b.recorded || Answered(w, s, v, known, b, j))
    ensures Passed(w, s, v, known, b, true, j)
  {
    hide Answered;
  }

  /** An api line whose asserts all hold is one more positive behind the run. */
  lemma {:induction false} EstablishedAnswered(w: World, s: Scenario, v: View, known: Known, b: Books, tick: nat, a: Ask)
    requires Established(w, s, v, known, b, tick) && a in b.asked && OfApi(s, a) && a.line == b.behind
    requires Judged(w, s, v, known, a).state.Fine?
    ensures Established(
      w, s, v, known, b.(captures := b.captures + Judged(w, s, v, known, a).found, behind := b.behind + 1), tick)
  {
    hide Base, Guarded, BooksHold, ReadsHold, Judged, Answered;
    var n := b.behind;
    var next := b.(behind := n + 1);
    var all := next.(captures := b.captures + Judged(w, s, v, known, a).found);
    BaseLater(w, s, v, n, n + 1, tick, tick);
    BooksSame(w, s, v, known, b, next, true, n, tick, tick);
    BooksBank(w, s, v, known, next, true, n, tick, a);
    ApiPasses(w, s, v, known, all, n);
    BooksIn(w, s, v, known, b, true, n, tick);
    BooksNext(w, s, v, known, all, true, n, tick);
    ReadsAdvance(w, v, b, all, tick);
  }

  /** So is one that is put on record. */
  lemma {:induction false} EstablishedRecorded(w: World, s: Scenario, v: View, known: Known, b: Books, tick: nat, a: Ask)
    requires Established(w, s, v, known, b, tick) && a in b.asked && OfApi(s, a) && a.line == b.behind
    requires OnTheBooks(s.positives[a.line], Judged(w, s, v, known, a))
    ensures Established(w, s, v, known, b.(recorded := b.recorded + [b.behind], behind := b.behind + 1), tick)
  {
    hide Base, Guarded, BooksHold, ReadsHold, Judged, Answered;
    var n := b.behind;
    var next := b.(behind := n + 1);
    var all := next.(recorded := b.recorded + [n]);
    BaseLater(w, s, v, n, n + 1, tick, tick);
    BooksSame(w, s, v, known, b, next, true, n, tick, tick);
    assert RecordedBy(w, s, v, known, a, n);
    BooksRecord(w, s, v, known, next, true, n, tick, a);
    ApiPasses(w, s, v, known, all, n);
    BooksIn(w, s, v, known, b, true, n, tick);
    BooksNext(w, s, v, known, all, true, n, tick);
    ReadsAdvance(w, v, b, all, tick);
  }

  lemma LogPasses(w: World, s: Scenario, v: View, known: Known, b: Books, surfaced: bool, m: Mark)
    requires m in v.marks && m.line < |s.positives| && s.positives[m.line].Log?
    ensures Passed(w, s, v, known, b, surfaced, m.line)
  {
    hide Answered;
  }

  /** So is a satisfied log line, judged on what was just read and checked. */
  lemma {:induction false} EstablishedStamped(
    w: World, s: Scenario, v: View, more: View, known: Known, b: Books, from: nat, now: nat)
    requires Established(w, s, v, known, b, from) && b.behind < |s.positives|
    requires LintedLine(s.positives, b.behind) && s.positives[b.behind].Log? && AllCleared(w, s, v)
    requires Stamped(w, v, b.behind, s.positives[b.behind], more, from, now)
    requires |b.polled| > 0 && var r := b.polled[|b.polled| - 1];
      r.line == b.behind && r.at + 1 == from && v.lines == CompleteLines(w.text(r.at))
    ensures Established(w, s, more, known, b.(behind := b.behind + 1), now)
  {
    var n, p := b.behind, s.positives[b.behind];
    var m, next := Mark(n, p, |v.lines|, from), b.(behind := b.behind + 1);
    StampedMark(w, v, n, p, more, from, now);
    BaseStamped(w, s, v, n, p, more, from, now);
    hide Marked, InTurn, Indexed, Observed, Guarded, BooksHold, ReadsHold, Stamped, AllCleared, Keeps, Observes, Passed;
    GuardedStamped(w, s, v, n, p, more, from, now);
    BooksKept(w, s, v, more, known, known, b, next, true, n, from, now);
    LogPasses(w, s, more, known, next, true, m);
    BooksIn(w, s, v, known, b, true, n, from);
    BooksNext(w, s, more, known, next, true, n, now);
    ReadsMark(w, v, more, b, from, now, m);
  }

  lemma StampedMark(w: World, v: View, line: nat, p: Positive, more: View, from: nat, now: nat)
    requires p.Log? && p.count >= 1 && Stamped(w, v, line, p, more, from, now)
    ensures more.lines == v.lines && more.lets == v.lets && from <= now
    ensures more.marks == v.marks + [Mark(line, p, |v.lines|, from)] && Mark(line, p, |v.lines|, from) in more.marks
  {
    hide LogVerdictOf, Tokens, Stamp;
  }

  /** An act done on account of the log line just satisfied. */
  lemma {:induction false} EstablishedDone(w: World, s: Scenario, v: View, known: Known, b: Books, tick: nat, g: Gated)
    requires Established(w, s, v, known, b, tick) && b.behind > 0
    requires s.positives[b.behind - 1].Log? && Releases(w, v.lets, g, s.positives[b.behind - 1])
    requires |b.polled| > 0 && b.polled[|b.polled| - 1].line == b.behind - 1
    ensures Established(w, s, v, known, b.(performed := b.performed + [Done(g, b.behind - 1, tick)]), tick)
  {
    hide Base, Guarded, BooksHold, Releases;
    LastMark(w, s, v, known, b, true, tick);
    BooksDone(w, s, v, known, b, true, b.behind, tick, g, b.behind - 1);
    forall r | r in b.polled
      ensures r.line <= b.behind - 1
    {
      var i :| 0 <= i < |b.polled| && b.polled[i] == r;
    }
    hide ReadsHold;
    ReadsDone(w, v, b, tick, Done(g, b.behind - 1, tick));
  }

  /** The last satisfied line is the one just passed, when that is a log line. */
  lemma LastMark(w: World, s: Scenario, v: View, known: Known, b: Books, surfaced: bool, tick: nat)
    requires Base(w, s, v, b.behind, tick) && BooksHold(w, s, v, known, b, surfaced, b.behind, tick)
    requires b.behind > 0 && s.positives[b.behind - 1].Log?
    ensures |v.marks| > 0
    ensures var m := v.marks[|v.marks| - 1]; m.line == b.behind - 1 && m.at <= tick && m.p == s.positives[b.behind - 1]
  {
    hide MarkHolds, Indexed, Observed, Banked, Recordable, DoneInTime, Entitled, Answered;
    var j := b.behind - 1;
    assert Passed(w, s, v, known, b, surfaced, j);
    var m :| m in v.marks && m.line == j;
    var i :| 0 <= i < |v.marks| && v.marks[i] == m;
    var last := v.marks[|v.marks| - 1];
    assert last in v.marks;
  }

  /** Only a scenario with a new_run_after depends on the snapshot. */
  lemma EstablishedRepinned(
    w: World, s: Scenario, v: View, known: Known, later: Known, b: Books, tick: nat, now: nat)
    requires Established(w, s, v, known, b, tick) && tick <= now && (UsesRunAfter(s.positives) ==> later == known)
    ensures Established(w, s, v, later, b, now)
  {
    GrownItself(v);
    EstablishedGrows(w, s, v, v, known, b, tick, now);
    hide Base, Guarded, ReadsHold, UsesRunAfter;
    KeepsItself(v, now);
    BooksIn(w, s, v, known, b, true, b.behind, now);
    BooksKept(w, s, v, v, known, later, b, b, true, b.behind, now, now);
  }

  lemma StartsEstablished(w: World, s: Scenario, v: View, known: Known, b: Books, tick: nat)
    requires v == View([], v.lets, map[], map[], map[], []) && b == Books([], [], [], [], [], 0)
    ensures Established(w, s, v, known, b, tick)
  {
  }

  // ---------------------------------------------------------------- PASS

  ghost predicate AnchorSatisfied(w: World, v: View, f: Forbidden) {
    f.after.Some? ==> Token(w, v.lets, f.after.value).Some? && Token(w, v.lets, f.after.value).value in v.index
  }

  lemma NamedIsIndexed(w: World, v: View, p: Positive, token: string)
    requires p.Log? && token in p.tokens && Shown(w, v, p)
    ensures Token(w, v.lets, token).Some? && Token(w, v.lets, token).value in v.index
  {
    hide Token, MatchesOf;
    NamedIsToken(w, v, p, token);
    assert Names(w, v.lets, p, Token(w, v.lets, token).value);
  }

  ghost predicate ProvedBy(w: World, s: Scenario, v: View, known: Known, a: Ask, c: Bound) {
    BankedBy(w, s, v, known, a, c) && w.body(a.at).Some? && Listed(w, w.body(a.at).value, c, a.at + 1)
  }

  /** A banked run is proved against the snapshot and its anchor's observation, and an evaluation
      that was made listed it and read its chain. */
  ghost predicate RunProved(w: World, s: Scenario, v: View, known: Known, asked: seq<Ask>, c: Bound) {
    BoundHolds(v, known, c) && exists a :: a in asked && ProvedBy(w, s, v, known, a, c)
  }

  /** What a PASS says of the positives, the banked runs and the acts, live or dry. */
  ghost predicate Proven(w: World, s: Scenario, v: View, known: Known, b: Books, surfaced: bool, tick: nat) {
    && Base(w, s, v, |s.positives|, tick) && (forall m :: m in v.marks ==> ValueShown(w, v, m))
    && (forall j :: 0 <= j < |s.positives| ==> Handled(v, s.positives, j) && Shown(w, v, s.positives[j]))
    && (surfaced ==> forall j :: 0 <= j < |s.positives| && s.positives[j].Api? ==>
        Answered(w, s, v, known, b, j) && Evidenced(w, v.lets, b.captures, s.positives[j]))
    && (forall c :: c in b.captures ==> RunProved(w, s, v, known, b.asked, c))
    && (forall d :: d in b.performed ==> DoneInTime(w, v, d, tick))
    && (forall f :: f in s.forbidden ==> AnchorSatisfied(w, v, f))
  }

  /** What a live PASS means: every log line was satisfied by what the log held at a read made for
      it, every api line answered ok at an evaluation made right after one, every banked run is
      proved, and nothing forbidden stands past any index its anchor was ever given. */
  ghost predicate Sound(w: World, s: Scenario, v: View, known: Known, b: Books, tick: nat) {
    && Proven(w, s, v, known, b, true, tick) && ReadsHold(w, v, b, tick)
    && forall f :: f in s.forbidden ==> NeverSeen(w, v, f)
  }

  lemma RunIsProved(w: World, s: Scenario, v: View, known: Known, asked: seq<Ask>, c: Bound)
    requires Banked(w, s, v, known, asked, c)
    ensures RunProved(w, s, v, known, asked, c)
  {
    hide ApiStep, BoundHolds, Listed;
    var a :| a in asked && BankedBy(w, s, v, known, a, c);
    ApiStepSound(w, v, known, s.positives[a.line], a.at);
    assert ProvedBy(w, s, v, known, a, c);
  }

  lemma AnsweredIsEvidenced(w: World, s: Scenario, v: View, known: Known, b: Books, j: nat)
    requires j < |s.positives| && s.positives[j].Api? && Answered(w, s, v, known, b, j)
    ensures Evidenced(w, v.lets, b.captures, s.positives[j])
  {
    hide ApiStep, Evidenced;
    var a :| a in b.asked && AnsweredBy(w, s, v, known, b.captures, a, j);
    ApiStepSound(w, v, known, s.positives[j], a.at);
    ExtendsSame(v.lets);
    EvidencedKept(w, v.lets, v.lets, Judged(w, s, v, known, a).found, b.captures, s.positives[j]);
  }

  lemma ExtendsSame(lets: Lets)
    ensures Extends(lets, lets)
  {
  }

  lemma AnchorNamed(s: Scenario, f: Forbidden) returns (p: Positive)
    requires Linted(s) && f in s.forbidden && f.after.Some?
    ensures p in s.positives && p.Log? && f.after.value in p.tokens
  {
    hide UsesRunAfter, UsesConfirmedRun, LintedLine;
    assert Named(s.positives, f.after.value);
    p :| p in s.positives && p.Log? && f.after.value in p.tokens;
  }

  /** Every positive that has passed is shown by the window. */
  lemma {:induction false} AllShown(w: World, s: Scenario, v: View, known: Known, b: Books, surfaced: bool, tick: nat)
    requires Linted(s) && Base(w, s, v, |s.positives|, tick) && BooksHold(w, s, v, known, b, surfaced, |s.positives|, tick)
    ensures forall j :: 0 <= j < |s.positives| ==> Handled(v, s.positives, j) && Shown(w, v, s.positives[j])
  {
    forall j | 0 <= j < |s.positives|
      ensures Handled(v, s.positives, j) && Shown(w, v, s.positives[j])
    {
      assert Passed(w, s, v, known, b, surfaced, j) && LintedLine(s.positives, j);
      HandledShown(w, s, v, |s.positives|, tick, j);
    }
  }

  /** Every extraction of a satisfied line had its value. */
  lemma AllYield(w: World, s: Scenario, v: View, n: nat, tick: nat)
    requires Base(w, s, v, n, tick)
    ensures forall m :: m in v.marks ==> ValueShown(w, v, m)
  {
    hide ValueShown, MarkHolds, Indexed, Observed;
    forall m | m in v.marks
      ensures ValueShown(w, v, m)
    {
      MarkYields(w, v, m);
    }
  }

  /** All positives passed and nothing on record: the books prove them. */
  lemma {:induction false} BooksProve(w: World, s: Scenario, v: View, known: Known, b: Books, surfaced: bool, tick: nat)
    requires Linted(s) && Base(w, s, v, |s.positives|, tick)
    requires b.recorded == [] && BooksHold(w, s, v, known, b, surfaced, |s.positives|, tick)
    ensures Proven(w, s, v, known, b, surfaced, tick)
  {
    AllShown(w, s, v, known, b, surfaced, tick);
    AllYield(w, s, v, |s.positives|, tick);
    hide Base, ValueShown, Handled, Shown, Answered, Evidenced, Banked, DoneInTime, RunProved, Recordable, LintedLine, Linted, AnchorSatisfied;
    forall j | 0 <= j < |s.positives| && surfaced && s.positives[j].Api?
      ensures Answered(w, s, v, known, b, j) && Evidenced(w, v.lets, b.captures, s.positives[j])
    {
      assert Passed(w, s, v, known, b, surfaced, j);
      AnsweredIsEvidenced(w, s, v, known, b, j);
    }
    forall c | c in b.captures
      ensures RunProved(w, s, v, known, b.asked, c)
    {
      RunIsProved(w, s, v, known, b.asked, c);
    }
    forall f | f in s.forbidden
      ensures AnchorSatisfied(w, v, f)
    {
      if f.after.Some? {
        var p := AnchorNamed(s, f);
        NamedIsIndexed(w, v, p, f.after.value);
        IsSatisfied(w, v, f);
      } else {
        IsSatisfied(w, v, f);
      }
    }
  }

  lemma IsSatisfied(w: World, v: View, f: Forbidden)
    requires f.after.Some? ==> Token(w, v.lets, f.after.value).Some? && Token(w, v.lets, f.after.value).value in v.index
    ensures AnchorSatisfied(w, v, f)
  {
  }

  /** All positives behind, nothing on record and a last clear check: the PASS is sound. */
  lemma {:induction false} PassIsSound(w: World, s: Scenario, v: View, known: Known, b: Books, tick: nat)
    requires Linted(s) && Established(w, s, v, known, b, tick)
    requires b.behind == |s.positives| && b.recorded == [] && AllCleared(w, s, v)
    ensures Sound(w, s, v, known, b, tick)
  {
    hide Linted, Marked, InTurn, Indexed, Observed, Guarded, BooksHold, ReadsHold, Proven, Cleared, NeverSeen;
    BooksProve(w, s, v, known, b, true, tick);
    forall f | f in s.forbidden
      ensures NeverSeen(w, v, f)
    {
      CheckedMeansNeverSeen(w, s, v, f);
    }
  }

  /** In terms of the window alone: no forbidden token past the count-th match of a log line that
      names its anchor and extracts nothing. */
  lemma {:induction false} PassMeansClear(
    w: World, s: Scenario, v: View, known: Known, b: Books, tick: nat, f: Forbidden, j: nat)
    requires Sound(w, s, v, known, b, tick) && f in s.forbidden && f.after.Some?
    requires j < |s.positives| && s.positives[j].Log? && s.positives[j].extract.None?
    requires var anchor := Token(w, v.lets, f.after.value); anchor.Some? && Names(w, v.lets, s.positives[j], anchor.value)
    ensures var p := s.positives[j]; var matches := MatchesOf(w, v.lets, v.lines, p);
      && p.count >= 1 && |matches| >= p.count && Token(w, v.lets, f.token).Some?
      && ClearFrom(v.lines, matches[p.count - 1] + 1, Token(w, v.lets, f.token).value)
  {
    hide ValueShown, Names, Token, MatchesOf, Shown, Answered, Evidenced, RunProved, DoneInTime, AnchorSatisfied, ReadsHold,
      InTurn, Indexed, Observed, LogVerdictOf, ClearFrom;
    assert Handled(v, s.positives, j);
    var m :| m in v.marks && m.line == j;
    StampIsMatch(w, v, m);
    assert NeverSeen(w, v, f);
  }

  /** A run that used no snapshot may be read against any. */
  lemma ProvenRepinned(
    w: World, s: Scenario, v: View, known: Known, first: Known, b: Books, surfaced: bool, tick: nat)
    requires Linted(s) && b.recorded == [] && (UsesRunAfter(s.positives) ==> known == first)
    requires Base(w, s, v, |s.positives|, tick) && BooksHold(w, s, v, known, b, surfaced, |s.positives|, tick)
    ensures Proven(w, s, v, first, b, surfaced, tick)
  {
    hide Base, BooksHold, Proven, Linted, UsesRunAfter;
    KeepsItself(v, tick);
    BooksIn(w, s, v, known, b, surfaced, |s.positives|, tick);
    BooksKept(w, s, v, v, known, first, b, b, surfaced, |s.positives|, tick, tick);
    BooksProve(w, s, v, first, b, surfaced, tick);
  }
}
