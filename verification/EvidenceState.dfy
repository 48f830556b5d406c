/** What a run has seen so far, and what stays true of it step by step. */
module EvidenceState {
  import opened Options
  import opened Scenarios
  import opened Templates
  import opened Utf8

  // ---------------------------------------------------------------- the world

  datatype RunRow = RunRow(runId: Option<string>, triggeredAt: Option<string>)

  /** A run's causal chain: `trigger.matchedAt`, and each action's outcome. */
  datatype Chain = Chain(matchedAt: Option<string>, outcomes: seq<Option<string>>)

  datatype Judgement = Ok | Pending | Fail | Recorded

  /** Everything outside the run, as answers to its n-th interaction: the log
      file, the clocks, the keyboard, the API; and the two parsers. */
  datatype World = World(
    constants: map<string, Value>, render: Value -> string,
    before: seq<Byte>, text: nat -> string,
    lag: nat -> nat, utc: nat -> int,
    typed: (nat, string) -> Option<Value>,
    body: nat -> Option<seq<RunRow>>, chain: (nat, Option<string>) -> Option<Chain>, judge: nat -> Judgement,
    search: (string, string) -> Option<string>, number: string -> Option<int>, instant: string -> Option<int>)

  /** The log is only ever appended to. */
  ghost predicate Growing(w: World) {
    forall a: nat, b: nat :: a <= b ==> w.text(a) <= w.text(b)
  }

  type Lets = map<string, Value>

  function Token(w: World, lets: Lets, raw: string): Option<string> {
    Resolve(raw, Scope(w.constants, lets, w.render))
  }

  function Tokens(w: World, lets: Lets, raws: seq<string>): (r: Option<seq<string>>)
    ensures r.Some? ==> |r.value| == |raws|
    ensures r.Some? ==> forall i :: 0 <= i < |raws| ==> Token(w, lets, raws[i]) == Some(r.value[i])
    ensures r.None? ==> exists raw :: raw in raws && Token(w, lets, raw).None?
  {
    if exists raw :: raw in raws && Token(w, lets, raw).None? then None
    else Some(seq(|raws|, i requires 0 <= i < |raws| && raws[i] in raws && Token(w, lets, raws[i]).Some? =>
      Token(w, lets, raws[i]).value))
  }

  lemma TokenExtends(w: World, lets: Lets, more: Lets, raw: string)
    requires Extends(more, lets) && Token(w, lets, raw).Some?
    ensures Token(w, more, raw) == Token(w, lets, raw)
  {
    hide Resolve;
    ResolveExtends(raw, Scope(w.constants, lets, w.render), more);
  }

  lemma TokensExtend(w: World, lets: Lets, more: Lets, raws: seq<string>)
    requires Extends(more, lets) && Tokens(w, lets, raws).Some?
    ensures Tokens(w, more, raws) == Tokens(w, lets, raws)
  {
    hide Token, Tokens, Extends;
    forall raw | raw in raws
      ensures Token(w, more, raw) == Token(w, lets, raw) && Token(w, lets, raw).Some?
    {
      var i :| 0 <= i < |raws| && raws[i] == raw;
      TokenExtends(w, lets, more, raw);
    }
    assert Tokens(w, more, raws).Some?;
    assert forall i :: 0 <= i < |raws| ==> Token(w, more, raws[i]) == Token(w, lets, raws[i]);
    assert Tokens(w, more, raws).value == Tokens(w, lets, raws).value;
  }

  // ---------------------------------------------------------------- a log line's verdict

  datatype Refusal = Unbound | NotNumeric | VacuousAnchor

  datatype LogVerdict = Satisfied(at: nat) | Waiting | Refused(why: Refusal)

  function Extracted(w: World, lines: seq<string>, e: Extraction, last: nat): LogVerdict
    requires last < |lines|
  {
    match w.search(e.pattern, lines[last])
    case None => Waiting
    case Some(value) =>
      if e.minimum.None? then Satisfied(last)
      else if w.number(value).None? || w.number(e.minimum.value).None? then Refused(NotNumeric)
      else if w.number(value).value < w.number(e.minimum.value).value then Waiting
      else Satisfied(last)
  }

  lemma ExtractedAt(w: World, lines: seq<string>, e: Extraction, last: nat)
    requires last < |lines| && Extracted(w, lines, e, last).Satisfied?
    ensures Extracted(w, lines, e, last) == Satisfied(last)
  {
  }

  /** `eval_log_line`: enough matches, and an extraction from the last of them when one is asked for. */
  function LogVerdictOf(w: World, lets: Lets, lines: seq<string>, p: Positive): (v: LogVerdict)
    requires p.Log? && p.count >= 1
    ensures v.Refused? ==> v.why in {Unbound, NotNumeric}
  {
    var tokens, same := Tokens(w, lets, p.tokens), Tokens(w, lets, p.sameLine);
    if tokens.None? || same.None? then Refused(Unbound)
    else
      var matches := MatchIndices(lines, tokens.value, same.value);
      if |matches| < p.count then Waiting
      else if p.extract.None? then Satisfied(matches[p.count - 1])
      else
        var last := matches[|matches| - 1];
        assert last in matches;
        Extracted(w, lines, p.extract.value, last)
  }

  /** The text yields a value, and one that is at least the minimum when a minimum is set. */
  predicate Yields(w: World, e: Extraction, text: string) {
    && w.search(e.pattern, text).Some?
    && (e.minimum.Some? ==>
        && w.number(w.search(e.pattern, text).value).Some? && w.number(e.minimum.value).Some?
        && w.number(e.minimum.value).value <= w.number(w.search(e.pattern, text).value).value)
  }

  /** The exact condition: references that resolve, the count of matches, and for an extraction a value
      from the last match that is not under the minimum. The index is the last match for an extraction,
      else the count-th. */
  lemma {:induction false} SatisfiedExactlyWhen(w: World, lets: Lets, lines: seq<string>, p: Positive)
    requires p.Log? && p.count >= 1
    ensures LogVerdictOf(w, lets, lines, p).Satisfied? <==>
      && (forall t :: t in p.tokens || t in p.sameLine ==> Token(w, lets, t).Some?)
      && var matches := MatchIndices(lines, Texts(w, lets, p.tokens), Texts(w, lets, p.sameLine));
        && |matches| >= p.count
        && (p.extract.Some? ==> Yields(w, p.extract.value, lines[LastIndex(matches)]))
    ensures LogVerdictOf(w, lets, lines, p).Satisfied? ==>
      var matches := MatchIndices(lines, Texts(w, lets, p.tokens), Texts(w, lets, p.sameLine));
      LogVerdictOf(w, lets, lines, p).at == if p.extract.Some? then LastIndex(matches) else matches[p.count - 1]
  {
    hide Token, MatchIndices;
    TokensExactly(w, lets, p.tokens);
    TokensExactly(w, lets, p.sameLine);
    var matches := MatchIndices(lines, Texts(w, lets, p.tokens), Texts(w, lets, p.sameLine));
    if |matches| > 0 {
      assert matches[|matches| - 1] in matches;
    }
  }

  function LastIndex(matches: seq<nat>): (k: nat)
    requires |matches| > 0
    ensures k in matches && k == matches[|matches| - 1]
  {
    matches[|matches| - 1]
  }

  /** What the templates read; a template that does not resolve reads as nothing. */
  function Texts(w: World, lets: Lets, raws: seq<string>): (r: seq<string>)
    ensures |r| == |raws|
  {
    seq(|raws|, i requires 0 <= i < |raws| => if Token(w, lets, raws[i]).Some? then Token(w, lets, raws[i]).value else "")
  }

  lemma TokensExactly(w: World, lets: Lets, raws: seq<string>)
    ensures Tokens(w, lets, raws) ==
      if forall t :: t in raws ==> Token(w, lets, t).Some? then Some(Texts(w, lets, raws)) else None
  {
    hide Token;
    if Tokens(w, lets, raws).Some? {
      assert forall t :: t in raws ==> Token(w, lets, t).Some?;
      assert Tokens(w, lets, raws).value == Texts(w, lets, raws);
    }
  }

  /** A line is refused over a number exactly when its last match yields a value and that value or
      the minimum is no number; short of its matches, of a value or of the minimum it waits. */
  lemma {:induction false} RefusedExactlyWhen(w: World, lets: Lets, lines: seq<string>, p: Positive)
    requires p.Log? && p.count >= 1 && Tokens(w, lets, p.tokens).Some? && Tokens(w, lets, p.sameLine).Some?
    ensures var matches := MatchIndices(lines, Texts(w, lets, p.tokens), Texts(w, lets, p.sameLine));
      LogVerdictOf(w, lets, lines, p) == Refused(NotNumeric) <==>
        && |matches| >= p.count && p.extract.Some? && p.extract.value.minimum.Some?
        && var value := w.search(p.extract.value.pattern, lines[LastIndex(matches)]);
          value.Some? && (w.number(value.value).None? || w.number(p.extract.value.minimum.value).None?)
    ensures LogVerdictOf(w, lets, lines, p) in {Waiting, Refused(NotNumeric)} || LogVerdictOf(w, lets, lines, p).Satisfied?
  {
    hide Token, MatchIndices;
    TokensExactly(w, lets, p.tokens);
    TokensExactly(w, lets, p.sameLine);
    var matches := MatchIndices(lines, Texts(w, lets, p.tokens), Texts(w, lets, p.sameLine));
    if |matches| > 0 {
      assert matches[|matches| - 1] in matches;
    }
  }

  /** A satisfied line has its count of matches, and its index is one of them. */
  lemma {:induction false} SatisfiedMeans(w: World, lets: Lets, lines: seq<string>, p: Positive)
    requires p.Log? && p.count >= 1 && LogVerdictOf(w, lets, lines, p).Satisfied?
    ensures var tokens, same := Tokens(w, lets, p.tokens), Tokens(w, lets, p.sameLine);
      && tokens.Some? && same.Some?
      && |MatchIndices(lines, tokens.value, same.value)| >= p.count
      && LogVerdictOf(w, lets, lines, p).at in MatchIndices(lines, tokens.value, same.value)
  {
    hide Tokens, MatchIndices;
    var matches := MatchIndices(lines, Tokens(w, lets, p.tokens).value, Tokens(w, lets, p.sameLine).value);
    assert matches[p.count - 1] in matches && matches[|matches| - 1] in matches;
  }

  /** A verdict reached with every token resolved does not change as more lets are bound. */
  lemma LogVerdictExtends(w: World, lets: Lets, more: Lets, lines: seq<string>, p: Positive)
    requires p.Log? && p.count >= 1 && Extends(more, lets)
    requires LogVerdictOf(w, lets, lines, p) != Refused(Unbound)
    ensures LogVerdictOf(w, more, lines, p) == LogVerdictOf(w, lets, lines, p)
  {
    hide Tokens, MatchIndices, Extracted, Extends;
    TokensExtend(w, lets, more, p.tokens);
    TokensExtend(w, lets, more, p.sameLine);
  }

  // ---------------------------------------------------------------- the run's view

  /** A log positive was satisfied: judged at interaction `at` on the first `size` lines of the window. */
  datatype Mark = Mark(line: nat, p: Positive, size: nat, at: nat)

  /** The window, the bound lets, the anchor indices and the observation instants; `seen` keeps
      the interaction of each observation, `marks` the satisfied log lines in order. */
  datatype View = View(
    lines: seq<string>, lets: Lets, index: map<string, nat>,
    utc: map<string, int>, seen: map<string, nat>, marks: seq<Mark>)

  predicate ClearFrom(lines: seq<string>, start: nat, token: string) {
    forall k :: start <= k < |lines| ==> !Contains(lines[k], token)
  }

  /** Nothing past line `a`, up to line `b`. */
  predicate ClearBetween(lines: seq<string>, a: nat, b: nat, token: string) {
    forall k :: a < k <= b && k < |lines| ==> !Contains(lines[k], token)
  }

  predicate Resolves(w: World, lets: Lets, f: Forbidden) {
    Token(w, lets, f.token).Some? && (f.after.Some? ==> Token(w, lets, f.after.value).Some?)
  }

  /** What one check of a forbidden line establishes. */
  predicate Cleared(w: World, v: View, f: Forbidden) {
    && Resolves(w, v.lets, f)
    && var token := Token(w, v.lets, f.token).value;
      if f.after.None? then ClearFrom(v.lines, 0, token)
      else
        var anchor := Token(w, v.lets, f.after.value).value;
        anchor in v.index ==> ClearFrom(v.lines, v.index[anchor] + 1, token)
  }

  predicate AllCleared(w: World, s: Scenario, v: View) {
    forall f :: f in s.forbidden ==> Cleared(w, v, f)
  }

  predicate AllResolve(w: World, s: Scenario, lets: Lets) {
    forall f :: f in s.forbidden ==> Resolves(w, lets, f)
  }

  // ---------------------------------------------------------------- satisfied lines

  predicate InMatch(lines: seq<string>, matches: seq<nat>, token: string)
    requires forall k :: k in matches ==> k < |lines|
  {
    exists k :: k in matches && Contains(lines[k], token)
  }

  /** The line was satisfied by the window of that size. */
  predicate MarkHolds(w: World, v: View, m: Mark) {
    && m.p.Log? && m.p.count >= 1 && m.size <= |v.lines|
    && LogVerdictOf(w, v.lets, v.lines[..m.size], m.p).Satisfied?
  }

  /** The index its tokens took then. */
  function StampOf(w: World, v: View, m: Mark): (at: nat)
    requires MarkHolds(w, v, m)
  {
    LogVerdictOf(w, v.lets, v.lines[..m.size], m.p).at
  }

  predicate Names(w: World, lets: Lets, p: Positive, token: string) {
    p.Log? && Tokens(w, lets, p.tokens).Some? && token in Tokens(w, lets, p.tokens).value
  }

  function MatchesOf(w: World, lets: Lets, lines: seq<string>, p: Positive): (r: seq<nat>)
    ensures forall k :: k in r ==> k < |lines|
  {
    if p.Api? || Tokens(w, lets, p.tokens).None? || Tokens(w, lets, p.sameLine).None? then []
    else MatchIndices(lines, Tokens(w, lets, p.tokens).value, Tokens(w, lets, p.sameLine).value)
  }

  /** One of its tokens, on a line that it matched. */
  predicate Shows(w: World, v: View, m: Mark, token: string) {
    && m.size <= |v.lines| && Names(w, v.lets, m.p, token)
    && InMatch(v.lines[..m.size], MatchesOf(w, v.lets, v.lines[..m.size], m.p), token)
  }

  ghost predicate Marked(w: World, s: Scenario, v: View) {
    && (forall m :: m in v.marks ==> MarkHolds(w, v, m))
    && (forall m :: m in v.marks ==> m.line < |s.positives| && s.positives[m.line] == m.p)
  }

  /** The satisfied lines in their order, below line `n`, judged no later than `tick`. */
  ghost predicate InTurn(v: View, n: nat, tick: nat) {
    && (forall i, j :: 0 <= i < j < |v.marks| ==> v.marks[i].line < v.marks[j].line && v.marks[i].at <= v.marks[j].at)
    && (forall m :: m in v.marks ==> m.line < n && m.at <= tick)
  }

  ghost predicate LastNamed(w: World, v: View, k: nat, token: string) {
    && k < |v.marks| && Names(w, v.lets, v.marks[k].p, token)
    && forall j :: k < j < |v.marks| ==> !Names(w, v.lets, v.marks[j].p, token)
  }

  ghost predicate IndexedBy(w: World, v: View, k: nat, token: string) {
    && LastNamed(w, v, k, token) && MarkHolds(w, v, v.marks[k])
    && token in v.index && v.index[token] == StampOf(w, v, v.marks[k])
  }

  /** Exactly the tokens of satisfied lines are indexed, each where the last such line put it. */
  ghost predicate Indexed(w: World, v: View) {
    && (forall t :: t in v.index ==> exists k: nat :: IndexedBy(w, v, k, t))
    && (forall m, t :: m in v.marks && Names(w, v.lets, m.p, t) ==> t in v.index)
  }

  ghost predicate FirstShown(w: World, v: View, k: nat, token: string) {
    && k < |v.marks| && Shows(w, v, v.marks[k], token)
    && forall j :: 0 <= j < k ==> !Shows(w, v, v.marks[j], token)
  }

  /** The interactions between one satisfied line and the next. */
  function Until(marks: seq<Mark>, k: nat, tick: nat): nat {
    if k + 1 < |marks| then marks[k + 1].at else tick
  }

  ghost predicate SeenBy(w: World, v: View, k: nat, token: string, tick: nat) {
    && FirstShown(w, v, k, token)
    && token in v.seen && v.marks[k].at <= v.seen[token] < Until(v.marks, k, tick)
  }

  /** Exactly the tokens some satisfied line showed are observed, each at an instant taken
      right after the first line that showed it was judged. */
  ghost predicate Observed(w: World, v: View, tick: nat) {
    && v.utc.Keys == v.seen.Keys
    && (forall t :: t in v.utc ==> v.utc[t] == w.utc(v.seen[t]) && exists k: nat :: SeenBy(w, v, k, t, tick))
    && (forall m, t :: m in v.marks && Shows(w, v, m, t) ==> t in v.utc)
  }

  /** What every run keeps, live or dry. */
  ghost predicate Base(w: World, s: Scenario, v: View, n: nat, tick: nat) {
    Marked(w, s, v) && InTurn(v, n, tick) && Indexed(w, v) && Observed(w, v, tick)
  }

  /** No forbidden token past any index that a satisfied line gave its anchor. */
  ghost predicate NeverSeen(w: World, v: View, f: Forbidden) {
    && Resolves(w, v.lets, f)
    && var token := Token(w, v.lets, f.token).value;
      if f.after.None? then ClearFrom(v.lines, 0, token)
      else
        var anchor := Token(w, v.lets, f.after.value).value;
        forall m :: m in v.marks && Names(w, v.lets, m.p, anchor) && MarkHolds(w, v, m) ==>
          ClearFrom(v.lines, StampOf(w, v, m) + 1, token)
  }

  /** Between any index an anchor was given and its present one nothing forbidden appeared. */
  ghost predicate Held(w: World, v: View, f: Forbidden) {
    Resolves(w, v.lets, f) && f.after.Some? ==>
      var token, anchor := Token(w, v.lets, f.token).value, Token(w, v.lets, f.after.value).value;
      forall m :: m in v.marks && Names(w, v.lets, m.p, anchor) && MarkHolds(w, v, m) && anchor in v.index ==>
        ClearBetween(v.lines, StampOf(w, v, m), v.index[anchor], token)
  }

  /** What a live run keeps besides. */
  ghost predicate Guarded(w: World, s: Scenario, v: View) {
    && (v.index != map[] ==> AllResolve(w, s, v.lets))
    && (forall f :: f in s.forbidden ==> Held(w, v, f))
  }

  // ---------------------------------------------------------------- steps

  /** More lines were read, more lets were bound, and nothing else changed. */
  ghost predicate Grown(v: View, more: View) {
    && v.lines <= more.lines && Extends(more.lets, v.lets)
    && more.index == v.index && more.utc == v.utc && more.seen == v.seen && more.marks == v.marks
  }

  /** Nothing marked or observed is forgotten, and what is new came at `tick` or later. */
  ghost predicate Keeps(v: View, more: View, tick: nat) {
    && v.lines <= more.lines && Extends(more.lets, v.lets) && v.marks <= more.marks
    && (|v.marks| < |more.marks| ==> more.marks[|v.marks|].at >= tick)
    && (forall t :: t in v.utc ==> t in more.utc && more.utc[t] == v.utc[t])
  }

  function Stamp(m: map<string, nat>, tokens: seq<string>, at: nat): map<string, nat> {
    if |tokens| == 0 then m else Stamp(m, tokens[..|tokens| - 1], at)[tokens[|tokens| - 1] := at]
  }

  lemma {:induction false} StampMeans(m: map<string, nat>, tokens: seq<string>, at: nat)
    ensures forall t :: t in Stamp(m, tokens, at) <==> t in m || t in tokens
    ensures forall t :: t in tokens ==> Stamp(m, tokens, at)[t] == at
    ensures forall t :: t in m && t !in tokens ==> Stamp(m, tokens, at)[t] == m[t]
  {
    if |tokens| > 0 {
      var n := |tokens| - 1;
      StampMeans(m, tokens[..n], at);
      assert forall t :: t in tokens <==> t in tokens[..n] || t == tokens[n];
    }
  }

  /** Line `line` was satisfied at interaction `from`: its tokens are indexed, and those a matched
      line contains and that were never observed are observed before interaction `now`. */
  ghost predicate Stamped(w: World, v: View, line: nat, p: Positive, more: View, from: nat, now: nat)
    requires p.Log? && p.count >= 1
  {
    && LogVerdictOf(w, v.lets, v.lines, p).Satisfied?
    && more.lines == v.lines && more.lets == v.lets
    && more.marks == v.marks + [Mark(line, p, |v.lines|, from)]
    && Tokens(w, v.lets, p.tokens).Some?
    && more.index == Stamp(v.index, Tokens(w, v.lets, p.tokens).value, LogVerdictOf(w, v.lets, v.lines, p).at)
    && Observes(w, v, p, more, from, now)
  }

  ghost predicate Observes(w: World, v: View, p: Positive, more: View, from: nat, now: nat) {
    && (forall t :: t in more.utc <==>
        t in v.utc || (Names(w, v.lets, p, t) && InMatch(v.lines, MatchesOf(w, v.lets, v.lines, p), t)))
    && more.utc.Keys == more.seen.Keys && from <= now
    && (forall t :: t in v.utc ==> more.utc[t] == v.utc[t] && t in v.seen && more.seen[t] == v.seen[t])
    && (forall t :: t in more.utc && t !in v.utc ==> more.utc[t] == w.utc(more.seen[t]) && from <= more.seen[t] < now)
  }

  // ---------------------------------------------------------------- what every step keeps

  lemma ResolvesExtends(w: World, lets: Lets, more: Lets, f: Forbidden)
    requires Extends(more, lets) && Resolves(w, lets, f)
    ensures Resolves(w, more, f) && Token(w, more, f.token) == Token(w, lets, f.token)
    ensures f.after.Some? ==> Token(w, more, f.after.value) == Token(w, lets, f.after.value)
  {
    hide Token, Extends;
    TokenExtends(w, lets, more, f.token);
    if f.after.Some? {
      TokenExtends(w, lets, more, f.after.value);
    }
  }

  /** A satisfied line means the same for any longer window and any more lets. */
  lemma MarkKept(w: World, v: View, more: View, m: Mark)
    requires MarkHolds(w, v, m) && v.lines <= more.lines && Extends(more.lets, v.lets)
    ensures MarkHolds(w, more, m) && StampOf(w, more, m) == StampOf(w, v, m)
    ensures forall t :: Names(w, more.lets, m.p, t) <==> Names(w, v.lets, m.p, t)
    ensures forall t :: Shows(w, more, m, t) <==> Shows(w, v, m, t)
  {
    assert more.lines[..m.size] == v.lines[..m.size];
    LogVerdictExtends(w, v.lets, more.lets, v.lines[..m.size], m.p);
    MarkTokens(w, v, m);
    TokensExtend(w, v.lets, more.lets, m.p.tokens);
    TokensExtend(w, v.lets, more.lets, m.p.sameLine);
    hide Tokens, MatchIndices, LogVerdictOf, Extends, InMatch;
  }

  lemma MarkTokens(w: World, v: View, m: Mark)
    requires MarkHolds(w, v, m)
    ensures Tokens(w, v.lets, m.p.tokens).Some? && Tokens(w, v.lets, m.p.sameLine).Some?
    ensures |MatchesOf(w, v.lets, v.lines[..m.size], m.p)| >= m.p.count
    ensures StampOf(w, v, m) in MatchesOf(w, v.lets, v.lines[..m.size], m.p) && StampOf(w, v, m) < m.size
  {
    hide Tokens, MatchIndices, LogVerdictOf;
    SatisfiedMeans(w, v.lets, v.lines[..m.size], m.p);
  }

  lemma MarkedGrows(w: World, s: Scenario, v: View, more: View)
    requires Marked(w, s, v) && Grown(v, more)
    ensures Marked(w, s, more)
  {
    hide MarkHolds, Extends;
    forall m | m in v.marks
      ensures MarkHolds(w, more, m)
    {
      MarkKept(w, v, more, m);
    }
  }

  lemma IndexedGrows(w: World, s: Scenario, v: View, more: View)
    requires Marked(w, s, v) && Indexed(w, v) && Grown(v, more)
    ensures Indexed(w, more)
  {
    hide MarkHolds, Extends, Names, StampOf, Shows;
    forall m | m in v.marks
      ensures forall t :: Names(w, more.lets, m.p, t) <==> Names(w, v.lets, m.p, t)
      ensures MarkHolds(w, more, m) && StampOf(w, more, m) == StampOf(w, v, m)
    {
      MarkKept(w, v, more, m);
    }
    forall t | t in v.index
      ensures exists k: nat :: IndexedBy(w, more, k, t)
    {
      var k: nat :| IndexedBy(w, v, k, t);
      assert IndexedBy(w, more, k, t);
    }
  }

  lemma ObservedGrows(w: World, s: Scenario, v: View, more: View, tick: nat, now: nat)
    requires Marked(w, s, v) && Observed(w, v, tick) && Grown(v, more) && tick <= now
    ensures Observed(w, more, now)
  {
    hide MarkHolds, Extends, Names, StampOf, Shows;
    forall m | m in v.marks
      ensures forall t :: Shows(w, more, m, t) <==> Shows(w, v, m, t)
    {
      MarkKept(w, v, more, m);
    }
    forall t | t in v.utc
      ensures exists k: nat :: SeenBy(w, more, k, t, now)
    {
      var k: nat :| SeenBy(w, v, k, t, tick);
      forall j | 0 <= j <= k
        ensures v.marks[j] in v.marks
      {
      }
      assert SeenBy(w, more, k, t, now);
    }
  }

  /** Reading more of the log and binding more lets keep what every run keeps. */
  lemma {:induction false} BaseGrows(w: World, s: Scenario, v: View, more: View, n: nat, tick: nat, now: nat)
    requires Base(w, s, v, n, tick) && Grown(v, more) && tick <= now
    ensures Base(w, s, more, n, now)
  {
    MarkedGrows(w, s, v, more);
    IndexedGrows(w, s, v, more);
    ObservedGrows(w, s, v, more, tick, now);
    hide Marked, Indexed, Observed, Extends;
  }

  lemma IndexInWindow(w: World, s: Scenario, v: View, token: string)
    requires Marked(w, s, v) && Indexed(w, v) && token in v.index
    ensures v.index[token] < |v.lines|
  {
    hide MarkHolds, Names, StampOf;
    var k: nat :| IndexedBy(w, v, k, token);
    MarkTokens(w, v, v.marks[k]);
    assert v.marks[k] in v.marks;
    SizeInWindow(w, v, v.marks[k]);
  }

  lemma SizeInWindow(w: World, v: View, m: Mark)
    requires MarkHolds(w, v, m)
    ensures m.size <= |v.lines|
  {
  }

  lemma AnchorResolves(w: World, lets: Lets, f: Forbidden)
    requires Resolves(w, lets, f)
    ensures Token(w, lets, f.token).Some? && (f.after.Some? ==> Token(w, lets, f.after.value).Some?)
  {
  }

  lemma HeldGrows(w: World, s: Scenario, v: View, more: View, f: Forbidden)
    requires Marked(w, s, v) && Indexed(w, v) && Guarded(w, s, v) && Grown(v, more) && f in s.forbidden
    ensures Held(w, more, f)
  {
    hide Token, Resolves, Extends, Contains, MarkHolds, Names, StampOf, Shows;
    if v.index != map[] && f.after.Some? {
      assert Resolves(w, v.lets, f);
      AnchorResolves(w, v.lets, f);
      ResolvesExtends(w, v.lets, more.lets, f);
      var anchor := Token(w, v.lets, f.after.value).value;
      forall m | m in more.marks && Names(w, more.lets, m.p, anchor) && MarkHolds(w, more, m) && anchor in more.index
        ensures ClearBetween(more.lines, StampOf(w, more, m), more.index[anchor], Token(w, v.lets, f.token).value)
      {
        MarkKept(w, v, more, m);
        IndexInWindow(w, s, v, anchor);
        assert Held(w, v, f);
      }
    }
  }

  /** They also keep what a live run keeps. */
  lemma {:induction false} GuardedGrows(w: World, s: Scenario, v: View, more: View)
    requires Marked(w, s, v) && Indexed(w, v) && Guarded(w, s, v) && Grown(v, more)
    ensures Guarded(w, s, more)
  {
    forall f | f in s.forbidden
      ensures Held(w, more, f)
    {
      HeldGrows(w, s, v, more, f);
    }
    forall f | f in s.forbidden && v.index != map[]
      ensures Resolves(w, more.lets, f)
    {
      assert Resolves(w, v.lets, f);
      ResolvesExtends(w, v.lets, more.lets, f);
    }
    hide Resolves, Held, Extends, Marked, Indexed;
  }

  /** What a check adds: everything past any index the anchor was given is clear. */
  lemma {:induction false} CheckedMeansNeverSeen(w: World, s: Scenario, v: View, f: Forbidden)
    requires Marked(w, s, v) && Indexed(w, v) && Guarded(w, s, v) && f in s.forbidden && Cleared(w, v, f)
    ensures NeverSeen(w, v, f)
  {
    hide Token, Extends, Contains, MarkHolds, Names, StampOf, Shows;
    assert Held(w, v, f);
    if f.after.Some? {
      var token, anchor := Token(w, v.lets, f.token).value, Token(w, v.lets, f.after.value).value;
      forall m | m in v.marks && Names(w, v.lets, m.p, anchor) && MarkHolds(w, v, m)
        ensures ClearFrom(v.lines, StampOf(w, v, m) + 1, token)
      {
        assert anchor in v.index;
        assert ClearBetween(v.lines, StampOf(w, v, m), v.index[anchor], token);
        assert ClearFrom(v.lines, v.index[anchor] + 1, token);
      }
    }
  }

  /** The other way: with the present index clear, the live promise holds if and only if nothing
      forbidden stands between an index the anchor was given before and its present one. */
  lemma {:induction false} NeverSeenExactlyWhen(w: World, s: Scenario, v: View, f: Forbidden)
    requires Marked(w, s, v) && Indexed(w, v) && Cleared(w, v, f)
    ensures NeverSeen(w, v, f) <==> Held(w, v, f)
  {
    hide Token, Extends, Contains, MarkHolds, Names, StampOf, Shows;
    if f.after.Some? {
      var token, anchor := Token(w, v.lets, f.token).value, Token(w, v.lets, f.after.value).value;
      forall m | m in v.marks && Names(w, v.lets, m.p, anchor) && MarkHolds(w, v, m)
        ensures ClearFrom(v.lines, StampOf(w, v, m) + 1, token) <==>
          ClearBetween(v.lines, StampOf(w, v, m), v.index[anchor], token)
      {
        assert anchor in v.index;
        assert ClearFrom(v.lines, v.index[anchor] + 1, token);
      }
    }
  }

  // ---------------------------------------------------------------- a line is stamped

  lemma NewMark(w: World, v: View, line: nat, p: Positive, more: View, from: nat, now: nat)
    requires p.Log? && p.count >= 1 && Stamped(w, v, line, p, more, from, now)
    ensures var m := Mark(line, p, |v.lines|, from);
      && MarkHolds(w, more, m) && StampOf(w, more, m) == LogVerdictOf(w, v.lets, v.lines, p).at
      && (forall t :: Names(w, more.lets, p, t) <==> Names(w, v.lets, p, t))
      && (forall t :: Shows(w, more, m, t) <==>
          Names(w, v.lets, p, t) && InMatch(v.lines, MatchesOf(w, v.lets, v.lines, p), t))
  {
    hide LogVerdictOf, Tokens, Stamp, MatchIndices, Observes, InMatch, MatchesOf;
    assert more.lines[..|v.lines|] == v.lines;
  }

  lemma MarkedStamped(w: World, s: Scenario, v: View, line: nat, p: Positive, more: View, from: nat, now: nat)
    requires p.Log? && p.count >= 1 && line < |s.positives| && s.positives[line] == p
    requires Marked(w, s, v) && Stamped(w, v, line, p, more, from, now)
    ensures Marked(w, s, more)
  {
    hide MarkHolds, LogVerdictOf, Tokens, Stamp, Observes;
    NewMark(w, v, line, p, more, from, now);
    forall m | m in more.marks
      ensures MarkHolds(w, more, m) && m.line < |s.positives| && s.positives[m.line] == m.p
    {
      if m in v.marks {
        MarkSame(w, v, more, m);
      }
    }
  }

  lemma MarkSame(w: World, v: View, more: View, m: Mark)
    requires MarkHolds(w, v, m) && v.lines == more.lines && v.lets == more.lets
    ensures MarkHolds(w, more, m) && StampOf(w, more, m) == StampOf(w, v, m)
    ensures forall t :: Shows(w, more, m, t) <==> Shows(w, v, m, t)
  {
    hide LogVerdictOf, Tokens, InMatch, MatchesOf;
  }

  /** A token the new line does not name keeps its index. */
  lemma IndexedBefore(w: World, v: View, m: Mark, more: View, token: string, k: nat)
    requires v.lines == more.lines && v.lets == more.lets && more.marks == v.marks + [m]
    requires IndexedBy(w, v, k, token) && !Names(w, v.lets, m.p, token)
    requires token in more.index && more.index[token] == v.index[token]
    ensures IndexedBy(w, more, k, token)
  {
    hide MarkHolds, StampOf, Names;
    assert more.marks[k] == v.marks[k];
    MarkSame(w, v, more, v.marks[k]);
    forall j | k < j < |more.marks|
      ensures !Names(w, more.lets, more.marks[j].p, token)
    {
      if j < |v.marks| { assert more.marks[j] == v.marks[j]; }
    }
  }

  lemma IndexedStamped(w: World, s: Scenario, v: View, line: nat, p: Positive, more: View, from: nat, now: nat)
    requires p.Log? && p.count >= 1
    requires Marked(w, s, v) && Indexed(w, v) && Stamped(w, v, line, p, more, from, now)
    ensures Indexed(w, more)
  {
    hide MarkHolds, StampOf, LogVerdictOf, Stamp, Observes, Shows, Tokens, LastNamed;
    var at, tokens := LogVerdictOf(w, v.lets, v.lines, p).at, Tokens(w, v.lets, p.tokens).value;
    StampMeans(v.index, tokens, at);
    NewMark(w, v, line, p, more, from, now);
    var n, m := |v.marks|, Mark(line, p, |v.lines|, from);
    forall t | t in more.index
      ensures exists k: nat :: IndexedBy(w, more, k, t)
    {
      if t in tokens {
        assert IndexedBy(w, more, n, t) by { LastOne(w, more, n, t); }
      } else {
        var k: nat :| IndexedBy(w, v, k, t);
        IndexedBefore(w, v, m, more, t, k);
      }
    }
    forall x, t | x in more.marks && Names(w, more.lets, x.p, t)
      ensures t in more.index
    {
      assert x in v.marks || x == m;
    }
  }

  lemma LastOne(w: World, v: View, n: nat, token: string)
    requires |v.marks| == n + 1 && Names(w, v.lets, v.marks[n].p, token)
    ensures LastNamed(w, v, n, token)
  {
  }

  /** An observation there was stays that of its line, whose span the new line ends. */
  lemma SeenBefore(
    w: World, v: View, m: Mark, more: View, token: string, k: nat, now: nat)
    requires v.lines == more.lines && v.lets == more.lets && more.marks == v.marks + [m]
    requires SeenBy(w, v, k, token, m.at) && (forall x :: x in v.marks ==> MarkHolds(w, v, x))
    requires token in more.seen && more.seen[token] == v.seen[token] && m.at <= now
    ensures SeenBy(w, more, k, token, now)
  {
    hide MarkHolds, Shows;
    forall j | 0 <= j <= k
      ensures more.marks[j] == v.marks[j] && (Shows(w, more, more.marks[j], token) <==> Shows(w, v, v.marks[j], token))
    {
      assert v.marks[j] in v.marks;
      MarkSame(w, v, more, v.marks[j]);
    }
  }

  /** A token first shown by the new line is seen by it. */
  lemma SeenNow(w: World, v: View, m: Mark, more: View, token: string, now: nat)
    requires v.lines == more.lines && v.lets == more.lets && more.marks == v.marks + [m]
    requires (forall x :: x in v.marks ==> MarkHolds(w, v, x)) && Shows(w, more, m, token)
    requires forall x :: x in v.marks ==> !Shows(w, v, x, token)
    requires token in more.seen && m.at <= more.seen[token] < now
    ensures SeenBy(w, more, |v.marks|, token, now)
  {
    hide MarkHolds, Shows;
    forall j | 0 <= j < |v.marks|
      ensures !Shows(w, more, more.marks[j], token)
    {
      assert more.marks[j] == v.marks[j] && v.marks[j] in v.marks;
      MarkSame(w, v, more, v.marks[j]);
    }
  }

  lemma ObservedStamped(w: World, s: Scenario, v: View, line: nat, p: Positive, more: View, from: nat, now: nat)
    requires p.Log? && p.count >= 1
    requires Marked(w, s, v) && Observed(w, v, from) && Stamped(w, v, line, p, more, from, now)
    ensures Observed(w, more, now)
  {
    hide MarkHolds, StampOf, LogVerdictOf, Stamp, Names, Tokens, MatchesOf, InMatch;
    NewMark(w, v, line, p, more, from, now);
    hide Shows, SeenBy;
    var m := Mark(line, p, |v.lines|, from);
    forall t | t in more.utc
      ensures more.utc[t] == w.utc(more.seen[t]) && exists k: nat :: SeenBy(w, more, k, t, now)
    {
      if t in v.utc {
        var k: nat :| SeenBy(w, v, k, t, from);
        SeenBefore(w, v, m, more, t, k, now);
      } else {
        SeenNow(w, v, m, more, t, now);
      }
    }
    forall x, t | x in more.marks && Shows(w, more, x, t)
      ensures t in more.utc
    {
      if x in v.marks {
        MarkSame(w, v, more, x);
      }
    }
  }

  /** A satisfied line keeps what every run keeps, whether or not a check came before. */
  lemma {:induction false} BaseStamped(
    w: World, s: Scenario, v: View, line: nat, p: Positive, more: View, from: nat, now: nat)
    requires p.Log? && p.count >= 1 && line < |s.positives| && s.positives[line] == p
    requires Base(w, s, v, line, from) && Stamped(w, v, line, p, more, from, now)
    ensures Base(w, s, more, line + 1, now) && Keeps(v, more, from)
  {
    MarkedStamped(w, s, v, line, p, more, from, now);
    IndexedStamped(w, s, v, line, p, more, from, now);
    ObservedStamped(w, s, v, line, p, more, from, now);
    hide Marked, Indexed, Observed, LogVerdictOf, Stamp, Tokens;
  }

  lemma HeldStamped(
    w: World, s: Scenario, v: View, line: nat, p: Positive, more: View, from: nat, now: nat, f: Forbidden)
    requires p.Log? && p.count >= 1 && f in s.forbidden
    requires Marked(w, s, v) && Indexed(w, v) && Guarded(w, s, v) && AllCleared(w, s, v)
    requires Stamped(w, v, line, p, more, from, now)
    ensures Held(w, more, f)
  {
    hide Token, Contains, MarkHolds, StampOf, LogVerdictOf, Stamp, Observes, Shows, Tokens, Guarded, Marked, Indexed, Cleared;
    CheckedMeansNeverSeen(w, s, v, f);
    var at, tokens := LogVerdictOf(w, v.lets, v.lines, p).at, Tokens(w, v.lets, p.tokens).value;
    StampMeans(v.index, tokens, at);
    NewMark(w, v, line, p, more, from, now);
    if f.after.Some? && Resolves(w, v.lets, f) {
      var token, anchor := Token(w, v.lets, f.token).value, Token(w, v.lets, f.after.value).value;
      forall m | m in more.marks && Names(w, more.lets, m.p, anchor) && MarkHolds(w, more, m) && anchor in more.index
        ensures ClearBetween(more.lines, StampOf(w, more, m), more.index[anchor], token)
      {
        if m in v.marks {
          assert MarkHolds(w, v, m) by { HoldsOf(w, s, v, m); }
          MarkSame(w, v, more, m);
          assert ClearFrom(v.lines, StampOf(w, v, m) + 1, token);
        }
      }
    }
  }

  lemma HoldsOf(w: World, s: Scenario, v: View, m: Mark)
    requires Marked(w, s, v) && m in v.marks
    ensures MarkHolds(w, v, m)
  {
  }

  /** A satisfied log line, judged right after a clear check, keeps what a live run keeps. */
  lemma {:induction false} GuardedStamped(
    w: World, s: Scenario, v: View, line: nat, p: Positive, more: View, from: nat, now: nat)
    requires p.Log? && p.count >= 1
    requires Marked(w, s, v) && Indexed(w, v) && Guarded(w, s, v) && AllCleared(w, s, v)
    requires Stamped(w, v, line, p, more, from, now)
    ensures Guarded(w, s, more)
  {
    hide Marked, Indexed, Stamp, LogVerdictOf, Observes, Held, Tokens;
    forall f | f in s.forbidden
      ensures Held(w, more, f) && Resolves(w, more.lets, f)
    {
      HeldStamped(w, s, v, line, p, more, from, now, f);
      assert Cleared(w, v, f);
    }
  }

  // ---------------------------------------------------------------- handled lines

  /** A log line has been satisfied. */
  ghost predicate Handled(v: View, ps: seq<Positive>, j: nat)
    requires j < |ps|
  {
    ps[j].Log? ==> exists m :: m in v.marks && m.line == j
  }

  /** What the window shows for a log positive: its count of matches, its tokens indexed,
      and a single token observed. */
  ghost predicate Shown(w: World, v: View, p: Positive) {
    p.Log? ==>
      && Tokens(w, v.lets, p.tokens).Some? && Tokens(w, v.lets, p.sameLine).Some?
      && |MatchesOf(w, v.lets, v.lines, p)| >= p.count
      && (forall t :: Names(w, v.lets, p, t) ==> t in v.index)
      && (!p.any ==> forall t :: Names(w, v.lets, p, t) ==> t in v.utc)
  }

  lemma SingleInMatch(lines: seq<string>, token: string, same: seq<string>)
    requires |MatchIndices(lines, [token], same)| >= 1
    ensures InMatch(lines, MatchIndices(lines, [token], same), token)
  {
    hide Contains, MatchIndices;
    var matches := MatchIndices(lines, [token], same);
    MatchIndicesMean(lines, [token], same);
    assert matches[0] in matches;
    assert LineMatches(lines[matches[0]], [token], same);
  }

  lemma SingleShown(w: World, v: View, m: Mark, token: string)
    requires MarkHolds(w, v, m) && |m.p.tokens| == 1 && Names(w, v.lets, m.p, token)
    ensures Shows(w, v, m, token)
  {
    hide MatchIndices, InMatch, LogVerdictOf;
    MarkTokens(w, v, m);
    var tokens := Tokens(w, v.lets, m.p.tokens).value;
    assert tokens == [tokens[0]] && token == tokens[0];
    SingleInMatch(v.lines[..m.size], token, Tokens(w, v.lets, m.p.sameLine).value);
  }

  lemma MatchesGrow(w: World, v: View, m: Mark)
    requires MarkHolds(w, v, m)
    ensures MatchesOf(w, v.lets, v.lines[..m.size], m.p) <= MatchesOf(w, v.lets, v.lines, m.p)
  {
    hide LogVerdictOf;
    MarkTokens(w, v, m);
    MatchIndicesGrow(
      v.lines[..m.size], v.lines, Tokens(w, v.lets, m.p.tokens).value, Tokens(w, v.lets, m.p.sameLine).value);
  }

  /** A satisfied line is shown by the window, now and ever after. */
  lemma {:induction false} HandledShown(w: World, s: Scenario, v: View, n: nat, tick: nat, j: nat)
    requires Base(w, s, v, n, tick) && j < |s.positives| && Handled(v, s.positives, j) && LintedLine(s.positives, j)
    ensures Shown(w, v, s.positives[j])
  {
    hide MarkHolds, Names, Shows, Tokens, MatchesOf, SeenBy, IndexedBy;
    if s.positives[j].Log? {
      var m :| m in v.marks && m.line == j;
      MarkTokens(w, v, m);
      MatchesGrow(w, v, m);
      if !m.p.any {
        forall t | Names(w, v.lets, m.p, t)
          ensures t in v.utc
        {
          SingleShown(w, v, m, t);
        }
      }
    }
  }

  /** The last line that an extraction's window matched yields its value. */
  ghost predicate ValueShown(w: World, v: View, m: Mark) {
    m.p.Log? && m.p.extract.Some? ==>
      && m.size <= |v.lines|
      && var matches := MatchIndices(v.lines[..m.size], Texts(w, v.lets, m.p.tokens), Texts(w, v.lets, m.p.sameLine));
        |matches| >= 1 && Yields(w, m.p.extract.value, v.lines[LastIndex(matches)])
  }

  lemma {:induction false} MarkYields(w: World, v: View, m: Mark)
    requires MarkHolds(w, v, m)
    ensures ValueShown(w, v, m)
  {
    hide Texts, MatchIndices, LogVerdictOf, Yields;
    SatisfiedExactlyWhen(w, v.lets, v.lines[..m.size], m.p);
  }

  /** For a line without an extraction the index is its count-th match in the present window. */
  lemma {:induction false} StampIsMatch(w: World, v: View, m: Mark)
    requires MarkHolds(w, v, m) && m.p.extract.None?
    ensures |MatchesOf(w, v.lets, v.lines, m.p)| >= m.p.count
    ensures StampOf(w, v, m) == MatchesOf(w, v.lets, v.lines, m.p)[m.p.count - 1]
  {
    hide Tokens, MatchIndices;
    MarkTokens(w, v, m);
    MatchesGrow(w, v, m);
  }
}
