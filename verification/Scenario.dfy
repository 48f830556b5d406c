/** A linted scenario, and what its lines look for in a window of the log. */
module Scenarios {
  import opened Options

  /** `extract:` with its optional `min:`; the last match is the one searched. */
  datatype Extraction = Extraction(pattern: string, minimum: Option<string>)

  datatype Assert =
    | NewRunAfter(anchor: string)
    | NewConfirmedRun
    | Other   // rows, ulids, phase_terminal, field_equals, field_within

  /** `letNames` lists the lets a line's templates mention. */
  datatype Positive =
    | Log(tokens: seq<string>, any: bool, sameLine: seq<string>, count: int,
          extract: Option<Extraction>, within: nat, letNames: seq<string>)
    | Api(asserts: seq<Assert>, records: bool, within: nat, letNames: seq<string>)

  datatype Forbidden = Forbidden(token: string, after: Option<string>)

  /** An operator act that waits for a token. */
  datatype Gated = Gated(after: string, letNames: seq<string>)

  datatype Scenario = Scenario(
    positives: seq<Positive>, forbidden: seq<Forbidden>,
    immediate: nat, gated: seq<Gated>, operators: seq<string>)

  // ---------------------------------------------------------------- lint

  predicate PlainLog(p: Positive, token: string) { p.Log? && !p.any && token in p.tokens }

  predicate Named(ps: seq<Positive>, token: string) {
    exists p :: p in ps && p.Log? && token in p.tokens
  }

  /** Some line before `i` is a single-token log line for the anchor. */
  predicate Anchored(ps: seq<Positive>, i: nat, anchor: string)
    requires i <= |ps|
  {
    exists j :: 0 <= j < i && PlainLog(ps[j], anchor)
  }

  predicate LintedLine(ps: seq<Positive>, i: nat)
    requires i < |ps|
  {
    match ps[i]
    case Log(tokens, any, _, count, _, _, _) => |tokens| > 0 && (!any ==> |tokens| == 1) && count >= 1
    case Api(asserts, _, _, _) =>
      |asserts| > 0 && forall a :: a in asserts && a.NewRunAfter? ==> Anchored(ps, i, a.anchor)
  }

  predicate IsRunAfter(a: Assert) { a.NewRunAfter? }

  predicate Uses(ps: seq<Positive>, kind: Assert -> bool) {
    exists p :: p in ps && p.Api? && exists a :: a in p.asserts && kind(a)
  }

  predicate UsesRunAfter(ps: seq<Positive>) { Uses(ps, IsRunAfter) }

  predicate IsConfirmedRun(a: Assert) { a.NewConfirmedRun? }

  predicate UsesConfirmedRun(ps: seq<Positive>) { Uses(ps, IsConfirmedRun) }

  predicate Linted(s: Scenario) {
    && |s.positives| > 0
    && (forall i :: 0 <= i < |s.positives| ==> LintedLine(s.positives, i))
    && !(UsesConfirmedRun(s.positives) && UsesRunAfter(s.positives))
    && (forall f :: f in s.forbidden && f.after.Some? ==> Named(s.positives, f.after.value))
    && (forall g :: g in s.gated ==> Named(s.positives, g.after))
  }

  // ---------------------------------------------------------------- matching

  /** `token in text` */
  predicate Contains(text: string, token: string) {
    exists i :: 0 <= i <= |text| && token <= text[i..]
  }

  /** The token stands somewhere in the text. */
  lemma {:induction false} ContainsMeans(text: string, token: string)
    ensures Contains(text, token) <==> exists before: string, after: string :: text == before + (token + after)
  {
    if Contains(text, token) {
      var i :| 0 <= i <= |text| && token <= text[i..];
      assert text == text[..i] + (token + text[i + |token|..]);
    }
    if before: string, after: string :| text == before + (token + after) {
      assert text[|before|..] == token + after;
    }
  }

  predicate LineMatches(text: string, tokens: seq<string>, same: seq<string>) {
    && (exists t :: t in tokens && Contains(text, t))
    && (forall s :: s in same ==> Contains(text, s))
  }

  /** The window lines a log positive matches, in order. */
  function MatchIndices(lines: seq<string>, tokens: seq<string>, same: seq<string>): (r: seq<nat>)
    ensures forall k :: k in r ==> k < |lines|
    decreases |lines|
  {
    if |lines| == 0 then []
    else
      var n := |lines| - 1;
      var earlier := MatchIndices(lines[..n], tokens, same);
      if LineMatches(lines[n], tokens, same) then earlier + [n] else earlier
  }

  /** Exactly the lines that hold one of the tokens and every same-line text, each once, in increasing order. */
  lemma {:induction false} MatchIndicesMean(lines: seq<string>, tokens: seq<string>, same: seq<string>)
    ensures forall k :: k in MatchIndices(lines, tokens, same) <==>
      && 0 <= k < |lines|
      && (exists t :: t in tokens && Contains(lines[k], t)) && (forall x :: x in same ==> Contains(lines[k], x))
    ensures forall a, b :: 0 <= a < b < |MatchIndices(lines, tokens, same)| ==>
      MatchIndices(lines, tokens, same)[a] < MatchIndices(lines, tokens, same)[b]
    decreases |lines|
  {
    hide Contains;
    if |lines| > 0 {
      var n := |lines| - 1;
      MatchIndicesMean(lines[..n], tokens, same);
      var earlier := MatchIndices(lines[..n], tokens, same);
      assert forall k :: k in earlier ==> k < n && lines[..n][k] == lines[k];
      assert forall k :: 0 <= k < n ==> lines[..n][k] == lines[k];
      assert forall a :: 0 <= a < |earlier| ==> earlier[a] in earlier;
    }
  }

  /** A longer window keeps the matches it had, in place. */
  lemma {:induction false} MatchIndicesGrow(lines: seq<string>, more: seq<string>, tokens: seq<string>, same: seq<string>)
    requires lines <= more
    ensures MatchIndices(lines, tokens, same) <= MatchIndices(more, tokens, same)
    decreases |more|
  {
    hide LineMatches;
    if |lines| == |more| {
      assert lines == more;
    } else {
      var n := |more| - 1;
      MatchIndicesGrow(lines, more[..n], tokens, same);
    }
  }

  // ---------------------------------------------------------------- the lint pass

  lemma NamedOneMore(ps: seq<Positive>, i: nat, token: string)
    requires i < |ps|
    ensures Named(ps[..i + 1], token) <==> Named(ps[..i], token) || (ps[i].Log? && token in ps[i].tokens)
    ensures Anchored(ps, i + 1, token) <==> Anchored(ps, i, token) || PlainLog(ps[i], token)
  {
    assert ps[..i + 1] == ps[..i] + [ps[i]];
    assert forall p :: p in ps[..i + 1] <==> p in ps[..i] || p == ps[i];
    if Anchored(ps, i, token) {
      var j :| 0 <= j < i && PlainLog(ps[j], token);
      assert PlainLog(ps[j], token);
    }
  }

  predicate LineUses(p: Positive, kind: Assert -> bool) {
    p.Api? && exists a :: a in p.asserts && kind(a)
  }

  lemma UsesOneMore(ps: seq<Positive>, i: nat, kind: Assert -> bool)
    requires i < |ps|
    ensures Uses(ps[..i + 1], kind) <==> Uses(ps[..i], kind) || LineUses(ps[i], kind)
  {
    assert ps[..i + 1] == ps[..i] + [ps[i]];
    assert forall p :: p in ps[..i + 1] <==> p in ps[..i] || p == ps[i];
  }

  /** The lint's checks of one line, against the plain tokens of the lines before it. */
  method LintLine(ps: seq<Positive>, i: nat, plain: seq<string>) returns (accepted: bool)
    requires i < |ps| && forall t :: t in plain <==> Anchored(ps, i, t)
    ensures accepted <==> LintedLine(ps, i)
  {
    hide Anchored;
    match ps[i]
    case Log(tokens, any, _, count, _, _, _) =>
      accepted := |tokens| > 0 && (any || |tokens| == 1) && count >= 1;
    case Api(asserts, _, _, _) =>
      if |asserts| == 0 { return false; }
      for k := 0 to |asserts|
        invariant forall a :: a in asserts[..k] && a.NewRunAfter? ==> Anchored(ps, i, a.anchor)
      {
        if asserts[k].NewRunAfter? && asserts[k].anchor !in plain { return false; }
      }
      accepted := true;
  }

  /** One pass over the positives with the tokens collected so far: membership is the ordering check. */
  method Lint(s: Scenario) returns (accepted: bool)
    ensures accepted <==> Linted(s)
  {
    hide Uses, LintedLine, Anchored, Named;
    var ps := s.positives;
    if |ps| == 0 { return false; }
    var tokens: seq<string>, plain: seq<string> := [], [];
    var after, confirmed := false, false;
    NothingYet(ps);
    for i := 0 to |ps|
      invariant forall t :: t in tokens <==> Named(ps[..i], t)
      invariant forall t :: t in plain <==> Anchored(ps, i, t)
      invariant after <==> Uses(ps[..i], IsRunAfter)
      invariant confirmed <==> Uses(ps[..i], IsConfirmedRun)
      invariant forall j :: 0 <= j < i ==> LintedLine(ps, j)
    {
      var fine := LintLine(ps, i, plain);
      if !fine { return false; }
      forall t
        ensures Named(ps[..i + 1], t) <==> Named(ps[..i], t) || (ps[i].Log? && t in ps[i].tokens)
        ensures Anchored(ps, i + 1, t) <==> Anchored(ps, i, t) || PlainLog(ps[i], t)
      {
        NamedOneMore(ps, i, t);
      }
      UsesOneMore(ps, i, IsRunAfter);
      UsesOneMore(ps, i, IsConfirmedRun);
      if ps[i].Log? {
        tokens := tokens + ps[i].tokens;
        if !ps[i].any { plain := plain + ps[i].tokens; }
      }
      after := after || LineUses(ps[i], IsRunAfter);
      confirmed := confirmed || LineUses(ps[i], IsConfirmedRun);
    }
    assert ps[..|ps|] == ps;
    if after && confirmed { return false; }
    accepted := (forall f :: f in s.forbidden && f.after.Some? ==> f.after.value in tokens)
      && (forall g :: g in s.gated ==> g.after in tokens);
  }

  lemma NothingYet(ps: seq<Positive>)
    ensures forall t :: !Named(ps[..0], t)
    ensures forall t :: !Anchored(ps, 0, t)
    ensures !Uses(ps[..0], IsRunAfter) && !Uses(ps[..0], IsConfirmedRun)
  {
  }
}
