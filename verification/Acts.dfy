/** Gated acts: which a satisfied line releases, and which still wait. */
module Acts {
  import opened EvidenceState
  import Logs
  import opened Options
  import opened Scenarios
  import opened Templates

  function LineTokens(w: World, lets: Lets, p: Positive): Option<seq<string>> {
    if p.Log? then Tokens(w, lets, p.tokens) else Some([])
  }

  /** The line's tokens hold the one the act waits for. */
  predicate Releases(w: World, lets: Lets, g: Gated, p: Positive) {
    && Token(w, lets, g.after).Some? && LineTokens(w, lets, p).Some?
    && Token(w, lets, g.after).value in LineTokens(w, lets, p).value
  }

  function Unreleased(w: World, lets: Lets, gated: seq<Gated>, p: Positive): seq<Gated> {
    if |gated| == 0 then []
    else
      var n := |gated| - 1;
      Unreleased(w, lets, gated[..n], p) + if Releases(w, lets, gated[n], p) then [] else [gated[n]]
  }

  /** The acts the line releases, in order. */
  function Released(w: World, lets: Lets, gated: seq<Gated>, p: Positive): seq<Gated> {
    if |gated| == 0 then []
    else
      var n := |gated| - 1;
      Released(w, lets, gated[..n], p) + if Releases(w, lets, gated[n], p) then [gated[n]] else []
  }

  /** Every act is released or stays, once. */
  lemma {:induction false} ReleasedSplits(w: World, lets: Lets, gated: seq<Gated>, p: Positive)
    ensures multiset(Released(w, lets, gated, p)) + multiset(Unreleased(w, lets, gated, p)) == multiset(gated)
  {
    hide Releases;
    if |gated| > 0 {
      var n := |gated| - 1;
      ReleasedSplits(w, lets, gated[..n], p);
      assert gated == gated[..n] + [gated[n]];
    }
  }

  /** A line releases an act exactly when it is a log line whose references resolve, and the act's
      token, resolved, is one of its tokens, resolved. */
  lemma {:induction false} ReleasesExactly(w: World, lets: Lets, g: Gated, p: Positive)
    ensures Releases(w, lets, g, p) <==>
      && p.Log? && (forall t :: t in p.tokens ==> Token(w, lets, t).Some?)
      && exists t :: t in p.tokens && Token(w, lets, t).Some? && Token(w, lets, g.after) == Token(w, lets, t)
  {
    hide Token;
    if p.Log? {
      TokensExactly(w, lets, p.tokens);
      var texts := Texts(w, lets, p.tokens);
      assert forall i :: 0 <= i < |p.tokens| ==> p.tokens[i] in p.tokens;
      if t :| t in p.tokens && Token(w, lets, t).Some? && Token(w, lets, g.after) == Token(w, lets, t) {
        var k :| 0 <= k < |p.tokens| && p.tokens[k] == t;
        assert texts[k] in texts;
      }
    }
  }

  /** The acts a line releases and those that stay, each in the order they were in. */
  lemma {:induction false} ReleasedInOrder(w: World, lets: Lets, gated: seq<Gated>, p: Positive)
    ensures Released(w, lets, gated, p) == Logs.Select(gated, g => Releases(w, lets, g, p))
    ensures Unreleased(w, lets, gated, p) == Logs.Select(gated, g => !Releases(w, lets, g, p))
  {
    hide Releases;
    if |gated| > 0 {
      var n := |gated| - 1;
      ReleasedInOrder(w, lets, gated[..n], p);
      assert gated == gated[..n] + [gated[n]];
      Logs.SelectPush(gated[..n], gated[n], g => Releases(w, lets, g, p));
      Logs.SelectPush(gated[..n], gated[n], g => !Releases(w, lets, g, p));
    }
  }

  predicate AftersResolve(w: World, lets: Lets, gated: seq<Gated>, p: Positive) {
    forall g :: g in gated ==> Token(w, lets, g.after).Some? && LineTokens(w, lets, p).Some?
  }

  /** Of the operator entries `asked` for, those the act reads are bound. */
  predicate EntriesTyped(asked: seq<string>, lets: Lets, g: Gated) {
    forall n :: n in g.letNames && n in asked ==> n in lets
  }

  /** Every act the line releases has the operator entries it reads. */
  predicate ReleasedTyped(w: World, asked: seq<string>, lets: Lets, gated: seq<Gated>, p: Positive) {
    forall g :: g in gated && Releases(w, lets, g, p) ==> EntriesTyped(asked, lets, g)
  }

  lemma NothingGated(w: World, asked: seq<string>, lets: Lets, p: Positive)
    ensures AftersResolve(w, lets, [], p) && ReleasedTyped(w, asked, lets, [], p)
    ensures Unreleased(w, lets, [], p) == [] && Released(w, lets, [], p) == []
  {
  }

  lemma ReleasesExtends(w: World, lets: Lets, more: Lets, g: Gated, p: Positive)
    requires Extends(more, lets) && Token(w, lets, g.after).Some? && LineTokens(w, lets, p).Some?
    ensures Token(w, more, g.after).Some? && LineTokens(w, more, p).Some?
    ensures Releases(w, more, g, p) <==> Releases(w, lets, g, p)
  {
    hide Token, Tokens, Extends;
    TokenExtends(w, lets, more, g.after);
    if p.Log? {
      TokensExtend(w, lets, more, p.tokens);
    }
  }

  /** Which acts a line releases does not change as more lets are bound. */
  lemma {:induction false} GatedExtends(
    w: World, asked: seq<string>, lets: Lets, more: Lets, gated: seq<Gated>, p: Positive)
    requires Extends(more, lets) && AftersResolve(w, lets, gated, p) && ReleasedTyped(w, asked, lets, gated, p)
    ensures AftersResolve(w, more, gated, p) && ReleasedTyped(w, asked, more, gated, p)
    ensures Unreleased(w, more, gated, p) == Unreleased(w, lets, gated, p)
    ensures Released(w, more, gated, p) == Released(w, lets, gated, p)
  {
    hide Token, LineTokens, Releases;
    if |gated| > 0 {
      var n := |gated| - 1;
      var front := gated[..n];
      assert forall g :: g in gated <==> g in front || g == gated[n];
      GatedExtends(w, asked, lets, more, front, p);
      ReleasesExtends(w, lets, more, gated[n], p);
    }
  }

  lemma GatedOneMore(
    w: World, asked: seq<string>, lets: Lets, gated: seq<Gated>, g: Gated, p: Positive, before: Lets)
    requires AftersResolve(w, lets, gated, p) && ReleasedTyped(w, asked, lets, gated, p)
    requires Extends(lets, before) && Token(w, before, g.after).Some? && LineTokens(w, before, p).Some?
    requires Releases(w, before, g, p) ==> EntriesTyped(asked, lets, g)
    ensures AftersResolve(w, lets, gated + [g], p) && ReleasedTyped(w, asked, lets, gated + [g], p)
    ensures Unreleased(w, lets, gated + [g], p) == Unreleased(w, lets, gated, p) + if Releases(w, before, g, p) then [] else [g]
    ensures Released(w, lets, gated + [g], p) == Released(w, lets, gated, p) + if Releases(w, before, g, p) then [g] else []
  {
    hide Token, LineTokens, Releases, EntriesTyped, Extends;
    ReleasesExtends(w, before, lets, g, p);
    assert (gated + [g])[..|gated|] == gated;
    assert forall x :: x in gated + [g] <==> x in gated || x == g;
  }

  // ---------------------------------------------------------------- acts still waiting

  lemma NobodyReleased(w: World, s: Scenario, lets: Lets, gated: seq<Gated>)
    ensures StillWaiting(w, s, lets, gated, 0)
  {
  }

  /** No log line so far released any of the acts. */
  predicate StillWaiting(w: World, s: Scenario, lets: Lets, gated: seq<Gated>, n: nat) {
    && n <= |s.positives|
    && forall g, j :: g in gated && 0 <= j < n && s.positives[j].Log? ==> Waits(w, lets, g, s.positives[j])
  }

  predicate Waits(w: World, lets: Lets, g: Gated, p: Positive) {
    Token(w, lets, g.after).Some? && LineTokens(w, lets, p).Some? && !Releases(w, lets, g, p)
  }

  lemma {:induction false} UnreleasedMeans(w: World, lets: Lets, gated: seq<Gated>, p: Positive)
    ensures forall g :: g in Unreleased(w, lets, gated, p) <==> g in gated && !Releases(w, lets, g, p)
  {
    hide Releases;
    if |gated| > 0 {
      var n := |gated| - 1;
      UnreleasedMeans(w, lets, gated[..n], p);
      assert forall g :: g in gated <==> g in gated[..n] || g == gated[n];
      var earlier, all := Unreleased(w, lets, gated[..n], p), Unreleased(w, lets, gated, p);
      var last := if Releases(w, lets, gated[n], p) then [] else [gated[n]];
      assert all == earlier + last;
      assert forall g :: g in all <==> g in earlier || g in last;
    }
  }

  lemma StillWaitingExtends(w: World, s: Scenario, lets: Lets, more: Lets, gated: seq<Gated>, n: nat)
    requires StillWaiting(w, s, lets, gated, n) && Extends(more, lets)
    ensures StillWaiting(w, s, more, gated, n)
  {
    hide Token, LineTokens, Releases, Extends;
    forall g, j | g in gated && 0 <= j < n && s.positives[j].Log?
      ensures Waits(w, more, g, s.positives[j])
    {
      assert Waits(w, lets, g, s.positives[j]);
      ReleasesExtends(w, lets, more, g, s.positives[j]);
    }
  }

  lemma StillWaitingOneMore(w: World, s: Scenario, lets: Lets, gated: seq<Gated>, n: nat)
    requires n < |s.positives| && StillWaiting(w, s, lets, gated, n) && AftersResolve(w, lets, gated, s.positives[n])
    ensures StillWaiting(w, s, lets, Unreleased(w, lets, gated, s.positives[n]), n + 1)
  {
    hide Token, LineTokens, Releases;
    UnreleasedMeans(w, lets, gated, s.positives[n]);
  }

  lemma SomeLineReleases(w: World, s: Scenario, v: View, g: Gated) returns (j: nat)
    requires Linted(s) && g in s.gated && (forall i :: 0 <= i < |s.positives| ==> Shown(w, v, s.positives[i]))
    ensures j < |s.positives| && s.positives[j].Log? && !Waits(w, v.lets, g, s.positives[j])
  {
    hide Token, MatchesOf, LintedLine, UsesRunAfter, UsesConfirmedRun;
    assert Named(s.positives, g.after);
    var p :| p in s.positives && p.Log? && g.after in p.tokens;
    j :| 0 <= j < |s.positives| && s.positives[j] == p;
    NamedIsToken(w, v, p, g.after);
  }

  /** Once every positive is handled, every gated act of a linted scenario was released. */
  lemma NoActIsLeft(w: World, s: Scenario, v: View, gated: seq<Gated>)
    requires Linted(s) && (forall g :: g in gated ==> g in s.gated)
    requires (forall j :: 0 <= j < |s.positives| ==> Shown(w, v, s.positives[j]))
    requires StillWaiting(w, s, v.lets, gated, |s.positives|)
    ensures gated == []
  {
    hide Token, Linted, Shown, Waits;
    if gated != [] {
      var g := gated[0];
      assert g in gated;
      var j := SomeLineReleases(w, s, v, g);
    }
  }

  lemma NamedIsToken(w: World, v: View, p: Positive, token: string)
    requires p.Log? && token in p.tokens && Shown(w, v, p)
    ensures Tokens(w, v.lets, p.tokens).Some? && Token(w, v.lets, token).Some?
    ensures Token(w, v.lets, token).value in Tokens(w, v.lets, p.tokens).value
  {
    hide Token, MatchesOf;
    var k :| 0 <= k < |p.tokens| && p.tokens[k] == token;
    assert Tokens(w, v.lets, p.tokens).value[k] in Tokens(w, v.lets, p.tokens).value;
  }
}
