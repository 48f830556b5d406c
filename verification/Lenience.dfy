/** A captured log that a live run fails and a fixture run passes. */
module Lenience {
  import opened Endings
  import opened EvidenceState
  import opened Options
  import opened Scenarios
  import opened Templates

  const ONE_A := Log(["A"], false, [], 1, None, 5, [])
  const TWO_A := Log(["A"], false, [], 2, None, 5, [])
  const AFTER_A := Forbidden("bad", Some("A"))
  const LENIENT := Scenario([ONE_A, TWO_A], [AFTER_A], 0, [], [])
  const LINES := ["A", "bad", "A"]

  /** Nothing was judged yet. */
  function Empty(lets: Lets): View { View(LINES, lets, map[], map[], map[], []) }

  /** The first positive was satisfied. */
  function Once(w: World, lets: Lets, at: nat): View {
    View(LINES, lets, map["A" := 0], map["A" := w.utc(at)], map["A" := at], [Mark(0, ONE_A, 3, at)])
  }

  /** Both were. */
  function Twice(w: World, lets: Lets, at: nat): View {
    View(LINES, lets, map["A" := 2], map["A" := w.utc(at)], map["A" := at],
         [Mark(0, ONE_A, 3, at), Mark(1, TWO_A, 3, at + 1)])
  }

  lemma PlainToken(w: World, lets: Lets, t: string)
    requires DollarFree(t)
    ensures Token(w, lets, t) == Some(t) && Tokens(w, lets, [t]) == Some([t]) && Tokens(w, lets, []) == Some([])
  {
    hide Resolve;
    DollarFreeScan(t);
    assert NoReference(t) by {
      forall p | p in Scan(t)
        ensures p.Char?
      {
        var i :| 0 <= i < |Chars(t)| && Chars(t)[i] == p;
      }
    }
    NoReferenceStays(t, Scope(w.constants, lets, w.render));
    hide Token;
    assert forall r :: r in [t] ==> r == t;
    assert [t][0] == t && Tokens(w, lets, [t]).Some? && Tokens(w, lets, [t]).value == [t];
    assert Tokens(w, lets, []).Some? && Tokens(w, lets, []).value == [];
  }

  lemma Letters()
    ensures Contains("A", "A") && !Contains("bad", "A") && Contains("bad", "bad") && !Contains("A", "bad")
  {
    assert "A" <= "A"[0..] && "bad" <= "bad"[0..];
    forall i | 0 <= i < 3
      ensures !("A" <= "bad"[i..])
    {
      assert "bad"[i..][0] == "bad"[i] != 'A';
    }
  }

  lemma Matches()
    ensures MatchIndices(LINES, ["A"], []) == [0, 2]
  {
    Letters();
    hide Contains;
    assert LINES[..2] == ["A", "bad"] && LINES[..2][..1] == ["A"] && LINES[..2][..1][..0] == [];
    assert "A" in ["A"] && forall t :: t in ["A"] ==> t == "A";
    assert MatchIndices(["A"], ["A"], []) == [0];
    assert MatchIndices(["A", "bad"], ["A"], []) == [0];
  }

  lemma Satisfies(w: World, lets: Lets)
    ensures LogVerdictOf(w, lets, LINES, ONE_A) == Satisfied(0) && LogVerdictOf(w, lets, LINES, TWO_A) == Satisfied(2)
    ensures MatchesOf(w, lets, LINES, ONE_A) == [0, 2] && MatchesOf(w, lets, LINES, TWO_A) == [0, 2]
  {
    hide Tokens, MatchIndices;
    PlainToken(w, lets, "A");
    Matches();
  }

  lemma StampA(m: map<string, nat>, at: nat)
    ensures Stamp(m, ["A"], at) == m["A" := at]
  {
    assert ["A"][..0] == [];
  }

  lemma ShownA(lines: seq<string>)
    requires lines == LINES
    ensures InMatch(lines, [0, 2], "A")
  {
    Letters();
    hide Contains;
    assert 0 in [0, 2] && lines[0] == "A";
  }

  lemma OnlyA(w: World, lets: Lets, p: Positive)
    requires p == ONE_A || p == TWO_A
    ensures forall t :: Names(w, lets, p, t) <==> t == "A"
  {
    hide Tokens;
    PlainToken(w, lets, "A");
    assert forall t :: t in ["A"] <==> t == "A";
  }

  lemma FirstStamped(w: World, lets: Lets, at: nat)
    ensures Stamped(w, Empty(lets), 0, ONE_A, Once(w, lets, at), at, at + 1)
  {
    hide Tokens, LogVerdictOf, MatchesOf, InMatch, Names, Stamp;
    PlainToken(w, lets, "A");
    Satisfies(w, lets);
    StampA(map[], 0);
    ShownA(LINES);
    OnlyA(w, lets, ONE_A);
  }

  lemma SecondStamped(w: World, lets: Lets, at: nat)
    ensures Stamped(w, Once(w, lets, at), 1, TWO_A, Twice(w, lets, at), at + 1, at + 2)
  {
    hide Tokens, LogVerdictOf, MatchesOf, InMatch, Names, Stamp;
    PlainToken(w, lets, "A");
    Satisfies(w, lets);
    StampA(map["A" := 0], 2);
    ShownA(LINES);
    OnlyA(w, lets, TWO_A);
    assert map["A" := 0]["A" := 2] == map["A" := 2];
  }

  lemma IsLinted()
    ensures Linted(LENIENT)
  {
    var ps := LENIENT.positives;
    assert ps[0] in ps && "A" in ps[0].tokens;
    assert Named(ps, "A");
    assert forall p :: p in ps ==> p.Log?;
  }

  /** Past its last index nothing forbidden stands. */
  lemma CheckIsClear(w: World, lets: Lets, at: nat)
    ensures AllCleared(w, LENIENT, Twice(w, lets, at))
  {
    PlainToken(w, lets, "A");
    PlainToken(w, lets, "bad");
    hide Token, Contains;
    assert forall f :: f in LENIENT.forbidden ==> f == AFTER_A;
  }

  /** Past its first index "bad" does. */
  lemma CheckHits(w: World, lets: Lets, at: nat)
    ensures HitAt(w, LENIENT, Once(w, lets, at), 0, 1)
  {
    PlainToken(w, lets, "A");
    PlainToken(w, lets, "bad");
    Letters();
    hide Token, Contains, Cleared;
    assert LENIENT.forbidden[..0] == [];
    assert LINES[1] == "bad";
  }

  /** One positive for an A, one for two, and "bad" forbidden after A; the log holds A, bad, A. Both
      positives are satisfied by the whole log, the second moving the anchor past the forbidden line:
      the check a fixture makes at the end is clear, the one a live run makes in between is a hit. */
  lemma FixtureIsLenient(w: World, lets: Lets, at: nat)
    ensures Linted(LENIENT)
    ensures Stamped(w, Empty(lets), 0, ONE_A, Once(w, lets, at), at, at + 1)
    ensures Stamped(w, Once(w, lets, at), 1, TWO_A, Twice(w, lets, at), at + 1, at + 2)
    ensures AllCleared(w, LENIENT, Twice(w, lets, at)) && HitAt(w, LENIENT, Once(w, lets, at), 0, 1)
  {
    IsLinted();
    FirstStamped(w, lets, at);
    SecondStamped(w, lets, at);
    CheckIsClear(w, lets, at);
    CheckHits(w, lets, at);
    hide Stamped, Linted, AllCleared, HitAt;
  }
}
