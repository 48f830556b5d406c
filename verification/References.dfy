/** What references read and what substitution writes, piece by piece and depth by depth. */
module References {
  import opened Options
  import opened Templates

  // ---------------------------------------------------------------- dotted names

  function Dotted(segments: seq<string>): string
    requires |segments| > 0
  {
    if |segments| == 1 then segments[0] else segments[0] + "." + Dotted(segments[1..])
  }

  predicate Undotted(segments: seq<string>) {
    |segments| > 0 && forall i :: 0 <= i < |segments| ==> '.' !in segments[i]
  }

  lemma {:induction false} SegmentsOfHead(head: string, rest: string)
    requires '.' !in head
    ensures Segments(head) == [head]
    ensures Segments(head + "." + rest) == [head] + Segments(rest)
  {
    var s := head + "." + rest;
    if |head| == 0 {
      assert s[0] == '.' && s[1..] == rest;
    } else {
      SegmentsOfHead(head[1..], rest);
      assert s[0] == head[0] && head[0] in head && s[1..] == head[1..] + "." + rest;
      assert [head[0]] + head[1..] == head;
    }
  }

  lemma {:induction false} SegmentsOfDotted(segments: seq<string>)
    requires Undotted(segments)
    ensures Segments(Dotted(segments)) == segments
  {
    if |segments| == 1 {
      SegmentsOfHead(segments[0], "");
    } else {
      SegmentsOfDotted(segments[1..]);
      SegmentsOfHead(segments[0], Dotted(segments[1..]));
      assert segments == [segments[0]] + segments[1..];
    }
  }

  /** The first entry of that key holds the value. */
  predicate FirstEntry(entries: seq<Entry>, key: string, v: Value) {
    exists k :: 0 <= k < |entries| && entries[k] == Entry(key, v) && forall j :: 0 <= j < k ==> entries[j].key != key
  }

  lemma {:induction false} FindIs(entries: seq<Entry>, key: string, v: Value)
    ensures Find(entries, key) == Some(v) <==> FirstEntry(entries, key, v)
  {
    if |entries| > 0 {
      FindIs(entries[1..], key, v);
      assert forall i :: 0 <= i < |entries[1..]| ==> entries[1..][i] == entries[i + 1];
      if entries[0].key == key {
        assert FirstEntry(entries, key, entries[0].value);
      } else {
        if k :| 0 <= k < |entries[1..]| && entries[1..][k] == Entry(key, v) && forall j :: 0 <= j < k ==> entries[1..][j].key != key {
          assert entries[k + 1] == Entry(key, v) && forall j :: 1 <= j < k + 1 ==> entries[j] == entries[1..][j - 1];
        }
        if k :| 0 <= k < |entries| && entries[k] == Entry(key, v) && forall j :: 0 <= j < k ==> entries[j].key != key {
          assert entries[1..][k - 1] == Entry(key, v);
        }
      }
    }
  }

  /** Each value is the entry of its segment in the map before it. */
  predicate Steps(path: seq<Value>, segments: seq<string>) {
    |path| == |segments| + 1
    && forall i :: 0 <= i < |segments| ==> path[i].Map? && FirstEntry(path[i].entries, segments[i], path[i + 1])
  }

  lemma {:induction false} WalkSteps(node: Value, segments: seq<string>) returns (path: seq<Value>)
    requires Walk(node, segments).Some?
    ensures Steps(path, segments) && path[0] == node && path[|segments|] == Walk(node, segments).value
    decreases |segments|
  {
    hide FirstEntry;
    if |segments| == 0 {
      path := [node];
    } else {
      var next := Find(node.entries, segments[0]).value;
      FindIs(node.entries, segments[0], next);
      var rest := WalkSteps(next, segments[1..]);
      path := [node] + rest;
      assert forall i :: 0 <= i < |segments[1..]| ==> segments[1..][i] == segments[i + 1];
      assert forall i :: 1 <= i < |segments| ==> segments[i] == segments[1..][i - 1];
    }
  }

  lemma {:induction false} StepsWalk(path: seq<Value>, segments: seq<string>)
    requires Steps(path, segments)
    ensures Walk(path[0], segments) == Some(path[|segments|])
  {
    if |segments| > 0 {
      FindIs(path[0].entries, segments[0], path[1]);
      hide FirstEntry;
      assert forall i :: 0 <= i < |segments[1..]| ==> segments[1..][i] == segments[i + 1];
      StepsWalk(path[1..], segments[1..]);
    }
  }

  /** A dotted reference reads the value its segments lead to, one map entry each, from the space's
      own name. */
  lemma {:induction false} LookupWalks(space: map<string, Value>, segments: seq<string>, v: Value)
    requires Undotted(segments)
    ensures Lookup(space, Dotted(segments)) == Some(v) <==>
      exists path :: segments[0] in space && Steps(path, segments[1..]) && path[0] == space[segments[0]] && path[|segments| - 1] == v
  {
    SegmentsOfDotted(segments);
    hide Segments, FirstEntry;
    if Lookup(space, Dotted(segments)) == Some(v) {
      var path := WalkSteps(space[segments[0]], segments[1..]);
    }
    if path :| segments[0] in space && Steps(path, segments[1..]) && path[0] == space[segments[0]] && path[|segments| - 1] == v {
      StepsWalk(path, segments[1..]);
    }
  }

  // ---------------------------------------------------------------- text

  function Concat(parts: seq<string>): string { if |parts| == 0 then "" else parts[0] + Concat(parts[1..]) }

  /** What a reference reads: a constant or a let. */
  function Reading(p: Piece, scope: Scope): Option<Value>
    requires p.Ref?
  {
    match p.space case C => Lookup(scope.constants, p.name) case Let => Lookup(scope.lets, p.name)
  }

  /** What a piece becomes: itself for a character, its own spelling for a let of the first stage,
      else the rendering of what it reads. */
  predicate Becomes(p: Piece, scope: Scope, stageOne: bool, t: string) {
    match p
    case Char(c) => t == [c]
    case Ref(space, name) =>
      if stageOne && space == Let then t == "${let." + name + "}"
      else Reading(p, scope).Some? && t == scope.render(Reading(p, scope).value)
  }

  /** A reference due in this stage that reads nothing. */
  predicate Unresolved(p: Piece, scope: Scope, stageOne: bool) {
    p.Ref? && !(stageOne && p.space == Let) && Reading(p, scope).None?
  }

  ghost predicate Filled(ps: seq<Piece>, scope: Scope, stageOne: bool, t: string) {
    exists parts :: |parts| == |ps| && t == Concat(parts) && forall i :: 0 <= i < |ps| ==> Becomes(ps[i], scope, stageOne, parts[i])
  }

  lemma FillIs(p: Piece, scope: Scope, stageOne: bool, t: string)
    ensures Fill(p, scope, stageOne).None? <==> Unresolved(p, scope, stageOne)
    ensures Fill(p, scope, stageOne) == Some(t) <==> Becomes(p, scope, stageOne, t)
  {
    hide Lookup;
  }

  lemma FilledCons(ps: seq<Piece>, scope: Scope, stageOne: bool, head: string, tail: string)
    requires |ps| > 0 && Becomes(ps[0], scope, stageOne, head) && Filled(ps[1..], scope, stageOne, tail)
    ensures Filled(ps, scope, stageOne, head + tail)
  {
    hide Becomes;
    var rest :| |rest| == |ps[1..]| && tail == Concat(rest)
                && forall i :: 0 <= i < |ps[1..]| ==> Becomes(ps[1..][i], scope, stageOne, rest[i]);
    var parts := [head] + rest;
    assert parts[1..] == rest;
    assert forall i :: 1 <= i < |ps| ==> ps[i] == ps[1..][i - 1] && parts[i] == rest[i - 1];
  }

  lemma NothingFilled(scope: Scope, stageOne: bool)
    ensures Filled([], scope, stageOne, "")
  {
    var none: seq<string> := [];
    assert |none| == 0 && Concat(none) == "";
  }

  lemma {:induction false} FillMeans(ps: seq<Piece>, scope: Scope, stageOne: bool)
    ensures FillAll(ps, scope, stageOne).None? <==> exists p :: p in ps && Unresolved(p, scope, stageOne)
    ensures FillAll(ps, scope, stageOne).Some? ==> Filled(ps, scope, stageOne, FillAll(ps, scope, stageOne).value)
  {
    hide Fill, Unresolved, Becomes, Filled;
    if |ps| == 0 {
      assert ps == [];
      NothingFilled(scope, stageOne);
    } else {
      FillMeans(ps[1..], scope, stageOne);
      var head, tail := Fill(ps[0], scope, stageOne), FillAll(ps[1..], scope, stageOne);
      FillIs(ps[0], scope, stageOne, if head.Some? then head.value else "");
      assert forall p :: p in ps <==> p == ps[0] || p in ps[1..];
      if head.Some? && tail.Some? { FilledCons(ps, scope, stageOne, head.value, tail.value); }
    }
  }

  // ---------------------------------------------------------------- whole references

  lemma {:induction false} StripLeftPast(lead: string, rest: string)
    requires Blank(lead) && (|rest| > 0 ==> !IsBlank(rest[0]))
    ensures StripLeft(lead + rest) == rest
  {
    hide IsBlank;
    if |lead| == 0 {
      assert lead + rest == rest;
    } else {
      assert lead[0] in lead && (lead + rest)[1..] == lead[1..] + rest;
      StripLeftPast(lead[1..], rest);
    }
  }

  lemma {:induction false} StripRightPast(rest: string, trail: string)
    requires Blank(trail) && (|rest| > 0 ==> !IsBlank(rest[|rest| - 1]))
    ensures StripRight(rest + trail) == rest
    decreases |trail|
  {
    hide IsBlank;
    if |trail| == 0 {
      assert rest + trail == rest;
    } else {
      var s, front := rest + trail, trail[..|trail| - 1];
      assert s[|s| - 1] == trail[|trail| - 1] && trail[|trail| - 1] in trail;
      assert s[..|s| - 1] == rest + front;
      StripRightPast(rest, front);
    }
  }

  /** A reference among blanks is the whole of its text. */
  lemma AloneIsWhole(lead: string, r: Piece, trail: string)
    requires Blank(lead) && Blank(trail) && r.Ref? && ProperName(r.name)
    ensures Whole(lead + Written(r) + trail) == Some(r)
  {
    var w := Written(r);
    assert w[0] == '$' && w[|w| - 1] == '}';
    hide Blank, ProperName, NameAfter;
    StripLeftPast(lead, w + trail);
    assert lead + w + trail == lead + (w + trail);
    StripRightPast(w, trail);
    assert Strip(lead + w + trail) == w;
    RefAtWritten(r, "");
    assert w + "" == w;
  }

  /** A text that is one reference among blanks becomes what the reference reads, as it is; a let
      waits for the second stage. */
  lemma {:induction false} AloneReads(lead: string, r: Piece, trail: string, scope: Scope, stageOne: bool)
    requires Blank(lead) && Blank(trail) && r.Ref? && ProperName(r.name)
    ensures var s := lead + Written(r) + trail;
      Substitute(Text(s), scope, stageOne) == if stageOne && r.space == Let then Some(Text(s)) else Reading(r, scope)
  {
    AloneIsWhole(lead, r, trail);
    hide Lookup, Whole, Blank, ProperName;
  }

  ghost predicate Alone(ps: seq<Piece>) {
    exists lead, r: Piece, trail :: Blank(lead) && Blank(trail) && r.Ref? && ps == Chars(lead) + [r] + Chars(trail)
  }

  /** Any other text is refused exactly when a reference due in this stage reads nothing, and is
      else its pieces filled in, in order. */
  lemma {:induction false} MixedReads(ps: seq<Piece>, scope: Scope, stageOne: bool)
    requires Plain(ps) && !Alone(ps)
    ensures var out := Substitute(Text(Unscan(ps)), scope, stageOne);
      && (out.None? <==> exists p :: p in ps && Unresolved(p, scope, stageOne))
      && (out.Some? ==> out.value.Text? && Filled(ps, scope, stageOne, out.value.s))
  {
    ScanUnscan(ps);
    FillMeans(ps, scope, stageOne);
    hide Scan, Unscan, Unresolved, Filled, FillAll, Alone, Plain, Whole;
    if Whole(Unscan(ps)).Some? { WholeIsAlone(ps); }
  }

  lemma WholeIsAlone(ps: seq<Piece>)
    requires Plain(ps) && Whole(Unscan(ps)).Some?
    ensures Alone(ps)
  {
    ScanUnscan(ps);
    hide Scan, Unscan, Blank, Plain;
    var lead, trail := WholeScans(Unscan(ps));
  }

  // ---------------------------------------------------------------- depth

  predicate ItemsBecome(items: seq<Value>, out: seq<Value>, scope: Scope, stageOne: bool) {
    |out| == |items| && forall i :: 0 <= i < |items| ==> Substitute(items[i], scope, stageOne) == Some(out[i])
  }

  predicate EntriesBecome(entries: seq<Entry>, out: seq<Entry>, scope: Scope, stageOne: bool) {
    |out| == |entries|
    && forall i :: 0 <= i < |entries| ==>
      out[i].key == entries[i].key && Substitute(entries[i].value, scope, stageOne) == Some(out[i].value)
  }

  lemma {:induction false} ItemsRead(items: seq<Value>, scope: Scope, stageOne: bool)
    ensures var out := SubstituteList(items, scope, stageOne);
      && (out.None? <==> exists i :: 0 <= i < |items| && Substitute(items[i], scope, stageOne).None?)
      && (out.Some? ==> ItemsBecome(items, out.value, scope, stageOne))
  {
    if |items| > 0 {
      ItemsRead(items[1..], scope, stageOne);
      hide Substitute;
      assert forall i :: 0 <= i < |items[1..]| ==> items[1..][i] == items[i + 1];
      assert forall i :: 1 <= i < |items| ==> items[i] == items[1..][i - 1];
    }
  }

  lemma {:induction false} EntriesRead(entries: seq<Entry>, scope: Scope, stageOne: bool)
    ensures var out := SubstituteMap(entries, scope, stageOne);
      && (out.None? <==> exists i :: 0 <= i < |entries| && Substitute(entries[i].value, scope, stageOne).None?)
      && (out.Some? ==> EntriesBecome(entries, out.value, scope, stageOne))
  {
    if |entries| > 0 {
      EntriesRead(entries[1..], scope, stageOne);
      hide Substitute;
      assert forall i :: 0 <= i < |entries[1..]| ==> entries[1..][i] == entries[i + 1];
      assert forall i :: 1 <= i < |entries| ==> entries[i] == entries[1..][i - 1];
    }
  }

  /** A list or a map is refused exactly when a part of it is, and else keeps its order and its keys;
      anything but text stays as it is. */
  lemma {:induction false} DepthReads(v: Value, scope: Scope, stageOne: bool)
    ensures var out := Substitute(v, scope, stageOne);
      && (v.List? ==>
            && (out.None? <==> exists i :: 0 <= i < |v.items| && Substitute(v.items[i], scope, stageOne).None?)
            && (out.Some? ==> out.value.List? && ItemsBecome(v.items, out.value.items, scope, stageOne)))
      && (v.Map? ==>
            && (out.None? <==> exists i :: 0 <= i < |v.entries| && Substitute(v.entries[i].value, scope, stageOne).None?)
            && (out.Some? ==> out.value.Map? && EntriesBecome(v.entries, out.value.entries, scope, stageOne)))
      && (v.Null? || v.Truth? || v.Number? ==> out == Some(v))
  {
    match v
    case List(items) => ItemsRead(items, scope, stageOne);
    case Map(entries) => EntriesRead(entries, scope, stageOne);
    case _ =>
  }

  /** A token resolves exactly when its substitution is text. */
  lemma {:induction false} ResolveMeans(raw: string, scope: Scope, t: string)
    ensures Resolve(raw, scope) == Some(t) <==> Substitute(Text(raw), scope, false) == Some(Text(t))
  {
    hide SubstituteText;
  }
}
