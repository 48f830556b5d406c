/** Two-stage substitution of ${C.*} and ${let.*} references. */
module Templates {
  import opened Options

  /** A parsed YAML or JSON value. */
  datatype Value =
    | Null
    | Truth(b: bool)
    | Number(n: int)
    | Text(s: string)
    | List(items: seq<Value>)
    | Map(entries: seq<Entry>)

  datatype Entry = Entry(key: string, value: Value)

  datatype Space = C | Let

  /** One scanned piece: a literal character, or a reference. */
  datatype Piece = Char(c: char) | Ref(space: Space, name: string)

  // ---------------------------------------------------------------- scanning

  predicate IsName(c: char) {
    'A' <= c <= 'Z' || 'a' <= c <= 'z' || '0' <= c <= '9' || c == '_' || c == '.' || c == '-'
  }

  predicate IsBlank(c: char) {
    var n := c as int;
    9 <= n <= 13 || 28 <= n <= 32 || n == 0x85 || n == 0xA0 || n == 0x1680 || 0x2000 <= n <= 0x200A
    || n == 0x2028 || n == 0x2029 || n == 0x202F || n == 0x205F || n == 0x3000
  }

  /** How many name characters a text starts with. */
  function NameRun(s: string): (n: nat)
    ensures n <= |s| && (forall i :: 0 <= i < n ==> IsName(s[i]))
    ensures n < |s| ==> !IsName(s[n])
  {
    if |s| > 0 && IsName(s[0]) then 1 + NameRun(s[1..]) else 0
  }

  function Opening(space: Space): string {
    match space case C => "${C." case Let => "${let."
  }

  function Written(p: Piece): string {
    match p
    case Char(c) => [c]
    case Ref(space, name) => Opening(space) + name + "}"
  }

  /** The name after an opening, when a closing brace follows at least one name character. */
  function NameAfter(rest: string): (r: Option<string>)
    ensures r.Some? ==> ProperName(r.value) && r.value + "}" <= rest
  {
    var n := NameRun(rest);
    if 0 < n < |rest| && rest[n] == '}' then Some(rest[..n]) else None
  }

  /** The reference a text starts with. */
  function RefAt(s: string): (r: Option<Piece>)
    ensures r.Some? ==> r.value.Ref? && ProperName(r.value.name) && Written(r.value) <= s && s[0] == '$'
  {
    if Opening(C) <= s && NameAfter(s[4..]).Some? then Some(Ref(C, NameAfter(s[4..]).value))
    else if Opening(Let) <= s && NameAfter(s[6..]).Some? then Some(Ref(Let, NameAfter(s[6..]).value))
    else None
  }

  predicate ProperName(name: string) { |name| > 0 && forall c :: c in name ==> IsName(c) }

  /** The pattern's matches, leftmost first, and the characters between them. */
  function Scan(s: string): seq<Piece>
    decreases |s|
  {
    if |s| == 0 then []
    else match RefAt(s)
      case Some(r) => [r] + Scan(s[|Written(r)|..])
      case None => [Char(s[0])] + Scan(s[1..])
  }

  function Unscan(ps: seq<Piece>): string {
    if |ps| == 0 then "" else Written(ps[0]) + Unscan(ps[1..])
  }

  /** Literal text without a dollar sign, and references that the pattern accepts. */
  predicate Plain(ps: seq<Piece>) {
    forall p :: p in ps ==> (p.Char? ==> p.c != '$') && (p.Ref? ==> ProperName(p.name))
  }

  lemma NameRunOf(name: string, rest: string)
    requires ProperName(name) && rest != "" && rest[0] == '}'
    ensures NameAfter(name + rest) == Some(name)
  {
    var s := name + rest;
    assert forall i :: 0 <= i < |name| ==> s[i] == name[i] && name[i] in name;
    assert s[|name|] == '}';
    assert s[..|name|] == name;
  }

  lemma RefAtWritten(p: Piece, rest: string)
    requires p.Ref? && ProperName(p.name)
    ensures RefAt(Written(p) + rest) == Some(p)
  {
    hide NameAfter;
    var s := Written(p) + rest;
    NameRunOf(p.name, "}" + rest);
    var k := |Opening(p.space)|;
    assert s == Opening(p.space) + (p.name + ("}" + rest));
    assert s[k..] == p.name + ("}" + rest);
    assert s[2] == Opening(p.space)[2];
  }

  lemma ScanWritten(p: Piece, rest: string)
    requires p.Char? ==> p.c != '$'
    requires p.Ref? ==> ProperName(p.name)
    ensures Scan(Written(p) + rest) == [p] + Scan(rest)
  {
    hide NameAfter, ProperName;
    var s := Written(p) + rest;
    assert s[|Written(p)|..] == rest;
    if p.Ref? {
      RefAtWritten(p, rest);
    }
  }

  /** Text built from plain pieces scans back to exactly those pieces. */
  lemma {:induction false} ScanUnscan(ps: seq<Piece>)
    requires Plain(ps)
    ensures Scan(Unscan(ps)) == ps
  {
    hide RefAt, ProperName, Written;
    if |ps| > 0 {
      assert ps[0] in ps && forall p :: p in ps[1..] ==> p in ps;
      ScanUnscan(ps[1..]);
      ScanWritten(ps[0], Unscan(ps[1..]));
      assert [ps[0]] + ps[1..] == ps;
    }
  }

  lemma {:induction false} UnscanScan(s: string)
    ensures Unscan(Scan(s)) == s
    ensures forall p :: p in Scan(s) && p.Ref? ==> ProperName(p.name)
    decreases |s|
  {
    hide RefAt, ProperName;
    if |s| > 0 {
      match RefAt(s)
      case Some(r) =>
        UnscanScan(s[|Written(r)|..]);
        assert Scan(s)[1..] == Scan(s[|Written(r)|..]);
        assert Written(r) + s[|Written(r)|..] == s;
      case None =>
        UnscanScan(s[1..]);
        assert Scan(s)[1..] == Scan(s[1..]);
        assert [s[0]] + s[1..] == s;
    }
  }

  lemma {:induction false} UnscanAppend(a: seq<Piece>, b: seq<Piece>)
    ensures Unscan(a + b) == Unscan(a) + Unscan(b)
  {
    hide Written;
    if |a| == 0 {
      assert a + b == b;
    } else {
      assert (a + b)[1..] == a[1..] + b;
      UnscanAppend(a[1..], b);
    }
  }

  // ---------------------------------------------------------------- whole references

  function StripLeft(s: string): string {
    if |s| > 0 && IsBlank(s[0]) then StripLeft(s[1..]) else s
  }

  function StripRight(s: string): string {
    if |s| > 0 && IsBlank(s[|s| - 1]) then StripRight(s[..|s| - 1]) else s
  }

  function Strip(s: string): string { StripRight(StripLeft(s)) }

  predicate Blank(s: string) { forall c :: c in s ==> IsBlank(c) }

  /** The one reference a string is, apart from surrounding blanks. */
  function Whole(s: string): (r: Option<Piece>)
    ensures r.Some? ==> r.value.Ref? && ProperName(r.value.name)
  {
    var t := Strip(s);
    if RefAt(t).Some? && Written(RefAt(t).value) == t then RefAt(t) else None
  }

  function Chars(s: string): (ps: seq<Piece>)
    ensures |ps| == |s| && forall i :: 0 <= i < |s| ==> ps[i] == Char(s[i])
  {
    seq(|s|, i requires 0 <= i < |s| => Char(s[i]))
  }

  lemma {:induction false} UnscanChars(s: string)
    ensures Unscan(Chars(s)) == s
  {
    if |s| > 0 {
      UnscanChars(s[1..]);
      assert Chars(s)[1..] == Chars(s[1..]);
      assert [s[0]] + s[1..] == s;
    }
  }

  lemma {:induction false} StripLeftCuts(s: string) returns (k: nat)
    ensures k <= |s| && StripLeft(s) == s[k..]
    ensures forall i :: 0 <= i < k ==> IsBlank(s[i])
  {
    hide IsBlank;
    k := 0;
    if |s| > 0 && IsBlank(s[0]) {
      var rest := StripLeftCuts(s[1..]);
      k := rest + 1;
      assert s[1..][rest..] == s[k..];
      assert forall i :: 0 < i < k ==> s[i] == s[1..][i - 1];
    }
  }

  lemma {:induction false} StripRightCuts(s: string) returns (k: nat)
    ensures k <= |s| && StripRight(s) == s[..k]
    ensures forall i :: k <= i < |s| ==> IsBlank(s[i])
  {
    hide IsBlank;
    k := |s|;
    if |s| > 0 && IsBlank(s[|s| - 1]) {
      var t := s[..|s| - 1];
      k := StripRightCuts(t);
      assert t[..k] == s[..k];
      assert forall i :: k <= i < |t| ==> s[i] == t[i];
    }
  }

  /** Stripping takes blanks off both ends. */
  lemma StripSplits(s: string) returns (lead: string, trail: string)
    ensures s == lead + Strip(s) + trail && Blank(lead) && Blank(trail)
  {
    hide IsBlank, StripLeft, StripRight;
    var i := StripLeftCuts(s);
    var t := s[i..];
    var j := StripRightCuts(t);
    lead, trail := s[..i], t[j..];
    assert s == lead + t && t == t[..j] + trail;
  }

  /** A whole reference is a scan of one reference among blanks. */
  lemma WholeScans(s: string) returns (lead: string, trail: string)
    requires Whole(s).Some?
    ensures Blank(lead) && Blank(trail)
    ensures Scan(s) == Chars(lead) + [Whole(s).value] + Chars(trail)
  {
    hide Scan, Unscan, RefAt, Strip, Blank, Plain, ProperName;
    lead, trail := StripSplits(s);
    var r := Whole(s).value;
    PlainAround(lead, r, trail);
    UnscanAround(lead, r, trail);
    ScanUnscan(Chars(lead) + [r] + Chars(trail));
  }

  lemma PlainAround(lead: string, r: Piece, trail: string)
    requires Blank(lead) && Blank(trail) && r.Ref? && ProperName(r.name)
    ensures Plain(Chars(lead) + [r] + Chars(trail))
  {
    var ps := Chars(lead) + [r] + Chars(trail);
    forall p | p in ps
      ensures (p.Char? ==> p.c != '$') && (p.Ref? ==> ProperName(p.name))
    {
      var i :| 0 <= i < |ps| && ps[i] == p;
      if i < |lead| {
        assert p.c == lead[i] && lead[i] in lead;
      } else if i > |lead| {
        assert p.c == trail[i - |lead| - 1] && trail[i - |lead| - 1] in trail;
      }
    }
  }

  lemma UnscanAround(lead: string, r: Piece, trail: string)
    ensures Unscan(Chars(lead) + [r] + Chars(trail)) == lead + Written(r) + trail
  {
    UnscanOne(r);
    hide Unscan, Written;
    UnscanChars(lead);
    UnscanChars(trail);
    UnscanAppend(Chars(lead) + [r], Chars(trail));
    UnscanAppend(Chars(lead), [r]);
  }

  lemma UnscanOne(r: Piece)
    ensures Unscan([r]) == Written(r)
  {
    assert [r][1..] == [];
    assert Written(r) + "" == Written(r);
  }

  // ---------------------------------------------------------------- substitution

  /** What references read, and how `str` writes a value inside text. */
  datatype Scope = Scope(constants: map<string, Value>, lets: map<string, Value>, render: Value -> string)

  /** `name.split(".")` */
  function Segments(name: string): (r: seq<string>)
    ensures |r| > 0
  {
    if |name| == 0 then [""]
    else if name[0] == '.' then [""] + Segments(name[1..])
    else
      var rest := Segments(name[1..]);
      [[name[0]] + rest[0]] + rest[1..]
  }

  function Find(entries: seq<Entry>, key: string): Option<Value> {
    if |entries| == 0 then None
    else if entries[0].key == key then Some(entries[0].value)
    else Find(entries[1..], key)
  }

  function Walk(node: Value, segments: seq<string>): Option<Value>
    decreases segments
  {
    if |segments| == 0 then Some(node)
    else if node.Map? && Find(node.entries, segments[0]).Some? then
      Walk(Find(node.entries, segments[0]).value, segments[1..])
    else None
  }

  function Lookup(space: map<string, Value>, name: string): Option<Value> {
    var segments := Segments(name);
    if segments[0] in space then Walk(space[segments[0]], segments[1..]) else None
  }

  function Read(p: Piece, scope: Scope): Option<Value>
    requires p.Ref?
  {
    Lookup(if p.space == C then scope.constants else scope.lets, p.name)
  }

  predicate Deferred(p: Piece, stageOne: bool) { stageOne && p.Ref? && p.space == Let }

  function Fill(p: Piece, scope: Scope, stageOne: bool): Option<string> {
    if p.Char? || Deferred(p, stageOne) then Some(Written(p))
    else match Read(p, scope)
      case Some(v) => Some(scope.render(v))
      case None => None
  }

  function FillAll(ps: seq<Piece>, scope: Scope, stageOne: bool): Option<string> {
    if |ps| == 0 then Some("")
    else
      var head, tail := Fill(ps[0], scope, stageOne), FillAll(ps[1..], scope, stageOne);
      if head.Some? && tail.Some? then Some(head.value + tail.value) else None
  }

  function SubstituteText(s: string, scope: Scope, stageOne: bool): Option<Value> {
    match Whole(s)
    case Some(r) => if Deferred(r, stageOne) then Some(Text(s)) else Read(r, scope)
    case None =>
      match FillAll(Scan(s), scope, stageOne)
      case Some(t) => Some(Text(t))
      case None => None
  }

  /** References resolved throughout a value; `None` is the engine's refusal. */
  function Substitute(v: Value, scope: Scope, stageOne: bool): Option<Value>
    decreases v
  {
    match v
    case Text(s) => SubstituteText(s, scope, stageOne)
    case List(items) =>
      (match SubstituteList(items, scope, stageOne) case Some(l) => Some(List(l)) case None => None)
    case Map(entries) =>
      (match SubstituteMap(entries, scope, stageOne) case Some(m) => Some(Map(m)) case None => None)
    case _ => Some(v)
  }

  function SubstituteList(items: seq<Value>, scope: Scope, stageOne: bool): Option<seq<Value>>
    decreases items
  {
    if |items| == 0 then Some([])
    else
      var head, tail := Substitute(items[0], scope, stageOne), SubstituteList(items[1..], scope, stageOne);
      if head.Some? && tail.Some? then Some([head.value] + tail.value) else None
  }

  function SubstituteMap(entries: seq<Entry>, scope: Scope, stageOne: bool): Option<seq<Entry>>
    decreases entries
  {
    if |entries| == 0 then Some([])
    else
      var head, tail := Substitute(entries[0].value, scope, stageOne), SubstituteMap(entries[1..], scope, stageOne);
      if head.Some? && tail.Some? then Some([Entry(entries[0].key, head.value)] + tail.value) else None
  }

  /** Constants first with every let left alone, then the rest. */
  function Staged(v: Value, scope: Scope): Option<Value> {
    match Substitute(v, scope.(lets := map[]), true)
    case Some(first) => Substitute(first, scope, false)
    case None => None
  }

  // ---------------------------------------------------------------- when the stages agree

  /** Every text of a value, at any depth. */
  predicate AllTexts(v: Value, p: string -> bool)
    decreases v
  {
    match v
    case Text(s) => p(s)
    case List(items) => forall item :: item in items ==> AllTexts(item, p)
    case Map(entries) => forall e :: e in entries ==> AllTexts(e.value, p)
    case _ => true
  }

  predicate DollarFree(s: string) { '$' !in s }

  /** Outside its references a template's text has no dollar sign. */
  predicate PlainText(s: string) { forall p :: p in Scan(s) && p.Char? ==> p.c != '$' }

  /** Every constant a reference can reach is free of dollar signs. */
  ghost predicate DollarFreeConstants(scope: Scope) {
    forall name: string :: ProperName(name) && Lookup(scope.constants, name).Some? ==>
      var w := Lookup(scope.constants, name).value;
      AllTexts(w, DollarFree) && DollarFree(scope.render(w))
  }

  /** Every constant a reference can reach renders as something visible. */
  ghost predicate VisibleConstants(scope: Scope) {
    forall name: string :: ProperName(name) && Lookup(scope.constants, name).Some? ==>
      !Blank(scope.render(Lookup(scope.constants, name).value))
  }

  ghost predicate PlainConstants(scope: Scope) { DollarFreeConstants(scope) && VisibleConstants(scope) }

  lemma WholeHasDollar(s: string)
    requires Whole(s).Some?
    ensures !DollarFree(s)
  {
    var lead, trail := WholeScans(s);
    UnscanAround(lead, Whole(s).value, trail);
    UnscanScan(s);
    assert s[|lead|] == '$';
  }

  lemma DollarFreeScan(s: string)
    requires DollarFree(s)
    ensures Scan(s) == Chars(s)
  {
    assert Plain(Chars(s));
    ScanUnscan(Chars(s));
    UnscanChars(s);
  }

  lemma {:induction false} FillChars(s: string, scope: Scope, stageOne: bool)
    ensures FillAll(Chars(s), scope, stageOne) == Some(s)
  {
    if |s| > 0 {
      FillChars(s[1..], scope, stageOne);
      assert Chars(s)[1..] == Chars(s[1..]);
      assert [s[0]] + s[1..] == s;
    }
  }

  /** A value without dollar signs is left as it is. */
  lemma {:induction false} DollarFreeStays(v: Value, scope: Scope, stageOne: bool)
    requires AllTexts(v, DollarFree)
    ensures Substitute(v, scope, stageOne) == Some(v)
    decreases v
  {
    match v
    case Text(s) =>
      DollarFreeScan(s);
      FillChars(s, scope, stageOne);
      if Whole(s).Some? {
        WholeHasDollar(s);
      }
    case List(items) => DollarFreeItems(items, scope, stageOne);
    case Map(entries) => DollarFreeEntries(entries, scope, stageOne);
    case _ =>
  }

  lemma {:induction false} DollarFreeItems(items: seq<Value>, scope: Scope, stageOne: bool)
    requires forall item :: item in items ==> AllTexts(item, DollarFree)
    ensures SubstituteList(items, scope, stageOne) == Some(items)
    decreases items
  {
    if |items| > 0 {
      DollarFreeStays(items[0], scope, stageOne);
      DollarFreeItems(items[1..], scope, stageOne);
      assert [items[0]] + items[1..] == items;
    }
  }

  lemma {:induction false} DollarFreeEntries(entries: seq<Entry>, scope: Scope, stageOne: bool)
    requires forall e :: e in entries ==> AllTexts(e.value, DollarFree)
    ensures SubstituteMap(entries, scope, stageOne) == Some(entries)
    decreases entries
  {
    if |entries| > 0 {
      DollarFreeStays(entries[0].value, scope, stageOne);
      DollarFreeEntries(entries[1..], scope, stageOne);
      assert [entries[0]] + entries[1..] == entries;
    }
  }

  /** What the first stage makes of a piece whose constant resolves. */
  function Stage(p: Piece, scope: Scope): seq<Piece> {
    if p.Ref? && p.space == C && Read(p, scope).Some? then Chars(scope.render(Read(p, scope).value)) else [p]
  }

  function StageAll(ps: seq<Piece>, scope: Scope): seq<Piece> {
    if |ps| == 0 then [] else Stage(ps[0], scope) + StageAll(ps[1..], scope)
  }

  function Combine(head: Option<string>, tail: Option<string>): Option<string> {
    if head.Some? && tail.Some? then Some(head.value + tail.value) else None
  }

  lemma {:induction false} FillAppend(a: seq<Piece>, b: seq<Piece>, scope: Scope, stageOne: bool)
    ensures FillAll(a + b, scope, stageOne) == Combine(FillAll(a, scope, stageOne), FillAll(b, scope, stageOne))
  {
    hide Fill;
    var tail := FillAll(b, scope, stageOne);
    if |a| == 0 {
      assert a + b == b;
      assert tail.Some? ==> "" + tail.value == tail.value;
    } else {
      assert (a + b)[1..] == a[1..] + b;
      FillAppend(a[1..], b, scope, stageOne);
      var first, mid := Fill(a[0], scope, stageOne), FillAll(a[1..], scope, stageOne);
      if first.Some? && mid.Some? && tail.Some? {
        assert first.value + (mid.value + tail.value) == (first.value + mid.value) + tail.value;
      }
    }
  }

  lemma PlainAppend(a: seq<Piece>, b: seq<Piece>)
    ensures Plain(a + b) <==> Plain(a) && Plain(b)
  {
    assert forall p :: p in a + b <==> p in a || p in b;
  }

  /** The first stage writes what the staged pieces say, and leaves the second stage its share. */
  ghost predicate StagesTo(ps: seq<Piece>, staged: seq<Piece>, scope: Scope) {
    var first := FillAll(ps, scope.(lets := map[]), true);
    if first.Some? then
      first.value == Unscan(staged) && FillAll(staged, scope, false) == FillAll(ps, scope, false)
    else FillAll(ps, scope, false).None?
  }

  lemma StageConstant(p: Piece, scope: Scope)
    requires PlainConstants(scope) && p.Ref? && ProperName(p.name) && p.space == C && Read(p, scope).Some?
    ensures Plain(Stage(p, scope)) && StagesTo([p], Stage(p, scope), scope)
  {
    hide Lookup, Written, ProperName;
    assert Lookup(scope.constants, p.name).Some?;
    var t := scope.render(Read(p, scope).value);
    assert forall i :: 0 <= i < |t| ==> t[i] in t;
    assert Plain(Chars(t));
    UnscanChars(t);
    FillChars(t, scope, false);
    FillOne(p, scope, false);
    FillOne(p, scope.(lets := map[]), true);
  }

  lemma FillOne(p: Piece, scope: Scope, stageOne: bool)
    ensures FillAll([p], scope, stageOne) == Fill(p, scope, stageOne)
  {
    hide Fill;
    assert [p][1..] == [];
    if Fill(p, scope, stageOne).Some? {
      assert Fill(p, scope, stageOne).value + "" == Fill(p, scope, stageOne).value;
    }
  }

  lemma StageOnePiece(p: Piece, scope: Scope)
    requires PlainConstants(scope) && Plain([p])
    ensures Plain(Stage(p, scope)) && StagesTo([p], Stage(p, scope), scope)
  {
    hide Lookup, Written, FillAll, ProperName;
    assert p in [p];
    if p.Ref? && p.space == C && Read(p, scope).Some? {
      StageConstant(p, scope);
    } else {
      FillOne(p, scope, false);
      FillOne(p, scope.(lets := map[]), true);
      assert [p][1..] == [];
      assert Unscan([p]) == Written(p) + Unscan([]) == Written(p);
    }
  }

  lemma {:induction false} StageAllPieces(ps: seq<Piece>, scope: Scope)
    requires PlainConstants(scope) && Plain(ps)
    ensures Plain(StageAll(ps, scope)) && StagesTo(ps, StageAll(ps, scope), scope)
  {
    hide PlainConstants, Plain, Fill, FillAll, Stage, Unscan, Written;
    if |ps| == 0 {
      StageNoPieces(scope);
    } else {
      var head, tail := [ps[0]], ps[1..];
      assert ps == head + tail;
      PlainAppend(head, tail);
      StageOnePiece(ps[0], scope);
      StageAllPieces(tail, scope);
      var staged, rest := Stage(ps[0], scope), StageAll(tail, scope);
      PlainAppend(staged, rest);
      UnscanAppend(staged, rest);
      FillAppend(head, tail, scope, false);
      FillAppend(head, tail, scope.(lets := map[]), true);
      FillAppend(staged, rest, scope, false);
    }
  }

  lemma StageNoPieces(scope: Scope)
    ensures Plain([]) && StagesTo([], [], scope)
  {
  }

  predicate Quiet(ps: seq<Piece>) { forall p :: p in ps && p.Char? ==> IsBlank(p.c) }

  lemma VisibleStage(p: Piece, scope: Scope)
    requires PlainConstants(scope) && p.Ref? && ProperName(p.name) && p.space == C && Read(p, scope).Some?
    ensures !Quiet(Stage(p, scope))
  {
    hide IsBlank, ProperName;
    assert Lookup(scope.constants, p.name).Some?;
    var t := scope.render(Read(p, scope).value);
    var c :| c in t && !IsBlank(c);
    assert Char(c) in Chars(t);
  }

  /** When the first stage leaves nothing visible around the references, it replaced nothing. */
  lemma {:induction false} QuietStage(ps: seq<Piece>, scope: Scope)
    requires PlainConstants(scope) && Plain(ps) && FillAll(ps, scope.(lets := map[]), true).Some?
    requires Quiet(StageAll(ps, scope))
    ensures StageAll(ps, scope) == ps
  {
    hide PlainConstants, Lookup, Written, Quiet, ProperName;
    if |ps| > 0 {
      assert ps[0] in ps && forall p :: p in ps[1..] ==> p in ps;
      var p, staged, rest := ps[0], Stage(ps[0], scope), StageAll(ps[1..], scope);
      QuietAppend(staged, rest);
      QuietStage(ps[1..], scope);
      if p.Ref? && p.space == C {
        VisibleStage(p, scope);
      }
      assert [ps[0]] + ps[1..] == ps;
    }
  }

  lemma QuietAppend(a: seq<Piece>, b: seq<Piece>)
    requires Quiet(a + b)
    ensures Quiet(a) && Quiet(b)
  {
    hide IsBlank;
    assert forall p :: p in a || p in b ==> p in a + b;
  }

  lemma QuietAround(lead: string, r: Piece, trail: string)
    requires Blank(lead) && Blank(trail) && r.Ref?
    ensures Quiet(Chars(lead) + [r] + Chars(trail))
  {
    hide IsBlank;
    var ps := Chars(lead) + [r] + Chars(trail);
    forall p | p in ps && p.Char?
      ensures IsBlank(p.c)
    {
      assert p.c in lead || p.c in trail;
    }
  }

  lemma PlainScan(s: string)
    requires PlainText(s)
    ensures Plain(Scan(s))
  {
    UnscanScan(s);
  }

  /** A text that is no reference does not turn into one. */
  lemma StaysText(s: string, scope: Scope)
    requires PlainConstants(scope) && PlainText(s) && Whole(s).None?
    requires FillAll(Scan(s), scope.(lets := map[]), true).Some?
    ensures var t := FillAll(Scan(s), scope.(lets := map[]), true).value;
      Whole(t).None? && FillAll(Scan(t), scope, false) == FillAll(Scan(s), scope, false)
  {
    hide PlainConstants, PlainText, Plain, Scan, Unscan, StageAll, FillAll, Whole, Quiet, Blank;
    var ps := Scan(s);
    var staged := StageAll(ps, scope);
    PlainScan(s);
    StageAllPieces(ps, scope);
    ScanUnscan(staged);
    var t := Unscan(staged);
    if Whole(t).Some? {
      var lead, trail := WholeScans(t);
      QuietAround(lead, Whole(t).value, trail);
      QuietStage(ps, scope);
      UnscanScan(s);
    }
  }

  lemma StagedText(s: string, scope: Scope)
    requires PlainConstants(scope) && PlainText(s)
    ensures Staged(Text(s), scope) == Substitute(Text(s), scope, false)
  {
    hide PlainText, Scan, FillAll, Whole, Lookup;
    var early := scope.(lets := map[]);
    match Whole(s)
    case Some(r) =>
      if r.space == C && Read(r, scope).Some? {
        assert ProperName(r.name) && Lookup(scope.constants, r.name).Some?;
        DollarFreeStays(Read(r, scope).value, scope, false);
      }
    case None =>
      if FillAll(Scan(s), early, true).Some? {
        StaysText(s, scope);
      } else {
        PlainScan(s);
        StageAllPieces(Scan(s), scope);
      }
  }

  /** Resolving the constants first and the lets later gives what one pass gives, at every depth. */
  lemma {:induction false} StagedIsFull(v: Value, scope: Scope)
    requires PlainConstants(scope) && AllTexts(v, PlainText)
    ensures Staged(v, scope) == Substitute(v, scope, false)
    decreases v
  {
    hide PlainConstants, PlainText, SubstituteText;
    match v
    case Text(s) => StagedText(s, scope);
    case List(items) => StagedItems(items, scope);
    case Map(entries) => StagedEntries(entries, scope);
    case _ =>
  }

  lemma {:induction false} StagedItems(items: seq<Value>, scope: Scope)
    requires PlainConstants(scope) && forall item :: item in items ==> AllTexts(item, PlainText)
    ensures var first := SubstituteList(items, scope.(lets := map[]), true);
      SubstituteList(items, scope, false) == if first.Some? then SubstituteList(first.value, scope, false) else None
    decreases items
  {
    hide PlainConstants, PlainText, Substitute, AllTexts;
    if |items| > 0 {
      StagedIsFull(items[0], scope);
      StagedItems(items[1..], scope);
      var early := scope.(lets := map[]);
      var head, tail := Substitute(items[0], early, true), SubstituteList(items[1..], early, true);
      if head.Some? && tail.Some? {
        assert ([head.value] + tail.value)[1..] == tail.value;
      }
    }
  }

  lemma {:induction false} StagedEntries(entries: seq<Entry>, scope: Scope)
    requires PlainConstants(scope) && forall e :: e in entries ==> AllTexts(e.value, PlainText)
    ensures var first := SubstituteMap(entries, scope.(lets := map[]), true);
      SubstituteMap(entries, scope, false) == if first.Some? then SubstituteMap(first.value, scope, false) else None
    decreases entries
  {
    hide PlainConstants, PlainText, Substitute, AllTexts;
    if |entries| > 0 {
      StagedIsFull(entries[0].value, scope);
      StagedEntries(entries[1..], scope);
      var early := scope.(lets := map[]);
      var head, tail := Substitute(entries[0].value, early, true), SubstituteMap(entries[1..], early, true);
      if head.Some? && tail.Some? {
        assert ([Entry(entries[0].key, head.value)] + tail.value)[1..] == tail.value;
      }
    }
  }

  // ---------------------------------------------------------------- why a constant must be visible

  lemma {:induction false} StripBlanks(lead: string, x: string)
    requires Blank(lead) && x != "" && !IsBlank(x[0]) && !IsBlank(x[|x| - 1])
    ensures Strip(lead + x) == x
  {
    hide IsBlank;
    if |lead| == 0 {
      assert lead + x == x;
    } else {
      assert lead[0] in lead && (lead + x)[1..] == lead[1..] + x;
      StripBlanks(lead[1..], x);
    }
  }

  /** `str` of a text is that text. */
  ghost predicate RendersText(scope: Scope) { forall t: string :: scope.render(Text(t)) == t }

  /** A constant that renders blank turns the let beside it into a native value: with a blank between
      the two references the stages never agree. */
  lemma {:induction false} BlankConstantMisleads(n: string, m: string, scope: Scope)
    requires ProperName(n) && ProperName(m) && RendersText(scope)
    requires Lookup(scope.constants, n).Some? && Blank(scope.render(Lookup(scope.constants, n).value))
    requires Lookup(scope.lets, m).Some?
    ensures var s, v, w := Written(Ref(C, n)) + (" " + Written(Ref(Let, m))),
        Lookup(scope.constants, n).value, Lookup(scope.lets, m).value;
      AllTexts(Text(s), PlainText)
      && Substitute(Text(s), scope, false) == Some(Text(scope.render(v) + (" " + scope.render(w))))
      && Staged(Text(s), scope) == Some(w)
      && Staged(Text(s), scope) != Substitute(Text(s), scope, false)
  {
    hide Lookup, Blank, ProperName, RefAt, Scan;
    var c, l := Ref(C, n), Ref(Let, m);
    var ps, lead := [c, Char(' '), l], scope.render(Lookup(scope.constants, n).value);
    var s, early := Written(c) + (" " + Written(l)), scope.(lets := map[]);
    UnscanThree(c, l);
    ScanUnscan(ps);
    if Whole(s).Some? {
      var before, after := WholeScans(s);
      OneRef(before, Whole(s).value, after, c, l);
    }
    FillThree(c, l, scope, false);
    FillThree(c, l, early, true);
    assert lead + (" " + Written(l)) == (lead + " ") + Written(l);
    BlankMore(lead);
    StripBlanks(lead + " ", Written(l));
    RefAtWritten(l, "");
    assert Written(l) + "" == Written(l);
    var w := Lookup(scope.lets, m).value;
    if w.Text? {
      assert |lead + (" " + scope.render(w))| > |scope.render(w)|;
    }
  }

  lemma BlankMore(lead: string)
    requires Blank(lead)
    ensures Blank(lead + " ")
  {
  }

  lemma UnscanThree(c: Piece, l: Piece)
    ensures Unscan([c, Char(' '), l]) == Written(c) + (" " + Written(l))
  {
    OneCharacter(' ');
    hide Written;
    var ps := [c, Char(' '), l];
    assert ps[1..] == [Char(' '), l] && [Char(' '), l][1..] == [l] && [l][1..] == [];
    assert Unscan([l]) == Written(l) + Unscan([]) == Written(l);
    assert Unscan([Char(' '), l]) == " " + Unscan([l]);
  }

  lemma OneCharacter(c: char)
    ensures Written(Char(c)) == [c]
  {
  }

  lemma OneRef(lead: string, r: Piece, trail: string, c: Piece, l: Piece)
    requires c.Ref? && l.Ref?
    ensures Chars(lead) + [r] + Chars(trail) != [c, Char(' '), l]
  {
    var ps := Chars(lead) + [r] + Chars(trail);
    if |ps| == 3 {
      assert ps[0].Char? || ps[2].Char? by {
        if |lead| > 0 { assert ps[0] == Char(lead[0]); } else { assert ps[2] == Char(trail[1]); }
      }
    }
  }

  lemma FillThree(c: Piece, l: Piece, scope: Scope, stageOne: bool)
    ensures FillAll([c, Char(' '), l], scope, stageOne)
      == Combine(Fill(c, scope, stageOne), Combine(Some(" "), Fill(l, scope, stageOne)))
  {
    var sp := Char(' ');
    assert Fill(sp, scope, stageOne) == Some(" ");
    hide Fill;
    assert [c, sp, l] == [c] + ([sp] + [l]);
    FillOne(c, scope, stageOne);
    FillOne(sp, scope, stageOne);
    FillOne(l, scope, stageOne);
    FillAppend([sp], [l], scope, stageOne);
    FillAppend([c], [sp] + [l], scope, stageOne);
  }

  /** The exact condition. With constants free of dollar signs and some let bound, the two stages
      agree with one pass on every plain template if and only if no constant renders blank. */
  lemma {:induction false} StagedExactlyWhen(scope: Scope, m: string)
    requires DollarFreeConstants(scope) && RendersText(scope) && ProperName(m) && Lookup(scope.lets, m).Some?
    ensures (forall v: Value :: AllTexts(v, PlainText) ==> Staged(v, scope) == Substitute(v, scope, false))
      <==> VisibleConstants(scope)
  {
    hide Lookup, Blank, ProperName, Staged, Substitute, AllTexts, PlainText, Written, RendersText, DollarFreeConstants;
    if VisibleConstants(scope) {
      forall v: Value | AllTexts(v, PlainText)
        ensures Staged(v, scope) == Substitute(v, scope, false)
      {
        StagedIsFull(v, scope);
      }
    } else {
      var n: string :| ProperName(n) && Lookup(scope.constants, n).Some?
        && Blank(scope.render(Lookup(scope.constants, n).value));
      BlankConstantMisleads(n, m, scope);
    }
  }

  // ---------------------------------------------------------------- lets bound during a run

  /** A token as the engine matches it: its references replaced. */
  function Resolve(raw: string, scope: Scope): Option<string> {
    match SubstituteText(raw, scope, false)
    case Some(Text(t)) => Some(t)
    case _ => None
  }

  /** Nothing that was bound is bound anew. */
  ghost predicate Extends(more: map<string, Value>, lets: map<string, Value>) {
    forall k :: k in lets ==> k in more && more[k] == lets[k]
  }

  lemma {:induction false} FillExtends(ps: seq<Piece>, scope: Scope, more: map<string, Value>)
    requires Extends(more, scope.lets) && FillAll(ps, scope, false).Some?
    ensures FillAll(ps, scope.(lets := more), false) == FillAll(ps, scope, false)
  {
    hide Written, Walk;
    if |ps| > 0 {
      FillExtends(ps[1..], scope, more);
    }
  }

  /** What a token resolves to does not change as more lets are bound. */
  lemma ResolveExtends(raw: string, scope: Scope, more: map<string, Value>)
    requires Extends(more, scope.lets) && Resolve(raw, scope).Some?
    ensures Resolve(raw, scope.(lets := more)) == Resolve(raw, scope)
  {
    hide Scan, Whole, Walk, FillAll;
    if Whole(raw).None? {
      FillExtends(Scan(raw), scope, more);
    }
  }

  /** Text the pattern finds nothing in. */
  predicate NoReference(s: string) { forall p :: p in Scan(s) ==> p.Char? }

  lemma {:induction false} FillCharacters(ps: seq<Piece>, scope: Scope)
    requires forall p :: p in ps ==> p.Char?
    ensures FillAll(ps, scope, false) == Some(Unscan(ps))
  {
    if |ps| > 0 {
      assert ps[0] in ps && forall p :: p in ps[1..] ==> p in ps;
      FillCharacters(ps[1..], scope);
    }
  }

  /** Text without a reference resolves to itself. */
  lemma NoReferenceStays(s: string, scope: Scope)
    requires NoReference(s)
    ensures Resolve(s, scope) == Some(s)
  {
    hide Scan, Unscan, FillAll, Whole, Lookup;
    FillCharacters(Scan(s), scope);
    UnscanScan(s);
    if Whole(s).Some? {
      var lead, trail := WholeScans(s);
      WholeIsNoCharacter(s, lead, trail);
    }
  }

  lemma WholeIsNoCharacter(s: string, lead: string, trail: string)
    requires Whole(s).Some? && Scan(s) == Chars(lead) + [Whole(s).value] + Chars(trail)
    ensures !NoReference(s)
  {
    hide Scan, Whole;
    assert Scan(s)[|lead|] == Whole(s).value;
    assert Scan(s)[|lead|] in Scan(s);
  }

  /** Resolving a second time changes nothing when the first result holds no reference. */
  lemma ResolveTwice(raw: string, scope: Scope)
    requires Resolve(raw, scope).Some? && NoReference(Resolve(raw, scope).value)
    ensures Resolve(Resolve(raw, scope).value, scope) == Resolve(raw, scope)
  {
    hide SubstituteText;
    NoReferenceStays(Resolve(raw, scope).value, scope);
  }

  /** A reference, written out, resolves to the text it names. */
  lemma ResolveWritten(r: Piece, scope: Scope, t: string)
    requires r.Ref? && ProperName(r.name) && Read(r, scope) == Some(Text(t))
    ensures Resolve(Written(r), scope) == Some(t)
  {
    hide Scan, RefAt, Lookup, ProperName, FillAll;
    var s := Written(r);
    StripBlanks("", s);
    assert "" + s == s && s + "" == s;
    RefAtWritten(r, "");
  }
}
