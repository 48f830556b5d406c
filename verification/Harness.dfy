/** The power harness: guards, then wait, then spend the ledger, then switch. */
module Harness {
  import opened Events
  import opened Logs
  import opened Options

  /** A safety limit as declared: missing, a number, or unreadable as one. */
  datatype Limit = Undeclared | Number(x: real) | Malformed

  datatype Plug = Plug(entity: Id, role: string, ratingW: Option<real>,
                       maxCyclesPerWindow: Limit, minSecondsBetweenCycles: Limit, windowSeconds: Limit)

  datatype Profile = Profile(name: string, powerCycleHazard: string, resetCycles: Limit)

  datatype Block = Block(plugs: seq<Plug>, profiles: seq<Profile>)

  datatype Args = Args(plug: Id, window: string, at: int, offFor: int,
                       dut: Option<Id>, dutProfile: Option<string>, dryRun: bool)

  /** The cycle ledger: stamps under each window name, labels in first-use order. */
  datatype Window = Window(name: string, stamps: seq<real>)

  type Windows = seq<Window>

  ghost predicate LabelsDistinct(ws: Windows) {
    forall i, j :: 0 <= i < j < |ws| ==> ws[i].name != ws[j].name
  }

  function AllStamps(ws: Windows): seq<real> {
    if |ws| == 0 then [] else AllStamps(ws[..|ws| - 1]) + ws[|ws| - 1].stamps
  }

  function StampsUnder(ws: Windows, name: string): seq<real> {
    if |ws| == 0 then [] else if ws[|ws| - 1].name == name then ws[|ws| - 1].stamps else StampsUnder(ws[..|ws| - 1], name)
  }

  /** `windows.setdefault(name, []).append(stamp)`. */
  function Recorded(ws: Windows, name: string, stamp: real): Windows {
    if |ws| == 0 then [Window(name, [stamp])]
    else if ws[|ws| - 1].name == name then ws[|ws| - 1 := Window(name, ws[|ws| - 1].stamps + [stamp])]
    else Recorded(ws[..|ws| - 1], name, stamp) + [ws[|ws| - 1]]
  }

  lemma {:induction false} RecordedStamps(ws: Windows, name: string, stamp: real)
    ensures multiset(AllStamps(Recorded(ws, name, stamp))) == multiset(AllStamps(ws)) + multiset{stamp}
  {
    var r := Recorded(ws, name, stamp);
    if |ws| == 0 {
      assert r[..0] == [];
    } else {
      var front, last := ws[..|ws| - 1], ws[|ws| - 1];
      if last.name == name {
        assert r[..|r| - 1] == front;
        assert AllStamps(r) == AllStamps(front) + (last.stamps + [stamp]);
      } else {
        RecordedStamps(front, name, stamp);
        assert r[..|r| - 1] == Recorded(front, name, stamp);
      }
    }
  }

  lemma {:induction false} RecordedUnder(ws: Windows, name: string, stamp: real, other: string)
    ensures StampsUnder(Recorded(ws, name, stamp), other) == StampsUnder(ws, other) + if other == name then [stamp] else []
  {
    var r := Recorded(ws, name, stamp);
    if |ws| == 0 {
      assert r[..0] == [];
    } else {
      var front, last := ws[..|ws| - 1], ws[|ws| - 1];
      if last.name == name {
        assert r[..|r| - 1] == front;
      } else {
        RecordedUnder(front, name, stamp, other);
        assert r[..|r| - 1] == Recorded(front, name, stamp);
      }
    }
  }

  lemma {:induction false} RecordedMembers(ws: Windows, name: string, stamp: real)
    ensures forall w :: w in Recorded(ws, name, stamp) ==> w.name == name || w in ws
  {
    if |ws| > 0 {
      var front, last := ws[..|ws| - 1], ws[|ws| - 1];
      assert forall w :: w in ws <==> w in front || w == last;
      if last.name != name { RecordedMembers(front, name, stamp); }
    }
  }

  lemma {:induction false} RecordedLabels(ws: Windows, name: string, stamp: real)
    requires LabelsDistinct(ws)
    ensures LabelsDistinct(Recorded(ws, name, stamp))
  {
    if |ws| > 0 && ws[|ws| - 1].name != name {
      var front := ws[..|ws| - 1];
      RecordedLabels(front, name, stamp);
      RecordedMembers(front, name, stamp);
      var r := Recorded(front, name, stamp);
      forall i | 0 <= i < |r| ensures r[i].name != ws[|ws| - 1].name {
        assert r[i] in r;
        if r[i] in front { var j :| 0 <= j < |front| && front[j] == r[i]; }
      }
    }
  }

  /** The stamps no older than `span`; all of them when `span` is not positive. */
  function RecentOf(stamps: seq<real>, now: real, span: real): seq<real> {
    Select(stamps, s => span <= 0.0 || now - s <= span)
  }

  lemma RecentPush(a: seq<real>, s: real, now: real, span: real)
    ensures RecentOf(a + [s], now, span) == RecentOf(a, now, span) + if span <= 0.0 || now - s <= span then [s] else []
  {
    SelectPush(a, s, s => span <= 0.0 || now - s <= span);
  }

  function Appended(stamps: seq<real>, here: bool, stamp: real): seq<real> {
    if here then stamps + [stamp] else stamps
  }

  /** The on-disk ledger of one plug. */
  class Ledger {
    var windows: Windows

    constructor (ws: Windows)
      ensures windows == ws
    {
      windows := ws;
    }

    method RecordCycle(name: string, stamp: real)
      requires LabelsDistinct(windows)
      modifies this
      ensures multiset(AllStamps(windows)) == multiset(AllStamps(old(windows))) + multiset{stamp}
      ensures forall other :: StampsUnder(windows, other) == Appended(StampsUnder(old(windows), other), other == name, stamp)
      ensures windows == Recorded(old(windows), name, stamp) && LabelsDistinct(windows)
    {
      RecordedLabels(windows, name, stamp);
      RecordedStamps(windows, name, stamp);
      forall other
        ensures StampsUnder(Recorded(windows, name, stamp), other)
          == Appended(StampsUnder(windows, other), other == name, stamp)
      {
        RecordedUnder(windows, name, stamp, other);
      }
      windows := Recorded(windows, name, stamp);
    }

    /** The recent stamps under any label. */
    method RecentStamps(now: real, span: real) returns (out: seq<real>)
      ensures out == RecentOf(AllStamps(windows), now, span)
    {
      out := [];
      assert RecentOf([], now, span) == [];
      hide RecentOf;
      assert windows[..0] == [];
      for i := 0 to |windows|
        invariant out == RecentOf(AllStamps(windows[..i]), now, span)
      {
        var stamps := windows[i].stamps;
        assert windows[..i + 1][..i] == windows[..i];
        ghost var before := AllStamps(windows[..i]);
        assert before + stamps[..0] == before;
        for j := 0 to |stamps|
          invariant out == RecentOf(before + stamps[..j], now, span)
        {
          assert before + stamps[..j + 1] == before + stamps[..j] + [stamps[j]];
          RecentPush(before + stamps[..j], stamps[j], now, span);
          if span <= 0.0 || now - stamps[j] <= span { out := out + [stamps[j]]; }
        }
        assert stamps[..|stamps|] == stamps;
      }
      assert windows[..|windows|] == windows;
    }

    method LastCycleAnywhere() returns (newest: Option<real>)
      ensures IsNewest(newest, AllStamps(windows))
    {
      hide IsNewest;
      newest := None;
      NewestOfNone();
      for i := 0 to |windows|
        invariant IsNewest(newest, AllStamps(windows[..i]))
      {
        var stamps := windows[i].stamps;
        assert windows[..i + 1][..i] == windows[..i];
        ghost var before := AllStamps(windows[..i]);
        assert before + stamps[..0] == before;
        for j := 0 to |stamps|
          invariant IsNewest(newest, before + stamps[..j])
        {
          assert before + stamps[..j + 1] == before + stamps[..j] + [stamps[j]];
          NewestPush(newest, before + stamps[..j], stamps[j]);
          if newest.None? || stamps[j] > newest.value { newest := Some(stamps[j]); }
        }
        assert stamps[..|stamps|] == stamps;
      }
      assert windows[..|windows|] == windows;
    }
  }

  /** The latest of the stamps, if there is one. */
  predicate IsNewest(newest: Option<real>, stamps: seq<real>) {
    if newest.None? then stamps == []
    else newest.value in stamps && forall s :: s in stamps ==> s <= newest.value
  }

  lemma NewestOfNone()
    ensures IsNewest(None, AllStamps([]))
  {}

  lemma NewestPush(newest: Option<real>, stamps: seq<real>, s: real)
    requires IsNewest(newest, stamps)
    ensures IsNewest(if newest.None? || s > newest.value then Some(s) else newest, stamps + [s])
  {}

  // ---- the guards

  datatype GuardName =
    | PlugNotDeclared | RoleNotHarness | LoadRating | DutIsHarnessPlug | UnknownProfile | InvalidOffset
    | FactoryResetHazard | WindowSecondsUnbounded | WindowSecondsExceeded | MaxCyclesPerWindow | MinSecondsBetweenCycles

  datatype Guard = Guard(name: GuardName, ok: bool)

  /** The guard table, or the refusal of a limit that is not a number. */
  datatype Guards = Listed(table: seq<Guard>) | MalformedLimit

  predicate Clears(g: Guards) { g.Listed? && forall x :: x in g.table ==> x.ok }

  function FindPlug(plugs: seq<Plug>, entity: Id): Option<Plug> {
    if |plugs| == 0 then None else if plugs[0].entity == entity then Some(plugs[0]) else FindPlug(plugs[1..], entity)
  }

  function FindProfile(profiles: seq<Profile>, name: string): Option<Profile> {
    if |profiles| == 0 then None else if profiles[0].name == name then Some(profiles[0]) else FindProfile(profiles[1..], name)
  }

  /** An undeclared limit reads as zero. */
  function LimitValue(l: Limit): real { if l.Number? then l.x else 0.0 }

  function HazardOf(block: Block, args: Args): Option<Profile> {
    match args.dutProfile
    case None => None
    case Some(name) =>
      var p := FindProfile(block.profiles, name);
      if p.Some? && p.value.powerCycleHazard == "factory-reset" then p else None
  }

  /** The gates before any limit is read. */
  predicate Admitted(args: Args, block: Block) {
    var plug := FindPlug(block.plugs, args.plug);
    && plug.Some?
    && (args.dryRun || plug.value.role == "harness")
    && (args.dryRun || (plug.value.ratingW.Some? && plug.value.ratingW.value > 0.0))
    && args.dut != Some(args.plug)
    && (args.dutProfile.Some? ==> FindProfile(block.profiles, args.dutProfile.value).Some?)
    && args.at >= 0 && args.offFor >= 0
  }

  predicate LimitsReadable(plug: Plug, hazard: Option<Profile>) {
    && !plug.maxCyclesPerWindow.Malformed? && !plug.minSecondsBetweenCycles.Malformed? && !plug.windowSeconds.Malformed?
    && (hazard.Some? ==> !hazard.value.resetCycles.Malformed?)
  }

  /** One more cycle stays under the threshold, `resetCycles - 1`. */
  predicate HazardClears(resetCycles: real, recent: nat) {
    resetCycles - 1.0 <= 0.0 || (recent + 1) as real < resetCycles - 1.0
  }

  /** The tightest span a reset dance could take under the plug's own gap. */
  function Span(minGap: real, resetCycles: real): real { minGap * resetCycles }

  ghost predicate Spaced(minGap: real, ws: Windows, now: real) { forall s :: s in AllStamps(ws) ==> now - s >= minGap }

  /** The cycle limits, on the ledger as it stands at `now`. */
  ghost predicate WithinLimits(args: Args, plug: Plug, hazard: Option<Profile>, ws: Windows, now: real) {
    var minGap := LimitValue(plug.minSecondsBetweenCycles);
    && (hazard.Some? ==> 
          var resetCycles := LimitValue(hazard.value.resetCycles);
          HazardClears(resetCycles, |RecentOf(AllStamps(ws), now, Span(minGap, resetCycles))|))
    && (plug.windowSeconds.Number? ==> (args.at + args.offFor) as real <= plug.windowSeconds.x)
    && (|StampsUnder(ws, args.window)| + 1) as real <= LimitValue(plug.maxCyclesPerWindow)
    && Spaced(minGap, ws, now)
  }

  /** The act a live or dry cycle may perform. */
  ghost predicate Allowed(args: Args, block: Block, ws: Windows, now: real) {
    && Admitted(args, block)
    && var plug, hazard := FindPlug(block.plugs, args.plug).value, HazardOf(block, args);
    LimitsReadable(plug, hazard) && WithinLimits(args, plug, hazard, ws, now)
  }

  /** The table up to the offsets; `complete` when every gate was reached. */
  method EvaluateGates(args: Args, block: Block) returns (table: seq<Guard>, plug: Option<Plug>, hazard: Option<Profile>, complete: bool)
    ensures plug == FindPlug(block.plugs, args.plug)
    ensures complete ==> plug.Some? && hazard == HazardOf(block, args)
    ensures complete && (forall x :: x in table ==> x.ok) <==> Admitted(args, block)
    ensures !complete ==> exists x :: x in table && !x.ok
  {
    plug, hazard, complete := FindPlug(block.plugs, args.plug), None, false;
    table := [Guard(PlugNotDeclared, plug.Some?)];
    if plug.None? {
      assert table[0] in table;
      return;
    }
    var live := !args.dryRun;
    var rated := plug.value.ratingW.Some? && plug.value.ratingW.value > 0.0;
    table := table + [Guard(RoleNotHarness, plug.value.role == "harness" || !live),
                      Guard(LoadRating, rated || !live),
                      Guard(DutIsHarnessPlug, args.dut.None? || args.dut.value != args.plug)];
    assert table[1] in table && table[2] in table && table[3] in table;
    if args.dutProfile.Some? {
      var profile := FindProfile(block.profiles, args.dutProfile.value);
      table := table + [Guard(UnknownProfile, profile.Some?)];
      if profile.None? {
        assert table[4] in table;
        return;
      }
      if profile.value.powerCycleHazard == "factory-reset" { hazard := profile; }
    }
    var offsetsOk := args.at >= 0 && args.offFor >= 0;
    ghost var was := table;
    table := table + [Guard(InvalidOffset, offsetsOk)];
    assert table[|was|] in table;
    assert forall x :: x in was ==> x in table;
    if !offsetsOk { return; }
    complete := true;
  }

  /** The newest stamp is the one that matters for the gap. */
  lemma SpacedByLast(minGap: real, ws: Windows, now: real, last: Option<real>)
    requires IsNewest(last, AllStamps(ws))
    ensures Spaced(minGap, ws, now) <==> last.None? || now - last.value >= minGap
  {}

  /** The rest of the table, once every gate was reached. */
  method EvaluateLimits(args: Args, plug: Plug, hazard: Option<Profile>, ledger: Ledger, now: real) returns (guards: Guards)
    ensures guards.MalformedLimit? <==> !LimitsReadable(plug, hazard)
    ensures guards.Listed? ==> (Clears(guards) <==> WithinLimits(args, plug, hazard, ledger.windows, now))
  {
    hide AllStamps, StampsUnder, Spaced, IsNewest;
    if plug.maxCyclesPerWindow.Malformed? || plug.minSecondsBetweenCycles.Malformed? { return MalformedLimit; }
    var cap, minGap := LimitValue(plug.maxCyclesPerWindow), LimitValue(plug.minSecondsBetweenCycles);
    var hazardous: seq<Guard> := [];
    if hazard.Some? {
      if hazard.value.resetCycles.Malformed? { return MalformedLimit; }
      var resetCycles := LimitValue(hazard.value.resetCycles);
      var threshold := resetCycles - 1.0;
      var recent := ledger.RecentStamps(now, Span(minGap, resetCycles));
      hide Span, RecentOf;
      var clears := threshold <= 0.0 || (|recent| + 1) as real < threshold;
      assert clears <==> HazardClears(resetCycles, |recent|);
      hazardous := [Guard(FactoryResetHazard, clears)];
    }
    if plug.windowSeconds.Malformed? { return MalformedLimit; }
    var bounded := if plug.windowSeconds.Undeclared? then Guard(WindowSecondsUnbounded, true)
                   else Guard(WindowSecondsExceeded, (args.at + args.offFor) as real <= plug.windowSeconds.x);
    var capped := Guard(MaxCyclesPerWindow, (|StampsUnder(ledger.windows, args.window)| + 1) as real <= cap);
    var last := ledger.LastCycleAnywhere();
    var spaced := Guard(MinSecondsBetweenCycles, last.None? || now - last.value >= minGap);
    SpacedByLast(minGap, ledger.windows, now, last);
    hide HazardClears;
    guards := Listed(hazardous + [bounded, capped, spaced]);
    assert forall x :: x in guards.table <==> x in hazardous || x == bounded || x == capped || x == spaced;
  }

  /** The whole table, in safety order. It clears exactly the acts that are allowed. */
  method EvaluateGuards(args: Args, block: Block, ledger: Ledger, now: real) returns (guards: Guards)
    ensures Clears(guards) <==> Allowed(args, block, ledger.windows, now)
    ensures guards.MalformedLimit? ==>
      var plug := FindPlug(block.plugs, args.plug); plug.Some? && !LimitsReadable(plug.value, HazardOf(block, args))
  {
    hide Admitted, LimitsReadable, WithinLimits, HazardOf;
    var table, plug, hazard, complete := EvaluateGates(args, block);
    if !complete { return Listed(table); }
    guards := EvaluateLimits(args, plug.value, hazard, ledger, now);
    if guards.Listed? {
      var rest := guards.table;
      guards := Listed(table + rest);
      assert forall x :: x in guards.table <==> x in table || x in rest;
    }
  }

  // ---- what is allowed, in words

  predicate FirstPlug(plugs: seq<Plug>, entity: Id, plug: Plug) {
    exists i :: 0 <= i < |plugs| && plugs[i] == plug && plug.entity == entity && forall j :: 0 <= j < i ==> plugs[j].entity != entity
  }

  predicate FirstProfile(profiles: seq<Profile>, name: string, profile: Profile) {
    exists i :: 0 <= i < |profiles| && profiles[i] == profile && profile.name == name
      && forall j :: 0 <= j < i ==> profiles[j].name != name
  }

  lemma {:induction false} FindPlugIs(plugs: seq<Plug>, entity: Id, plug: Plug)
    ensures FindPlug(plugs, entity) == Some(plug) <==> FirstPlug(plugs, entity, plug)
  {
    if |plugs| > 0 {
      FindPlugIs(plugs[1..], entity, plug);
      var rest := plugs[1..];
      assert forall i :: 0 <= i < |rest| ==> rest[i] == plugs[i + 1];
      if i :| 0 <= i < |rest| && rest[i] == plug && plug.entity == entity && forall j :: 0 <= j < i ==> rest[j].entity != entity {
        assert plugs[i + 1] == plug && forall j :: 1 <= j < i + 1 ==> plugs[j] == rest[j - 1];
      }
      if i :| 0 <= i < |plugs| && plugs[i] == plug && plug.entity == entity && forall j :: 0 <= j < i ==> plugs[j].entity != entity {
        if i > 0 { assert rest[i - 1] == plug; }
      }
    }
  }

  lemma {:induction false} FindProfileIs(profiles: seq<Profile>, name: string, profile: Profile)
    ensures FindProfile(profiles, name) == Some(profile) <==> FirstProfile(profiles, name, profile)
  {
    if |profiles| > 0 {
      FindProfileIs(profiles[1..], name, profile);
      var rest := profiles[1..];
      assert forall i :: 0 <= i < |rest| ==> rest[i] == profiles[i + 1];
      if i :| 0 <= i < |rest| && rest[i] == profile && profile.name == name && forall j :: 0 <= j < i ==> rest[j].name != name {
        assert profiles[i + 1] == profile && forall j :: 1 <= j < i + 1 ==> profiles[j] == rest[j - 1];
      }
      if i :| 0 <= i < |profiles| && profiles[i] == profile && profile.name == name && forall j :: 0 <= j < i ==> profiles[j].name != name {
        if i > 0 { assert rest[i - 1] == profile; }
      }
    }
  }

  /** A readable limit; an undeclared one is zero. */
  predicate Sets(l: Limit, x: real) { l == Number(x) || (l.Undeclared? && x == 0.0) }

  /** A live cycle needs a harness plug with a rated load; no cycle switches the device under test's own plug. */
  predicate PlugFits(args: Args, plug: Plug) {
    && (args.dryRun || (plug.role == "harness" && plug.ratingW.Some? && plug.ratingW.value > 0.0))
    && args.dut != Some(args.plug)
  }

  /** The offsets are no less than zero and, where the plug bounds its window, end inside it. */
  predicate OffsetsFit(args: Args, plug: Plug) {
    && args.at >= 0 && args.offFor >= 0 && !plug.windowSeconds.Malformed?
    && (plug.windowSeconds.Number? ==> (args.at + args.offFor) as real <= plug.windowSeconds.x)
  }

  /** One more cycle under this label is within the cap, and none was within the gap under any. */
  ghost predicate LedgerFits(args: Args, plug: Plug, ws: Windows, now: real) {
    exists cap, gap :: Sets(plug.maxCyclesPerWindow, cap) && Sets(plug.minSecondsBetweenCycles, gap)
      && (|StampsUnder(ws, args.window)| + 1) as real <= cap
      && forall s :: s in AllStamps(ws) ==> now - s >= gap
  }

  /** How many stamps, under any label, are no older than `n` gaps. */
  function Recent(ws: Windows, now: real, gap: real, n: real): nat {
    |Select(AllStamps(ws), s => gap * n <= 0.0 || now - s <= gap * n)|
  }

  /** A named profile exists, and one that a reset dance would wipe is kept under its count less one. */
  ghost predicate ProfileFits(args: Args, block: Block, plug: Plug, ws: Windows, now: real) {
    args.dutProfile.Some? ==>
      exists profile :: FirstProfile(block.profiles, args.dutProfile.value, profile)
        && (profile.powerCycleHazard == "factory-reset" ==>
              exists n, gap :: Sets(profile.resetCycles, n) && Sets(plug.minSecondsBetweenCycles, gap)
                && (n - 1.0 <= 0.0 || (Recent(ws, now, gap, n) + 1) as real < n - 1.0))
  }

  lemma RecentIs(ws: Windows, now: real, gap: real, n: real)
    ensures |RecentOf(AllStamps(ws), now, Span(gap, n))| == Recent(ws, now, gap, n)
  {
    hide AllStamps;
    SelectSame(AllStamps(ws), s => Span(gap, n) <= 0.0 || now - s <= Span(gap, n), s => gap * n <= 0.0 || now - s <= gap * n);
  }

  lemma LedgerFitsIs(args: Args, plug: Plug, ws: Windows, now: real)
    ensures LedgerFits(args, plug, ws, now) <==>
      && !plug.maxCyclesPerWindow.Malformed? && !plug.minSecondsBetweenCycles.Malformed?
      && (|StampsUnder(ws, args.window)| + 1) as real <= LimitValue(plug.maxCyclesPerWindow)
      && Spaced(LimitValue(plug.minSecondsBetweenCycles), ws, now)
  {
    hide StampsUnder, AllStamps;
    if !plug.maxCyclesPerWindow.Malformed? && !plug.minSecondsBetweenCycles.Malformed? {
      assert Sets(plug.maxCyclesPerWindow, LimitValue(plug.maxCyclesPerWindow));
      assert Sets(plug.minSecondsBetweenCycles, LimitValue(plug.minSecondsBetweenCycles));
    }
  }

  lemma ProfileFitsIs(args: Args, block: Block, plug: Plug, ws: Windows, now: real)
    requires !plug.minSecondsBetweenCycles.Malformed?
    ensures ProfileFits(args, block, plug, ws, now) <==>
      && (args.dutProfile.Some? ==> FindProfile(block.profiles, args.dutProfile.value).Some?)
      && (HazardOf(block, args).Some? ==>
            var hazard, gap := HazardOf(block, args).value, LimitValue(plug.minSecondsBetweenCycles);
            && !hazard.resetCycles.Malformed?
            && var n := LimitValue(hazard.resetCycles);
               HazardClears(n, |RecentOf(AllStamps(ws), now, Span(gap, n))|))
  {
    forall gap, n { RecentIs(ws, now, gap, n); }
    hide AllStamps, RecentOf, Span, FirstProfile, FindProfile, Recent;
    if args.dutProfile.Some? {
      forall profile
        ensures FindProfile(block.profiles, args.dutProfile.value) == Some(profile)
          <==> FirstProfile(block.profiles, args.dutProfile.value, profile)
      {
        FindProfileIs(block.profiles, args.dutProfile.value, profile);
      }
      if FindProfile(block.profiles, args.dutProfile.value).Some? {
        var profile := FindProfile(block.profiles, args.dutProfile.value).value;
        assert FirstProfile(block.profiles, args.dutProfile.value, profile);
        if !profile.resetCycles.Malformed? { assert Sets(profile.resetCycles, LimitValue(profile.resetCycles)); }
        assert Sets(plug.minSecondsBetweenCycles, LimitValue(plug.minSecondsBetweenCycles));
      }
    }
  }

  /** An act is allowed exactly when its plug is declared and, by the first declaration of it, fits, its
      offsets fit, its profile's reset dance is kept out of reach and the ledger has room. */
  lemma {:induction false} AllowedMeans(args: Args, block: Block, ws: Windows, now: real)
    ensures Allowed(args, block, ws, now) <==>
      exists plug :: FirstPlug(block.plugs, args.plug, plug)
        && PlugFits(args, plug) && OffsetsFit(args, plug) && LedgerFits(args, plug, ws, now) && ProfileFits(args, block, plug, ws, now)
  {
    hide FirstPlug, FindPlug, AllStamps, StampsUnder, RecentOf, Span, LedgerFits, ProfileFits, HazardOf, FindProfile;
    forall plug ensures FindPlug(block.plugs, args.plug) == Some(plug) <==> FirstPlug(block.plugs, args.plug, plug) {
      FindPlugIs(block.plugs, args.plug, plug);
    }
    if FindPlug(block.plugs, args.plug).Some? {
      var plug := FindPlug(block.plugs, args.plug).value;
      assert FirstPlug(block.plugs, args.plug, plug);
      LedgerFitsIs(args, plug, ws, now);
      if !plug.minSecondsBetweenCycles.Malformed? { ProfileFitsIs(args, block, plug, ws, now); }
    }
  }
}
