/** Serial live cycles on one plug under one factory-reset profile. */
module Cycles {
  import opened Harness
  import opened Logs
  import opened Options

  /** The plug, the profile and the numbers the guards read from them. */
  datatype Setup = Setup(block: Block, plug: Plug, profile: Profile, minGap: real, resetCycles: real, cap: real)
  {
    ghost predicate Ok() {
      && FindPlug(block.plugs, plug.entity) == Some(plug)
      && FindProfile(block.profiles, profile.name) == Some(profile)
      && profile.powerCycleHazard == "factory-reset"
      && profile.resetCycles == Number(resetCycles) && resetCycles >= 2.0
      && plug.minSecondsBetweenCycles == Number(minGap) && minGap > 0.0
      && plug.maxCyclesPerWindow == Number(cap)
    }

    predicate Covers(args: Args) { args.plug == plug.entity && args.dutProfile == Some(profile.name) }

    /** The length of the interval a reset dance would need. */
    function DanceSpan(): real { Span(minGap, resetCycles) }
  }

  /** Stamps in the closed interval of length `span` from `a`. */
  function CountFrom(stamps: seq<real>, a: real, span: real): nat { |Select(stamps, s => a <= s <= a + span)| }

  /** Stamps in the half-open interval of length `gap` up to `x`. */
  function CountUpTo(stamps: seq<real>, x: real, gap: real): nat { |Select(stamps, s => x - gap < s <= x)| }

  /** No closed interval of the dance's length holds `resetCycles - 1` stamps. */
  ghost predicate Sparse(stamps: seq<real>, span: real, resetCycles: real) {
    forall a: real :: CountFrom(stamps, a, span) as real < resetCycles - 1.0
  }

  /** No half-open interval of length `gap` holds two stamps. */
  ghost predicate Spread(stamps: seq<real>, gap: real) {
    forall x: real :: CountUpTo(stamps, x, gap) <= 1
  }

  /** No label holds more stamps than its cap. */
  ghost predicate Capped(ws: Windows, cap: real) {
    forall name :: StampsUnder(ws, name) == [] || |StampsUnder(ws, name)| as real <= cap
  }

  ghost predicate NotAfter(stamps: seq<real>, clock: real) { forall s :: s in stamps ==> s <= clock }

  ghost predicate Lawful(setup: Setup, ws: Windows, clock: real) {
    && LabelsDistinct(ws)
    && Sparse(AllStamps(ws), setup.DanceSpan(), setup.resetCycles)
    && Spread(AllStamps(ws), setup.minGap)
    && Capped(ws, setup.cap)
    && NotAfter(AllStamps(ws), clock)
  }

  lemma {:induction false} RecordedCount(ws: Windows, name: string, stamp: real, p: real -> bool)
    ensures |Select(AllStamps(Recorded(ws, name, stamp)), p)| == |Select(AllStamps(ws), p)| + if p(stamp) then 1 else 0
  {
    var r := Recorded(ws, name, stamp);
    if |ws| == 0 {
      assert r[..0] == [];
      SelectPush([], stamp, p);
      assert AllStamps(r) == [] + [stamp];
    } else {
      var front, last := ws[..|ws| - 1], ws[|ws| - 1];
      SelectAppend(AllStamps(front), last.stamps, p);
      if last.name == name {
        assert r[..|r| - 1] == front;
        SelectPush(last.stamps, stamp, p);
        SelectAppend(AllStamps(front), last.stamps + [stamp], p);
      } else {
        RecordedCount(front, name, stamp, p);
        assert r[..|r| - 1] == Recorded(front, name, stamp);
        SelectAppend(AllStamps(Recorded(front, name, stamp)), last.stamps, p);
      }
    }
  }

  lemma {:induction false} CountSubset(stamps: seq<real>, p: real -> bool, q: real -> bool)
    requires forall s :: s in stamps && p(s) ==> q(s)
    ensures |Select(stamps, p)| <= |Select(stamps, q)|
  {
    if |stamps| > 0 {
      var x, rest := stamps[0], stamps[1..];
      assert x in stamps;
      assert p(x) ==> q(x);
      assert forall s :: s in rest ==> s in stamps;
      CountSubset(rest, p, q);
      assert |Select(stamps, p)| == (if p(x) then 1 else 0) + |Select(rest, p)|;
      assert |Select(stamps, q)| == (if q(x) then 1 else 0) + |Select(rest, q)|;
    }
  }

  /** A stamp the hazard guard let through keeps every interval sparse. */
  lemma StaysSparse(ws: Windows, name: string, now: real, stamp: real, span: real, resetCycles: real)
    requires span > 0.0 && resetCycles >= 2.0 && now <= stamp
    requires Sparse(AllStamps(ws), span, resetCycles) && NotAfter(AllStamps(ws), now)
    requires HazardClears(resetCycles, |RecentOf(AllStamps(ws), now, span)|)
    ensures Sparse(AllStamps(Recorded(ws, name, stamp)), span, resetCycles)
  {
    hide AllStamps, Recorded, Select;
    forall a: real ensures CountFrom(AllStamps(Recorded(ws, name, stamp)), a, span) as real < resetCycles - 1.0 {
      RecordedCount(ws, name, stamp, s => a <= s <= a + span);
      assert CountFrom(AllStamps(ws), a, span) as real < resetCycles - 1.0;
      if a <= stamp <= a + span {
        CountSubset(AllStamps(ws), s => a <= s <= a + span, s => span <= 0.0 || now - s <= span);
      }
    }
  }

  lemma StaysSpread(ws: Windows, name: string, now: real, stamp: real, gap: real)
    requires gap > 0.0 && now <= stamp
    requires Spread(AllStamps(ws), gap) && Spaced(gap, ws, now)
    ensures Spread(AllStamps(Recorded(ws, name, stamp)), gap)
  {
    hide AllStamps, Recorded, Select;
    forall x: real ensures CountUpTo(AllStamps(Recorded(ws, name, stamp)), x, gap) <= 1 {
      RecordedCount(ws, name, stamp, s => x - gap < s <= x);
      assert CountUpTo(AllStamps(ws), x, gap) <= 1;
      if x - gap < stamp <= x { SelectEmpty(AllStamps(ws), s => x - gap < s <= x); }
    }
  }

  lemma StaysCapped(ws: Windows, name: string, stamp: real, cap: real)
    requires Capped(ws, cap) && (|StampsUnder(ws, name)| + 1) as real <= cap
    ensures Capped(Recorded(ws, name, stamp), cap)
  {
    hide StampsUnder, Recorded;
    forall other ensures StampsUnder(Recorded(ws, name, stamp), other) == [] || |StampsUnder(Recorded(ws, name, stamp), other)| as real <= cap {
      RecordedUnder(ws, name, stamp, other);
      assert StampsUnder(ws, other) == [] || |StampsUnder(ws, other)| as real <= cap;
    }
  }

  lemma StaysNotAfter(ws: Windows, name: string, now: real, stamp: real)
    requires NotAfter(AllStamps(ws), now) && now <= stamp
    ensures NotAfter(AllStamps(Recorded(ws, name, stamp)), stamp)
  {
    hide AllStamps, Recorded;
    RecordedStamps(ws, name, stamp);
    var after := AllStamps(Recorded(ws, name, stamp));
    forall s | s in after ensures s <= stamp {
      assert s in multiset(after);
      assert s == stamp || s in multiset(AllStamps(ws));
      assert s == stamp || s in AllStamps(ws);
    }
  }

  /** Spread stamps are pairwise at least the gap apart. */
  lemma SpreadMeansApart(stamps: seq<real>, gap: real, i: nat, j: nat)
    requires gap > 0.0 && Spread(stamps, gap) && i < j < |stamps|
    ensures stamps[i] - stamps[j] >= gap || stamps[j] - stamps[i] >= gap
  {
    hide Select;
    var x := if stamps[i] <= stamps[j] then stamps[j] else stamps[i];
    var p := (s: real) => x - gap < s <= x;
    assert CountUpTo(stamps, x, gap) <= 1;
    if p(stamps[i]) && p(stamps[j]) {
      TwoSelected(stamps, i, j, p);
    }
  }

  lemma TwoSelected(stamps: seq<real>, i: nat, j: nat, p: real -> bool)
    requires i < j < |stamps| && p(stamps[i]) && p(stamps[j])
    ensures |Select(stamps, p)| >= 2
  {
    hide Select;
    var front, back := stamps[..j], stamps[j..];
    assert stamps == front + back;
    SelectAppend(front, back, p);
    assert front[i] in front && back[0] in back;
    SelectEmpty(front, p);
    SelectEmpty(back, p);
  }

  /** Every lawful ledger stays lawful when an allowed act spends it. */
  lemma {:induction false} SpendStaysLawful(setup: Setup, ws: Windows, clock: real, args: Args, now: real, stamp: real)
    requires setup.Ok() && setup.Covers(args) && Lawful(setup, ws, clock) && clock <= now <= stamp
    requires Allowed(args, setup.block, ws, now)
    ensures Lawful(setup, Recorded(ws, args.window, stamp), stamp)
  {
    hide Sparse, Spread, HazardClears, Recorded, AllStamps, StampsUnder, RecentOf, Spaced, Capped, Span,
      LabelsDistinct;
    AllowedLimits(setup, ws, args, now);
    hide Allowed;
    assert NotAfter(AllStamps(ws), now);
    hide NotAfter;
    RecordedLabels(ws, args.window, stamp);
    SpanPositive(setup.minGap, setup.resetCycles);
    StaysSparse(ws, args.window, now, stamp, setup.DanceSpan(), setup.resetCycles);
    StaysSpread(ws, args.window, now, stamp, setup.minGap);
    StaysCapped(ws, args.window, stamp, setup.cap);
    StaysNotAfter(ws, args.window, now, stamp);
  }

  lemma SpanPositive(g: real, r: real)
    requires g > 0.0 && r >= 2.0
    ensures Span(g, r) > 0.0
  {}

  lemma AllowedLimits(setup: Setup, ws: Windows, args: Args, now: real)
    requires setup.Ok() && setup.Covers(args) && Allowed(args, setup.block, ws, now)
    ensures HazardClears(setup.resetCycles, |RecentOf(AllStamps(ws), now, setup.DanceSpan())|)
    ensures Spaced(setup.minGap, ws, now)
    ensures (|StampsUnder(ws, args.window)| + 1) as real <= setup.cap
  {
    hide RecentOf, AllStamps, StampsUnder, HazardClears, Spaced, Span;
  }

  /** What the world does to one act: when it is planned, whether the token reads,
      when the sleep ends, whether the two commands are accepted. */
  datatype World = World(plannedAt: real, tokenReadable: bool, wakesAt: real, offAccepted: bool, onAccepted: bool)

  datatype Status = Refused | Planned | Aborted | Done

  /** One act and what the world does to it. */
  datatype Act = Act(args: Args, world: World)

  /** The state after one elementary step of an act. */
  datatype Moment = Moment(windows: Windows, clock: real, offs: nat)

  // ---- what an act does, step by step

  /** The act gets as far as the ledger: allowed, live, and with a token to switch by. */
  ghost predicate Spends(setup: Setup, ws: Windows, a: Act) {
    Allowed(a.args, setup.block, ws, a.world.plannedAt) && !a.args.dryRun && a.world.tokenReadable
  }

  ghost function Ledgered(setup: Setup, ws: Windows, a: Act): Windows {
    if Spends(setup, ws, a) then Recorded(ws, a.args.window, a.world.wakesAt) else ws
  }

  ghost function OffsAfter(setup: Setup, ws: Windows, offs: nat, a: Act): nat {
    if Spends(setup, ws, a) then offs + 1 else offs
  }

  /** Planned, and for an act that goes through: spent, then switched. */
  ghost function Moments(setup: Setup, ws: Windows, offs: nat, a: Act): seq<Moment> {
    [Moment(ws, a.world.plannedAt, offs)]
    + if Spends(setup, ws, a) then
        [Moment(Ledgered(setup, ws, a), a.world.wakesAt, offs), Moment(Ledgered(setup, ws, a), a.world.wakesAt, offs + 1)]
      else []
  }

  /** Every moment of a run of acts. */
  ghost function Trace(setup: Setup, ws: Windows, offs: nat, acts: seq<Act>): seq<Moment>
    decreases |acts|
  {
    if |acts| == 0 then []
    else
      Moments(setup, ws, offs, acts[0])
      + Trace(setup, Ledgered(setup, ws, acts[0]), OffsAfter(setup, ws, offs, acts[0]), acts[1..])
  }

  /** An act that is not allowed, is dry, or has no token to switch by leaves ledger and switch alone;
      any other adds its waking time under its label and one `off`. */
  lemma {:induction false} ActEffect(setup: Setup, ws: Windows, offs: nat, a: Act)
    ensures var goes := Allowed(a.args, setup.block, ws, a.world.plannedAt) && !a.args.dryRun && a.world.tokenReadable;
      && (!goes ==>
            && Moments(setup, ws, offs, a) == [Moment(ws, a.world.plannedAt, offs)]
            && Ledgered(setup, ws, a) == ws && OffsAfter(setup, ws, offs, a) == offs)
      && (goes ==>
            && |Moments(setup, ws, offs, a)| == 3 && OffsAfter(setup, ws, offs, a) == offs + 1
            && (forall name :: StampsUnder(Ledgered(setup, ws, a), name)
                  == StampsUnder(ws, name) + if name == a.args.window then [a.world.wakesAt] else [])
            && Moments(setup, ws, offs, a)[1] == Moment(Ledgered(setup, ws, a), a.world.wakesAt, offs)
            && Moments(setup, ws, offs, a)[2] == Moment(Ledgered(setup, ws, a), a.world.wakesAt, offs + 1))
  {
    forall name { RecordedUnder(ws, a.args.window, a.world.wakesAt, name); }
    hide Allowed, StampsUnder, Recorded;
  }

  /** The ledger is lawful and holds a stamp of this run for every `off` of this run;
      `paid` stamps were there before it. */
  ghost predicate Good(setup: Setup, paid: nat, m: Moment) {
    Lawful(setup, m.windows, m.clock) && m.offs + paid <= |AllStamps(m.windows)|
  }

  function Later(a: Act): real {
    if a.world.plannedAt <= a.world.wakesAt then a.world.wakesAt else a.world.plannedAt
  }

  predicate InTime(a: Act, clock: real) {
    clock <= a.world.plannedAt && a.world.plannedAt + a.args.at as real <= a.world.wakesAt
  }

  /** Every moment of one act is good, the one after the switch included. */
  lemma MomentsGood(setup: Setup, ws: Windows, clock: real, offs: nat, paid: nat, a: Act)
    requires setup.Ok() && setup.Covers(a.args) && InTime(a, clock) && Good(setup, paid, Moment(ws, clock, offs))
    ensures forall m :: m in Moments(setup, ws, offs, a) ==> Good(setup, paid, m)
    ensures Good(setup, paid, Moment(Ledgered(setup, ws, a), Later(a), OffsAfter(setup, ws, offs, a)))
    ensures Spends(setup, ws, a) ==> a.world.plannedAt <= a.world.wakesAt
    ensures Spends(setup, ws, a) ==> offs + paid < |AllStamps(Ledgered(setup, ws, a))|
  {
    hide Lawful, Recorded, AllStamps, Allowed;
    LaterStaysLawful(setup, ws, clock, a.world.plannedAt);
    LaterStaysLawful(setup, ws, clock, Later(a));
    if Spends(setup, ws, a) {
      AllowedWaits(setup, a.args, ws, a.world.plannedAt);
      SpendStaysLawful(setup, ws, a.world.plannedAt, a.args, a.world.plannedAt, a.world.wakesAt);
      RecordedLength(ws, a.args.window, a.world.wakesAt);
    }
  }

  class Station {
    const setup: Setup
    const ledger: Ledger
    ghost const paid: nat   // stamps the ledger held before this run
    var clock: real
    var networkCalls: nat
    var offs: nat           // cycle `turn_off` commands sent
    var ons: nat
    ghost var history: seq<Moment>

    constructor (setup: Setup, ledger: Ledger, clock: real)
      requires setup.Ok() && Lawful(setup, ledger.windows, clock)
      ensures this.setup == setup && this.ledger == ledger && paid == |AllStamps(ledger.windows)| && Safe()
      ensures this.clock == clock && offs == 0 && history == []
    {
      this.setup, this.ledger, this.clock := setup, ledger, clock;
      paid := |AllStamps(ledger.windows)|;
      networkCalls, offs, ons := 0, 0, 0;
      history := [];
    }

    /** Good now and at every moment so far. */
    ghost predicate Safe()
      reads `clock, `offs, `history, ledger
    {
      && setup.Ok()
      && Good(setup, paid, Moment(ledger.windows, clock, offs))
      && forall m :: m in history ==> Good(setup, paid, m)
    }

    /** Guards, then wait, then spend, then switch. */
    method Cycle(args: Args, world: World) returns (status: Status)
      requires Safe() && setup.Covers(args) && InTime(Act(args, world), clock)
      modifies this, ledger
      ensures Safe() && old(clock) <= clock <= Later(Act(args, world))
      ensures history == old(history) + Moments(setup, old(ledger.windows), old(offs), Act(args, world))
      ensures ledger.windows == Ledgered(setup, old(ledger.windows), Act(args, world))
      ensures offs == OffsAfter(setup, old(ledger.windows), old(offs), Act(args, world))
      ensures status == Refused <==> !Allowed(args, setup.block, old(ledger.windows), world.plannedAt)
      ensures var spent := Spends(setup, old(ledger.windows), Act(args, world));
        && ons == old(ons) + (if spent && world.offAccepted then 1 else 0)
        && networkCalls == old(networkCalls) + (offs - old(offs)) + (ons - old(ons))
        && (status == Done <==> spent && world.offAccepted && world.onAccepted)
    {
      hide Lawful, Recorded, AllStamps, Allowed;
      ghost var ws := ledger.windows;
      MomentsGood(setup, ws, clock, offs, paid, Act(args, world));
      LawfulLabels(setup, ws, clock);
      clock := world.plannedAt;
      Note();
      var guards := EvaluateGuards(args, setup.block, ledger, clock);
      if !Clears(guards) { return Refused; }
      if args.dryRun { return Planned; }
      if !world.tokenReadable { return Aborted; }
      clock := world.wakesAt;
      ledger.RecordCycle(args.window, clock);
      Note();
      SwitchOff();
      if !world.offAccepted { return Aborted; }
      networkCalls, ons := networkCalls + 1, ons + 1;
      if !world.onAccepted { return Aborted; }
      return Done;
    }

    /** The `turn_off`: sent only when the ledger holds a stamp that no earlier one used. */
    method SwitchOff()
      requires Safe() && offs + paid < |AllStamps(ledger.windows)|
      modifies `networkCalls, `offs, `history
      ensures Safe() && networkCalls == old(networkCalls) + 1 && offs == old(offs) + 1
      ensures history == old(history) + [Moment(ledger.windows, clock, offs)]
    {
      hide Lawful, AllStamps;
      networkCalls, offs := networkCalls + 1, offs + 1;
      Note();
    }

    /** Keep the moment in the history. */
    ghost method Note()
      requires Safe()
      modifies `history
      ensures Safe() && history == old(history) + [Moment(ledger.windows, clock, offs)]
    {
      history := history + [Moment(ledger.windows, clock, offs)];
    }
  }

  lemma LawfulLabels(setup: Setup, ws: Windows, clock: real)
    requires Lawful(setup, ws, clock)
    ensures LabelsDistinct(ws)
  {}

  lemma LaterStaysLawful(setup: Setup, ws: Windows, clock: real, later: real)
    requires Lawful(setup, ws, clock) && clock <= later
    ensures Lawful(setup, ws, later)
  {}

  lemma AllowedWaits(setup: Setup, args: Args, ws: Windows, now: real)
    requires Allowed(args, setup.block, ws, now)
    ensures args.at >= 0
  {}

  lemma RecordedLength(ws: Windows, name: string, stamp: real)
    ensures |AllStamps(Recorded(ws, name, stamp))| == |AllStamps(ws)| + 1
  {
    RecordedStamps(ws, name, stamp);
    assert |multiset(AllStamps(Recorded(ws, name, stamp)))| == |multiset(AllStamps(ws))| + 1;
  }

  /** Acts follow one another: each is planned after the last one's clock. */
  ghost predicate Serial(acts: seq<Act>, clock: real)
    decreases |acts|
  {
    |acts| == 0 || (InTime(acts[0], clock) && Serial(acts[1..], Later(acts[0])))
  }

  lemma SerialEarlier(acts: seq<Act>, clock: real, earlier: real)
    requires Serial(acts, clock) && earlier <= clock
    ensures Serial(acts, earlier)
  {}

  /** Safety over every run: whatever acts are tried, in whatever order, under whatever
      labels, and wherever they abort, every moment is lawful, and the `off`s sent so far
      never outnumber the stamps this run has added. */
  lemma {:induction false} TraceIsSafe(setup: Setup, ws: Windows, clock: real, offs: nat, paid: nat, acts: seq<Act>)
    requires setup.Ok() && Serial(acts, clock) && (forall a :: a in acts ==> setup.Covers(a.args))
    requires Good(setup, paid, Moment(ws, clock, offs))
    ensures forall m :: m in Trace(setup, ws, offs, acts) ==> Good(setup, paid, m)
    decreases |acts|
  {
    hide Good, Moments, Ledgered, OffsAfter, Spends;
    if |acts| > 0 {
      MomentsGood(setup, ws, clock, offs, paid, acts[0]);
      TraceIsSafe(setup, Ledgered(setup, ws, acts[0]), Later(acts[0]), OffsAfter(setup, ws, offs, acts[0]), paid, acts[1..]);
    }
  }

  /** The station's history is exactly the trace of its acts. */
  method RunActs(station: Station, acts: seq<Act>) returns (statuses: seq<Status>)
    requires station.Safe() && Serial(acts, station.clock)
    requires forall a :: a in acts ==> station.setup.Covers(a.args)
    modifies station, station.ledger
    ensures station.Safe() && |statuses| == |acts|
    ensures station.history ==
      old(station.history) + Trace(station.setup, old(station.ledger.windows), old(station.offs), acts)
  {
    hide Good, Moments, Ledgered, OffsAfter, Spends, Setup.Covers, InTime;
    statuses := [];
    ghost var setup, ws, offs := station.setup, station.ledger.windows, station.offs;
    assert acts[0..] == acts && station.history + Trace(setup, ws, offs, acts) == old(station.history) + Trace(setup, ws, offs, acts);
    for i := 0 to |acts|
      invariant station.Safe() && |statuses| == i
      invariant Serial(acts[i..], station.clock)
      invariant station.history + Trace(setup, station.ledger.windows, station.offs, acts[i..])
        == old(station.history) + Trace(setup, ws, offs, acts)
    {
      var a := acts[i];
      assert acts[i..][0] == a && acts[i..][1..] == acts[i + 1..];
      var status := station.Cycle(a.args, a.world);
      SerialEarlier(acts[i + 1..], Later(a), station.clock);
      statuses := statuses + [status];
    }
    assert acts[|acts|..] == [];
  }

  lemma RealOrder(m: nat, r: nat)
    requires m as real < r as real
    ensures m < r
  {}

  /** A lawful ledger has no reset dance: with a whole-number `resetCycles`, any
      closed interval of length min-gap * resetCycles holds at most resetCycles - 2
      stamps, and stamps are at least min-gap apart. */
  lemma LawfulHasNoDance(setup: Setup, ws: Windows, clock: real, r: nat, a: real)
    requires setup.Ok() && Lawful(setup, ws, clock) && setup.resetCycles == r as real
    ensures CountFrom(AllStamps(ws), a, setup.DanceSpan()) <= r - 2
    ensures forall i, j :: 0 <= i < j < |AllStamps(ws)| ==>
      AllStamps(ws)[i] - AllStamps(ws)[j] >= setup.minGap || AllStamps(ws)[j] - AllStamps(ws)[i] >= setup.minGap
  {
    hide AllStamps, Select, Capped, NotAfter, Span;
    var n := CountFrom(AllStamps(ws), a, setup.DanceSpan());
    assert n as real < setup.resetCycles - 1.0;
    assert (n + 1) as real < r as real;
    RealOrder(n + 1, r);
    forall i, j | 0 <= i < j < |AllStamps(ws)|
      ensures AllStamps(ws)[i] - AllStamps(ws)[j] >= setup.minGap || AllStamps(ws)[j] - AllStamps(ws)[i] >= setup.minGap
    {
      SpreadMeansApart(AllStamps(ws), setup.minGap, i, j);
    }
  }
}
