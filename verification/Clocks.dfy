/** Two readers of time-of-day stamps: the boot accumulator and the log dater. */
module Clocks {
  import opened Options

  const DAY := 86_400_000    // milliseconds
  const HALF_DAY := 43_200_000

  /** A line of the application log: its time-of-day stamp, if any, and the boot
      slots its text matches. */
  datatype Line = Stamped(tod: int, slots: set<string>) | Unstamped

  // ---- boot_timing.boot_read

  /** The inner loop: add days until the stamp is at most half a day behind. */
  function Lift(t: int, prev: int): int
    decreases if t < prev - HALF_DAY then prev - t else 0
  {
    if t < prev - HALF_DAY then Lift(t + DAY, prev) else t
  }

  lemma {:induction false} LiftIs(t: int, prev: int)
    ensures var r := Lift(t, prev);
      && r >= t && r >= prev - HALF_DAY && (r - t) % DAY == 0
      && (r == t || r < prev + HALF_DAY)
    decreases if t < prev - HALF_DAY then prev - t else 0
  {
    if t < prev - HALF_DAY { LiftIs(t + DAY, prev); }
  }

  /** The accumulated time of each stamp, counted from the first line's midnight. */
  function Accumulate(tods: seq<int>): (r: seq<int>)
    ensures |r| == |tods|
  {
    if |tods| == 0 then []
    else
      var before := Accumulate(tods[..|tods| - 1]);
      var tod := tods[|tods| - 1];
      before + [if |before| == 0 then tod else Lift(tod, before[|before| - 1])]
  }

  function StampsOf(lines: seq<Line>): seq<int> {
    if |lines| == 0 then []
    else StampsOf(lines[..|lines| - 1]) + if lines[|lines| - 1].Stamped? then [lines[|lines| - 1].tod] else []
  }

  /** A slot's reading: the time, since the first stamp, of the first stamped line that matches it. */
  function SlotTime(lines: seq<Line>, slot: string): Option<int> {
    if |lines| == 0 then None
    else
      var front, last := lines[..|lines| - 1], lines[|lines| - 1];
      if SlotTime(front, slot).Some? then SlotTime(front, slot)
      else if last.Stamped? && slot in last.slots then
        var times := Accumulate(StampsOf(lines));
        Some(times[|times| - 1] - times[0])
      else None
  }

  function Lookup(got: map<string, int>, slot: string): Option<int> {
    if slot in got then Some(got[slot]) else None
  }

  method LiftDays(tod: int, prev: Option<int>) returns (t: int)
    ensures t == if prev.None? then tod else Lift(tod, prev.value)
  {
    t := tod;
    while prev.Some? && t < prev.value - HALF_DAY
      invariant prev.Some? ==> Lift(tod, prev.value) == Lift(t, prev.value)
      invariant prev.None? ==> t == tod
      decreases if prev.Some? then prev.value - t else 0
    {
      t := t + DAY;
    }
  }

  /** The slots a line fills: those it matches that no earlier line filled. */
  function FillSlots(got: map<string, int>, slots: set<string>, elapsed: int): map<string, int> {
    map slot | slot in got.Keys + slots :: if slot in got then got[slot] else elapsed
  }

  /** `boot_read`: the launch stamp and every slot's reading. */
  method BootRead(lines: seq<Line>) returns (launched: Option<int>, got: map<string, int>)
    ensures var times := Accumulate(StampsOf(lines));
      launched == if |times| == 0 then None else Some(times[0])
    ensures forall slot :: Lookup(got, slot) == SlotTime(lines, slot)
  {
    hide Accumulate, StampsOf, SlotTime, Lift, FillSlots, Lookup;
    var base: Option<int>, prev: Option<int> := None, None;
    got := map[];
    ghost var times: seq<int> := [];
    NothingRead();
    assert lines[..0] == [];
    for i := 0 to |lines|
      invariant times == Accumulate(StampsOf(lines[..i]))
      invariant base == if |times| == 0 then None else Some(times[0])
      invariant prev == if |times| == 0 then None else Some(times[|times| - 1])
      invariant forall slot :: Lookup(got, slot) == SlotTime(lines[..i], slot)
    {
      var line := lines[i];
      assert lines[..i + 1] == lines[..i] + [line];
      if line.Stamped? {
        var t := LiftDays(line.tod, prev);
        if base.None? { base := Some(t); }
        prev := Some(t);
        NextTime(lines[..i], line, times, t);
        times := times + [t];
        var filled := FillSlots(got, line.slots, t - base.value);
        ghost var read := lines[..i + 1];
        forall slot ensures Lookup(filled, slot) == SlotTime(read, slot) {
          NextSlot(lines[..i], line, times, slot);
          FillLookup(got, line.slots, t - base.value, slot);
        }
        got := filled;
      } else {
        SkipLine(lines[..i]);
      }
    }
    assert lines[..|lines|] == lines;
    launched := base;
  }

  lemma NothingRead()
    ensures Accumulate(StampsOf([])) == [] && forall slot :: Lookup(map[], slot) == SlotTime([], slot)
  {}

  lemma FillLookup(got: map<string, int>, slots: set<string>, elapsed: int, slot: string)
    ensures Lookup(FillSlots(got, slots, elapsed), slot) ==
      if Lookup(got, slot).Some? then Lookup(got, slot) else if slot in slots then Some(elapsed) else None
  {}

  lemma NextTime(front: seq<Line>, line: Line, times: seq<int>, t: int)
    requires line.Stamped? && times == Accumulate(StampsOf(front))
    requires t == if |times| == 0 then line.tod else Lift(line.tod, times[|times| - 1])
    ensures Accumulate(StampsOf(front + [line])) == times + [t]
  {
    var stamps := StampsOf(front);
    assert (front + [line])[..|front|] == front;
    assert (stamps + [line.tod])[..|stamps|] == stamps;
  }

  lemma NextSlot(front: seq<Line>, line: Line, times: seq<int>, slot: string)
    requires line.Stamped? && times == Accumulate(StampsOf(front + [line])) && |times| > 0
    ensures SlotTime(front + [line], slot) ==
      if SlotTime(front, slot).Some? then SlotTime(front, slot)
      else if slot in line.slots then Some(times[|times| - 1] - times[0]) else None
  {
    hide Accumulate, StampsOf;
    var lines := front + [line];
    assert lines[..|lines| - 1] == front && lines[|lines| - 1] == line;
    assert times == Accumulate(StampsOf(lines));
  }

  lemma SkipLine(front: seq<Line>)
    ensures StampsOf(front + [Unstamped]) == StampsOf(front)
    ensures forall slot :: SlotTime(front + [Unstamped], slot) == SlotTime(front, slot)
  {
    assert (front + [Unstamped])[..|front|] == front;
  }

  // ---- true times

  function TodOf(t: int): int { t % DAY }

  function TodsOf(times: seq<int>): (r: seq<int>)
    ensures |r| == |times|
  {
    seq(|times|, i requires 0 <= i < |times| => TodOf(times[i]))
  }

  /** One step the boot accumulator survives: at most half a day back, less than
      half a day on (or still inside the first day), never before the first midnight. */
  predicate BootStep(prev: int, t: int) {
    t >= 0 && prev - HALF_DAY <= t && (t < DAY || t < prev + HALF_DAY)
  }

  /** Every step is a boot step. */
  ghost predicate BootSteady(times: seq<int>) {
    |times| <= 1 || (BootSteady(times[..|times| - 1]) && BootStep(times[|times| - 2], times[|times| - 1]))
  }

  lemma LiftRecovers(prev: int, t: int)
    ensures Lift(TodOf(t), prev) == t <==> BootStep(prev, t)
  {
    var tod := TodOf(t);
    LiftIs(tod, prev);
    var r := Lift(tod, prev);
    SameTod(t, r, tod);
  }

  /** Two instants with one time of day, within a day of each other, are equal. */
  lemma SameTod(t: int, r: int, tod: int)
    requires tod == t % DAY && (r - tod) % DAY == 0 && r >= tod
    ensures r == t || r - t >= DAY || t - r >= DAY
    ensures t >= 0 <==> t >= tod
    ensures t < DAY && t >= 0 <==> t == tod
  {}

  lemma AccumulateStep(front: seq<int>, t: int)
    requires |front| > 0
    ensures var before := Accumulate(TodsOf(front));
      Accumulate(TodsOf(front + [t])) == before + [Lift(TodOf(t), before[|front| - 1])]
  {
    hide Lift, TodOf;
    assert TodsOf(front + [t])[..|front|] == TodsOf(front);
  }

  lemma SteadyStep(front: seq<int>, t: int)
    requires |front| > 0
    ensures BootSteady(front + [t]) <==> BootSteady(front) && BootStep(front[|front| - 1], t)
  {
    hide BootStep;
    assert (front + [t])[..|front|] == front;
  }

  /** Clock recovery: counted from the first line's midnight, the boot reader
      recovers every true time exactly when every step is a boot step. */
  lemma {:induction false} BootRecovers(times: seq<int>)
    requires |times| > 0 && 0 <= times[0] < DAY
    ensures Accumulate(TodsOf(times)) == times <==> BootSteady(times)
  {
    var m := |times| - 1;
    var front, t := times[..m], times[m];
    assert times == front + [t];
    if m > 0 {
      hide Lift, TodOf, BootStep, BootSteady, Accumulate, TodsOf;
      BootRecovers(front);
      AccumulateStep(front, t);
      SteadyStep(front, t);
      var before := Accumulate(TodsOf(front));
      SnocEqual(before, Lift(TodOf(t), before[m - 1]), front, t);
      LiftRecovers(before[m - 1], t);
    } else {
      FirstRecovers(times[0]);
    }
  }

  lemma FirstRecovers(t: int)
    requires 0 <= t < DAY
    ensures Accumulate(TodsOf([t])) == [t]
  {
    assert TodsOf([t])[..0] == [];
  }

  /** A first-day gap of more than half a day is still recovered. */
  lemma {:induction false} LongFirstDayGap()
    ensures Accumulate(TodsOf([0, 80_000_000])) == [0, 80_000_000]
    ensures 80_000_000 - 0 > HALF_DAY
  {
    BootRecovers([0, 80_000_000]);
  }

  // ---- export.iter_log_lines

  /** The date of each stamp, in days from the file's own date. */
  function Dates(startTod: int, tods: seq<int>): (r: seq<int>)
    ensures |r| == |tods|
  {
    if |tods| == 0 then []
    else
      var m := |tods| - 1;
      var before := Dates(startTod, tods[..m]);
      var prevTod := if m == 0 then startTod else tods[m - 1];
      before + [(if m == 0 then 0 else before[m - 1]) + if prevTod - tods[m] > HALF_DAY then 1 else 0]
  }

  /** A dated line: its date and time of day; an unstamped line rides its predecessor. */
  datatype Dated = Dated(date: int, tod: int, continuation: bool)

  function DatedLines(startTod: int, lines: seq<Line>): seq<Dated> {
    if |lines| == 0 then []
    else
      var m := |lines| - 1;
      var stamps := StampsOf(lines);
      var dates := Dates(startTod, stamps);
      DatedLines(startTod, lines[..m])
      + [if |stamps| == 0 then Dated(0, startTod, true)
         else Dated(dates[|stamps| - 1], stamps[|stamps| - 1], !lines[m].Stamped?)]
  }

  lemma DatedPush(startTod: int, front: seq<Line>, line: Line)
    ensures var stamps := StampsOf(front);
      && StampsOf(front + [line]) == (if line.Stamped? then stamps + [line.tod] else stamps)
      && (line.Stamped? ==> DatedLines(startTod, front + [line]) == DatedLines(startTod, front)
                            + [Dated(Dates(startTod, stamps + [line.tod])[|stamps|], line.tod, false)])
      && (line.Unstamped? ==> DatedLines(startTod, front + [line]) == DatedLines(startTod, front)
                              + [if |stamps| == 0 then Dated(0, startTod, true)
                                 else Dated(Dates(startTod, stamps)[|stamps| - 1], stamps[|stamps| - 1], true)])
  {
    assert (front + [line])[..|front|] == front;
  }

  method IterLogLines(startTod: int, lines: seq<Line>) returns (out: seq<Dated>)
    ensures out == DatedLines(startTod, lines)
  {
    out := [];
    var date, prevTod := 0, startTod;
    var last: Option<(int, int)> := None;
    ghost var stamps: seq<int> := [];
    assert lines[..0] == [];
    for i := 0 to |lines|
      invariant out == DatedLines(startTod, lines[..i])
      invariant stamps == StampsOf(lines[..i])
      invariant |stamps| == 0 ==> date == 0 && prevTod == startTod && (last.None? || last.value == (0, startTod))
      invariant |stamps| > 0 ==> prevTod == stamps[|stamps| - 1] && date == Dates(startTod, stamps)[|stamps| - 1]
                                 && last == Some((date, prevTod))
    {
      var line := lines[i];
      assert lines[..i + 1] == lines[..i] + [line];
      DatedPush(startTod, lines[..i], line);
      if line.Stamped? {
        DatesPush(startTod, stamps, line.tod);
        hide Dates, DatedLines, StampsOf;
        if prevTod - line.tod > HALF_DAY { date := date + 1; }
        prevTod := line.tod;
        last := Some((date, prevTod));
        out := out + [Dated(date, prevTod, false)];
        stamps := stamps + [line.tod];
      } else {
        hide Dates, DatedLines, StampsOf;
        if last.None? { last := Some((date, startTod)); }
        out := out + [Dated(last.value.0, last.value.1, true)];
      }
    }
    assert lines[..|lines|] == lines;
  }

  function DatesOf(times: seq<int>): (r: seq<int>)
    ensures |r| == |times|
  {
    seq(|times|, i requires 0 <= i < |times| => times[i] / DAY)
  }

  /** One step the dater survives: same date and at most half a day back, or the
      next date and less than half a day on. */
  predicate DateStep(prev: int, t: int) {
    || (t / DAY == prev / DAY && prev - t <= HALF_DAY)
    || (t / DAY == prev / DAY + 1 && t - prev < HALF_DAY)
  }

  /** Every step from the file's start on is a date step. */
  ghost predicate DateSteady(start: int, times: seq<int>) {
    |times| == 0 ||
    (var m := |times| - 1;
     DateSteady(start, times[..m]) && DateStep(if m == 0 then start else times[m - 1], times[m]))
  }

  lemma DateStepIs(prev: int, t: int)
    ensures DateStep(prev, t) <==> t / DAY == prev / DAY + if TodOf(prev) - TodOf(t) > HALF_DAY then 1 else 0
  {
    assert t == t / DAY * DAY + TodOf(t) && prev == prev / DAY * DAY + TodOf(prev);
  }

  function Before(start: int, front: seq<int>): int { if |front| == 0 then start else front[|front| - 1] }

  /** The rollover rule: a stamp more than half a day back starts a new date. */
  function Rollover(prevTod: int, tod: int): int { if prevTod - tod > HALF_DAY then 1 else 0 }

  lemma DatesStep(start: int, front: seq<int>, t: int)
    ensures var before := Dates(TodOf(start), TodsOf(front));
      Dates(TodOf(start), TodsOf(front + [t])) == before
        + [(if |front| == 0 then 0 else before[|front| - 1]) + Rollover(TodOf(Before(start, front)), TodOf(t))]
    ensures DatesOf(front + [t]) == DatesOf(front) + [t / DAY]
  {
    hide TodOf;
    assert TodsOf(front + [t]) == TodsOf(front) + [TodOf(t)];
    DatesPush(TodOf(start), TodsOf(front), TodOf(t));
  }

  lemma DateSteadyStep(start: int, front: seq<int>, t: int)
    ensures DateSteady(start, front + [t]) <==> DateSteady(start, front) && DateStep(Before(start, front), t)
  {
    hide DateStep;
    assert (front + [t])[..|front|] == front;
  }

  /** Clock recovery: the dater recovers every true date exactly when every step,
      from the file's own start on, is a date step. */
  lemma {:induction false} DaterRecovers(start: int, times: seq<int>)
    requires 0 <= start < DAY
    ensures Dates(TodOf(start), TodsOf(times)) == DatesOf(times) <==> DateSteady(start, times)
  {
    if |times| > 0 {
      hide Dates, TodsOf, TodOf, DateStep, DateSteady;
      var m := |times| - 1;
      var front, t := times[..m], times[m];
      assert times == front + [t];
      DaterRecovers(start, front);
      DatesStep(start, front, t);
      DateSteadyStep(start, front, t);
      DateStepIs(Before(start, front), t);
      var before := Dates(TodOf(start), TodsOf(front));
      var step := Rollover(TodOf(Before(start, front)), TodOf(t));
      SnocEqual(before, (if m == 0 then 0 else before[m - 1]) + step, DatesOf(front), t / DAY);
    }
  }

  lemma SnocEqual(a: seq<int>, x: int, b: seq<int>, y: int)
    requires |a| == |b|
    ensures a + [x] == b + [y] <==> a == b && x == y
  {
    assert (a + [x])[..|a|] == a && (b + [y])[..|b|] == b;
    assert (a + [x])[|a|] == x && (b + [y])[|b|] == y;
  }

  lemma DatesPush(startTod: int, tods: seq<int>, tod: int)
    ensures var before := Dates(startTod, tods);
      var prevTod := if |tods| == 0 then startTod else tods[|tods| - 1];
      Dates(startTod, tods + [tod]) ==
        before + [(if |tods| == 0 then 0 else before[|tods| - 1]) + if prevTod - tod > HALF_DAY then 1 else 0]
  {
    assert (tods + [tod])[..|tods|] == tods;
  }

  // ---------------------------------------------------------------- the two readers together

  /** Both readers give every stamp the same instant. */
  predicate Agree(startTod: int, tods: seq<int>) {
    forall i :: 0 <= i < |tods| ==> Accumulate(tods)[i] == Dates(startTod, tods)[i] * DAY + tods[i]
  }

  predicate InDay(startTod: int, tods: seq<int>) {
    0 <= startTod < DAY && forall i :: 0 <= i < |tods| ==> 0 <= tods[i] < DAY
  }

  /** The step to a stamp: from the file's start at most half a day back; later less than half a
      day on, or still on the first date. */
  predicate AgreeStep(startTod: int, front: seq<int>, tod: int) {
    if |front| == 0 then startTod - tod <= HALF_DAY
    else tod - front[|front| - 1] < HALF_DAY || Dates(startTod, front)[|front| - 1] == 0
  }

  lemma AgreeNext(startTod: int, front: seq<int>, tod: int)
    requires InDay(startTod, front + [tod]) && Agree(startTod, front)
    ensures Agree(startTod, front + [tod]) <==> AgreeStep(startTod, front, tod)
  {
    var all, m := front + [tod], |front|;
    assert all[..m] == front;
    DatesPush(startTod, front, tod);
    var boot, dates := Accumulate(front), Dates(startTod, front);
    assert Accumulate(all) == boot + [if m == 0 then tod else Lift(tod, boot[m - 1])];
    assert all[m] == tod;
    if m > 0 {
      DatesRise(startTod, front);
      assert all[m - 1] == front[m - 1] && boot[m - 1] == dates[m - 1] * DAY + front[m - 1];
      LiftOrRoll(dates[m - 1], front[m - 1], tod);
    }
    hide Accumulate, Dates, Lift;
    assert forall i :: 0 <= i < m ==> Accumulate(all)[i] == boot[i] && Dates(startTod, all)[i] == dates[i] && all[i] == front[i];
  }

  /** From date `d`: lifting the stamp and rolling the date over agree on it. */
  lemma LiftOrRoll(d: int, prev: int, tod: int)
    requires d >= 0 && 0 <= prev < DAY && 0 <= tod < DAY
    ensures Lift(tod, d * DAY + prev) == (d + Rollover(prev, tod)) * DAY + tod <==> tod - prev < HALF_DAY || d == 0
  {
    LiftIs(tod, d * DAY + prev);
  }

  lemma {:induction false} DatesRise(startTod: int, tods: seq<int>)
    ensures forall i :: 0 <= i < |tods| ==> Dates(startTod, tods)[i] >= 0
  {
    if |tods| > 0 {
      var m := |tods| - 1;
      DatesRise(startTod, tods[..m]);
    }
  }

  lemma AgreePrefix(startTod: int, front: seq<int>, tod: int)
    requires Agree(startTod, front + [tod])
    ensures Agree(startTod, front)
  {
    var all := front + [tod];
    assert all[..|front|] == front;
    DatesPush(startTod, front, tod);
    forall i | 0 <= i < |front|
      ensures Accumulate(front)[i] == Dates(startTod, front)[i] * DAY + front[i]
    {
      assert Accumulate(all)[i] == Accumulate(front)[i] && all[i] == front[i];
    }
  }

  /** The exact condition, on the stamps alone: the two readers agree if and only if the first stamp
      is at most half a day before the file's start, and every later one is less than half a day
      after the one before it or follows a stamp still on the first date. */
  lemma {:induction false} ReadersAgreeExactlyWhen(startTod: int, tods: seq<int>)
    requires InDay(startTod, tods)
    ensures Agree(startTod, tods) <==> forall i :: 0 <= i < |tods| ==> AgreeStep(startTod, tods[..i], tods[i])
  {
    hide AgreeStep, Agree;
    if |tods| == 0 {
      NoStamps(startTod);
    } else {
      var m := |tods| - 1;
      var front := tods[..m];
      assert tods == front + [tods[m]];
      assert forall i :: 0 <= i < m ==> tods[..i] == front[..i] && tods[i] == front[i];
      assert front[..m] == front;
      ReadersAgreeExactlyWhen(startTod, front);
      if Agree(startTod, tods) { AgreePrefix(startTod, front, tods[m]); }
      if Agree(startTod, front) { AgreeNext(startTod, front, tods[m]); }
    }
  }

  lemma NoStamps(startTod: int)
    ensures Agree(startTod, [])
  {
  }

  /** Steps under half a day. */
  ghost predicate Brisk(times: seq<int>) {
    forall i :: 0 < i < |times| ==> times[i] - times[i - 1] < HALF_DAY
  }

  lemma {:induction false} SteadySteps(start: int, times: seq<int>, i: nat)
    requires DateSteady(start, times) && i < |times|
    ensures DateStep(if i == 0 then start else times[i - 1], times[i])
    decreases |times|
  {
    hide DateStep;
    if i < |times| - 1 {
      SteadySteps(start, times[..|times| - 1], i);
    }
  }

  lemma BriskStep(prev: int, t: int)
    requires DateStep(prev, t) && t - prev < HALF_DAY
    ensures TodOf(t) - TodOf(prev) < HALF_DAY
  {
    assert t == t / DAY * DAY + TodOf(t) && prev == prev / DAY * DAY + TodOf(prev);
  }

  /** On logs that never step back across midnight, with steps under half a day,
      the two readers agree line by line. */
  lemma {:induction false} ReadersAgree(start: int, times: seq<int>)
    requires 0 <= start < DAY && |times| > 0 && times[0] < DAY && DateSteady(start, times) && Brisk(times)
    ensures Agree(TodOf(start), TodsOf(times))
  {
    hide Agree, Dates, DateSteady;
    var tods := TodsOf(times);
    forall i | 0 <= i < |tods|
      ensures AgreeStep(TodOf(start), tods[..i], tods[i])
    {
      SteadySteps(start, times, i);
      if i > 0 {
        BriskStep(times[i - 1], times[i]);
        assert tods[..i][i - 1] == tods[i - 1];
      } else {
        DateStepIs(start, times[0]);
      }
    }
    ReadersAgreeExactlyWhen(TodOf(start), tods);
  }

  /** The two ways to disagree: a rollover before the first stamp, and a silence of half a day or
      more after the first date. */
  lemma {:induction false} ReadersDisagree(startTod: int, tods: seq<int>)
    requires InDay(startTod, tods) && !Agree(startTod, tods)
    ensures |tods| > 0
    ensures startTod - tods[0] > HALF_DAY
      || exists i :: 0 < i < |tods| && tods[i] - tods[i - 1] >= HALF_DAY && Dates(startTod, tods[..i])[i - 1] > 0
  {
    ReadersAgreeExactlyWhen(startTod, tods);
    hide Agree, Dates;
    var i :| 0 <= i < |tods| && !AgreeStep(startTod, tods[..i], tods[i]);
    if i > 0 {
      DatesRise(startTod, tods[..i]);
      assert tods[..i][i - 1] == tods[i - 1];
    }
  }

  /** Jitter back across a later midnight: the boot reader recovers it, the dater does not. */
  lemma JitterDivides()
    ensures var times := [DAY - 1, DAY + 1, DAY - 1];
      Accumulate(TodsOf(times)) == times && Dates(TodOf(DAY - 1), TodsOf(times)) != DatesOf(times)
  {
    var times := [DAY - 1, DAY + 1, DAY - 1];
    assert times[..2] == [DAY - 1, DAY + 1] && times[..2][..1] == [DAY - 1];
    BootRecovers(times);
    DaterRecovers(DAY - 1, times);
    assert BootSteady([DAY - 1]) && BootSteady([DAY - 1, DAY + 1]);
    assert !DateStep(DAY + 1, DAY - 1);
  }

  /** A silence of half a day or more on a later date: the dater recovers it, the
      boot reader does not. */
  lemma SilenceDivides()
    ensures var times := [DAY - 1, DAY + 1, DAY + 50_000_000];
      Dates(TodOf(DAY - 1), TodsOf(times)) == DatesOf(times) && Accumulate(TodsOf(times)) != times
  {
    var times := [DAY - 1, DAY + 1, DAY + 50_000_000];
    assert times[..2] == [DAY - 1, DAY + 1] && times[..2][..1] == [DAY - 1] && times[..2][..1][..0] == [];
    BootRecovers(times);
    DaterRecovers(DAY - 1, times);
    assert DateSteady(DAY - 1, []) && DateSteady(DAY - 1, [DAY - 1]) && DateSteady(DAY - 1, [DAY - 1, DAY + 1]);
    assert !BootStep(DAY + 1, DAY + 50_000_000);
  }
}
