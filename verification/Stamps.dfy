/** What the two readers of time-of-day stamps compute, line by line and step by step. */
module Stamps {
  import opened Clocks
  import opened Options

  predicate Matches(line: Line, slot: string) { line.Stamped? && slot in line.slots }

  /** How many of the lines carry a stamp. */
  function Stamped(lines: seq<Line>): nat { |StampsOf(lines)| }

  lemma {:induction false} StampsAppend(a: seq<Line>, b: seq<Line>)
    ensures StampsOf(a + b) == StampsOf(a) + StampsOf(b)
  {
    if |b| == 0 {
      assert a + b == a;
    } else {
      assert (a + b)[..|a + b| - 1] == a + b[..|b| - 1];
      StampsAppend(a, b[..|b| - 1]);
    }
  }

  /** The stamps are those of the stamped lines, in order. */
  lemma {:induction false} StampIs(lines: seq<Line>, k: nat)
    requires k < |lines| && lines[k].Stamped?
    ensures Stamped(lines[..k]) < Stamped(lines) && StampsOf(lines)[Stamped(lines[..k])] == lines[k].tod
  {
    assert lines == lines[..k] + ([lines[k]] + lines[k + 1..]);
    StampsAppend(lines[..k], [lines[k]] + lines[k + 1..]);
    StampsAppend([lines[k]], lines[k + 1..]);
    assert [lines[k]][..0] == [];
  }

  /** Each time is its stamp of day some days on: the first day's for the first stamp, and then the
      least number of days that brings it no more than half a day behind the time before it. */
  lemma {:induction false} TimesAre(tods: seq<int>, i: nat)
    requires i < |tods|
    ensures var times := Accumulate(tods);
      && (i == 0 ==> times[0] == tods[0])
      && (i > 0 ==>
            && times[i] >= tods[i] && (times[i] - tods[i]) % 86_400_000 == 0
            && times[i] >= times[i - 1] - 43_200_000
            && (times[i] == tods[i] || times[i] - 86_400_000 < times[i - 1] - 43_200_000))
    decreases |tods|
  {
    hide Lift;
    var m := |tods| - 1;
    if i < m {
      TimesAre(tods[..m], i);
    } else if i > 0 {
      LiftIs(tods[m], Accumulate(tods[..m])[m - 1]);
    }
  }

  /** A time once read is not changed by later lines. */
  lemma {:induction false} TimesStay(front: seq<int>, more: seq<int>)
    ensures Accumulate(front) == Accumulate(front + more)[..|front|]
    decreases |more|
  {
    hide Lift;
    if |more| == 0 {
      assert front + more == front;
    } else {
      var n := |more| - 1;
      assert (front + more)[..|front + more| - 1] == front + more[..n];
      TimesStay(front, more[..n]);
    }
  }

  /** A slot's reading: the time of the first stamped line that matches it, counted from the first stamp. */
  lemma {:induction false} SlotMeans(lines: seq<Line>, slot: string)
    ensures SlotTime(lines, slot).None? <==> forall k :: 0 <= k < |lines| ==> !Matches(lines[k], slot)
    ensures SlotTime(lines, slot).Some? ==>
      exists k: nat :: FirstMatch(lines, slot, k) && Stamped(lines[..k]) < Stamped(lines)
        && SlotTime(lines, slot).value == Accumulate(StampsOf(lines))[Stamped(lines[..k])] - Accumulate(StampsOf(lines))[0]
  {
    hide Accumulate, StampsOf;
    if |lines| > 0 {
      var m := |lines| - 1;
      var front, last := lines[..m], lines[m];
      SlotMeans(front, slot);
      assert lines == front + [last];
      if SlotTime(front, slot).Some? {
        var k: nat :| FirstMatch(front, slot, k) && Stamped(front[..k]) < Stamped(front)
                      && SlotTime(front, slot).value == Accumulate(StampsOf(front))[Stamped(front[..k])] - Accumulate(StampsOf(front))[0];
        assert front[..k] == lines[..k];
        StampsAppend(front, [last]);
        TimesStay(StampsOf(front), StampsOf([last]));
        assert FirstMatch(lines, slot, k);
      } else if Matches(last, slot) {
        StampsAppend(front, [last]);
        OneStamp(last);
        assert FirstMatch(lines, slot, m);
      }
    }
  }

  lemma OneStamp(line: Line)
    ensures StampsOf([line]) == if line.Stamped? then [line.tod] else []
  {
    assert [line][..0] == [];
  }

  predicate FirstMatch(lines: seq<Line>, slot: string, k: nat) {
    k < |lines| && Matches(lines[k], slot) && forall j :: 0 <= j < k ==> !Matches(lines[j], slot)
  }

  // ---------------------------------------------------------------- the dater

  /** A date moves on by one day exactly when a stamp falls more than half a day behind the one before
      it, the first behind the time the file starts at. */
  lemma {:induction false} DatesStep(startTod: int, tods: seq<int>, i: nat)
    requires i < |tods|
    ensures var dates := Dates(startTod, tods);
      if i == 0 then dates[0] == if startTod - tods[0] > 43_200_000 then 1 else 0
      else dates[i] == dates[i - 1] + if tods[i - 1] - tods[i] > 43_200_000 then 1 else 0
    decreases |tods|
  {
    var m := |tods| - 1;
    if i < m {
      DatesStep(startTod, tods[..m], i);
    } else if i > 0 {
      assert Dates(startTod, tods)[i - 1] == Dates(startTod, tods[..m])[m - 1];
    }
  }

  lemma {:induction false} DatesStay(startTod: int, front: seq<int>, more: seq<int>)
    ensures Dates(startTod, front) == Dates(startTod, front + more)[..|front|]
    decreases |more|
  {
    if |more| == 0 {
      assert front + more == front;
    } else {
      var n := |more| - 1;
      assert (front + more)[..|front + more| - 1] == front + more[..n];
      DatesStay(startTod, front, more[..n]);
    }
  }

  /** Each line is dated by the last stamp up to it, its own if it has one; before any stamp, by the
      file's own date and start. */
  lemma {:induction false} LineDated(startTod: int, lines: seq<Line>, i: nat)
    requires i < |lines|
    ensures var out, n := DatedLines(startTod, lines), Stamped(lines[..i + 1]);
      && |out| == |lines| && n <= |StampsOf(lines)|
      && (out[i].continuation <==> lines[i].Unstamped?)
      && (n == 0 ==> out[i] == Dated(0, startTod, true))
      && (n > 0 ==> out[i].tod == StampsOf(lines)[n - 1] && out[i].date == Dates(startTod, StampsOf(lines))[n - 1])
    decreases |lines|
  {
    hide Dates;
    DatedLength(startTod, lines);
    var m := |lines| - 1;
    var front := lines[..m];
    assert lines == front + [lines[m]];
    DatedLength(startTod, front);
    StampsAppend(front, [lines[m]]);
    OneStamp(lines[m]);
    if i < m {
      LineDated(startTod, front, i);
      assert front[..i + 1] == lines[..i + 1];
      assert DatedLines(startTod, lines)[i] == DatedLines(startTod, front)[i];
      DatesStay(startTod, StampsOf(front), StampsOf([lines[m]]));
    } else {
      assert lines[..i + 1] == lines;
    }
  }

  lemma {:induction false} DatedLength(startTod: int, lines: seq<Line>)
    ensures |DatedLines(startTod, lines)| == |lines|
  {
    if |lines| > 0 { DatedLength(startTod, lines[..|lines| - 1]); }
  }
}
