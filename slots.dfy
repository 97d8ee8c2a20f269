/** The public page's slot generator (PublicBooking.jsx, the effect at lines 39-54): a
    schedule configuration becomes the ordered list of "HH:MM" slot strings offered for a day. */
module Slots {
  import opened Wrappers
  import Clock
  import Lex

  /** A schedule configuration as a profile stores it: times of day as "HH:MM" text and the
      slot length in minutes. */
  datatype ConfigText = ConfigText(start: string, end: string, breakStart: string, breakEnd: string, duration: int)

  /** What a profile without a stored configuration gets: 09:00 to 19:00, a 13:00 to 14:00
      break and one-hour slots. */
  const DefaultConfig := ConfigText("09:00", "19:00", "13:00", "14:00", 60)

  /** A configuration with its four times read as dates on one fixed day, in minutes after
      midnight; None stands for an invalid date, which compares false with everything. */
  datatype Config = Config(start: Option<nat>, end: Option<nat>, breakStart: Option<nat>, breakEnd: Option<nat>, duration: int)

  function ParseConfig(t: ConfigText): (c: Config)
    ensures c.end.Some? ==> c.end.value <= Clock.MinutesPerDay
    ensures c.duration == t.duration
  {
    Config(Clock.ParseTime(t.start), Clock.ParseTime(t.end),
           Clock.ParseTime(t.breakStart), Clock.ParseTime(t.breakEnd), t.duration)
  }

  /** The loop body runs at least once: both bounds are valid dates and start is before end. */
  predicate Runs(c: Config) {
    c.start.Some? && c.end.Some? && c.start.value < c.end.value
  }

  /** The generator's loop ends: when its body runs at all, each pass moves the time forward. */
  predicate Terminates(c: Config) {
    Runs(c) ==> c.duration > 0
  }

  /** The point `t` falls in the half-open break `[breakStart, breakEnd)`; never true when
      either break bound is an invalid date. */
  predicate InBreak(c: Config, t: nat) {
    c.breakStart.Some? && c.breakEnd.Some? && c.breakStart.value <= t < c.breakEnd.value
  }

  predicate Increasing(s: seq<nat>) {
    forall i, j :: 0 <= i < j < |s| ==> s[i] < s[j]
  }

  /** The points the loop keeps once it has reached time `t`: every `t + k * duration` before
      the end that is not in the break, in the order they are reached. */
  function PointsFrom(c: Config, t: nat): (r: seq<nat>)
    requires c.end.Some? && (t < c.end.value ==> c.duration > 0)
    ensures forall i :: 0 <= i < |r| ==> t <= r[i] < c.end.value && !InBreak(c, r[i])
    ensures Increasing(r)
    decreases if t < c.end.value then c.end.value - t else 0
  {
    if t >= c.end.value then []
    else (if InBreak(c, t) then [] else [t]) + PointsFrom(c, t + c.duration)
  }

  /** The slot times of a configuration, in minutes. */
  function Points(c: Config): (r: seq<nat>)
    requires Terminates(c)
    ensures !Runs(c) ==> r == []
    ensures forall x :: x in r ==> Runs(c) && c.start.value <= x < c.end.value && !InBreak(c, x)
    ensures Increasing(r)
  {
    if Runs(c) then PointsFrom(c, c.start.value) else []
  }

  /** The k-th time the loop visits, counting from `t`. */
  function Visit(c: Config, t: nat, k: nat): nat
    requires c.duration > 0
  {
    t + k * c.duration
  }

  lemma VisitShift(c: Config, t: nat, k: nat)
    requires c.duration > 0
    ensures Visit(c, t + c.duration, k) == Visit(c, t, k + 1)
  {
    calc {
      Visit(c, t, k + 1);
      t + (k + 1) * c.duration;
      { assert (k + 1) * c.duration == k * c.duration + c.duration; }
      t + c.duration + k * c.duration;
    }
  }

  /** Every kept point is a visited one: it lies on the `duration` grid that starts at `t`. */
  lemma {:induction false} PointsFromOnGrid(c: Config, t: nat, x: nat)
    requires c.end.Some? && c.duration > 0 && x in PointsFrom(c, t)
    ensures exists k: nat :: x == Visit(c, t, k)
    decreases c.end.value - t
  {
    if x == t {
      assert x == Visit(c, t, 0);
    } else {
      assert x in PointsFrom(c, t + c.duration);
      PointsFromOnGrid(c, t + c.duration, x);
      var k: nat :| x == Visit(c, t + c.duration, k);
      VisitShift(c, t, k);
    }
  }

  /** Every visited time before the end and outside the break is kept. */
  lemma {:induction false} PointsFromComplete(c: Config, t: nat, k: nat)
    requires c.end.Some? && c.duration > 0
    requires Visit(c, t, k) < c.end.value && !InBreak(c, Visit(c, t, k))
    ensures Visit(c, t, k) in PointsFrom(c, t)
    decreases k
  {
    if k > 0 {
      VisitShift(c, t, k - 1);
      PointsFromComplete(c, t + c.duration, k - 1);
    }
  }

  /** A strictly increasing list holds each of its elements exactly once. */
  lemma {:induction false} IncreasingOnce(s: seq<nat>, x: nat)
    requires Increasing(s) && x in s
    ensures multiset(s)[x] == 1
  {
    assert s == [s[0]] + s[1..];
    if s[0] == x {
      assert x !in s[1..] by {
        forall i | 0 <= i < |s[1..]| ensures s[1..][i] != x {
          assert s[1..][i] == s[i + 1];
        }
      }
    } else {
      IncreasingOnce(s[1..], x);
    }
  }

  /** The slot times are exactly the grid points `start + k * duration` that lie before the end
      and outside the break, each of them once. */
  lemma PointsExactly(c: Config, x: nat)
    requires Terminates(c) && Runs(c)
    ensures x in Points(c) <==>
              (exists k: nat :: x == Visit(c, c.start.value, k)) && x < c.end.value && !InBreak(c, x)
    ensures x in Points(c) ==> multiset(Points(c))[x] == 1
  {
    if x in Points(c) {
      PointsFromOnGrid(c, c.start.value, x);
      IncreasingOnce(Points(c), x);
    }
    if (exists k: nat :: x == Visit(c, c.start.value, k)) && x < c.end.value && !InBreak(c, x) {
      var k: nat :| x == Visit(c, c.start.value, k);
      PointsFromComplete(c, c.start.value, k);
    }
  }

  /** A list of times as the "HH:MM" strings the page shows. */
  function Render(p: seq<nat>): (r: seq<string>)
    requires forall i :: 0 <= i < |p| ==> p[i] < Clock.MinutesPerDay
  {
    seq(|p|, i requires 0 <= i < |p| => Clock.Format(p[i]))
  }

  lemma RenderCons(x: nat, p: seq<nat>)
    requires forall i :: 0 <= i < |p| ==> p[i] < Clock.MinutesPerDay
    requires x < Clock.MinutesPerDay
    ensures Render([x] + p) == [Clock.Format(x)] + Render(p)
  {
  }

  /** The strings the loop still shows once it has reached time `t`. */
  ghost function Remaining(c: Config, t: nat): seq<string>
    requires c.end.Some? && c.end.value <= Clock.MinutesPerDay && (t < c.end.value ==> c.duration > 0)
  {
    Render(PointsFrom(c, t))
  }

  /** One pass of the loop: the point `t` is shown unless it is in the break, and the
      rest is what the loop shows from the next point on. */
  lemma KeepStep(c: Config, t: nat)
    requires c.end.Some? && t < c.end.value <= Clock.MinutesPerDay && c.duration > 0
    ensures InBreak(c, t) ==> Remaining(c, t) == Remaining(c, t + c.duration)
    ensures !InBreak(c, t) ==> Remaining(c, t) == [Clock.Format(t)] + Remaining(c, t + c.duration)
  {
    var rest := PointsFrom(c, t + c.duration);
    if InBreak(c, t) {
      assert PointsFrom(c, t) == rest;
    } else {
      assert PointsFrom(c, t) == [t] + rest;
      RenderCons(t, rest);
    }
  }

  /** The slot strings of a stored configuration. */
  function SlotStrings(t: ConfigText): (r: seq<string>)
    requires Terminates(ParseConfig(t))
    ensures |r| == |Points(ParseConfig(t))| && forall i :: 0 <= i < |r| ==> |r[i]| == 5
  {
    Render(Points(ParseConfig(t)))
  }

  /** The slot strings come out in increasing text order, so they are distinct and sorted as
      the page lists them. */
  lemma SlotStringsIncreasing(t: ConfigText)
    requires Terminates(ParseConfig(t))
    ensures forall i, j :: 0 <= i < j < |SlotStrings(t)| ==> Lex.Less(SlotStrings(t)[i], SlotStrings(t)[j])
  {
    var p := Points(ParseConfig(t));
    forall i, j | 0 <= i < j < |p| ensures Lex.Less(SlotStrings(t)[i], SlotStrings(t)[j]) {
      Clock.FormatOrder(p[i], p[j]);
    }
  }

  /** No slot string names a time inside the break. */
  lemma SlotStringsSkipBreak(text: ConfigText, t: nat)
    requires Terminates(ParseConfig(text)) && t < Clock.MinutesPerDay && InBreak(ParseConfig(text), t)
    ensures Clock.Format(t) !in SlotStrings(text)
  {
  }

  /** The slot-generation loop, run on a configuration whose times have been read as dates
      (ParseConfig): starting at `start`, step by `duration` minutes, stop before
      `end`, and keep each point that is not inside the break. */
  method GenerateSlots(c: Config) returns (slots: seq<string>)
    requires Terminates(c) && (c.end.Some? ==> c.end.value <= Clock.MinutesPerDay)
    ensures slots == Render(Points(c))
  {
    slots := [];
    if c.start.None? || c.end.None? {
      // an invalid start or end date compares false, so the loop does not run
      return;
    }
    var current: nat := c.start.value;
    var endTime: nat := c.end.value;
    ghost var target := Render(Points(c));
    assert Remaining(c, current) == target;
    while current < endTime
      invariant slots + Remaining(c, current) == target
      decreases endTime - current
    {
      var isBreak := c.breakStart.Some? && c.breakEnd.Some? &&
                     current >= c.breakStart.value && current < c.breakEnd.value;
      assert isBreak == InBreak(c, current);
      KeepStep(c, current);
      ghost var rest := Remaining(c, current + c.duration);
      if !isBreak {
        assert slots + ([Clock.Format(current)] + rest) == (slots + [Clock.Format(current)]) + rest;
        slots := slots + [Clock.Format(current)];
      }
      assert slots + rest == target;
      current := current + c.duration;
    }
    assert Remaining(c, current) == [];
  }

  /** The default configuration read as dates: 09:00 is minute 540, 19:00 is 1140, and the
      break runs from 780 to 840. */
  lemma DefaultParsed()
    ensures ParseConfig(DefaultConfig) == Config(Some(540), Some(1140), Some(780), Some(840), 60)
  {
    assert Clock.ParseTime("09:00") == Some(540);
    assert Clock.ParseTime("19:00") == Some(1140);
    assert Clock.ParseTime("13:00") == Some(780);
    assert Clock.ParseTime("14:00") == Some(840);
  }

  /** The default configuration yields the nine hours 09:00 to 18:00 without 13:00. */
  lemma DefaultPoints()
    ensures Points(ParseConfig(DefaultConfig)) == [540, 600, 660, 720, 840, 900, 960, 1020, 1080]
  {
    DefaultParsed();
    DefaultGrid(ParseConfig(DefaultConfig));
  }

  lemma DefaultGrid(c: Config)
    requires c == Config(Some(540), Some(1140), Some(780), Some(840), 60)
    ensures Points(c) == [540, 600, 660, 720, 840, 900, 960, 1020, 1080]
  {
    BeforeBreak(c);
  }

  lemma BeforeBreak(c: Config)
    requires c == Config(Some(540), Some(1140), Some(780), Some(840), 60)
    ensures PointsFrom(c, 540) == [540, 600, 660, 720, 840, 900, 960, 1020, 1080]
  {
    AfterBreak(c);
    var rest := [840, 900, 960, 1020, 1080];
    assert PointsFrom(c, 720) == [720] + rest;
    assert PointsFrom(c, 660) == [660, 720] + rest;
    assert PointsFrom(c, 600) == [600, 660, 720] + rest;
  }

  lemma AfterBreak(c: Config)
    requires c == Config(Some(540), Some(1140), Some(780), Some(840), 60)
    ensures PointsFrom(c, 780) == [840, 900, 960, 1020, 1080]
  {
    assert PointsFrom(c, 1140) == [];
    assert PointsFrom(c, 1080) == [1080];
    assert PointsFrom(c, 1020) == [1020, 1080];
    assert PointsFrom(c, 960) == [960, 1020, 1080];
    assert PointsFrom(c, 900) == [900, 960, 1020, 1080];
    assert PointsFrom(c, 840) == [840, 900, 960, 1020, 1080];
  }
}
