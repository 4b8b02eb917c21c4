/** `tstamps_for_daterange` of the image stacks. Instants are whole minutes
    on one uniform scale (naive datetimes, so a day is always 1440
    minutes). The current package has one image per day; the older
    packages have eight per day, three hours apart. */
module Timestamps {

  const Day: int := 1440

  /** `img_offsets`: 0, 3, ..., 21 hours. */
  const Offsets: seq<int> := [0, 180, 360, 540, 720, 900, 1080, 1260]

  /** The daily list: `start` first, then one day later as long as that is
      not after `end`. */
  function DailyCount(start: int, end: int): (n: nat)
    ensures n >= 1
  {
    if end < start then 1 else (end - start) / Day + 1
  }

  function Daily(start: int, end: int): (ts: seq<int>)
  {
    seq(DailyCount(start, end), (i: int) => start + i * Day)
  }

  /** The loop of the current package: `timestamps = [start_date]`, and
      while the day after the last one is not after `end_date`, append it. */
  method DailyTimestamps(start: int, end: int) returns (ts: seq<int>)
    ensures ts == Daily(start, end)
  {
    ts := [start];
    while ts[|ts| - 1] + Day <= end
      invariant |ts| >= 1
      invariant forall i :: 0 <= i < |ts| ==> ts[i] == start + i * Day
      invariant |ts| == 1 || ts[|ts| - 1] <= end
      decreases end - ts[|ts| - 1]
    {
      ts := ts + [ts[|ts| - 1] + Day];
    }
    DailyStop(start, end, |ts|);
  }

  /** The loop stops exactly at the closed-form count. */
  lemma DailyStop(start: int, end: int, n: int)
    requires n >= 1
    requires n == 1 || start + (n - 1) * Day <= end
    requires end < start + (n - 1) * Day + Day
    ensures n == DailyCount(start, end)
  {
    if start <= end {
      var q := (end - start) / Day;
      assert q * Day <= end - start < q * Day + Day;
      assert (n - 1) * Day <= end - start < (n - 1) * Day + Day;
    }
  }

  /** What the daily list promises: it starts at `start`, steps by one day,
      every later entry is within the range, and one more day would pass
      `end`. A start after the end still yields the start. */
  lemma DailyProperties(start: int, end: int)
    ensures |Daily(start, end)| >= 1 && Daily(start, end)[0] == start
    ensures forall i :: 0 < i < |Daily(start, end)| ==> Daily(start, end)[i] == Daily(start, end)[i - 1] + Day
    ensures forall i :: 0 < i < |Daily(start, end)| ==> start < Daily(start, end)[i] <= end
    ensures Daily(start, end)[|Daily(start, end)| - 1] + Day > end
    ensures end < start ==> Daily(start, end) == [start]
  {
    var ts := Daily(start, end);
    var n := |ts|;
    if start <= end {
      var q := (end - start) / Day;
      assert q * Day <= end - start;
      forall i | 0 < i < n
        ensures start < ts[i] <= end
      {
        assert i * Day <= q * Day;
      }
    }
  }

  /** An instant is listed exactly when it is the start, or lies in the
      range a whole number of days after the start. */
  lemma {:induction false} DailyMembership(start: int, end: int, t: int)
    ensures t in Daily(start, end) <==> t == start || (start <= t <= end && (t - start) % Day == 0)
  {
    var ts := Daily(start, end);
    if t in ts {
      var i :| 0 <= i < |ts| && ts[i] == t;
      DailyProperties(start, end);
      assert t - start == i * Day;
    }
    if start <= t <= end && (t - start) % Day == 0 {
      var i := (t - start) / Day;
      assert t == start + i * Day;
      assert i <= (end - start) / Day;
      assert ts[i] == t;
    }
  }

  /** `diff.days + 1` iterations, where `diff.days` rounds the difference
      down to whole days; none when the end is before the start. */
  function DayCount(start: int, end: int): (n: nat)
  {
    if end < start then 0 else (end - start) / Day + 1
  }

  /** The three-hourly list: for every day counted from `start`, the eight
      offsets added to that day. */
  function ThreeHourly(start: int, end: int): (ts: seq<int>)
  {
    seq(8 * DayCount(start, end), (k: int) requires 0 <= k => start + (k / 8) * Day + Offsets[k % 8])
  }

  /** The loop of the older packages: for each of the `diff.days + 1`
      days, the eight offsets added to the day are appended. */
  method ThreeHourlyTimestamps(start: int, end: int) returns (ts: seq<int>)
    ensures ts == ThreeHourly(start, end)
  {
    ts := [];
    var days := (end - start) / Day + 1;
    var i := 0;
    while i < days
      invariant 0 <= i <= (if days < 0 then 0 else days)
      invariant |ts| == 8 * i
      invariant forall k :: 0 <= k < |ts| ==> ts[k] == start + (k / 8) * Day + Offsets[k % 8]
    {
      var daily := seq(8, (j: int) requires 0 <= j < 8 => start + i * Day + Offsets[j]);
      forall k | 8 * i <= k < 8 * i + 8
        ensures k / 8 == i && k % 8 == k - 8 * i
      {
      }
      ts := ts + daily;
      i := i + 1;
    }
    if end < start {
      assert (end - start) / Day < 0;
    }
    assert i == DayCount(start, end);
  }

  /** What the three-hourly list promises: eight entries per counted day,
      three hours apart throughout, starting at `start`, covering every
      day up to the one that contains `end` (so the last entries of that
      day may lie after `end`). */
  lemma ThreeHourlyProperties(start: int, end: int)
    ensures |ThreeHourly(start, end)| == 8 * DayCount(start, end)
    ensures forall k :: 0 < k < |ThreeHourly(start, end)| ==>
      ThreeHourly(start, end)[k] == ThreeHourly(start, end)[k - 1] + 180
    ensures end < start <==> ThreeHourly(start, end) == []
    ensures start <= end ==> ThreeHourly(start, end)[0] == start
    ensures start <= end ==> var n := DayCount(start, end);
      start + (n - 1) * Day <= end < start + n * Day &&
      ThreeHourly(start, end)[8 * n - 1] == start + (n - 1) * Day + 1260
  {
    var ts := ThreeHourly(start, end);
    forall k | 0 < k < |ts|
      ensures ts[k] == ts[k - 1] + 180
    {
      if k % 8 == 0 {
        assert (k - 1) / 8 == k / 8 - 1 && (k - 1) % 8 == 7;
      } else {
        assert (k - 1) / 8 == k / 8 && (k - 1) % 8 == k % 8 - 1;
      }
    }
    if start <= end {
      var n := DayCount(start, end);
      var q := (end - start) / Day;
      assert q * Day <= end - start < q * Day + Day;
      assert (8 * n - 1) / 8 == n - 1 && (8 * n - 1) % 8 == 7;
    }
  }

  /** The packages' tests: two consecutive days give two daily images; a
      single day gives the eight images at 0, 3, ..., 21 hours. */
  lemma TestedRanges(t: int)
    ensures Daily(t, t + Day) == [t, t + Day]
    ensures ThreeHourly(t, t) == [t, t + 180, t + 360, t + 540, t + 720, t + 900, t + 1080, t + 1260]
  {
  }
}
