/** The overview's 14-day uptime chart: daily windows, the intervals each one sees, and their average. */
module Overview {
  import opened Prelude
  import opened Zones

  type ServiceId = string

  const SERIES_DAYS := 14

  /** A stretch of one status; `endsAt` is NULL while it lasts. */
  datatype Interval = Interval(startsAt: int, endsAt: Option<int>, status: string)

  type Intervals = map<ServiceId, seq<Interval>>

  /** history.UptimePercent, which is not part of this model. */
  type Percent = (seq<Interval>, int, int) -> Option<real>

  /** How much of the interval lies in [from, to). */
  function Overlap(i: Interval, from: int, to: int): (length: int)
    ensures length >= 0
  {
    var end := if i.endsAt.Some? then Least(i.endsAt.value, to) else to;
    Greatest(0, end - Greatest(i.startsAt, from))
  }

  function TotalOverlap(intervals: seq<Interval>, from: int, to: int): int {
    if intervals == [] then 0 else Overlap(intervals[0], from, to) + TotalOverlap(intervals[1..], from, to)
  }

  predicate Keeps(i: Interval, from: int, to: int) {
    i.startsAt < to && (i.endsAt.Some? ==> i.endsAt.value > from)
  }

  function Kept(intervals: seq<Interval>, from: int, to: int): seq<Interval> {
    if intervals == [] then []
    else (if Keeps(intervals[0], from, to) then [intervals[0]] else []) + Kept(intervals[1..], from, to)
  }

  lemma {:induction false} KeptAppends(intervals: seq<Interval>, last: Interval, from: int, to: int)
    ensures Kept(intervals + [last], from, to)
      == Kept(intervals, from, to) + if Keeps(last, from, to) then [last] else []
    decreases |intervals|
  {
    if intervals == [] {
      assert intervals + [last] == [last];
    } else {
      var head := if Keeps(intervals[0], from, to) then [intervals[0]] else [];
      var tail := if Keeps(last, from, to) then [last] else [];
      KeptAppends(intervals[1..], last, from, to);
      assert (intervals + [last])[1..] == intervals[1..] + [last];
      assert Kept(intervals + [last], from, to) == head + (Kept(intervals[1..], from, to) + tail);
    }
  }

  /** The intervals that reach into [from, to), in the order given. */
  method IntervalsOverlapping(intervals: seq<Interval>, from: int, to: int) returns (out: seq<Interval>)
    ensures out == Kept(intervals, from, to)
  {
    out := [];
    for k := 0 to |intervals|
      invariant out == Kept(intervals[..k], from, to)
    {
      var i := intervals[k];
      KeptAppends(intervals[..k], i, from, to);
      assert intervals[..k + 1] == intervals[..k] + [i];
      if !(i.startsAt < to) { continue; }
      if i.endsAt.Some? && !(i.endsAt.value > from) { continue; }
      out := out + [i];
    }
    assert intervals[..|intervals|] == intervals;
  }

  /** Between proper intervals and windows, an interval is kept exactly when some of it lies in the window. */
  lemma KeptExactlyWhenItOverlaps(i: Interval, from: int, to: int)
    requires from < to && (i.endsAt.Some? ==> i.startsAt < i.endsAt.value)
    ensures Keeps(i, from, to) <==> Overlap(i, from, to) > 0
  {
  }

  /** Dropping the others loses nothing. */
  lemma {:induction false} KeepingLosesNothing(intervals: seq<Interval>, from: int, to: int)
    requires from <= to
    ensures TotalOverlap(Kept(intervals, from, to), from, to) == TotalOverlap(intervals, from, to)
    decreases |intervals|
  {
    if intervals != [] {
      KeepingLosesNothing(intervals[1..], from, to);
      var rest := Kept(intervals[1..], from, to);
      if Keeps(intervals[0], from, to) {
        assert ([intervals[0]] + rest)[1..] == rest;
      } else {
        assert [] + rest == rest;
      }
    }
  }

  lemma {:induction false} OverlapSplits(intervals: seq<Interval>, from: int, mid: int, to: int)
    requires from <= mid <= to
    ensures TotalOverlap(intervals, from, to) == TotalOverlap(intervals, from, mid) + TotalOverlap(intervals, mid, to)
    decreases |intervals|
  {
    if intervals != [] {
      OverlapSplits(intervals[1..], from, mid, to);
    }
  }

  // ---------------------------------------------------------------- average

  /** The percentages of the services that have data, in order. */
  function WithData(byService: Intervals, ids: seq<ServiceId>, from: int, to: int, percent: Percent): seq<real> {
    if ids == [] then []
    else
      var n := |ids| - 1;
      var p := percent(IntervalsOf(byService, ids[n]), from, to);
      WithData(byService, ids[..n], from, to, percent) + if p.Some? then [p.value] else []
  }

  function IntervalsOf(byService: Intervals, id: ServiceId): seq<Interval> {
    if id in byService then byService[id] else []
  }

  function Sum(s: seq<real>): real {
    if s == [] then 0.0 else Sum(s[..|s| - 1]) + s[|s| - 1]
  }

  /** `avg` is the mean of `percents` cut off after one decimal; no data gives no average. */
  ghost predicate AveragesTo(percents: seq<real>, avg: Option<real>) {
    && (avg.None? <==> percents == [])
    && (avg.Some? ==>
          && avg.value * 10.0 == (avg.value * 10.0).Floor as real
          && avg.value * (|percents| as real) <= Sum(percents) < (avg.value + 0.1) * (|percents| as real))
  }

  method SumWithData(byService: Intervals, ids: seq<ServiceId>, from: int, to: int, percent: Percent)
    returns (sum: real, n: nat)
    ensures n == |WithData(byService, ids, from, to, percent)|
    ensures sum == Sum(WithData(byService, ids, from, to, percent))
  {
    sum, n := 0.0, 0;
    ghost var seen := [];
    for k := 0 to |ids|
      invariant seen == WithData(byService, ids[..k], from, to, percent)
      invariant n == |seen| && sum == Sum(seen)
    {
      var p := percent(IntervalsOf(byService, ids[k]), from, to);
      WithDataAppends(byService, ids, k, from, to, percent);
      if p.Some? {
        SumAppends(seen, p.value);
        sum, n, seen := sum + p.value, n + 1, seen + [p.value];
      }
    }
    assert ids[..|ids|] == ids;
  }

  lemma WithDataAppends(byService: Intervals, ids: seq<ServiceId>, k: nat, from: int, to: int, percent: Percent)
    requires k < |ids|
    ensures var p := percent(IntervalsOf(byService, ids[k]), from, to);
            WithData(byService, ids[..k + 1], from, to, percent)
              == WithData(byService, ids[..k], from, to, percent) + if p.Some? then [p.value] else []
  {
    assert ids[..k + 1][..k] == ids[..k];
  }

  lemma SumAppends(s: seq<real>, x: real)
    ensures Sum(s + [x]) == Sum(s) + x
  {
    assert (s + [x])[..|s|] == s;
  }

  /** Services without data count neither as zero nor as anything else. */
  method AverageUptime(byService: Intervals, ids: seq<ServiceId>, from: int, to: int, percent: Percent)
    returns (avg: Option<real>)
    ensures AveragesTo(WithData(byService, ids, from, to, percent), avg)
  {
    var sum, n := SumWithData(byService, ids, from, to, percent);
    if n == 0 { return None; }
    var floored := (sum / (n as real) * 10.0).Floor as real / 10.0;
    FlooredMean(sum, n, sum / (n as real), floored);
    return Some(floored);
  }

  lemma ScaleKeepsOrder(a: real, b: real, n: real)
    requires a <= b && n > 0.0
    ensures a * n <= b * n
    ensures a < b ==> a * n < b * n
  {
    assert (b - a) * n == b * n - a * n;
  }

  lemma FlooredMean(sum: real, n: nat, mean: real, floored: real)
    requires n > 0 && mean == sum / (n as real) && floored == (mean * 10.0).Floor as real / 10.0
    ensures floored * 10.0 == (floored * 10.0).Floor as real
    ensures floored * (n as real) <= sum < (floored + 0.1) * (n as real)
  {
    assert floored * 10.0 == (mean * 10.0).Floor as real;
    assert floored <= mean < floored + 0.1;
    assert mean * (n as real) == sum;
    ScaleKeepsOrder(floored, mean, n as real);
    ScaleKeepsOrder(mean, floored + 0.1, n as real);
  }

  // ---------------------------------------------------------------- series

  /** One day of the chart, with the intervals its average was computed from. */
  datatype Bucket = Bucket(from: int, to: int, intervals: Intervals, uptime: Option<real>)

  /** Local midnight exists, once, every day. */
  ghost predicate MidnightZone(z: Zone) {
    forall day :: HasMidnight(z, day)
  }

  ghost predicate HasMidnight(z: Zone, day: int) {
    ShownOnce(z, day * DAY)
  }

  function MidnightOf(z: Zone, day: int): int {
    z.date(day * DAY)
  }

  lemma AddDaysToMidnight(z: Zone, day: int, days: int)
    requires HasMidnight(z, day)
    ensures AddDays(MidnightOf(z, day), days, z) == MidnightOf(z, day + days)
  {
    assert day * DAY + days * DAY == (day + days) * DAY;
  }

  lemma MidnightsIncrease(z: Zone, now: int, day: int)
    requires MidnightZone(z)
    ensures MidnightOf(z, day) < MidnightOf(z, day + 1)
    ensures day == DayOf(Wall(z, now)) ==> MidnightOf(z, day) <= now < MidnightOf(z, day + 1)
  {
    assert HasMidnight(z, day) && HasMidnight(z, day + 1);
    ReadingsKeepOrder(z, day * DAY, (day + 1) * DAY);
  }

  /** A day computed from the intervals that reach into it, and from nothing else. */
  ghost predicate ComputedAlone(day: Bucket, from: int, to: int,
                          byService: Intervals, ids: seq<ServiceId>, percent: Percent) {
    && day.from == from && day.to == to
    && (forall id :: id in ids ==> IntervalsOf(day.intervals, id) == Kept(IntervalsOf(byService, id), from, to))
    && AveragesTo(WithData(day.intervals, ids, from, to, percent), day.uptime)
  }

  /** The end of day number `i` of the chart: the next midnight, or for the last day now. */
  function EndOfDay(z: Zone, first: int, now: int, i: nat): int {
    if i == SERIES_DAYS - 1 then now else MidnightOf(z, first + i + 1)
  }

  /** The first `n` buckets are the local days from `first` on. */
  ghost predicate Daily(series: seq<Bucket>, z: Zone, first: int, now: int, n: nat,
                        byService: Intervals, ids: seq<ServiceId>, percent: Percent) {
    && n <= |series| == SERIES_DAYS
    && forall i :: 0 <= i < n ==>
         ComputedAlone(series[i], MidnightOf(z, first + i), EndOfDay(z, first, now, i), byService, ids, percent)
  }

  method BuildDay(byService: Intervals, ids: seq<ServiceId>, from: int, to: int, percent: Percent)
    returns (day: Bucket)
    ensures ComputedAlone(day, from, to, byService, ids, percent)
  {
    var dayIntervals := ScopeToDay(byService, ids, from, to);
    var uptime := AverageUptime(dayIntervals, ids, from, to, percent);
    return Bucket(from, to, dayIntervals, uptime);
  }

  /** Fourteen local days, oldest first, the last one running up to `now`. */
  method BuildUptimeSeries(byService: Intervals, ids: seq<ServiceId>, now: int, z: Zone, percent: Percent)
    returns (series: array<Bucket>)
    requires MidnightZone(z)
    ensures Daily(series[..], z, DayOf(Wall(z, now)) - (SERIES_DAYS - 1), now, SERIES_DAYS, byService, ids, percent)
    ensures series.Length == 14 && series[0].from == MidnightOf(z, DayOf(Wall(z, now)) - 13) && series[13].to == now
  {
    series := new Bucket[SERIES_DAYS](_ => Bucket(0, 0, map[], None));
    var todayStart := z.date(DayOf(Wall(z, now)) * DAY);
    var firstDayStart := AddDays(todayStart, -(SERIES_DAYS - 1), z);
    ghost var first := DayOf(Wall(z, now)) - (SERIES_DAYS - 1);
    assert HasMidnight(z, first) && HasMidnight(z, DayOf(Wall(z, now)));
    AddDaysToMidnight(z, DayOf(Wall(z, now)), -(SERIES_DAYS - 1));
    for i := 0 to SERIES_DAYS
      invariant Daily(series[..], z, first, now, i, byService, ids, percent)
    {
      AddDaysToMidnight(z, first, i);
      assert HasMidnight(z, first + i);
      AddDaysToMidnight(z, first + i, 1);
      var dayStart := AddDays(firstDayStart, i, z);
      var dayEnd := AddDays(dayStart, 1, z);
      if i == SERIES_DAYS - 1 { dayEnd := now; }
      var day := BuildDay(byService, ids, dayStart, dayEnd, percent);
      DailyExtends(series[..], day, z, first, now, i, byService, ids, percent);
      series[i] := day;
    }
  }

  lemma DailyExtends(series: seq<Bucket>, day: Bucket, z: Zone, first: int, now: int, n: nat,
                     byService: Intervals, ids: seq<ServiceId>, percent: Percent)
    requires Daily(series, z, first, now, n, byService, ids, percent) && n < SERIES_DAYS
    requires ComputedAlone(day, MidnightOf(z, first + n), EndOfDay(z, first, now, n), byService, ids, percent)
    ensures Daily(series[n := day], z, first, now, n + 1, byService, ids, percent)
  {
  }

  method ScopeToDay(byService: Intervals, ids: seq<ServiceId>, from: int, to: int)
    returns (day: Intervals)
    ensures forall id :: id in ids ==> IntervalsOf(day, id) == Kept(IntervalsOf(byService, id), from, to)
  {
    day := map[];
    for k := 0 to |ids|
      invariant forall j :: 0 <= j < k ==> IntervalsOf(day, ids[j]) == Kept(IntervalsOf(byService, ids[j]), from, to)
    {
      var kept := IntervalsOverlapping(IntervalsOf(byService, ids[k]), from, to);
      day := day[ids[k] := kept];
    }
  }

  /** The windows tile: each bucket ends where the next begins, and the last one, today's, ends now. */
  lemma BucketsTile(series: seq<Bucket>, z: Zone, now: int,
                    byService: Intervals, ids: seq<ServiceId>, percent: Percent)
    requires MidnightZone(z)
    requires Daily(series, z, DayOf(Wall(z, now)) - (SERIES_DAYS - 1), now, SERIES_DAYS, byService, ids, percent)
    ensures forall i :: 0 <= i < SERIES_DAYS - 1 ==> series[i].from < series[i].to == series[i + 1].from
    ensures series[SERIES_DAYS - 1].from <= series[SERIES_DAYS - 1].to == now
  {
    var first := DayOf(Wall(z, now)) - (SERIES_DAYS - 1);
    forall i | 0 <= i < SERIES_DAYS - 1 ensures series[i].from < series[i].to == series[i + 1].from {
      MidnightsIncrease(z, now, first + i);
    }
    MidnightsIncrease(z, now, first + SERIES_DAYS - 1);
  }

  /** The overlap of one service's bucketed intervals with their own buckets, summed over the first `n` days. */
  function BucketedOverlap(series: seq<Bucket>, id: ServiceId, n: nat): int
    requires n <= |series|
  {
    if n == 0 then 0
    else
      var day := series[n - 1];
      BucketedOverlap(series, id, n - 1) + TotalOverlap(IntervalsOf(day.intervals, id), day.from, day.to)
  }

  /**
   Nothing is lost and nothing counted twice: for every service and every set of
   intervals, the time its intervals spend in the fourteen buckets adds up to
   the time they spend in the whole window.
   */
  lemma BucketsConserveTime(series: seq<Bucket>, z: Zone, now: int,
                            byService: Intervals, ids: seq<ServiceId>, percent: Percent, id: ServiceId)
    requires MidnightZone(z) && id in ids
    requires Daily(series, z, DayOf(Wall(z, now)) - (SERIES_DAYS - 1), now, SERIES_DAYS, byService, ids, percent)
    ensures BucketedOverlap(series, id, SERIES_DAYS) == TotalOverlap(IntervalsOf(byService, id), series[0].from, now)
  {
    BucketsTile(series, z, now, byService, ids, percent);
    PrefixConservesTime(series, IntervalsOf(byService, id), id, SERIES_DAYS);
  }

  lemma {:induction false} PrefixConservesTime(series: seq<Bucket>, intervals: seq<Interval>, id: ServiceId, n: nat)
    requires 0 < n <= |series|
    requires forall i :: 0 <= i < n ==>
      && series[i].from <= series[i].to
      && IntervalsOf(series[i].intervals, id) == Kept(intervals, series[i].from, series[i].to)
    requires forall i :: 0 <= i < n - 1 ==> series[i].to == series[i + 1].from
    ensures series[0].from <= series[n - 1].to
    ensures BucketedOverlap(series, id, n) == TotalOverlap(intervals, series[0].from, series[n - 1].to)
  {
    KeepingLosesNothing(intervals, series[n - 1].from, series[n - 1].to);
    if n > 1 {
      PrefixConservesTime(series, intervals, id, n - 1);
      OverlapSplits(intervals, series[0].from, series[n - 1].from, series[n - 1].to);
    } else {
      assert BucketedOverlap(series, id, 0) == 0;
    }
  }
}
