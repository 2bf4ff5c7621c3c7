/**
  The data side of the time-trending chart: every raw (instant, count) pair is
  snapped to an axis day on the lattice that ends at the upper bound, and the
  counts are summed per axis day.
*/
module TrendingChart {

  import JavaMath
  import opened DateUtil
  import opened ChartGenerator

  /**
    `getAxisDate`: the axis day a date is counted on. The date loses its time of day,
    and is then moved forward by the Java remainder of its distance in days to the
    upper bound. The quotient is already truncated by Java's long division, so the
    `Math.ceil` around it changes nothing. The remainder takes the sign of the
    distance, so a date after the upper bound moves backward instead.
  */
  function GetAxisDate(date: int, upperBound: int, dateInterval: int): (axisDate: int)
    requires dateInterval > 0
    ensures IsMidnight(axisDate)
  {
    var timelessDate := RemoveDateTime(date);
    var diffMilli := upperBound - timelessDate;
    var diffDays := JavaMath.Div(diffMilli, 1000 * 60 * 60 * 24);
    var offset := JavaMath.Rem(diffDays, dateInterval) * (1000 * 60 * 60 * 24);
    timelessDate + offset
  }

  /** Both ends are midnights, so the day count has no fraction to truncate. */
  lemma DayDifferenceExact(date: int, upperBound: int)
    requires IsMidnight(upperBound)
    ensures JavaMath.Div(upperBound - RemoveDateTime(date), MsPerDay) * MsPerDay
            == upperBound - RemoveDateTime(date)
  {
  }

  /**
    The axis day differs from the upper bound by a whole number of intervals: it is
    a tick of the lattice that ends at the upper bound.
  */
  lemma AxisDateOnLattice(date: int, upperBound: int, dateInterval: int)
    requires dateInterval > 0 && IsMidnight(upperBound)
    ensures OnLattice(upperBound, dateInterval, GetAxisDate(date, upperBound, dateInterval))
  {
    var axisDate := GetAxisDate(date, upperBound, dateInterval);
    DayDifferenceExact(date, upperBound);
    var d := JavaMath.Div(upperBound - RemoveDateTime(date), MsPerDay);
    var r := JavaMath.Rem(d, dateInterval);
    JavaMath.ModZeroIsMultiple(d - r, dateInterval);
    var k := (d - r) / dateInterval;
    assert axisDate - upperBound == (dateInterval * MsPerDay) * -k;
    JavaMath.MultipleModZero(-k, dateInterval * MsPerDay);
  }

  /**
    A date whose day is not after the upper bound is counted on its own day or on
    one of the `dateInterval - 1` days after it, never after the upper bound.
  */
  lemma AxisDateWindowPast(date: int, upperBound: int, dateInterval: int)
    requires dateInterval > 0 && IsMidnight(upperBound)
    requires RemoveDateTime(date) <= upperBound
    ensures var day, axisDate := RemoveDateTime(date), GetAxisDate(date, upperBound, dateInterval);
      day <= axisDate <= day + (dateInterval - 1) * MsPerDay && axisDate <= upperBound
  {
    DayDifferenceExact(date, upperBound);
    var d := JavaMath.Div(upperBound - RemoveDateTime(date), MsPerDay);
    var r := JavaMath.Rem(d, dateInterval);
    JavaMath.MultipleAboveNegIsNonneg(d - r, dateInterval);
  }

  /**
    A date whose day is after the upper bound gets a non-positive remainder, so it is
    counted on its own day or on one of the `dateInterval - 1` days before it, never
    before the upper bound.
  */
  lemma AxisDateWindowFuture(date: int, upperBound: int, dateInterval: int)
    requires dateInterval > 0 && IsMidnight(upperBound)
    requires RemoveDateTime(date) > upperBound
    ensures var day, axisDate := RemoveDateTime(date), GetAxisDate(date, upperBound, dateInterval);
      day - (dateInterval - 1) * MsPerDay <= axisDate <= day && upperBound <= axisDate
  {
    DayDifferenceExact(date, upperBound);
    var d := JavaMath.Div(upperBound - RemoveDateTime(date), MsPerDay);
    var r := JavaMath.Rem(d, dateInterval);
    JavaMath.MultipleSum(0, d - r, dateInterval);
    JavaMath.MultipleAboveNegIsNonneg(r - d, dateInterval);
  }

  /**
    For a date not after the upper bound, the axis day is the earliest tick on or
    after the date's day.
  */
  lemma AxisDateIsNextTick(date: int, upperBound: int, dateInterval: int, t: int)
    requires dateInterval > 0 && IsMidnight(upperBound)
    requires RemoveDateTime(date) <= upperBound
    requires OnLattice(upperBound, dateInterval, t) && t >= RemoveDateTime(date)
    ensures GetAxisDate(date, upperBound, dateInterval) <= t
  {
    var axisDate := GetAxisDate(date, upperBound, dateInterval);
    AxisDateOnLattice(date, upperBound, dateInterval);
    AxisDateWindowPast(date, upperBound, dateInterval);
    OnLatticeDiff(upperBound, dateInterval, axisDate, t);
    JavaMath.MultipleAboveNegIsNonneg(t - axisDate, dateInterval * MsPerDay);
  }

  /**
    For a date after the upper bound, the axis day is the latest tick on or before
    the date's day.
  */
  lemma AxisDateIsPreviousTick(date: int, upperBound: int, dateInterval: int, t: int)
    requires dateInterval > 0 && IsMidnight(upperBound)
    requires RemoveDateTime(date) > upperBound
    requires OnLattice(upperBound, dateInterval, t) && t <= RemoveDateTime(date)
    ensures t <= GetAxisDate(date, upperBound, dateInterval)
  {
    var axisDate := GetAxisDate(date, upperBound, dateInterval);
    AxisDateOnLattice(date, upperBound, dateInterval);
    AxisDateWindowFuture(date, upperBound, dateInterval);
    OnLatticeDiff(upperBound, dateInterval, t, axisDate);
    JavaMath.MultipleAboveNegIsNonneg(axisDate - t, dateInterval * MsPerDay);
  }

  /**
    The axis days are exactly the midnights on the lattice: such a day is its own axis
    day, and every axis day is one of them.
  */
  lemma AxisDateFixedPoints(t: int, upperBound: int, dateInterval: int)
    requires dateInterval > 0 && IsMidnight(upperBound)
    ensures GetAxisDate(t, upperBound, dateInterval) == t
            <==> IsMidnight(t) && OnLattice(upperBound, dateInterval, t)
  {
    if IsMidnight(t) && OnLattice(upperBound, dateInterval, t) {
      MidnightFixed(t);
      DayDifferenceExact(t, upperBound);
      var d := JavaMath.Div(upperBound - t, MsPerDay);
      JavaMath.MultipleSum(0, t - upperBound, dateInterval * MsPerDay);
      JavaMath.ModZeroIsMultiple(upperBound - t, dateInterval * MsPerDay);
      var k := (upperBound - t) / (dateInterval * MsPerDay);
      assert d == dateInterval * k;
      JavaMath.MultipleModZero(k, dateInterval);
      JavaMath.MultipleSum(0, d, dateInterval);
    } else {
      AxisDateOnLattice(t, upperBound, dateInterval);
    }
  }

  /** Snapping an axis day again leaves it where it is; the upper bound is its own axis day. */
  lemma AxisDateIdempotent(date: int, upperBound: int, dateInterval: int)
    requires dateInterval > 0 && IsMidnight(upperBound)
    ensures var axisDate := GetAxisDate(date, upperBound, dateInterval);
      GetAxisDate(axisDate, upperBound, dateInterval) == axisDate
    ensures GetAxisDate(upperBound, upperBound, dateInterval) == upperBound
  {
    AxisDateOnLattice(date, upperBound, dateInterval);
    AxisDateFixedPoints(GetAxisDate(date, upperBound, dateInterval), upperBound, dateInterval);
    JavaMath.MultipleModZero(0, dateInterval * MsPerDay);
    AxisDateFixedPoints(upperBound, upperBound, dateInterval);
  }

  /**
    With a seven-day interval and upper bound 2024-01-31 (UTC), 2024-01-10 is its own
    axis day, while 2024-01-11 in the afternoon is counted on 2024-01-17.
  */
  lemma AxisDateExample()
    ensures GetAxisDate(1704844800000, 1706659200000, 7) == 1704844800000
    ensures GetAxisDate(1704931200000 + 55800000, 1706659200000, 7) == 1705449600000
  {
    RemoveDateTimeUnique(1704844800000, 1704844800000);
    assert JavaMath.Div(1814400000, MsPerDay) == 21;
    assert JavaMath.Rem(21, 7) == 0;
    RemoveDateTimeUnique(1704931200000 + 55800000, 1704931200000);
    assert JavaMath.Div(1728000000, MsPerDay) == 20;
    assert JavaMath.Rem(20, 7) == 6;
  }

  /**
    The axis days the data are counted on are ticks of the date axis built from the
    lower bound, so every point of the series sits on a labelled tick:
    `nextStandardDate` maps each of them, once past the walk's start, to itself.
  */
  lemma AxisDateIsAxisTick(date: int, dataRange: int, dateInterval: int, upperBound: int)
    requires dateInterval > 0 && IsMidnight(upperBound)
    ensures var lowerBound := GetLowerBound(dataRange, dateInterval, upperBound);
      var axisDate := GetAxisDate(date, upperBound, dateInterval);
      && OnLattice(lowerBound, dateInterval, axisDate)
      && (axisDate > TickAnchor(lowerBound, dateInterval) ==>
            PrevTick(TickAnchor(lowerBound, dateInterval), dateInterval, axisDate)
              + dateInterval * MsPerDay == axisDate)
  {
    var lowerBound := GetLowerBound(dataRange, dateInterval, upperBound);
    var axisDate := GetAxisDate(date, upperBound, dateInterval);
    var anchor := TickAnchor(lowerBound, dateInterval);
    TickAnchorOfMidnight(lowerBound, dateInterval);
    AxisDateOnLattice(date, upperBound, dateInterval);
    JavaMath.MultipleModZero(0, dateInterval * MsPerDay);
    OnLatticeDiff(upperBound, dateInterval, upperBound, axisDate);
    OnLatticeDiff(lowerBound, dateInterval, upperBound, lowerBound);
    OnLatticeDiff(upperBound, dateInterval, lowerBound, axisDate);
    OnLatticeStep(lowerBound, dateInterval, lowerBound);
    OnLatticeDiff(lowerBound, dateInterval, anchor, axisDate);
    if axisDate > anchor {
      TickIsFixedByNext(anchor, dateInterval, axisDate);
    }
  }

  // ---------------------------------------------------------------------------
  // Aggregation

  /**
    The pairs `generateChart` visits: dates and counts zipped by position, as many as
    the shorter list holds; the rest of the longer list is ignored.
  */
  function Zip(dates: seq<int>, counts: seq<int>): (pairs: seq<(int, int)>)
    ensures |pairs| <= |dates| && |pairs| <= |counts|
    ensures |pairs| == |dates| || |pairs| == |counts|
    ensures forall i :: 0 <= i < |pairs| ==> pairs[i] == (dates[i], counts[i])
  {
    var length := if |dates| <= |counts| then |dates| else |counts|;
    seq(length, i requires 0 <= i < length => (dates[i], counts[i]))
  }

  /** Entries past the shorter list's end do not change the pairs. */
  lemma ZipIgnoresTail(dates: seq<int>, counts: seq<int>, extraDates: seq<int>, extraCounts: seq<int>)
    ensures |dates| >= |counts| ==> Zip(dates + extraDates, counts) == Zip(dates, counts)
    ensures |counts| >= |dates| ==> Zip(dates, counts + extraCounts) == Zip(dates, counts)
  {
  }

  /**
    One step of the loop: the map's total for `day` grows by `count`, starting from
    `count` alone when the day has no total yet (the `containsKey`/`put` pair).
  */
  function AddCount(dayCounts: map<int, int>, day: int, count: int): (updated: map<int, int>)
    ensures updated.Keys == dayCounts.Keys + {day}
    ensures updated[day] == (if day in dayCounts then dayCounts[day] else 0) + count
    ensures forall k :: k in dayCounts && k != day ==> updated[k] == dayCounts[k]
  {
    if day !in dayCounts then dayCounts[day := count]
    else dayCounts[day := dayCounts[day] + count]
  }

  /** The map after the loop has folded in the pairs `ps`, first to last. */
  function Aggregate(ps: seq<(int, int)>, upperBound: int, dateInterval: int): map<int, int>
    requires dateInterval > 0
  {
    if ps == [] then map[]
    else
      var last := ps[|ps| - 1];
      AddCount(Aggregate(ps[..|ps| - 1], upperBound, dateInterval),
               GetAxisDate(last.0, upperBound, dateInterval), last.1)
  }

  /** The sum of the counts of the pairs in `ps` whose axis day is `day`. */
  function CountOn(ps: seq<(int, int)>, upperBound: int, dateInterval: int, day: int): int
    requires dateInterval > 0
  {
    if ps == [] then 0
    else
      var last := ps[|ps| - 1];
      CountOn(ps[..|ps| - 1], upperBound, dateInterval, day)
        + (if GetAxisDate(last.0, upperBound, dateInterval) == day then last.1 else 0)
  }

  /** The sum of all counts in `ps`. */
  function Total(ps: seq<(int, int)>): int {
    if ps == [] then 0 else Total(ps[..|ps| - 1]) + ps[|ps| - 1].1
  }

  /** The sum of all values of a map. */
  ghost function MapSum(m: map<int, int>): int
    decreases |m|
  {
    if m == map[] then 0
    else
      var k := AnyKey(m);
      m[k] + MapSum(m - {k})
  }

  /** Some key of a non-empty map. */
  ghost function AnyKey(m: map<int, int>): (k: int)
    requires m != map[]
    ensures k in m
  {
    EmptyOrHasKey(m);
    var k :| k in m;
    k
  }

  /** A map without keys is the empty map. */
  lemma EmptyOrHasKey(m: map<int, int>)
    ensures m == map[] || exists k :: k in m
  {
    if forall k :: k !in m {
      assert m.Keys == {};
    }
  }

  /** `MapSum` may take out any key first. */
  lemma MapSumRemove(m: map<int, int>, k: int)
    requires k in m
    ensures MapSum(m) == m[k] + MapSum(m - {k})
    decreases |m|
  {
    var j := AnyKey(m);
    if j != k {
      MapSumRemove(m - {j}, k);
      MapSumRemove(m - {k}, j);
      assert m - {j} - {k} == m - {k} - {j};
    }
  }

  /**
    After the loop the map's keys are exactly the axis days of the processed dates.
  */
  lemma {:induction false} AggregateKeys(ps: seq<(int, int)>, upperBound: int, dateInterval: int)
    requires dateInterval > 0
    ensures Aggregate(ps, upperBound, dateInterval).Keys
            == set p | p in ps :: GetAxisDate(p.0, upperBound, dateInterval)
  {
    if ps != [] {
      var init, last := ps[..|ps| - 1], ps[|ps| - 1];
      AggregateKeys(init, upperBound, dateInterval);
      assert ps == init + [last];
      assert (set p | p in ps :: GetAxisDate(p.0, upperBound, dateInterval))
          == (set p | p in init :: GetAxisDate(p.0, upperBound, dateInterval))
             + {GetAxisDate(last.0, upperBound, dateInterval)};
    }
  }

  /**
    Each day's value is the sum of the counts of the pairs whose dates snap to it,
    and a day with no entry has no counts.
  */
  lemma {:induction false} AggregateValues(ps: seq<(int, int)>, upperBound: int, dateInterval: int, day: int)
    requires dateInterval > 0
    ensures day in Aggregate(ps, upperBound, dateInterval) ==>
              Aggregate(ps, upperBound, dateInterval)[day] == CountOn(ps, upperBound, dateInterval, day)
    ensures day !in Aggregate(ps, upperBound, dateInterval) ==>
              CountOn(ps, upperBound, dateInterval, day) == 0
  {
    if ps != [] {
      AggregateValues(ps[..|ps| - 1], upperBound, dateInterval, day);
    }
  }

  /** Nothing is lost or added: the map's values add up to the sum of the processed counts. */
  lemma {:induction false} AggregateTotal(ps: seq<(int, int)>, upperBound: int, dateInterval: int)
    requires dateInterval > 0
    ensures MapSum(Aggregate(ps, upperBound, dateInterval)) == Total(ps)
  {
    if ps != [] {
      var init, last := ps[..|ps| - 1], ps[|ps| - 1];
      var m := Aggregate(init, upperBound, dateInterval);
      var day := GetAxisDate(last.0, upperBound, dateInterval);
      var m' := AddCount(m, day, last.1);
      AggregateTotal(init, upperBound, dateInterval);
      MapSumRemove(m', day);
      assert m' - {day} == m - {day};
      if day in m {
        MapSumRemove(m, day);
      } else {
        assert m - {day} == m;
      }
    }
  }

  /** Counting a concatenation counts each part. */
  lemma {:induction false} CountOnConcat(a: seq<(int, int)>, b: seq<(int, int)>, upperBound: int, dateInterval: int, day: int)
    requires dateInterval > 0
    ensures CountOn(a + b, upperBound, dateInterval, day)
            == CountOn(a, upperBound, dateInterval, day) + CountOn(b, upperBound, dateInterval, day)
    decreases |b|
  {
    if b == [] {
      assert a + b == a;
    } else {
      var init := b[..|b| - 1];
      CountOnConcat(a, init, upperBound, dateInterval, day);
      assert (a + b)[..|a + b| - 1] == a + init;
    }
  }

  /** Taking one pair out of a sequence takes its contribution out of the day's count. */
  lemma CountOnRemoveAt(qs: seq<(int, int)>, j: int, upperBound: int, dateInterval: int, day: int)
    requires dateInterval > 0 && 0 <= j < |qs|
    ensures CountOn(qs, upperBound, dateInterval, day)
            == CountOn(qs[..j] + qs[j + 1..], upperBound, dateInterval, day)
               + CountOn([qs[j]], upperBound, dateInterval, day)
  {
    assert qs == qs[..j] + qs[j..];
    assert qs[j..] == [qs[j]] + qs[j + 1..];
    CountOnConcat(qs[..j], qs[j..], upperBound, dateInterval, day);
    CountOnConcat([qs[j]], qs[j + 1..], upperBound, dateInterval, day);
    CountOnConcat(qs[..j], qs[j + 1..], upperBound, dateInterval, day);
  }

  /** Removing the same element from two permutations of each other leaves permutations. */
  lemma MultisetRemoveAt(ps: seq<(int, int)>, qs: seq<(int, int)>, j: int)
    requires ps != [] && 0 <= j < |qs| && qs[j] == ps[|ps| - 1]
    requires multiset(ps) == multiset(qs)
    ensures multiset(ps[..|ps| - 1]) == multiset(qs[..j] + qs[j + 1..])
  {
    var x, init, rest := qs[j], ps[..|ps| - 1], qs[..j] + qs[j + 1..];
    assert ps == init + [x];
    assert multiset(ps) == multiset(init) + multiset{x};
    assert qs == qs[..j] + [x] + qs[j + 1..];
    assert multiset(qs) == multiset(qs[..j]) + multiset{x} + multiset(qs[j + 1..]);
    assert multiset(rest) == multiset(qs[..j]) + multiset(qs[j + 1..]);
    forall y ensures multiset(init)[y] == multiset(rest)[y] {
      assert (multiset(init) + multiset{x})[y] == (multiset(rest) + multiset{x})[y];
    }
  }

  /** A day's count depends only on which pairs there are, not on their order. */
  lemma {:induction false} CountOnPermutation(ps: seq<(int, int)>, qs: seq<(int, int)>, upperBound: int, dateInterval: int, day: int)
    requires dateInterval > 0
    requires multiset(ps) == multiset(qs)
    ensures CountOn(ps, upperBound, dateInterval, day) == CountOn(qs, upperBound, dateInterval, day)
    decreases |ps|
  {
    if ps == [] {
      assert |qs| == |multiset(qs)| == 0;
    } else {
      var n := |ps| - 1;
      var x := ps[n];
      assert x in multiset(qs);
      var j :| 0 <= j < |qs| && qs[j] == x;
      MultisetRemoveAt(ps, qs, j);
      CountOnPermutation(ps[..n], qs[..j] + qs[j + 1..], upperBound, dateInterval, day);
      CountOnRemoveAt(qs, j, upperBound, dateInterval, day);
      assert ps == ps[..n] + [x];
      CountOnConcat(ps[..n], [x], upperBound, dateInterval, day);
    }
  }

  /** Reordering the input pairs yields the same map. */
  lemma AggregatePermutation(ps: seq<(int, int)>, qs: seq<(int, int)>, upperBound: int, dateInterval: int)
    requires dateInterval > 0
    requires multiset(ps) == multiset(qs)
    ensures Aggregate(ps, upperBound, dateInterval) == Aggregate(qs, upperBound, dateInterval)
  {
    var mp, mq := Aggregate(ps, upperBound, dateInterval), Aggregate(qs, upperBound, dateInterval);
    AggregateKeys(ps, upperBound, dateInterval);
    AggregateKeys(qs, upperBound, dateInterval);
    assert forall p :: p in ps <==> p in qs by {
      forall p ensures p in ps <==> p in qs {
        assert p in ps <==> p in multiset(ps);
        assert p in qs <==> p in multiset(qs);
      }
    }
    assert mp.Keys == mq.Keys;
    forall day | day in mp
      ensures mp[day] == mq[day]
    {
      AggregateValues(ps, upperBound, dateInterval, day);
      AggregateValues(qs, upperBound, dateInterval, day);
      CountOnPermutation(ps, qs, upperBound, dateInterval, day);
    }
  }

  /**
    The counting loop of `generateChart`: for each of the first
    `min(dates.size, counts.size)` positions, snaps the date to its axis day and adds
    the count to that day's total.
  */
  method AggregateCounts(dates: seq<int>, counts: seq<int>, upperBound: int, dateInterval: int)
    returns (dayCounts: map<int, int>)
    requires dateInterval > 0
    ensures dayCounts == Aggregate(Zip(dates, counts), upperBound, dateInterval)
    ensures dayCounts.Keys == set p | p in Zip(dates, counts) :: GetAxisDate(p.0, upperBound, dateInterval)
    ensures forall day :: day in dayCounts ==>
              dayCounts[day] == CountOn(Zip(dates, counts), upperBound, dateInterval, day)
    ensures MapSum(dayCounts) == Total(Zip(dates, counts))
  {
    var length := if |dates| <= |counts| then |dates| else |counts|;
    ghost var pairs := Zip(dates, counts);
    dayCounts := map[];
    for i := 0 to length
      invariant dayCounts == Aggregate(pairs[..i], upperBound, dateInterval)
    {
      var axisDay := GetAxisDate(dates[i], upperBound, dateInterval);
      assert pairs[..i + 1][..i] == pairs[..i];
      if axisDay !in dayCounts {
        dayCounts := dayCounts[axisDay := counts[i]];
      } else {
        dayCounts := dayCounts[axisDay := dayCounts[axisDay] + counts[i]];
      }
    }
    assert pairs[..length] == pairs;
    AggregateKeys(pairs, upperBound, dateInterval);
    AggregateTotal(pairs, upperBound, dateInterval);
    forall day | day in dayCounts
      ensures dayCounts[day] == CountOn(pairs, upperBound, dateInterval, day)
    {
      AggregateValues(pairs, upperBound, dateInterval, day);
    }
  }

  /**
    The data-preparation part of `generateChart`: today's date without its time is the
    upper bound, the counts are aggregated onto axis days, and the generator derives
    the axis range from the interval and the data range. `now` stands for the clock.
  */
  method GenerateChart(now: int, dateInterval: int, dataRange: int, dates: seq<int>, counts: seq<int>)
    returns (series: map<int, int>, generator: TimeTrendingChartGenerator)
    requires dateInterval > 0
    ensures fresh(generator) && generator.Valid()
    ensures generator.upperBound == RemoveDateTime(now)
    ensures generator.dateInterval == dateInterval && generator.dataRange == dataRange
    ensures series == Aggregate(Zip(dates, counts), generator.upperBound, dateInterval)
    ensures forall day :: day in series ==> OnLattice(generator.lowerBound, dateInterval, day)
  {
    var upperBound := RemoveDateTime(now);
    series := AggregateCounts(dates, counts, upperBound, dateInterval);
    generator := new TimeTrendingChartGenerator(dateInterval, dataRange, upperBound);
    forall day | day in series
      ensures OnLattice(generator.lowerBound, dateInterval, day)
    {
      var p :| p in Zip(dates, counts) && day == GetAxisDate(p.0, upperBound, dateInterval);
      AxisDateIsAxisTick(p.0, dataRange, dateInterval, upperBound);
    }
  }
}
