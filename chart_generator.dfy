/**
  The axis side of the time-trending chart generator: the lower bound of the
  visible range, the axis limits drawn around it, and the date axis that walks
  its tick lattice one interval at a time.
*/
module ChartGenerator {

  import JavaMath
  import opened DateUtil

  /**
    `getLowerBound`: the day `dataRange` days before `upperBound`, moved further back
    to the next whole number of `dateInterval`-day steps, so that ticks counted from
    the lower bound land on `upperBound` itself.
  */
  function GetLowerBound(dataRange: int, dateInterval: int, upperBound: int): (lowerBound: int)
    requires dateInterval > 0
    ensures OnLattice(lowerBound, dateInterval, upperBound)
    ensures IsMidnight(upperBound) ==> IsMidnight(lowerBound)
  {
    var offsetFromDataRange :=
      if JavaMath.Rem(dataRange, dateInterval) != 0
      then dateInterval - JavaMath.Rem(dataRange, dateInterval)
      else 0;
    var finalOffset := (dataRange + offsetFromDataRange) * -1;
    SpanIsMultiple(dataRange, dateInterval, dataRange + offsetFromDataRange);
    GetOffsetDate(upperBound, finalOffset)
  }

  /** The padded span, in days, is a whole number of intervals, so its length in milliseconds is a multiple of the step. */
  lemma SpanIsMultiple(dataRange: int, dateInterval: int, span: int)
    requires dateInterval > 0
    requires span == dataRange + (if JavaMath.Rem(dataRange, dateInterval) != 0
                                  then dateInterval - JavaMath.Rem(dataRange, dateInterval) else 0)
    ensures span % dateInterval == 0
    ensures (span * MsPerDay) % (dateInterval * MsPerDay) == 0
  {
    var r := JavaMath.Rem(dataRange, dateInterval);
    if r != 0 {
      JavaMath.MultipleModZero(1, dateInterval);
      JavaMath.MultipleSum(dataRange - r, dateInterval, dateInterval);
    }
    JavaMath.ModZeroIsMultiple(span, dateInterval);
    assert span * MsPerDay == (dateInterval * MsPerDay) * (span / dateInterval);
    JavaMath.MultipleModZero(span / dateInterval, dateInterval * MsPerDay);
  }

  /**
    With a non-negative data range the visible span covers at least `dataRange` days
    and falls short of `dataRange + dateInterval` days; it is exactly `dataRange`
    days when `dataRange` is already a whole number of intervals.
  */
  lemma LowerBoundSpan(dataRange: int, dateInterval: int, upperBound: int)
    requires dateInterval > 0 && dataRange >= 0
    ensures var span := upperBound - GetLowerBound(dataRange, dateInterval, upperBound);
      && dataRange * MsPerDay <= span < (dataRange + dateInterval) * MsPerDay
      && (span == dataRange * MsPerDay <==> dataRange % dateInterval == 0)
  {
  }

  /** The lower bound is never after the upper bound when the data range is not negative. */
  lemma LowerBoundNotAfterUpperBound(dataRange: int, dateInterval: int, upperBound: int)
    requires dateInterval > 0 && dataRange >= 0
    ensures GetLowerBound(dataRange, dateInterval, upperBound) <= upperBound
  {
    LowerBoundSpan(dataRange, dateInterval, upperBound);
  }

  /**
    The span is the smallest whole number of intervals covering `dataRange`: every
    other multiple `k` of `dateInterval` days that covers it is at least as long.
  */
  lemma LowerBoundSpanIsSmallest(dataRange: int, dateInterval: int, upperBound: int, k: int)
    requires dateInterval > 0 && dataRange >= 0
    requires k % dateInterval == 0 && k >= dataRange
    ensures k * MsPerDay >= upperBound - GetLowerBound(dataRange, dateInterval, upperBound)
  {
    var r := JavaMath.Rem(dataRange, dateInterval);
    var span := dataRange + (if r != 0 then dateInterval - r else 0);
    SpanIsMultiple(dataRange, dateInterval, span);
    JavaMath.MultipleSum(k, span, dateInterval);
    JavaMath.MultipleAboveNegIsNonneg(k - span, dateInterval);
  }

  /** Thirty days of data on a seven-day axis ending 2024-01-31 (UTC) start on 2023-12-27. */
  lemma LowerBoundExample()
    ensures GetLowerBound(30, 7, 1706659200000) == 1703635200000
  {
  }

  /**
    A negative data range is padded like any other: -3 days on a 7-day axis gives a
    7-day span, and -14 days puts the lower bound 14 days after the upper bound.
  */
  lemma NegativeRangeExample()
    ensures GetLowerBound(-3, 7, 0) == -7 * MsPerDay
    ensures GetLowerBound(-14, 7, 0) == 14 * MsPerDay
  {
  }

  /**
    The lattice point where `previousStandardDate` starts walking: one interval before
    `firstDate`, moved back to the start of its day.
  */
  function TickAnchor(firstDate: int, interval: int): (anchor: int)
    ensures IsMidnight(anchor)
    ensures anchor <= firstDate - interval * MsPerDay < anchor + MsPerDay
  {
    RemoveDateTime(GetOffsetDate(firstDate, -1 * interval))
  }

  /** When `firstDate` is a midnight, the walk starts exactly one interval before it. */
  lemma TickAnchorOfMidnight(firstDate: int, interval: int)
    requires IsMidnight(firstDate)
    ensures TickAnchor(firstDate, interval) == firstDate - interval * MsPerDay
  {
    RemoveDateTimeShift(firstDate, -1 * interval);
    MidnightFixed(firstDate);
  }

  /**
    The tick that `previousStandardDate` returns for `date`: the last point of the
    lattice `anchor + k * interval` days (k >= 0) that is strictly before `date`, or
    `anchor` itself when `date` is not after `anchor`.
  */
  function PrevTick(anchor: int, interval: int, date: int): (p: int)
    requires interval > 0
    ensures p >= anchor && OnLattice(anchor, interval, p)
    ensures date <= p + interval * MsPerDay
    ensures date > anchor ==> p < date
    ensures date <= anchor ==> p == anchor
  {
    var step := interval * MsPerDay;
    if date <= anchor then
      JavaMath.MultipleModZero(0, step);
      anchor
    else
      var q := (date - anchor - 1) / step;
      JavaMath.MultipleModZero(q, step);
      anchor + q * step
  }

  /** Only one lattice point has the properties of `PrevTick`. */
  lemma PrevTickUnique(anchor: int, interval: int, date: int, p: int)
    requires interval > 0
    requires p >= anchor && OnLattice(anchor, interval, p)
    requires date <= p + interval * MsPerDay
    requires date > anchor ==> p < date
    requires date <= anchor ==> p == anchor
    ensures p == PrevTick(anchor, interval, date)
  {
    var q := PrevTick(anchor, interval, date);
    if date > anchor {
      OnLatticeDiff(anchor, interval, q, p);
      JavaMath.SmallMultipleIsZero(p - q, interval * MsPerDay);
    }
  }

  /**
    A lattice point after the anchor is its own next tick: the tick before it is one
    interval earlier.
  */
  lemma TickIsFixedByNext(anchor: int, interval: int, t: int)
    requires interval > 0 && OnLattice(anchor, interval, t) && t > anchor
    ensures PrevTick(anchor, interval, t) == t - interval * MsPerDay
  {
    var step := interval * MsPerDay;
    JavaMath.PositiveMultipleAtLeast(t - anchor, step);
    OnLatticeStep(anchor, interval, t);
    PrevTickUnique(anchor, interval, t, t - step);
  }

  /**
    The date axis of the chart: ticks every `interval` days on the lattice through
    `firstDate`, the chart's lower bound.
  */
  class IntervalDateAxis {
    const firstDate: int
    const interval: int

    constructor (firstDate: int, interval: int)
      ensures this.firstDate == firstDate && this.interval == interval
    {
      this.firstDate := firstDate;
      this.interval := interval;
    }

    /**
      `previousStandardDate`: starting one interval before `firstDate`, steps forward
      one interval at a time while `date` is after the next step, and returns the last
      tick reached.
    */
    method PreviousStandardDate(date: int) returns (prevDate: int)
      requires interval > 0
      ensures prevDate >= TickAnchor(firstDate, interval)
      ensures OnLattice(TickAnchor(firstDate, interval), interval, prevDate)
      ensures date > TickAnchor(firstDate, interval) ==> prevDate < date <= prevDate + interval * MsPerDay
      ensures date <= TickAnchor(firstDate, interval) ==> prevDate == TickAnchor(firstDate, interval)
      ensures prevDate == PrevTick(TickAnchor(firstDate, interval), interval, date)
    {
      prevDate := RemoveDateTime(GetOffsetDate(firstDate, -1 * interval));
      ghost var anchor := prevDate;
      JavaMath.MultipleModZero(0, interval * MsPerDay);
      var standardDate := GetOffsetDate(prevDate, interval);
      while date > standardDate
        invariant standardDate == prevDate + interval * MsPerDay
        invariant prevDate >= anchor && OnLattice(anchor, interval, prevDate)
        invariant prevDate > anchor ==> prevDate < date
        decreases date - standardDate
      {
        OnLatticeStep(anchor, interval, prevDate);
        prevDate := standardDate;
        standardDate := GetOffsetDate(standardDate, interval);
      }
      PrevTickUnique(anchor, interval, date, prevDate);
    }

    /** `nextStandardDate`: the tick one interval after `previousStandardDate`. */
    method NextStandardDate(date: int) returns (next: int)
      requires interval > 0
      ensures next == PrevTick(TickAnchor(firstDate, interval), interval, date) + interval * MsPerDay
      ensures date <= next
      ensures OnLattice(TickAnchor(firstDate, interval), interval, next)
      ensures date > TickAnchor(firstDate, interval) ==> next - interval * MsPerDay < date
    {
      var prevDate := PreviousStandardDate(date);
      next := GetOffsetDate(prevDate, interval);
      OnLatticeStep(TickAnchor(firstDate, interval), interval, prevDate);
    }
  }

  /**
    The generator's range state: the constructor stores the interval, the data range
    and the upper bound, and derives the lower bound from them.
  */
  class TimeTrendingChartGenerator {
    const dateInterval: int
    const dataRange: int
    const lowerBound: int
    const upperBound: int

    predicate Valid() {
      dateInterval > 0 && lowerBound == GetLowerBound(dataRange, dateInterval, upperBound)
    }

    constructor (dateInterval: int, dataRange: int, upperBound: int)
      requires dateInterval > 0
      ensures Valid()
      ensures this.dateInterval == dateInterval && this.dataRange == dataRange
      ensures this.upperBound == upperBound
    {
      this.dateInterval := dateInterval;
      this.dataRange := dataRange;
      this.lowerBound := GetLowerBound(dataRange, dateInterval, upperBound);
      this.upperBound := upperBound;
    }

    /** The axis minimum of `createLineChart`: one day before the lower bound. */
    function MinimumDate(): (d: int)
      ensures d < lowerBound && lowerBound - d == MsPerDay
      ensures IsMidnight(lowerBound) ==> IsMidnight(d)
    {
      GetOffsetDate(lowerBound, -1)
    }

    /** The axis maximum of `createLineChart`: one day after the upper bound. */
    function MaximumDate(): (d: int)
      ensures upperBound < d && d - upperBound == MsPerDay
      ensures IsMidnight(upperBound) ==> IsMidnight(d)
    {
      GetOffsetDate(upperBound, 1)
    }

    /** The custom date axis `createLineChart` installs: ticks from the lower bound. */
    method CreateAxis() returns (axis: IntervalDateAxis)
      requires Valid()
      ensures fresh(axis)
      ensures axis.firstDate == lowerBound && axis.interval == dateInterval
    {
      axis := new IntervalDateAxis(lowerBound, dateInterval);
    }
  }

  /**
    Both bounds lie strictly inside the axis limits, so neither end tick is clipped.
  */
  lemma AxisLimitsContainBounds(g: TimeTrendingChartGenerator)
    requires g.Valid() && g.dataRange >= 0
    ensures g.MinimumDate() < g.lowerBound <= g.upperBound < g.MaximumDate()
  {
    LowerBoundNotAfterUpperBound(g.dataRange, g.dateInterval, g.upperBound);
  }

  /**
    On a midnight upper bound, the axis created from the lower bound has both bounds
    as ticks: `nextStandardDate` maps each of them to itself.
  */
  lemma BoundsAreTicks(dataRange: int, dateInterval: int, upperBound: int)
    requires dateInterval > 0 && dataRange >= 0 && IsMidnight(upperBound)
    ensures var lowerBound := GetLowerBound(dataRange, dateInterval, upperBound);
      var anchor := TickAnchor(lowerBound, dateInterval);
      && PrevTick(anchor, dateInterval, lowerBound) + dateInterval * MsPerDay == lowerBound
      && PrevTick(anchor, dateInterval, upperBound) + dateInterval * MsPerDay == upperBound
  {
    var lowerBound := GetLowerBound(dataRange, dateInterval, upperBound);
    var anchor := TickAnchor(lowerBound, dateInterval);
    TickAnchorOfMidnight(lowerBound, dateInterval);
    LowerBoundNotAfterUpperBound(dataRange, dateInterval, upperBound);
    OnLatticeDiff(lowerBound, dateInterval, lowerBound, upperBound);
    JavaMath.MultipleModZero(0, dateInterval * MsPerDay);
    OnLatticeStep(lowerBound, dateInterval, lowerBound);
    OnLatticeStep(lowerBound, dateInterval, upperBound);
    OnLatticeDiff(lowerBound, dateInterval, anchor, lowerBound);
    OnLatticeDiff(lowerBound, dateInterval, anchor, upperBound);
    TickIsFixedByNext(anchor, dateInterval, lowerBound);
    TickIsFixedByNext(anchor, dateInterval, upperBound);
  }
}
