/**
  The static date helpers of the chart generator. An instant is a number of
  milliseconds since the epoch; calendar days are read in one fixed zone whose
  days all last `MsPerDay` milliseconds, so a day starts at every multiple of
  `MsPerDay`.
*/
module DateUtil {

  import JavaMath

  /** `1000*60*60*24`: one day in milliseconds. */
  const MsPerDay: int := 86400000

  /** An instant at the start of its day. */
  predicate IsMidnight(t: int) {
    t % MsPerDay == 0
  }

  /**
    `removeDateTime`: clears the milliseconds, seconds and minutes of an instant and
    sets its hour to zero, i.e. moves it back to the start of its day (before the
    epoch too, where the day starts at the earlier multiple).
  */
  function RemoveDateTime(t: int): (r: int)
    ensures IsMidnight(r)
    ensures r <= t < r + MsPerDay
  {
    (t / MsPerDay) * MsPerDay
  }

  /**
    `getOffsetDate`: the instant `offset` whole days after `d` (before it when
    `offset` is negative).
  */
  function GetOffsetDate(d: int, offset: int): (r: int)
    ensures offset < 0 <==> r < d
    ensures offset == 0 <==> r == d
    ensures IsMidnight(d) <==> IsMidnight(r)
  {
    d + offset * 1000 * 60 * 60 * 24
  }

  /** The start of the day is the only midnight in the day's first `MsPerDay` milliseconds. */
  lemma RemoveDateTimeUnique(t: int, m: int)
    requires IsMidnight(m) && m <= t < m + MsPerDay
    ensures RemoveDateTime(t) == m
  {
    var r := RemoveDateTime(t);
    assert (r - m) % MsPerDay == 0;
  }

  /** Removing the time of day twice removes nothing more. */
  lemma RemoveDateTimeIdempotent(t: int)
    ensures RemoveDateTime(RemoveDateTime(t)) == RemoveDateTime(t)
  {
    RemoveDateTimeUnique(RemoveDateTime(t), RemoveDateTime(t));
  }

  /** A midnight is its own day start. */
  lemma MidnightFixed(t: int)
    requires IsMidnight(t)
    ensures RemoveDateTime(t) == t
  {
    RemoveDateTimeUnique(t, t);
  }

  /** Later instants never start an earlier day. */
  lemma RemoveDateTimeMonotonic(s: int, t: int)
    requires s <= t
    ensures RemoveDateTime(s) <= RemoveDateTime(t)
  {
  }

  /** Shifting by whole days commutes with removing the time of day. */
  lemma RemoveDateTimeShift(t: int, n: int)
    ensures RemoveDateTime(GetOffsetDate(t, n)) == GetOffsetDate(RemoveDateTime(t), n)
  {
    RemoveDateTimeUnique(GetOffsetDate(t, n), GetOffsetDate(RemoveDateTime(t), n));
  }

  /** Day offsets compose by adding them; offset zero is the identity. */
  lemma OffsetAdditive(d: int, a: int, b: int)
    ensures GetOffsetDate(GetOffsetDate(d, a), b) == GetOffsetDate(d, a + b)
    ensures GetOffsetDate(d, 0) == d
    ensures GetOffsetDate(d, a) - d == a * MsPerDay
  {
  }

  /**
    `t` lies on the lattice of instants `anchor + k * days` whole days, for some
    integer `k` of either sign.
  */
  predicate OnLattice(anchor: int, days: int, t: int)
    requires days > 0
  {
    (t - anchor) % (days * MsPerDay) == 0
  }

  /** One lattice step forward or back stays on the lattice. */
  lemma OnLatticeStep(anchor: int, days: int, t: int)
    requires days > 0 && OnLattice(anchor, days, t)
    ensures OnLattice(anchor, days, t + days * MsPerDay)
    ensures OnLattice(anchor, days, t - days * MsPerDay)
  {
    JavaMath.MultipleModZero(1, days * MsPerDay);
    JavaMath.MultipleSum(t - anchor, days * MsPerDay, days * MsPerDay);
  }

  /** Two points of one lattice differ by a multiple of its step; the relation is symmetric. */
  lemma OnLatticeDiff(anchor: int, days: int, s: int, t: int)
    requires days > 0 && OnLattice(anchor, days, s) && OnLattice(anchor, days, t)
    ensures (t - s) % (days * MsPerDay) == 0
    ensures OnLattice(s, days, t) && OnLattice(t, days, s)
  {
    JavaMath.MultipleSum(t - anchor, s - anchor, days * MsPerDay);
    JavaMath.MultipleSum(0, t - s, days * MsPerDay);
  }
}
