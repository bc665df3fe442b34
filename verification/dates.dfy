/** Calendar arithmetic of the booking backend and the date-range generator
    `getDates` of src/helpers/date.post.js.

    A JavaScript `Date` is modelled by its `getTime()` value: an integer
    number of milliseconds since the Unix epoch, with no time zones and no
    daylight saving (JavaScript time values are UTC). A stored `YYYY-MM-DD`
    string is modelled by its UTC day number: `new Date("YYYY-MM-DD")` is
    UTC midnight of that day, and `toISOString().split('T')[0]` keeps the UTC
    day of an instant, i.e. floor division by the length of a day. */
module Dates {
  import opened Wrappers

  /** Milliseconds since the epoch, the value of `Date.prototype.getTime`. */
  type Instant = int

  /** UTC day number: day 0 is 1970-01-01. */
  type Day = int

  /** `oneDay` of the source: 24 h in milliseconds. */
  const OneDay: int := 24 * 60 * 60 * 1000

  /** The UTC day an instant falls on (`toISOString().split('T')[0]`).
      Dafny's `/` by a positive divisor rounds toward minus infinity, which is
      the UTC truncation also for instants before 1970. */
  function DayOf(t: Instant): Day {
    t / OneDay
  }

  /** UTC midnight of a day (`new Date("YYYY-MM-DD")`). */
  function MidnightOf(d: Day): Instant {
    d * OneDay
  }

  /** `count` consecutive day numbers starting at `first`. */
  function Consecutive(first: Day, count: nat): (r: seq<Day>)
    ensures |r| == count
    ensures forall i :: 0 <= i < count ==> r[i] == first + i
  {
    seq(count, i => first + i)
  }

  /** Formats every instant as its UTC day (`dates.map(d => d.toISOString().split('T')[0])`). */
  function FormatDays(ts: seq<Instant>): (r: seq<Day>)
    ensures |r| == |ts|
    ensures forall i :: 0 <= i < |ts| ==> r[i] == DayOf(ts[i])
  {
    seq(|ts|, i requires 0 <= i < |ts| => DayOf(ts[i]))
  }

  /** The instants `getDates(count, start)` returns: `count` of them (none when
      `count <= 0`), the first at `start`, each one day after the previous. */
  function DateRange(count: int, start: Instant): (r: seq<Instant>)
    ensures |r| == if count > 0 then count else 0
    ensures forall i :: 0 <= i < |r| ==> r[i] == start + i * OneDay
    decreases count
  {
    if count <= 0 then []
    else [start] + DateRange(count - 1, start + OneDay)
  }

  /** `getDates(limitDays = 1, startDate)`: the defaults are applied when an
      argument is absent (`undefined`); the `while` loop pushes a copy of the
      current instant and advances it by `oneDay` until `limitDays` instants
      have been collected. The clock reading `new Date()` is the parameter
      `now`. */
  method GetDates(limitDays: Option<int>, startDate: Option<Instant>, now: Instant)
    returns (dates: seq<Instant>)
    ensures |dates| == (if limitDays.GetOr(1) > 0 then limitDays.GetOr(1) else 0)
    ensures limitDays.None? ==> |dates| == 1
    ensures |dates| > 0 ==> dates[0] == startDate.GetOr(now)
    ensures forall i :: 0 < i < |dates| ==> dates[i] == dates[i - 1] + OneDay
    ensures forall i :: 0 <= i < |dates| ==> DayOf(dates[i]) == DayOf(startDate.GetOr(now)) + i
    ensures dates == DateRange(limitDays.GetOr(1), startDate.GetOr(now))
  {
    var limit := limitDays.GetOr(1);
    var start := startDate.GetOr(now);
    dates := [];
    var current := start;
    while |dates| < limit
      invariant |dates| <= (if limit > 0 then limit else 0)
      invariant current == start + |dates| * OneDay
      invariant forall i :: 0 <= i < |dates| ==> dates[i] == start + i * OneDay
      decreases limit - |dates|
    {
      dates := dates + [current];
      current := current + OneDay;
    }
    forall i | 0 <= i < |dates|
      ensures DayOf(dates[i]) == DayOf(start) + i
    {
      DayOfShift(start, i);
    }
  }

  /** Shifting an instant by `k` whole days shifts its UTC day by `k`. */
  lemma DayOfShift(t: Instant, k: int)
    ensures DayOf(t + k * OneDay) == DayOf(t) + k
  {
  }

  /** Formatting a day's midnight gives back the day. */
  lemma DayOfMidnight(d: Day)
    ensures DayOf(MidnightOf(d)) == d
  {
  }

  /** Element `i` of a generated range lies on day `DayOf(start) + i`: the
      formatted range is a run of consecutive days. */
  lemma FormattedRange(count: int, start: Instant)
    ensures FormatDays(DateRange(count, start))
         == Consecutive(DayOf(start), if count > 0 then count else 0)
  {
  }
}
