/** The availability rotation of the `PUT /reserved/:rid` handler
    (src/routes/rooms.routes.js): once the guards have passed, the room's
    window of open days loses the booked day and every stale day and gains
    freshly generated days after its last stored entry. */
module Rotation {
  import opened Dates
  import opened Sequences

  /** `new Date(oldDate) < yesterday` with `yesterday = now - oneDay`: the
      day's UTC midnight lies more than 24 h before `now`. */
  predicate IsStale(d: Day, now: Instant) {
    MidnightOf(d) < now - OneDay
  }

  /** `oldDates`: the stale entries of the window, in window order and with
      their multiplicities. */
  function StaleEntries(w: seq<Day>, now: Instant): (r: seq<Day>)
    ensures |r| <= |w|
    decreases |w|
  {
    if |w| == 0 then []
    else
      var rest := StaleEntries(w[1..], now);
      if IsStale(w[0], now) then [w[0]] + rest else rest
  }

  /** `oldDates` holds exactly the stale entries of the window, each as often
      as the window holds it. */
  lemma {:induction false} StaleEntriesContents(w: seq<Day>, now: Instant)
    ensures forall x :: multiset(StaleEntries(w, now))[x]
                        == if IsStale(x, now) then multiset(w)[x] else 0
    ensures forall x :: x in StaleEntries(w, now) <==> x in w && IsStale(x, now)
    decreases |w|
  {
    if |w| > 0 {
      StaleEntriesContents(w[1..], now);
      assert w == [w[0]] + w[1..];
    }
  }

  /** The new window computed by the handler from the room's window `w`, the
      booked day `date` and the clock reading `now`. The handler only gets
      here after `w.includes(date)`, which is what makes `w.at(-1)` defined. */
  function Rotate(w: seq<Day>, date: Day, now: Instant): seq<Day>
    requires date in w
  {
    var lastDate := MidnightOf(w[|w| - 1]);
    var startDate := lastDate + OneDay;
    var oldDates := StaleEntries(w, now);
    if |oldDates| == 0 then
      RemoveFirst(w, date) + FormatDays(DateRange(1, startDate))
    else
      RemoveEach(RemoveFirst(w, date), oldDates) + FormatDays(DateRange(|oldDates|, startDate))
  }

  /** The entries of the old window that stay: the booked day removed first,
      then the first remaining occurrence of each stale entry. */
  function Survivors(w: seq<Day>, date: Day, now: Instant): seq<Day> {
    RemoveEach(RemoveFirst(w, date), StaleEntries(w, now))
  }

  /** How many days are appended: one when nothing is stale, otherwise one
      per stale entry (the booked day itself is not counted then). */
  function Replacements(w: seq<Day>, now: Instant): nat {
    var k := |StaleEntries(w, now)|;
    if k == 0 then 1 else k
  }

  /** The two branches of the handler are one rule: the survivors, in their
      old order, followed by `Replacements` consecutive days starting the
      day after the last stored entry. */
  lemma RotateShape(w: seq<Day>, date: Day, now: Instant)
    requires date in w
    ensures Rotate(w, date, now)
         == Survivors(w, date, now) + Consecutive(w[|w| - 1] + 1, Replacements(w, now))
  {
    var last := w[|w| - 1];
    var start := MidnightOf(last) + OneDay;
    var k := Replacements(w, now);
    assert DayOf(start) == last + 1 by {
      DayOfShift(MidnightOf(last), 1);
      DayOfMidnight(last);
    }
    FormattedRange(k, start);
    assert FormatDays(DateRange(k, start)) == Consecutive(last + 1, k);
    var st := StaleEntries(w, now);
    if |st| == 0 {
      assert Survivors(w, date, now) == RemoveFirst(w, date);
      assert k == 1;
      assert Rotate(w, date, now) == Survivors(w, date, now) + FormatDays(DateRange(k, start));
    } else {
      assert k == |st|;
      assert Rotate(w, date, now) == Survivors(w, date, now) + FormatDays(DateRange(k, start));
    }
  }

  /** Survivors keep their relative order and are exactly the old window
      minus one copy of the booked day and one copy of each stale entry. */
  lemma SurvivorsContents(w: seq<Day>, date: Day, now: Instant)
    ensures Subseq(Survivors(w, date, now), w)
    ensures multiset(Survivors(w, date, now))
         == multiset(w) - multiset{date} - multiset(StaleEntries(w, now))
  {
    var w1 := RemoveFirst(w, date);
    RemoveFirstSubseq(w, date);
    RemoveEachSubseq(w1, StaleEntries(w, now));
    SubseqTrans(Survivors(w, date, now), w1, w);
    RemoveFirstContents(w, date);
    RemoveEachContents(w1, StaleEntries(w, now));
  }

  /** A chronologically sorted window stays sorted: removal keeps order and
      every appended day is later than the old last entry. */
  lemma RotateIncreasing(w: seq<Day>, date: Day, now: Instant)
    requires date in w
    requires StrictlyIncreasing(w)
    ensures StrictlyIncreasing(Rotate(w, date, now))
  {
    var s := Survivors(w, date, now);
    var last := w[|w| - 1];
    var added := Consecutive(last + 1, Replacements(w, now));
    RotateShape(w, date, now);
    SurvivorsContents(w, date, now);
    SubseqIncreasing(s, w);
    SubseqMembers(s, w);
    forall i | 0 <= i < |s|
      ensures s[i] <= last
    {
      IncreasingBelowLast(w, s[i]);
    }
    ConcatIncreasing(s, added);
  }

  /** How many old entries survive in a window without repetitions: all but
      the booked day and the stale entries, counting the booked day once when
      it is stale itself. */
  lemma SurvivorsSize(w: seq<Day>, date: Day, now: Instant)
    requires date in w && Distinct(w)
    ensures |Survivors(w, date, now)|
         == |w| - 1 - |StaleEntries(w, now)| + (if IsStale(date, now) then 1 else 0)
  {
    var st := StaleEntries(w, now);
    var s := Survivors(w, date, now);
    SurvivorsContents(w, date, now);
    StaleEntriesContents(w, now);
    DistinctCount(w, date);
    assert multiset(st) <= multiset(w) by {
      forall x ensures multiset(st)[x] <= multiset(w)[x] {
      }
    }
    if IsStale(date, now) {
      DiffSizeBookedStale(multiset(w), date, multiset(st));
    } else {
      DiffSizeBookedFresh(multiset(w), date, multiset(st));
    }
    assert |multiset(s)| == |s|;
  }

  /** Counting for a booked day that is not among the stale entries. */
  lemma DiffSizeBookedFresh(m: multiset<Day>, date: Day, st: multiset<Day>)
    requires m[date] == 1 && st <= m && st[date] == 0
    ensures |m - multiset{date} - st| == |m| - 1 - |st|
  {
  }

  /** Counting for a booked day that is one of the stale entries. */
  lemma DiffSizeBookedStale(m: multiset<Day>, date: Day, st: multiset<Day>)
    requires m[date] == 1 && st <= m && st[date] == 1
    ensures |m - multiset{date} - st| == |m| - |st|
  {
    assert m - multiset{date} - st == m - st by {
      forall x ensures (m - multiset{date} - st)[x] == (m - st)[x] {
        if x != date {
          assert multiset{date}[x] == 0;
        }
      }
    }
    MultisetDiffSize(m, st);
  }

  /** The new window's length: the survivors plus the appended days. */
  lemma RotateLength(w: seq<Day>, date: Day, now: Instant)
    requires date in w
    ensures |Rotate(w, date, now)| == |Survivors(w, date, now)| + Replacements(w, now)
  {
  }

  /** Without stale entries (and without repeated days) the window keeps its
      length and the booked day leaves the surviving entries. */
  lemma LengthWithoutStale(w: seq<Day>, date: Day, now: Instant)
    requires date in w && Distinct(w)
    requires |StaleEntries(w, now)| == 0
    ensures |Rotate(w, date, now)| == |w|
    ensures date !in Survivors(w, date, now)
  {
  }

  /** With stale entries present and the booked day not stale, the window
      shrinks by exactly one: the booked day is removed but not replaced. */
  lemma LengthShrinksWithStale(w: seq<Day>, date: Day, now: Instant)
    requires date in w && Distinct(w)
    requires |StaleEntries(w, now)| > 0 && !IsStale(date, now)
    ensures |Rotate(w, date, now)| == |w| - 1
  {
    RotateLength(w, date, now);
    SurvivorsSize(w, date, now);
  }

  /** When the booked day is itself stale, it is removed once and its second
      removal finds nothing, so the window keeps its length. */
  lemma LengthKeptWhenBookedStale(w: seq<Day>, date: Day, now: Instant)
    requires date in w && Distinct(w)
    requires IsStale(date, now)
    ensures |Rotate(w, date, now)| == |w|
  {
    RotateLength(w, date, now);
    SurvivorsSize(w, date, now);
  }

  /** In a sorted window the booked day is gone after the rotation. */
  lemma BookedDayLeavesSortedWindow(w: seq<Day>, date: Day, now: Instant)
    requires date in w && StrictlyIncreasing(w)
    ensures date !in Rotate(w, date, now)
  {
    var s := Survivors(w, date, now);
    RotateShape(w, date, now);
    SurvivorsContents(w, date, now);
    assert Distinct(w);
    DistinctCount(w, date);
    assert multiset(s)[date] == 0;
    IncreasingBelowLast(w, date);
  }

  /** An unsorted window can take the booked day back: booking day 6 in
      `[6, 5]` appends day 6 again, because replacements start after the
      LAST stored entry rather than after the latest one. */
  lemma UnsortedWindowReadmitsBookedDay()
    ensures Rotate([6, 5], 6, 0) == [5, 6]
  {
  }

  /** In calendar terms: a day is stale when it is before yesterday, and
      yesterday itself is stale unless `now` is exactly UTC midnight. */
  lemma StaleDays(d: Day, now: Instant)
    ensures IsStale(d, now)
        <==> d < DayOf(now) - 1 || (d == DayOf(now) - 1 && now % OneDay != 0)
  {
  }

  /** A window none of whose entries is stale has no stale entries. */
  lemma NoStaleEntries(w: seq<Day>, now: Instant)
    requires forall i :: 0 <= i < |w| ==> !IsStale(w[i], now)
    ensures StaleEntries(w, now) == []
  {
    StaleEntriesContents(w, now);
  }

  /** A freshly seeded window booked on its first day rolls forward by one
      day: with `now` at today's midnight, the 20 days from today lose today
      and gain the 21st day. */
  lemma FreshWindowRollsByOne(today: Day)
    ensures today in Consecutive(today, 20)
    ensures Rotate(Consecutive(today, 20), today, MidnightOf(today))
         == Consecutive(today + 1, 20)
  {
    var w := Consecutive(today, 20);
    var now := MidnightOf(today);
    assert w[0] == today;
    forall i | 0 <= i < |w|
      ensures !IsStale(w[i], now)
    {
      assert MidnightOf(w[i]) >= MidnightOf(today);
    }
    NoStaleEntries(w, now);
    assert Replacements(w, now) == 1;
    assert IndexOf(w, today) == 0;
    assert Survivors(w, date := today, now := now) == w[1..];
    RotateShape(w, today, now);
    assert w[1..] + Consecutive(today + 20, 1) == Consecutive(today + 1, 20);
  }
}
