/** Occurrence resolution for weekly recurring events: handle_RRULE
    (process_cal4.py:78-102). The source walks the series a week at a
    time; the model keeps that loop and proves it equal to a closed form:
    the target date is in range and a whole number of weeks after the
    first start. */
module Recurrence {
  import opened Wrappers
  import opened Calendar
  import opened Events

  /** `start.replace(year=.., month=.., day=..)` and the same for `end`,
      with the target's date: the times of day, location and summary are
      kept. All three date components come from one valid date, so the
      result is always a valid datetime. */
  function Rebase(ev: Event, d: Date): (r: Event)
    ensures r.start.date == d && r.end.date == d
    ensures r.start.time == ev.start.time && r.end.time == ev.end.time
    ensures r.location == ev.location && r.summary == ev.summary
  {
    Event(DateTime(d, ev.start.time), DateTime(d, ev.end.time), ev.location, ev.summary)
  }

  /** The occurrence of a weekly series starting at `ev.start` and bounded
      by `until` on the date of `cur`, in closed form. */
  function WeeklyOccurrence(cur: DateTime, ev: Event, until: DateTime): (r: Option<Event>)
    requires ValidDateTime(cur) && ValidDateTime(ev.start) && ValidDateTime(until)
    ensures r.Some? ==> r.value.start.date == cur.date && r.value.end.date == cur.date
    ensures r.Some? ==> r.value.start.time == ev.start.time && r.value.end.time == ev.end.time
    ensures r.Some? ==> r.value.location == ev.location && r.value.summary == ev.summary
  {
    if DateLess(cur.date, ev.start.date) || DateLess(until.date, cur.date) then None
    else if DaysBetween(cur.date, ev.start.date) % 7 == 0 then Some(Rebase(ev, cur.date))
    else None
  }

  lemma WholeWeeks(d: int, k: int)
    requires d == 7 * k
    ensures d % 7 == 0
  {
  }

  lemma StrictlyBetweenWeeks(d: int, k: int)
    requires 7 * (k - 1) < d < 7 * k
    ensures d % 7 != 0
  {
  }

  /** handle_RRULE: first the range check, then the start date itself, then
      one week at a time while `start` is at most `cur_dt` and at most
      `until_dt` (full datetime comparisons), rebasing on the first week
      that lands on the target date. */
  method HandleRRule(cur: DateTime, ev: Event, until: DateTime) returns (r: Option<Event>)
    requires ValidDateTime(cur) && ValidDateTime(ev.start) && ValidDateTime(until)
    ensures r == WeeklyOccurrence(cur, ev, until)
  {
    var start := ev.start;
    if DateLess(cur.date, start.date) || DateLess(until.date, cur.date) {
      return None;
    } else if start.date == cur.date {
      assert DaysBetween(cur.date, ev.start.date) == 0;
      return Some(Rebase(ev, cur.date));
    }
    ghost var first := Ordinal(ev.start.date);
    ghost var target := Ordinal(cur.date);
    ghost var weeks := 0;
    OrdinalOrder(start.date, cur.date);
    OrdinalOrder(until.date, cur.date);
    assert first < target <= Ordinal(until.date);
    while DateTimeLessEq(start, cur) && DateTimeLessEq(start, until)
      invariant ValidDateTime(start) && start.time == ev.start.time
      invariant start.date != cur.date
      invariant Ordinal(start.date) == first + 7 * weeks
      invariant Ordinal(start.date) < target + 7
      decreases target - Ordinal(start.date)
    {
      WeekBeforeTarget(start, cur);
      start := DateTime(AddWeek(start.date), start.time);
      weeks := weeks + 1;
      if start.date == cur.date {
        WholeWeeks(DaysBetween(cur.date, ev.start.date), weeks);
        return Some(Rebase(ev, cur.date));
      }
    }
    PastTarget(start, cur, until);
    assert target < first + 7 * weeks < target + 7;
    StrictlyBetweenWeeks(target - first, weeks);
    return None;
  }

  /** While the walk is still before the target date, the next week is
      seven days on and not beyond the target. */
  lemma WeekBeforeTarget(start: DateTime, cur: DateTime)
    requires ValidDate(start.date) && ValidDate(cur.date)
    requires DateTimeLessEq(start, cur) && start.date != cur.date
    ensures Ordinal(start.date) < Ordinal(cur.date)
    ensures Ordinal(AddWeek(start.date)) == Ordinal(start.date) + 7
  {
    OrdinalOrder(start.date, cur.date);
    AddWeekOrdinal(start.date);
  }

  /** Once the walk stops without landing on the target date, it has passed
      it (the target being no later than the bound). */
  lemma PastTarget(start: DateTime, cur: DateTime, until: DateTime)
    requires ValidDate(start.date) && ValidDate(cur.date) && ValidDate(until.date)
    requires !(DateTimeLessEq(start, cur) && DateTimeLessEq(start, until))
    requires start.date != cur.date && !DateLess(until.date, cur.date)
    ensures Ordinal(cur.date) < Ordinal(start.date)
  {
    OrdinalOrder(start.date, cur.date);
    OrdinalOrder(start.date, until.date);
    OrdinalOrder(until.date, cur.date);
  }

  /** The dates a weekly series starting on `d` lands on: `d` plus `k` weeks. */
  function Weeks(d: Date, k: nat): (r: Date)
    requires ValidDate(d)
    ensures ValidDate(r)
  {
    if k == 0 then d else AddWeek(Weeks(d, k - 1))
  }

  lemma {:induction false} WeeksOrdinal(d: Date, k: nat)
    requires ValidDate(d)
    ensures Ordinal(Weeks(d, k)) == Ordinal(d) + 7 * k
  {
    if k > 0 {
      var p := Weeks(d, k - 1);
      WeeksOrdinal(d, k - 1);
      AddWeekOrdinal(p);
      assert Ordinal(Weeks(d, k)) == Ordinal(p) + 7;
    }
  }

  /** The closed form against the series itself: an event recurs on the
      target date exactly when some whole number of weeks after its start
      is that date, and the bound is not before it. */
  lemma WeeklyOccurrenceIsSeries(cur: DateTime, ev: Event, until: DateTime)
    requires ValidDateTime(cur) && ValidDateTime(ev.start) && ValidDateTime(until)
    ensures WeeklyOccurrence(cur, ev, until).Some? <==>
      (exists k: nat :: Weeks(ev.start.date, k) == cur.date) && !DateLess(until.date, cur.date)
  {
    var s, c := ev.start.date, cur.date;
    OrdinalOrder(c, s);
    if WeeklyOccurrence(cur, ev, until).Some? {
      var d := DaysBetween(c, s);
      var k: nat := d / 7;
      assert d == 7 * k;
      WeeksOrdinal(s, k);
      OrdinalOrder(Weeks(s, k), c);
    }
    if exists k: nat :: Weeks(s, k) == c {
      var k: nat :| Weeks(s, k) == c;
      WeeksOrdinal(s, k);
      WholeWeeks(DaysBetween(c, s), k);
    }
  }

  lemma SameRemainder(x: int, k: int)
    ensures (x + 7 * k) % 7 == x % 7
  {
  }

  /** A weekly event only ever recurs on its own weekday. */
  lemma WeeklyOccurrenceKeepsWeekday(cur: DateTime, ev: Event, until: DateTime)
    requires ValidDateTime(cur) && ValidDateTime(ev.start) && ValidDateTime(until)
    requires WeeklyOccurrence(cur, ev, until).Some?
    ensures Weekday(cur.date) == Weekday(ev.start.date)
  {
    WeeklyOccurrenceIsSeries(cur, ev, until);
    var k: nat :| Weeks(ev.start.date, k) == cur.date;
    WeeksOrdinal(ev.start.date, k);
    SameRemainder(Ordinal(ev.start.date) + 6, k);
  }
}
