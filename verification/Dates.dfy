/**
 The dates of deadlines and reminders: backend/app/services/deadlines.py and backend/app/services/reminder_parser.py,
 from what their patterns matched. A moment is a number of microseconds of local wall-clock time; day 0 is a Monday.
 */
module Dates {
  const MINUTE := 60 * 1000000
  const HOUR := 60 * MINUTE
  const DAY := 24 * HOUR

  const DEFAULT_TASK_DUE_HOUR := 12

  datatype TimeMatch = NoTime | Time(hour: nat, minute: nat)

  function DayOf(moment: int): int {
    moment / DAY
  }

  /** `date.weekday()`: 0 is Monday */
  function Weekday(day: int): (w: int)
    ensures 0 <= w < 7
  {
    day % 7
  }

  predicate IsTimeOfDay(hour: int, minute: int) {
    0 <= hour < 24 && 0 <= minute < 60
  }

  /** `datetime.replace(hour=..., minute=..., second=0, microsecond=0)` on a day */
  function MomentAt(day: int, hour: int, minute: int): int {
    day * DAY + hour * HOUR + minute * MINUTE
  }

  // ---------- Deadlines ----------

  /** `_match_time` */
  function MatchTime(m: TimeMatch): (r: (int, int))
    ensures IsTimeOfDay(r.0, r.1)
    ensures m.Time? && m.hour <= 23 && m.minute <= 59 <==> m.Time? && r == (m.hour, m.minute)
  {
    if m.NoTime? || m.hour > 23 || m.minute > 59 then (DEFAULT_TASK_DUE_HOUR, 0) else (m.hour, m.minute)
  }

  function DueInDays(now: int, days: int, m: TimeMatch): int {
    var t := MatchTime(m);
    MomentAt(DayOf(now) + days, t.0, t.1)
  }

  /** `_next_weekday` */
  function NextWeekday(now: int, target: int, m: TimeMatch): int {
    var ahead := (target - Weekday(DayOf(now))) % 7;
    DueInDays(now, if ahead == 0 then 7 else ahead, m)
  }

  /** `_next_weekday_next_week` */
  function NextWeekdayNextWeek(now: int, target: int, m: TimeMatch): int {
    DueInDays(now, 7 - Weekday(DayOf(now)) + target, m)
  }

  lemma DayOfAt(day: int, hour: int, minute: int)
    requires IsTimeOfDay(hour, minute)
    ensures DayOf(MomentAt(day, hour, minute)) == day
  {
  }

  lemma DayOfDue(now: int, days: int, m: TimeMatch)
    ensures DayOf(DueInDays(now, days, m)) == DayOf(now) + days
  {
  }

  /** A deadline is at the time that was named, if there is such a time, and else at noon. */
  lemma DueIsAtItsTime(now: int, days: int, m: TimeMatch)
    ensures DueInDays(now, days, m) - (DayOf(now) + days) * 86400000000 ==
      if m.Time? && m.hour < 24 && m.minute < 60 then m.hour * 3600000000 + m.minute * 60000000 else 43200000000
    ensures DayOf(now) * 86400000000 <= now < (DayOf(now) + 1) * 86400000000
  {
  }

  /** A weekday means the first such day after today; it is strictly later than now. */
  lemma NextWeekdayIsFirst(now: int, target: int, m: TimeMatch)
    requires 0 <= target < 7
    ensures var day := DayOf(NextWeekday(now, target, m));
      && Weekday(day) == target && 1 <= day - DayOf(now) <= 7
      && (forall d | DayOf(now) < d < day :: Weekday(d) != target)
      && NextWeekday(now, target, m) == DueInDays(now, day - DayOf(now), m)
    ensures NextWeekday(now, target, m) > now
  {
    var today := DayOf(now);
    var ahead := (target - Weekday(today)) % 7;
    DayOfDue(now, if ahead == 0 then 7 else ahead, m);
  }

  /** A weekday of next week is that day of the week that starts on the next Monday. */
  lemma NextWeekIsNextWeek(now: int, target: int, m: TimeMatch)
    requires 0 <= target < 7
    ensures var day, monday := DayOf(NextWeekdayNextWeek(now, target, m)), DayOf(now) - Weekday(DayOf(now)) + 7;
      && Weekday(day) == target && monday <= day < monday + 7 && Weekday(monday) == 0
      && NextWeekdayNextWeek(now, target, m) == DueInDays(now, day - DayOf(now), m)
  {
    DayOfDue(now, 7 - Weekday(DayOf(now)) + target, m);
  }

  /** It is a week after the plain weekday exactly if that day is still to come this week; else they are the same. */
  lemma NextWeekIsWeekLaterIff(now: int, target: int, m: TimeMatch)
    requires 0 <= target < 7
    ensures var plain, next := NextWeekday(now, target, m), NextWeekdayNextWeek(now, target, m);
      && (next == plain + 7 * DAY <==> target > Weekday(DayOf(now)))
      && (next == plain <==> target <= Weekday(DayOf(now)))
  {
    var w := Weekday(DayOf(now));
    if target > w {
      assert (target - w) % 7 == target - w;
    } else {
      assert (target - w + 7) % 7 == (target - w) % 7;
    }
  }

  // ---------- Reminders ----------

  /** `datetime.replace(second=0, microsecond=0)` */
  function Truncated(moment: int): int {
    moment / MINUTE * MINUTE
  }

  /** `_relative` */
  function Relative(now: int, amount: nat, hours: bool): int {
    Truncated(now + amount * if hours then HOUR else MINUTE)
  }

  /** `None` is the exception for a time that does not exist or has passed. */
  datatype Reminder = Refused | Accepted(moment: int)

  /** `_absolute` */
  function Absolute(now: int, today: bool, hour: nat, minute: nat): Reminder {
    if hour > 23 || minute > 59 then Refused
    else
      var moment := MomentAt(DayOf(now) + if today then 0 else 1, hour, minute);
      if moment <= now then Refused else Accepted(moment)
  }

  /**
   A relative reminder is less than a minute early, and strictly in the future if and only if the amount is not
   zero.
   */
  lemma RelativeBounds(now: int, amount: nat, hours: bool)
    ensures var delta := amount * if hours then HOUR else MINUTE;
      now + delta - MINUTE < Relative(now, amount, hours) <= now + delta
    ensures Relative(now, amount, hours) > now <==> amount >= 1
  {
    var unit := if hours then HOUR else MINUTE;
    assert amount >= 1 ==> amount * unit >= unit;
  }

  /** An absolute reminder is accepted if and only if its time exists and is to come; one for tomorrow always is. */
  lemma AbsoluteIff(now: int, today: bool, hour: nat, minute: nat)
    ensures Absolute(now, today, hour, minute).Accepted? <==>
      IsTimeOfDay(hour, minute) && (today ==> hour * HOUR + minute * MINUTE > now - DayOf(now) * DAY)
    ensures Absolute(now, today, hour, minute).Accepted? ==>
      var moment := Absolute(now, today, hour, minute).moment;
      && moment > now && DayOf(moment) == DayOf(now) + (if today then 0 else 1)
      && moment - DayOf(moment) * 86400000000 == hour * 3600000000 + minute * 60000000
  {
    if IsTimeOfDay(hour, minute) {
      DayOfAt(DayOf(now) + if today then 0 else 1, hour, minute);
    }
  }
}
