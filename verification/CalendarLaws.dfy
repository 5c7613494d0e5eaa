/** The calendar behind the timestamps: its order, its leap years, and the longest range an export may ask for. */
module CalendarLaws {
  import opened Bytes
  import opened CivilTime
  import opened AuditExport

  /** Calendar order: the first field that differs decides, years first. */
  predicate Earlier(a: Time, b: Time) {
    if a.year != b.year then a.year < b.year
    else if a.month != b.month then a.month < b.month
    else if a.day != b.day then a.day < b.day
    else if a.hour != b.hour then a.hour < b.hour
    else if a.minute != b.minute then a.minute < b.minute
    else if a.second != b.second then a.second < b.second
    else a.nano < b.nano
  }

  lemma SixtyOrder(p: int, q: int, r: int, s: int)
    requires 0 <= r < 60 && 0 <= s < 60
    ensures p * 60 + r < q * 60 + s <==> p < q || (p == q && r < s)
  {
  }

  /** The number orders instants by the calendar. */
  lemma TicksOrder(a: Time, b: Time)
    ensures Ticks(a) < Ticks(b) <==> Earlier(a, b)
  {
    var h, h' := (MonthOf(a) * 31 + (a.day - 1)) * 24 + a.hour, (MonthOf(b) * 31 + (b.day - 1)) * 24 + b.hour;
    assert MonthOf(a) < MonthOf(b) <==> a.year < b.year || (a.year == b.year && a.month < b.month);
    SixtyOrder(h, h', a.minute, b.minute);
    SixtyOrder(h * 60 + a.minute, h' * 60 + b.minute, a.second, b.second);
  }

  function LeapYears(n: nat): nat {
    if n == 0 then 0 else LeapYears(n - 1) + if Leap(n) then 1 else 0
  }

  /** A leap year every four, not every hundred, but every four hundred. */
  lemma {:induction false} LeapCount(n: nat)
    ensures LeapYears(n) == n / 4 - n / 100 + n / 400
  {
    if n > 0 {
      LeapCount(n - 1);
      NextMultiple(n - 1);
    }
  }

  lemma NextMultiple(n: nat)
    ensures (n + 1) / 4 == n / 4 + if (n + 1) % 4 == 0 then 1 else 0
    ensures (n + 1) / 100 == n / 100 + if (n + 1) % 100 == 0 then 1 else 0
    ensures (n + 1) / 400 == n / 400 + if (n + 1) % 400 == 0 then 1 else 0
    ensures (n + 1) % 400 == 0 ==> (n + 1) % 100 == 0
    ensures (n + 1) % 100 == 0 ==> (n + 1) % 4 == 0
  {
  }

  /** The days of a year before the given month. */
  function DaysBefore(year: nat, month: nat): nat {
    if month <= 1 then 0 else DaysBefore(year, month - 1) + DaysIn(year, month - 1)
  }

  /** Outside February months start where they do in any year: 153 days in every five months from March on. */
  lemma MonthStarts(year: nat, month: nat)
    requires 3 <= month <= 13
    ensures DaysBefore(year, month) == (153 * (month - 3) + 2) / 5 + if Leap(year) then 60 else 59
    decreases month
  {
    if month == 3 {
      assert DaysBefore(year, 2) == 31;
    } else {
      MonthStarts(year, month - 1);
    }
  }

  /** The same time of day on the same day of the month, the given number of months later; a day that month does not
      have is counted on into the next. */
  function SameDayLater(t: Time, months: nat): Civil {
    var m := MonthOf(t) + months;
    var days := DaysIn(m / 12, m % 12 + 1);
    if t.day <= days then t.(year := m / 12, month := m % 12 + 1)
    else t.(year := (m + 1) / 12, month := (m + 1) % 12 + 1, day := t.day - days)
  }

  /** A range is refused exactly when it ends before it starts or more than thirteen calendar months after it. */
  lemma RangeLimit(teamId: Bytes, since: Time, until: Time, now: Time)
    requires teamId != [] && ValidCivil(SameDayLater(since, 13))
    ensures var r := Bounds(teamId, Some(since), Some(until), now);
            var limit: Time := SameDayLater(since, 13);
            && (r == Err(SinceAfterUntil) <==> Earlier(until, since))
            && (r == Err(RangeTooLarge) <==> !Earlier(until, since) && Earlier(limit, until))
            && (r.Ok? <==> !Earlier(until, since) && !Earlier(limit, until))
  {
    var limit: Time := SameDayLater(since, 13);
    TicksOrder(until, since);
    TicksOrder(limit, until);
    assert Ticks(limit) == MonthsLater(since, 13);
  }
}
