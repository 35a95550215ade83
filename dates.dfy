/**
 * Calendar dates as Python's `datetime.date` holds them (proleptic Gregorian, years 1 to 9999),
 * their ordering, and the `date - relativedelta(months=n)` step used for the consumption window.
 */
module Dates {
  import opened Wrappers

  datatype Date = Date(year: int, month: int, day: int)

  datatype Time = Time(hour: int, minute: int, second: int)

  datatype DateTime = DateTime(date: Date, time: Time)

  const MinYear := 1
  const MaxYear := 9999

  predicate IsLeap(y: int) {
    y % 4 == 0 && (y % 100 != 0 || y % 400 == 0)
  }

  function DaysInMonth(y: int, m: int): (n: int)
    requires 1 <= m <= 12
    ensures 28 <= n <= 31
  {
    if m == 2 then (if IsLeap(y) then 29 else 28)
    else if m == 4 || m == 6 || m == 9 || m == 11 then 30
    else 31
  }

  /** The arguments `date(year, month, day)` accepts without raising `ValueError`. */
  predicate ValidDate(d: Date) {
    && MinYear <= d.year <= MaxYear
    && 1 <= d.month <= 12
    && 1 <= d.day <= DaysInMonth(d.year, d.month)
  }

  /** The arguments `time(hour, minute, second)` accepts. */
  predicate ValidTime(t: Time) {
    0 <= t.hour < 24 && 0 <= t.minute < 60 && 0 <= t.second < 60
  }

  predicate ValidDateTime(dt: DateTime) {
    ValidDate(dt.date) && ValidTime(dt.time)
  }

  /** `a <= b` on dates: chronological order. */
  predicate DateLe(a: Date, b: Date) {
    a.year < b.year || (a.year == b.year && (a.month < b.month || (a.month == b.month && a.day <= b.day)))
  }

  lemma DateLeTotalOrder(a: Date, b: Date, c: Date)
    ensures DateLe(a, a)
    ensures DateLe(a, b) || DateLe(b, a)
    ensures DateLe(a, b) && DateLe(b, a) ==> a == b
    ensures DateLe(a, b) && DateLe(b, c) ==> DateLe(a, c)
  {
  }

  /**
   * `d - relativedelta(months=n)` for `n` in 0..12: the same day `n` months earlier, clamped to
   * the last day of that month; None when the result would fall before year 1 (where
   * `date.replace` raises `ValueError`).
   */
  function MonthsBefore(d: Date, n: nat): (r: Option<Date>)
    requires ValidDate(d) && n <= 12
    ensures r.Some? ==> ValidDate(r.value) && DateLe(r.value, d)
    ensures r.None? <==> d.year * 12 + d.month - 1 - n < 12
    ensures r.Some? ==> r.value.year * 12 + r.value.month == d.year * 12 + d.month - n
    ensures r.Some? ==> r.value.day == if d.day <= DaysInMonth(r.value.year, r.value.month)
                                      then d.day else DaysInMonth(r.value.year, r.value.month)
  {
    var month := d.month - n;
    var year := if month < 1 then d.year - 1 else d.year;
    var month' := if month < 1 then month + 12 else month;
    if year < MinYear then None
    else
      var last := DaysInMonth(year, month');
      Some(Date(year, month', if d.day <= last then d.day else last))
  }
}
