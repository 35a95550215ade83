/**
 * The text forms of dates: `datetime.strptime` with the formats the inventory code uses
 * (`%Y-%m-%d`, `%d/%m/%Y`, `%d/%m/%y`, `%d/%m/%Y %H:%M:%S`, `%d/%m/%Y %H:%M`) and `strftime`
 * with `%d/%m/%Y` and `%d/%m/%Y %H:%M:%S`.
 *
 * `strptime` turns each directive into a regular expression (`%d` is `3[01]|[12]\d|0[1-9]|[1-9]|
 * [1-9]`, `%m` is `1[0-2]|0[1-9]|[1-9]`, `%Y` four digits, `%y` two digits, `%H`
 * `2[0-3]|[0-1]\d|\d`, `%M` `[0-5]\d|\d`, `%S` `6[0-1]|[0-5]\d|\d`, a space `\s+`), requires the
 * whole text to match, and then builds the value, which raises `ValueError` for an impossible
 * date or a second of 60 or 61. Since no directive's text holds the separator that follows it,
 * matching is the same as cutting the text at the separators and checking each piece.
 */
module DateFormats {
  import opened Wrappers
  import opened PyText
  import opened Dates

  /**
   * A one- or two-digit directive whose two-digit forms are exactly the values `lo..hi` and whose
   * one-digit forms are the values `lo..9`.
   */
  function NumToken(s: string, lo: nat, hi: nat): (r: Option<int>)
    ensures r.Some? ==> lo <= r.value <= hi || (|s| == 1 && lo <= r.value <= 9)
  {
    if |s| == 1 && IsDigit(s[0]) && lo <= DigitValue(s[0]) then Some(DigitValue(s[0]))
    else if |s| == 2 && AllDigits(s) && lo <= DigitsValue(s) <= hi then Some(DigitsValue(s))
    else None
  }

  /** `%d`, including its space-then-digit form. */
  function DayToken(s: string): (r: Option<int>)
    ensures r.Some? ==> 1 <= r.value <= 31
  {
    if |s| == 2 && s[0] == ' ' && IsDigit(s[1]) && s[1] != '0' then Some(DigitValue(s[1]))
    else NumToken(s, 1, 31)
  }

  function MonthToken(s: string): (r: Option<int>)
    ensures r.Some? ==> 1 <= r.value <= 12
  {
    NumToken(s, 1, 12)
  }

  /** `%Y`: exactly four digits. */
  function YearToken(s: string): (r: Option<int>)
    ensures r.Some? ==> 0 <= r.value <= 9999
  {
    if |s| == 4 && AllDigits(s) then
      DigitsValueBound(s);
      Some(DigitsValue(s))
    else None
  }

  /** `%y`: two digits, 00 to 68 meaning 2000 to 2068 and 69 to 99 meaning 1969 to 1999. */
  function ShortYearToken(s: string): (r: Option<int>)
    ensures r.Some? ==> 1969 <= r.value <= 2068
  {
    if |s| == 2 && AllDigits(s) then
      DigitsValueBound(s);
      var v := DigitsValue(s);
      Some(if v <= 68 then 2000 + v else 1900 + v)
    else None
  }

  /** `date(y, m, d)`, or None where it raises `ValueError`. */
  function MakeDate(y: int, m: int, d: int): (r: Option<Date>)
    ensures r.Some? <==> ValidDate(Date(y, m, d))
    ensures r.Some? ==> r.value == Date(y, m, d)
  {
    if ValidDate(Date(y, m, d)) then Some(Date(y, m, d)) else None
  }

  /** `datetime.strptime(s, '%d/%m/%Y')` (or `'%d/%m/%y'` when `!fourDigitYear`). */
  function ParseDayMonthYear(s: string, fourDigitYear: bool): (r: Option<Date>)
    ensures r.Some? ==> ValidDate(r.value)
    ensures r.Some? && !fourDigitYear ==> 1969 <= r.value.year <= 2068
  {
    var parts := Split(s, '/');
    if |parts| != 3 then None
    else
      var year := if fourDigitYear then YearToken(parts[2]) else ShortYearToken(parts[2]);
      match (DayToken(parts[0]), MonthToken(parts[1]), year)
      case (Some(d), Some(m), Some(y)) => MakeDate(y, m, d)
      case _ => None
  }

  /** `datetime.strptime(s, '%Y-%m-%d').date()`. */
  function ParseIsoDate(s: string): (r: Option<Date>)
    ensures r.Some? ==> ValidDate(r.value)
  {
    var parts := Split(s, '-');
    if |parts| != 3 then None
    else
      match (YearToken(parts[0]), MonthToken(parts[1]), DayToken(parts[2]))
      case (Some(y), Some(m), Some(d)) => MakeDate(y, m, d)
      case _ => None
  }

  /**
   * The Brazilian date formats tried in order, `%d/%m/%Y` then `%d/%m/%y`; the first that
   * parses wins.
   */
  function ParseBrDate(s: string): (r: Option<Date>)
    ensures r.Some? ==> ValidDate(r.value)
    ensures ParseDayMonthYear(s, true).Some? ==> r == ParseDayMonthYear(s, true)
    ensures ParseDayMonthYear(s, true).None? ==> r == ParseDayMonthYear(s, false)
  {
    match ParseDayMonthYear(s, true)
    case Some(d) => Some(d)
    case None => ParseDayMonthYear(s, false)
  }

  /** `%H:%M:%S` (or `%H:%M` when `!withSeconds`), seconds 60 and 61 rejected by `datetime`. */
  function ParseClock(s: string, withSeconds: bool): (r: Option<Time>)
    ensures r.Some? ==> ValidTime(r.value)
    ensures r.Some? && !withSeconds ==> r.value.second == 0
  {
    var parts := Split(s, ':');
    if withSeconds && |parts| == 3 then
      match (NumToken(parts[0], 0, 23), NumToken(parts[1], 0, 59), NumToken(parts[2], 0, 61))
      case (Some(h), Some(m), Some(sec)) => if sec < 60 then Some(Time(h, m, sec)) else None
      case _ => None
    else if !withSeconds && |parts| == 2 then
      match (NumToken(parts[0], 0, 23), NumToken(parts[1], 0, 59))
      case (Some(h), Some(m)) => Some(Time(h, m, 0))
      case _ => None
    else None
  }

  /** The index of the first whitespace character at or after `from`, if any. */
  function SpaceFrom(s: string, from: nat): (r: Option<nat>)
    requires from <= |s|
    ensures r.Some? ==> from <= r.value < |s| && IsSpace(s[r.value])
    ensures r.Some? ==> forall k :: from <= k < r.value ==> !IsSpace(s[k])
    ensures r.None? ==> forall k :: from <= k < |s| ==> !IsSpace(s[k])
    decreases |s| - from
  {
    if from == |s| then None
    else if IsSpace(s[from]) then Some(from)
    else SpaceFrom(s, from + 1)
  }

  /** The end of the run of whitespace that starts at `i`. */
  function SpaceRunEnd(s: string, i: nat): (j: nat)
    requires i <= |s|
    ensures i <= j <= |s|
    ensures forall k :: i <= k < j ==> IsSpace(s[k])
    ensures j == |s| || !IsSpace(s[j])
    decreases |s| - i
  {
    if i < |s| && IsSpace(s[i]) then SpaceRunEnd(s, i + 1) else i
  }

  /**
   * `strptime` with `'%d/%m/%Y %H:%M:%S'` or `'%d/%m/%Y %H:%M'`: the date, one or more
   * whitespace characters, the clock. Only the first character can belong to `%d`'s
   * space-then-digit form, so the date ends at the first whitespace after it.
   */
  function ParseDateAndClock(s: string, withSeconds: bool): (r: Option<DateTime>)
    ensures r.Some? ==> ValidDateTime(r.value)
  {
    if |s| == 0 then None
    else match SpaceFrom(s, 1)
      case None => None
      case Some(i) =>
        var j := SpaceRunEnd(s, i);
        match (ParseDayMonthYear(s[..i], true), ParseClock(s[j..], withSeconds))
        case (Some(d), Some(t)) => Some(DateTime(d, t))
        case _ => None
  }

  /**
   * The Brazilian date-time formats tried in order: `%d/%m/%Y %H:%M:%S`, `%d/%m/%Y %H:%M`,
   * `%d/%m/%Y` (midnight); the first that parses wins.
   */
  function ParseBrDateTime(s: string): (r: Option<DateTime>)
    ensures r.Some? ==> ValidDateTime(r.value)
    ensures ParseDateAndClock(s, true).Some? ==> r == ParseDateAndClock(s, true)
    ensures ParseDateAndClock(s, true).None? && ParseDateAndClock(s, false).Some? ==>
              r == ParseDateAndClock(s, false)
  {
    match ParseDateAndClock(s, true)
    case Some(dt) => Some(dt)
    case None =>
      match ParseDateAndClock(s, false)
      case Some(dt) => Some(dt)
      case None =>
        match ParseDayMonthYear(s, true)
        case Some(d) => Some(DateTime(d, Time(0, 0, 0)))
        case None => None
  }

  /** `strftime('%d/%m/%Y')`: day and month two digits, year four. */
  function FormatBrDate(d: Date): string
    requires ValidDate(d)
  {
    PadNat(d.day, 2) + "/" + PadNat(d.month, 2) + "/" + PadNat(d.year, 4)
  }

  /** `strftime('%H:%M:%S')`. */
  function FormatClock(t: Time): string
    requires ValidTime(t)
  {
    PadNat(t.hour, 2) + ":" + PadNat(t.minute, 2) + ":" + PadNat(t.second, 2)
  }

  /** `strftime('%d/%m/%Y %H:%M:%S')`. */
  function FormatBrDateTime(dt: DateTime): string
    requires ValidDateTime(dt)
  {
    FormatBrDate(dt.date) + " " + FormatClock(dt.time)
  }

  /** A number below 10^width written by `PadNat` takes exactly `width` characters. */
  lemma {:induction false} NatToStringLength(n: nat, width: nat)
    requires n < Pow10(width) && width >= 1
    ensures |NatToString(n)| <= width
  {
    if n >= 10 {
      NatToStringLength(n / 10, width - 1);
    }
  }

  lemma PaddedLength(n: nat, width: nat)
    requires n < Pow10(width) && width >= 1
    ensures |PadNat(n, width)| == width
    ensures '/' !in PadNat(n, width) && ':' !in PadNat(n, width) && '-' !in PadNat(n, width)
    ensures NoSpace(PadNat(n, width))
  {
    NatToStringLength(n, width);
    var s := PadNat(n, width);
    assert forall k :: 0 <= k < |s| ==> IsDigit(s[k]);
  }

  /** No whitespace anywhere in `s`. */
  predicate NoSpace(s: string) {
    forall k :: 0 <= k < |s| ==> !IsSpace(s[k])
  }

  lemma NoSpaceJoin(x: string, y: string)
    requires NoSpace(x) && NoSpace(y)
    ensures NoSpace(x + y)
  {
    forall k | 0 <= k < |x + y|
      ensures !IsSpace((x + y)[k])
    {
      if k >= |x| {
        assert (x + y)[k] == y[k - |x|];
      }
    }
  }

  /** Two padded digits of a value in `lo..hi` are read back by a two-digit directive. */
  lemma TwoDigitsRead(n: nat, lo: nat, hi: nat)
    requires lo <= n <= hi && n < 100
    ensures NumToken(PadNat(n, 2), lo, hi) == Some(n)
  {
    PaddedLength(n, 2);
  }

  lemma PaddedDateSplits(d: Date)
    requires ValidDate(d)
    ensures Split(FormatBrDate(d), '/') == [PadNat(d.day, 2), PadNat(d.month, 2), PadNat(d.year, 4)]
  {
    PaddedLength(d.day, 2);
    PaddedLength(d.month, 2);
    PaddedLength(d.year, 4);
    SplitThree(PadNat(d.day, 2), PadNat(d.month, 2), PadNat(d.year, 4), '/');
  }

  /** Parsing what `FormatBrDate` renders gives back the same date. */
  lemma BrDateRoundTrip(d: Date)
    requires ValidDate(d)
    ensures ParseDayMonthYear(FormatBrDate(d), true) == Some(d)
    ensures ParseBrDate(FormatBrDate(d)) == Some(d)
  {
    PaddedDateSplits(d);
    TwoDigitsRead(d.day, 1, 31);
    TwoDigitsRead(d.month, 1, 12);
    PaddedLength(d.year, 4);
    assert YearToken(PadNat(d.year, 4)) == Some(d.year);
  }

  /** A rendered date is ten characters, none of them whitespace. */
  lemma BrDateShape(d: Date)
    requires ValidDate(d)
    ensures |FormatBrDate(d)| == 10
    ensures NoSpace(FormatBrDate(d))
  {
    var a, b, c := PadNat(d.day, 2), PadNat(d.month, 2), PadNat(d.year, 4);
    PaddedLength(d.day, 2);
    PaddedLength(d.month, 2);
    PaddedLength(d.year, 4);
    assert NoSpace("/");
    NoSpaceJoin(a, "/");
    NoSpaceJoin(a + "/", b);
    NoSpaceJoin(a + "/" + b, "/");
    NoSpaceJoin(a + "/" + b + "/", c);
  }

  lemma ClockRoundTrip(t: Time)
    requires ValidTime(t)
    ensures ParseClock(FormatClock(t), true) == Some(t)
  {
    var h, m, sec := PadNat(t.hour, 2), PadNat(t.minute, 2), PadNat(t.second, 2);
    assert Split(FormatClock(t), ':') == [h, m, sec] by {
      PaddedLength(t.hour, 2);
      PaddedLength(t.minute, 2);
      PaddedLength(t.second, 2);
      SplitThree(h, m, sec, ':');
    }
    TwoDigitsRead(t.hour, 0, 23);
    TwoDigitsRead(t.minute, 0, 59);
    TwoDigitsRead(t.second, 0, 61);
  }

  /** A ten-character date, one space and a clock are cut back into the date and the clock. */
  lemma DateSpaceClockCut(date: string, clock: string)
    requires |date| == 10 && NoSpace(date)
    requires clock != [] && !IsSpace(clock[0])
    ensures SpaceFrom(date + " " + clock, 1) == Some(10)
    ensures SpaceRunEnd(date + " " + clock, 10) == 11
  {
    var s := date + " " + clock;
    assert forall k :: 1 <= k < 10 ==> s[k] == date[k];
    assert s[10] == ' ' && s[11] == clock[0];
    assert SpaceRunEnd(s, 11) == 11;
  }

  /** A ten-character date, one space and a clock parse as the date and the clock parse. */
  lemma DateSpaceClockParse(date: string, clock: string, withSeconds: bool)
    requires |date| == 10 && NoSpace(date)
    requires clock != [] && !IsSpace(clock[0])
    requires ParseDayMonthYear(date, true).Some? && ParseClock(clock, withSeconds).Some?
    ensures ParseDateAndClock(date + " " + clock, withSeconds)
            == Some(DateTime(ParseDayMonthYear(date, true).value, ParseClock(clock, withSeconds).value))
  {
    var s := date + " " + clock;
    DateSpaceClockCut(date, clock);
    assert s[..10] == date && s[11..] == clock;
  }

  lemma DateAndClockRoundTrip(dt: DateTime)
    requires ValidDateTime(dt)
    ensures ParseDateAndClock(FormatBrDateTime(dt), true) == Some(dt)
  {
    var date := FormatBrDate(dt.date);
    var clock := FormatClock(dt.time);
    assert !IsSpace(clock[0]) by {
      PaddedLength(dt.time.hour, 2);
      assert clock[0] == PadNat(dt.time.hour, 2)[0];
    }
    BrDateShape(dt.date);
    BrDateRoundTrip(dt.date);
    ClockRoundTrip(dt.time);
    DateSpaceClockParse(date, clock, true);
  }

  /** Parsing what `FormatBrDateTime` renders gives back the same date and time. */
  lemma BrDateTimeRoundTrip(dt: DateTime)
    requires ValidDateTime(dt)
    ensures ParseBrDateTime(FormatBrDateTime(dt)) == Some(dt)
  {
    DateAndClockRoundTrip(dt);
  }

  /** `%Y-%m-%d` on three pieces without '-': each piece read by its directive. */
  lemma IsoDateOfPieces(y: string, m: string, d: string)
    requires '-' !in y && '-' !in m && '-' !in d
    ensures ParseIsoDate(y + "-" + m + "-" + d)
            == match (YearToken(y), MonthToken(m), DayToken(d))
               case (Some(yv), Some(mv), Some(dv)) => MakeDate(yv, mv, dv)
               case _ => None
  {
    SplitThree(y, m, d, '-');
  }

  /** `%Y-%m-%d` reads back a date written with four-digit year and two-digit month and day. */
  lemma IsoDateReadsCanonical(d: Date)
    requires ValidDate(d)
    ensures ParseIsoDate(PadNat(d.year, 4) + "-" + PadNat(d.month, 2) + "-" + PadNat(d.day, 2)) == Some(d)
  {
    var a, b, c := PadNat(d.year, 4), PadNat(d.month, 2), PadNat(d.day, 2);
    PaddedLength(d.day, 2);
    PaddedLength(d.month, 2);
    PaddedLength(d.year, 4);
    IsoDateOfPieces(a, b, c);
    assert DayToken(c) == Some(d.day) by {
      TwoDigitsRead(d.day, 1, 31);
    }
    assert MonthToken(b) == Some(d.month) by {
      TwoDigitsRead(d.month, 1, 12);
    }
    assert YearToken(a) == Some(d.year);
  }

  /** A month that is not a `%m` makes `%Y-%m-%d` fail, whatever the year and day. */
  lemma IsoDateRejectsMonth(y: string, m: string, d: string)
    requires '-' !in y && '-' !in m && '-' !in d
    requires MonthToken(m).None?
    ensures ParseIsoDate(y + "-" + m + "-" + d).None?
  {
    IsoDateOfPieces(y, m, d);
  }

  /** A month of 13 is not a `%m`: `2024-13-01` is rejected. */
  lemma IsoDateRejectsMonth13()
    ensures ParseIsoDate("2024" + "-" + "13" + "-" + "01").None?
  {
    assert MonthToken("13").None? by {
      assert DigitsValue("13") == 13 by {
        assert "13"[..1] == "1";
      }
    }
    assert '-' !in "2024" && '-' !in "13" && '-' !in "01";
    IsoDateRejectsMonth("2024", "13", "01");
  }
}
