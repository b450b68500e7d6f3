/** The part of the ECMAScript Date object the pipeline uses (ECMA-262,
    section 21.4): time values as integer milliseconds since the epoch, the
    proleptic Gregorian calendar (DayFromYear, YearFromTime, MonthFromTime,
    DateFromTime), MakeDay/MakeTime/MakeDate/TimeClip behind Date.UTC,
    Date.prototype.toISOString, and the parse of the ISO 8601 date-time string
    forms that reach `new Date(string)` here. */
module EcmaDate {
  import opened Types
  import opened JsString

  const MsPerSecond: int := 1000
  const MsPerMinute: int := 60000
  const MsPerHour: int := 3600000
  const MsPerDay: int := 86400000
  /** The largest magnitude a time value may have (TimeClip). */
  const MaxTime: int := 8640000000000000

  /** The [[DateValue]] of a Date object: a time value or NaN ("Invalid Date"). */
  datatype DateValue = Time(ms: int) | NaN

  // -------------------------------------------------------------- calendar

  predicate IsLeap(y: int) { y % 4 == 0 && (y % 100 != 0 || y % 400 == 0) }

  function DaysInYear(y: int): int { if IsLeap(y) then 366 else 365 }

  /** DayFromYear: the day number of 1 January of year `y`. */
  function DayFromYear(y: int): int {
    365 * (y - 1970) + (y - 1969) / 4 - (y - 1901) / 100 + (y - 1601) / 400
  }

  lemma LeapStep4(y: int)
    ensures ((y + 1) - 1969) / 4 - (y - 1969) / 4 == if y % 4 == 0 then 1 else 0
  {
    var k := y / 4;
    assert y == 4 * k + y % 4;
    assert ((y + 1) - 1969) / 4 == k - 492;
  }

  lemma LeapStep100(y: int)
    ensures ((y + 1) - 1901) / 100 - (y - 1901) / 100 == if y % 100 == 0 then 1 else 0
  {
    var k := y / 100;
    assert y == 100 * k + y % 100;
    assert ((y + 1) - 1901) / 100 == k - 19;
  }

  lemma LeapStep400(y: int)
    ensures ((y + 1) - 1601) / 400 - (y - 1601) / 400 == if y % 400 == 0 then 1 else 0
  {
    var k := y / 400;
    assert y == 400 * k + y % 400;
    assert ((y + 1) - 1601) / 400 == k - 4;
  }

  /** A year divisible by 400 is divisible by 100, and one divisible by 100
      is divisible by 4. */
  lemma DivisibilityChain(y: int)
    ensures y % 400 == 0 ==> y % 100 == 0
    ensures y % 100 == 0 ==> y % 4 == 0
  {
    if y % 400 == 0 {
      var k := y / 400;
      assert y == 100 * (4 * k);
    }
    if y % 100 == 0 {
      var k := y / 100;
      assert y == 4 * (25 * k);
    }
  }

  /** Consecutive years start DaysInYear apart. */
  lemma DayFromYearStep(y: int)
    ensures DayFromYear(y + 1) == DayFromYear(y) + DaysInYear(y)
  {
    LeapStep4(y);
    LeapStep100(y);
    LeapStep400(y);
    DivisibilityChain(y);
  }

  lemma {:induction false} DayFromYearMonotone(a: int, b: int)
    requires a < b
    ensures DayFromYear(a + 1) <= DayFromYear(b)
    decreases b - a
  {
    DayFromYearStep(b - 1);
    if a + 1 < b {
      DayFromYearMonotone(a, b - 1);
    }
  }

  /** Every 400-year cycle has 146097 days; 1 January of year 0 is day -719528. */
  lemma DayFromYearOfCycle(q: int)
    ensures DayFromYear(400 * q) == 146097 * q - 719528
  {
    assert 400 * q - 1969 == 4 * (100 * q - 493) + 3;
    assert (400 * q - 1969) / 4 == 100 * q - 493;
    assert 400 * q - 1901 == 100 * (4 * q - 20) + 99;
    assert (400 * q - 1901) / 100 == 4 * q - 20;
    assert 400 * q - 1601 == 400 * (q - 5) + 399;
    assert (400 * q - 1601) / 400 == q - 5;
  }

  function YearWalk(y: int, d: int): (r: int)
    requires DayFromYear(y) <= d
    ensures DayFromYear(r) <= d < DayFromYear(r + 1)
    decreases d - DayFromYear(y)
  {
    DayFromYearStep(y);
    if d < DayFromYear(y + 1) then y else YearWalk(y + 1, d)
  }

  /** YearFromTime on day numbers: the year whose days include day `d`. */
  function YearFromDay(d: int): (y: int)
    ensures DayFromYear(y) <= d < DayFromYear(y + 1)
  {
    var q := (d + 719528) / 146097;
    DayFromYearOfCycle(q);
    YearWalk(400 * q, d)
  }

  lemma YearFromDayUnique(y: int, d: int)
    requires DayFromYear(y) <= d < DayFromYear(y + 1)
    ensures YearFromDay(d) == y
  {
    var r := YearFromDay(d);
    if r < y { DayFromYearMonotone(r, y); }
    if y < r { DayFromYearMonotone(y, r); }
  }

  function DaysInMonth(y: int, m: int): int
    requires 1 <= m <= 12
  {
    if m == 2 then (if IsLeap(y) then 29 else 28)
    else if m == 4 || m == 6 || m == 9 || m == 11 then 30
    else 31
  }

  /** Days of year `y` before the first of month `m` (m = 13: the whole year). */
  function DaysBeforeMonth(y: int, m: int): int
    requires 1 <= m <= 13
  {
    (if IsLeap(y) && m > 2 then 1 else 0)
    + (if m == 1 then 0 else if m == 2 then 31 else if m == 3 then 59
       else if m == 4 then 90 else if m == 5 then 120 else if m == 6 then 151
       else if m == 7 then 181 else if m == 8 then 212 else if m == 9 then 243
       else if m == 10 then 273 else if m == 11 then 304 else if m == 12 then 334
       else 365)
  }

  lemma DaysBeforeMonthStep(y: int, m: int)
    requires 1 <= m <= 12
    ensures DaysBeforeMonth(y, m + 1) == DaysBeforeMonth(y, m) + DaysInMonth(y, m)
    ensures DaysBeforeMonth(y, 1) == 0 && DaysBeforeMonth(y, 13) == DaysInYear(y)
  {
  }

  /** MonthFromTime on the day within the year. */
  function MonthOfDayInYear(y: int, doy: int): (m: int)
    requires 0 <= doy < DaysInYear(y)
    ensures 1 <= m <= 12 && DaysBeforeMonth(y, m) <= doy < DaysBeforeMonth(y, m + 1)
  {
    if doy < DaysBeforeMonth(y, 2) then 1
    else if doy < DaysBeforeMonth(y, 3) then 2
    else if doy < DaysBeforeMonth(y, 4) then 3
    else if doy < DaysBeforeMonth(y, 5) then 4
    else if doy < DaysBeforeMonth(y, 6) then 5
    else if doy < DaysBeforeMonth(y, 7) then 6
    else if doy < DaysBeforeMonth(y, 8) then 7
    else if doy < DaysBeforeMonth(y, 9) then 8
    else if doy < DaysBeforeMonth(y, 10) then 9
    else if doy < DaysBeforeMonth(y, 11) then 10
    else if doy < DaysBeforeMonth(y, 12) then 11
    else 12
  }

  /** A calendar date; `month` counts from 1. */
  datatype Civil = Civil(year: int, month: int, day: int)

  predicate ValidCivil(c: Civil) {
    1 <= c.month <= 12 && 1 <= c.day <= DaysInMonth(c.year, c.month)
  }

  function DayFromCivil(c: Civil): int
    requires 1 <= c.month <= 12
  {
    DayFromYear(c.year) + DaysBeforeMonth(c.year, c.month) + c.day - 1
  }

  /** The calendar date of day number `d` (YearFromTime, MonthFromTime and
      DateFromTime together). */
  function CivilFromDay(d: int): (c: Civil)
    ensures ValidCivil(c) && DayFromCivil(c) == d
  {
    var y := YearFromDay(d);
    DayFromYearStep(y);
    var doy := d - DayFromYear(y);
    var m := MonthOfDayInYear(y, doy);
    DaysBeforeMonthStep(y, m);
    Civil(y, m, doy - DaysBeforeMonth(y, m) + 1)
  }

  lemma CivilRoundTrip(c: Civil)
    requires ValidCivil(c)
    ensures CivilFromDay(DayFromCivil(c)) == c
  {
    var d := DayFromCivil(c);
    DaysBeforeMonthStep(c.year, c.month);
    DayFromYearStep(c.year);
    YearFromDayUnique(c.year, d);
    MonthOfDayInYearUnique(c.year, d - DayFromYear(c.year), c.month);
  }

  /** The month whose days include day `doy` of the year is the only one. */
  lemma MonthOfDayInYearUnique(y: int, doy: int, m: int)
    requires 1 <= m <= 12 && DaysBeforeMonth(y, m) <= doy < DaysBeforeMonth(y, m + 1)
    ensures 0 <= doy < DaysInYear(y) && MonthOfDayInYear(y, doy) == m
  {
  }

  // ---------------------------------------------------------- time fields

  /** The broken-down UTC fields of a time value. */
  datatype Fields = Fields(year: int, month: int, day: int,
                           hour: int, minute: int, second: int, millisecond: int)

  predicate ValidFields(f: Fields) {
    && ValidCivil(Civil(f.year, f.month, f.day))
    && 0 <= f.hour < 24 && 0 <= f.minute < 60 && 0 <= f.second < 60
    && 0 <= f.millisecond < 1000
  }

  function TimeOfFields(f: Fields): int
    requires 1 <= f.month <= 12
  {
    DayFromCivil(Civil(f.year, f.month, f.day)) * MsPerDay
    + f.hour * MsPerHour + f.minute * MsPerMinute + f.second * MsPerSecond + f.millisecond
  }

  lemma TimeOfDaySplit(tod: int)
    requires 0 <= tod < MsPerDay
    ensures tod == (tod / MsPerHour) * MsPerHour + ((tod / MsPerMinute) % 60) * MsPerMinute
                   + ((tod / MsPerSecond) % 60) * MsPerSecond + tod % MsPerSecond
    ensures 0 <= tod / MsPerHour < 24
  {
    var s := tod / 1000;
    assert tod == 1000 * s + tod % 1000;
    var mi := s / 60;
    assert s == 60 * mi + s % 60;
    assert tod / 60000 == mi;
    var h := mi / 60;
    assert mi == 60 * h + mi % 60;
    assert tod / 3600000 == h;
  }

  /** HourFromTime, MinFromTime, SecFromTime, msFromTime and the date of `t`. */
  function FieldsOf(t: int): (f: Fields)
    ensures ValidFields(f) && TimeOfFields(f) == t
  {
    var c := CivilFromDay(t / MsPerDay);
    var tod := t % MsPerDay;
    TimeOfDaySplit(tod);
    Fields(c.year, c.month, c.day, tod / MsPerHour, (tod / MsPerMinute) % 60,
           (tod / MsPerSecond) % 60, tod % MsPerSecond)
  }

  lemma FieldsRoundTrip(f: Fields)
    requires ValidFields(f)
    ensures FieldsOf(TimeOfFields(f)) == f
  {
    var c := Civil(f.year, f.month, f.day);
    var tod := f.hour * MsPerHour + f.minute * MsPerMinute + f.second * MsPerSecond + f.millisecond;
    var t := TimeOfFields(f);
    assert 0 <= tod < MsPerDay;
    assert t / MsPerDay == DayFromCivil(c);
    assert t % MsPerDay == tod;
    CivilRoundTrip(c);
    assert tod / MsPerSecond == f.hour * 3600 + f.minute * 60 + f.second;
    assert tod / MsPerMinute == f.hour * 60 + f.minute;
  }

  // ------------------------------------------------------- Date.UTC parts

  function MakeTime(hour: int, min: int, sec: int, ms: int): int {
    hour * MsPerHour + min * MsPerMinute + sec * MsPerSecond + ms
  }

  /** MakeDay: month overflow carries into the year and the date counts on
      from the first of the month, so out-of-range dates roll over; None (NaN)
      when the first of the month lies outside the range of time values. */
  function MakeDay(year: int, month: int, date: int): Option<int> {
    var ym := year + month / 12;
    var mn := month % 12;
    var first := DayFromCivil(Civil(ym, mn + 1, 1));
    if first * MsPerDay < -MaxTime || first * MsPerDay > MaxTime then None
    else Some(first + date - 1)
  }

  function MakeDate(day: int, time: int): int { day * MsPerDay + time }

  function TimeClip(t: int): DateValue {
    if t < -MaxTime || t > MaxTime then NaN else Time(t)
  }

  /** Date.UTC(year, month, date, hours, minutes): a year from 0 to 99 means
      1900 + year; month counts from 0. */
  function DateUTC(year: int, month: int, date: int, hours: int, minutes: int): DateValue {
    var yr := if 0 <= year <= 99 then 1900 + year else year;
    match MakeDay(yr, month, date)
    case None => NaN
    case Some(day) => TimeClip(MakeDate(day, MakeTime(hours, minutes, 0, 0)))
  }

  /** Date.UTC on an in-range date is exactly the instant with those fields. */
  lemma DateUTCOfValidFields(f: Fields)
    requires ValidFields(f) && f.second == 0 && f.millisecond == 0
    requires !(0 <= f.year <= 99) && 0 <= f.year <= 9999
    ensures DateUTC(f.year, f.month - 1, f.day, f.hour, f.minute) == Time(TimeOfFields(f))
  {
    MonthInYear(f.month - 1);
    FourDigitYearFieldsInRange(f);
    var first := DayFromCivil(Civil(f.year, f.month, 1));
    var day := first + f.day - 1;
    assert MakeDay(f.year, f.month - 1, f.day) == Some(day);
    var t := MakeDate(day, MakeTime(f.hour, f.minute, 0, 0));
    assert t == TimeOfFields(f);
    assert DateUTC(f.year, f.month - 1, f.day, f.hour, f.minute) == TimeClip(t);
  }

  lemma MonthInYear(m: int)
    requires 0 <= m < 12
    ensures m / 12 == 0 && m % 12 == m
  {
  }

  /** The days from 1 January of year 0 to 31 December of 9999. */
  lemma FourDigitYearDays(y: int)
    requires 0 <= y <= 9999
    ensures -719528 <= DayFromYear(y) && DayFromYear(y) + DaysInYear(y) <= 2932897
  {
    DayFromYearMonotone(-1, y);
    DayFromYearMonotone(y, 10000);
    DayFromYearStep(y);
    DayFromYearOfCycle(0);
    DayFromYearOfCycle(25);
  }

  /** Valid fields of a four-digit year, and the first of their month, lie
      within the range of time values. */
  lemma FourDigitYearFieldsInRange(f: Fields)
    requires ValidFields(f) && 0 <= f.year <= 9999
    ensures -MaxTime <= TimeOfFields(f) <= MaxTime
    ensures -MaxTime <= DayFromCivil(Civil(f.year, f.month, 1)) * MsPerDay <= MaxTime
  {
    FourDigitYearDays(f.year);
    DaysBeforeMonthStep(f.year, f.month);
  }

  // --------------------------------------------------------- toISOString

  /** The year as toISOString writes it: four digits from 0 to 9999, otherwise
      a sign and six digits. */
  function IsoYear(y: int): string {
    if 0 <= y <= 9999 then ZeroPad(y, 4)
    else (if y < 0 then "-" else "+") + ZeroPad(if y < 0 then -y else y, 6)
  }

  /** `YYYY-MM-DDTHH:mm:ss.sss`, the shape shared by toISOString and the
      date-fns pattern "yyyy-MM-dd'T'HH:mm:ss.SSS", given the year text. */
  function DateTimeText(yearText: string, f: Fields): string
    requires ValidFields(f)
  {
    yearText + "-" + ZeroPad(f.month, 2) + "-" + ZeroPad(f.day, 2)
    + "T" + ZeroPad(f.hour, 2) + ":" + ZeroPad(f.minute, 2) + ":" + ZeroPad(f.second, 2)
    + "." + ZeroPad(f.millisecond, 3)
  }

  /** Date.prototype.toISOString: throws a RangeError (None) on an invalid date. */
  function ToIsoString(v: DateValue): Option<string> {
    match v
    case NaN => None
    case Time(t) =>
      var f := FieldsOf(t);
      Some(DateTimeText(IsoYear(f.year), f) + "Z")
  }

  /** A Date built from the time value of another plus `ms`
      (`new Date(d.getTime() + ms)`): NaN stays NaN, and the sum is clipped. */
  function AddTime(v: DateValue, ms: int): (r: DateValue)
    ensures v.NaN? ==> r.NaN?
    ensures v.Time? && -MaxTime <= v.ms + ms <= MaxTime ==> r == Time(v.ms + ms)
  {
    match v
    case NaN => NaN
    case Time(t) => TimeClip(t + ms)
  }

  // ------------------------------------------- date-fns formatting pattern

  /** The year of the era, which date-fns prints for `yyyy`: year 0 is 1 BC,
      year -1 is 2 BC, and so on. */
  function EraYear(y: int): (e: nat)
    ensures e >= 1
    ensures y >= 1 ==> e == y
  {
    if y > 0 then y else 1 - y
  }

  /** format(d, "yyyy-MM-dd'T'HH:mm:ss.SSS") on the wall-clock fields of `d`. */
  function FormatLocal(f: Fields): string
    requires ValidFields(f)
  {
    DateTimeText(ZeroPad(EraYear(f.year), 4), f)
  }

  /** For years 1 to 9999 the date-fns pattern and toISOString print the same
      digits. */
  lemma FormatLocalIsIso(t: int)
    requires 1 <= FieldsOf(t).year <= 9999
    ensures ToIsoString(Time(t)) == Some(FormatLocal(FieldsOf(t)) + "Z")
  {
  }

  /** The two print different years before year 1: toISOString writes year 0
      as "0000", the date-fns pattern as "0001" (1 BC). */
  lemma FormatLocalDiffersBeforeYearOne(t: int)
    requires FieldsOf(t).year == 0
    ensures ToIsoString(Time(t)) != Some(FormatLocal(FieldsOf(t)) + "Z")
  {
    var f := FieldsOf(t);
    PadZeroOne();
    DateTimeTextStart(ZeroPad(0, 4), f);
    DateTimeTextStart(ZeroPad(1, 4), f);
  }

  /** The two differ after year 9999 too: toISOString opens with the sign of
      an expanded year ("+010000"), the date-fns pattern with a digit ("10000"). */
  lemma FormatLocalDiffersAfterYear9999(t: int)
    requires FieldsOf(t).year > 9999
    ensures ToIsoString(Time(t)) != Some(FormatLocal(FieldsOf(t)) + "Z")
  {
    var f := FieldsOf(t);
    var era := ZeroPad(EraYear(f.year), 4);
    assert |era| >= 1 && IsDigit(era[0]);
    assert (FormatLocal(f) + "Z")[0] == era[0];
    assert (DateTimeText(IsoYear(f.year), f) + "Z")[0] == '+';
  }

  lemma PadZeroOne()
    ensures ZeroPad(0, 4) == "0000" && ZeroPad(1, 4) == "0001"
  {
    assert seq(3, _ => '0') == "000";
  }

  /** A four-character year text opens the date-time text. */
  lemma DateTimeTextStart(yearText: string, f: Fields)
    requires ValidFields(f) && |yearText| == 4
    ensures (DateTimeText(yearText, f) + "Z")[..4] == yearText
  {
  }

  // ------------------------------------------------------ ISO string parse

  /** The value of the `n` decimal digits of `s` at offset `i`, if they are all digits. */
  function NumberAt(s: string, i: nat, n: nat): Option<int>
    requires i + n <= |s|
  {
    if AllDigits(s[i..i + n]) then Some(DigitsValue(s[i..i + n])) else None
  }

  /** The fields of `YYYY-MM-DD` at the start of `s` (time fields zero). */
  function DateFields(s: string): Option<Fields>
    requires |s| >= 10
  {
    match (NumberAt(s, 0, 4), NumberAt(s, 5, 2), NumberAt(s, 8, 2))
    case (Some(y), Some(m), Some(d)) =>
      if s[4] == '-' && s[7] == '-' && 1 <= m <= 12 && 1 <= d <= DaysInMonth(y, m)
      then Some(Fields(y, m, d, 0, 0, 0, 0)) else None
    case _ => None
  }

  /** The fields of `THH:mm`, `THH:mm:ss` or `THH:mm:ss.sss` followed by `Z`
      after the date of `s`. */
  function TimeFields(s: string, date: Fields): Option<Fields>
    requires |s| == 17 || |s| == 20 || |s| == 24
  {
    var sec := if |s| >= 20 then NumberAt(s, 17, 2) else Some(0);
    var ms := if |s| == 24 then NumberAt(s, 20, 3) else Some(0);
    var seps := s[10] == 'T' && s[13] == ':' && s[|s| - 1] == 'Z'
                && (|s| >= 20 ==> s[16] == ':') && (|s| == 24 ==> s[19] == '.');
    match (NumberAt(s, 11, 2), NumberAt(s, 14, 2), sec, ms)
    case (Some(h), Some(mi), Some(se), Some(mil)) =>
      if seps && h < 24 && mi < 60 && se < 60
      then Some(date.(hour := h, minute := mi, second := se, millisecond := mil))
      else None
    case _ => None
  }

  /** The time value of an ISO 8601 string in one of the forms YYYY-MM-DD,
      YYYY-MM-DDTHH:mmZ, YYYY-MM-DDTHH:mm:ssZ, YYYY-MM-DDTHH:mm:ss.sssZ, all
      read as UTC; None for anything else, including out-of-range fields. */
  function ParseIso(s: string): (r: Option<int>)
  {
    if |s| == 10 || |s| == 17 || |s| == 20 || |s| == 24 then
      match DateFields(s)
      case None => None
      case Some(d) =>
        if |s| == 10 then Some(TimeOfFields(d))
        else match TimeFields(s, d)
          case None => None
          case Some(f) => Some(TimeOfFields(f))
    else None
  }

  lemma NumberAtPadded(s: string, i: nat, n: nat, w: nat)
    requires w >= 1 && n < Pow10(w) && i + w <= |s| && s[i..i + w] == ZeroPad(n, w)
    ensures NumberAt(s, i, w) == Some(n)
  {
    ZeroPadValue(n, w);
  }

  /** Where each piece of a `YYYY-MM-DDTHH:mm:ss.sssZ` text sits. */
  lemma IsoTextLayout(y: string, mo: string, d: string, h: string, mi: string,
                      se: string, ms: string)
    requires |y| == 4 && |mo| == 2 && |d| == 2 && |h| == 2 && |mi| == 2 && |se| == 2 && |ms| == 3
    ensures var s := y + "-" + mo + "-" + d + "T" + h + ":" + mi + ":" + se + "." + ms + "Z";
      && |s| == 24
      && s[0..4] == y && s[4] == '-' && s[5..7] == mo && s[7] == '-' && s[8..10] == d
      && s[10] == 'T' && s[11..13] == h && s[13] == ':' && s[14..16] == mi && s[16] == ':'
      && s[17..19] == se && s[19] == '.' && s[20..23] == ms && s[23] == 'Z'
  {
  }

  /** Where toISOString puts each field of a year 0 to 9999 instant, as the
      parser reads them back. */
  lemma IsoTextFields(t: int)
    requires 0 <= FieldsOf(t).year <= 9999
    ensures ToIsoString(Time(t)).Some?
    ensures var s, f := ToIsoString(Time(t)).value, FieldsOf(t);
      && |s| == 24
      && NumberAt(s, 0, 4) == Some(f.year) && NumberAt(s, 5, 2) == Some(f.month)
      && NumberAt(s, 8, 2) == Some(f.day) && NumberAt(s, 11, 2) == Some(f.hour)
      && NumberAt(s, 14, 2) == Some(f.minute) && NumberAt(s, 17, 2) == Some(f.second)
      && NumberAt(s, 20, 3) == Some(f.millisecond)
      && s[4] == '-' && s[7] == '-' && s[10] == 'T' && s[13] == ':' && s[16] == ':'
      && s[19] == '.' && s[23] == 'Z'
  {
    var f := FieldsOf(t);
    var s := DateTimeText(ZeroPad(f.year, 4), f) + "Z";
    assert IsoYear(f.year) == ZeroPad(f.year, 4);
    assert ToIsoString(Time(t)) == Some(s);
    IsoTextOfFields(f, s);
  }

  /** The same, for the text of any valid fields of a four-digit year. */
  lemma IsoTextOfFields(f: Fields, s: string)
    requires ValidFields(f) && 0 <= f.year <= 9999
    requires s == DateTimeText(ZeroPad(f.year, 4), f) + "Z"
    ensures |s| == 24
    ensures && NumberAt(s, 0, 4) == Some(f.year) && NumberAt(s, 5, 2) == Some(f.month)
      && NumberAt(s, 8, 2) == Some(f.day) && NumberAt(s, 11, 2) == Some(f.hour)
      && NumberAt(s, 14, 2) == Some(f.minute) && NumberAt(s, 17, 2) == Some(f.second)
      && NumberAt(s, 20, 3) == Some(f.millisecond)
    ensures && s[4] == '-' && s[7] == '-' && s[10] == 'T' && s[13] == ':' && s[16] == ':'
      && s[19] == '.' && s[23] == 'Z'
  {
    Pow10Small();
    ZeroPadValue(f.year, 4);
    ZeroPadValue(f.month, 2);
    ZeroPadValue(f.day, 2);
    ZeroPadValue(f.hour, 2);
    ZeroPadValue(f.minute, 2);
    ZeroPadValue(f.second, 2);
    ZeroPadValue(f.millisecond, 3);
    assert s == ZeroPad(f.year, 4) + "-" + ZeroPad(f.month, 2) + "-" + ZeroPad(f.day, 2) + "T"
                + ZeroPad(f.hour, 2) + ":" + ZeroPad(f.minute, 2) + ":" + ZeroPad(f.second, 2)
                + "." + ZeroPad(f.millisecond, 3) + "Z";
    IsoTextLayout(ZeroPad(f.year, 4), ZeroPad(f.month, 2), ZeroPad(f.day, 2), ZeroPad(f.hour, 2),
                  ZeroPad(f.minute, 2), ZeroPad(f.second, 2), ZeroPad(f.millisecond, 3));
    PaddedDateNumbers(s, f);
    PaddedTimeNumbers(s, f);
  }

  lemma PaddedDateNumbers(s: string, f: Fields)
    requires ValidFields(f) && 0 <= f.year <= 9999 && |s| == 24
    requires s[0..4] == ZeroPad(f.year, 4) && s[5..7] == ZeroPad(f.month, 2)
    requires s[8..10] == ZeroPad(f.day, 2)
    ensures NumberAt(s, 0, 4) == Some(f.year) && NumberAt(s, 5, 2) == Some(f.month)
    ensures NumberAt(s, 8, 2) == Some(f.day)
  {
    Pow10Small();
    NumberAtPadded(s, 0, f.year, 4);
    NumberAtPadded(s, 5, f.month, 2);
    NumberAtPadded(s, 8, f.day, 2);
  }

  lemma PaddedTimeNumbers(s: string, f: Fields)
    requires ValidFields(f) && |s| == 24
    requires s[11..13] == ZeroPad(f.hour, 2) && s[14..16] == ZeroPad(f.minute, 2)
    requires s[17..19] == ZeroPad(f.second, 2) && s[20..23] == ZeroPad(f.millisecond, 3)
    ensures NumberAt(s, 11, 2) == Some(f.hour) && NumberAt(s, 14, 2) == Some(f.minute)
    ensures NumberAt(s, 17, 2) == Some(f.second) && NumberAt(s, 20, 3) == Some(f.millisecond)
  {
    Pow10Small();
    NumberAtPadded(s, 11, f.hour, 2);
    NumberAtPadded(s, 14, f.minute, 2);
    NumberAtPadded(s, 17, f.second, 2);
    NumberAtPadded(s, 20, f.millisecond, 3);
  }

  /** Reading back what toISOString wrote gives the same instant, for years
      0 to 9999. */
  lemma IsoRoundTrip(t: int)
    requires 0 <= FieldsOf(t).year <= 9999
    ensures ToIsoString(Time(t)).Some?
    ensures ParseIso(ToIsoString(Time(t)).value) == Some(t)
  {
    var f := FieldsOf(t);
    IsoTextFields(t);
    var s := ToIsoString(Time(t)).value;
    var d := Fields(f.year, f.month, f.day, 0, 0, 0, 0);
    assert DateFields(s) == Some(d);
    assert TimeFields(s, d) == Some(f);
  }

  /** toISOString of valid fields of a four-digit year prints those fields. */
  lemma IsoStringOfFields(f: Fields)
    requires ValidFields(f) && 0 <= f.year <= 9999
    ensures ToIsoString(Time(TimeOfFields(f))) == Some(DateTimeText(ZeroPad(f.year, 4), f) + "Z")
  {
    FieldsRoundTrip(f);
    assert IsoYear(f.year) == ZeroPad(f.year, 4);
  }

  /** Every instant of the years 0 to 9999 is inside the representable range,
      so adding to it near those years never yields an Invalid Date. */
  lemma FourDigitYearInRange(t: int)
    requires 0 <= FieldsOf(t).year <= 9999
    ensures -MaxTime <= t <= MaxTime
  {
    FourDigitYearFieldsInRange(FieldsOf(t));
  }

  /** The date-fns text of an instant of the years 1 to 9999, with a 'Z'
      appended, reads back as that instant. */
  lemma FormatLocalRoundTrip(t: int)
    requires 1 <= FieldsOf(t).year <= 9999
    ensures ParseIso(FormatLocal(FieldsOf(t)) + "Z") == Some(t)
  {
    FormatLocalIsIso(t);
    IsoRoundTrip(t);
  }

  /** `new Date(s)` for the strings the pipeline reads. */
  function ParseDate(s: string): DateValue {
    match ParseIso(s)
    case Some(t) => Time(t)
    case None => NaN
  }
}
