/**
 Calendar arithmetic of log timestamps: the civil-date formula and the RFC 3339 parser, proved against the
 day-by-day Gregorian calendar (RFC 3339 sections 5.6, 5.7 and appendix C).
 */
module Calendar {
  import opened Prelude
  import opened Decimal

  const MILLIS_PER_SECOND: int := 1_000
  const SECONDS_PER_DAY: int := 86_400

  /** Integer division truncating toward zero, as on the source's `i64`. */
  function Quotient(a: int, b: int): int
    requires b > 0
  {
    if a >= 0 then a / b else -((-a) / b)
  }

  /** Days since 1970-01-01 of a proleptic Gregorian date, by the shifted-year formula. */
  function DaysFromCivil(year: nat, month: nat, day: nat): Option<int> {
    if !(1 <= month <= 12) || !(1 <= day <= 31) then None
    else
      var adjustedYear := year - (if month <= 2 then 1 else 0);
      var era := Quotient(if adjustedYear >= 0 then adjustedYear else adjustedYear - 399, 400);
      var yearOfEra := adjustedYear - era * 400;
      var monthAdjusted := month + (if month > 2 then -3 else 9);
      var dayOfYear := Quotient(153 * monthAdjusted + 2, 5) + day - 1;
      var dayOfEra := yearOfEra * 365 + Quotient(yearOfEra, 4) - Quotient(yearOfEra, 100) + dayOfYear;
      Some(era * 146_097 + dayOfEra - 719_468)
  }

  // ---------------------------------------------------------------- the calendar itself

  datatype Date = Date(year: nat, month: nat, day: nat)

  predicate IsLeap(year: int) {
    year % 4 == 0 && (year % 100 != 0 || year % 400 == 0)
  }

  function DaysInMonth(year: int, month: nat): nat {
    if month == 2 then (if IsLeap(year) then 29 else 28)
    else if month in {4, 6, 9, 11} then 30
    else 31
  }

  predicate IsDate(date: Date) {
    1 <= date.month <= 12 && 1 <= date.day <= DaysInMonth(date.year, date.month)
  }

  /** A date that four digits of a year can write. */
  predicate ValidDate(date: Date) {
    date.year <= 9999 && IsDate(date)
  }

  function NextDay(date: Date): Date {
    if date.day < DaysInMonth(date.year, date.month) then Date(date.year, date.month, date.day + 1)
    else if date.month < 12 then Date(date.year, date.month + 1, 1)
    else Date(date.year + 1, 1, 1)
  }

  const EPOCH := Date(1970, 1, 1)

  /** Days before the first of March of a shifted year, counted from year 0. */
  function DaysBeforeYear(y: int): int {
    365 * y + y / 4 - y / 100 + y / 400
  }

  /** Days before each month of a year that starts in March. */
  function DaysBeforeMonth(month: nat): nat {
    match month
    case 3 => 0 case 4 => 31 case 5 => 61 case 6 => 92 case 7 => 122 case 8 => 153
    case 9 => 184 case 10 => 214 case 11 => 245 case 12 => 275 case 1 => 306 case _ => 337
  }

  /** The year that starts in March and contains the date. */
  function ShiftedYear(date: Date): int {
    if date.month <= 2 then date.year - 1 else date.year
  }

  /** Days since 1970-01-01, counted as whole March years, whole months and days. */
  function DayNumber(date: Date): int {
    DaysBeforeYear(ShiftedYear(date)) + DaysBeforeMonth(date.month) + date.day - 1 - 719_468
  }

  /** The era decomposition of the formula is a plain count of leap days. */
  lemma EraIsLeapCount(y: int)
    requires -1 <= y <= 9999
    ensures var era := Quotient(if y >= 0 then y else y - 399, 400);
            var yoe := y - era * 400;
            era * 146_097 + yoe * 365 + Quotient(yoe, 4) - Quotient(yoe, 100) == DaysBeforeYear(y)
  {
    var era := Quotient(if y >= 0 then y else y - 399, 400);
    var yoe := y - era * 400;
    assert era == y / 400 && 0 <= yoe < 400;
    assert y / 4 == era * 100 + yoe / 4;
    assert y / 100 == era * 4 + yoe / 100;
  }

  /** The month term of the formula is the table of month starts. */
  lemma MonthTermIsTable(month: nat)
    requires 1 <= month <= 12
    ensures Quotient(153 * (month + (if month > 2 then -3 else 9)) + 2, 5) == DaysBeforeMonth(month)
  {
  }

  /** The shifted-year formula counts days on every date it accepts, calendar date or not. */
  lemma FormulaCounts(date: Date)
    requires date.year <= 9999 && 1 <= date.month <= 12 && 1 <= date.day <= 31
    ensures DaysFromCivil(date.year, date.month, date.day) == Some(DayNumber(date))
  {
    EraIsLeapCount(ShiftedYear(date));
    MonthTermIsTable(date.month);
  }

  lemma QuotientSteps(y: int)
    ensures y / 4 - (y - 1) / 4 == if y % 4 == 0 then 1 else 0
    ensures y / 100 - (y - 1) / 100 == if y % 100 == 0 then 1 else 0
    ensures y / 400 - (y - 1) / 400 == if y % 400 == 0 then 1 else 0
  {
  }

  lemma YearLength(y: int)
    ensures DaysBeforeYear(y) - DaysBeforeYear(y - 1) == if IsLeap(y) then 366 else 365
  {
    QuotientSteps(y);
    assert y % 400 == 0 ==> y % 100 == 0;
    assert y % 100 == 0 ==> y % 4 == 0;
  }

  lemma FormulaAtEpoch()
    ensures DaysFromCivil(1970, 1, 1) == Some(0)
  {
    FormulaCounts(EPOCH);
  }

  /** The formula is 0 at the epoch and grows by exactly one from each day to the next. */
  lemma FormulaCountsDays(date: Date)
    requires ValidDate(date)
    ensures DaysFromCivil(1970, 1, 1) == Some(0)
    ensures ValidDate(NextDay(date)) ==>
              && DaysFromCivil(date.year, date.month, date.day).Some?
              && DaysFromCivil(NextDay(date).year, NextDay(date).month, NextDay(date).day)
                 == Some(DaysFromCivil(date.year, date.month, date.day).value + 1)
  {
    FormulaAtEpoch();
    FormulaCounts(date);
    if ValidDate(NextDay(date)) {
      FormulaCounts(NextDay(date));
      NextDayNumber(date);
    }
  }

  lemma NextDayIsDate(date: Date)
    requires IsDate(date)
    ensures IsDate(NextDay(date))
  {
  }

  lemma NextDayNumber(date: Date)
    requires IsDate(date)
    ensures DayNumber(NextDay(date)) == DayNumber(date) + 1
  {
    YearLength(date.year);
  }

  predicate DateLess(a: Date, b: Date) {
    a.year < b.year || (a.year == b.year && (a.month < b.month || (a.month == b.month && a.day < b.day)))
  }

  lemma {:induction false} YearStarts(a: int, b: int)
    requires a <= b
    ensures DaysBeforeYear(a) <= DaysBeforeYear(b)
    ensures a < b ==> DaysBeforeYear(a) + 365 <= DaysBeforeYear(b - 1) + 365 <= DaysBeforeYear(b)
    decreases b - a
  {
    if a < b {
      YearLength(b);
      YearStarts(a, b - 1);
    }
  }

  /** Later dates have larger day numbers. */
  lemma DayNumberMonotone(a: Date, b: Date)
    requires IsDate(a) && IsDate(b) && DateLess(a, b)
    ensures DayNumber(a) < DayNumber(b)
  {
    var y, z := ShiftedYear(a), ShiftedYear(b);
    YearStarts(y, z);
    if y < z {
      YearStarts(y + 1, z);
      YearLength(y + 1);
    }
  }

  // ---------------------------------------------------------------- the parser

  function TwoDigits(s: string, i: nat): Option<nat> {
    if i + 2 <= |s| && IsDigit(s[i]) && IsDigit(s[i + 1])
    then Some(10 * DigitValue(s[i]) + DigitValue(s[i + 1])) else None
  }

  function FourDigits(s: string): Option<nat> {
    match (TwoDigits(s, 0), TwoDigits(s, 2))
    case (Some(a), Some(b)) => Some(100 * a + b)
    case _ => None
  }

  /** Where the run of digits starting at `i` ends. */
  function DigitRunEnd(s: string, i: nat): (e: nat)
    requires i <= |s|
    ensures i <= e <= |s|
    ensures forall k :: i <= k < e ==> IsDigit(s[k])
    ensures e < |s| ==> !IsDigit(s[e])
    decreases |s| - i
  {
    if i < |s| && IsDigit(s[i]) then DigitRunEnd(s, i + 1) else i
  }

  /** Milliseconds of a fraction: its first three digits, missing ones read as zero. */
  function FractionMillis(digits: string): nat
    requires AllDigits(digits)
  {
    (if |digits| > 0 then 100 * DigitValue(digits[0]) else 0)
    + (if |digits| > 1 then 10 * DigitValue(digits[1]) else 0)
    + (if |digits| > 2 then DigitValue(digits[2]) else 0)
  }

  /** The fraction loop of the parser. */
  method ConsumeFraction(s: string) returns (fractionMs: nat, consumed: nat)
    requires |s| >= 20
    ensures consumed == DigitRunEnd(s, 20) - 20
    ensures fractionMs == FractionMillis(s[20..DigitRunEnd(s, 20)])
  {
    fractionMs, consumed := 0, 0;
    var multiplier := 100;
    var index := 20;
    ghost var end := DigitRunEnd(s, 20);
    while index < |s| && IsDigit(s[index])
      invariant 20 <= index <= end && consumed == index - 20
      invariant multiplier == (if consumed == 0 then 100 else if consumed == 1 then 10 else if consumed == 2 then 1 else 0)
      invariant fractionMs == FractionMillis(s[20..index])
    {
      if consumed < 3 {
        fractionMs := fractionMs + DigitValue(s[index]) * multiplier;
        multiplier := multiplier / 10;
      }
      consumed := consumed + 1;
      index := index + 1;
    }
  }

  function CheckedMillis(seconds: int, fractionMs: nat): Option<nat> {
    if seconds < 0 || seconds > U64_MAX then None
    else if seconds * MILLIS_PER_SECOND + fractionMs > U64_MAX then None
    else Some(seconds * MILLIS_PER_SECOND + fractionMs)
  }

  /** What the parser returns, check by check. The source measures bytes; a multi-byte character is never a digit. */
  function ParseMillis(s: string): Option<nat> {
    if |s| < 20 || s[|s| - 1] != 'Z' then None
    else
      match (FourDigits(s), TwoDigits(s, 5), TwoDigits(s, 8), TwoDigits(s, 11), TwoDigits(s, 14), TwoDigits(s, 17))
      case (Some(year), Some(month), Some(day), Some(hour), Some(minute), Some(second)) =>
        if s[4] != '-' || s[7] != '-' || s[10] != 'T' || s[13] != ':' || s[16] != ':' then None
        else if !(1 <= month <= 12) || !(1 <= day <= 31) || hour > 23 || minute > 59 || second > 60 then None
        else if s[19] == '.' && DigitRunEnd(s, 20) == 20 then None
        else
          var fractionMs := if s[19] == '.' then FractionMillis(s[20..DigitRunEnd(s, 20)]) else 0;
          var days := DaysFromCivil(year, month, day).value;
          CheckedMillis(days * SECONDS_PER_DAY + hour * 3_600 + minute * 60 + second, fractionMs)
      case _ => None
  }

  method ParseRfc3339NanoMillis(value: string) returns (millis: Option<nat>)
    ensures millis == ParseMillis(value)
  {
    if |value| < 20 || value[|value| - 1] != 'Z' {
      return None;
    }
    var year, month, day := FourDigits(value), TwoDigits(value, 5), TwoDigits(value, 8);
    var hour, minute, second := TwoDigits(value, 11), TwoDigits(value, 14), TwoDigits(value, 17);
    if year.None? || month.None? || day.None? || hour.None? || minute.None? || second.None? {
      return None;
    }
    if value[4] != '-' || value[7] != '-' || value[10] != 'T' || value[13] != ':' || value[16] != ':' {
      return None;
    }
    if !(1 <= month.value <= 12) || !(1 <= day.value <= 31) || hour.value > 23 || minute.value > 59
       || second.value > 60 {
      return None;
    }
    var fractionMs := 0;
    if value[19] == '.' {
      var consumed;
      fractionMs, consumed := ConsumeFraction(value);
      if consumed == 0 {
        return None;
      }
    }
    var days := DaysFromCivil(year.value, month.value, day.value).value;
    var seconds := days * SECONDS_PER_DAY + hour.value * 3_600 + minute.value * 60 + second.value;
    millis := CheckedMillis(seconds, fractionMs);
  }

  // ---------------------------------------------------------------- well-formed timestamps

  /** An RFC 3339 UTC timestamp: a calendar date, a time of day and the digits of an optional fraction. */
  datatype Timestamp = Timestamp(date: Date, hour: nat, minute: nat, second: nat, fraction: Option<string>)

  /** The fields the parser lets through: any day up to 31 in any month, and a leap second. */
  predicate Accepted(t: Timestamp) {
    && t.date.year <= 9999 && 1 <= t.date.month <= 12 && 1 <= t.date.day <= 31
    && t.hour <= 23 && t.minute <= 59 && t.second <= 60
    && (t.fraction.Some? ==> t.fraction.value != "" && AllDigits(t.fraction.value))
  }

  predicate ValidTimestamp(t: Timestamp) {
    Accepted(t) && ValidDate(t.date) && t.second <= 59
  }

  function Two(n: nat): (s: string)
    requires n < 100
    ensures |s| == 2 && IsDigit(s[0]) && IsDigit(s[1])
    ensures 10 * DigitValue(s[0]) + DigitValue(s[1]) == n
  {
    [DigitChar(n / 10), DigitChar(n % 10)]
  }

  /** Date and time of day. */
  function Head(t: Timestamp): (r: string)
    requires Accepted(t)
    ensures |r| == 19
  {
    Two(t.date.year / 100) + Two(t.date.year % 100) + "-" + Two(t.date.month) + "-" + Two(t.date.day)
    + "T" + Two(t.hour) + ":" + Two(t.minute) + ":" + Two(t.second)
  }

  function FractionText(t: Timestamp): string {
    if t.fraction.Some? then "." + t.fraction.value else ""
  }

  /** The text of a timestamp in the `date-time` grammar of RFC 3339 section 5.6, zone `Z`. */
  function Format(t: Timestamp): string
    requires Accepted(t)
  {
    Head(t) + FractionText(t) + "Z"
  }

  function MillisOfSecond(t: Timestamp): (ms: nat)
    requires Accepted(t)
    ensures ms <= 999
  {
    if t.fraction.Some? then FractionMillis(t.fraction.value) else 0
  }

  function SecondOfDay(t: Timestamp): (r: nat)
    requires Accepted(t)
    ensures r <= 86_400 && (t.second <= 59 ==> r < 86_400)
  {
    t.hour * 3_600 + t.minute * 60 + t.second
  }

  /** Milliseconds since the epoch, counted from the calendar. */
  function ExactMillis(t: Timestamp): int
    requires Accepted(t)
  {
    (DayNumber(t.date) * 86_400 + SecondOfDay(t)) * 1_000 + MillisOfSecond(t)
  }

  lemma HeadFields(t: Timestamp, rest: string)
    requires Accepted(t) && rest != ""
    ensures var s := Head(t) + rest;
            && |s| >= 20 && s[19..] == rest
            && s[4] == '-' && s[7] == '-' && s[10] == 'T' && s[13] == ':' && s[16] == ':'
            && FourDigits(s) == Some(t.date.year)
            && TwoDigits(s, 5) == Some(t.date.month) && TwoDigits(s, 8) == Some(t.date.day)
            && TwoDigits(s, 11) == Some(t.hour) && TwoDigits(s, 14) == Some(t.minute)
            && TwoDigits(s, 17) == Some(t.second)
  {
    var s := Head(t) + rest;
    assert forall k :: 0 <= k < 19 ==> s[k] == Head(t)[k];
  }

  lemma {:induction false} DigitRunInside(s: string, i: nat, digits: string, rest: string)
    requires i <= |s| && s[i..] == digits + rest && AllDigits(digits) && (rest == "" || !IsDigit(rest[0]))
    ensures DigitRunEnd(s, i) == i + |digits|
    decreases |digits|
  {
    if digits == "" {
      assert i < |s| ==> s[i] == s[i..][0];
    } else {
      assert s[i] == s[i..][0] == digits[0];
      assert s[i + 1..] == s[i..][1..] == digits[1..] + rest;
      DigitRunInside(s, i + 1, digits[1..], rest);
    }
  }

  lemma DayNumberRange(date: Date)
    requires date.year <= 9999 && 1 <= date.month <= 12 && 1 <= date.day <= 31
    ensures if date.year >= 1970 then 0 <= DayNumber(date) < 3_000_000 else DayNumber(date) < 0
  {
    YearStarts(ShiftedYear(date), 9999);
    if date.year >= 1970 {
      YearStarts(1969, ShiftedYear(date));
    } else {
      YearStarts(ShiftedYear(date), 1969);
    }
  }

  lemma SecondsFit(days: int, secondOfDay: nat, ms: nat)
    requires days < 3_000_000 && secondOfDay <= 86_400 && ms <= 999
    ensures days >= 0 ==> (days * 86_400 + secondOfDay) * 1_000 + ms >= 0
    ensures days >= 0 ==> CheckedMillis(days * SECONDS_PER_DAY + secondOfDay, ms)
                          == Some((days * 86_400 + secondOfDay) * 1_000 + ms)
    ensures days < -1 || (days < 0 && secondOfDay < 86_400) ==>
              CheckedMillis(days * SECONDS_PER_DAY + secondOfDay, ms) == None
  {
  }

  /**
   Text that may stand behind the fields without being read into them: behind the seconds anything but a period,
   behind a fraction anything but a digit.
   */
  predicate Behind(t: Timestamp, junk: string) {
    junk == "" || (if t.fraction.None? then junk[0] != '.' else !IsDigit(junk[0]))
  }

  /** A text that reads as a timestamp, with what stands between its fields and the final `Z`. */
  predicate Shaped(s: string, t: Timestamp, junk: string) {
    Accepted(t) && Behind(t, junk) && s == Head(t) + (FractionText(t) + junk + "Z")
  }

  /** What the parser finds in a shaped text. */
  lemma ShapeFields(s: string, t: Timestamp, junk: string)
    requires Shaped(s, t, junk)
    ensures |s| >= 20 && s[|s| - 1] == 'Z'
    ensures s[4] == '-' && s[7] == '-' && s[10] == 'T' && s[13] == ':' && s[16] == ':'
    ensures FourDigits(s) == Some(t.date.year)
    ensures TwoDigits(s, 5) == Some(t.date.month) && TwoDigits(s, 8) == Some(t.date.day)
    ensures TwoDigits(s, 11) == Some(t.hour) && TwoDigits(s, 14) == Some(t.minute)
    ensures TwoDigits(s, 17) == Some(t.second)
    ensures t.fraction.Some? <==> s[19] == '.'
    ensures t.fraction.Some? ==>
              var end := DigitRunEnd(s, 20);
              s[20..end] == t.fraction.value && end <= |s| - 1 && s[end..|s| - 1] == junk
    ensures t.fraction.None? ==> s[19..|s| - 1] == junk
  {
    HeadFields(t, FractionText(t) + junk + "Z");
    TailFields(s, t, junk);
  }

  lemma TailFields(s: string, t: Timestamp, junk: string)
    requires Accepted(t) && Behind(t, junk) && |s| >= 20 && s[19..] == FractionText(t) + junk + "Z"
    ensures s[|s| - 1] == 'Z'
    ensures t.fraction.Some? <==> s[19] == '.'
    ensures t.fraction.Some? ==>
              var end := DigitRunEnd(s, 20);
              s[20..end] == t.fraction.value && end <= |s| - 1 && s[end..|s| - 1] == junk
    ensures t.fraction.None? ==> s[19..|s| - 1] == junk
  {
    LastOf(s, FractionText(t) + junk + "Z");
    if t.fraction.Some? {
      assert "." + t.fraction.value + junk + "Z" == "." + (t.fraction.value + (junk + "Z"));
      FractionPart(s, t.fraction.value, junk);
    } else {
      assert "" + junk + "Z" == junk + "Z";
      NoFraction(s, junk);
    }
  }

  lemma LastOf(s: string, rest: string)
    requires |s| >= 20 && s[19..] == rest && rest != ""
    ensures s[|s| - 1] == rest[|rest| - 1]
  {
  }

  lemma FractionPart(s: string, digits: string, junk: string)
    requires |s| >= 20 && s[19..] == "." + (digits + (junk + "Z"))
    requires AllDigits(digits) && (junk == "" || !IsDigit(junk[0]))
    ensures s[19] == '.' && DigitRunEnd(s, 20) == 20 + |digits|
    ensures s[20..20 + |digits|] == digits && |s| - 1 >= 20 + |digits| && s[20 + |digits|..|s| - 1] == junk
  {
    var rest := digits + (junk + "Z");
    assert s[19] == s[19..][0];
    assert s[20..] == s[19..][1..] == rest;
    assert (junk + "Z")[0] == if junk == "" then 'Z' else junk[0];
    DigitRunInside(s, 20, digits, junk + "Z");
    assert s[20..20 + |digits|] == s[20..][..|digits|] == digits;
    assert s[20 + |digits|..|s| - 1] == s[20..][|digits|..|s[20..]| - 1] == junk;
  }

  lemma NoFraction(s: string, junk: string)
    requires |s| >= 20 && s[19..] == junk + "Z" && (junk == "" || junk[0] != '.')
    ensures s[19] != '.' && s[19..|s| - 1] == junk
  {
    assert s[19] == s[19..][0];
    assert s[19..|s| - 1] == s[19..][..|s[19..]| - 1] == junk;
  }

  /** The fields of a shaped text, and what stands behind them, are determined by the text. */
  lemma ShapeIsUnique(s: string, t: Timestamp, junk: string, u: Timestamp, other: string)
    requires Shaped(s, t, junk) && Shaped(s, u, other)
    ensures t == u && junk == other
  {
    ShapeFields(s, t, junk);
    ShapeFields(s, u, other);
  }

  /** The parser computes what the fields say, whatever stands behind them. */
  lemma ParseOfShape(s: string, t: Timestamp, junk: string)
    requires Shaped(s, t, junk)
    ensures ParseMillis(s) == CheckedMillis(DayNumber(t.date) * SECONDS_PER_DAY + SecondOfDay(t), MillisOfSecond(t))
  {
    ShapeFields(s, t, junk);
    FormulaCounts(t.date);
  }

  lemma FormatIsShaped(t: Timestamp)
    requires Accepted(t)
    ensures Shaped(Format(t), t, "")
  {
    assert FractionText(t) + "" + "Z" == FractionText(t) + "Z";
    assert Head(t) + FractionText(t) + "Z" == Head(t) + (FractionText(t) + "Z");
  }

  /** The fields the parser extracts from an accepted text. */
  lemma ParseOfFormat(t: Timestamp)
    requires Accepted(t)
    ensures ParseMillis(Format(t))
            == CheckedMillis(DayNumber(t.date) * SECONDS_PER_DAY + SecondOfDay(t), MillisOfSecond(t))
  {
    FormatIsShaped(t);
    ParseOfShape(Format(t), t, "");
  }

  lemma SamePair(s: string, u: string, i: nat)
    requires TwoDigits(s, i).Some? && TwoDigits(s, i) == TwoDigits(u, i)
    ensures s[i] == u[i] && s[i + 1] == u[i + 1]
  {
    assert TwoDigits(s, i).value / 10 == DigitValue(s[i]) == DigitValue(u[i]);
    SameDigit(s[i], u[i]);
    SameDigit(s[i + 1], u[i + 1]);
  }

  lemma SameDigit(a: char, b: char)
    requires IsDigit(a) && IsDigit(b) && DigitValue(a) == DigitValue(b)
    ensures a == b
  {
  }

  /** Separators and fields determine the first nineteen characters. */
  lemma SameHead(s: string, u: string)
    requires |s| >= 20 && |u| >= 20
    requires s[4] == u[4] && s[7] == u[7] && s[10] == u[10] && s[13] == u[13] && s[16] == u[16]
    requires TwoDigits(s, 0).Some? && TwoDigits(s, 0) == TwoDigits(u, 0)
    requires TwoDigits(s, 2).Some? && TwoDigits(s, 2) == TwoDigits(u, 2)
    requires TwoDigits(s, 5).Some? && TwoDigits(s, 5) == TwoDigits(u, 5)
    requires TwoDigits(s, 8).Some? && TwoDigits(s, 8) == TwoDigits(u, 8)
    requires TwoDigits(s, 11).Some? && TwoDigits(s, 11) == TwoDigits(u, 11)
    requires TwoDigits(s, 14).Some? && TwoDigits(s, 14) == TwoDigits(u, 14)
    requires TwoDigits(s, 17).Some? && TwoDigits(s, 17) == TwoDigits(u, 17)
    ensures s[..19] == u[..19]
  {
    SamePair(s, u, 0);
    SamePair(s, u, 2);
    SamePair(s, u, 5);
    SamePair(s, u, 8);
    SamePair(s, u, 11);
    SamePair(s, u, 14);
    SamePair(s, u, 17);
  }

  lemma SameYear(s: string, u: string)
    requires FourDigits(s).Some? && FourDigits(s) == FourDigits(u)
    ensures TwoDigits(s, 0) == TwoDigits(u, 0) && TwoDigits(s, 2) == TwoDigits(u, 2)
  {
    var a, b := FourDigits(s).value, FourDigits(u).value;
    assert a / 100 == TwoDigits(s, 0).value && b / 100 == TwoDigits(u, 0).value;
  }

  /** The first nineteen characters of a text with all its fields are the head of those fields. */
  lemma HeadBack(s: string, t: Timestamp)
    requires |s| >= 20 && Accepted(t)
    requires s[4] == '-' && s[7] == '-' && s[10] == 'T' && s[13] == ':' && s[16] == ':'
    requires FourDigits(s) == Some(t.date.year)
    requires TwoDigits(s, 5) == Some(t.date.month) && TwoDigits(s, 8) == Some(t.date.day)
    requires TwoDigits(s, 11) == Some(t.hour) && TwoDigits(s, 14) == Some(t.minute)
    requires TwoDigits(s, 17) == Some(t.second)
    ensures s[..19] == Head(t)
  {
    var u := Head(t) + s[19..];
    HeadFields(t, s[19..]);
    SameYear(s, u);
    SameHead(s, u);
    assert u[..19] == Head(t);
  }

  /** The fields of an accepted text. */
  function FieldsOf(s: string): Timestamp
    requires ParseMillis(s).Some?
  {
    var end := DigitRunEnd(s, 20);
    Timestamp(Date(FourDigits(s).value, TwoDigits(s, 5).value, TwoDigits(s, 8).value),
              TwoDigits(s, 11).value, TwoDigits(s, 14).value, TwoDigits(s, 17).value,
              if s[19] == '.' then Some(s[20..end]) else None)
  }

  lemma FieldsAreAccepted(s: string)
    requires ParseMillis(s).Some?
    ensures Accepted(FieldsOf(s)) && s[..19] == Head(FieldsOf(s))
  {
    assert FourDigits(s).value <= 9999;
    HeadBack(s, FieldsOf(s));
  }

  /** What stands behind the seconds splits into the fraction, the rest, and the final `Z`. */
  lemma RestSplits(s: string) returns (junk: string)
    requires |s| >= 20 && s[|s| - 1] == 'Z'
    ensures var end := DigitRunEnd(s, 20);
            && (junk == "" || (if s[19] == '.' then !IsDigit(junk[0]) else junk[0] != '.'))
            && s[19..] == (if s[19] == '.' then "." + s[20..end] else "") + junk + "Z"
  {
    var end := if s[19] == '.' then DigitRunEnd(s, 20) else 19;
    assert !IsDigit(s[|s| - 1]);
    junk := s[end..|s| - 1];
    assert junk != "" ==> junk[0] == s[end];
    assert s[19..] == s[19..end] + junk + "Z";
    if s[19] == '.' {
      assert s[19..end] == "." + s[20..end];
    }
  }

  /** Every text the parser accepts has the shape. */
  lemma ParsedIsShaped(s: string) returns (t: Timestamp, junk: string)
    requires ParseMillis(s).Some?
    ensures Shaped(s, t, junk)
  {
    t := FieldsOf(s);
    FieldsAreAccepted(s);
    junk := RestSplits(s);
    assert s == s[..19] + s[19..];
  }

  /** Not before the epoch: from 1970 on, and the leap second right before it. */
  predicate FromEpoch(t: Timestamp) {
    t.date.year >= 1970 || (t.date == Date(1969, 12, 31) && t.hour == 23 && t.minute == 59 && t.second == 60)
  }

  lemma LastDayBefore(date: Date)
    requires date.year < 1970 && 1 <= date.month <= 12 && 1 <= date.day <= 31
    ensures DayNumber(date) == -1 <==> date == Date(1969, 12, 31)
    ensures DayNumber(date) <= -1
  {
    YearStarts(ShiftedYear(date), 1969);
    if date.year < 1969 {
      YearStarts(ShiftedYear(date), 1968);
      YearLength(1969);
    }
  }

  lemma EpochDecides(t: Timestamp)
    requires Accepted(t)
    ensures CheckedMillis(DayNumber(t.date) * SECONDS_PER_DAY + SecondOfDay(t), MillisOfSecond(t))
            == if FromEpoch(t) then Some(ExactMillis(t)) else None
    ensures FromEpoch(t) ==> ExactMillis(t) >= 0
  {
    DayNumberRange(t.date);
    SecondsFit(DayNumber(t.date), SecondOfDay(t), MillisOfSecond(t));
    if t.date.year < 1970 {
      LastDayBefore(t.date);
    }
  }

  ghost predicate ReadsAs(s: string, t: Timestamp) {
    exists junk :: Shaped(s, t, junk)
  }

  /**
   Exactly which texts the parser accepts, and as what: those whose fields form an accepted timestamp from the epoch
   on, followed by nothing, by text that does not continue the fields, and a final `Z`; the value is the exact
   millisecond count of those fields. A text reads as one timestamp at most.
   */
  lemma ParseExactly(s: string)
    ensures ParseMillis(s).Some? <==> exists t :: ReadsAs(s, t) && FromEpoch(t)
    ensures forall t :: ReadsAs(s, t) ==> ParseMillis(s) == if FromEpoch(t) then Some(ExactMillis(t)) else None
    ensures forall t, u :: ReadsAs(s, t) && ReadsAs(s, u) ==> t == u
  {
    forall t | ReadsAs(s, t)
      ensures ParseMillis(s) == if FromEpoch(t) then Some(ExactMillis(t)) else None
    {
      var junk :| Shaped(s, t, junk);
      ParseOfShape(s, t, junk);
      EpochDecides(t);
    }
    forall t, u | ReadsAs(s, t) && ReadsAs(s, u) ensures t == u {
      var junk :| Shaped(s, t, junk);
      var other :| Shaped(s, u, other);
      ShapeIsUnique(s, t, junk, u, other);
    }
    if ParseMillis(s).Some? {
      var t, junk := ParsedIsShaped(s);
      assert ReadsAs(s, t);
    }
  }

  /** Among the accepted texts, the `date-time` texts of RFC 3339 are those with nothing behind their fields and a real date. */
  lemma WellFormedExactly(s: string, t: Timestamp, junk: string)
    requires Shaped(s, t, junk)
    ensures (exists u :: Accepted(u) && ValidDate(u.date) && s == Format(u)) <==> junk == "" && ValidDate(t.date)
  {
    if u :| Accepted(u) && ValidDate(u.date) && s == Format(u) {
      FormatIsShaped(u);
      ShapeIsUnique(s, t, junk, u, "");
    }
    if junk == "" {
      FormatIsShaped(t);
      assert s == Format(t);
    }
  }

  /** On an accepted text from 1970 on, the parser returns the exact milliseconds and never overflows. */
  lemma ParseIsExact(t: Timestamp)
    requires Accepted(t) && t.date.year >= 1970
    ensures ExactMillis(t) >= 0 && ParseMillis(Format(t)) == Some(ExactMillis(t))
  {
    ParseOfFormat(t);
    ExactMillisFit(t);
  }

  lemma ExactMillisFit(t: Timestamp)
    requires Accepted(t) && t.date.year >= 1970
    ensures ExactMillis(t) >= 0
    ensures CheckedMillis(DayNumber(t.date) * SECONDS_PER_DAY + SecondOfDay(t), MillisOfSecond(t))
            == Some(ExactMillis(t))
  {
    var days, ms := DayNumber(t.date), MillisOfSecond(t);
    DayNumberRange(t.date);
    SecondsFit(days, SecondOfDay(t), ms);
  }

  /** Before 1970 the unsigned conversion refuses every well-formed timestamp. */
  lemma ParseRefusesEarlier(t: Timestamp)
    requires ValidTimestamp(t) && t.date.year < 1970
    ensures ParseMillis(Format(t)) == None
  {
    ParseOfFormat(t);
    DayNumberRange(t.date);
    SecondsFit(DayNumber(t.date), SecondOfDay(t), MillisOfSecond(t));
  }

  lemma RolledDayNumber(date: Date)
    requires date.year <= 9999 && 1 <= date.month <= 12 && DaysInMonth(date.year, date.month) < date.day <= 31
    ensures date.month < 12
    ensures var rolled := Date(date.year, date.month + 1, date.day - DaysInMonth(date.year, date.month));
            ValidDate(rolled) && DayNumber(rolled) == DayNumber(date)
  {
    YearLength(date.year);
  }

  /** The parser sees a date only through its day number. */
  lemma SameDaySameParse(t: Timestamp, date: Date)
    requires Accepted(t) && Accepted(t.(date := date)) && DayNumber(date) == DayNumber(t.date)
    ensures ParseMillis(Format(t)) == ParseMillis(Format(t.(date := date)))
  {
    ParseOfFormat(t);
    ParseOfFormat(t.(date := date));
  }

  /** A day past the end of its month, which the parser accepts, is read as that many days into the next month. */
  lemma ImpossibleDayRollsOver(t: Timestamp)
    requires Accepted(t) && t.date.day > DaysInMonth(t.date.year, t.date.month)
    ensures t.date.month < 12
    ensures var rolled := Date(t.date.year, t.date.month + 1, t.date.day - DaysInMonth(t.date.year, t.date.month));
            ValidDate(rolled) && ParseMillis(Format(t)) == ParseMillis(Format(t.(date := rolled)))
  {
    var rolled := Date(t.date.year, t.date.month + 1, t.date.day - DaysInMonth(t.date.year, t.date.month));
    RolledDayNumber(t.date);
    SameDaySameParse(t, rolled);
  }

  predicate TimestampLess(a: Timestamp, b: Timestamp)
    requires ValidTimestamp(a) && ValidTimestamp(b)
  {
    DateLess(a.date, b.date)
    || (a.date == b.date
        && (a.hour < b.hour
            || (a.hour == b.hour
                && (a.minute < b.minute
                    || (a.minute == b.minute
                        && (a.second < b.second
                            || (a.second == b.second && MillisOfSecond(a) < MillisOfSecond(b))))))))
  }

  /** Parsed milliseconds order timestamps as their truncated calendar fields do. */
  lemma ParseIsMonotone(a: Timestamp, b: Timestamp)
    requires ValidTimestamp(a) && ValidTimestamp(b) && a.date.year >= 1970 && b.date.year >= 1970
    ensures ParseMillis(Format(a)).Some? && ParseMillis(Format(b)).Some?
    ensures TimestampLess(a, b) <==> ParseMillis(Format(a)).value < ParseMillis(Format(b)).value
  {
    ParseIsExact(a);
    ParseIsExact(b);
    if TimestampLess(a, b) {
      ExactMillisMonotone(a, b);
    } else if TimestampLess(b, a) {
      ExactMillisMonotone(b, a);
    }
  }

  lemma ExactMillisMonotone(a: Timestamp, b: Timestamp)
    requires ValidTimestamp(a) && ValidTimestamp(b) && TimestampLess(a, b)
    ensures ExactMillis(a) < ExactMillis(b)
  {
    if DateLess(a.date, b.date) {
      DayNumberMonotone(a.date, b.date);
    }
  }

  /** Leniency of the parser: whatever stands behind the fields changes nothing. */
  lemma IgnoresTrailingText(t: Timestamp, junk: string)
    requires Accepted(t) && Behind(t, junk)
    ensures ParseMillis(Head(t) + (FractionText(t) + junk + "Z")) == ParseMillis(Format(t))
  {
    ParseOfShape(Head(t) + (FractionText(t) + junk + "Z"), t, junk);
    ParseOfFormat(t);
  }

  // ---------------------------------------------------------------- the day a text is read as

  const MILLIS_PER_DAY: int := 86_400_000

  /** A millisecond count falls on a day. */
  predicate FallsOn(millis: int, date: Date) {
    DayNumber(date) * MILLIS_PER_DAY <= millis < (DayNumber(date) + 1) * MILLIS_PER_DAY
  }

  /** The date the written day amounts to: past the month's end it rolls over. */
  function RolledDate(date: Date): Date {
    var length := DaysInMonth(date.year, date.month);
    if date.day > length then Date(date.year, date.month + 1, date.day - length) else date
  }

  lemma RolledIsDate(date: Date)
    requires date.year <= 9999 && 1 <= date.month <= 12 && 1 <= date.day <= 31
    ensures IsDate(RolledDate(date)) && DayNumber(RolledDate(date)) == DayNumber(date)
    ensures RolledDate(date) == date <==> ValidDate(date)
    ensures NextDay(RolledDate(date)) != date
  {
    if date.day > DaysInMonth(date.year, date.month) {
      RolledDayNumber(date);
    }
  }

  /** The calendar day an accepted timestamp is read as: rolled over, and at 23:59:60 the next day. */
  function ReadDay(t: Timestamp): Date
    requires Accepted(t)
  {
    if SecondOfDay(t) == 86_400 then NextDay(RolledDate(t.date)) else RolledDate(t.date)
  }

  lemma FallsOnOne(millis: int, a: Date, b: Date)
    requires IsDate(a) && IsDate(b) && FallsOn(millis, a) && FallsOn(millis, b)
    ensures a == b
  {
    assert DayNumber(a) == DayNumber(b);
    if DateLess(a, b) {
      DayNumberMonotone(a, b);
    } else if DateLess(b, a) {
      DayNumberMonotone(b, a);
    }
  }

  /**
   The one calendar day an accepted timestamp is read as; it is the written one exactly when the written date exists
   and the time is not the leap second of midnight.
   */
  lemma ReadsItsOwnDayExactly(t: Timestamp)
    requires Accepted(t)
    ensures IsDate(ReadDay(t)) && FallsOn(ExactMillis(t), ReadDay(t))
    ensures forall d :: IsDate(d) && FallsOn(ExactMillis(t), d) ==> d == ReadDay(t)
    ensures ReadDay(t) == t.date <==> ValidDate(t.date) && SecondOfDay(t) < 86_400
  {
    RolledIsDate(t.date);
    NextDayIsDate(RolledDate(t.date));
    NextDayNumber(RolledDate(t.date));
    MillisSplit(DayNumber(t.date), SecondOfDay(t), MillisOfSecond(t));
    forall d | IsDate(d) && FallsOn(ExactMillis(t), d) ensures d == ReadDay(t) {
      FallsOnOne(ExactMillis(t), d, ReadDay(t));
    }
  }

  lemma MillisSplit(n: int, second: nat, ms: nat)
    requires second <= 86_400 && ms <= 999
    ensures var millis := (n * 86_400 + second) * 1_000 + ms;
            var day := if second == 86_400 then n + 1 else n;
            day * MILLIS_PER_DAY <= millis < (day + 1) * MILLIS_PER_DAY
  {
  }
}
