/**
 * `gva.util.DateUtil.formatDate`: a PHP-style date template, read one
 * character at a time. A character that has a formatter is replaced by that
 * field of the date, a backslash escapes the character after it, and every
 * other character is copied.
 *
 * The date is the record of what a JavaScript `Date` reports through its
 * local-time getters. The codes whose text depends on the host clock, the
 * time zone or `Date.prototype.toString` (t B O P T Z c r U) come from the
 * parameter `host`. The formatters are called as methods of their table, so
 * inside `z` and `W` the date being subtracted from is that table, and both
 * always give "NaN"; `e` and `I` always give "Not Yet Supported".
 */
module DateUtil {
  import opened JsRuntime

  /** `getFullYear`, `getMonth` (0-based), `getDate`, `getDay` (0 is Sunday), `getHours`, `getMinutes`, `getSeconds`, `getMilliseconds`. */
  datatype Date = Date(year: int, month: int, day: int, weekday: int,
                       hours: int, minutes: int, seconds: int, milliseconds: int)
  {
    /** The ranges a valid `Date`'s getters keep to. */
    predicate Valid() {
      0 <= month < 12 && 1 <= day <= 31 && 0 <= weekday < 7
      && 0 <= hours < 24 && 0 <= minutes < 60 && 0 <= seconds < 60
      && 0 <= milliseconds < 1000
    }
  }

  const ShortMonths: seq<string> := ["Jan", "Feb", "Mar", "Apr", "May", "Jun", "Jul", "Aug", "Sep", "Oct", "Nov", "Dec"]
  const LongMonths: seq<string> := ["January", "February", "March", "April", "May", "June", "July", "August",
                                    "September", "October", "November", "December"]
  const ShortDays: seq<string> := ["Sun", "Mon", "Tue", "Wed", "Thu", "Fri", "Sat"]
  const LongDays: seq<string> := ["Sunday", "Monday", "Tuesday", "Wednesday", "Thursday", "Friday", "Saturday"]

  /** The codes whose text comes from the host. */
  predicate IsHostCode(c: char) {
    c == 't' || c == 'B' || c == 'O' || c == 'P' || c == 'T' || c == 'Z' || c == 'c' || c == 'r' || c == 'U'
  }

  /** The formatters of `_methods` that depend on the date's fields alone, grouped as the source groups them. */
  datatype DayCode = DayPadded | DayShortName | DayOfMonth | DayLongName | IsoWeekday | OrdinalSuffix | Weekday | DayOfYear
  datatype MonthCode = MonthLongName | MonthPadded | MonthShortName | MonthNumber
  datatype YearCode = LeapYear | IsoWeekYear | FullYear | ShortYear
  datatype TimeCode =
    | LowerMeridiem | UpperMeridiem | Hour12 | Hour24 | Hour12Padded | Hour24Padded
    | MinutesPadded | SecondsPadded | Milliseconds
  datatype ZoneCode = ZoneIdentifier | DaylightSaving
  datatype Code =
    | Day(day: DayCode) | WeekOfYear | Month(month: MonthCode) | Year(year: YearCode) | Time(time: TimeCode)
    | Zone(zone: ZoneCode)

  /** The code of each key of `_methods` that is not a host code. */
  function CodeOf(c: char): Option<Code> {
    match c
    case 'd' => Some(Day(DayPadded))
    case 'D' => Some(Day(DayShortName))
    case 'j' => Some(Day(DayOfMonth))
    case 'l' => Some(Day(DayLongName))
    case 'N' => Some(Day(IsoWeekday))
    case 'S' => Some(Day(OrdinalSuffix))
    case 'w' => Some(Day(Weekday))
    case 'z' => Some(Day(DayOfYear))
    case 'W' => Some(WeekOfYear)
    case 'F' => Some(Month(MonthLongName))
    case 'm' => Some(Month(MonthPadded))
    case 'M' => Some(Month(MonthShortName))
    case 'n' => Some(Month(MonthNumber))
    case 'L' => Some(Year(LeapYear))
    case 'o' => Some(Year(IsoWeekYear))
    case 'Y' => Some(Year(FullYear))
    case 'y' => Some(Year(ShortYear))
    case 'a' => Some(Time(LowerMeridiem))
    case 'A' => Some(Time(UpperMeridiem))
    case 'g' => Some(Time(Hour12))
    case 'G' => Some(Time(Hour24))
    case 'h' => Some(Time(Hour12Padded))
    case 'H' => Some(Time(Hour24Padded))
    case 'i' => Some(Time(MinutesPadded))
    case 's' => Some(Time(SecondsPadded))
    case 'u' => Some(Time(Milliseconds))
    case 'e' => Some(Zone(ZoneIdentifier))
    case 'I' => Some(Zone(DaylightSaving))
    case _ => None
  }

  /** The keys of `_methods`: every character with a formatter. */
  predicate IsFormatter(c: char) {
    CodeOf(c).Some? || IsHostCode(c)
  }

  /** The English ordinal suffix of a day of the month. */
  function Suffix(day: int): string {
    if day % 10 == 1 && day != 11 then "st"
    else if day % 10 == 2 && day != 12 then "nd"
    else if day % 10 == 3 && day != 13 then "rd"
    else "th"
  }

  /** `hours % 12 || 12`: the hour on a twelve-hour clock. */
  function TwelveHour(hours: nat): int {
    if hours % 12 == 0 then 12 else hours % 12
  }

  function IsLeapYear(year: int): bool {
    year % 400 == 0 || (year % 100 != 0 && year % 4 == 0)
  }

  /** `'' + b` for a boolean. */
  function BoolText(b: bool): string {
    if b then "true" else "false"
  }

  /**
   * The text `z` and `W` give: each subtracts a `Date` from `this`, which is the table of
   * formatters, and so computes with NaN.
   */
  const NotANumberText: string := "NaN"

  /** The text of `e` and `I`. */
  const UnsupportedText: string := "Not Yet Supported"

  /**
   * `o`: the year of the Thursday of the date's Monday-to-Sunday week, found by moving the
   * day of the month by whole days. The move is at most three days, so it can leave the
   * year only from the first days of January or the last days of December.
   */
  function WeekYear(date: Date): int {
    var thursday := date.day - (date.weekday + 6) % 7 + 3;
    if date.month == 0 && thursday < 1 then date.year - 1
    else if date.month == 11 && thursday > 31 then date.year + 1
    else date.year
  }

  /** The decimal year without its first two characters. */
  function YearTail(year: int): string {
    var s := IntToString(year);
    if |s| <= 2 then "" else s[2..]
  }

  /** The milliseconds in decimal, with "00" in front below 10 and "0" in front below 100. */
  function PadMillis(m: nat): string {
    (if m < 10 then "00" else if m < 100 then "0" else "") + NatToString(m)
  }

  function DayField(date: Date, code: DayCode): string
    requires date.Valid()
  {
    match code
    case DayPadded => ZeroPad(date.day)
    case DayShortName => ShortDays[date.weekday]
    case DayOfMonth => NatToString(date.day)
    case DayLongName => LongDays[date.weekday]
    case IsoWeekday => NatToString(date.weekday + 1)
    case OrdinalSuffix => Suffix(date.day)
    case Weekday => NatToString(date.weekday)
    case DayOfYear => NotANumberText
  }

  function MonthField(date: Date, code: MonthCode): string
    requires date.Valid()
  {
    match code
    case MonthLongName => LongMonths[date.month]
    case MonthPadded => ZeroPad(date.month + 1)
    case MonthShortName => ShortMonths[date.month]
    case MonthNumber => NatToString(date.month + 1)
  }

  function YearField(date: Date, code: YearCode): string {
    match code
    case LeapYear => BoolText(IsLeapYear(date.year))
    case IsoWeekYear => IntToString(WeekYear(date))
    case FullYear => IntToString(date.year)
    case ShortYear => YearTail(date.year)
  }

  function TimeField(date: Date, code: TimeCode): string
    requires date.Valid()
  {
    match code
    case LowerMeridiem => if date.hours < 12 then "am" else "pm"
    case UpperMeridiem => if date.hours < 12 then "AM" else "PM"
    case Hour12 => NatToString(TwelveHour(date.hours))
    case Hour24 => NatToString(date.hours)
    case Hour12Padded => ZeroPad(TwelveHour(date.hours))
    case Hour24Padded => ZeroPad(date.hours)
    case MinutesPadded => ZeroPad(date.minutes)
    case SecondsPadded => ZeroPad(date.seconds)
    case Milliseconds => PadMillis(date.milliseconds)
  }

  /** The text of a date-field formatter, as `+=` appends it. */
  function Field(date: Date, code: Code): string
    requires date.Valid()
  {
    match code
    case Day(c) => DayField(date, c)
    case WeekOfYear => NotANumberText
    case Month(c) => MonthField(date, c)
    case Year(c) => YearField(date, c)
    case Time(c) => TimeField(date, c)
    case Zone(_) => UnsupportedText
  }

  /** The formatter's text for a character that has one. */
  function FieldText(date: Date, host: char -> string, c: char): string
    requires date.Valid()
  {
    match CodeOf(c)
    case Some(code) => Field(date, code)
    case None => host(c)
  }

  /** `_methods[c]` applied to the date: the text of every character with a formatter, `None` for the others. */
  function Formatters(date: Date, host: char -> string): char -> Option<string>
    requires date.Valid()
  {
    c => if IsFormatter(c) then Some(FieldText(date, host, c)) else None
  }

  /**
   * What one format character adds, given the formatters' texts and whether
   * the raw character before it is a backslash.
   */
  function Piece(text: char -> Option<string>, escaped: bool, c: char): string {
    if escaped then [c]
    else if text(c).Some? then text(c).value
    else if c != '\\' then [c]
    else ""
  }

  /**
   * The text of `format` when the raw character before it is a backslash
   * (`escaped`) or not: the pieces of its characters, in order.
   */
  function Run(text: char -> Option<string>, escaped: bool, format: string): string
    decreases |format|
  {
    if format == [] then ""
    else Piece(text, escaped, format[0]) + Run(text, format[0] == '\\', format[1..])
  }

  /** Whether the raw character before the text that follows `format` is a backslash. */
  function EscapesNext(escaped: bool, format: string): bool {
    if format == [] then escaped else format[|format| - 1] == '\\'
  }

  /** The formatted text of a whole template. */
  function Format(text: char -> Option<string>, format: string): string {
    Run(text, false, format)
  }

  /** `DateUtil.formatDate`. */
  method FormatDate(date: Date, host: char -> string, format: string) returns (result: string)
    requires date.Valid()
    ensures result == Format(Formatters(date, host), format)
  {
    ghost var text := Formatters(date, host);
    result := "";
    var i := 0;
    while i < |format|
      invariant 0 <= i <= |format|
      invariant result == Format(text, format[..i])
    {
      var str := format[i];
      assert format[..i + 1] == format[..i] + [str];
      RunConcat(text, false, format[..i], [str]);
      assert EscapesNext(false, format[..i]) == (i - 1 >= 0 && format[i - 1] == '\\');
      if i - 1 >= 0 && format[i - 1] == '\\' {
        result := result + [str];
      } else if IsFormatter(str) {
        result := result + FieldText(date, host, str);
      } else if str != '\\' {
        result := result + [str];
      }
      i := i + 1;
    }
    assert format[..i] == format;
  }

  // ---------------------------------------------------------------------
  // The template
  // ---------------------------------------------------------------------

  /** The text of a concatenation is the text of each part, the second read after the first. */
  lemma {:induction false} RunConcat(text: char -> Option<string>, escaped: bool, a: string, b: string)
    ensures Run(text, escaped, a + b) == Run(text, escaped, a) + Run(text, EscapesNext(escaped, a), b)
    decreases |a|
  {
    if a == [] {
      assert a + b == b;
    } else {
      var c, tail := a[0], a[1..];
      var piece := Piece(text, escaped, c);
      assert (a + b)[0] == c && (a + b)[1..] == tail + b;
      RunConcat(text, c == '\\', tail, b);
      var left, right := Run(text, c == '\\', tail), Run(text, EscapesNext(c == '\\', tail), b);
      assert Run(text, escaped, a + b) == piece + (left + right);
      assert Run(text, escaped, a) == piece + left;
      assert EscapesNext(c == '\\', tail) == EscapesNext(escaped, a);
      assert piece + (left + right) == (piece + left) + right;
    }
  }

  /** A template split after a character that is not a backslash formats as its two halves. */
  lemma FormatConcat(text: char -> Option<string>, a: string, b: string)
    requires a == [] || a[|a| - 1] != '\\'
    ensures Format(text, a + b) == Format(text, a) + Format(text, b)
  {
    RunConcat(text, false, a, b);
  }

  /** A template without formatter characters and without backslashes is copied as it is. */
  lemma {:induction false} FormatLiteral(text: char -> Option<string>, escaped: bool, format: string)
    requires forall i :: 0 <= i < |format| ==> text(format[i]).None? && format[i] != '\\'
    ensures Run(text, escaped, format) == format
    decreases |format|
  {
    if format != [] {
      FormatLiteral(text, false, format[1..]);
      assert format == [format[0]] + format[1..];
    }
  }

  /** A backslash followed by any character, the backslash itself included, gives that character. */
  lemma EscapePair(text: char -> Option<string>, c: char)
    requires text('\\').None?
    ensures Format(text, ['\\', c]) == [c]
  {
    assert ['\\', c][1..] == [c];
    assert [c][1..] == [];
    assert Run(text, true, [c]) == [c];
  }

  /** The template has a backslash right after a backslash. */
  predicate EscapedBackslash(format: string) {
    exists i :: 1 <= i < |format| && format[i - 1] == '\\' && format[i] == '\\'
  }

  lemma EscapedBackslashCons(format: string)
    requires format != []
    ensures EscapedBackslash(format) <==>
      (format[0] == '\\' && |format| >= 2 && format[1] == '\\') || EscapedBackslash(format[1..])
  {
    var r := format[1..];
    if EscapedBackslash(r) {
      var i :| 1 <= i < |r| && r[i - 1] == '\\' && r[i] == '\\';
      assert format[i] == '\\' && format[i + 1] == '\\';
    }
    if EscapedBackslash(format) && !(format[0] == '\\' && |format| >= 2 && format[1] == '\\') {
      var i :| 1 <= i < |format| && format[i - 1] == '\\' && format[i] == '\\';
      assert r[i - 2] == '\\' && r[i - 1] == '\\';
    }
  }

  /**
   * A lone backslash never reaches the output: the text holds a backslash
   * exactly when the template escapes one (or starts with one right after a
   * backslash), as long as no formatter gives one.
   */
  lemma {:induction false} BackslashOnlyEscaped(text: char -> Option<string>, escaped: bool, format: string)
    requires forall c :: text(c).Some? ==> '\\' !in text(c).value
    ensures '\\' in Run(text, escaped, format) <==>
      (escaped && format != [] && format[0] == '\\') || EscapedBackslash(format)
    decreases |format|
  {
    if format != [] {
      BackslashOnlyEscaped(text, format[0] == '\\', format[1..]);
      EscapedBackslashCons(format);
      var piece := Piece(text, escaped, format[0]);
      assert '\\' in piece <==> escaped && format[0] == '\\';
    }
  }

  /** The date's formatters give no backslash when the host codes give none. */
  lemma FormattersPlain(date: Date, host: char -> string)
    requires date.Valid()
    requires forall c :: IsHostCode(c) ==> '\\' !in host(c)
    ensures forall c :: Formatters(date, host)(c).Some? ==> '\\' !in Formatters(date, host)(c).value
  {
    forall c | Formatters(date, host)(c).Some? ensures '\\' !in Formatters(date, host)(c).value {
      if CodeOf(c).Some? {
        FieldPlain(date, CodeOf(c).value);
      }
    }
  }

  /** With the date's formatters: a template of characters that have no formatter and are not backslashes is copied. */
  lemma DateFormatCopiesLiterals(date: Date, host: char -> string, format: string)
    requires date.Valid()
    requires forall i :: 0 <= i < |format| ==> !IsFormatter(format[i]) && format[i] != '\\'
    ensures Format(Formatters(date, host), format) == format
  {
    FormatLiteral(Formatters(date, host), false, format);
  }

  /** With the date's formatters: a backslash appears in the text exactly when the template escapes one. */
  lemma DateFormatBackslash(date: Date, host: char -> string, format: string)
    requires date.Valid()
    requires forall c :: IsHostCode(c) ==> '\\' !in host(c)
    ensures '\\' in Format(Formatters(date, host), format) <==> EscapedBackslash(format)
  {
    FormattersPlain(date, host);
    BackslashOnlyEscaped(Formatters(date, host), false, format);
  }

  // ---------------------------------------------------------------------
  // The fields
  // ---------------------------------------------------------------------

  /** No date field holds a backslash. */
  lemma FieldPlain(date: Date, code: Code)
    requires date.Valid()
    ensures '\\' !in Field(date, code)
  {
    match code
    case Day(c) => DayPlain(date, c);
    case WeekOfYear =>
    case Month(c) => MonthPlain(date, c);
    case Year(c) => YearPlain(date, c);
    case Time(c) => TimePlain(date, c);
    case Zone(_) =>
  }

  lemma DayPlain(date: Date, code: DayCode)
    requires date.Valid()
    ensures '\\' !in DayField(date, code)
  {
    assert forall i :: 0 <= i < 7 ==> '\\' !in ShortDays[i] && '\\' !in LongDays[i];
  }

  lemma MonthPlain(date: Date, code: MonthCode)
    requires date.Valid()
    ensures '\\' !in MonthField(date, code)
  {
    assert forall i :: 0 <= i < 12 ==> '\\' !in ShortMonths[i] && '\\' !in LongMonths[i];
  }

  lemma YearPlain(date: Date, code: YearCode)
    ensures '\\' !in YearField(date, code)
  {
    var s := IntToString(date.year);
    assert forall i :: 0 <= i < |s| ==> s[i] != '\\';
    var w := IntToString(WeekYear(date));
    assert forall i :: 0 <= i < |w| ==> w[i] != '\\';
    if |s| > 2 {
      assert forall i :: 0 <= i < |s[2..]| ==> s[2..][i] == s[i + 2];
    }
  }

  lemma TimePlain(date: Date, code: TimeCode)
    requires date.Valid()
    ensures '\\' !in TimeField(date, code)
  {
  }

  /** Two decimal digits that read back as `v`. */
  predicate TwoDigits(s: string, v: int) {
    |s| == 2 && AllDigits(s) && DigitsValue(s) == v
  }

  /** `d`, `m`, `H`, `i` and `s` are two digits that read back as the day, the month (1-based, so 01 to 12), the hour, the minute and the second. */
  lemma TwoDigitFields(date: Date)
    requires date.Valid()
    ensures TwoDigits(DayField(date, DayPadded), date.day)
    ensures TwoDigits(MonthField(date, MonthPadded), date.month + 1) && 1 <= date.month + 1 <= 12
    ensures TwoDigits(TimeField(date, Hour24Padded), date.hours)
    ensures TwoDigits(TimeField(date, MinutesPadded), date.minutes)
    ensures TwoDigits(TimeField(date, SecondsPadded), date.seconds)
  {
    ZeroPadTwoDigits(date.day);
    ZeroPadTwoDigits(date.month + 1);
    ZeroPadTwoDigits(date.hours);
    ZeroPadTwoDigits(date.minutes);
    ZeroPadTwoDigits(date.seconds);
  }

  /** `S`: st for 1, 21 and 31, nd for 2 and 22, rd for 3 and 23, th for every other day, 11 to 13 included. */
  lemma SuffixRule(date: Date)
    requires date.Valid()
    ensures DayField(date, OrdinalSuffix) == "st" <==> date.day in {1, 21, 31}
    ensures DayField(date, OrdinalSuffix) == "nd" <==> date.day in {2, 22}
    ensures DayField(date, OrdinalSuffix) == "rd" <==> date.day in {3, 23}
    ensures DayField(date, OrdinalSuffix) == "th" <==> date.day !in {1, 2, 3, 21, 22, 23, 31}
  {
  }

  /** `L` is "true" for the Gregorian leap years and "false" otherwise; the rule repeats every 400 years. */
  lemma LeapYearRule(date: Date)
    ensures YearField(date, LeapYear) == "true" <==>
      date.year % 400 == 0 || (date.year % 4 == 0 && date.year % 100 != 0)
    ensures YearField(date, LeapYear) == "true" || YearField(date, LeapYear) == "false"
    ensures IsLeapYear(date.year + 400) == IsLeapYear(date.year)
  {
    var y := date.year;
    assert y + 400 == y + 1 * 400 == y + 4 * 100 == y + 100 * 4;
    assert (y + 400) % 400 == y % 400 && (y + 400) % 100 == y % 100 && (y + 400) % 4 == y % 4;
  }

  /** `g` is the hour on a twelve-hour clock, 1 to 12 and congruent to the hour modulo 12, and `h` is the same hour in two digits. */
  lemma TwelveHourClock(date: Date)
    requires date.Valid()
    ensures 1 <= TwelveHour(date.hours) <= 12
    ensures TwelveHour(date.hours) % 12 == date.hours % 12
    ensures TimeField(date, Hour12) == NatToString(TwelveHour(date.hours))
    ensures TwoDigits(TimeField(date, Hour12Padded), TwelveHour(date.hours))
    ensures date.hours == 0 ==> TwelveHour(date.hours) == 12
  {
    ZeroPadTwoDigits(TwelveHour(date.hours));
  }

  /** `a` and `A` say am and AM exactly before noon, pm and PM from noon on. */
  lemma Meridiem(date: Date)
    requires date.Valid()
    ensures TimeField(date, LowerMeridiem) == "am" <==> date.hours < 12
    ensures TimeField(date, LowerMeridiem) == "pm" <==> date.hours >= 12
    ensures TimeField(date, UpperMeridiem) == "AM" <==> date.hours < 12
    ensures TimeField(date, UpperMeridiem) == "PM" <==> date.hours >= 12
  {
  }

  lemma NatToStringThreeDigits(n: nat)
    requires 100 <= n < 1000
    ensures |NatToString(n)| == 3
  {
    NatToStringTwoDigits(n / 10);
  }

  /** `u` is three digits that read back as the milliseconds. */
  lemma MillisecondsField(date: Date)
    requires date.Valid()
    ensures |TimeField(date, Milliseconds)| == 3 && AllDigits(TimeField(date, Milliseconds))
    ensures DigitsValue(TimeField(date, Milliseconds)) == date.milliseconds
  {
    var m := date.milliseconds;
    var t := NatToString(m);
    var s := PadMillis(m);
    assert TimeField(date, Milliseconds) == s;
    DigitsValueOfNatToString(m);
    if m < 10 {
      assert s == "00" + t;
      assert s[..|s| - 1] == "00" && DigitsValue("00") == 0;
    } else if m < 100 {
      NatToStringTwoDigits(m);
      assert s == "0" + t;
      assert s[..|s| - 1] == "0" + t[..1];
      assert t[..|t| - 1] == t[..1];
      assert DigitsValue("0" + t[..1]) == DigitsValue(t[..1]);
    } else {
      NatToStringThreeDigits(m);
      assert s == t;
    }
  }

  /** `y` for a four-digit year is the year modulo 100 in two digits. */
  lemma TwoDigitYear(date: Date)
    requires 1000 <= date.year < 10000
    ensures TwoDigits(YearField(date, ShortYear), date.year % 100)
  {
    var y := date.year;
    var s := NatToString(y);
    NatToStringTwoDigits(y / 100);
    assert s == NatToString(y / 10) + [DigitChar(y % 10)];
    assert NatToString(y / 10) == NatToString(y / 100) + [DigitChar(y / 10 % 10)];
    var t := s[2..];
    assert t == [DigitChar(y / 10 % 10), DigitChar(y % 10)];
    assert t[..1] == [DigitChar(y / 10 % 10)];
    assert DigitsValue(t[..1]) == y / 10 % 10;
    assert y % 100 == 10 * (y / 10 % 10) + y % 10;
  }

  // ---------------------------------------------------------------------
  // The codes that do not depend on the date
  // ---------------------------------------------------------------------

  /** `z` and `W` give "NaN", whatever the date and the host. */
  lemma NotANumberCodes(date: Date, host: char -> string)
    requires date.Valid()
    ensures Formatters(date, host)('z') == Some("NaN") && Formatters(date, host)('W') == Some("NaN")
  {
  }

  /** `e` and `I` give "Not Yet Supported", whatever the date and the host. */
  lemma UnsupportedCodes(date: Date, host: char -> string)
    requires date.Valid()
    ensures Formatters(date, host)('e') == Some("Not Yet Supported")
    ensures Formatters(date, host)('I') == Some("Not Yet Supported")
  {
  }

  /**
   * `o` is the date's own year from the fourth of January to the twenty-eighth of December,
   * and at most one year away from it on the days between.
   */
  lemma WeekYearNear(date: Date)
    requires date.Valid()
    ensures date.year - 1 <= WeekYear(date) <= date.year + 1
    ensures (date.month != 0 || date.day >= 4) && (date.month != 11 || date.day <= 28) ==> WeekYear(date) == date.year
    ensures WeekYear(date) < date.year ==> date.month == 0 && date.day <= 3
    ensures WeekYear(date) > date.year ==> date.month == 11 && date.day >= 29
  {
  }

  /** `o` of a Thursday is its own year, since the week is found from its Thursday. */
  lemma WeekYearOfThursday(date: Date)
    requires date.Valid() && date.weekday == 4 && date.day <= 31
    ensures WeekYear(date) == date.year
    ensures YearField(date, IsoWeekYear) == YearField(date, FullYear)
  {
  }

  /**
   * `o` on the first of January: the previous year when that day falls on a Friday, a
   * Saturday or a Sunday (its week's Thursday is in December), and the year itself otherwise.
   */
  lemma WeekYearNewYearsDay(date: Date)
    requires date.Valid() && date.month == 0 && date.day == 1
    ensures WeekYear(date) == date.year - 1 <==> date.weekday in {0, 5, 6}
  {
  }
}
