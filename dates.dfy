/** The due-date check `datetime.strptime(due_date, "%Y-%m-%d")`.
    CPython's strptime turns the format into the regular expression
      (\d\d\d\d)-(1[0-2]|0[1-9]|[1-9])-(3[01]|[12]\d|0[1-9]|[1-9]| [1-9])
    which must match the whole string, and then builds a datetime.date from
    the three numbers, which fails for year 0 and for a day past the end of
    its month. Month and day may therefore be written with one or two digits,
    and the day also with a leading space. Only ASCII digits are modelled. */
module Dates {
  import opened Wrappers
  import opened Text

  datatype Date = Date(year: nat, month: nat, day: nat)

  /** Gregorian leap years, as datetime uses them. */
  predicate IsLeapYear(y: int) {
    y % 4 == 0 && (y % 100 != 0 || y % 400 == 0)
  }

  function DaysInMonth(y: int, m: int): (n: nat)
    requires 1 <= m <= 12
    ensures 28 <= n <= 31
    ensures n == 29 <==> m == 2 && IsLeapYear(y)
  {
    if m == 2 then (if IsLeapYear(y) then 29 else 28)
    else if m == 4 || m == 6 || m == 9 || m == 11 then 30
    else 31
  }

  /** The dates datetime.date accepts: years 1 through 9999, real days. */
  predicate IsCalendarDate(d: Date) {
    1 <= d.year <= 9999 && 1 <= d.month <= 12 && 1 <= d.day <= DaysInMonth(d.year, d.month)
  }

  /** %Y: exactly four ASCII digits. */
  function YearField(t: string): (r: Option<nat>)
    ensures r.Some? ==> r.value < 10000
  {
    if |t| == 4 && IsDigit(t[0]) && IsDigit(t[1]) && IsDigit(t[2]) && IsDigit(t[3]) then
      Some(1000 * DigitValue(t[0]) + 100 * DigitValue(t[1]) + 10 * DigitValue(t[2]) + DigitValue(t[3]))
    else None
  }

  /** %m: 1[0-2] | 0[1-9] | [1-9]. */
  function MonthField(t: string): (r: Option<nat>)
    ensures r.Some? ==> 1 <= r.value <= 12
  {
    if |t| == 2 && t[0] == '1' && '0' <= t[1] <= '2' then Some(10 + DigitValue(t[1]))
    else if |t| == 2 && t[0] == '0' && '1' <= t[1] <= '9' then Some(DigitValue(t[1]))
    else if |t| == 1 && '1' <= t[0] <= '9' then Some(DigitValue(t[0]))
    else None
  }

  /** %d: 3[01] | [12]\d | 0[1-9] | [1-9] | ' '[1-9]. */
  function DayField(t: string): (r: Option<nat>)
    ensures r.Some? ==> 1 <= r.value <= 31
  {
    if |t| == 2 && t[0] == '3' && '0' <= t[1] <= '1' then Some(30 + DigitValue(t[1]))
    else if |t| == 2 && '1' <= t[0] <= '2' && IsDigit(t[1]) then Some(10 * DigitValue(t[0]) + DigitValue(t[1]))
    else if |t| == 2 && t[0] == '0' && '1' <= t[1] <= '9' then Some(DigitValue(t[1]))
    else if |t| == 1 && '1' <= t[0] <= '9' then Some(DigitValue(t[0]))
    else if |t| == 2 && t[0] == ' ' && '1' <= t[1] <= '9' then Some(DigitValue(t[1]))
    else None
  }

  /** The date strptime reads from s, or None where it raises ValueError.
      None of the three field languages contains '-', so matching the
      expression is the same as splitting on '-' into exactly three fields. */
  function ParseDate(s: string): (r: Option<Date>)
    ensures r.Some? ==> IsCalendarDate(r.value)
  {
    var f := Split(s, '-');
    if |f| != 3 then None
    else
      match (YearField(f[0]), MonthField(f[1]), DayField(f[2]))
      case (Some(y), Some(m), Some(d)) =>
        if 1 <= y && d <= DaysInMonth(y, m) then Some(Date(y, m, d)) else None
      case _ => None
  }

  /** The check parse_task_input applies to the due date. */
  predicate ValidDate(s: string) {
    ParseDate(s).Some?
  }

  /** The ways strptime lets a month or a day be written. */
  datatype MonthStyle = MonthPadded | MonthBare
  datatype DayStyle = DayPadded | DayBare | DaySpacePadded

  function YearText(y: nat): (t: string)
    requires y < 10000
    ensures |t| == 4
  {
    [DigitChar(y / 1000), DigitChar(y / 100 % 10), DigitChar(y / 10 % 10), DigitChar(y % 10)]
  }

  function MonthText(m: nat, style: MonthStyle): string
    requires 1 <= m <= 12
  {
    if m >= 10 then ['1', DigitChar(m - 10)]
    else if style == MonthPadded then ['0', DigitChar(m)]
    else [DigitChar(m)]
  }

  function DayText(d: nat, style: DayStyle): string
    requires 1 <= d <= 31
  {
    if d >= 10 then [DigitChar(d / 10), DigitChar(d % 10)]
    else match style
      case DayPadded => ['0', DigitChar(d)]
      case DayBare => [DigitChar(d)]
      case DaySpacePadded => [' ', DigitChar(d)]
  }

  /** A calendar date written in one of the accepted spellings. */
  function Spell(d: Date, ms: MonthStyle, ds: DayStyle): string
    requires IsCalendarDate(d)
  {
    YearText(d.year) + "-" + MonthText(d.month, ms) + "-" + DayText(d.day, ds)
  }

  lemma {:induction false} ThreeFields(y: string, m: string, d: string)
    requires '-' !in y && '-' !in m && '-' !in d
    ensures Join([y, m, d], '-') == y + "-" + m + "-" + d
    ensures Split(y + "-" + m + "-" + d, '-') == [y, m, d]
  {
    assert [y, m, d][1..] == [m, d];
    assert Join([m, d], '-') == m + "-" + d;
    SplitJoin([y, m, d], '-');
  }

  lemma {:induction false} FourDigits(a: nat, b: nat, c: nat, d: nat)
    requires a < 10 && b < 10 && c < 10 && d < 10
    ensures var y := 1000 * a + 100 * b + 10 * c + d;
      y / 1000 == a && y / 100 % 10 == b && y / 10 % 10 == c && y % 10 == d
  {
    var y := 1000 * a + 100 * b + 10 * c + d;
    assert y / 10 == 100 * a + 10 * b + c && y % 10 == d;
    assert (100 * a + 10 * b + c) / 10 == 10 * a + b && (100 * a + 10 * b + c) % 10 == c;
    assert (10 * a + b) / 10 == a && (10 * a + b) % 10 == b;
    assert y / 100 == (y / 10) / 10;
    assert y / 1000 == (y / 100) / 10;
  }

  lemma {:induction false} YearTextParses(y: nat)
    requires y < 10000
    ensures YearField(YearText(y)) == Some(y)
  {
    var a, b, c, d := y / 1000, y / 100 % 10, y / 10 % 10, y % 10;
    assert y == 10 * (y / 10) + d;
    assert y / 10 == 10 * (y / 100) + c by {
      assert y / 100 == (y / 10) / 10;
    }
    assert y / 100 == 10 * a + b by {
      assert y / 1000 == (y / 100) / 10;
    }
    assert y == 1000 * a + 100 * b + 10 * c + d;
  }

  lemma {:induction false} YearFieldSpelled(t: string)
    requires YearField(t).Some?
    ensures t == YearText(YearField(t).value)
  {
    FourDigits(DigitValue(t[0]), DigitValue(t[1]), DigitValue(t[2]), DigitValue(t[3]));
  }

  lemma {:induction false} MonthTextParses(m: nat, style: MonthStyle)
    requires 1 <= m <= 12
    ensures MonthField(MonthText(m, style)) == Some(m)
  {
  }

  lemma {:induction false} DayTextParses(d: nat, style: DayStyle)
    requires 1 <= d <= 31
    ensures DayField(DayText(d, style)) == Some(d)
  {
  }

  lemma {:induction false} MonthFieldSpelled(t: string)
    requires MonthField(t).Some?
    ensures t == MonthText(MonthField(t).value, MonthPadded) || t == MonthText(MonthField(t).value, MonthBare)
  {
  }

  lemma {:induction false} DayFieldSpelled(t: string)
    requires DayField(t).Some?
    ensures t == DayText(DayField(t).value, DayPadded) || t == DayText(DayField(t).value, DayBare)
         || t == DayText(DayField(t).value, DaySpacePadded)
  {
  }

  /** Every spelling of every calendar date passes the check and reads back
      as that date. */
  lemma {:induction false} SpellParses(d: Date, ms: MonthStyle, ds: DayStyle)
    requires IsCalendarDate(d)
    ensures ParseDate(Spell(d, ms, ds)) == Some(d)
  {
    var y, m, t := YearText(d.year), MonthText(d.month, ms), DayText(d.day, ds);
    assert '-' !in y && '-' !in m && '-' !in t;
    ThreeFields(y, m, t);
    YearTextParses(d.year);
    MonthTextParses(d.month, ms);
    DayTextParses(d.day, ds);
  }

  /** Conversely, whatever passes the check is a spelling of the calendar
      date it reads as: together with SpellParses, ValidDate(s) holds exactly
      when s spells a real date of years 0001 to 9999. */
  lemma {:induction false} ParsedIsSpelled(s: string)
    requires ValidDate(s)
    ensures exists ms: MonthStyle, ds: DayStyle :: s == Spell(ParseDate(s).value, ms, ds)
  {
    var d := ParseDate(s).value;
    var f := Split(s, '-');
    YearFieldSpelled(f[0]);
    MonthFieldSpelled(f[1]);
    DayFieldSpelled(f[2]);
    var ms := if f[1] == MonthText(d.month, MonthPadded) then MonthPadded else MonthBare;
    var ds := if f[2] == DayText(d.day, DayPadded) then DayPadded
              else if f[2] == DayText(d.day, DayBare) then DayBare else DaySpacePadded;
    assert f == [YearText(d.year), MonthText(d.month, ms), DayText(d.day, ds)];
    ThreeFields(f[0], f[1], f[2]);
    assert s == Spell(d, ms, ds);
  }

  lemma {:induction false} SpellShape(d: Date, ms: MonthStyle, ds: DayStyle)
    requires IsCalendarDate(d)
    ensures var s := Spell(d, ms, ds);
      |s| >= 8 && IsDigit(s[0]) && IsDigit(s[|s| - 1]) && '|' !in s
  {
    var y, m, t := YearText(d.year), MonthText(d.month, ms), DayText(d.day, ds);
    assert '|' !in y && '|' !in m && '|' !in t;
    assert IsDigit(y[0]) && IsDigit(t[|t| - 1]);
    var s := y + "-" + m + "-" + t;
    assert s[0] == y[0] && s[|s| - 1] == t[|t| - 1];
  }

  /** A date that passes the check starts and ends with a digit and has no
      '|' in it, so it survives the field split and trim of a task line. */
  lemma {:induction false} ValidDateShape(s: string)
    requires ValidDate(s)
    ensures |s| >= 8 && IsDigit(s[0]) && IsDigit(s[|s| - 1]) && '|' !in s
  {
    ParsedIsSpelled(s);
    var d := ParseDate(s).value;
    var ms: MonthStyle, ds: DayStyle :| s == Spell(d, ms, ds);
    SpellShape(d, ms, ds);
  }

  /** 29 February is a date only in leap years, however it is spelled. */
  lemma {:induction false} LeapDay(y: nat, ms: MonthStyle, ds: DayStyle)
    requires 1 <= y <= 9999
    ensures ValidDate(YearText(y) + "-" + MonthText(2, ms) + "-" + DayText(29, ds)) <==> IsLeapYear(y)
  {
    var yt, m, d := YearText(y), MonthText(2, ms), DayText(29, ds);
    assert '-' !in yt && '-' !in m && '-' !in d;
    ThreeFields(yt, m, d);
    YearTextParses(y);
    MonthTextParses(2, ms);
    DayTextParses(29, ds);
  }

  lemma {:induction false} LeapDayAccepted()
    ensures ValidDate("2024-02-29")
  {
    LeapDay(2024, MonthPadded, DayPadded);
    assert YearText(2024) == "2024";
    assert MonthText(2, MonthPadded) == "02";
    assert DayText(29, DayPadded) == "29";
    assert "2024-02-29" == "2024" + "-" + "02" + "-" + "29";
  }

  lemma {:induction false} LeapDayRejected()
    ensures !ValidDate("2023-02-29")
  {
    LeapDay(2023, MonthPadded, DayPadded);
    assert YearText(2023) == "2023";
    assert MonthText(2, MonthPadded) == "02";
    assert DayText(29, DayPadded) == "29";
    assert "2023-02-29" == "2023" + "-" + "02" + "-" + "29";
  }

  /** Month and day may be written with one digit, the day also space-padded. */
  lemma {:induction false} ShortFieldsAccepted()
    ensures ValidDate("2024-1-5")
  {
    SpellParses(Date(2024, 1, 5), MonthBare, DayBare);
    assert YearText(2024) == "2024";
    assert MonthText(1, MonthBare) == "1";
    assert DayText(5, DayBare) == "5";
    assert "2024-1-5" == "2024" + "-" + "1" + "-" + "5";
  }

  lemma {:induction false} SpacePaddedDayAccepted()
    ensures ValidDate("2024-01- 5")
  {
    SpellParses(Date(2024, 1, 5), MonthPadded, DaySpacePadded);
    assert YearText(2024) == "2024";
    assert MonthText(1, MonthPadded) == "01";
    assert DayText(5, DaySpacePadded) == " 5";
    assert "2024-01- 5" == "2024" + "-" + "01" + "-" + " 5";
  }

  /** Year 0 is refused by datetime even though it has four digits. */
  lemma {:induction false} YearZeroRejected(m: string, d: string)
    requires '-' !in m && '-' !in d
    ensures !ValidDate("0000" + "-" + m + "-" + d)
  {
    ThreeFields("0000", m, d);
    assert YearField("0000") == Some(0);
  }

  /** There is no month 13, whatever the year and day. */
  lemma {:induction false} MonthThirteenRejected(y: string, d: string)
    requires '-' !in y && '-' !in d
    ensures !ValidDate(y + "-" + "13" + "-" + d)
  {
    ThreeFields(y, "13", d);
    assert MonthField("13") == None;
  }

  /** %Y needs exactly four digits. */
  lemma {:induction false} ShortYearRejected(y: string, m: string, d: string)
    requires '-' !in y && '-' !in m && '-' !in d && |y| != 4
    ensures !ValidDate(y + "-" + m + "-" + d)
  {
    ThreeFields(y, m, d);
  }
}
