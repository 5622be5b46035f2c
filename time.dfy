/**
 * `formatTimestamp`: prints a date as `year-MM-DD`.
 *
 * Turning the timestamp into a local calendar date (`new Date(timestamp)` with `getFullYear`,
 * `getMonth`, `getDate`) depends on the device's time zone and is an input here: `Some` of
 * the three getter results, or `None` for an Invalid Date, whose getters all return NaN.
 */
module Time {
  import opened Wrappers
  import opened Decimal

  /** What the `Date` getters return; `monthIndex` counts from 0 as `getMonth` does. */
  datatype LocalDate = LocalDate(year: int, monthIndex: int, day: int)

  /** The ranges the `Date` getters keep to. */
  predicate ValidDate(d: LocalDate) {
    0 <= d.monthIndex <= 11 && 1 <= d.day <= 31
  }

  /** `v < 10 ? '0' + v : v`, printed. */
  function Pad(v: int): (s: string)
    ensures 0 <= v < 10 ==> s == ['0', DigitChar(v)]
    ensures v >= 10 ==> s == NatToDecimal(v) && s[0] != '0'
    ensures 1 <= v < 100 ==> |s| == 2 && AllDigits(s)
  {
    if v < 10 then "0" + IntToDecimal(v) else IntToDecimal(v)
  }

  const InvalidDateText: string := "NaN-NaN-NaN"

  /** `formatTimestamp`: the year as printed, the 1-based month and the day, each padded. */
  function FormatTimestamp(date: Option<LocalDate>): (s: string)
    ensures date.None? ==> s == InvalidDateText
    ensures date.Some? ==> var y := IntToDecimal(date.value.year); |s| > |y| && s[..|y| + 1] == y + "-"
  {
    match date
    case None => InvalidDateText
    case Some(d) => IntToDecimal(d.year) + "-" + Pad(d.monthIndex + 1) + "-" + Pad(d.day)
  }

  /** Digit fields that are not empty. */
  predicate Numeral(f: string) {
    f != [] && AllDigits(f)
  }

  /**
   * Reads `year-MM-DD` back: the year (after a `-` when it is negative) is everything before
   * the last six characters, then the two-digit month, shifted back to an index, and the
   * two-digit day.
   */
  function ParseTimestamp(s: string): (date: Option<LocalDate>)
    ensures date.Some? ==> date.value.monthIndex >= -1 && date.value.day >= 0
  {
    if |s| < 7 || s[|s| - 6] != '-' || s[|s| - 3] != '-' then None
    else
      var year, month, day := s[..|s| - 6], s[|s| - 5..|s| - 3], s[|s| - 2..];
      if !Numeral(month) || !Numeral(day) then None
      else if Numeral(year) then
        Some(LocalDate(DecimalValue(year), DecimalValue(month) - 1, DecimalValue(day)))
      else if year[0] == '-' && Numeral(year[1..]) then
        Some(LocalDate(-(DecimalValue(year[1..]) as int), DecimalValue(month) - 1, DecimalValue(day)))
      else None
  }

  lemma PadValue(v: int)
    requires 1 <= v < 100
    ensures |Pad(v)| == 2 && Numeral(Pad(v)) && DecimalValue(Pad(v)) == v
  {
    if v >= 10 {
      DecimalRoundTrip(v);
    } else {
      var s := Pad(v);
      assert s[..1] == ['0'] && ['0'][..0] == [];
    }
  }

  /** Where the parts of `y-m-dd` sit when the month and the day have two characters. */
  lemma Layout(y: string, m: string, dd: string)
    requires |m| == 2 && |dd| == 2
    ensures var s := y + "-" + m + "-" + dd;
            && |s| == |y| + 6
            && s[..|s| - 6] == y && s[|s| - 6] == '-' && s[|s| - 5..|s| - 3] == m
            && s[|s| - 3] == '-' && s[|s| - 2..] == dd
  {
  }

  /** A formatted valid date: the printed year, then `-`, the month field, `-` and the day field. */
  lemma FormattedLayout(d: LocalDate)
    requires ValidDate(d)
    ensures var s, y := FormatTimestamp(Some(d)), IntToDecimal(d.year);
            && |s| == |y| + 6
            && s[..|s| - 6] == y && s[|s| - 6] == '-' && s[|s| - 5..|s| - 3] == Pad(d.monthIndex + 1)
            && s[|s| - 3] == '-' && s[|s| - 2..] == Pad(d.day)
  {
    PadValue(d.monthIndex + 1);
    PadValue(d.day);
    Layout(IntToDecimal(d.year), Pad(d.monthIndex + 1), Pad(d.day));
  }

  /** A string with two separators six and three characters from its end and digit fields reads as a date. */
  lemma ParseFields(s: string)
    requires |s| >= 7 && s[|s| - 6] == '-' && s[|s| - 3] == '-'
    requires Numeral(s[|s| - 5..|s| - 3]) && Numeral(s[|s| - 2..])
    ensures Numeral(s[..|s| - 6]) ==>
              ParseTimestamp(s) == Some(LocalDate(DecimalValue(s[..|s| - 6]),
                                                  DecimalValue(s[|s| - 5..|s| - 3]) - 1,
                                                  DecimalValue(s[|s| - 2..])))
    ensures s[0] == '-' && Numeral(s[1..|s| - 6]) ==>
              ParseTimestamp(s) == Some(LocalDate(-(DecimalValue(s[1..|s| - 6]) as int),
                                                  DecimalValue(s[|s| - 5..|s| - 3]) - 1,
                                                  DecimalValue(s[|s| - 2..])))
  {
    var year := s[..|s| - 6];
    if s[0] == '-' {
      assert year[0] == '-' && year[1..] == s[1..|s| - 6];
      assert !IsDigit(year[0]);
    }
  }

  /** Reading back a formatted valid date gives the date. */
  lemma FormatParseRoundTrip(d: LocalDate)
    requires ValidDate(d)
    ensures ParseTimestamp(FormatTimestamp(Some(d))) == Some(d)
  {
    var s, y := FormatTimestamp(Some(d)), IntToDecimal(d.year);
    FormattedLayout(d);
    PadValue(d.monthIndex + 1);
    PadValue(d.day);
    IntToDecimalValue(d.year);
    if d.year < 0 {
      assert s[0] == y[0] && s[1..|s| - 6] == y[1..];
    }
    ParseFields(s);
  }

  /** Two different valid dates never print the same. */
  lemma FormatInjective(d1: LocalDate, d2: LocalDate)
    requires ValidDate(d1) && ValidDate(d2)
    requires FormatTimestamp(Some(d1)) == FormatTimestamp(Some(d2))
    ensures d1 == d2
  {
    FormatParseRoundTrip(d1);
    FormatParseRoundTrip(d2);
  }

  /** The month field is the 0-based index plus one, between 1 and 12, in two digits. */
  lemma MonthField(d: LocalDate)
    requires ValidDate(d)
    ensures var s := FormatTimestamp(Some(d));
            |s| >= 7 && var m := s[|s| - 5..|s| - 3];
            |m| == 2 && AllDigits(m) && DecimalValue(m) == d.monthIndex + 1 && 1 <= DecimalValue(m) <= 12
  {
    FormattedLayout(d);
    PadValue(d.monthIndex + 1);
  }

  /** The day field is the day of the month in two digits. */
  lemma DayField(d: LocalDate)
    requires ValidDate(d)
    ensures var s := FormatTimestamp(Some(d));
            |s| >= 7 && var day := s[|s| - 2..];
            |day| == 2 && AllDigits(day) && DecimalValue(day) == d.day
  {
    FormattedLayout(d);
    PadValue(d.day);
  }

  lemma DashCount(y: string, m: string, dd: string)
    requires '-' !in m && '-' !in dd
    ensures multiset(y + "-" + m + "-" + dd)['-'] == multiset(y)['-'] + 2
  {
  }

  /** A printed year holds a `-` only in front, and only when it is negative. */
  lemma YearDashes(year: int)
    ensures multiset(IntToDecimal(year))['-'] == if year < 0 then 1 else 0
  {
    if year < 0 {
      var digits := NatToDecimal(-year);
      assert '-' !in digits;
      assert IntToDecimal(year) == "-" + digits;
    } else {
      assert '-' !in IntToDecimal(year);
    }
  }

  /** The output has two `-` separators, and one more `-` in front of a negative year. */
  lemma TwoSeparators(d: LocalDate)
    requires ValidDate(d)
    ensures multiset(FormatTimestamp(Some(d)))['-'] == if d.year < 0 then 3 else 2
  {
    var m, dd := Pad(d.monthIndex + 1), Pad(d.day);
    assert '-' !in m && '-' !in dd;
    DashCount(IntToDecimal(d.year), m, dd);
    YearDashes(d.year);
  }

  /** An Invalid Date prints as `NaN-NaN-NaN`, which does not read back as a date. */
  lemma InvalidDateNotParsed()
    ensures ParseTimestamp(FormatTimestamp(None)) == None
  {
    assert InvalidDateText[5] == 'a';
  }

  /** 1 March 2024 (month index 2) prints as `2024-03-01`. */
  lemma FirstOfMarch()
    ensures FormatTimestamp(Some(LocalDate(2024, 2, 1))) == "2024-03-01"
  {
    assert IntToDecimal(2024) == "2024" by {
      assert NatToDecimal(20) == "20";
      assert NatToDecimal(202) == "202";
    }
    assert Pad(3) == "03" && Pad(1) == "01";
  }

  /** 25 December 2024 (month index 11) prints as `2024-12-25`, with neither field padded. */
  lemma ChristmasDay()
    ensures FormatTimestamp(Some(LocalDate(2024, 11, 25))) == "2024-12-25"
  {
    assert IntToDecimal(2024) == "2024" by {
      assert NatToDecimal(20) == "20";
      assert NatToDecimal(202) == "202";
    }
    assert Pad(12) == "12" && Pad(25) == "25";
  }
}
