/** The two text formats the meal schemas accept: `meal_hour`, matched
    against /^([01]\d|2[0-3]):([0-5]\d)$/, and `meal_date`, matched against
    /^(0[1-9]|[12]\d|3[01])\/(0[1-9]|1[0-2])\/\d{4}$/.  Each predicate
    follows its regular expression alternative by alternative; the lemmas
    relate it to the numeric reading of the same text. */
module Formats {
  import opened JsText

  /** `[01]\d|2[0-3]` */
  predicate HourDigits(a: char, b: char)
  {
    ((a == '0' || a == '1') && IsDigit(b)) || (a == '2' && '0' <= b <= '3')
  }

  /** `[0-5]\d` */
  predicate MinuteDigits(a: char, b: char)
  {
    '0' <= a <= '5' && IsDigit(b)
  }

  /** The `meal_hour` pattern; the anchors make it match the whole string. */
  predicate ValidHour(s: string)
  {
    |s| == 5 && HourDigits(s[0], s[1]) && s[2] == ':' && MinuteDigits(s[3], s[4])
  }

  /** `0[1-9]|[12]\d|3[01]` */
  predicate DayDigits(a: char, b: char)
  {
    (a == '0' && '1' <= b <= '9') || ((a == '1' || a == '2') && IsDigit(b)) || (a == '3' && (b == '0' || b == '1'))
  }

  /** `0[1-9]|1[0-2]` */
  predicate MonthDigits(a: char, b: char)
  {
    (a == '0' && '1' <= b <= '9') || (a == '1' && '0' <= b <= '2')
  }

  /** The `meal_date` pattern: day, month and a four-digit year, separated by `/`. */
  predicate ValidDate(s: string)
  {
    |s| == 10 && DayDigits(s[0], s[1]) && s[2] == '/' && MonthDigits(s[3], s[4]) && s[5] == '/'
    && AllDigits(s[6..])
  }

  /** The value of a two-digit field. */
  function Pair(a: char, b: char): (n: nat)
    requires IsDigit(a) && IsDigit(b)
    ensures n < 100 && n == ValueOf([a, b])
  {
    assert [a, b][..1] == [a] && [a][..0] == [];
    assert ValueOf([a]) == DigitValue(a);
    assert ValueOf([a, b]) == 10 * ValueOf([a]) + DigitValue(b);
    10 * DigitValue(a) + DigitValue(b)
  }

  /** Two digits, a colon and two digits, read as a 24-hour clock time. */
  predicate ClockTime(s: string)
  {
    |s| == 5 && IsDigit(s[0]) && IsDigit(s[1]) && s[2] == ':' && IsDigit(s[3]) && IsDigit(s[4])
    && Pair(s[0], s[1]) <= 23 && Pair(s[3], s[4]) <= 59
  }

  /** Text of the shape DD/MM/YYYY whose day reads as 1..31 and whose month
      reads as 1..12; no calendar check relates the two. */
  predicate DayMonthYear(s: string)
  {
    |s| == 10 && IsDigit(s[0]) && IsDigit(s[1]) && s[2] == '/' && IsDigit(s[3]) && IsDigit(s[4])
    && s[5] == '/' && AllDigits(s[6..])
    && 1 <= Pair(s[0], s[1]) <= 31 && 1 <= Pair(s[3], s[4]) <= 12
  }

  lemma HourDigitsIff(a: char, b: char)
    ensures HourDigits(a, b) <==> IsDigit(a) && IsDigit(b) && Pair(a, b) <= 23
  {
  }

  lemma MinuteDigitsIff(a: char, b: char)
    ensures MinuteDigits(a, b) <==> IsDigit(a) && IsDigit(b) && Pair(a, b) <= 59
  {
  }

  lemma DayDigitsIff(a: char, b: char)
    ensures DayDigits(a, b) <==> IsDigit(a) && IsDigit(b) && 1 <= Pair(a, b) <= 31
  {
  }

  lemma MonthDigitsIff(a: char, b: char)
    ensures MonthDigits(a, b) <==> IsDigit(a) && IsDigit(b) && 1 <= Pair(a, b) <= 12
  {
  }

  /** The hour pattern accepts exactly the clock times 00:00 to 23:59. */
  lemma ValidHourIff(s: string)
    ensures ValidHour(s) <==> ClockTime(s)
  {
    if |s| == 5 {
      HourDigitsIff(s[0], s[1]);
      MinuteDigitsIff(s[3], s[4]);
    }
  }

  /** The date pattern accepts exactly DD/MM/YYYY with day 01..31 and month
      01..12, whatever the month's length. */
  lemma ValidDateIff(s: string)
    ensures ValidDate(s) <==> DayMonthYear(s)
  {
    if |s| == 10 {
      DayDigitsIff(s[0], s[1]);
      MonthDigitsIff(s[3], s[4]);
    }
  }

  /** Times with an hour past 23 or a one-digit hour are refused. */
  lemma HourExamples()
    ensures !ValidHour("25:00") && !ValidHour("24:00") && !ValidHour("9:30") && !ValidHour("12:60")
    ensures ValidHour("00:00") && ValidHour("12:30") && ValidHour("23:59")
  {
  }

  /** The day and month ranges are independent: 31 February passes. */
  lemma DateExamples()
    ensures ValidDate("31/02/2025") && ValidDate("01/01/2024") && ValidDate("31/12/2025")
    ensures !ValidDate("32/01/2025") && !ValidDate("00/01/2025") && !ValidDate("01/13/2025")
    ensures !ValidDate("1/1/2025") && !ValidDate("01/01/25") && !ValidDate("2025-01-01")
  {
    assert AllDigits("31/02/2025"[6..]) by { assert "31/02/2025"[6..] == "2025"; }
    assert AllDigits("01/01/2024"[6..]) by { assert "01/01/2024"[6..] == "2024"; }
    assert AllDigits("31/12/2025"[6..]) by { assert "31/12/2025"[6..] == "2025"; }
  }
}
