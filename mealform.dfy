/** The helpers the new-meal form and the edit form share: reading the
    date input (`YYYY-MM-DD`) and the time input (`HH:MM`) through
    `split(...).map(Number)`, rendering the date as `DD/MM/YYYY` for the
    backend, the guard against a date-time later than now, and the message
    a failed submit shows. */
module MealForm {
  import opened Values
  import opened JsText
  import opened Formats

  /** `xs.map(Number)`. */
  function Numbers(parts: seq<string>): (r: seq<JsNumber>)
    ensures |r| == |parts|
    ensures forall i :: 0 <= i < |parts| ==> r[i] == ToNumber(parts[i])
  {
    if parts == [] then [] else [ToNumber(parts[0])] + Numbers(parts[1..])
  }

  /** `const [year, month, day] = mealDate.split("-").map(Number)`. */
  datatype DateParts = DateParts(year: Slot, month: Slot, day: Slot)

  /** `const [hours, minutes] = mealHour.split(":").map(Number)`. */
  datatype TimeParts = TimeParts(hours: Slot, minutes: Slot)

  function ReadDate(mealDate: string): DateParts
  {
    var xs := Numbers(Split(mealDate, '-'));
    DateParts(SlotAt(xs, 0), SlotAt(xs, 1), SlotAt(xs, 2))
  }

  function ReadTime(mealHour: string): TimeParts
  {
    var xs := Numbers(Split(mealHour, ':'));
    TimeParts(SlotAt(xs, 0), SlotAt(xs, 1))
  }

  /** The template `${String(day).padStart(2, "0")}/${String(month).padStart(2, "0")}/${year}`:
      a template string is never empty, whatever the parts. */
  function FormatDate(p: DateParts): (r: string)
    ensures |r| >= 6
  {
    PadStart(SlotText(p.day), 2, '0') + "/" + PadStart(SlotText(p.month), 2, '0') + "/" + SlotText(p.year)
  }

  /** `formattedDate` as computed from the date input's value. */
  function FormattedDate(mealDate: string): string
  {
    FormatDate(ReadDate(mealDate))
  }

  /** The value a browser date input holds once a date with a four-digit
      year is picked. */
  predicate DateInput(s: string)
  {
    |s| == 10 && AllDigits(s[..4]) && s[4] == '-' && AllDigits(s[5..7]) && s[7] == '-' && AllDigits(s[8..])
  }

  /** The value a browser time input holds once a time is picked. */
  predicate TimeInput(s: string)
  {
    |s| == 5 && AllDigits(s[..2]) && s[2] == ':' && AllDigits(s[3..])
  }

  /** The moment the form compares: the five components passed to
      `new Date(year, month - 1, day, hours, minutes)`, each as an integer;
      `now` is given in the same terms (its seconds do not matter, because
      the selected moment has none). */
  datatype Instant = Instant(year: int, month: int, day: int, hours: int, minutes: int)

  /** A slot that holds a number. */
  function Known(x: Slot): (r: Option<int>)
    ensures r.Some? <==> x.Defined? && x.n.Num?
    ensures r.Some? ==> r.value == x.n.v
  {
    if x.Defined? && x.n.Num? then Some(x.n.v) else None
  }

  /** The selected moment, or None for an Invalid Date: an `undefined` or
      NaN component makes the whole date invalid. */
  function Selected(d: DateParts, t: TimeParts): (r: Option<Instant>)
    ensures r.Some? <==> Known(d.year).Some? && Known(d.month).Some? && Known(d.day).Some?
                         && Known(t.hours).Some? && Known(t.minutes).Some?
    ensures r.Some? ==> r.value == Instant(d.year.n.v, d.month.n.v, d.day.n.v, t.hours.n.v, t.minutes.n.v)
  {
    match (Known(d.year), Known(d.month), Known(d.day), Known(t.hours), Known(t.minutes))
    case (Some(y), Some(mo), Some(dd), Some(h), Some(mi)) => Some(Instant(y, mo, dd, h, mi))
    case _ => None
  }

  /** `a > b` on two valid dates built from in-range components. */
  predicate Later(a: Instant, b: Instant)
  {
    if a.year != b.year then a.year > b.year
    else if a.month != b.month then a.month > b.month
    else if a.day != b.day then a.day > b.day
    else if a.hours != b.hours then a.hours > b.hours
    else a.minutes > b.minutes
  }

  /** `selectedDateTime > now`: an Invalid Date compares false. */
  predicate IsFuture(mealDate: string, mealHour: string, now: Instant)
  {
    match Selected(ReadDate(mealDate), ReadTime(mealHour))
    case None => false
    case Some(t) => Later(t, now)
  }

  const FUTURE_MESSAGE := "Não é possível registrar refeições para datas ou horários futuros."
  const DEFAULT_ERROR := "Erro no registro. Tente novamente."
  const CONNECTION_MESSAGE := "Não foi possível conectar ao servidor. Verifique sua conexão."

  /** How the request ends, as the form sees it: an ok response, a failed
      one whose JSON body may carry a `message`, a failed one whose body is
      not JSON (so `response.json()` throws), or a network failure. */
  datatype Outcome = Succeeded | Failed(message: Option<string>) | FailedNotJson | Unreachable

  /** The error message a submit leaves when it does not succeed:
      `errorData.message || "Erro no registro..."`, or the connection message
      when the catch runs. */
  function FailureMessage(o: Outcome): (r: string)
    requires !o.Succeeded?
    ensures o.Failed? && o.message.Some? && o.message.value != "" ==> r == o.message.value
    ensures o.Failed? && (o.message.None? || o.message.value == "") ==> r == DEFAULT_ERROR
    ensures !o.Failed? ==> r == CONNECTION_MESSAGE
  {
    match o
    case Failed(m) => if m.Some? && m.value != "" then m.value else DEFAULT_ERROR
    case _ => CONNECTION_MESSAGE
  }

  /** `Decimal` of a value below 100 padded to width 2 is two digits that
      read back as the value. */
  lemma PaddedPair(n: nat)
    requires n < 100
    ensures var t := PadStart(Decimal(n), 2, '0');
      |t| == 2 && IsDigit(t[0]) && IsDigit(t[1]) && Pair(t[0], t[1]) == n
  {
    var r := Decimal(n);
    var t := PadStart(r, 2, '0');
    if n < 10 {
      assert PadStart(['0'] + r, 2, '0') == ['0'] + r;
      assert t == ['0'] + r;
      assert ValueOf(r) == DigitValue(r[0]) by { assert r[..0] == []; }
      assert Pair(t[0], t[1]) == DigitValue(r[0]);
    } else {
      assert |Decimal(n / 10)| == 1;
      assert t == r;
    }
  }

  /** A year of 1000..9999 renders as four digits. */
  lemma FourDigitYear(y: nat)
    requires 1000 <= y <= 9999
    ensures |Decimal(y)| == 4
  {
    assert |Decimal(y / 1000)| == 1;
    assert |Decimal(y / 100)| == 2;
    assert |Decimal(y / 10)| == 3;
  }

  /** Two two-digit fields and four year digits joined by `/`. */
  lemma JoinedDate(dd: string, mm: string, yy: string)
    requires |dd| == 2 && DayDigits(dd[0], dd[1]) && |mm| == 2 && MonthDigits(mm[0], mm[1])
    requires |yy| == 4 && AllDigits(yy)
    ensures ValidDate(dd + "/" + mm + "/" + yy)
  {
    var s := dd + "/" + mm + "/" + yy;
    assert s[0] == dd[0] && s[1] == dd[1] && s[2] == '/' && s[3] == mm[0] && s[4] == mm[1] && s[5] == '/';
    assert s[6..] == yy;
  }

  /** Day 1..31, month 1..12 and a year of 1000..9999 render as text the
      backend's date pattern accepts. */
  lemma FormatIsValidDate(y: int, m: int, d: int)
    requires 1 <= d <= 31 && 1 <= m <= 12 && 1000 <= y <= 9999
    ensures ValidDate(FormatDate(DateParts(Defined(Num(y)), Defined(Num(m)), Defined(Num(d)))))
  {
    var dd, mm, yy := PadStart(Decimal(d), 2, '0'), PadStart(Decimal(m), 2, '0'), Decimal(y);
    assert SlotText(Defined(Num(d))) == Decimal(d);
    assert SlotText(Defined(Num(m))) == Decimal(m);
    assert SlotText(Defined(Num(y))) == Decimal(y);
    PaddedPair(d);
    PaddedPair(m);
    FourDigitYear(y);
    DayDigitsIff(dd[0], dd[1]);
    MonthDigitsIff(mm[0], mm[1]);
    JoinedDate(dd, mm, yy);
  }

  /** The date input of a four-digit year is split into its three numerals. */
  lemma ReadDateInput(s: string)
    requires DateInput(s)
    ensures ReadDate(s) == DateParts(Defined(Num(ValueOf(s[..4]))), Defined(Num(ValueOf(s[5..7]))),
                                     Defined(Num(ValueOf(s[8..]))))
  {
    assert s == s[..4] + ['-'] + (s[5..7] + ['-'] + s[8..]);
    SplitAt(s[..4], '-', s[5..7] + ['-'] + s[8..]);
    SplitAt(s[5..7], '-', s[8..]);
    SplitWithout(s[8..], '-');
    assert Split(s, '-') == [s[..4], s[5..7], s[8..]];
  }

  /** The time input is split into its two numerals. */
  lemma ReadTimeInput(s: string)
    requires TimeInput(s)
    ensures ReadTime(s) == TimeParts(Defined(Num(ValueOf(s[..2]))), Defined(Num(ValueOf(s[3..]))))
  {
    assert s == s[..2] + [':'] + s[3..];
    SplitAt(s[..2], ':', s[3..]);
    SplitWithout(s[3..], ':');
  }

  /** Two digits, rendered and padded, come back as the same two digits. */
  lemma PadTwoDigits(t: string)
    requires |t| == 2 && AllDigits(t)
    ensures PadStart(Decimal(ValueOf(t)), 2, '0') == t
  {
    if t[0] == '0' {
      var u := t[1..];
      assert t[..1] == ['0'] && ['0'][..0] == [];
      assert u[..0] == [];
      assert ValueOf(t) == ValueOf(u);
      DecimalOfValue(u);
      assert t == ['0'] + u;
    } else {
      DecimalOfValue(t);
    }
  }

  /** A picked date whose year has no leading zero is reordered exactly:
      the day numeral, the month numeral and the year numeral, joined by `/`. */
  lemma ReorderDate(s: string)
    requires DateInput(s) && s[0] != '0'
    ensures FormattedDate(s) == s[8..] + "/" + s[5..7] + "/" + s[..4]
  {
    ReadDateInput(s);
    var p := ReadDate(s);
    var day, month, year := s[8..], s[5..7], s[..4];
    assert SlotText(p.day) == Decimal(ValueOf(day));
    assert SlotText(p.month) == Decimal(ValueOf(month));
    assert SlotText(p.year) == Decimal(ValueOf(year));
    PadTwoDigits(day);
    PadTwoDigits(month);
    DecimalOfValue(year);
    assert FormatDate(p) == PadStart(SlotText(p.day), 2, '0') + "/" + PadStart(SlotText(p.month), 2, '0') + "/" + SlotText(p.year);
  }

  /** A two-digit numeral's value is the value of its pair of digits. */
  lemma TwoDigitValue(t: string)
    requires |t| == 2 && AllDigits(t)
    ensures Pair(t[0], t[1]) == ValueOf(t)
  {
    assert t == [t[0], t[1]];
  }

  /** A picked date with a four-digit year, a day of 1..31 and a month of
      1..12 is sent as text the backend's date pattern accepts. */
  lemma PickedDateIsValid(s: string)
    requires DateInput(s) && s[0] != '0'
    requires 1 <= ValueOf(s[8..]) <= 31 && 1 <= ValueOf(s[5..7]) <= 12
    ensures FormattedDate(s) == s[8..] + "/" + s[5..7] + "/" + s[..4]
    ensures ValidDate(FormattedDate(s))
  {
    ReorderDate(s);
    var dd, mm, yy := s[8..], s[5..7], s[..4];
    TwoDigitValue(dd);
    TwoDigitValue(mm);
    DayDigitsIff(dd[0], dd[1]);
    MonthDigitsIff(mm[0], mm[1]);
    JoinedDate(dd, mm, yy);
  }

  /** The year is not padded: a picked year with a leading zero (0001 to
      0999) loses it, and the text no longer fits the backend's date pattern. */
  lemma YearNotPadded(s: string)
    requires DateInput(s) && s[0] == '0'
    ensures FormattedDate(s) == s[8..] + "/" + s[5..7] + "/" + Decimal(ValueOf(s[..4]))
    ensures |FormattedDate(s)| < 10 && !ValidDate(FormattedDate(s))
  {
    ReadDateInput(s);
    var p := ReadDate(s);
    var day, month, year := s[8..], s[5..7], s[..4];
    assert SlotText(p.day) == Decimal(ValueOf(day));
    assert SlotText(p.month) == Decimal(ValueOf(month));
    assert SlotText(p.year) == Decimal(ValueOf(year));
    PadTwoDigits(day);
    PadTwoDigits(month);
    ShortYear(year);
    assert FormatDate(p) == PadStart(SlotText(p.day), 2, '0') + "/" + PadStart(SlotText(p.month), 2, '0') + "/" + SlotText(p.year);
  }

  /** Four digits led by a zero render in at most three. */
  lemma ShortYear(t: string)
    requires |t| == 4 && AllDigits(t) && t[0] == '0'
    ensures |Decimal(ValueOf(t))| < 4
  {
    var n := ValueOf(t);
    assert n < 1000 by {
      var a, b, c := t[..1], t[..2], t[..3];
      assert a[..0] == [] && b[..1] == a && c[..2] == b && t[..3] == c;
      assert ValueOf(a) == 0;
      assert ValueOf(b) < 10;
      assert ValueOf(c) < 100;
    }
    if n >= 10 {
      assert |Decimal(n / 10)| <= 2 by {
        if n / 10 >= 10 {
          assert |Decimal(n / 100)| == 1;
        }
      }
    }
  }

  /** An untouched date input (the empty string) splits into one piece that
      `Number` reads as 0, so the month and day are `undefined`. */
  lemma UntouchedDate()
    ensures ReadDate("") == DateParts(Defined(Num(0)), Undefined, Undefined)
    ensures FormattedDate("") == "undefined/undefined/0"
  {
    assert Split("", '-') == [""];
    assert Decimal(0) == "0";
  }

  /** A picked date and time give a valid moment with their numeric values,
      so the guard compares them with now component by component. */
  lemma PickedMoment(date: string, hour: string, now: Instant)
    requires DateInput(date) && TimeInput(hour)
    ensures Selected(ReadDate(date), ReadTime(hour))
      == Some(Instant(ValueOf(date[..4]), ValueOf(date[5..7]), ValueOf(date[8..]), ValueOf(hour[..2]), ValueOf(hour[3..])))
    ensures IsFuture(date, hour, now) <==>
      Later(Instant(ValueOf(date[..4]), ValueOf(date[5..7]), ValueOf(date[8..]), ValueOf(hour[..2]), ValueOf(hour[3..])), now)
  {
    ReadDateInput(date);
    ReadTimeInput(hour);
  }

  /** An untouched date input is an Invalid Date, which is never in the future. */
  lemma UntouchedDateNotFuture(hour: string, now: Instant)
    ensures !IsFuture("", hour, now)
  {
    UntouchedDate();
  }

  /** Whatever the inputs hold, the year and the hours are bound (`split`
      gives at least one piece); the month, day and minutes are bound
      exactly when the input has that many pieces. */
  lemma LeadingPartsBound(date: string, hour: string)
    ensures ReadDate(date).year.Defined? && ReadTime(hour).hours.Defined?
    ensures ReadDate(date).month.Defined? <==> |Split(date, '-')| >= 2
    ensures ReadDate(date).day.Defined? <==> |Split(date, '-')| >= 3
    ensures ReadTime(hour).minutes.Defined? <==> |Split(hour, ':')| >= 2
  {
  }

  /** An untouched date input or an untouched time input makes the selected
      moment an Invalid Date, whatever the other input holds. */
  lemma UntouchedInputsInvalid(d: DateParts, t: TimeParts)
    ensures Selected(ReadDate(""), t).None?
    ensures Selected(d, ReadTime("")).None?
  {
    UntouchedDate();
    assert Split("", ':') == [""];
  }

  /** An untouched time input is never in the future either. */
  lemma UntouchedHourNotFuture(date: string, now: Instant)
    ensures !IsFuture(date, "", now)
  {
    UntouchedInputsInvalid(ReadDate(date), ReadTime(""));
  }

  /** A submit that does not succeed always leaves a message to show: the
      backend's own non-empty message, or one of the two fixed ones. */
  lemma FailureAlwaysShown(o: Outcome)
    requires !o.Succeeded?
    ensures FailureMessage(o) != ""
    ensures FailureMessage(o) == DEFAULT_ERROR || FailureMessage(o) == CONNECTION_MESSAGE
      || (o.Failed? && o.message == Some(FailureMessage(o)))
  {
  }

  /** `Later` is a strict total order, so the guard refuses exactly the
      moments after now: the present minute and any earlier one pass. */
  lemma LaterIsStrictTotal(a: Instant, b: Instant, c: Instant)
    ensures !Later(a, a)
    ensures Later(a, b) ==> !Later(b, a)
    ensures Later(a, b) && Later(b, c) ==> Later(a, c)
    ensures a != b ==> Later(a, b) || Later(b, a)
  {
  }
}
