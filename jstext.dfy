/** The few pieces of JavaScript string and number semantics the frontend's
    date handling and the backend's length rule rely on: `split` with a
    one-character separator, `Number` of a digit string, `String` of a
    number or of `undefined`, `padStart`, and a string's `length`, which
    counts UTF-16 code units. */
module JsText {

  predicate IsDigit(c: char) { '0' <= c <= '9' }

  function DigitValue(c: char): (d: nat)
    requires IsDigit(c)
    ensures d < 10
  {
    c as int - '0' as int
  }

  function DigitChar(d: nat): (c: char)
    requires d < 10
    ensures IsDigit(c) && DigitValue(c) == d
  {
    ('0' as int + d) as char
  }

  predicate AllDigits(s: string) { forall i :: 0 <= i < |s| ==> IsDigit(s[i]) }

  /** The value of a decimal numeral, most significant digit first; the
      empty numeral is 0. */
  function ValueOf(s: string): nat
    requires AllDigits(s)
  {
    if s == [] then 0 else 10 * ValueOf(s[..|s| - 1]) + DigitValue(s[|s| - 1])
  }

  /** The shortest decimal numeral of `n`: how `String(n)` renders a
      non-negative integer. */
  function Decimal(n: nat): (r: string)
    ensures |r| > 0 && AllDigits(r)
    ensures ValueOf(r) == n
    ensures |r| > 1 ==> r[0] != '0'
    ensures n < 10 <==> |r| == 1
  {
    if n < 10 then
      var r := [DigitChar(n)];
      assert r[..0] == [];
      r
    else
      var high := Decimal(n / 10);
      var r := high + [DigitChar(n % 10)];
      assert r[..|r| - 1] == high;
      assert |high| == 1 ==> high[..0] == [];
      r
  }

  /** A numeral without a leading zero is positive. */
  lemma {:induction false} ValuePositive(s: string)
    requires |s| > 0 && AllDigits(s) && s[0] != '0'
    ensures ValueOf(s) > 0
  {
    if |s| > 1 {
      var p := s[..|s| - 1];
      assert p[0] == s[0];
      ValuePositive(p);
    } else {
      assert s[..0] == [];
    }
  }

  /** `Decimal` inverts `ValueOf` on numerals without a leading zero. */
  lemma {:induction false} DecimalOfValue(s: string)
    requires |s| > 0 && AllDigits(s)
    requires |s| > 1 ==> s[0] != '0'
    ensures Decimal(ValueOf(s)) == s
  {
    var p := s[..|s| - 1];
    if |s| == 1 {
      assert p == [];
      assert ValueOf(s) == DigitValue(s[0]);
      assert Decimal(ValueOf(s)) == [s[0]];
    } else {
      assert p[0] == s[0];
      ValuePositive(p);
      DecimalOfValue(p);
      var n := ValueOf(s);
      assert n == 10 * ValueOf(p) + DigitValue(s[|s| - 1]);
      assert n / 10 == ValueOf(p) && n % 10 == DigitValue(s[|s| - 1]);
      assert DigitChar(n % 10) == s[|s| - 1];
      assert Decimal(n) == Decimal(ValueOf(p)) + [s[|s| - 1]];
      assert s == p + [s[|s| - 1]];
    }
  }

  /** `s.split(sep)` for a one-character separator: the pieces between the
      separators, in order; the empty string splits into one empty piece. */
  function Split(s: string, sep: char): (r: seq<string>)
    ensures |r| > 0
  {
    if s == [] then [[]]
    else
      var rest := Split(s[1..], sep);
      if s[0] == sep then [[]] + rest else [[s[0]] + rest[0]] + rest[1..]
  }

  /** `parts.join(sep)`. */
  function Join(parts: seq<string>, sep: char): string
    requires |parts| > 0
  {
    if |parts| == 1 then parts[0] else parts[0] + [sep] + Join(parts[1..], sep)
  }

  /** Joining the pieces of a split with the same separator gives the
      original string back. */
  lemma {:induction false} SplitJoin(s: string, sep: char)
    ensures Join(Split(s, sep), sep) == s
  {
    if s != [] {
      var rest := Split(s[1..], sep);
      SplitJoin(s[1..], sep);
      if s[0] == sep {
        assert ([[]] + rest)[1..] == rest;
      } else if |rest| > 1 {
        var r := [[s[0]] + rest[0]] + rest[1..];
        assert r[1..] == rest[1..];
        assert Join(rest, sep) == rest[0] + [sep] + Join(rest[1..], sep);
        assert Join(r, sep) == [s[0]] + Join(rest, sep);
      }
    }
  }

  /** No piece of a split contains the separator. */
  lemma {:induction false} SplitPieces(s: string, sep: char)
    ensures forall i :: 0 <= i < |Split(s, sep)| ==> sep !in Split(s, sep)[i]
  {
    if s != [] {
      SplitPieces(s[1..], sep);
    }
  }

  /** A string without the separator splits into itself. */
  lemma {:induction false} SplitWithout(a: string, sep: char)
    requires sep !in a
    ensures Split(a, sep) == [a]
  {
    if a != [] {
      SplitWithout(a[1..], sep);
      assert [a[0]] + a[1..] == a;
    }
  }

  /** A separator after a separator-free prefix cuts off exactly that prefix. */
  lemma {:induction false} SplitAt(a: string, sep: char, b: string)
    requires sep !in a
    ensures Split(a + [sep] + b, sep) == [a] + Split(b, sep)
  {
    var s := a + [sep] + b;
    if a == [] {
      assert s[1..] == b;
    } else {
      assert s[0] == a[0];
      assert s[1..] == a[1..] + [sep] + b;
      SplitAt(a[1..], sep, b);
      assert [a[0]] + a[1..] == a;
    }
  }

  /** A JavaScript number, as far as this model needs one. */
  datatype JsNumber = Num(v: int) | NaN

  /** `Number(s)` on the pieces a date or time input can produce: a digit
      string (the empty string included) is its decimal value, anything
      else is NaN. */
  function ToNumber(s: string): (r: JsNumber)
    ensures AllDigits(s) ==> r == Num(ValueOf(s))
    ensures !AllDigits(s) ==> r == NaN
  {
    if AllDigits(s) then Num(ValueOf(s)) else NaN
  }

  /** `Number` reads back what `String` wrote for a non-negative integer,
      and `String(Number(...))` of it is the same text; `Number("")` is 0. */
  lemma NumberOfDecimal(n: nat)
    ensures ToNumber(Decimal(n)) == Num(n)
    ensures SlotText(Defined(ToNumber(Decimal(n)))) == Decimal(n)
    ensures ToNumber("") == Num(0)
  {
  }

  /** An array element read by destructuring: present or `undefined`. */
  datatype Slot = Undefined | Defined(n: JsNumber)

  /** What `[a, b, c] = xs` binds to position `i`. */
  function SlotAt(xs: seq<JsNumber>, i: nat): (r: Slot)
    ensures r.Defined? <==> i < |xs|
    ensures i < |xs| ==> r.n == xs[i]
  {
    if i < |xs| then Defined(xs[i]) else Undefined
  }

  /** `String(x)` for a slot. */
  function SlotText(x: Slot): (r: string)
    ensures |r| > 0
  {
    match x
    case Undefined => "undefined"
    case Defined(NaN) => "NaN"
    case Defined(Num(v)) => if v >= 0 then Decimal(v) else "-" + Decimal(-v)
  }

  /** `s.padStart(width, fill)` for a one-character fill. */
  function PadStart(s: string, width: nat, fill: char): (r: string)
    ensures |r| == if |s| >= width then |s| else width
    decreases width - |s|
  {
    if |s| >= width then s else PadStart([fill] + s, width, fill)
  }

  /** The padded text ends with the original one and is filled before it. */
  lemma {:induction false} PadStartShape(s: string, width: nat, fill: char)
    ensures var r := PadStart(s, width, fill);
      r[|r| - |s|..] == s && forall i :: 0 <= i < |r| - |s| ==> r[i] == fill
    decreases width - |s|
  {
    if |s| < width {
      PadStartShape([fill] + s, width, fill);
      var r := PadStart(s, width, fill);
      assert r == PadStart([fill] + s, width, fill);
      assert r[|r| - |s| - 1..] == [fill] + s;
      assert r[|r| - |s|..] == ([fill] + s)[1..];
    }
  }

  /** `s.length`: the number of UTF-16 code units, two for every character
      outside the Basic Multilingual Plane. */
  function Utf16Length(s: string): (n: nat)
    ensures |s| <= n <= 2 * |s|
    ensures (forall i :: 0 <= i < |s| ==> s[i] as int <= 0xFFFF) ==> n == |s|
  {
    if s == [] then 0
    else (if s[0] as int > 0xFFFF then 2 else 1) + Utf16Length(s[1..])
  }
}
