/** Text forms of dates and times: what the routes print (`date.isoformat()`,
    `time.strftime("%H:%M")`) and what they accept (`strptime` with
    `"%Y-%m-%d"` and `"%H:%M"`). Python's `strptime` is lenient: month, day,
    hour and minute may have one digit, and the day may be a space followed by
    a digit; the year has exactly four digits. */
module Formats {
  import opened Common
  import opened Models

  predicate IsDigit(c: char)
  {
    '0' <= c <= '9'
  }

  predicate AllDigits(s: string)
  {
    forall i :: 0 <= i < |s| ==> IsDigit(s[i])
  }

  function DigitChar(n: nat): char
    requires n < 10
  {
    ('0' as int + n) as char
  }

  function DigitValue(c: char): nat
    requires IsDigit(c)
  {
    c as int - '0' as int
  }

  function Pow10(n: nat): nat
  {
    if n == 0 then 1 else 10 * Pow10(n - 1)
  }

  /** The number a run of decimal digits denotes, most significant first. */
  function Value(s: string): (v: nat)
    requires AllDigits(s)
    ensures v < Pow10(|s|)
    decreases |s|
  {
    if s == [] then 0 else Value(s[..|s| - 1]) * 10 + DigitValue(s[|s| - 1])
  }

  /** `%02d` */
  function Pad2(n: nat): string
    requires n < 100
  {
    [DigitChar(n / 10), DigitChar(n % 10)]
  }

  /** `%04d` */
  function Pad4(n: nat): string
    requires n < 10000
  {
    Pad2(n / 100) + Pad2(n % 100)
  }

  /** `date.isoformat()`: YYYY-MM-DD, always ten characters, digits apart
      from the two dashes, so never a space-padded day. */
  function FormatDate(d: CalendarDate): (s: string)
    ensures |s| == 10 && s[4] == '-' && s[7] == '-'
    ensures forall i :: 0 <= i < |s| && i != 4 && i != 7 ==> IsDigit(s[i])
    ensures ' ' !in s
  {
    var s := Pad4(d.year) + "-" + Pad2(d.month) + "-" + Pad2(d.day);
    assert forall i :: 0 <= i < |s| ==> IsDigit(s[i]) || s[i] == '-';
    s
  }

  /** `time.strftime("%H:%M")`: always five characters, digits apart from
      the colon. */
  function FormatTime(t: Clock): (s: string)
    ensures |s| == 5 && s[2] == ':'
    ensures forall i :: 0 <= i < |s| && i != 2 ==> IsDigit(s[i])
  {
    Pad2(t / 60) + ":" + Pad2(t % 60)
  }

  /** Cuts `s` at the first `sep`: the text before it and the text after it. */
  function Split(s: string, sep: char): (r: Option<(string, string)>)
    ensures r.None? <==> sep !in s
    ensures r.Some? ==> s == r.value.0 + [sep] + r.value.1 && sep !in r.value.0
    decreases |s|
  {
    if s == [] then None
    else if s[0] == sep then Some(([], s[1..]))
    else
      match Split(s[1..], sep)
      case None => None
      case Some(p) => Some(([s[0]] + p.0, p.1))
  }

  /** `%Y`: exactly four digits; `datetime` rejects year 0. */
  function ParseYear(f: string): Option<int>
  {
    if |f| == 4 && AllDigits(f) && Value(f) >= 1 then Some(Value(f)) else None
  }

  /** `%m`: `1[0-2]|0[1-9]|[1-9]`. */
  function ParseMonth(f: string): Option<int>
  {
    if 1 <= |f| <= 2 && AllDigits(f) && 1 <= Value(f) <= 12 then Some(Value(f)) else None
  }

  /** `%d`: `3[01]|[12]\d|0[1-9]|[1-9]| [1-9]`. */
  function ParseDay(f: string): Option<int>
  {
    if 1 <= |f| <= 2 && AllDigits(f) && 1 <= Value(f) <= 31 then Some(Value(f))
    else if |f| == 2 && f[0] == ' ' && '1' <= f[1] <= '9' then Some(DigitValue(f[1]))
    else None
  }

  /** `%H`: `2[0-3]|[0-1]\d|\d`. */
  function ParseHour(f: string): Option<int>
  {
    if 1 <= |f| <= 2 && AllDigits(f) && Value(f) <= 23 then Some(Value(f)) else None
  }

  /** `%M`: `[0-5]\d|\d`. */
  function ParseMinute(f: string): Option<int>
  {
    if 1 <= |f| <= 2 && AllDigits(f) && Value(f) <= 59 then Some(Value(f)) else None
  }

  /** `datetime.strptime(s, "%Y-%m-%d").date()`; None where Python raises. */
  function ParseDate(s: string): (r: Option<CalendarDate>)
    ensures r.Some? ==> 8 <= |s| <= 10 && s[4] == '-' && AllDigits(s[..4])
    ensures r.Some? ==> r.value.year == Value(s[..4])
  {
    match Split(s, '-')
    case None => None
    case Some(p) =>
      match Split(p.1, '-')
      case None => None
      case Some(q) =>
        var y := ParseYear(p.0);
        var m := ParseMonth(q.0);
        var d := ParseDay(q.1);
        if y.Some? && m.Some? && d.Some? && d.value <= DaysInMonth(y.value, m.value)
        then
          assert s[..4] == p.0;
          Some(Date(y.value, m.value, d.value))
        else None
  }

  /** `datetime.strptime(s, "%H:%M").time()`; None where Python raises. */
  function ParseTime(s: string): (r: Option<Clock>)
    ensures r.Some? ==> 3 <= |s| <= 5 && ':' in s && ' ' !in s
  {
    match Split(s, ':')
    case None => None
    case Some(p) =>
      var h := ParseHour(p.0);
      var m := ParseMinute(p.1);
      if h.Some? && m.Some? then Some(h.value * 60 + m.value) else None
  }

  // ---------------------------------------------------------------------
  // Round trips between the printed and the parsed forms
  // ---------------------------------------------------------------------

  lemma {:induction false} SplitAtFirst(a: string, sep: char, b: string)
    requires sep !in a
    ensures Split(a + [sep] + b, sep) == Some((a, b))
    decreases |a|
  {
    var s := a + [sep] + b;
    if a != [] {
      assert s[0] == a[0] != sep;
      assert s[1..] == a[1..] + [sep] + b;
      SplitAtFirst(a[1..], sep, b);
      assert [a[0]] + a[1..] == a;
    }
  }

  lemma Horner(v: int, p: int, w: int, d: int)
    ensures (v * p + w) * 10 + d == v * (10 * p) + (w * 10 + d)
  {
  }

  /** Reading digits is positional: the digits of `y` follow those of `x`. */
  lemma {:induction false} ValueConcat(x: string, y: string)
    requires AllDigits(x) && AllDigits(y)
    ensures AllDigits(x + y)
    ensures Value(x + y) == Value(x) * Pow10(|y|) + Value(y)
    decreases |y|
  {
    var s := x + y;
    if y == [] {
      assert s == x;
    } else {
      var y' := y[..|y| - 1];
      var d := DigitValue(y[|y| - 1]);
      assert s[..|s| - 1] == x + y';
      assert s[|s| - 1] == y[|y| - 1];
      ValueConcat(x, y');
      assert Value(s) == Value(x + y') * 10 + d;
      assert Value(y) == Value(y') * 10 + d;
      Horner(Value(x), Pow10(|y'|), Value(y'), d);
    }
  }

  lemma Pad2Digits(n: nat)
    requires n < 100
    ensures AllDigits(Pad2(n)) && Value(Pad2(n)) == n
  {
    var s := Pad2(n);
    assert s[..1] == [s[0]];
    assert Value(s[..1]) == DigitValue(s[0]);
  }

  lemma Pad4Digits(n: nat)
    requires n < 10000
    ensures AllDigits(Pad4(n)) && Value(Pad4(n)) == n
  {
    Pad2Digits(n / 100);
    Pad2Digits(n % 100);
    ValueConcat(Pad2(n / 100), Pad2(n % 100));
  }

  /** A two-digit field is printed back as it was read. */
  lemma Pad2Value(f: string)
    requires |f| == 2 && AllDigits(f)
    ensures Pad2(Value(f)) == f
  {
    assert f[..1] == [f[0]];
    assert Value(f[..1]) == DigitValue(f[0]);
  }

  /** A four-digit field is printed back as it was read. */
  lemma Pad4Value(f: string)
    requires |f| == 4 && AllDigits(f)
    ensures Pad4(Value(f)) == f
  {
    var hi, lo := f[..2], f[2..];
    assert f == hi + lo;
    ValueConcat(hi, lo);
    assert Pow10(|lo|) == 100;
    var v, vh, vl := Value(f), Value(hi), Value(lo);
    assert v == vh * 100 + vl && vl < 100;
    assert v / 100 == vh && v % 100 == vl;
    Pad2Value(hi);
    Pad2Value(lo);
  }

  /** Printing a stored date and reading it back with the creation format
      gives the same date. */
  lemma FormatThenParseDate(d: CalendarDate)
    ensures ParseDate(FormatDate(d)) == Some(d)
  {
    var ys, ms, ds := Pad4(d.year), Pad2(d.month), Pad2(d.day);
    Pad4Digits(d.year);
    Pad2Digits(d.month);
    Pad2Digits(d.day);
    assert '-' !in ys by {
      forall i | 0 <= i < |ys| ensures ys[i] != '-' { assert IsDigit(ys[i]); }
    }
    assert '-' !in ms by {
      forall i | 0 <= i < |ms| ensures ms[i] != '-' { assert IsDigit(ms[i]); }
    }
    assert FormatDate(d) == ys + ['-'] + (ms + "-" + ds);
    SplitAtFirst(ys, '-', ms + "-" + ds);
    SplitAtFirst(ms, '-', ds);
  }

  /** Printing a stored time and reading it back with the creation format
      gives the same time. */
  lemma FormatThenParseTime(t: Clock)
    ensures ParseTime(FormatTime(t)) == Some(t)
  {
    var hs, ms := Pad2(t / 60), Pad2(t % 60);
    Pad2Digits(t / 60);
    Pad2Digits(t % 60);
    assert ':' !in hs by {
      forall i | 0 <= i < |hs| ensures hs[i] != ':' { assert IsDigit(hs[i]); }
    }
    assert FormatTime(t) == hs + [':'] + ms;
    SplitAtFirst(hs, ':', ms);
  }

  /** A time accepted in the canonical five-character form HH:MM is printed
      back exactly as it was given. */
  lemma ParseThenFormatTime(s: string)
    requires ParseTime(s).Some? && |s| == 5
    ensures FormatTime(ParseTime(s).value) == s
  {
    var p := Split(s, ':').value;
    var h, m := ParseHour(p.0).value, ParseMinute(p.1).value;
    assert |p.0| == 2 && |p.1| == 2;
    Pad2Value(p.0);
    Pad2Value(p.1);
    assert (h * 60 + m) / 60 == h && (h * 60 + m) % 60 == m;
  }

  /** A date accepted in the canonical ten-character form YYYY-MM-DD (no
      space-padded day) is printed back exactly as it was given. */
  lemma ParseThenFormatDate(s: string)
    requires ParseDate(s).Some? && |s| == 10 && ' ' !in s
    ensures FormatDate(ParseDate(s).value) == s
  {
    var p := Split(s, '-').value;
    var q := Split(p.1, '-').value;
    assert |p.0| == 4;
    assert |q.0| + |q.1| == 4;
    assert s == p.0 + ['-'] + (q.0 + ['-'] + q.1);
    assert |q.0| == 2 && |q.1| == 2;
    Pad4Value(p.0);
    Pad2Value(q.0);
    Pad2Value(q.1);
  }
}
