/**
 * The layout half of `formatTanggal`: calendar components already extracted
 * from a `Date` are turned into "DD-MM-YYYY HH:MM", day, month, hours and
 * minutes zero-padded to two digits with `padStart(2, "0")`. A parser for the
 * same layout serves as the inverse that the layout's correctness is stated
 * against.
 */
module DateFormat {
  import opened Wrappers

  predicate IsDigit(c: char) { '0' <= c <= '9' }

  predicate AllDigits(s: string)
  {
    forall i :: 0 <= i < |s| ==> IsDigit(s[i])
  }

  function Digit(d: nat): char
    requires d < 10
  {
    ('0' as int + d) as char
  }

  function DigitValue(c: char): nat
    requires IsDigit(c)
  {
    c as int - '0' as int
  }

  /** The number a string of decimal digits denotes. */
  function DigitsValue(s: string): nat
    requires AllDigits(s)
  {
    if |s| == 0 then 0 else DigitsValue(s[..|s| - 1]) * 10 + DigitValue(s[|s| - 1])
  }

  /** `n.toString()` for a non-negative integer: decimal digits, one digit
      exactly for n < 10, no leading zero. */
  function NatToString(n: nat): (r: string)
    ensures |r| >= 1 && AllDigits(r)
    ensures |r| == 1 <==> n < 10
    ensures n >= 10 ==> r[0] != '0'
  {
    if n < 10 then [Digit(n)] else NatToString(n / 10) + [Digit(n % 10)]
  }

  /** The digits read back give the number. */
  lemma {:induction false} NatToStringValue(n: nat)
    ensures DigitsValue(NatToString(n)) == n
  {
    if n >= 10 {
      NatToStringValue(n / 10);
      var r := NatToString(n);
      assert r[..|r| - 1] == NatToString(n / 10);
    }
  }

  /** `String(n)` for any integer, as `getFullYear` may give a negative
      year. */
  function IntToString(n: int): string
  {
    if n < 0 then "-" + NatToString(-n) else NatToString(n)
  }

  /** A decimal integer with an optional leading minus sign. */
  predicate IsIntString(s: string)
  {
    (|s| >= 1 && AllDigits(s)) || (|s| >= 2 && s[0] == '-' && AllDigits(s[1..]))
  }

  function IntValue(s: string): int
    requires IsIntString(s)
  {
    if s[0] == '-' then -(DigitsValue(s[1..]) as int) else DigitsValue(s)
  }

  /** Reading an integer back gives it. */
  lemma IntToStringValue(n: int)
    ensures IsIntString(IntToString(n)) && IntValue(IntToString(n)) == n
  {
    if n < 0 {
      NatToStringValue(-n);
      assert IntToString(n)[1..] == NatToString(-n);
    } else {
      NatToStringValue(n);
    }
  }

  /** `s.padStart(len, fill)` for a one-character fill: fill characters are
      put in front until the length is len; a longer s is left as it is. */
  function PadStart(s: string, len: nat, fill: char): (r: string)
    ensures |r| == if |s| >= len then |s| else len
    ensures r[|r| - |s|..] == s
    ensures forall i :: 0 <= i < |r| - |s| ==> r[i] == fill
  {
    if |s| >= len then s else seq(len - |s|, _ => fill) + s
  }

  /** `n.toString().padStart(2, "0")`. */
  function Pad2(n: nat): string
  {
    PadStart(NatToString(n), 2, '0')
  }

  lemma DigitRoundTrip(d: nat)
    requires d < 10
    ensures IsDigit(Digit(d)) && DigitValue(Digit(d)) == d
  {
  }

  /** Below 10 the padded form is "0" and the digit. */
  lemma Pad2Small(n: nat)
    requires n < 10
    ensures Pad2(n) == ['0', Digit(n)]
  {
    assert NatToString(n) == [Digit(n)];
    assert PadStart([Digit(n)], 2, '0') == ['0'] + [Digit(n)];
  }

  /** From 10 on nothing is padded. */
  lemma Pad2Large(n: nat)
    requires n >= 10
    ensures Pad2(n) == NatToString(n)
  {
  }

  /** Below 100 the padded form has two digits and reads back as n. */
  lemma Pad2Value(n: nat)
    requires n < 100
    ensures |Pad2(n)| == 2 && AllDigits(Pad2(n)) && DigitsValue(Pad2(n)) == n
  {
    if n < 10 {
      Pad2Small(n);
      DigitRoundTrip(n);
      var r := ['0', Digit(n)];
      assert r[..1] == ['0'] && ['0'][..0] == [];
      assert DigitsValue(['0']) == 0;
      assert DigitsValue(r) == DigitsValue(['0']) * 10 + DigitValue(Digit(n));
    } else {
      Pad2Large(n);
      NatToStringValue(n);
      assert |NatToString(n / 10)| == 1;
    }
  }

  /** `formatTanggal` from the components `getDate()`, `getMonth()` (0-based),
      `getFullYear()`, `getHours()` and `getMinutes()`. */
  function FormatTanggal(day: nat, month0: nat, year: int, hours: nat, minutes: nat): string
  {
    Pad2(day) + "-" + Pad2(month0 + 1) + "-" + IntToString(year) + " " + Pad2(hours) + ":" + Pad2(minutes)
  }

  /** The components as the layout shows them (month 1-based). */
  datatype DateParts = DateParts(day: nat, month: nat, year: int, hours: nat, minutes: nat)

  /** Reads "DD-MM-Y HH:MM", where Y is any decimal integer. */
  function ParseTanggal(s: string): Option<DateParts>
  {
    if |s| < 13 then None
    else
      var n := |s|;
      var dd, mm, yy, hh, mi := s[..2], s[3..5], s[6..n - 6], s[n - 5..n - 3], s[n - 2..];
      if s[2] == '-' && s[5] == '-' && s[n - 6] == ' ' && s[n - 3] == ':'
         && AllDigits(dd) && AllDigits(mm) && AllDigits(hh) && AllDigits(mi) && IsIntString(yy)
      then Some(DateParts(DigitsValue(dd), DigitsValue(mm), IntValue(yy), DigitsValue(hh), DigitsValue(mi)))
      else None
  }

  /** A string cut into three consecutive parts. */
  lemma Cut3(s: string, a: string, b: string, c: string)
    requires s == a + b + c
    ensures s[..|a|] == a && s[|a|..|s| - |c|] == b && s[|s| - |c|..] == c
  {
  }

  /** The parser reads the five fields at their positions. */
  lemma ParseFields(s: string, d: string, m: string, y: string, h: string, mi: string)
    requires |s| >= 13
    requires s[2] == '-' && s[5] == '-' && s[|s| - 6] == ' ' && s[|s| - 3] == ':'
    requires s[..2] == d && s[3..5] == m && s[6..|s| - 6] == y
    requires s[|s| - 5..|s| - 3] == h && s[|s| - 2..] == mi
    requires AllDigits(d) && AllDigits(m) && AllDigits(h) && AllDigits(mi) && IsIntString(y)
    ensures ParseTanggal(s)
         == Some(DateParts(DigitsValue(d), DigitsValue(m), IntValue(y), DigitsValue(h), DigitsValue(mi)))
  {
  }

  /** Where the day, the month and the year sit in the layout. */
  lemma LeftFields(s: string, d: string, m: string, y: string, h: string, mi: string)
    requires |d| == 2 && |m| == 2 && |h| == 2 && |mi| == 2
    requires s == d + "-" + m + "-" + y + " " + h + ":" + mi
    ensures |s| == 12 + |y|
    ensures s[2] == '-' && s[5] == '-' && s[..2] == d && s[3..5] == m && s[6..|s| - 6] == y
  {
    var left := d + "-" + m + "-";
    Cut3(s, left, y, " " + h + ":" + mi);
    Cut3(left, d, "-" + m, "-");
    assert ("-" + m)[1..] == m;
    assert s[..2] == left[..2] && s[3..5] == left[3..5];
  }

  /** Where the hours and the minutes sit in the layout. */
  lemma RightFields(s: string, d: string, m: string, y: string, h: string, mi: string)
    requires |d| == 2 && |m| == 2 && |h| == 2 && |mi| == 2
    requires s == d + "-" + m + "-" + y + " " + h + ":" + mi
    ensures |s| == 12 + |y|
    ensures s[|s| - 6] == ' ' && s[|s| - 5..|s| - 3] == h && s[|s| - 3] == ':' && s[|s| - 2..] == mi
  {
    var right := " " + h + ":" + mi;
    var n := |s|;
    Cut3(s, d + "-" + m + "-", y, right);
    Cut3(right, " " + h, ":", mi);
    assert (" " + h)[1..] == h;
    assert s[n - 5..n - 3] == right[1..3] && s[n - 2..] == right[4..];
  }

  /** The parser reads back the five fields of any string in the layout. */
  lemma ParseLayout(d: string, m: string, y: string, h: string, mi: string)
    requires |d| == 2 && |m| == 2 && |h| == 2 && |mi| == 2
    requires AllDigits(d) && AllDigits(m) && AllDigits(h) && AllDigits(mi) && IsIntString(y)
    ensures ParseTanggal(d + "-" + m + "-" + y + " " + h + ":" + mi)
         == Some(DateParts(DigitsValue(d), DigitsValue(m), IntValue(y), DigitsValue(h), DigitsValue(mi)))
  {
    var s := d + "-" + m + "-" + y + " " + h + ":" + mi;
    LeftFields(s, d, m, y, h, mi);
    RightFields(s, d, m, y, h, mi);
    ParseFields(s, d, m, y, h, mi);
  }

  /** For components below 100 (every calendar day, month, hour and minute
      is), the layout is "DD-MM-" + year + " HH:MM" and parses back to the
      day, the 1-based month, the year, the hours and the minutes. */
  lemma FormatParseRoundTrip(day: nat, month0: nat, year: int, hours: nat, minutes: nat)
    requires day < 100 && month0 + 1 < 100 && hours < 100 && minutes < 100
    ensures |FormatTanggal(day, month0, year, hours, minutes)| == 12 + |IntToString(year)|
    ensures ParseTanggal(FormatTanggal(day, month0, year, hours, minutes))
         == Some(DateParts(day, month0 + 1, year, hours, minutes))
  {
    Pad2Value(day);
    Pad2Value(month0 + 1);
    Pad2Value(hours);
    Pad2Value(minutes);
    IntToStringValue(year);
    ParseLayout(Pad2(day), Pad2(month0 + 1), IntToString(year), Pad2(hours), Pad2(minutes));
  }
}
