/** Decimal digit strings and "h:mm:ss" clock strings: JavaScript's
    `Number.prototype.toString` on integers, `String.prototype.padStart(2, '0')`,
    and the reading of a colon-separated clock back into seconds, which is the
    inverse the duration and pace formatters are proved against. */
module Decimal {
  import opened Types

  predicate IsDigit(c: char)
  {
    '0' <= c <= '9'
  }

  /** A non-empty string of decimal digits. */
  predicate IsDigits(s: string)
  {
    |s| > 0 && forall i | 0 <= i < |s| :: IsDigit(s[i])
  }

  function DigitValue(c: char): nat
  {
    if IsDigit(c) then c as int - '0' as int else 0
  }

  /** The number a digit string denotes. */
  function ValueOf(s: string): nat
    decreases |s|
  {
    if |s| == 0 then 0 else ValueOf(s[..|s| - 1]) * 10 + DigitValue(s[|s| - 1])
  }

  function DigitChar(d: nat): (c: char)
    requires d < 10
    ensures IsDigit(c) && DigitValue(c) == d
  {
    ('0' as int + d) as char
  }

  /** `n.toString()` for an integer n >= 0: its decimal digits, without
      leading zeros. */
  function NatToString(n: nat): (s: string)
    ensures IsDigits(s)
    ensures ValueOf(s) == n
    ensures |s| == 1 <==> n < 10
    ensures n >= 10 ==> s[0] != '0'
    decreases n
  {
    if n < 10 then [DigitChar(n)]
    else
      var prefix := NatToString(n / 10);
      var s := prefix + [DigitChar(n % 10)];
      assert s[..|s| - 1] == prefix;
      assert s[0] == prefix[0];
      s
  }

  /** `i.toString()` for any integer i: a minus sign for a negative i, then
      the digits of its magnitude. */
  function IntToString(i: int): (s: string)
    ensures i >= 0 ==> s == NatToString(i)
    ensures i < 0 ==> s == "-" + NatToString(-i)
  {
    if i < 0 then "-" + NatToString(-i) else NatToString(i)
  }

  /** The text of an integer reads back as the integer: digits alone for
      i >= 0, a minus sign followed by the digits of -i otherwise. */
  lemma IntToStringReadsBack(i: int)
    ensures var s := IntToString(i);
      && (i >= 0 ==> IsDigits(s) && ValueOf(s) == i)
      && (i < 0 <==> |s| > 0 && s[0] == '-')
      && (i < 0 ==> IsDigits(s[1..]) && ValueOf(s[1..]) == -i)
  {
    if i < 0 {
      assert IntToString(i)[1..] == NatToString(-i);
    }
  }

  /** `s.padStart(2, '0')`: `s` itself when it has two characters or more,
      otherwise `s` preceded by as many '0' as make it two long. */
  function PadStart2(s: string): (padded: string)
    ensures |s| >= 2 ==> padded == s
    ensures |s| == 1 ==> padded == ['0'] + s
    ensures |s| == 0 ==> padded == "00"
  {
    if |s| >= 2 then s else seq(2 - |s|, _ => '0') + s
  }

  /** A number below 100, printed and padded, is two digits denoting it. */
  lemma PadStart2Digits(n: nat)
    requires n < 100
    ensures var s := PadStart2(NatToString(n));
      |s| == 2 && IsDigits(s) && ValueOf(s) == n
  {
    var t := NatToString(n);
    if n < 10 {
      var s := PadStart2(t);
      assert s == ['0', t[0]];
      assert s[..1] == ['0'];
      assert ValueOf(s) == ValueOf(['0']) * 10 + DigitValue(t[0]);
      assert t[..0] == [];
    }
  }

  /** The colon-separated fields of a string, as `s.split(':')`. */
  function Fields(s: string): (f: seq<string>)
    ensures |f| >= 1
    decreases |s|
  {
    if |s| == 0 then [""]
    else
      var rest := Fields(s[1..]);
      if s[0] == ':' then [""] + rest else [[s[0]] + rest[0]] + rest[1..]
  }

  lemma {:induction false} FieldsNoColon(a: string)
    requires ':' !in a
    ensures Fields(a) == [a]
    decreases |a|
  {
    if |a| > 0 {
      assert ':' !in a[1..] by {
        forall i | 0 <= i < |a[1..]| ensures a[1..][i] != ':' {
          assert a[1..][i] == a[i + 1];
        }
      }
      FieldsNoColon(a[1..]);
      assert [a[0]] + a[1..] == a;
    }
  }

  /** A field without a colon, then a colon, then the rest. */
  lemma {:induction false} FieldsJoin(a: string, b: string)
    requires ':' !in a
    ensures Fields(a + ":" + b) == [a] + Fields(b)
    decreases |a|
  {
    if |a| == 0 {
      assert a + ":" + b == [':'] + b;
      assert (a + ":" + b)[1..] == b;
    } else {
      assert ':' !in a[1..] by {
        forall i | 0 <= i < |a[1..]| ensures a[1..][i] != ':' {
          assert a[1..][i] == a[i + 1];
        }
      }
      FieldsJoin(a[1..], b);
      assert (a + ":" + b)[1..] == a[1..] + ":" + b;
      assert [a[0]] + a[1..] == a;
    }
  }

  lemma DigitsHaveNoColon(s: string)
    requires IsDigits(s)
    ensures ':' !in s
  {
  }

  /** The number of seconds a list of base-60 fields denotes, most
      significant first ("1:02:03" is 3723). */
  function ClockValue(fields: seq<string>): nat
    decreases |fields|
  {
    if |fields| == 0 then 0
    else ClockValue(fields[..|fields| - 1]) * 60 + ValueOf(fields[|fields| - 1])
  }

  /** Reads a clock string back: every field must be digits. */
  function ParseClock(s: string): Option<nat>
  {
    var fields := Fields(s);
    if forall i | 0 <= i < |fields| :: IsDigits(fields[i]) then Some(ClockValue(fields)) else None
  }

  /** A string whose fields are all digits reads back as their clock value. */
  lemma ParseClockFields(s: string, fields: seq<string>)
    requires Fields(s) == fields
    requires forall i | 0 <= i < |fields| :: IsDigits(fields[i])
    ensures ParseClock(s) == Some(ClockValue(fields))
  {
  }

  lemma ClockValueTwo(a: string, b: string)
    ensures ClockValue([a, b]) == ValueOf(a) * 60 + ValueOf(b)
  {
    assert [a][..0] == [];
    assert ClockValue([a]) == ValueOf(a);
    assert [a, b][..1] == [a];
  }

  lemma ClockValueThree(a: string, b: string, c: string)
    ensures ClockValue([a, b, c]) == (ValueOf(a) * 60 + ValueOf(b)) * 60 + ValueOf(c)
  {
    ClockValueTwo(a, b);
    assert [a, b, c][..2] == [a, b];
  }

  /** The fields of "a:b" for digit strings a and b. */
  lemma TwoFields(a: string, b: string)
    requires IsDigits(a) && IsDigits(b)
    ensures Fields(a + ":" + b) == [a, b]
    ensures ParseClock(a + ":" + b) == Some(ValueOf(a) * 60 + ValueOf(b))
  {
    DigitsHaveNoColon(a);
    DigitsHaveNoColon(b);
    FieldsJoin(a, b);
    FieldsNoColon(b);
    ParseClockFields(a + ":" + b, [a, b]);
    ClockValueTwo(a, b);
  }

  lemma FieldsOfThree(a: string, b: string, c: string)
    requires IsDigits(a) && IsDigits(b) && IsDigits(c)
    ensures Fields(a + ":" + b + ":" + c) == [a, b, c]
  {
    DigitsHaveNoColon(a);
    assert a + ":" + b + ":" + c == a + ":" + (b + ":" + c);
    FieldsJoin(a, b + ":" + c);
    TwoFields(b, c);
  }
}
