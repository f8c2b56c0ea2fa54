/** Decimal numerals: Python's `int(s)` on a string and `str(i)` / f-string rendering of an `int`. */
module Numerals {
  import opened Wrappers
  import opened Strings

  predicate AllDigits(s: string) {
    forall i :: 0 <= i < |s| ==> IsDigit(s[i])
  }

  function DigitValue(c: char): nat
    requires IsDigit(c)
  {
    c as int - '0' as int
  }

  function DigitChar(d: nat): (c: char)
    requires d < 10
    ensures IsDigit(c) && DigitValue(c) == d
  {
    ('0' as int + d) as char
  }

  /** The value of a string of decimal digits, most significant first. */
  function DigitsValue(s: string): nat
    requires AllDigits(s)
  {
    if s == [] then 0 else DigitsValue(s[..|s| - 1]) * 10 + DigitValue(s[|s| - 1])
  }

  /** `str(n)` for a natural number: no sign, no leading zero. */
  function NatStr(n: nat): (s: string)
    ensures |s| >= 1 && AllDigits(s)
    ensures |s| > 1 ==> s[0] != '0'
  {
    if n < 10 then [DigitChar(n)] else NatStr(n / 10) + [DigitChar(n % 10)]
  }

  /** `str(i)`: a minus sign before the digits of a negative number. */
  function IntStr(i: int): (s: string)
    ensures |s| >= 1
    ensures i < 0 <==> s[0] == '-'
  {
    if i < 0 then "-" + NatStr(-i) else NatStr(i)
  }

  /** `int(s)` for a string: surrounding whitespace is ignored, then an optional sign and at least
      one ASCII digit; anything else is the `ValueError` case, here `None`. */
  function ParseInt(s: string): Option<int> {
    var t := Strip(s);
    if t != [] && (t[0] == '-' || t[0] == '+') then
      if |t| > 1 && AllDigits(t[1..]) then
        var n: int := DigitsValue(t[1..]);
        Some(if t[0] == '-' then -n else n)
      else None
    else if t != [] && AllDigits(t) then Some(DigitsValue(t))
    else None
  }

  lemma {:induction false} NatStrValue(n: nat)
    ensures DigitsValue(NatStr(n)) == n
  {
    var s := NatStr(n);
    if n >= 10 {
      NatStrValue(n / 10);
      assert s[..|s| - 1] == NatStr(n / 10);
    }
  }

  /** Reading back what `str(i)` wrote gives `i`. */
  lemma ParseIntStr(i: int)
    ensures ParseInt(IntStr(i)) == Some(i)
  {
    var s := IntStr(i);
    StripNoEdgeSpace(s);
    assert Strip(s) == s;
    if i < 0 {
      var d := NatStr(-i);
      assert s == "-" + d && s[1..] == d;
      NatStrValue(-i);
    } else {
      assert s[0] != '-' && s[0] != '+';
      NatStrValue(i);
    }
  }

  /** `str(i)` writes only a sign and digits, so never a `/`. */
  lemma IntStrNoSlash(i: int)
    ensures forall k :: 0 <= k < |IntStr(i)| ==> IntStr(i)[k] != '/'
  {
    var d := NatStr(if i < 0 then -i else i);
    if i < 0 {
      assert forall k :: 1 <= k < |IntStr(i)| ==> IntStr(i)[k] == d[k - 1];
    }
  }

  /** `str(i)` writes only a sign and digits, so never an `@`. */
  lemma IntStrNoAt(i: int)
    ensures '@' !in IntStr(i)
  {
    var d := NatStr(if i < 0 then -i else i);
    if i < 0 {
      assert IntStr(i) == "-" + d;
    }
    assert forall k :: 0 <= k < |d| ==> d[k] != '@';
  }
}
