/** Decimal text for integers: `Number.prototype.toString` on the non-negative
    integers the core formats (clock readings), and `parseInt` on the text of a
    WebDAV `getcontentlength` property. */
module Numbers {
  import opened Results
  import opened Strings

  predicate IsDigit(ch: char) {
    '0' <= ch <= '9'
  }

  function DigitValue(ch: char): (d: nat)
    requires IsDigit(ch)
    ensures d < 10
  {
    ch as int - '0' as int
  }

  function DigitChar(d: nat): (ch: char)
    requires d < 10
    ensures IsDigit(ch) && DigitValue(ch) == d
  {
    ('0' as int + d) as char
  }

  predicate AllDigits(s: string) {
    forall i :: 0 <= i < |s| ==> IsDigit(s[i])
  }

  /** The number a string of decimal digits denotes, most significant first. */
  function DigitsValue(s: string): nat
    requires AllDigits(s)
  {
    if |s| == 0 then 0 else DigitsValue(s[..|s| - 1]) * 10 + DigitValue(s[|s| - 1])
  }

  /** `n.toString()` for a non-negative integer: digits only, and no leading zero
      except for `"0"` itself. */
  function DecimalString(n: nat): (s: string)
    ensures |s| >= 1 && AllDigits(s)
    ensures |s| > 1 ==> s[0] != '0'
    ensures DigitsValue(s) == n
  {
    if n < 10 then [DigitChar(n)]
    else
      var s := DecimalString(n / 10) + [DigitChar(n % 10)];
      assert s[..|s| - 1] == DecimalString(n / 10);
      s
  }

  /** Two different integers never print alike. */
  lemma DecimalStringInjective(m: nat, n: nat)
    requires DecimalString(m) == DecimalString(n)
    ensures m == n
  {
  }

  /** The longest prefix of `s` made of decimal digits. */
  function DigitPrefix(s: string): (d: string)
    ensures StartsWith(s, d) && AllDigits(d)
    ensures |d| < |s| ==> !IsDigit(s[|d|])
  {
    if |s| > 0 && IsDigit(s[0]) then
      var d := [s[0]] + DigitPrefix(s[1..]);
      assert s[..|d|] == [s[0]] + s[1..][..|d| - 1];
      d
    else []
  }

  /** `parseInt(text)` without a radix, on decimal text: leading white space is
      skipped, one sign is read, then the longest run of digits. `None` stands
      for `NaN`, the value when no digit follows. */
  function ParseInt(text: string): (r: Option<int>)
    ensures r.None? <==> |DigitPrefix(Unsigned(TrimStart(text)))| == 0
  {
    var t := TrimStart(text);
    var digits := DigitPrefix(Unsigned(t));
    var magnitude: int := if |digits| == 0 then 0 else DigitsValue(digits);
    if |digits| == 0 then None
    else if StartsWith(t, "-") then Some(-magnitude)
    else Some(magnitude)
  }

  /** The text after one leading sign character, if there is one. */
  function Unsigned(t: string): string {
    if StartsWith(t, "-") || StartsWith(t, "+") then t[1..] else t
  }

  /** Parsing the printed form of a natural number gives the number back. */
  lemma ParsePrinted(n: nat)
    ensures ParseInt(DecimalString(n)) == Some(n)
  {
    var s := DecimalString(n);
    PlainDigits(s);
  }

  /** A string of digits is read whole: no white space, no sign, every digit. */
  lemma PlainDigits(s: string)
    requires |s| > 0 && AllDigits(s)
    ensures ParseInt(s) == Some(DigitsValue(s))
  {
    assert TrimStart(s) == s by {
      DigitStarts(s);
    }
    assert !StartsWith(s, "-") && !StartsWith(s, "+") by {
      assert s[..1] == [s[0]];
    }
    DigitPrefixOfDigits(s);
  }

  /** Text that starts with a digit has no leading white space to skip. */
  lemma DigitStarts(t: string)
    requires |t| > 0 && IsDigit(t[0])
    ensures TrimStart(t) == t
  {
    assert !IsSpace(t[0]);
    assert t[0..] == t;
  }

  /** A string of digits is its own digit prefix. */
  lemma {:induction false} DigitPrefixOfDigits(s: string)
    requires AllDigits(s)
    ensures DigitPrefix(s) == s
  {
    if |s| > 0 {
      DigitPrefixOfDigits(s[1..]);
    }
  }

  /** Trailing text after the digits is ignored, as `parseInt("12px")` is 12. */
  lemma ParseIgnoresSuffix(n: nat, tail: string)
    requires |tail| > 0 ==> !IsDigit(tail[0])
    ensures ParseInt(DecimalString(n) + tail) == Some(n)
  {
    var s := DecimalString(n);
    var t := s + tail;
    assert t[0] == s[0];
    assert TrimStart(t) == t by {
      DigitStarts(t);
    }
    assert !StartsWith(t, "-") && !StartsWith(t, "+") by {
      assert t[..1] == [s[0]];
    }
    DigitPrefixOfDigitsThen(s, tail);
  }

  lemma {:induction false} DigitPrefixOfDigitsThen(s: string, tail: string)
    requires AllDigits(s)
    requires |tail| > 0 ==> !IsDigit(tail[0])
    ensures DigitPrefix(s + tail) == s
  {
    if |s| > 0 {
      assert (s + tail)[1..] == s[1..] + tail;
      DigitPrefixOfDigitsThen(s[1..], tail);
    } else {
      assert s + tail == tail;
    }
  }
}
