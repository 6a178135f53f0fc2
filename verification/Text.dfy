/** The string operations that the programs use on their text formats. */
module Text {
  import opened Wrappers

  /** The part before the first `sep`, or all of `s`. */
  function Before(s: string, sep: char): (t: string)
    ensures sep !in t && t <= s
    ensures sep !in s ==> t == s
    ensures sep in s ==> |t| < |s| && s[|t|] == sep
  {
    if s == [] || s[0] == sep then [] else [s[0]] + Before(s[1..], sep)
  }

  /** The part after the first `sep`. */
  function After(s: string, sep: char): string
    requires sep in s
  {
    s[|Before(s, sep)| + 1..]
  }

  lemma {:induction false} Splits(a: string, sep: char, b: string)
    requires sep !in a
    ensures Before(a + [sep] + b, sep) == a && After(a + [sep] + b, sep) == b
  {
    if a == [] {
      assert a + [sep] + b == [sep] + b;
    } else {
      assert (a + [sep] + b)[1..] == a[1..] + [sep] + b;
      Splits(a[1..], sep, b);
    }
  }

  lemma Unsplits(s: string, sep: char)
    requires sep in s
    ensures s == Before(s, sep) + [sep] + After(s, sep)
  {
  }

  /** Decimal digits of a number, without leading zeros. */
  function Digits(n: nat): (s: string)
    ensures |s| > 0 && forall c <- s :: '0' <= c <= '9'
  {
    if n < 10 then [Digit(n)] else Digits(n / 10) + [Digit(n % 10)]
  }

  function Digit(d: nat): (c: char)
    requires d < 10
    ensures '0' <= c <= '9'
  {
    '0' + d as char
  }

  function FirstDigit(n: nat): (d: nat)
    ensures d < 10 && d <= n && (n < 10 ==> d == n) && (n >= 10 ==> d < n)
  {
    if n < 10 then n else FirstDigit(n / 10)
  }

  lemma {:induction false} DigitsStart(n: nat)
    ensures Digits(n)[0] == Digit(FirstDigit(n)) && (|Digits(n)| == 1 <==> n < 10)
  {
    if n >= 10 {
      DigitsStart(n / 10);
    }
  }

  function TrimEnd(s: string, c: char): (t: string)
    ensures t <= s && (t != [] ==> t[|t| - 1] != c)
    ensures t == s <==> s == [] || s[|s| - 1] != c
  {
    if s != [] && s[|s| - 1] == c then TrimEnd(s[..|s| - 1], c) else s
  }

  function TrimStart(s: string, c: char): (t: string)
    ensures |t| <= |s| && t == s[|s| - |t|..] && (t != [] ==> t[0] != c)
    ensures t == s <==> s == [] || s[0] != c
  {
    if s != [] && s[0] == c then TrimStart(s[1..], c) else s
  }

  predicate IsDigit(c: char) {
    '0' <= c <= '9'
  }

  predicate AllDigits(s: string) {
    forall c <- s :: IsDigit(c)
  }

  function Value(s: string): nat
    requires AllDigits(s)
  {
    if s == "" then 0
    else
      assert IsDigit(s[|s| - 1]);
      10 * Value(s[..|s| - 1]) + (s[|s| - 1] as int - '0' as int)
  }

  /** A sign is allowed, but only a plus. */
  function ParseUnsigned(s: string, max: nat): Option<nat> {
    var t := if s != "" && s[0] == '+' then s[1..] else s;
    if t != "" && AllDigits(t) && Value(t) <= max then Some(Value(t)) else None
  }

  lemma {:induction false} DigitsValue(n: nat)
    ensures AllDigits(Digits(n)) && Value(Digits(n)) == n
    ensures n > 0 ==> Digits(n)[0] != '0'
    ensures n < 10 ==> |Digits(n)| == 1
    ensures n < 100 ==> |Digits(n)| <= 2
    ensures n < 1000 ==> |Digits(n)| <= 3
  {
    if n >= 10 {
      DigitsValue(n / 10);
      assert Digits(n)[..|Digits(n)| - 1] == Digits(n / 10);
    }
  }

  /** A number is read back from its digits, with or without a plus, exactly when it is in range. */
  lemma DigitsAreRead(n: nat, max: nat)
    ensures ParseUnsigned(Digits(n), max) == if n <= max then Some(n) else None
    ensures ParseUnsigned("+" + Digits(n), max) == if n <= max then Some(n) else None
  {
    DigitsValue(n);
    var t := Digits(n);
    assert t[0] in t;
    assert ("+" + t)[1..] == t;
    hide Digits, Value;
  }

  /** What is read is digits, after an optional plus. */
  lemma OnlyDigitsAreRead(s: string, max: nat)
    requires ParseUnsigned(s, max).Some?
    ensures s != "" && (s[0] == '+' || IsDigit(s[0])) && forall c <- s[1..] :: IsDigit(c)
    ensures ParseUnsigned(s, max).value <= max
  {
    hide Value;
  }

  /** Digits without a leading zero are the only text of their value. */
  lemma {:induction false} DigitsOfValue(s: string)
    requires AllDigits(s) && s != "" && (|s| > 1 ==> s[0] != '0')
    ensures Digits(Value(s)) == s
    ensures |s| > 1 ==> Value(s) >= 10
  {
    var n := |s| - 1;
    var d := s[n] as int - '0' as int;
    assert s[n] in s;
    assert s == s[..n] + [s[n]];
    if n > 0 {
      assert s[0] == s[..n][0];
      DigitsOfValue(s[..n]);
      assert Value(s[..n]) > 0 by {
        if n == 1 {
          assert s[..1][..0] == "";
          assert s[0] in s;
        }
      }
      assert Value(s) / 10 == Value(s[..n]) && Value(s) % 10 == d;
    } else {
      assert s[..0] == "";
    }
  }

  lemma {:induction false} LeadingZero(s: string)
    requires AllDigits(s)
    ensures AllDigits("0" + s) && Value("0" + s) == Value(s)
  {
    var t := "0" + s;
    if s == "" {
      assert t == "0" && t[..0] == "";
    } else {
      var n := |s| - 1;
      LeadingZero(s[..n]);
      assert t[..|t| - 1] == "0" + s[..n];
    }
  }

  /** Leading zeros do not matter. */
  lemma ZerosAreRead(s: string, max: nat)
    requires s != "" && AllDigits(s)
    ensures ParseUnsigned("0" + s, max) == ParseUnsigned(s, max)
  {
    LeadingZero(s);
    assert s[0] in s;
    hide Value;
  }
}
