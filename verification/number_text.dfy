/** Numbers as text: `%d` and `%lx` printing, and `std::stoul` with base 0 on text that starts with a
    digit. */
module NumberText {
  import opened Common

  type Base = b: nat | b == 8 || b == 10 || b == 16 witness 10

  function DigitChar(d: nat): char
    requires d < 16
  {
    if d < 10 then '0' + d as char else 'a' + (d - 10) as char
  }

  /** Anything that is not a digit counts as 99. */
  function DigitValue(c: char): nat {
    if '0' <= c <= '9' then (c - '0') as int
    else if 'a' <= c <= 'f' then (c - 'a') as int + 10
    else if 'A' <= c <= 'F' then (c - 'A') as int + 10
    else 99
  }

  /** Printing has lower-case digits; parsing takes both cases, and nothing else is a digit. */
  lemma {:induction false} DigitsExact(d: nat, c: char)
    requires d < 16
    ensures DigitChar(d) == "0123456789abcdef"[d]
    ensures DigitValue(c) == d <==> c == "0123456789abcdef"[d] || c == "0123456789ABCDEF"[d]
  {
  }

  /** The digits of a number, without leading zeros. */
  function Print(n: nat, base: Base): (s: string)
    ensures |s| > 0
  {
    if n < base then [DigitChar(n)] else Print(n / base, base) + [DigitChar(n % base)]
  }

  predicate AllDigits(s: string, base: Base) {
    forall k | 0 <= k < |s| :: DigitValue(s[k]) < base
  }

  function Number(s: string, base: Base): nat
    requires AllDigits(s, base)
  {
    if |s| == 0 then 0 else Number(s[..|s| - 1], base) * base + DigitValue(s[|s| - 1])
  }

  /** The longest prefix of digits. */
  function Digits(s: string, base: Base): (p: string)
    ensures p <= s && AllDigits(p, base)
  {
    if |s| == 0 || DigitValue(s[0]) >= base then "" else [s[0]] + Digits(s[1..], base)
  }

  /** Hexadecimal after "0x", octal after another "0", decimal otherwise; None stands for the exception
      when there are no digits or the number does not fit. */
  function Parse(s: string): Option<nat> {
    if |s| > 2 && s[0] == '0' && (s[1] == 'x' || s[1] == 'X') && DigitValue(s[2]) < 16 then InRange(Digits(s[2..], 16), 16)
    else if |s| > 0 && s[0] == '0' then InRange(Digits(s, 8), 8)
    else InRange(Digits(s, 10), 10)
  }

  function InRange(digits: string, base: Base): Option<nat>
    requires AllDigits(digits, base)
  {
    if |digits| == 0 || Number(digits, base) >= LIMIT then None else Some(Number(digits, base))
  }

  lemma {:induction false} DigitOf(d: nat, base: Base)
    requires d < base
    ensures DigitValue(DigitChar(d)) == d
    ensures d > 0 ==> DigitChar(d) != '0'
  {
  }

  lemma {:induction false} DivMod(n: nat, base: Base)
    ensures n / base * base + n % base == n && (n >= base ==> 0 < n / base < n)
  {
    if base == 8 {
    } else if base == 10 {
    } else {
    }
  }

  /** Reading what was printed gives back the number, and a positive number starts with no zero. */
  lemma {:induction false} NumberOfPrint(n: nat, base: Base)
    ensures AllDigits(Print(n, base), base) && Number(Print(n, base), base) == n
    ensures n > 0 ==> Print(n, base)[0] != '0'
  {
    if n < base {
      DigitOf(n, base);
      assert Print(n, base)[..0] == "";
    } else {
      DivMod(n, base);
      NumberOfPrint(n / base, base);
      DigitOf(n % base, base);
      var s, last := Print(n / base, base), DigitChar(n % base);
      assert (s + [last])[..|s|] == s;
    }
  }

  lemma {:induction false} AllAreDigits(s: string, base: Base)
    requires AllDigits(s, base)
    ensures Digits(s, base) == s
  {
    if |s| == 0 {
    } else {
      AllAreDigits(s[1..], base);
    }
  }

  /** Hexadecimal printing and parsing are inverse on 64-bit numbers. */
  lemma {:induction false} ParseHex(n: nat)
    requires n < LIMIT
    ensures Parse("0x" + Print(n, 16)) == Parse("0X" + Print(n, 16)) == Some(n)
  {
    NumberOfPrint(n, 16);
    AllAreDigits(Print(n, 16), 16);
    var s, t := "0x" + Print(n, 16), "0X" + Print(n, 16);
    assert s[2..] == t[2..] == Print(n, 16) && s[2] == t[2] == Print(n, 16)[0];
  }

  /** So are decimal printing and parsing. */
  lemma {:induction false} ParseDecimal(n: nat)
    requires 0 < n < LIMIT
    ensures Parse(Print(n, 10)) == Some(n)
  {
    NumberOfPrint(n, 10);
    AllAreDigits(Print(n, 10), 10);
  }

  /** A zero before digits below 8 makes them octal. */
  lemma {:induction false} ParseOctal(n: nat)
    requires n < LIMIT
    ensures Parse("0" + Print(n, 8)) == Some(n)
  {
    NumberOfPrint(n, 8);
    var s := "0" + Print(n, 8);
    LeadingZero(Print(n, 8), 8);
    AllAreDigits(s, 8);
    assert s[1] == Print(n, 8)[0] && DigitValue(s[1]) < 8;
  }

  lemma {:induction false} LeadingZero(s: string, base: Base)
    requires AllDigits(s, base)
    ensures AllDigits("0" + s, base) && Number("0" + s, base) == Number(s, base)
  {
    if |s| == 0 {
      assert "0" + s == "0" && "0"[..0] == "";
    } else {
      var init, t := s[..|s| - 1], "0" + s;
      LeadingZero(init, base);
      assert t[..|t| - 1] == "0" + init && t[|t| - 1] == s[|s| - 1];
    }
  }

  /** What follows the digits is ignored (but for white space and signs in front, not modelled), numbers from 2^64 on and texts without digits are errors. */
  lemma {:induction false} ParseLimits(n: nat, rest: string)
    requires n > 0 && (rest == "" || DigitValue(rest[0]) >= 10)
    ensures Parse(Print(n, 10) + rest) == if n < LIMIT then Some(n) else None
    ensures Parse(rest) == None
  {
    NumberOfPrint(n, 10);
    var digits := Print(n, 10);
    DigitsStop(digits, rest);
    assert (digits + rest)[0] == digits[0];
    DigitsStop("", rest);
    assert "" + rest == rest;
  }

  lemma {:induction false} DigitsStop(s: string, rest: string)
    requires AllDigits(s, 10) && (rest == "" || DigitValue(rest[0]) >= 10)
    ensures Digits(s + rest, 10) == s
  {
    if |s| == 0 {
      assert s + rest == rest;
    } else {
      DigitsStop(s[1..], rest);
      assert (s + rest)[1..] == s[1..] + rest && s == [s[0]] + s[1..];
    }
  }

  /** Different numbers print differently. */
  lemma {:induction false} PrintInjective(m: nat, n: nat, base: Base)
    ensures Print(m, base) == Print(n, base) ==> m == n
  {
    NumberOfPrint(m, base);
    NumberOfPrint(n, base);
  }
}
