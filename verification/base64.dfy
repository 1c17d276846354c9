/** The URL-safe base64 of src/datacrumbs/common/utils.h, against section 5 of RFC 4648 without padding
    (section 3.2). */
module Base64 {
  import opened Common

  type Digit = x: nat | x < 64

  /** `base64_chars[v]`. */
  function CharOf(v: Digit): char {
    if v < 26 then 'A' + v as char
    else if v < 52 then 'a' + (v - 26) as char
    else if v < 62 then '0' + (v - 52) as char
    else if v == 62 then '-' else '_'
  }

  predicate IsBase64(c: char) {
    'A' <= c <= 'Z' || 'a' <= c <= 'z' || '0' <= c <= '9' || c == '-' || c == '_'
  }

  /** `base64_chars.find(c)` as an unsigned char: a character that is not there gives 255. */
  function ValueOf(c: char): (v: Byte)
    ensures v < 64 <==> IsBase64(c)
  {
    if 'A' <= c <= 'Z' then (c - 'A') as int
    else if 'a' <= c <= 'z' then (c - 'a') as int + 26
    else if '0' <= c <= '9' then (c - '0') as int + 52
    else if c == '-' then 62 else if c == '_' then 63 else 255
  }

  /** The two tables are inverse to each other. */
  lemma {:induction false} CharAndValue(v: Digit, c: char)
    ensures IsBase64(CharOf(v)) && ValueOf(CharOf(v)) == v
    ensures IsBase64(c) ==> CharOf(ValueOf(c)) == c
  {
  }

  /** Table 2 of RFC 4648. */
  const ALPHABET := "ABCDEFGHIJKLMNOPQRSTUVWXYZ" + "abcdefghijklmnopqrstuvwxyz" + "0123456789" + "-_"

  /** The characters are those of the standard's table, in its order. */
  lemma {:induction false} AlphabetExact(v: Digit)
    ensures |ALPHABET| == 64 && CharOf(v) == ALPHABET[v]
  {
    if v < 26 {
      UpperCase(v);
    } else if v < 52 {
      LowerCase(v - 26);
    }
  }

  lemma {:induction false} UpperCase(k: nat)
    requires k < 26
    ensures "ABCDEFGHIJKLMNOPQRSTUVWXYZ"[k] == 'A' + k as char
  {
  }

  lemma {:induction false} LowerCase(k: nat)
    requires k < 26
    ensures "abcdefghijklmnopqrstuvwxyz"[k] == 'a' + k as char
  {
  }

  predicate AllBase64(s: string) {
    forall k | 0 <= k < |s| :: IsBase64(s[k])
  }

  // ---------- The standard ----------

  /** Bytes, and digits, as one number, the most significant first. */
  function BytesNumber(b: seq<Byte>): nat {
    if |b| == 0 then 0 else BytesNumber(b[..|b| - 1]) * 256 + b[|b| - 1]
  }

  function DigitsNumber(s: string): nat
    requires AllBase64(s)
  {
    if |s| == 0 then 0 else DigitsNumber(s[..|s| - 1]) * 64 + ValueOf(s[|s| - 1])
  }

  /** The `n` lowest bytes, and base-64 digits, of a number. */
  function Bytes(x: nat, n: nat): (b: seq<Byte>)
    ensures |b| == n
  {
    if n == 0 then [] else Bytes(x / 256, n - 1) + [x % 256]
  }

  function Digits(x: nat, n: nat): (s: string)
    ensures |s| == n
  {
    if n == 0 then "" else Digits(x / 64, n - 1) + [CharOf(x % 64)]
  }

  /** Three bytes are one 24-bit number, written as four 6-bit digits; a last group of one or two bytes
      is filled up with zero bits to the next digit. */
  function Encode(b: seq<Byte>): string {
    if |b| == 0 then ""
    else if |b| == 1 then Digits(BytesNumber(b) * 16, 2)
    else if |b| == 2 then Digits(BytesNumber(b) * 4, 3)
    else Digits(BytesNumber(b[..3]), 4) + Encode(b[3..])
  }

  /** Four digits are a 24-bit number of three bytes; two or three last digits are one or two bytes and
      some left-over bits, and a single last digit is nothing. */
  function Decode(s: string): seq<Byte>
    requires AllBase64(s)
  {
    if |s| <= 1 then []
    else if |s| == 2 then Bytes(DigitsNumber(s) / 16, 1)
    else if |s| == 3 then Bytes(DigitsNumber(s) / 4, 2)
    else Bytes(DigitsNumber(s[..4]), 3) + Decode(s[4..])
  }

  /** The characters before the first that is not in the alphabet. */
  function Prefix(s: string): (p: string)
    ensures p <= s && AllBase64(p)
    ensures |p| < |s| ==> !IsBase64(s[|p|])
  {
    if |s| == 0 || !IsBase64(s[0]) then "" else [s[0]] + Prefix(s[1..])
  }

  // ---------- Round trips ----------

  function Power(base: nat, n: nat): nat {
    if n == 0 then 1 else Power(base, n - 1) * base
  }

  lemma {:induction false} DigitsOfNumber(s: string)
    requires AllBase64(s)
    ensures DigitsNumber(s) < Power(64, |s|)
    ensures Digits(DigitsNumber(s), |s|) == s
  {
    if |s| == 0 {
    } else {
      var init, v := s[..|s| - 1], ValueOf(s[|s| - 1]);
      DigitsOfNumber(init);
      CharAndValue(0, s[|s| - 1]);
      MoreDigits(DigitsNumber(init), v, |init|);
      MorePower(DigitsNumber(init), v, |init|);
      assert s == init + [CharOf(v)];
    }
  }

  lemma {:induction false} MorePower(x: nat, d: nat, n: nat)
    requires x < Power(64, n) && d < 64
    ensures x * 64 + d == 64 * x + d < Power(64, n + 1)
  {
  }

  lemma {:induction false} NumberOfDigits(x: nat, n: nat)
    requires x < Power(64, n)
    ensures AllBase64(Digits(x, n)) && DigitsNumber(Digits(x, n)) == x
  {
    if n == 0 {
    } else {
      NumberOfDigits(x / 64, n - 1);
      CharAndValue(x % 64, 'A');
    }
  }

  lemma {:induction false} BytesOfNumber(b: seq<Byte>)
    ensures BytesNumber(b) < Power(256, |b|)
    ensures Bytes(BytesNumber(b), |b|) == b
  {
    if |b| == 0 {
    } else {
      BytesOfNumber(b[..|b| - 1]);
    }
  }

  lemma {:induction false} NumberOfBytes(x: nat, n: nat)
    requires x < Power(256, n)
    ensures BytesNumber(Bytes(x, n)) == x
  {
    if n == 0 {
    } else {
      NumberOfBytes(x / 256, n - 1);
    }
  }

  lemma {:induction false} Powers()
    ensures Power(64, 2) == 0x1000 && Power(64, 3) == 0x4_0000 && Power(64, 4) == 0x100_0000
    ensures Power(256, 1) == 0x100 && Power(256, 2) == 0x1_0000 && Power(256, 3) == 0x100_0000
  {
    assert Power(64, 1) == 64;
  }

  lemma {:induction false} EncodesToAlphabet(b: seq<Byte>)
    ensures AllBase64(Encode(b))
  {
    Powers();
    if |b| == 1 || |b| == 2 {
      BytesOfNumber(b);
      NumberOfDigits(BytesNumber(b) * (if |b| == 1 then 16 else 4), |b| + 1);
    } else if |b| >= 3 {
      BytesOfNumber(b[..3]);
      NumberOfDigits(BytesNumber(b[..3]), 4);
      EncodesToAlphabet(b[3..]);
    }
  }

  /** Decoding an encoding gives back the bytes. */
  lemma {:induction false} DecodeEncode(b: seq<Byte>)
    ensures AllBase64(Encode(b)) && Decode(Encode(b)) == b
  {
    EncodesToAlphabet(b);
    Powers();
    if |b| == 1 || |b| == 2 {
      BytesOfNumber(b);
      NumberOfDigits(BytesNumber(b) * (if |b| == 1 then 16 else 4), |b| + 1);
    } else if |b| >= 3 {
      BytesOfNumber(b[..3]);
      NumberOfDigits(BytesNumber(b[..3]), 4);
      DecodeEncode(b[3..]);
      assert Encode(b)[..4] == Digits(BytesNumber(b[..3]), 4) && Encode(b)[4..] == Encode(b[3..]);
    }
  }

  /** So does the decoder, which stops at the first character outside the alphabet. */
  lemma {:induction false} RoundTrip(b: seq<Byte>)
    ensures Decode(Prefix(Encode(b))) == b
  {
    DecodeEncode(b);
    assert Prefix(Encode(b)) == Encode(b);
  }

  const INT_LIMIT := 0x8000_0000

  /** A length as an `int`. */
  function IntOf(n: nat): (x: int)
    ensures -INT_LIMIT <= x < INT_LIMIT && x <= n
    ensures n < INT_LIMIT ==> x == n
  {
    var low := n % 0x1_0000_0000;
    if low < INT_LIMIT then low else low - 0x1_0000_0000
  }

  lemma {:induction false} IntExact(n: nat)
    ensures -0x8000_0000 <= IntOf(n) < 0x8000_0000 && (n - IntOf(n)) % 0x1_0000_0000 == 0
  {
    var q := n / 0x1_0000_0000;
    assert n - n % 0x1_0000_0000 == q * 0x1_0000_0000;
    Whole(if IntOf(n) < 0 then q + 1 else q);
  }

  lemma {:induction false} Whole(q: nat)
    ensures q * 0x1_0000_0000 % 0x1_0000_0000 == 0
  {
  }

  /** What the decoder makes of a text, whose characters it counts down in an `int`: a negative count
      never stops it, and there is no result when it passes the lowest `int`. */
  function Decoded(s: string): Option<seq<Byte>> {
    var count := IntOf(|s|);
    if count >= 0 then Some(Decode(Prefix(s[..count])))
    else if |Prefix(s)| < count + INT_LIMIT then Some(Decode(Prefix(s)))
    else None
  }

  lemma {:induction false} EncodedLength(b: seq<Byte>)
    ensures |b| * 4 <= |Encode(b)| * 3 <= |b| * 4 + 2
  {
    if |b| < 3 {
    } else {
      EncodedLength(b[3..]);
    }
  }

  lemma {:induction false} DecodedLength(s: string)
    requires AllBase64(s)
    ensures |Decode(s)| * 4 <= |s| * 3
  {
    if |s| < 4 {
    } else {
      DecodedLength(s[4..]);
    }
  }

  /** The programs give back the bytes if and only if the text is shorter than 2^31. */
  lemma {:induction false} RoundTripExactly(b: seq<Byte>)
    ensures Decoded(Encode(b)) == Some(b) <==> |Encode(b)| < INT_LIMIT
  {
    var text := Encode(b);
    var count := IntOf(|text|);
    DecodeEncode(b);
    assert Prefix(text) == text;
    if count == |text| {
      assert text[..count] == text;
    } else if count >= 0 {
      assert count <= |text| - 0x1_0000_0000;
      StartDecodesShorter(b, count);
    }
  }

  /** Much less of a text than was encoded gives fewer bytes. */
  lemma {:induction false} StartDecodesShorter(b: seq<Byte>, n: nat)
    requires n + 3 <= |Encode(b)|
    ensures |Decode(Prefix(Encode(b)[..n]))| < |b|
  {
    DecodedLength(Prefix(Encode(b)[..n]));
    EncodedLength(b);
  }

  /** Test vectors of section 10 of RFC 4648, and one for the last two characters. */
  lemma {:induction false} TestVectors()
    ensures Encode(['f' as int]) == "Zg" && Encode(['f' as int, 'o' as int]) == "Zm8"
    ensures Encode(['f' as int, 'o' as int, 'o' as int]) == "Zm9v"
    ensures Encode([0xFB, 0xEF, 0xFF]) == "--__"
  {
    EncodeOne('f' as int);
    EncodeTwo('f' as int, 'o' as int);
    ThreeVector('f' as int, 'o' as int, 'o' as int, 25, 38, 61, 47);
    ThreeVector(0xFB, 0xEF, 0xFF, 62, 62, 63, 63);
  }

  lemma {:induction false} ThreeVector(a: Byte, b: Byte, c: Byte, v: Digit, w: Digit, x: Digit, y: Digit)
    requires v == Digit0(a) && w == Digit1(a, b) && x == Digit2(b, c) && y == Digit3(c)
    ensures Encode([a, b, c]) == [CharOf(v), CharOf(w), CharOf(x), CharOf(y)]
  {
    EncodeThree(a, b, c);
  }

  /** Only alphabet characters, no stray last digit, and left-over bits that are zero. */
  predicate Canonical(s: string) {
    && AllBase64(s) && |s| % 4 != 1
    && (|s| % 4 == 2 ==> ValueOf(s[|s| - 1]) % 16 == 0)
    && (|s| % 4 == 3 ==> ValueOf(s[|s| - 1]) % 4 == 0)
  }

  lemma {:induction false} LastTwo(s: string)
    requires AllBase64(s) && |s| == 2
    ensures Encode(Decode(s)) == s <==> ValueOf(s[1]) % 16 == 0
  {
    Powers();
    var x := DigitsNumber(s);
    LastDigit(s);
    NumberOfBytes(x / 16, 1);
    TailKept(s, x / 16 * 16);
  }

  lemma {:induction false} LastThree(s: string)
    requires AllBase64(s) && |s| == 3
    ensures Encode(Decode(s)) == s <==> ValueOf(s[2]) % 4 == 0
  {
    Powers();
    var x := DigitsNumber(s);
    LastDigit(s);
    NumberOfBytes(x / 4, 2);
    TailKept(s, x / 4 * 4);
  }

  /** Dropping the low bits of the last digit leaves the number the same only if they are zero. */
  lemma {:induction false} LastDigit(s: string)
    requires AllBase64(s) && |s| > 0
    ensures var x, v := DigitsNumber(s), ValueOf(s[|s| - 1]);
            && x < Power(64, |s|)
            && (x / 16 * 16 == x <==> v % 16 == 0)
            && (x / 4 * 4 == x <==> v % 4 == 0)
  {
    DigitsOfNumber(s);
    LowBits(DigitsNumber(s[..|s| - 1]), ValueOf(s[|s| - 1]));
  }

  lemma {:induction false} LowBits(high: nat, low: nat)
    ensures var x := high * 64 + low;
            (x / 16 * 16 == x <==> low % 16 == 0) && (x / 4 * 4 == x <==> low % 4 == 0)
  {
    Low4Bits(4 * high, low);
    Low2Bits(16 * high, low);
  }

  lemma {:induction false} Low4Bits(high: nat, low: nat)
    ensures (16 * high + low) / 16 * 16 == 16 * high + low <==> low % 16 == 0
  {
  }

  lemma {:induction false} Low2Bits(high: nat, low: nat)
    ensures (4 * high + low) / 4 * 4 == 4 * high + low <==> low % 4 == 0
  {
  }

  lemma {:induction false} FirstGroup(s: string)
    requires AllBase64(s) && |s| >= 4
    ensures Encode(Decode(s)) == s[..4] + Encode(Decode(s[4..]))
  {
    Powers();
    var b, x := Decode(s), DigitsNumber(s[..4]);
    DigitsOfNumber(s[..4]);
    NumberOfBytes(x, 3);
    assert b[..3] == Bytes(x, 3) && b[3..] == Decode(s[4..]);
  }

  lemma {:induction false} CanonicalRest(s: string)
    requires AllBase64(s) && |s| >= 4
    ensures Canonical(s) <==> Canonical(s[4..])
  {
    assert |s[4..]| % 4 == |s| % 4;
    assert |s| > 4 ==> s[4..][|s| - 5] == s[|s| - 1];
  }

  lemma {:induction false} SameRest(p: string, x: string, y: string)
    ensures p + x == p + y <==> x == y
  {
    if p + x == p + y {
      assert (p + x)[|p|..] == x && (p + y)[|p|..] == y;
    }
  }

  lemma {:induction false} EncodeDecodePrefix(s: string)
    requires AllBase64(s)
    ensures Encode(Decode(s)) == s <==> Canonical(s)
  {
    if |s| == 2 {
      LastTwo(s);
    } else if |s| == 3 {
      LastThree(s);
    } else if |s| >= 4 {
      EncodeDecodePrefix(s[4..]);
      EncodeDecodeGroup(s);
    }
  }

  lemma {:induction false} EncodeDecodeGroup(s: string)
    requires AllBase64(s) && |s| >= 4
    ensures Encode(Decode(s)) == s <==> Encode(Decode(s[4..])) == s[4..]
    ensures Canonical(s) <==> Canonical(s[4..])
  {
    FirstGroup(s);
    CanonicalRest(s);
    SameRest(s[..4], s[4..], Encode(Decode(s[4..])));
    assert s == s[..4] + s[4..];
  }

  /** The digits of a number are those of `s` only if it is the number of `s`. */
  lemma {:induction false} TailKept(s: string, x: nat)
    requires AllBase64(s) && x < Power(64, |s|)
    ensures Digits(x, |s|) == s <==> x == DigitsNumber(s)
  {
    DigitsOfNumber(s);
    NumberOfDigits(x, |s|);
  }

  /** Encoding a decoding gives back the string exactly when it is canonical. */
  lemma {:induction false} EncodeDecode(s: string)
    ensures Encode(Decode(Prefix(s))) == s <==> Canonical(s)
  {
    var p := Prefix(s);
    EncodeDecodePrefix(p);
    if p != s {
      assert !AllBase64(s);
      EncodesToAlphabet(Decode(p));
    }
  }

  // ---------- The loops ----------

  /** The shifts and masks of the encoder, digit by digit. */
  function Digit0(a: Byte): Digit { a / 4 }
  function Digit1(a: Byte, b: Byte): Digit { a % 4 * 16 + b / 16 }
  function Digit2(b: Byte, c: Byte): Digit { b % 16 * 4 + c / 64 }
  function Digit3(c: Byte): Digit { c % 64 }

  lemma {:induction false} DigitsOfGroup(a: Byte, b: Byte, c: Byte)
    ensures Digits(BytesNumber([a, b, c]), 4)
         == [CharOf(Digit0(a)), CharOf(Digit1(a, b)), CharOf(Digit2(b, c)), CharOf(Digit3(c))]
    ensures Digits(BytesNumber([a]) * 16, 2) == [CharOf(Digit0(a)), CharOf(Digit1(a, 0))]
    ensures Digits(BytesNumber([a, b]) * 4, 3) == [CharOf(Digit0(a)), CharOf(Digit1(a, b)), CharOf(Digit2(b, 0))]
  {
    NumberOfThree(a, b, c);
    assert Digits(BytesNumber([a, b, c]), 4)
        == [CharOf(Digit0(a)), CharOf(Digit1(a, b)), CharOf(Digit2(b, c)), CharOf(Digit3(c))] by {
      ThreeBytes(a, b, c);
    }
    assert Digits(BytesNumber([a, b]) * 4, 3) == [CharOf(Digit0(a)), CharOf(Digit1(a, b)), CharOf(Digit2(b, 0))] by {
      TwoBytes(a, b);
    }
    OneByte(a);
  }

  lemma {:induction false} NumberOfThree(a: Byte, b: Byte, c: Byte)
    ensures BytesNumber([a]) == a
    ensures BytesNumber([a, b]) == BytesNumber([a]) * 256 + b
    ensures BytesNumber([a, b, c]) == BytesNumber([a, b]) * 256 + c
  {
    assert [a, b, c][..2] == [a, b] && [a, b][..1] == [a] && [a][..0] == [];
  }

  lemma {:induction false} ThreeBytes(a: nat, b: nat, c: nat)
    requires a < 256 && b < 256 && c < 256
    ensures Digits((a * 256 + b) * 256 + c, 4)
         == [CharOf(a / 4), CharOf(a % 4 * 16 + b / 16), CharOf(b % 16 * 4 + c / 64), CharOf(c % 64)]
  {
    ThreeAsDigits(a, b, c);
    MoreDigits(0, a / 4, 0);
    MoreDigits(a / 4, a % 4 * 16 + b / 16, 1);
    MoreDigits(64 * (a / 4) + (a % 4 * 16 + b / 16), b % 16 * 4 + c / 64, 2);
    MoreDigits(64 * (64 * (a / 4) + (a % 4 * 16 + b / 16)) + (b % 16 * 4 + c / 64), c % 64, 3);
  }

  lemma {:induction false} ThreeAsDigits(a: nat, b: nat, c: nat)
    ensures (a * 256 + b) * 256 + c == 64 * (64 * (64 * (a / 4) + (a % 4 * 16 + b / 16)) + (b % 16 * 4 + c / 64)) + c % 64
  {
  }

  lemma {:induction false} TwoBytes(a: nat, b: nat)
    requires a < 256 && b < 256
    ensures Digits((a * 256 + b) * 4, 3) == [CharOf(a / 4), CharOf(a % 4 * 16 + b / 16), CharOf(b % 16 * 4)]
  {
    assert (a * 256 + b) * 4 == 64 * (64 * (a / 4) + (a % 4 * 16 + b / 16)) + b % 16 * 4;
    MoreDigits(0, a / 4, 0);
    MoreDigits(a / 4, a % 4 * 16 + b / 16, 1);
    MoreDigits(64 * (a / 4) + (a % 4 * 16 + b / 16), b % 16 * 4, 2);
  }

  lemma {:induction false} OneByte(a: nat)
    requires a < 256
    ensures Digits(a * 16, 2) == [CharOf(a / 4), CharOf(a % 4 * 16)]
  {
    assert a * 16 == 64 * (a / 4) + a % 4 * 16;
    MoreDigits(0, a / 4, 0);
    MoreDigits(a / 4, a % 4 * 16, 1);
  }

  lemma {:induction false} MoreDigits(x: nat, d: nat, n: nat)
    requires d < 64
    ensures Digits(64 * x + d, n + 1) == Digits(x, n) + [CharOf(d)]
  {
    assert (64 * x + d) / 64 == x && (64 * x + d) % 64 == d;
  }

  /** The shifts and masks of the decoder, truncated to a byte; values may be 255. */
  function Byte0(v: Byte, w: Byte): Byte { (v * 4 + w / 16 % 4) % 256 }
  function Byte1(v: Byte, w: Byte): Byte { (v % 16 * 16 + w / 4 % 16) % 256 }
  function Byte2(v: Byte, w: Byte): Byte { (v % 4 * 64 + w) % 256 }

  lemma {:induction false} MoreBytes(x: nat, d: nat, n: nat)
    requires d < 256
    ensures Bytes(256 * x + d, n + 1) == Bytes(x, n) + [d]
  {
    assert (256 * x + d) / 256 == x && (256 * x + d) % 256 == d;
  }

  lemma {:induction false} ThreeBytesOf(n: nat, a: nat, b: nat, c: nat)
    requires n == 256 * (256 * a + b) + c && a < 256 && b < 256 && c < 256
    ensures Bytes(n, 3) == [a, b, c]
  {
    MoreBytes(0, a, 0);
    MoreBytes(a, b, 1);
    MoreBytes(256 * a + b, c, 2);
  }

  lemma {:induction false} TwoBytesOf(n: nat, a: nat, b: nat)
    requires n == 256 * a + b && a < 256 && b < 256
    ensures Bytes(n, 2) == [a, b]
  {
    MoreBytes(0, a, 0);
    MoreBytes(a, b, 1);
  }

  lemma {:induction false} OneByteOf(a: nat)
    requires a < 256
    ensures Bytes(a, 1) == [a]
  {
    MoreBytes(0, a, 0);
  }

  lemma {:induction false} FourValuesAsBytes(v: nat, w: nat, x: nat, y: nat, a: nat, b: nat, c: nat)
    requires v < 64 && w < 64 && x < 64 && y < 64
    requires a == v * 4 + w / 16 && b == w % 16 * 16 + x / 4 && c == x % 4 * 64 + y
    ensures a < 256 && b < 256 && c < 256
    ensures (v * 64 + w) / 16 == 256 * 0 + a
    ensures ((v * 64 + w) * 64 + x) / 4 == 256 * a + b
    ensures ((v * 64 + w) * 64 + x) * 64 + y == 256 * (256 * a + b) + c
  {
  }

  lemma {:induction false} NextDigit(s: string, k: nat)
    requires AllBase64(s) && k < |s|
    ensures DigitsNumber(s[..k + 1]) == DigitsNumber(s[..k]) * 64 + ValueOf(s[k])
  {
    assert s[..k + 1][..k] == s[..k];
  }

  lemma {:induction false} NumberOfFour(s: string)
    requires AllBase64(s)
    ensures |s| == 2 ==> DigitsNumber(s) == ValueOf(s[0]) as int * 64 + ValueOf(s[1])
    ensures |s| == 3 ==> DigitsNumber(s) == (ValueOf(s[0]) as int * 64 + ValueOf(s[1])) * 64 + ValueOf(s[2])
    ensures |s| == 4 ==>
              DigitsNumber(s) == ((ValueOf(s[0]) as int * 64 + ValueOf(s[1])) * 64 + ValueOf(s[2])) * 64 + ValueOf(s[3])
  {
    assert s[..|s|] == s && s[..0] == "";
    if 2 <= |s| <= 4 {
      NextDigit(s, 0);
      NextDigit(s, 1);
      if |s| > 2 {
        NextDigit(s, 2);
      }
      if |s| > 3 {
        NextDigit(s, 3);
      }
    }
  }

  lemma {:induction false} NoOverflow(v: Byte, w: Byte)
    requires v < 64 && w < 64
    ensures Byte0(v, w) == v * 4 + w / 16 && Byte1(v, w) == v % 16 * 16 + w / 4 && Byte2(v, w) == v % 4 * 64 + w
  {
    Small(w / 16, 4);
    Small(w / 4, 16);
    Small(v * 4 + w / 16, 256);
    Small(v % 16 * 16 + w / 4, 256);
    Small(v % 4 * 64 + w, 256);
  }

  lemma {:induction false} Small(x: nat, m: nat)
    requires x < m
    ensures x % m == x
  {
  }

  lemma {:induction false} FullGroup(v: Byte, w: Byte, x: Byte, y: Byte, n: nat)
    requires v < 64 && w < 64 && x < 64 && y < 64 && n == ((v as int * 64 + w) * 64 + x) * 64 + y
    ensures Bytes(n, 3) == [Byte0(v, w), Byte1(w, x), Byte2(x, y)]
  {
    NoOverflow(v, w);
    NoOverflow(w, x);
    NoOverflow(x, y);
    var a, b, c: nat := v * 4 + w / 16, w % 16 * 16 + x / 4, x % 4 * 64 + y;
    FourValuesAsBytes(v, w, x, y, a, b, c);
    ThreeBytesOf(n, a, b, c);
  }

  lemma {:induction false} LastGroup(v: Byte, w: Byte, x: Byte)
    requires v < 64 && w < 64 && x < 64
    ensures Bytes((v as int * 64 + w) / 16, 1) == [Byte0(v, w)]
    ensures Bytes(((v as int * 64 + w) * 64 + x) / 4, 2) == [Byte0(v, w), Byte1(w, x)]
  {
    NoOverflow(v, w);
    NoOverflow(w, x);
    var a, b: nat := v * 4 + w / 16, w % 16 * 16 + x / 4;
    FourValuesAsBytes(v, w, x, 0, a, b, x % 4 * 64);
    OneByteOf((v as int * 64 + w) / 16);
    TwoBytesOf(((v as int * 64 + w) * 64 + x) / 4, a, b);
  }

  /** What one group of four values decodes to. */
  lemma {:induction false} BytesOfGroup(s: string, v: Byte, w: Byte, x: Byte, y: Byte)
    requires AllBase64(s) && 2 <= |s| <= 4
    requires v == ValueOf(s[0]) && w == ValueOf(s[1])
    requires x == (if |s| > 2 then ValueOf(s[2]) else 255) && y == (if |s| > 3 then ValueOf(s[3]) else 255)
    ensures |s| == 2 ==> Decode(s) == [Byte0(v, w)]
    ensures |s| == 3 ==> Decode(s) == [Byte0(v, w), Byte1(w, x)]
    ensures |s| == 4 ==> Decode(s) == [Byte0(v, w), Byte1(w, x), Byte2(x, y)]
  {
    if |s| == 4 {
      BytesOfFour(s);
    } else if |s| == 3 {
      BytesOfThree(s);
    } else {
      BytesOfTwo(s);
    }
  }

  lemma {:induction false} BytesOfFour(s: string)
    requires AllBase64(s) && |s| == 4
    ensures var v, w, x, y := ValueOf(s[0]), ValueOf(s[1]), ValueOf(s[2]), ValueOf(s[3]);
            Decode(s) == [Byte0(v, w), Byte1(w, x), Byte2(x, y)]
  {
    NumberOfFour(s);
    FullGroup(ValueOf(s[0]), ValueOf(s[1]), ValueOf(s[2]), ValueOf(s[3]), DigitsNumber(s));
    assert s[..4] == s && Decode(s[4..]) == [];
    assert Decode(s) == Bytes(DigitsNumber(s), 3);
  }

  lemma {:induction false} BytesOfThree(s: string)
    requires AllBase64(s) && |s| == 3
    ensures var v, w, x := ValueOf(s[0]), ValueOf(s[1]), ValueOf(s[2]);
            Decode(s) == [Byte0(v, w), Byte1(w, x)]
  {
    NumberOfFour(s);
    LastGroup(ValueOf(s[0]), ValueOf(s[1]), ValueOf(s[2]));
    assert Decode(s) == Bytes(DigitsNumber(s) / 4, 2);
  }

  lemma {:induction false} BytesOfTwo(s: string)
    requires AllBase64(s) && |s| == 2
    ensures Decode(s) == [Byte0(ValueOf(s[0]), ValueOf(s[1]))]
  {
    NumberOfFour(s);
    LastGroup(ValueOf(s[0]), ValueOf(s[1]), 0);
    assert Decode(s) == Bytes(DigitsNumber(s) / 16, 1);
  }

  lemma {:induction false} EncodeLong(b: seq<Byte>)
    requires |b| >= 3
    ensures Encode(b) == Digits(BytesNumber(b[..3]), 4) + Encode(b[3..])
  {
  }

  lemma {:induction false} WholeGroups(n: nat)
    ensures (n + 3) % 3 == n % 3 && (n + 4) % 4 == n % 4
  {
  }

  /** A whole number of groups encodes, and decodes, separately from what follows. */
  lemma {:induction false} EncodeAppend(x: seq<Byte>, y: seq<Byte>)
    requires |x| % 3 == 0
    ensures Encode(x + y) == Encode(x) + Encode(y)
  {
    if |x| > 0 {
      var group, rest := x[..3], x[3..];
      WholeGroups(|rest|);
      EncodeAppend(rest, y);
      EncodeLong(x);
      EncodeLong(x + y);
      assert (x + y)[..3] == group && (x + y)[3..] == rest + y;
      Associative(Digits(BytesNumber(group), 4), Encode(rest), Encode(y));
    } else {
      assert x + y == y && Encode(x) == "";
    }
  }

  lemma {:induction false} DecodeAppend(x: string, y: string)
    requires AllBase64(x) && AllBase64(y) && |x| % 4 == 0
    ensures AllBase64(x + y) && Decode(x + y) == Decode(x) + Decode(y)
  {
    if |x| > 0 {
      WholeGroups(|x[4..]|);
      DecodeAppend(x[4..], y);
      assert (x + y)[..4] == x[..4] && (x + y)[4..] == x[4..] + y;
    } else {
      assert x + y == y;
    }
  }

  method SplitThree(three: array<Byte>, four: array<Byte>)
    requires three.Length == 3 && four.Length == 4 && three != four
    modifies four
    ensures four[..] == [Digit0(three[0]), Digit1(three[0], three[1]), Digit2(three[1], three[2]), Digit3(three[2])]
  {
    four[0] := Digit0(three[0]);
    four[1] := Digit1(three[0], three[1]);
    four[2] := Digit2(three[1], three[2]);
    four[3] := Digit3(three[2]);
  }

  function CharsOf(values: seq<Byte>): string
    requires forall k | 0 <= k < |values| :: values[k] < 64
  {
    seq(|values|, k requires 0 <= k < |values| => CharOf(values[k]))
  }

  /** Appends the characters of the first `n` values. */
  method AppendChars(ret: string, four: array<Byte>, n: nat) returns (r: string)
    requires n <= four.Length && forall k | 0 <= k < four.Length :: four[k] < 64
    ensures r == ret + CharsOf(four[..n])
  {
    r := ret;
    var j := 0;
    while j < n
      invariant j <= n && r == ret + CharsOf(four[..j])
    {
      r := r + [CharOf(four[j])];
      assert CharsOf(four[..j + 1]) == CharsOf(four[..j]) + [CharOf(four[j])];
      j := j + 1;
    }
  }

  lemma {:induction false} EncodeOne(a: Byte)
    ensures Encode([a]) == CharsOf([Digit0(a), Digit1(a, 0)])
  {
    DigitsOfGroup(a, 0, 0);
  }

  lemma {:induction false} EncodeTwo(a: Byte, b: Byte)
    ensures Encode([a, b]) == CharsOf([Digit0(a), Digit1(a, b), Digit2(b, 0)])
  {
    DigitsOfGroup(a, b, 0);
  }

  lemma {:induction false} EncodeThree(a: Byte, b: Byte, c: Byte)
    ensures Encode([a, b, c]) == CharsOf([Digit0(a), Digit1(a, b), Digit2(b, c), Digit3(c)])
  {
    DigitsOfGroup(a, b, c);
    assert [a, b, c][..3] == [a, b, c] && [a, b, c][3..] == [];
  }

  lemma {:induction false} CharsOfGroup(three: seq<Byte>, n: nat)
    requires |three| == 3 && 1 <= n <= 3 && forall k | n <= k < 3 :: three[k] == 0
    ensures var four := [Digit0(three[0]), Digit1(three[0], three[1]), Digit2(three[1], three[2]), Digit3(three[2])];
            Encode(three[..n]) == CharsOf(four[..n + 1])
  {
    var four := [Digit0(three[0]), Digit1(three[0], three[1]), Digit2(three[1], three[2]), Digit3(three[2])];
    if n == 1 {
      EncodeOne(three[0]);
      assert three[..1] == [three[0]] && four[..2] == [Digit0(three[0]), Digit1(three[0], 0)];
    } else if n == 2 {
      EncodeTwo(three[0], three[1]);
      assert three[..2] == [three[0], three[1]];
      assert four[..3] == [Digit0(three[0]), Digit1(three[0], three[1]), Digit2(three[1], 0)];
    } else {
      EncodeThree(three[0], three[1], three[2]);
      assert three[..3] == [three[0], three[1], three[2]] && four[..4] == four;
    }
  }

  /** Encodes one group of `n` bytes, zeros after them. */
  method EncodeGroup(ret: string, three: array<Byte>, four: array<Byte>, n: nat) returns (r: string)
    requires three.Length == 3 && four.Length == 4 && three != four && 1 <= n <= 3
    requires forall k | n <= k < 3 :: three[k] == 0
    modifies four
    ensures r == ret + Encode(three[..n])
  {
    SplitThree(three, four);
    CharsOfGroup(three[..], n);
    assert three[..n] == three[..][..n] && four[..n + 1] == four[..][..n + 1];
    r := AppendChars(ret, four, n + 1);
  }

  /** Fills the group up with zeros. */
  method Pad(three: array<Byte>, i: nat)
    requires i <= three.Length == 3
    modifies three
    ensures three[..i] == old(three[..i]) && forall k | i <= k < 3 :: three[k] == 0
  {
    var j := i;
    while j < 3
      invariant i <= j <= 3 && three[..i] == old(three[..i]) && forall k | i <= k < j :: three[k] == 0
    {
      three[j] := 0;
      j := j + 1;
    }
  }

  /** Takes one more byte, and encodes the group when it is full. */
  method EncodeByte(ret: string, three: array<Byte>, four: array<Byte>, i: nat, x: Byte,
                    ghost done: seq<Byte>, ghost group: seq<Byte>)
      returns (r: string, next: nat, ghost done': seq<Byte>, ghost group': seq<Byte>)
    requires three.Length == 3 && four.Length == 4 && three != four && i < 3
    requires three[..i] == group && |done| % 3 == 0 && ret == Encode(done)
    modifies three, four
    ensures next < 3 && three[..next] == group' && |done'| % 3 == 0 && r == Encode(done')
    ensures done' + group' == done + group + [x]
  {
    Put(three, i, x);
    r, next, done', group' := ret, i + 1, done, group + [x];
    Associative(done, group, [x]);
    if next == 3 {
      EncodeAppend(done, group');
      assert three[..3] == group';
      r := EncodeGroup(ret, three, four, 3);
      WholeGroups(|done|);
      next, done', group' := 0, done + group', [];
      assert done' + [] == done';
    }
  }

  method Base64Encode(bytesToEncode: seq<Byte>) returns (ret: string)
    ensures ret == Encode(bytesToEncode)
  {
    ret := "";
    var three, four := new Byte[3], new Byte[4];
    var i, pos, inLen := 0, 0, |bytesToEncode|;
    ghost var done: seq<Byte>, group: seq<Byte> := [], [];
    while inLen > 0
      invariant 0 <= inLen && pos + inLen == |bytesToEncode| && 0 <= i < 3
      invariant three[..i] == group && done + group == bytesToEncode[..pos]
      invariant |done| % 3 == 0 && ret == Encode(done)
    {
      inLen := inLen - 1;
      ret, i, done, group := EncodeByte(ret, three, four, i, bytesToEncode[pos], done, group);
      pos := pos + 1;
    }
    EncodeAppend(done, group);
    assert bytesToEncode[..pos] == bytesToEncode;
    if i > 0 {
      Pad(three, i);
      ret := EncodeGroup(ret, three, four, i);
    }
  }

  lemma {:induction false} PrefixIs(s: string, n: nat)
    requires n <= |s| && AllBase64(s[..n]) && (n < |s| ==> !IsBase64(s[n]))
    ensures Prefix(s) == s[..n]
  {
    assert forall k | 0 <= k < n :: s[k] == s[..n][k];
  }

  /** Replaces the characters of a group by their values. */
  method LookUp(chars: array<char>, values: array<Byte>)
    requires chars.Length == values.Length == 4
    modifies values
    ensures forall k | 0 <= k < 4 :: values[k] == ValueOf(chars[k])
  {
    var j := 0;
    while j < 4
      invariant 0 <= j <= 4 && forall k | 0 <= k < j :: values[k] == ValueOf(chars[k])
    {
      values[j] := ValueOf(chars[j]);
      j := j + 1;
    }
  }

  /** Decodes one group and appends the first `n` bytes. */
  method DecodeGroup(ret: seq<Byte>, chars: array<char>, values: array<Byte>, n: nat) returns (r: seq<Byte>)
    requires chars.Length == values.Length == 4 && n <= 3 && AllBase64(chars[..n + 1])
    requires forall k | n < k < 4 :: chars[k] == '\0'
    modifies values
    ensures r == ret + Decode(chars[..n + 1])
  {
    LookUp(chars, values);
    var three := new Byte[3];
    three[0] := Byte0(values[0], values[1]);
    three[1] := Byte1(values[1], values[2]);
    three[2] := Byte2(values[2], values[3]);
    r := ret;
    var j := 0;
    while j < n
      invariant j <= n && r == ret + three[..j]
    {
      r := r + [three[j]];
      assert three[..j + 1] == three[..j] + [three[j]];
      j := j + 1;
    }
    if n > 0 {
      BytesOfGroup(chars[..n + 1], values[0], values[1], values[2], values[3]);
    }
    assert three[..n] == Decode(chars[..n + 1]);
  }

  method FillNul(chars: array<char>, i: nat)
    requires i <= chars.Length == 4
    modifies chars
    ensures chars[..i] == old(chars[..i]) && forall k | i <= k < 4 :: chars[k] == '\0'
  {
    var j := i;
    while j < 4
      invariant i <= j <= 4 && chars[..i] == old(chars[..i]) && forall k | i <= k < j :: chars[k] == '\0'
    {
      chars[j] := '\0';
      j := j + 1;
    }
  }

  /** Takes one more character, and decodes the group when it is full. */
  method DecodeChar(ret: seq<Byte>, chars: array<char>, values: array<Byte>, i: nat, c: char,
                    ghost done: string, ghost group: string)
      returns (r: seq<Byte>, next: nat, ghost done': string, ghost group': string)
    requires chars.Length == values.Length == 4 && i < 4 && IsBase64(c)
    requires chars[..i] == group && AllBase64(done) && AllBase64(group) && |done| % 4 == 0 && ret == Decode(done)
    modifies chars, values
    ensures next < 4 && chars[..next] == group' && AllBase64(done') && AllBase64(group')
    ensures |done'| % 4 == 0 && r == Decode(done') && done' + group' == done + group + [c]
  {
    Put(chars, i, c);
    r, next, done', group' := ret, i + 1, done, group + [c];
    Associative(done, group, [c]);
    if next == 4 {
      DecodeAppend(done, group');
      assert chars[..4] == group';
      r := DecodeGroup(ret, chars, values, 3);
      WholeGroups(|done|);
      next, done', group' := 0, done + group', "";
    }
  }

  /** Not `ok` stands for an overflow of the counter; the position never overflows before it. */
  method Base64Decode(encoded: string) returns (ret: seq<Byte>, ok: bool)
    ensures Decoded(encoded) == if ok then Some(ret) else None
  {
    ret := [];
    var chars, values := new char[4], new Byte[4];
    var i, pos, inLen := 0, 0, IntOf(|encoded|);
    ghost var done, group := "", "";
    while inLen != 0
      invariant 0 <= pos <= Reach(encoded) && inLen == IntOf(|encoded|) - pos >= -INT_LIMIT && 0 <= i < 4
      invariant chars[..i] == group && done + group == encoded[..pos]
      invariant AllBase64(done) && AllBase64(group) && |done| % 4 == 0 && ret == Decode(done)
      decreases |encoded| - pos
    {
      if inLen == -INT_LIMIT {
        AllInPrefix(encoded, pos);
        return [], false;
      }
      inLen := inLen - 1;
      if !IsBase64(CharAt(encoded, pos)) {
        break;
      }
      ret, i, done, group := DecodeChar(ret, chars, values, i, encoded[pos], done, group);
      pos := pos + 1;
    }
    DecodeAppend(done, group);
    PrefixReached(encoded, pos);
    ret := DecodeLast(ret, chars, values, i);
    ok := true;
  }

  /** How far the decoder may read. */
  function Reach(s: string): nat {
    if IntOf(|s|) >= 0 then IntOf(|s|) else |s|
  }

  /** A string ends in a NUL. */
  function CharAt(s: string, pos: nat): char
    requires pos <= |s|
  {
    if pos == |s| then '\0' else s[pos]
  }

  lemma {:induction false} AllInPrefix(s: string, n: nat)
    requires n <= |s| && AllBase64(s[..n])
    ensures n <= |Prefix(s)|
  {
    if |Prefix(s)| < n {
      assert s[..n][|Prefix(s)|] == s[|Prefix(s)|];
    }
  }

  /** Where the decoder stops, but for an overflow. */
  lemma {:induction false} PrefixReached(s: string, n: nat)
    requires n <= Reach(s) && AllBase64(s[..n])
    requires n == IntOf(|s|) || (IntOf(|s|) - n > -INT_LIMIT && !IsBase64(CharAt(s, n)))
    ensures Decoded(s) == Some(Decode(s[..n]))
  {
    var text := s[..Reach(s)];
    assert text[..n] == s[..n];
    PrefixIs(text, n);
    if IntOf(|s|) < 0 {
      assert text == s;
    }
  }

  /** Decodes what is left of the last group. */
  method DecodeLast(ret: seq<Byte>, chars: array<char>, values: array<Byte>, i: nat) returns (r: seq<Byte>)
    requires chars.Length == values.Length == 4 && i < 4 && AllBase64(chars[..i])
    modifies chars, values
    ensures r == ret + Decode(old(chars[..i]))
  {
    r := ret;
    if i > 0 {
      FillNul(chars, i);
      r := DecodeGroup(ret, chars, values, i - 1);
    }
  }
}