/** The path filter `remove_non_utf8` of src/datacrumbs/common/utils.h. */
module PathFilter {
  import opened Common

  predicate InAlphabet(b: Byte) {
    'A' as int <= b <= 'Z' as int || 'a' as int <= b <= 'z' as int || '0' as int <= b <= '9' as int
    || b == '_' as int || b == '-' as int || b == '.' as int || b == '/' as int
  }

  /** `(b & 0xC0) == 0x80`. */
  predicate Continues(b: Byte) { b / 0x40 == 2 }

  /** How many bytes at the start are kept as one character; none if the first byte is dropped. */
  function Accepted(s: seq<Byte>): (n: nat)
    requires |s| > 0
    ensures n <= |s|
  {
    if s[0] <= 0x7F then if InAlphabet(s[0]) then 1 else 0
    else if s[0] / 0x20 == 6 then if |s| > 1 && Continues(s[1]) then 2 else 0
    else if s[0] / 0x10 == 14 then if |s| > 2 && Continues(s[1]) && Continues(s[2]) then 3 else 0
    else if s[0] / 8 == 30 then if |s| > 3 && Continues(s[1]) && Continues(s[2]) && Continues(s[3]) then 4 else 0
    else 0
  }

  function Filter(s: seq<Byte>): seq<Byte> {
    if |s| == 0 then []
    else if Accepted(s) > 0 then s[..Accepted(s)] + Filter(s[Accepted(s)..])
    else Filter(s[1..])
  }

  /** How many bytes at position `i` are kept as one character. */
  method Scan(input: seq<Byte>, i: nat) returns (n: nat)
    requires i < |input|
    ensures n == Accepted(input[i..])
  {
    var byte := input[i];
    n := 0;
    if byte <= 0x7F {
      if InAlphabet(byte) {
        n := 1;
      }
    } else if byte / 0x20 == 6 {
      if i + 1 < |input| && Continues(input[i + 1]) {
        n := 2;
      }
    } else if byte / 0x10 == 14 {
      if i + 2 < |input| && Continues(input[i + 1]) && Continues(input[i + 2]) {
        n := 3;
      }
    } else if byte / 8 == 30 {
      if i + 3 < |input| && Continues(input[i + 1]) && Continues(input[i + 2]) && Continues(input[i + 3]) {
        n := 4;
      }
    }
  }

  lemma {:induction false} OneMoreCharacter(input: seq<Byte>, i: nat, n: nat)
    requires i < |input| && n == Accepted(input[i..])
    ensures Filter(input[i..]) == if n > 0 then input[i..i + n] + Filter(input[i + n..]) else Filter(input[i + 1..])
  {
    var rest := input[i..];
    assert rest[1..] == input[i + 1..] && rest[..n] == input[i..i + n] && rest[n..] == input[i + n..];
  }

  /** The loop of `remove_non_utf8`. */
  method RemoveNonUtf8(input: seq<Byte>) returns (result: seq<Byte>)
    ensures result == Filter(input)
  {
    result := [];
    var i := 0;
    ghost var todo := Filter(input);
    assert input[0..] == input;
    while i < |input|
      invariant 0 <= i <= |input| && todo == Filter(input[i..]) && Splits(Filter(input), result, todo)
    {
      var n := Scan(input, i);
      OneMoreCharacter(input, i, n);
      if n > 0 {
        ghost var rest := Filter(input[i + n..]);
        MoveOver(Filter(input), result, input[i..i + n], rest);
        result := result + input[i..i + n];
        i, todo := i + n, rest;
      } else {
        i := i + 1;
      }
    }
  }

  predicate Splits(all: seq<Byte>, front: seq<Byte>, back: seq<Byte>) { front + back == all }

  lemma {:induction false} MoveOver(all: seq<Byte>, front: seq<Byte>, piece: seq<Byte>, back: seq<Byte>)
    requires Splits(all, front, piece + back)
    ensures Splits(all, front + piece, back)
  {
    assert front + (piece + back) == (front + piece) + back;
  }

  // ---------- Accepted text ----------

  /** A sequence of characters the filter keeps. */
  predicate Clean(s: seq<Byte>) {
    |s| == 0 || (Accepted(s) > 0 && Clean(s[Accepted(s)..]))
  }

  /** The ASCII characters of paths. */
  const PATH_CHARACTERS := "ABCDEFGHIJKLMNOPQRSTUVWXYZ" + "abcdefghijklmnopqrstuvwxyz" + "0123456789" + "_-./"

  lemma {:induction false} AlphabetExact(b: Byte)
    ensures InAlphabet(b) <==> b as char in PATH_CHARACTERS
  {
    UpperCase(b as char);
    LowerCase(b as char);
    assert b as char in "0123456789" <==> '0' as int <= b <= '9' as int;
  }

  lemma {:induction false} UpperCase(c: char)
    ensures c in "ABCDEFGHIJKLMNOPQRSTUVWXYZ" <==> 'A' <= c <= 'Z'
  {
  }

  lemma {:induction false} LowerCase(c: char)
    ensures c in "abcdefghijklmnopqrstuvwxyz" <==> 'a' <= c <= 'z'
  {
  }

  /** One character: an ASCII character of paths, or a lead byte with as many continuation bytes as its
      high bits announce. */
  predicate Character(x: seq<Byte>) {
    || (|x| == 1 && x[0] < 0x80 && x[0] as char in PATH_CHARACTERS)
    || (|x| == 2 && 0xC0 <= x[0] < 0xE0 && 0x80 <= x[1] < 0xC0)
    || (|x| == 3 && 0xE0 <= x[0] < 0xF0 && 0x80 <= x[1] < 0xC0 && 0x80 <= x[2] < 0xC0)
    || (|x| == 4 && 0xF0 <= x[0] < 0xF8 && 0x80 <= x[1] < 0xC0 && 0x80 <= x[2] < 0xC0 && 0x80 <= x[3] < 0xC0)
  }

  /** What the filter takes from the front is the one character there; if there is none, it drops a byte. */
  lemma {:induction false} AcceptedExact(s: seq<Byte>, n: nat)
    requires 0 < n <= |s|
    ensures Character(s[..n]) <==> Accepted(s) == n
    ensures Character(s[..n]) ==> Filter(s) == s[..n] + Filter(s[n..])
    ensures (forall m | 0 < m <= |s| :: !Character(s[..m])) ==> Filter(s) == Filter(s[1..])
  {
    AlphabetExact(s[0]);
    if Accepted(s) > 0 {
      var m := Accepted(s);
      assert s[..m][0] == s[0] && Character(s[..m]);
    }
  }

  /** Text of the path's ASCII characters passes unchanged. */
  lemma {:induction false} PathsPass(s: seq<Byte>)
    requires forall k | 0 <= k < |s| :: s[k] < 0x80 && s[k] as char in PATH_CHARACTERS
    ensures Filter(s) == s
  {
    if |s| == 0 {
    } else {
      PathsPass(s[1..]);
      AcceptedExact(s, 1);
      assert s == s[..1] + s[1..];
    }
  }

  /** A single ASCII character passes if and only if it is one of them. */
  lemma {:induction false} OneCharacter(b: Byte)
    requires b < 0x80
    ensures Filter([b]) == [b] <==> b as char in PATH_CHARACTERS
  {
    AlphabetExact(b);
    assert [b][1..] == [] && [b][..1] == [b];
  }

  lemma {:induction false} AcceptedPrefix(x: seq<Byte>, y: seq<Byte>)
    requires |x| > 0 && Accepted(x) > 0
    ensures Accepted(x + y) == Accepted(x)
    ensures (x + y)[..Accepted(x)] == x[..Accepted(x)] && (x + y)[Accepted(x)..] == x[Accepted(x)..] + y
  {
  }

  /** Accepted text passes unchanged, whatever follows it. */
  lemma {:induction false} FilterAppend(x: seq<Byte>, y: seq<Byte>)
    requires Clean(x)
    ensures Filter(x + y) == x + Filter(y)
  {
    if |x| > 0 {
      AcceptedPrefix(x, y);
      FilterAppend(x[Accepted(x)..], y);
    } else {
      assert x + y == y;
    }
  }

  lemma {:induction false} FilterIsClean(s: seq<Byte>)
    ensures Clean(Filter(s)) && |Filter(s)| <= |s|
  {
    if |s| == 0 {
    } else {
      if Accepted(s) > 0 {
        FilterIsClean(s[Accepted(s)..]);
        AcceptedAlone(s);
        AcceptedPrefix(s[..Accepted(s)], Filter(s[Accepted(s)..]));
      } else {
        FilterIsClean(s[1..]);
      }
    }
  }

  lemma {:induction false} AcceptedAlone(s: seq<Byte>)
    requires |s| > 0 && Accepted(s) > 0
    ensures Accepted(s[..Accepted(s)]) == Accepted(s)
    ensures s[..Accepted(s)][Accepted(s)..] == []
  {
  }

  /** The filter keeps a text exactly when it is accepted, and filtering twice is filtering once. */
  lemma {:induction false} FixedPoints(s: seq<Byte>)
    ensures Filter(s) == s <==> Clean(s)
    ensures Filter(Filter(s)) == Filter(s)
  {
    FilterIsClean(s);
    FilterAppend(Filter(s), []);
    assert Filter(s) + Filter([]) == Filter(s) == Filter(s) + [];
    if Clean(s) {
      FilterAppend(s, []);
      assert s + [] == s && s + Filter([]) == s;
    }
  }

  /** What is kept in front stays in front: filtering is compositional over kept prefixes. */
  lemma {:induction false} KeptPrefix(x: seq<Byte>, y: seq<Byte>)
    requires Filter(x) == x
    ensures Filter(x + y) == x + Filter(y)
  {
    FixedPoints(x);
    FilterAppend(x, y);
  }

  // ---------- Inside a JSON string ----------

  /** Section 7 of RFC 8259: these have to be escaped. */
  predicate NeedsEscape(b: Byte) { b < 0x20 || b == '"' as int || b == '\\' as int }

  /** Escapes as a JSON writer would: a backslash and a letter, or the six characters of `\u00XX`. */
  function Escape(s: seq<Byte>): seq<Byte> {
    if |s| == 0 then []
    else (if !NeedsEscape(s[0]) then [s[0]]
          else if s[0] >= 0x20 then ['\\' as int, s[0]]
          else ['\\' as int, 'u' as int, '0' as int, '0' as int, Hex(s[0] / 16), Hex(s[0] % 16)]) + Escape(s[1..])
  }

  function Hex(d: nat): Byte
    requires d < 16
  {
    if d < 10 then '0' as int + d else 'A' as int + d - 10
  }

  lemma {:induction false} CleanBytes(s: seq<Byte>, k: nat)
    requires Clean(s) && k < |s|
    ensures s[k] <= 0x7F ==> InAlphabet(s[k])
  {
    if k >= Accepted(s) {
      CleanBytes(s[Accepted(s)..], k - Accepted(s));
    }
  }

  lemma {:induction false} NothingToEscape(s: seq<Byte>)
    requires forall k | 0 <= k < |s| :: !NeedsEscape(s[k])
    ensures Escape(s) == s
  {
    if |s| == 0 {
    } else {
      NothingToEscape(s[1..]);
    }
  }

  /** Embedding a filtered path without escaping is embedding it correctly, and adds no line break. */
  lemma {:induction false} SafeInJson(s: seq<Byte>)
    ensures Escape(Filter(s)) == Filter(s)
    ensures forall k | 0 <= k < |Filter(s)| :: Filter(s)[k] <= 0x7F ==> InAlphabet(Filter(s)[k])
    ensures forall k | 0 <= k < |Filter(s)| :: Filter(s)[k] >= 0x20 && Filter(s)[k] != '"' as int && Filter(s)[k] != '\\' as int
    ensures '\n' as int !in Filter(s)
  {
    FilterIsClean(s);
    forall k | 0 <= k < |Filter(s)| ensures Filter(s)[k] <= 0x7F ==> InAlphabet(Filter(s)[k]) {
      CleanBytes(Filter(s), k);
    }
    NothingToEscape(Filter(s));
  }

  // ---------- UTF-8 ----------

  /** The length of the well-formed UTF-8 character at the start (section 4 of RFC 3629), or 0. */
  function Utf8Char(s: seq<Byte>): (n: nat)
    requires |s| > 0
    ensures n <= |s|
  {
    if s[0] <= 0x7F then 1
    else if 0xC2 <= s[0] <= 0xDF then if |s| > 1 && Continues(s[1]) then 2 else 0
    else if 0xE0 <= s[0] <= 0xEF then
      if |s| > 2 && Continues(s[1]) && Continues(s[2])
         && (s[0] == 0xE0 ==> s[1] >= 0xA0) && (s[0] == 0xED ==> s[1] <= 0x9F) then 3 else 0
    else if 0xF0 <= s[0] <= 0xF4 then
      if |s| > 3 && Continues(s[1]) && Continues(s[2]) && Continues(s[3])
         && (s[0] == 0xF0 ==> s[1] >= 0x90) && (s[0] == 0xF4 ==> s[1] <= 0x8F) then 4 else 0
    else 0
  }

  /** A code point that is no surrogate. */
  type Scalar = c: nat | c < 0xD800 || 0xE000 <= c < 0x11_0000

  /** Section 3 of RFC 3629: the bits of the code point, most significant first, six to a byte behind the
      first, in as few bytes as hold them. */
  function EncodeScalar(c: Scalar): seq<Byte> {
    if c < 0x80 then [c]
    else if c < 0x800 then [0xC0 + c / 0x40, 0x80 + c % 0x40]
    else if c < 0x1_0000 then [0xE0 + c / 0x1000, 0x80 + c / 0x40 % 0x40, 0x80 + c % 0x40]
    else [0xF0 + c / 0x4_0000, 0x80 + c / 0x1000 % 0x40, 0x80 + c / 0x40 % 0x40, 0x80 + c % 0x40]
  }

  /** The table of well-formed characters is exact: each is the encoding of a scalar value, */
  lemma {:induction false} Utf8CharDecodes(s: seq<Byte>) returns (c: Scalar)
    requires |s| > 0 && Utf8Char(s) > 0
    ensures s[..Utf8Char(s)] == EncodeScalar(c)
  {
    match Utf8Char(s)
    case 1 => c := s[0];
    case 2 => c := TwoDecode(s[0] - 0xC0, s[1] - 0x80);
    case 3 => c := ThreeDecode(s[0] - 0xE0, s[1] - 0x80, s[2] - 0x80);
    case _ => c := FourDecode(s[0] - 0xF0, s[1] - 0x80, s[2] - 0x80, s[3] - 0x80);
  }

  lemma {:induction false} TwoDecode(a: nat, b: nat) returns (c: Scalar)
    requires 2 <= a < 0x20 && b < 0x40
    ensures EncodeScalar(c) == [0xC0 + a, 0x80 + b]
  {
    c := a * 0x40 + b;
  }

  lemma {:induction false} ThreeDecode(a: nat, b: nat, d: nat) returns (c: Scalar)
    requires a < 0x10 && b < 0x40 && d < 0x40 && (a == 0 ==> b >= 0x20) && (a == 0xD ==> b < 0x20)
    ensures EncodeScalar(c) == [0xE0 + a, 0x80 + b, 0x80 + d]
  {
    c := a * 0x1000 + b * 0x40 + d;
    assert c / 0x40 == a * 0x40 + b && c % 0x40 == d;
    assert c / 0x1000 == a;
  }

  lemma {:induction false} FourDecode(a: nat, b: nat, d: nat, e: nat) returns (c: Scalar)
    requires a <= 4 && b < 0x40 && d < 0x40 && e < 0x40 && (a == 0 ==> b >= 0x10) && (a == 4 ==> b < 0x10)
    ensures EncodeScalar(c) == [0xF0 + a, 0x80 + b, 0x80 + d, 0x80 + e]
  {
    c := a * 0x4_0000 + b * 0x1000 + d * 0x40 + e;
    assert c / 0x40 == a * 0x1000 + b * 0x40 + d && c % 0x40 == e;
    assert c / 0x1000 == a * 0x40 + b && c / 0x4_0000 == a;
  }

  /** and every encoding is one. */
  lemma {:induction false} EncodedIsUtf8Char(c: Scalar, rest: seq<Byte>)
    ensures Utf8Char(EncodeScalar(c) + rest) == |EncodeScalar(c)|
  {
    var x := EncodeScalar(c);
    ScalarBytes(c);
    assert forall k | 0 <= k < |x| :: (x + rest)[k] == x[k];
  }

  lemma {:induction false} ScalarBytes(c: Scalar)
    ensures Utf8Char(EncodeScalar(c)) == |EncodeScalar(c)|
  {
    if c < 0x800 {
    } else if c < 0x1_0000 {
      assert c / 0x1000 == 0 ==> c / 0x40 % 0x40 >= 0x20;
      assert c / 0x1000 == 0xD ==> c / 0x40 % 0x40 < 0x20;
    } else {
      assert c / 0x4_0000 == 0 ==> c / 0x1000 % 0x40 >= 0x10;
      assert c / 0x4_0000 == 4 ==> c / 0x1000 % 0x40 < 0x10;
    }
  }

  predicate WellFormed(s: seq<Byte>) {
    |s| == 0 || (Utf8Char(s) > 0 && WellFormed(s[Utf8Char(s)..]))
  }

  /** The text without the ASCII characters a path may not have. */
  function WithoutForeign(s: seq<Byte>): seq<Byte> {
    if |s| == 0 then []
    else if s[0] <= 0x7F && !InAlphabet(s[0]) then WithoutForeign(s[1..])
    else [s[0]] + WithoutForeign(s[1..])
  }

  lemma {:induction false} NonAsciiKept(s: seq<Byte>, n: nat)
    requires n <= |s| && forall k | 0 <= k < n :: s[k] > 0x7F
    ensures WithoutForeign(s) == s[..n] + WithoutForeign(s[n..])
  {
    if n > 0 {
      var tail := s[1..];
      NonAsciiKept(tail, n - 1);
      assert tail[n - 1..] == s[n..] && s[..n] == [s[0]] + tail[..n - 1];
      assert WithoutForeign(s) == [s[0]] + WithoutForeign(tail);
    } else {
      assert s[0..] == s;
    }
  }

  /** Of well-formed UTF-8 the filter drops nothing but foreign ASCII characters, and what it leaves is
      well-formed. */
  lemma {:induction false} WellFormedText(s: seq<Byte>)
    requires WellFormed(s)
    ensures Filter(s) == WithoutForeign(s) && WellFormed(Filter(s))
  {
    if |s| == 0 {
    } else {
      var n := Utf8Char(s);
      WellFormedText(s[n..]);
      KeptOrForeign(s);
      if s[0] > 0x7F || InAlphabet(s[0]) {
        CharacterKept(s, n);
        Utf8Prefix(s, Filter(s[n..]));
        assert Filter(s) == s[..n] + Filter(s[n..]);
      }
    }
  }

  lemma {:induction false} CharacterKept(s: seq<Byte>, n: nat)
    requires |s| > 0 && n == Utf8Char(s) > 0 && (s[0] > 0x7F || InAlphabet(s[0]))
    ensures WithoutForeign(s) == s[..n] + WithoutForeign(s[n..])
  {
    KeptOrForeign(s);
    if s[0] > 0x7F {
      NonAsciiKept(s, n);
    } else {
      assert n == 1 && s[..1] == [s[0]];
    }
  }

  /** The filter sees a well-formed character as one. */
  lemma {:induction false} KeptOrForeign(s: seq<Byte>)
    requires |s| > 0 && Utf8Char(s) > 0
    ensures if s[0] <= 0x7F && !InAlphabet(s[0]) then Accepted(s) == 0 && Utf8Char(s) == 1 else Accepted(s) == Utf8Char(s)
    ensures s[0] > 0x7F ==> forall k | 0 <= k < Utf8Char(s) :: s[k] > 0x7F
  {
  }

  lemma {:induction false} Utf8Prefix(s: seq<Byte>, y: seq<Byte>)
    requires |s| > 0 && Utf8Char(s) > 0
    ensures var x := s[..Utf8Char(s)]; Utf8Char(x + y) == |x| && (x + y)[|x|..] == y
  {
  }

  /** Reading the text as the filter does, every sequence with the shape of a character is one; bytes
      without that shape may be anything. */
  predicate KeepsOnlyUtf8(s: seq<Byte>) {
    |s| == 0
    || (if Accepted(s) > 0 then Utf8Char(s) > 0 && KeepsOnlyUtf8(s[Accepted(s)..]) else KeepsOnlyUtf8(s[1..]))
  }

  /** The filter only looks at the shape of a character, so overlong forms and surrogates pass: the
      output is well-formed UTF-8 exactly when the input has no such characters. */
  lemma {:induction false} OutputWellFormed(s: seq<Byte>)
    ensures WellFormed(Filter(s)) <==> KeepsOnlyUtf8(s)
  {
    if |s| == 0 {
    } else {
      if Accepted(s) > 0 {
        OutputWellFormed(s[Accepted(s)..]);
        KeptCharacter(s, Filter(s[Accepted(s)..]));
      } else {
        OutputWellFormed(s[1..]);
      }
    }
  }

  /** A kept character in front of `rest` is well-formed there exactly when it is in `s`. */
  lemma {:induction false} KeptCharacter(s: seq<Byte>, rest: seq<Byte>)
    requires |s| > 0 && Accepted(s) > 0
    ensures var x := s[..Accepted(s)];
            && Utf8Char(s) == Utf8Char(x + rest) && (Utf8Char(s) > 0 ==> Utf8Char(s) == |x|)
            && (x + rest)[|x|..] == rest
  {
  }

  lemma {:induction false} OverlongPasses()
    ensures var s: seq<Byte> := [0xC0, 0x80]; Filter(s) == s && !WellFormed(s)
    ensures var s: seq<Byte> := [0xED, 0xA0, 0x80]; Filter(s) == s && !WellFormed(s)
  {
    var s: seq<Byte>, t: seq<Byte> := [0xC0, 0x80], [0xED, 0xA0, 0x80];
    assert Accepted(s) == 2 && s[..2] == s && s[2..] == [];
    assert Accepted(t) == 3 && t[..3] == t && t[3..] == [];
  }
}
