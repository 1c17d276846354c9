/** The path hash of src/datacrumbs/server/bpf/common.h and the map that remembers it. */
module PathHash {
  import opened Common

  function Word(x: int): U32 { x % 0x1_0000_0000 }

  /** A `char` is signed. */
  function Signed(b: Byte): int { if b < 0x80 then b else b - 0x100 }

  const BUFFER_SIZE := 256
  const LONGEST := 128

  /** A buffer filled by the kernel's string copy, which returns the length read or a negative error;
      what lies beyond the copied text is arbitrary. */
  datatype Text = Text(bytes: seq<Byte>, len: int) {
    predicate Valid() { |bytes| == BUFFER_SIZE && -4096 < len <= BUFFER_SIZE }

    /** How many bytes are hashed: a negative length becomes a huge unsigned one. */
    function Hashed(): (n: nat)
      ensures n <= LONGEST
    {
      if len < 0 || len > LONGEST then LONGEST else len
    }
  }

  type Path = t: Text | t.Valid() witness Text(seq(BUFFER_SIZE, _ => 0), 0)

  function Pow33(n: nat): nat {
    if n == 0 then 1 else 33 * Pow33(n - 1)
  }

  /** The bytes as digits of a number in base 33, the first the most significant. */
  function Weighted(s: seq<Byte>): int {
    if |s| == 0 then 0 else Signed(s[0]) * Pow33(|s| - 1) + Weighted(s[1..])
  }

  /** The hash as one number: the hashed bytes after a leading 5381, in base 33, modulo 2^32. */
  function Hash(p: Path): U32 {
    HashFirst(p.bytes, p.Hashed())
  }

  function HashFirst(s: seq<Byte>, n: nat): U32
    requires n <= |s|
  {
    Word(5381 * Pow33(n) + Weighted(s[..n]))
  }

  lemma {:induction false} WeightedSnoc(s: seq<Byte>, b: Byte)
    ensures Weighted(s + [b]) == 33 * Weighted(s) + Signed(b)
  {
    if |s| > 0 {
      WeightedSnoc(s[1..], b);
      assert (s + [b])[1..] == s[1..] + [b];
      Shifted(Signed(s[0]), |s| - 1);
    } else {
      assert [b][1..] == [];
    }
  }

  lemma {:induction false} Shifted(x: int, n: nat)
    ensures x * Pow33(n + 1) == 33 * (x * Pow33(n))
  {
  }

  /** Shifting and adding in 32 bits is multiplying by 33 and adding, modulo 2^32. */
  lemma {:induction false} ShiftAdd(x: int, c: int)
    ensures Word(Word(Word(Word(x) * 32) + Word(x)) + c) == Word(33 * x + c)
  {
    var h, q := Word(x), x / 0x1_0000_0000;
    assert x == h + 0x1_0000_0000 * q;
    WordAbsorbs(h * 32, h);
    WordAbsorbs(33 * h, c);
    WordPeriod(33 * h + c, 33 * q);
    assert 33 * x + c == 33 * h + c + 0x1_0000_0000 * (33 * q);
  }

  lemma {:induction false} WordPeriod(x: int, k: int)
    ensures Word(x + 0x1_0000_0000 * k) == Word(x)
  {
  }

  lemma {:induction false} WordAbsorbs(x: int, y: int)
    ensures Word(Word(x) + y) == Word(x + y)
  {
    WordPeriod(x + y, -(x / 0x1_0000_0000));
  }

  lemma {:induction false} OneMoreByte(s: seq<Byte>, i: nat)
    requires i < |s|
    ensures HashFirst(s, i + 1) == Word(Word(Word(HashFirst(s, i) * 32) + HashFirst(s, i)) + Signed(s[i]))
  {
    ShiftAdd(5381 * Pow33(i) + Weighted(s[..i]), Signed(s[i]));
    OneMoreDigit(s, i);
  }

  lemma {:induction false} OneMoreDigit(s: seq<Byte>, i: nat)
    requires i < |s|
    ensures 5381 * Pow33(i + 1) + Weighted(s[..i + 1]) == 33 * (5381 * Pow33(i) + Weighted(s[..i])) + Signed(s[i])
  {
    WeightedSnoc(s[..i], s[i]);
    assert s[..i + 1] == s[..i] + [s[i]];
  }

  /** The loop of `hash_str`. */
  method HashStr(p: Path) returns (hash: U32)
    ensures hash == Hash(p)
  {
    hash := 5381;
    var i := 0;
    while i < LONGEST && !(0 <= p.len <= i)
      invariant 0 <= i <= p.Hashed()
      invariant hash == HashFirst(p.bytes, i)
    {
      OneMoreByte(p.bytes, i);
      hash := Word(Word(Word(hash * 32) + hash) + Signed(p.bytes[i]));
      i := i + 1;
    }
  }

  // ---------- What the hash depends on ----------

  /** The bytes that are hashed: at most 128, and 128 when the copy has failed. */
  function HashedBytes(p: Path): seq<Byte> {
    p.bytes[..if 0 <= p.len <= 128 then p.len else 128]
  }

  /** The hash of the literature: start from 5381, and for each byte multiply by 33 and add its value as
      a signed character. */
  function Djb2(s: seq<Byte>): int {
    if |s| == 0 then 5381
    else
      var last: int := s[|s| - 1];
      33 * Djb2(s[..|s| - 1]) + if last >= 128 then last - 256 else last
  }

  lemma {:induction false} HashIsDjb2(p: Path)
    ensures Hash(p) == Djb2(HashedBytes(p)) % 0x1_0000_0000
  {
    Djb2Weighted(HashedBytes(p));
  }

  lemma {:induction false} Djb2Weighted(s: seq<Byte>)
    ensures Djb2(s) == 5381 * Pow33(|s|) + Weighted(s)
  {
    if |s| == 0 {
    } else {
      var init, last := s[..|s| - 1], s[|s| - 1];
      Djb2Weighted(init);
      WeightedSnoc(init, last);
      assert s == init + [last];
      MorePow33(|init|);
    }
  }

  lemma {:induction false} MorePow33(n: nat)
    ensures 5381 * Pow33(n + 1) == 33 * (5381 * Pow33(n))
  {
  }

  /** One byte more or less, anywhere among those hashed, makes another hash. */
  lemma {:induction false} OneByteMatters(p: Path, q: Path, j: nat)
    requires |HashedBytes(p)| == |HashedBytes(q)| && j < |HashedBytes(p)|
    requires p.bytes[j] != q.bytes[j] && forall k | 0 <= k < |HashedBytes(p)| && k != j :: p.bytes[k] == q.bytes[k]
    ensures Hash(p) != Hash(q)
  {
    var s, t := HashedBytes(p), HashedBytes(q);
    assert forall k | 0 <= k < |s| :: s[k] == p.bytes[k] && t[k] == q.bytes[k];
    assert forall k | 0 <= k < |s| && k != j :: s[k] == t[k];
    SameAround(s, t, j);
    Djb2Apart(s, t, j);
    HashIsDjb2(p);
    HashIsDjb2(q);
    SameRemainder(Djb2(s), Djb2(t));
  }

  lemma {:induction false} SameAround(s: seq<Byte>, t: seq<Byte>, j: nat)
    requires j < |s| == |t| && forall k | 0 <= k < |s| && k != j :: s[k] == t[k]
    ensures s[..j] == t[..j] && s[j + 1..] == t[j + 1..]
  {
  }

  lemma {:induction false} SameRemainder(x: int, y: int)
    ensures x % 0x1_0000_0000 == y % 0x1_0000_0000 ==> (x - y) % 0x1_0000_0000 == 0
  {
    if x % 0x1_0000_0000 == y % 0x1_0000_0000 {
      assert x - y == (x / 0x1_0000_0000 - y / 0x1_0000_0000) * 0x1_0000_0000;
    }
  }

  /** What two texts differ by in one byte stays apart, also modulo 2^32. */
  lemma {:induction false} Djb2Apart(s: seq<Byte>, t: seq<Byte>, j: nat)
    requires j < |s| == |t| && s[..j] == t[..j] && s[j] != t[j] && s[j + 1..] == t[j + 1..]
    ensures (Djb2(s) - Djb2(t)) % 0x1_0000_0000 != 0
  {
    var n := |s| - 1;
    if j == n {
      assert s[..n] == t[..n];
    } else {
      assert s[..n][j + 1..] == s[j + 1..][..n - j - 1] == t[..n][j + 1..];
      assert s[..n][..j] == s[..j] == t[..n][..j] && s[n] == s[j + 1..][n - j - 1] == t[n];
      Djb2Apart(s[..n], t[..n], j);
      Odd33(Djb2(s[..n]) - Djb2(t[..n]));
    }
  }

  /** 1041204193 is the inverse of 33 modulo 2^32. */
  lemma {:induction false} Odd33(x: int)
    ensures 33 * x % 0x1_0000_0000 == 0 ==> x % 0x1_0000_0000 == 0
  {
    if 33 * x % 0x1_0000_0000 == 0 {
      var m := 33 * x / 0x1_0000_0000;
      assert 33 * x == m * 0x1_0000_0000;
      assert x == (1041204193 * m - 8 * x) * 0x1_0000_0000;
    }
  }

  // ---------- The memo ----------

  /** The map's key is as long as the text, but starts at the length field in front of it: the length
      in bits, then the text without its last four bytes. */
  datatype MemoKey = MemoKey(bits: U32, bytes: seq<Byte>)

  type Memo = map<MemoKey, U32>

  function Key(p: Path): MemoKey { MemoKey(Word(p.len * 8), p.bytes[..BUFFER_SIZE - 4]) }

  /** The key determines the hash, although it leaves out part of the text. */
  lemma {:induction false} KeyDeterminesHash(p: Path, q: Path)
    requires Key(p) == Key(q)
    ensures p.len == q.len && Hash(p) == Hash(q)
  {
    LengthOfBits(p.len, q.len);
    assert p.bytes[..p.Hashed()] == p.bytes[..BUFFER_SIZE - 4][..p.Hashed()];
    assert q.bytes[..q.Hashed()] == q.bytes[..BUFFER_SIZE - 4][..q.Hashed()];
  }

  lemma {:induction false} LengthOfBits(m: int, n: int)
    requires -4096 < m <= BUFFER_SIZE && -4096 < n <= BUFFER_SIZE && Word(m * 8) == Word(n * 8)
    ensures m == n
  {
    assert -0x1_0000_0000 < m * 8 - n * 8 < 0x1_0000_0000;
  }

  /** The memo remembers only true hashes. */
  ghost predicate Remembers(memo: Memo) {
    forall p: Path :: Key(p) in memo ==> memo[Key(p)] == Hash(p)
  }

  function Remember(memo: Memo, p: Path): Memo {
    if Key(p) in memo then memo else memo[Key(p) := Hash(p)]
  }

  lemma {:induction false} StillRemembers(memo: Memo, p: Path)
    requires Remembers(memo)
    ensures Remembers(Remember(memo, p))
  {
    forall q: Path | Key(q) in Remember(memo, p) ensures Remember(memo, p)[Key(q)] == Hash(q) {
      if Key(q) == Key(p) && Key(p) !in memo {
        KeyDeterminesHash(p, q);
      }
    }
  }

  // ---------- Under another length ----------

  /** What a successful copy leaves: the only NUL among the bytes read is the last. */
  predicate Terminated(p: Path) {
    0 < p.len && p.bytes[p.len - 1] == 0 && forall k | 0 <= k < p.len - 1 :: p.bytes[k] != 0
  }

  /** The part of the text in the key determines the hash of a terminated text, without its length. */
  lemma {:induction false} StartDeterminesHash(p: Path, q: Path)
    requires Terminated(p) && Terminated(q) && p.bytes[..BUFFER_SIZE - 4] == q.bytes[..BUFFER_SIZE - 4]
    ensures Hash(p) == Hash(q)
  {
    var start := p.bytes[..BUFFER_SIZE - 4];
    assert forall k | 0 <= k < BUFFER_SIZE - 4 :: p.bytes[k] == start[k] == q.bytes[k];
    assert p.Hashed() == q.Hashed();
    assert p.bytes[..p.Hashed()] == start[..p.Hashed()] == q.bytes[..q.Hashed()];
  }

  /** Whatever length is in front of it, a terminated text is remembered with its true hash. */
  ghost predicate RemembersTexts(memo: Memo) {
    forall key, t: Path | key in memo && Terminated(t) && t.bytes[..BUFFER_SIZE - 4] == key.bytes :: memo[key] == Hash(t)
  }

  function RememberUnder(memo: Memo, bits: U32, t: Path): Memo {
    var key := MemoKey(bits, t.bytes[..BUFFER_SIZE - 4]);
    if key in memo then memo else memo[key := Hash(t)]
  }

  lemma {:induction false} TextsStillRemembered(memo: Memo, bits: U32, t: Path)
    requires RemembersTexts(memo) && Terminated(t)
    ensures RemembersTexts(RememberUnder(memo, bits, t))
  {
    var key, after := MemoKey(bits, t.bytes[..BUFFER_SIZE - 4]), RememberUnder(memo, bits, t);
    forall k, q: Path | k in after && Terminated(q) && q.bytes[..BUFFER_SIZE - 4] == k.bytes ensures after[k] == Hash(q) {
      if k == key && key !in memo {
        StartDeterminesHash(q, t);
      }
    }
  }

  /** `hash_and_store` of a text whose buffer still has another text's length in front. */
  method HashUnder(memo: Memo, bits: U32, t: Path) returns (hash: U32, after: Memo)
    requires RemembersTexts(memo) && Terminated(t)
    ensures hash == Hash(t) && after == RememberUnder(memo, bits, t) && RemembersTexts(after)
  {
    TextsStillRemembered(memo, bits, t);
    var key := MemoKey(bits, t.bytes[..BUFFER_SIZE - 4]);
    if key in memo {
      return memo[key], memo;
    }
    hash := HashStr(t);
    after := memo[key := hash];
  }

  /** The two hashes of a USDT exit, which reads the method's name into the class's buffer but leaves the
      class's length in front of it. */
  method UsdtHashes(memo: Memo, clazz: Path, name: Path) returns (classHash: U32, methodHash: U32, after: Memo)
    requires RemembersTexts(memo) && Terminated(clazz) && Terminated(name)
    ensures classHash == Hash(clazz) && methodHash == Hash(name) && RemembersTexts(after)
    ensures var bits := clazz.len * 8; after == RememberUnder(RememberUnder(memo, bits, clazz), bits, name)
  {
    var bits := Word(clazz.len * 8);
    classHash, after := HashUnder(memo, bits, clazz);
    methodHash, after := HashUnder(after, bits, name);
  }

  /** So a path remembers and finds its hash as before, whatever USDT exits have stored. */
  lemma {:induction false} PathUnderItsLength(memo: Memo, p: Path)
    requires RemembersTexts(memo) && Terminated(p)
    ensures Remember(memo, p) == RememberUnder(memo, Word(p.len * 8), p)
    ensures RemembersTexts(Remember(memo, p)) && Remember(memo, p)[Key(p)] == Hash(p)
  {
    TextsStillRemembered(memo, Word(p.len * 8), p);
  }

  // ---------- hash_and_store ----------

  /** `hash_and_store`: with a memo of true hashes it returns the hash, found or computed. */
  method HashAndStore(memo: Memo, p: Path) returns (hash: U32, after: Memo)
    requires Remembers(memo)
    ensures hash == Hash(p) && after == Remember(memo, p) && Remembers(after)
  {
    StillRemembers(memo, p);
    if Key(p) in memo {
      return memo[Key(p)], memo;
    }
    hash := HashStr(p);
    after := memo[Key(p) := hash];
  }
}
