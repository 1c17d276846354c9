/** Small shared definitions. */
module Common {
  datatype Option<+T> = None | Some(value: T)

  /** The number of 64-bit values. */
  const LIMIT := 0x1_0000_0000_0000_0000

  type Byte = x: nat | x < 0x100
  type U32 = x: nat | x < 0x1_0000_0000
  type U64 = x: nat | x < LIMIT

  /** Puts one more element behind the first `i`. */
  method Put<T>(group: array<T>, i: nat, x: T)
    requires i < group.Length
    modifies group
    ensures group[..i + 1] == old(group[..i]) + [x]
  {
    group[i] := x;
  }

  lemma {:induction false} Associative<T>(x: seq<T>, y: seq<T>, z: seq<T>)
    ensures x + (y + z) == (x + y) + z
  {
  }
}
