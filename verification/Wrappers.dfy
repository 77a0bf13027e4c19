/** Result types shared by the other modules, and the machine integer type. */
module Wrappers {

  datatype Option<+T> = None | Some(value: T)

  /** Go's int64, and its int on the 64-bit targets. */
  type int64 = x: int | -0x8000_0000_0000_0000 <= x < 0x8000_0000_0000_0000

  /** Go's uint64. */
  type uint64 = x: int | 0 <= x < 0x1_0000_0000_0000_0000

  /** Go's uint32. */
  type uint32 = x: int | 0 <= x < 0x1_0000_0000

  /** The low 64 bits, which big.Int.Uint64 and a conversion to uint64 keep. */
  function LowBits(x: int): uint64 { x % 0x1_0000_0000_0000_0000 }

  lemma LowBitsKeep(x: uint64)
    ensures LowBits(x) == x
  {
  }

  /** Two's complement wrap-around of an int64 result. */
  function Wrap64(x: int): int64 {
    (x + 0x8000_0000_0000_0000) % 0x1_0000_0000_0000_0000 - 0x8000_0000_0000_0000
  }

  lemma Mod64(x: int, q: int, r: int)
    requires x == 0x1_0000_0000_0000_0000 * q + r && 0 <= r < 0x1_0000_0000_0000_0000
    ensures x % 0x1_0000_0000_0000_0000 == r
  {
  }

  lemma Mod32(x: int, y: int, k: int)
    requires x == y - 0x1_0000_0000 * k
    ensures x % 0x1_0000_0000 == y % 0x1_0000_0000
  {
  }

  /** Wrapping subtracts a multiple of 2^64. */
  lemma WrapOffset(a: int) returns (k: int)
    ensures Wrap64(a) == a - 0x1_0000_0000_0000_0000 * k
  {
    k := (a + 0x8000_0000_0000_0000) / 0x1_0000_0000_0000_0000;
  }

  lemma WrapShift(a: int, k: int)
    ensures Wrap64(a - 0x1_0000_0000_0000_0000 * k) == Wrap64(a)
  {
    var x := a + 0x8000_0000_0000_0000;
    var q, r := x / 0x1_0000_0000_0000_0000, x % 0x1_0000_0000_0000_0000;
    Mod64(x - 0x1_0000_0000_0000_0000 * k, q - k, r);
  }

  lemma WrapInRange(x: int64)
    ensures Wrap64(x) == x
  {
  }

  /** Wrapping after every addition, or once at the end, is the same. */
  lemma WrapAdd(a: int, b: int)
    ensures Wrap64(Wrap64(a) + b) == Wrap64(a + b)
    ensures Wrap64(b + Wrap64(a)) == Wrap64(a + b)
  {
    var k := WrapOffset(a);
    WrapShift(a + b, k);
    assert Wrap64(a) + b == a + b - 0x1_0000_0000_0000_0000 * k;
  }

  /** Truncating a wrapped sum to uint32 is truncating the sum. */
  lemma WrapTruncate(a: int, b: int)
    ensures (Wrap64(a) + b) % 0x1_0000_0000 == (a + b) % 0x1_0000_0000
  {
    var k := WrapOffset(a);
    Mod32(Wrap64(a) + b, a + b, 0x1_0000_0000 * k);
  }
}
