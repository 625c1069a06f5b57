/** Machine words of the Go program: bytes, 64-bit unsigned words with wrap-around,
    signed 32-bit and 64-bit integers, and the bit operations the codec uses on them. */
module Words {

  const TWO_64: int := 0x1_0000_0000_0000_0000
  const TWO_63: int := 0x8000_0000_0000_0000
  const TWO_32: int := 0x1_0000_0000
  const TWO_31: int := 0x8000_0000

  type byte = x: int | 0 <= x < 256
  type uint64 = x: int | 0 <= x < TWO_64
  type int32 = x: int | -TWO_31 <= x < TWO_31

  /** `x` doubled `k` times: x * 2^k. */
  function Double(x: nat, k: nat): (y: nat)
    ensures x <= y
  {
    if k == 0 then x else 2 * Double(x, k - 1)
  }

  /** Bitwise OR of two naturals, bit by bit from the least significant end. */
  function BitOr(a: nat, b: nat): (c: nat)
    ensures c <= a + b
    decreases a + b
  {
    if a == 0 && b == 0 then 0
    else (if a % 2 == 1 || b % 2 == 1 then 1 else 0) + 2 * BitOr(a / 2, b / 2)
  }

  /** Left shift of a 64-bit word: bits shifted past the top are lost. */
  function Shl(x: uint64, k: nat): uint64 {
    Double(x, k) % TWO_64
  }

  /** Conversion of a signed 32-bit value to an unsigned 64-bit word: sign extension. */
  function SignExtend(v: int32): (u: uint64)
    ensures u == v || u == v + 0x1_0000_0000_0000_0000
  {
    if v < 0 then v + TWO_64 else v
  }

  /** Conversion of a 64-bit word to a signed 32-bit value: the low 32 bits, two's complement. */
  function TruncateToInt32(u: uint64): int32 {
    var low := u % 0x1_0000_0000;
    if low >= TWO_31 then low - TWO_32 else low
  }

  /** The only signed 32-bit value that differs from the word by a multiple of 2^32. */
  lemma TruncateMeans(u: uint64, v: int32)
    ensures v == TruncateToInt32(u) <==> (u - v) % 0x1_0000_0000 == 0
  {
    var low := u % 0x1_0000_0000;
    assert (u - low) % 0x1_0000_0000 == 0;
  }

  /** Conversion of a 64-bit word to Go's `int` on 64-bit builds: two's complement. */
  function ToInt64(u: uint64): (v: int)
    ensures -0x8000_0000_0000_0000 <= v < 0x8000_0000_0000_0000 && (v == u || v == u - 0x1_0000_0000_0000_0000)
  {
    if u >= TWO_63 then u - TWO_64 else u
  }

  /** A negative value survives the trip through the ten-byte unsigned encoding. */
  lemma Int32RoundTrip(v: int32)
    ensures TruncateToInt32(SignExtend(v)) == v
  {
    if v < 0 {
      LowWord(0xFFFF_FFFF, v + TWO_32);
    } else {
      LowWord(0, v);
    }
  }

  lemma LowWord(high: nat, low: nat)
    requires low < TWO_32
    ensures (high * 0x1_0000_0000 + low) % 0x1_0000_0000 == low
  {
  }

  /** OR-ing in a value that lies entirely above the bits of `a` adds it. */
  lemma {:induction false} BitOrAbove(a: nat, b: nat, k: nat)
    requires a < Double(1, k)
    ensures BitOr(a, Double(b, k)) == a + Double(b, k)
    decreases k
  {
    if k == 0 {
      BitOrZero(b);
    } else {
      BitOrAbove(a / 2, b, k - 1);
    }
  }

  lemma {:induction false} BitOrCommutes(a: nat, b: nat)
    ensures BitOr(a, b) == BitOr(b, a)
    decreases a + b
  {
    if a != 0 || b != 0 { BitOrCommutes(a / 2, b / 2); }
  }

  lemma {:induction false} BitOrZero(a: nat)
    ensures BitOr(0, a) == a
  {
    if a > 0 { BitOrZero(a / 2); }
  }

  /** The byte with its top bit set; the low seven bits stay. */
  function WithTopBit(x: byte): (y: byte)
    ensures y == x % 0x80 + 0x80
  {
    BitOrTopBit(x);
    BitOr(x, 0x80)
  }

  lemma BitOrTopBit(x: byte)
    ensures BitOr(x, 0x80) == x % 0x80 + 0x80
  {
    assert Double(1, 7) == 0x80;
    assert Double(x / 0x80, 7) == 0x80 * (x / 0x80);
    BitOrSame(x % 0x80, x / 0x80, 7);
  }

  lemma {:induction false} BitOrSame(lo: nat, b: nat, k: nat)
    requires lo < Double(1, k) && b <= 1
    ensures BitOr(lo + Double(b, k), Double(1, k)) == lo + Double(1, k)
    decreases k
  {
    if k == 0 {
      assert BitOr(0, 0) == 0;
    } else {
      assert (lo + Double(b, k)) / 2 == lo / 2 + Double(b, k - 1);
      BitOrSame(lo / 2, b, k - 1);
    }
  }

  lemma {:induction false} DoubleAdd(x: nat, j: nat, k: nat)
    ensures Double(x, j + k) == Double(Double(x, k), j)
  {
    if j > 0 { DoubleAdd(x, j - 1, k); }
  }

  lemma {:induction false} DoubleMono(x: nat, j: nat, k: nat)
    requires j <= k
    ensures Double(x, j) <= Double(x, k)
  {
    if j < k { DoubleMono(x, j, k - 1); }
  }

  lemma DoubleSeven(x: nat, k: nat)
    ensures Double(x, 7 + k) == 128 * Double(x, k)
  {
    DoubleAdd(x, 7, k);
    DoubleLinear(Double(x, k), 7);
  }

  lemma SmallModulo(x: nat)
    requires x < TWO_64
    ensures x % TWO_64 == x
  {
  }

  lemma ModuloPlus(q: nat, r: nat)
    requires r < TWO_64
    ensures (q * TWO_64 + r) % TWO_64 == r
  {
  }

  lemma DoubleSixtyThree(k: nat)
    requires k == 63
    ensures Double(1, k) == TWO_63
  {
    DoubleSeven(1, 7);
    DoubleSeven(1, 14);
    DoubleSeven(1, 21);
    DoubleSeven(1, 28);
    DoubleSeven(1, 35);
    DoubleSeven(1, 42);
    DoubleSeven(1, 49);
    DoubleSeven(1, 56);
  }

  lemma DoubleSixtyFour(k: nat)
    requires k == 64
    ensures Double(1, k) == TWO_64
  {
    DoubleSixtyThree(k - 1);
  }

  lemma {:induction false} DoubleLinear(x: nat, k: nat)
    ensures Double(x, k) == x * Double(1, k)
  {
    if k > 0 { DoubleLinear(x, k - 1); }
  }
}
