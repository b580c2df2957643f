/** Fixed-width unsigned integers as they appear on the wire, big-endian
    packing, and the bit operations the data plane applies to them. */
module Wire {

  type u8 = x: int | 0 <= x < 0x100
  type u16 = x: int | 0 <= x < 0x1_0000
  type u32 = x: int | 0 <= x < 0x1_0000_0000

  datatype Option<+T> = None | Some(value: T)

  datatype Result<+T, +E> = Ok(value: T) | Err(error: E)

  function Be16(x: u16): (b: seq<u8>)
    ensures |b| == 2
    ensures Word16(b[0], b[1]) == x
  {
    [x / 0x100, x % 0x100]
  }

  function Word16(hi: u8, lo: u8): (x: u16)
    ensures x / 0x100 == hi && x % 0x100 == lo
  {
    hi * 0x100 + lo
  }

  function Be32(x: u32): (b: seq<u8>)
    ensures |b| == 4
    ensures Word32(b) == x
  {
    Be16(x / 0x1_0000) + Be16(x % 0x1_0000)
  }

  function Word32(b: seq<u8>): u32
    requires |b| == 4
  {
    Word16(b[0], b[1]) * 0x1_0000 + Word16(b[2], b[3])
  }

  lemma Be32OfWord32(b: seq<u8>)
    requires |b| == 4
    ensures Be32(Word32(b)) == b
  {
    var hi, lo := Word16(b[0], b[1]), Word16(b[2], b[3]);
    assert Word32(b) / 0x1_0000 == hi && Word32(b) % 0x1_0000 == lo;
  }

  /** Bitwise or of two naturals, bit by bit. */
  function BitOr(a: nat, b: nat): nat
    decreases a + b
  {
    if a == 0 && b == 0 then 0
    else (if a % 2 == 1 || b % 2 == 1 then 1 else 0) + 2 * BitOr(a / 2, b / 2)
  }

  function Pow2(n: nat): (p: nat)
    ensures p > 0
  {
    if n == 0 then 1 else 2 * Pow2(n - 1)
  }

  /** A left shift leaves the low bits clear, so or-ing a value that fits there adds it. */
  lemma {:induction false} OrOfShifted(a: nat, n: nat, b: nat)
    requires b < Pow2(n)
    ensures BitOr(a * Pow2(n), b) == a * Pow2(n) + b
  {
    if n == 0 {
      assert a * Pow2(n) == a;
      OrZero(a);
    } else {
      var half := a * Pow2(n - 1);
      assert a * Pow2(n) == 2 * half;
      OrOfShifted(a, n - 1, b / 2);
    }
  }

  lemma {:induction false} OrZero(a: nat)
    ensures BitOr(a, 0) == a
  {
    if a != 0 {
      OrZero(a / 2);
    }
  }

  /** Writes bytes at an offset of a buffer; what lies at or behind `end` is not touched. */
  method Store(buffer: array<u8>, off: nat, b: seq<u8>, ghost end: nat)
    requires off + |b| <= end <= buffer.Length
    modifies buffer
    ensures buffer[..off + |b|] == old(buffer[..off]) + b
    ensures buffer[end..] == old(buffer[end..])
  {
    forall k | 0 <= k < |b| {
      buffer[off + k] := b[k];
    }
  }
}
