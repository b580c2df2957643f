/** Internet checksums: the 32-bit end-around-carry arithmetic of the data plane, its
    meaning in ones' complement arithmetic (RFC 1071) and the incremental update of
    section 3 of RFC 1624. */
module Checksum {
  import opened Wire

  /** The 16-bit ones' complement value of a sum: 0 only for 0, otherwise 1 to 0xffff. */
  function Ones(x: nat): (n: u16)
    ensures n == 0 <==> x == 0
    ensures x <= 0xffff ==> n == x
  {
    if x <= 0xffff then x else Ones(x - 0xffff)
  }

  function Wraps(x: nat): nat {
    if x <= 0xffff then 0 else 1 + Wraps(x - 0xffff)
  }

  lemma {:induction false} OnesIs(x: nat)
    ensures x == Ones(x) + 0xffff * Wraps(x)
  {
    if x > 0xffff {
      OnesIs(x - 0xffff);
    }
  }

  /** What a receiver tests: the ones' complement sum over checksum and data is all ones. */
  predicate Verifies(sum: nat) {
    Ones(sum) == 0xffff
  }

  lemma VerifiesExactly(sum: nat)
    ensures Verifies(sum) <==> sum > 0 && sum % 0xffff == 0
  {
    OnesIs(sum);
    assert sum % 0xffff == Ones(sum) % 0xffff;
  }

  /** Adding or removing whole multiples of 0xffff is invisible. */
  lemma OnesShift(x: nat, y: nat, k: int)
    requires x > 0 && y > 0 && x == y + k * 0xffff
    ensures Ones(x) == Ones(y)
  {
    OnesIs(x);
    OnesIs(y);
    SmallMultiple(Ones(x) - Ones(y), k + Wraps(y) - Wraps(x));
  }

  lemma SmallMultiple(d: int, k: int)
    requires d == 0xffff * k && -0xffff < d < 0xffff
    ensures d == 0
  {
  }

  /** Reducing either operand first makes no difference. */
  lemma OnesAdd(a: nat, b: nat)
    ensures Ones(a + b) == Ones(Ones(a) + b)
  {
    if a > 0 {
      OnesIs(a);
      OnesShift(a + b, Ones(a) + b, Wraps(a));
    }
  }

  /** csum_fold: two folding rounds always suffice. */
  function Fold(csum: u32): (r: u16)
    ensures r == 0xffff - Ones(csum)
  {
    var once := csum % 0x1_0000 + csum / 0x1_0000;
    var twice := once % 0x1_0000 + once / 0x1_0000;
    if csum > 0 then
      OnesShift(csum, once, csum / 0x1_0000);
      OnesShift(once, twice, once / 0x1_0000);
      0xffff - twice
    else
      0xffff - twice
  }

  /** csum_add: a 32-bit addition whose carry is added back in. */
  function Add(csum: u32, addend: u32): (r: u32)
    ensures Ones(r) == Ones(csum + addend)
    ensures r == 0 <==> csum == 0 && addend == 0
  {
    var sum := (csum + addend) % 0x1_0000_0000;
    if sum < addend then
      OnesShift(csum + addend, sum + 1, 0x1_0001);
      sum + 1
    else
      sum
  }

  function Sum(ws: seq<u16>): nat {
    if ws == [] then 0 else Sum(ws[..|ws| - 1]) + ws[|ws| - 1]
  }

  lemma {:induction false} SumUpdate(ws: seq<u16>, i: nat, w: u16)
    requires i < |ws|
    ensures Sum(ws[i := w]) == Sum(ws) - ws[i] + w
  {
    var front := ws[..|ws| - 1];
    if i == |ws| - 1 {
      assert ws[i := w][..i] == front;
    } else {
      assert ws[i := w][..|ws| - 1] == front[i := w];
      SumUpdate(front, i, w);
    }
  }

  lemma {:induction false} SumAtLeast(ws: seq<u16>, i: nat)
    requires i < |ws|
    ensures Sum(ws) >= ws[i]
  {
    if i < |ws| - 1 {
      SumAtLeast(ws[..|ws| - 1], i);
    }
  }

  lemma AddKeepsOnes(sum: u32, total: nat, w: u16)
    requires Ones(sum) == Ones(total)
    ensures Ones(Add(sum, w)) == Ones(total + w)
  {
    OnesAdd(sum, w);
    OnesAdd(total, w);
  }

  /** ip_checksum: at most ten words, fewer if the length runs out. */
  method IpChecksum(words: seq<u16>, len: nat) returns (check: u16)
    requires |words| >= 10 || 2 * |words| >= len
    ensures var n := if len >= 20 then 10 else (len + 1) / 2;
            n <= |words| && check == 0xffff - Ones(Sum(words[..n]))
  {
    var sum: u32 := 0;
    var i := 0;
    while i < 10
      invariant 0 <= i <= 10 && i <= |words| && 2 * i < len + 2
      invariant Ones(sum) == Ones(Sum(words[..i]))
    {
      if i * 2 >= len {
        break;
      }
      assert words[..i + 1][..i] == words[..i];
      AddKeepsOnes(sum, Sum(words[..i]), words[i]);
      sum := Add(sum, words[i]);
      i := i + 1;
    }
    check := Fold(sum);
  }

  // ------------------------------------------------------------------ byte order

  /** A 16-bit word as a little-endian machine loads it from the wire. */
  function Swap(w: u16): (r: u16)
    ensures r == 0x100 * w - 0xffff * (w / 0x100)
    ensures r / 0x100 == w % 0x100 && r % 0x100 == w / 0x100
  {
    w % 0x100 * 0x100 + w / 0x100
  }

  /** Multiplying by 0x100 swaps the bytes of the ones' complement value. */
  lemma OnesScaled(x: nat, y: nat, k: int)
    requires x > 0 && y > 0 && y == 0x100 * x + 0xffff * k
    ensures Ones(y) == Swap(Ones(x))
  {
    OnesIs(x);
    var n, q := Ones(x), Wraps(x);
    OnesShift(y, Swap(n), 0x100 * q + n / 0x100 + k);
  }

  function SwapAll(ws: seq<u16>): (r: seq<u16>)
    ensures |r| == |ws|
  {
    if ws == [] then [] else SwapAll(ws[..|ws| - 1]) + [Swap(ws[|ws| - 1])]
  }

  /** How often 0xffff has to be taken away when every byte pair is swapped. */
  function Carries(ws: seq<u16>): nat {
    if ws == [] then 0 else Carries(ws[..|ws| - 1]) + ws[|ws| - 1] / 0x100
  }

  lemma {:induction false} SumSwapped(ws: seq<u16>)
    ensures Sum(SwapAll(ws)) == 0x100 * Sum(ws) - 0xffff * Carries(ws)
    ensures Sum(ws) > 0 ==> Sum(SwapAll(ws)) > 0
  {
    if ws != [] {
      var front, last := ws[..|ws| - 1], ws[|ws| - 1];
      SumSwapped(front);
      assert SwapAll(ws)[..|ws| - 1] == SwapAll(front);
      assert last > 0 ==> Swap(last) > 0;
    }
  }

  /** Section 2 (B) of RFC 1071: summing swapped words swaps the sum. */
  lemma OnesOfSwapped(ws: seq<u16>)
    ensures Ones(Sum(SwapAll(ws))) == Swap(Ones(Sum(ws)))
  {
    SumSwapped(ws);
    if Sum(ws) > 0 {
      var k: int := 0 - Carries(ws);
      OnesScaled(Sum(ws), Sum(SwapAll(ws)), k);
    }
  }

  /** A header whose blank checksum word is filled in verifies. */
  lemma FilledChecksumVerifies(header: seq<u16>, at: nat)
    requires at < |header| && header[at] == 0 && Sum(header) > 0
    ensures Verifies(Sum(header[at := 0xffff - Ones(Sum(header))]))
  {
    var x := Sum(header);
    var n := Ones(x);
    SumUpdate(header, at, 0xffff - n);
    OnesIs(x);
    OnesShift(x + 0xffff - n, 0xffff, Wraps(x));
  }

  /** Complementing a swapped word and storing it low byte first undoes the swap. */
  lemma StoredLowByteFirst(n: u16, host: u16, check: u16)
    requires host == Swap(n) && check == 0xffff - host
    ensures Be16(0xffff - n) == [check % 0x100, check / 0x100]
  {
    SwapOfComplement(n);
  }

  lemma SwapOfComplement(n: u16)
    ensures Swap(0xffff - n) == 0xffff - Swap(n)
  {
    var hi, lo := n / 0x100, n % 0x100;
    assert 0xffff - n == (0xff - hi) * 0x100 + (0xff - lo);
  }

  // --------------------------------------------------------------- incremental update

  /** The two words of a 32-bit field. */
  function Words(x: u32): nat {
    x / 0x1_0000 + x % 0x1_0000
  }

  /** Equation 3 of section 3 of RFC 1624 in 32-bit arithmetic, as the checksum helpers
      compute it: complement of (complement of the checksum, minus old, plus new). */
  function Replace(check: u16, from: u32, to: u32): u16 {
    Fold(Add(Add(0xffff_ffff - check, 0xffff_ffff - from), to))
  }

  lemma ReplaceIs(check: u16, from: u32, to: u32)
    ensures Replace(check, from, to) == 0xffff - Ones(0x1_ffff_fffe - check - from + to)
  {
    var a, b := 0xffff_ffff - check, 0xffff_ffff - from;
    OnesAdd(Add(a, b), to);
    OnesAdd(a + b, to);
  }

  /** A checksum that was right stays right when a field and the checksum are replaced
      together, provided anything else that is summed is non-zero. */
  lemma ReplaceVerifies(rest: nat, check: u16, from: u32, to: u32)
    requires rest > 0 && Verifies(rest + Words(from) + check)
    ensures Verifies(rest + Words(to) + Replace(check, from, to))
  {
    ReplaceIs(check, from, to);
    var t := 0x1_ffff_fffe - check - from + to;
    var q := Wraps(t);
    OnesIs(t);
    assert Words(to) == to - 0xffff * (to / 0x1_0000);
    assert Words(from) == from - 0xffff * (from / 0x1_0000);
    var k := 1 + q - 0x2_0002 - to / 0x1_0000 + from / 0x1_0000;
    OnesShift(rest + Words(to) + Replace(check, from, to), rest + Words(from) + check, k);
  }

  /** A 32-bit field as a little-endian machine loads it from the wire. */
  function Reversed(x: u32): u32 {
    Swap(x % 0x1_0000) * 0x1_0000 + Swap(x / 0x1_0000)
  }

  lemma ReversedIs(x: u32)
    ensures Reversed(x) == 0x100 * x + 0xffff * ReversalCarry(x)
  {
  }

  function ReversalCarry(x: u32): int {
    var hi, lo := x / 0x1_0000, x % 0x1_0000;
    0x100 * lo - 0x100 * hi - 0x1_0000 * (lo / 0x100) - hi / 0x100
  }

  /** The helpers work on fields as loaded; the outcome does not depend on that order. */
  lemma ReplaceIsOrderFree(check: u16, from: u32, to: u32)
    ensures Replace(Swap(check), Reversed(from), Reversed(to)) == Swap(Replace(check, from, to))
  {
    ReplaceIs(check, from, to);
    ReplaceIs(Swap(check), Reversed(from), Reversed(to));
    var t := 0x1_ffff_fffe - check - from + to;
    var t' := 0x1_ffff_fffe - Swap(check) - Reversed(from) + Reversed(to);
    var k := ReversedTotal(check, from, to);
    OnesScaled(t, t', k);
    SwapOfComplement(Ones(t));
  }

  lemma ReversedTotal(check: u16, from: u32, to: u32) returns (k: int)
    ensures 0x1_ffff_fffe - Swap(check) - Reversed(from) + Reversed(to) ==
            0x100 * (0x1_ffff_fffe - check - from + to) + 0xffff * k
  {
    ReversedIs(from);
    ReversedIs(to);
    k := check / 0x100 - ReversalCarry(from) + ReversalCarry(to) - 0xff * 0x2_0002;
  }
}
