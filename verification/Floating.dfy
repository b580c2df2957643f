/** Attachment identities as IPv4 addresses: twelve low bits of slot number, then the
    attachment generation, counted from a configurable and possibly unaligned base. */
module Floating {
  import opened Wire

  const SLOTS: nat := 4096
  const MAX_GENERATION_BITS: nat := 20

  function Span(bits: nat): nat {
    0x1000 * Pow2(bits)
  }

  /** What configuration validation accepts. */
  predicate ValidWindow(base: u32, bits: nat) {
    bits <= MAX_GENERATION_BITS && base + Span(bits) - 1 <= 0xffff_ffff
  }

  /** The address the data plane and the control plane compute, in 32-bit arithmetic. */
  function FloatingIp(base: u32, slot: u32, generation: u32): u32 {
    (base + (generation * 0x1000) % 0x1_0000_0000 + slot) % 0x1_0000_0000
  }

  /** The management-side decoder; None is "not one of ours". */
  function Identify(base: u32, bits: nat, nPorts: nat, ip: u32): Option<(nat, nat)> {
    if ip < base then None
    else
      var identity := ip - base;
      var slot, generation := identity % 0x1000, identity / 0x1000;
      if bits > MAX_GENERATION_BITS then None
      else if generation >= Pow2(bits) || slot >= nPorts then None
      else Some((slot, generation))
  }

  lemma {:induction false} Pow2Monotone(a: nat, b: nat)
    requires a <= b
    ensures Pow2(a) <= Pow2(b)
  {
    if a < b {
      Pow2Monotone(a, b - 1);
    }
  }

  lemma Pow2Twenty()
    ensures Pow2(20) == 0x10_0000
  {
    assert Pow2(5) == 32;
    assert Pow2(10) == 1024;
    assert Pow2(15) == 32768;
  }

  lemma GenerationBound(bits: nat, generation: nat)
    requires bits <= MAX_GENERATION_BITS && generation < Pow2(bits)
    ensures generation < 0x10_0000 && generation * 0x1000 + 0x1000 <= Span(bits)
  {
    Pow2Monotone(bits, 20);
    Pow2Twenty();
  }

  /** Below the wrap the 32-bit sum is the sum. */
  lemma NoWrap(base: u32, slot: u32, generation: u32)
    requires generation < 0x10_0000 && base + generation * 0x1000 + slot < 0x1_0000_0000
    ensures FloatingIp(base, slot, generation) == base + generation * 0x1000 + slot
  {
  }

  /** No intermediate value wraps, and every identity stays inside the window. */
  lemma IdentityInWindow(base: u32, bits: nat, slot: u32, generation: u32)
    requires ValidWindow(base, bits) && slot < SLOTS && generation < Pow2(bits)
    ensures FloatingIp(base, slot, generation) == base + generation * 0x1000 + slot
    ensures base <= FloatingIp(base, slot, generation) < base + Span(bits)
  {
    GenerationBound(bits, generation);
    NoWrap(base, slot, generation);
  }

  lemma Parts(slot: nat, generation: nat)
    requires slot < 0x1000
    ensures (generation * 0x1000 + slot) / 0x1000 == generation && (generation * 0x1000 + slot) % 0x1000 == slot
  {
  }

  lemma IdentifyAt(base: u32, bits: nat, nPorts: nat, ip: u32, slot: u32, generation: u32)
    requires ip == base + (generation * 0x1000 + slot) && bits <= MAX_GENERATION_BITS
    requires slot < nPorts <= SLOTS && generation < Pow2(bits)
    ensures Identify(base, bits, nPorts, ip) == Some((slot, generation))
  {
    Parts(slot, generation);
  }

  lemma IdentifyInverts(base: u32, bits: nat, nPorts: nat, slot: u32, generation: u32)
    requires ValidWindow(base, bits) && slot < nPorts <= SLOTS && generation < Pow2(bits)
    ensures Identify(base, bits, nPorts, FloatingIp(base, slot, generation)) == Some((slot, generation))
  {
    IdentityInWindow(base, bits, slot, generation);
    IdentifyAt(base, bits, nPorts, FloatingIp(base, slot, generation), slot, generation);
  }

  /** An accepted address is the one its identity was given. */
  lemma IdentifiedIsExact(base: u32, bits: nat, nPorts: nat, ip: u32)
    requires ValidWindow(base, bits) && nPorts <= SLOTS
    ensures match Identify(base, bits, nPorts, ip)
            case None => true
            case Some((slot, generation)) =>
              slot < nPorts && generation < Pow2(bits) && FloatingIp(base, slot, generation) == ip
  {
    match Identify(base, bits, nPorts, ip)
    case None =>
    case Some((slot, generation)) =>
      Pow2Monotone(bits, 20);
      Pow2Twenty();
      IdentityInWindow(base, bits, slot, generation);
  }

  /** With every port in use the identities fill the window: the encoding is onto. */
  lemma WindowIsFull(base: u32, bits: nat, ip: u32)
    requires ValidWindow(base, bits)
    ensures Identify(base, bits, SLOTS, ip).Some? <==> base <= ip < base + Span(bits)
  {
    if ip >= base {
      var identity := ip - base;
      if identity < Span(bits) {
        assert identity / 0x1000 < Pow2(bits);
      } else {
        assert identity / 0x1000 >= Pow2(bits);
      }
    }
  }

  /** Validation refuses no window needlessly: in any other one the last identity wraps
      around and is no longer recognised. */
  lemma WindowIsNecessary(base: u32, bits: nat)
    requires bits <= MAX_GENERATION_BITS && !ValidWindow(base, bits)
    ensures Pow2(bits) <= 0x1_0000_0000
    ensures Identify(base, bits, SLOTS, FloatingIp(base, 0xfff, Pow2(bits) - 1)) == None
  {
    Pow2Monotone(bits, 20);
    Pow2Twenty();
    var generation := Pow2(bits) - 1;
    assert (generation * 0x1000) % 0x1_0000_0000 == generation * 0x1000;
    var sum := base + generation * 0x1000 + 0xfff;
    assert sum == base + Span(bits) - 1;
    assert sum % 0x1_0000_0000 == sum - 0x1_0000_0000;
  }

  /** A block of addresses with a common prefix. */
  datatype Net = Net(first: u32, prefix: nat)

  function BlockSize(n: Net): nat
    requires n.prefix <= 32
  {
    Pow2(32 - n.prefix)
  }

  predicate Aligned(n: Net) {
    n.prefix <= 32 && n.first % BlockSize(n) == 0
  }

  predicate Contains(n: Net, ip: u32) {
    n.prefix <= 32 && n.first <= ip < n.first + BlockSize(n)
  }

  predicate Routed(nets: seq<Net>, ip: u32) {
    exists i :: 0 <= i < |nets| && Contains(nets[i], ip)
  }

  function BlockStart(ip: nat, size: nat): (r: nat)
    requires size > 0
    ensures r % size == 0 && r <= ip < r + size
    ensures r == ip - ip % size
  {
    DivIs(ip / size * size, size, ip / size);
    ip / size * size
  }

  /** An address and a prefix mask: the low bits go away. */
  function Masked(ip: u32, prefix: nat): u32
    requires prefix <= 32
  {
    BlockStart(ip, Pow2(32 - prefix))
  }

  /** The return routes installed for the window. */
  function ReturnNets(base: u32, bits: nat): seq<Net> {
    if bits > MAX_GENERATION_BITS then []
    else
      var prefix := 20 - bits;
      var end := base + Span(bits) - 1;
      if end > 0xffff_ffff then []
      else
        var first, last := Masked(base, prefix), Masked(end, prefix);
        [Net(first, prefix)] + if last != first then [Net(last, prefix)] else []
  }

  lemma {:induction false} SpanIsPow2(bits: nat)
    ensures Span(bits) == Pow2(12 + bits)
  {
    if bits == 0 {
      assert Pow2(4) == 16;
      assert Pow2(8) == 256;
      assert Pow2(12) == 4096;
    } else {
      SpanIsPow2(bits - 1);
    }
  }

  /** At most two aligned blocks cover the whole window, each block meets the window, and
      one block is enough exactly if the base is aligned. */
  lemma ReturnNetsCover(base: u32, bits: nat)
    requires ValidWindow(base, bits)
    ensures var nets := ReturnNets(base, bits);
            && 1 <= |nets| <= 2
            && (|nets| == 1 <==> base % Span(bits) == 0)
            && (forall i :: 0 <= i < |nets| ==> Aligned(nets[i]) && BlockSize(nets[i]) == Span(bits))
            && (|nets| == 2 ==> nets[1].first == nets[0].first + Span(bits))
    ensures forall ip: u32 :: base <= ip < base + Span(bits) ==> Routed(ReturnNets(base, bits), ip)
  {
    var nets, size, end := ReturnNets(base, bits), Span(bits), base + Span(bits) - 1;
    SpanIsPow2(bits);
    var first := BlockStart(base, size);
    NextBlock(base, size);
    forall ip: u32 | base <= ip < base + Span(bits) ensures Routed(nets, ip)
    {
      if ip < first + size {
        assert Contains(nets[0], ip);
      } else {
        assert Contains(nets[1], ip);
      }
    }
  }

  /** A window one block long ends in the block of its base, or in the next one. */
  lemma NextBlock(base: nat, size: nat)
    requires size > 0
    ensures BlockStart(base + size - 1, size) ==
            if base % size == 0 then base else BlockStart(base, size) + size
  {
    var q := base / size;
    assert base == q * size + base % size;
    if base % size == 0 {
      DivIs(base + size - 1, size, q);
    } else {
      assert (q + 1) * size == q * size + size;
      DivIs(base + size - 1, size, q + 1);
    }
  }

  lemma DivIs(a: nat, size: nat, q: nat)
    requires size > 0 && q * size <= a < q * size + size
    ensures a / size == q && a % size == a - q * size
  {
    var d := a / size;
    if d > q {
      Scaled(q + 1, d, size);
    }
    if d < q {
      Scaled(d + 1, q, size);
    }
  }

  lemma Scaled(a: nat, b: nat, size: nat)
    requires a <= b
    ensures a * size <= b * size
  {
    assert (b - a) * size >= 0;
  }
}
