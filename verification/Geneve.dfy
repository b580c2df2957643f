/** GENEVE options and slot locators: serialisation of a port's opaque options,
    the locator that carries the slot number, and the parser of section 3.5 of
    RFC 8926 that any receiver may run over the emitted option area. */
module Geneve {
  import opened Wire

  const MAX_OPTS_LEN: nat := 64
  const TLV_LOCATOR_LEN: nat := 8
  const STANDARD_PORT: u16 := 6081
  const MAX_PORTS: nat := 4096
  /** The slot is shifted by twelve bits. */
  const VNI_SPAN: nat := 0x1000

  /** Where the zero-based slot number travels. */
  datatype Locator = PortLocator | VniLocator | TlvLocator(cls: u16, typ: u8)

  datatype GeneveOption = GeneveOption(cls: u16, typ: u8, data: seq<u8>)

  /** The value stored in the per-slot options map: always a full 64-byte area. */
  datatype OptsValue = OptsValue(len: u8, critical: u8, data: seq<u8>)

  datatype Marshalled = Marshalled(value: OptsValue, total: u8)

  datatype MarshalError =
    | Unaligned(index: nat)
    | Collides(index: nat)
    | OpaqueTooLong(length: nat)
    | WireTooLong(length: nat)

  function LocatorLen(loc: Locator): nat {
    if loc.TlvLocator? then TLV_LOCATOR_LEN else 0
  }

  /** The VNI width a locator leaves to the attachment. */
  function MaxVni(loc: Locator): nat {
    if loc.VniLocator? then 0xfff else 0xff_ffff
  }

  predicate Critical(o: GeneveOption) {
    o.typ >= 0x80
  }

  predicate Aligned(o: GeneveOption) {
    |o.data| % 4 == 0
  }

  /** Same class and same type once the critical bit is ignored. */
  predicate CollidesWith(loc: Locator, o: GeneveOption) {
    loc.TlvLocator? && o.cls == loc.cls && o.typ % 0x80 == loc.typ % 0x80
  }

  /** One option on the wire, for data short enough for the five-bit length. */
  function EncodeOption(o: GeneveOption): seq<u8> {
    Be16(o.cls) + [o.typ, (|o.data| / 4) % 0x100] + o.data
  }

  function EncodeAll(os: seq<GeneveOption>): seq<u8> {
    if os == [] then [] else EncodeAll(os[..|os| - 1]) + EncodeOption(os[|os| - 1])
  }

  lemma {:induction false} EncodeAllFront(os: seq<GeneveOption>)
    requires os != []
    ensures EncodeAll(os) == EncodeOption(os[0]) + EncodeAll(os[1..])
  {
    if |os| > 1 {
      var front, last := os[..|os| - 1], os[|os| - 1];
      EncodeAllFront(front);
      assert front[1..] == os[1..][..|os| - 2];
      assert os[1..][|os| - 2] == last;
      Regroup(EncodeOption(os[0]), EncodeAll(front[1..]), EncodeOption(last));
    }
  }

  lemma Regroup(a: seq<u8>, b: seq<u8>, c: seq<u8>)
    ensures a + b + c == a + (b + c)
  {
  }

  /** What the marshaller accepts, stated without reference to its loop. */
  predicate Acceptable(loc: Locator, os: seq<GeneveOption>) {
    && (forall i :: 0 <= i < |os| ==> Aligned(os[i]) && !CollidesWith(loc, os[i]))
    && |EncodeAll(os)| + LocatorLen(loc) <= MAX_OPTS_LEN
  }

  predicate AnyCritical(os: seq<GeneveOption>) {
    exists i :: 0 <= i < |os| && Critical(os[i])
  }

  function Zeros(n: nat): (z: seq<u8>)
    ensures |z| == n
  {
    seq(n, _ => 0)
  }

  /** The stored value for an acceptable list. */
  function ValueOf(os: seq<GeneveOption>): OptsValue
    requires |EncodeAll(os)| <= MAX_OPTS_LEN
  {
    var area := EncodeAll(os);
    OptsValue(|area|, if AnyCritical(os) then 1 else 0, area + Zeros(MAX_OPTS_LEN - |area|))
  }

  lemma {:induction false} EncodePrefixLength(os: seq<GeneveOption>, n: nat)
    requires n <= |os|
    ensures |EncodeAll(os[..n])| <= |EncodeAll(os)|
    decreases |os| - n
  {
    if n == |os| {
      assert os[..n] == os;
    } else {
      assert os[..n + 1][..n] == os[..n];
      EncodePrefixLength(os, n + 1);
    }
  }

  lemma LengthSnoc(os: seq<GeneveOption>)
    requires os != []
    ensures |EncodeAll(os)| == |EncodeAll(os[..|os| - 1])| + 4 + |os[|os| - 1].data|
  {
  }

  lemma FourMore(a: nat, b: nat)
    requires a % 4 == 0 && b % 4 == 0
    ensures (a + 4 + b) % 4 == 0
  {
  }

  lemma {:induction false} EncodedLengthAligned(os: seq<GeneveOption>)
    requires forall i :: 0 <= i < |os| ==> Aligned(os[i])
    ensures |EncodeAll(os)| % 4 == 0
  {
    if os != [] {
      EncodedLengthAligned(os[..|os| - 1]);
      LengthSnoc(os);
      FourMore(|EncodeAll(os[..|os| - 1])|, |os[|os| - 1].data|);
    }
  }

  /** The marshaller refuses in the order it meets faults: the named option is
      at fault and everything before it is fine. */
  ghost predicate FirstFault(loc: Locator, os: seq<GeneveOption>, e: MarshalError) {
    match e
    case Unaligned(i) => i < |os| && !Aligned(os[i]) && GoodPrefix(loc, os, i)
    case Collides(i) => i < |os| && Aligned(os[i]) && CollidesWith(loc, os[i]) && GoodPrefix(loc, os, i)
    case OpaqueTooLong(n) =>
      exists i :: 0 <= i < |os| && GoodPrefix(loc, os, i) && Aligned(os[i]) && !CollidesWith(loc, os[i])
                  && n == |EncodeAll(os[..i + 1])| && n > MAX_OPTS_LEN
    case WireTooLong(n) =>
      GoodPrefix(loc, os, |os|) && n == |EncodeAll(os)| + LocatorLen(loc) && n > MAX_OPTS_LEN
  }

  ghost predicate GoodPrefix(loc: Locator, os: seq<GeneveOption>, n: nat)
    requires n <= |os|
  {
    && (forall j :: 0 <= j < n ==> Aligned(os[j]) && !CollidesWith(loc, os[j]))
    && |EncodeAll(os[..n])| <= MAX_OPTS_LEN
  }

  /** Stores one option at an offset and touches nothing else. */
  method StoreOption(data: array<u8>, offset: nat, o: GeneveOption)
    requires offset + 4 + |o.data| <= data.Length
    modifies data
    ensures data[..offset + 4 + |o.data|] == old(data[..offset]) + EncodeOption(o)
    ensures data[offset + 4 + |o.data|..] == old(data[offset + 4 + |o.data|..])
  {
    Store(data, offset, Be16(o.cls) + [o.typ, (|o.data| / 4) % 0x100], offset + 4 + |o.data|);
    Store(data, offset + 4, o.data, offset + 4 + |o.data|);
  }

  /** The marshaller's refusals are exactly the lists it must refuse. */
  lemma FaultRefuses(loc: Locator, os: seq<GeneveOption>, e: MarshalError)
    requires FirstFault(loc, os, e)
    ensures !Acceptable(loc, os)
  {
    match e
    case Unaligned(i) =>
      BadOption(loc, os, i);
    case Collides(i) =>
      BadOption(loc, os, i);
    case WireTooLong(_) =>
    case OpaqueTooLong(n) =>
      var i :| 0 <= i < |os| && GoodPrefix(loc, os, i) && n == |EncodeAll(os[..i + 1])|;
      LongPrefix(loc, os, i + 1);
  }

  lemma BadOption(loc: Locator, os: seq<GeneveOption>, i: nat)
    requires i < |os| && (!Aligned(os[i]) || CollidesWith(loc, os[i]))
    ensures !Acceptable(loc, os)
  {
  }

  lemma LongPrefix(loc: Locator, os: seq<GeneveOption>, n: nat)
    requires n <= |os| && |EncodeAll(os[..n])| > MAX_OPTS_LEN
    ensures !Acceptable(loc, os)
  {
    EncodePrefixLength(os, n);
  }

  lemma PrefixLength(os: seq<GeneveOption>, i: nat)
    requires i < |os|
    ensures |EncodeAll(os[..i + 1])| == |EncodeAll(os[..i])| + 4 + |os[i].data|
  {
    assert os[..i + 1][..i] == os[..i];
    LengthSnoc(os[..i + 1]);
  }

  /** Stores the next option behind the ones before it. */
  method StoreNext(options: seq<GeneveOption>, i: nat, data: array<u8>, offset: nat) returns (next: nat)
    requires i < |options| && data.Length == MAX_OPTS_LEN && offset + 4 + |options[i].data| <= MAX_OPTS_LEN
    requires data[..offset] == EncodeAll(options[..i]) && data[offset..] == Zeros(MAX_OPTS_LEN - offset)
    modifies data
    ensures next == offset + 4 + |options[i].data|
    ensures data[..next] == EncodeAll(options[..i + 1]) && data[next..] == Zeros(MAX_OPTS_LEN - next)
  {
    next := offset + 4 + |options[i].data|;
    ghost var tail := data[offset..];
    assert options[..i + 1][..i] == options[..i];
    StoreOption(data, offset, options[i]);
    assert data[next..] == tail[next - offset..] == Zeros(MAX_OPTS_LEN - next);
  }

  /** The loop: stores option after option until one is at fault. */
  method FillOptions(loc: Locator, options: seq<GeneveOption>, data: array<u8>)
    returns (fault: Option<MarshalError>, offset: nat, critical: u8)
    requires data[..] == Zeros(MAX_OPTS_LEN)
    modifies data
    ensures fault.Some? ==> FirstFault(loc, options, fault.value) && !fault.value.WireTooLong?
    ensures fault.None? ==> GoodPrefix(loc, options, |options|)
    ensures fault.None? ==> offset <= MAX_OPTS_LEN && data[..offset] == EncodeAll(options)
    ensures fault.None? ==> data[offset..] == Zeros(MAX_OPTS_LEN - offset)
    ensures fault.None? ==> critical == if AnyCritical(options) then 1 else 0
  {
    offset, critical := 0, 0;
    for i := 0 to |options|
      invariant offset <= MAX_OPTS_LEN
      invariant GoodPrefix(loc, options, i)
      invariant data[..offset] == EncodeAll(options[..i])
      invariant data[offset..] == Zeros(MAX_OPTS_LEN - offset)
      invariant critical == if AnyCritical(options[..i]) then 1 else 0
    {
      var option := options[i];
      PrefixLength(options, i);
      if !Aligned(option) {
        return Some(Unaligned(i)), offset, critical;
      }
      if CollidesWith(loc, option) {
        return Some(Collides(i)), offset, critical;
      }
      var wireLen := 4 + |option.data|;
      if offset + wireLen > MAX_OPTS_LEN {
        return Some(OpaqueTooLong(offset + wireLen)), offset, critical;
      }
      offset := StoreNext(options, i, data, offset);
      CriticalSnoc(options, i);
      if Critical(option) {
        critical := 1;
      }
    }
    assert options[..|options|] == options;
    return None, offset, critical;
  }

  /** Serialises the options into a fixed 64-byte area with a running offset. */
  method MarshalGeneveOptions(loc: Locator, options: seq<GeneveOption>) returns (r: Result<Marshalled, MarshalError>)
    ensures r.Ok? ==> Acceptable(loc, options)
    ensures r.Ok? ==> r.value.value == ValueOf(options)
                      && r.value.total == |EncodeAll(options)| + LocatorLen(loc)
    ensures r.Err? ==> FirstFault(loc, options, r.error)
  {
    var data := new u8[MAX_OPTS_LEN](_ => 0);
    var fault, offset, critical := FillOptions(loc, options, data);
    if fault.Some? {
      return Err(fault.value);
    }
    var total := offset + LocatorLen(loc);
    if total > MAX_OPTS_LEN {
      return Err(WireTooLong(total));
    }
    assert data[..] == data[..offset] + data[offset..];
    return Ok(Marshalled(OptsValue(offset, critical, data[..]), total));
  }

  lemma CriticalSnoc(os: seq<GeneveOption>, i: nat)
    requires i < |os|
    ensures AnyCritical(os[..i + 1]) <==> AnyCritical(os[..i]) || Critical(os[i])
  {
    if AnyCritical(os[..i]) {
      var k :| 0 <= k < i && Critical(os[..i][k]);
      assert Critical(os[..i + 1][k]);
    }
    if Critical(os[i]) {
      assert Critical(os[..i + 1][i]);
    }
    if AnyCritical(os[..i + 1]) {
      var k :| 0 <= k < i + 1 && Critical(os[..i + 1][k]);
      assert k < i ==> os[..i][k] == os[k];
    }
  }

  /** A generic receiver: walks the area option by option, length field by length field. */
  function ParseTlvs(b: seq<u8>): Option<seq<GeneveOption>> {
    if b == [] then Some([])
    else if |b| < 4 then None
    else
      var n := 4 + (b[3] % 0x20) * 4;
      if |b| < n then None
      else
        match ParseTlvs(b[n..])
        case None => None
        case Some(rest) => Some([GeneveOption(Word16(b[0], b[1]), b[2], b[4..n])] + rest)
  }

  lemma ParseOne(o: GeneveOption, rest: seq<u8>)
    requires Aligned(o) && |o.data| < 128
    ensures ParseTlvs(EncodeOption(o) + rest) ==
            (match ParseTlvs(rest) case None => None case Some(os) => Some([o] + os))
  {
    var b, words := EncodeOption(o) + rest, |o.data| / 4;
    var n := 4 + |o.data|;
    assert words % 0x100 == words && words % 0x20 == words;
    assert b[0] == Be16(o.cls)[0] && b[1] == Be16(o.cls)[1] && b[2] == o.typ && b[3] == words;
    assert b[4..n] == o.data && b[n..] == rest;
  }

  lemma {:induction false} ParseInvertsEncode(os: seq<GeneveOption>)
    requires forall i :: 0 <= i < |os| ==> Aligned(os[i]) && |os[i].data| < 128
    ensures ParseTlvs(EncodeAll(os)) == Some(os)
  {
    if os != [] {
      EncodeAllFront(os);
      ParseOne(os[0], EncodeAll(os[1..]));
      ParseInvertsEncode(os[1..]);
      assert [os[0]] + os[1..] == os;
    }
  }

  /** The generated locator option, first on the wire, present in TLV mode only. */
  function LocatorOption(loc: Locator, slot: u32): seq<GeneveOption> {
    if loc.TlvLocator? then [GeneveOption(loc.cls, loc.typ, Be32(slot))] else []
  }

  /** The locator as the data plane writes it: eight bytes in TLV mode, else nothing. */
  function LocatorBytes(loc: Locator, slot: u32): (b: seq<u8>)
    ensures |b| == LocatorLen(loc)
  {
    if loc.TlvLocator? then Be16(loc.cls) + [loc.typ, 1] + Be32(slot) else []
  }

  /** The option area written after the base header. */
  function OptionArea(loc: Locator, slot: u32, v: OptsValue): seq<u8>
    requires v.len <= |v.data|
  {
    LocatorBytes(loc, slot) + v.data[..v.len]
  }

  /** The C bit as the data plane computes it. */
  predicate CBit(loc: Locator, v: OptsValue) {
    v.critical != 0 || (loc.TlvLocator? && loc.typ >= 0x80)
  }

  /** What every stored value satisfies; the data plane rejects anything else. */
  predicate WellFormedValue(loc: Locator, v: OptsValue) {
    && |v.data| == MAX_OPTS_LEN
    && v.len % 4 == 0
    && v.len + LocatorLen(loc) <= MAX_OPTS_LEN
    && v.critical <= 1
  }

  lemma MarshalledWellFormed(loc: Locator, os: seq<GeneveOption>)
    requires Acceptable(loc, os)
    ensures WellFormedValue(loc, ValueOf(os))
    ensures ValueOf(os).data[..ValueOf(os).len] == EncodeAll(os)
  {
    EncodedLengthAligned(os);
  }

  lemma {:induction false} OptionFits(os: seq<GeneveOption>, i: nat)
    requires i < |os|
    ensures |os[i].data| + 4 <= |EncodeAll(os)|
  {
    if i < |os| - 1 {
      OptionFits(os[..|os| - 1], i);
    }
  }

  /** The area fits, its length fits the six-bit word count and each option's five bits. */
  lemma EmittedAreaFits(loc: Locator, slot: u32, os: seq<GeneveOption>)
    requires Acceptable(loc, os)
    ensures var n := |OptionArea(loc, slot, ValueOf(os))|; n <= MAX_OPTS_LEN && n % 4 == 0 && n / 4 < 0x40
    ensures forall i :: 0 <= i < |os| ==> |os[i].data| <= 60 && |os[i].data| / 4 < 0x20
  {
    MarshalledWellFormed(loc, os);
    AreaFits(loc, slot, ValueOf(os));
    forall i | 0 <= i < |os| ensures |os[i].data| <= 60 && |os[i].data| / 4 < 0x20 {
      OptionFits(os, i);
      AreaBound(|os[i].data|);
    }
  }

  lemma OptionsParse(loc: Locator, os: seq<GeneveOption>)
    requires Acceptable(loc, os)
    ensures ParseTlvs(EncodeAll(os)) == Some(os)
  {
    EmittedAreaFits(loc, 0, os);
    ParseInvertsEncode(os);
  }

  lemma AreaFits(loc: Locator, slot: u32, v: OptsValue)
    requires WellFormedValue(loc, v)
    ensures var n := |OptionArea(loc, slot, v)|; n <= MAX_OPTS_LEN && n % 4 == 0 && n / 4 < 0x40
  {
    AreaBound(LocatorLen(loc) + v.len);
  }

  /** A length in bytes that fits the area fits its field, which counts words. */
  lemma AreaBound(n: nat)
    ensures n <= MAX_OPTS_LEN ==> n / 4 < 0x40
    ensures n <= 60 ==> n / 4 < 0x20
  {
  }

  /** Any receiver that walks the emitted area sees exactly the locator (if any)
      and then the caller's options in order. */
  lemma EmittedAreaParses(loc: Locator, slot: u32, os: seq<GeneveOption>)
    requires Acceptable(loc, os)
    ensures ParseTlvs(OptionArea(loc, slot, ValueOf(os))) == Some(LocatorOption(loc, slot) + os)
  {
    EmittedOptionsAreShort(loc, slot, os);
    AreaEncodesAll(loc, slot, os);
    ParseInvertsEncode(LocatorOption(loc, slot) + os);
  }

  lemma EmittedOptionsAreShort(loc: Locator, slot: u32, os: seq<GeneveOption>)
    requires Acceptable(loc, os)
    ensures var all := LocatorOption(loc, slot) + os;
            forall i :: 0 <= i < |all| ==> Aligned(all[i]) && |all[i].data| < 128
  {
    EmittedAreaFits(loc, slot, os);
    var own := LocatorOption(loc, slot);
    forall i | 0 <= i < |own + os| ensures Aligned((own + os)[i]) && |(own + os)[i].data| < 128 {
      assert (own + os)[i] == if i < |own| then own[i] else os[i - |own|];
    }
  }

  /** The C bit is set iff some emitted option type has its high bit set. */
  lemma CBitExact(loc: Locator, slot: u32, os: seq<GeneveOption>)
    requires Acceptable(loc, os)
    ensures CBit(loc, ValueOf(os)) <==> AnyCritical(LocatorOption(loc, slot) + os)
  {
    CriticalConcat(LocatorOption(loc, slot), os);
    if loc.TlvLocator? {
      assert Critical(LocatorOption(loc, slot)[0]) <==> loc.typ >= 0x80;
    }
  }

  lemma LocatorEncodes(cls: u16, typ: u8, slot: u32)
    ensures EncodeOption(GeneveOption(cls, typ, Be32(slot))) == LocatorBytes(TlvLocator(cls, typ), slot)
  {
  }

  lemma AreaEncodesAll(loc: Locator, slot: u32, os: seq<GeneveOption>)
    requires Acceptable(loc, os)
    ensures OptionArea(loc, slot, ValueOf(os)) == EncodeAll(LocatorOption(loc, slot) + os)
  {
    var all := LocatorOption(loc, slot) + os;
    MarshalledWellFormed(loc, os);
    if loc.TlvLocator? {
      EncodeAllFront(all);
      LocatorEncodes(loc.cls, loc.typ, slot);
      assert all[1..] == os;
    } else {
      assert all == os;
    }
  }

  /** Class and type tell this option from the locator, whatever the critical bits. */
  predicate ToldApart(loc: Locator, o: GeneveOption) {
    loc.TlvLocator? ==> o.cls != loc.cls || (o.typ != loc.typ && o.typ + 0x80 != loc.typ && o.typ != loc.typ + 0x80)
  }

  lemma CollisionExact(loc: Locator, o: GeneveOption)
    ensures CollidesWith(loc, o) <==> !ToldApart(loc, o)
  {
  }

  /** In the emitted area exactly one option has the identity of the locator: the first,
      which carries the slot. */
  lemma LocatorIsUnique(loc: Locator, slot: u32, os: seq<GeneveOption>)
    requires loc.TlvLocator? && Acceptable(loc, os)
    ensures var all := LocatorOption(loc, slot) + os;
            && ParseTlvs(OptionArea(loc, slot, ValueOf(os))) == Some(all)
            && all[0] == GeneveOption(loc.cls, loc.typ, Be32(slot))
            && forall i :: 0 <= i < |all| ==> (ToldApart(loc, all[i]) <==> i != 0)
  {
    EmittedAreaParses(loc, slot, os);
    var all := LocatorOption(loc, slot) + os;
    forall i | 0 < i < |all| ensures ToldApart(loc, all[i]) {
      CollisionExact(loc, os[i - 1]);
    }
  }

  lemma {:induction false} ParsedAligned(b: seq<u8>)
    requires ParseTlvs(b).Some?
    ensures forall i :: 0 <= i < |ParseTlvs(b).value| ==> Aligned(ParseTlvs(b).value[i])
    decreases |b|
  {
    if b != [] {
      ParsedAligned(b[4 + (b[3] % 0x20) * 4..]);
    }
  }

  lemma AllLength(loc: Locator, slot: u32, os: seq<GeneveOption>)
    ensures |EncodeAll(LocatorOption(loc, slot) + os)| == LocatorLen(loc) + |EncodeAll(os)|
  {
    var all := LocatorOption(loc, slot) + os;
    if loc.TlvLocator? {
      EncodeAllFront(all);
      assert all[1..] == os;
    } else {
      assert all == os;
    }
  }

  /** The marshaller accepts exactly the lists that work on the wire: behind the locator the
      options fit the area, a receiver reads back the same list, and none of them looks like
      the locator. */
  lemma AcceptableExact(loc: Locator, slot: u32, os: seq<GeneveOption>)
    ensures var all := LocatorOption(loc, slot) + os;
            Acceptable(loc, os) <==>
            && |EncodeAll(all)| <= MAX_OPTS_LEN && ParseTlvs(EncodeAll(all)) == Some(all)
            && forall i :: 0 <= i < |os| ==> ToldApart(loc, os[i])
  {
    var own, all := LocatorOption(loc, slot), LocatorOption(loc, slot) + os;
    AllLength(loc, slot, os);
    forall i | 0 <= i < |os| ensures CollidesWith(loc, os[i]) <==> !ToldApart(loc, os[i]) {
      CollisionExact(loc, os[i]);
    }
    if Acceptable(loc, os) {
      AreaEncodesAll(loc, slot, os);
      EmittedAreaParses(loc, slot, os);
    }
    if ParseTlvs(EncodeAll(all)) == Some(all) {
      ParsedAligned(EncodeAll(all));
      forall i | 0 <= i < |os| ensures Aligned(os[i]) {
        assert Aligned(all[|own| + i]);
      }
    }
  }

  lemma CriticalConcat(a: seq<GeneveOption>, b: seq<GeneveOption>)
    ensures AnyCritical(a + b) <==> AnyCritical(a) || AnyCritical(b)
  {
    if AnyCritical(a) {
      var k :| 0 <= k < |a| && Critical(a[k]);
      assert Critical((a + b)[k]);
    }
    if AnyCritical(b) {
      var k :| 0 <= k < |b| && Critical(b[k]);
      assert Critical((a + b)[|a| + k]);
    }
    if AnyCritical(a + b) {
      var k :| 0 <= k < |a + b| && Critical((a + b)[k]);
      assert k < |a| ==> Critical(a[k]);
      assert k >= |a| ==> Critical(b[k - |a|]);
    }
  }
}
