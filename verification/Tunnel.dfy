/** GENEVE encapsulation and decapsulation, byte by byte. */
module Tunnel {
  import opened Wire
  import opened Checksum
  import opened Geneve
  import opened Locators

  const ETH_LEN: nat := 14
  const IP: u16 := 0x0800
  const IPV6: u16 := 0x86dd
  const TEB: u16 := 0x6558
  const UDP_PROTO: u8 := 17

  type Mac = b: seq<u8> | |b| == 6 witness [0, 0, 0, 0, 0, 0]

  datatype Switch = Switch(plan: Plan, switchMac: Mac, portMac: Mac, encapEth: bool, transitIp: u32)

  /** The published transit side of a slot, with the transit device it was provisioned with. */
  datatype Attachment = Attachment(ifindex: nat, gateway: u32, vni: u32, mac: Mac, opts: OptsValue)

  const ZERO_MAC: Mac := [0, 0, 0, 0, 0, 0]
  const BROADCAST: Mac := [0xff, 0xff, 0xff, 0xff, 0xff, 0xff]

  function PortMac(sw: Switch, slot: u32): Mac {
    if sw.portMac != ZERO_MAC then sw.portMac
    else sw.switchMac[..4] + [(if sw.switchMac[4] >= 0x80 then 0 else 0x80) + slot / 0x100 % 0x80, slot % 0x100]
  }

  /** Derived port addresses differ from slot to slot, and from the address of the switch. */
  lemma PortMacsDiffer(sw: Switch, slot: u32, other: u32)
    requires slot < MAX_PORTS && other < MAX_PORTS
    ensures sw.portMac == ZERO_MAC ==> (PortMac(sw, slot) == PortMac(sw, other) <==> slot == other)
    ensures sw.portMac == ZERO_MAC ==> PortMac(sw, slot) != sw.switchMac
    ensures sw.portMac != ZERO_MAC ==> PortMac(sw, slot) == sw.portMac
  {
    if sw.portMac == ZERO_MAC {
      var a, b := PortMac(sw, slot), PortMac(sw, other);
      assert a[4] / 0x80 != sw.switchMac[4] / 0x80;
      assert a[4] % 0x80 == slot / 0x100 && b[4] % 0x80 == other / 0x100 && a[5] == slot % 0x100 && b[5] == other % 0x100;
    }
  }

  function EthHeader(dst: Mac, src: Mac, proto: u16): (b: seq<u8>)
    ensures |b| == ETH_LEN
  {
    dst + src + Be16(proto)
  }

  function IpHeader(total: nat, src: u32, dst: u32, check: seq<u8>): (b: seq<u8>)
    requires |check| == 2
    ensures |b| == 20
  {
    [0x45, 0] + Be16(total % 0x1_0000) + [0, 0, 0x40, 0, 64, UDP_PROTO] + check + Be32(src) + Be32(dst)
  }

  function UdpHeader(sport: u16, dport: u16, length: nat): (b: seq<u8>)
    ensures |b| == 8
  {
    Be16(sport) + Be16(dport) + Be16(length % 0x1_0000) + [0, 0]
  }

  function GeneveHeader(areaLen: nat, critical: bool, proto: u16, vni: nat): (b: seq<u8>)
    requires areaLen <= MAX_OPTS_LEN
    ensures |b| == 8
  {
    [areaLen / 4, if critical then 0x40 else 0] + Be16(proto) + VniBytes(vni) + [0]
  }

  function VniBytes(vni: nat): (b: seq<u8>)
    ensures |b| == 3
    ensures vni <= 0xff_ffff ==> VniOf(b) == vni
  {
    var upper := vni / 0x100;
    [upper / 0x100 % 0x100, upper % 0x100, vni % 0x100]
  }

  function VniOf(b: seq<u8>): (vni: nat)
    requires |b| == 3
    ensures vni <= 0xff_ffff
  {
    (b[0] as int) * 0x1_0000 + (b[1] as int) * 0x100 + b[2]
  }

  /** The inner Ethernet header of Ether-over-GENEVE. */
  function InnerEth(sw: Switch, slot: u32, att: Attachment, proto: u16): seq<u8> {
    if sw.encapEth then EthHeader(if att.mac == ZERO_MAC then BROADCAST else att.mac, PortMac(sw, slot), proto)
    else []
  }

  /** Big-endian and machine-order words of a byte string. */
  function NetWords(b: seq<u8>): (ws: seq<u16>)
    requires |b| % 2 == 0
    ensures |ws| == |b| / 2
  {
    if b == [] then [] else NetWords(b[..|b| - 2]) + [Word16(b[|b| - 2], b[|b| - 1])]
  }

  function HostWords(b: seq<u8>): (ws: seq<u16>)
    requires |b| % 2 == 0
    ensures |ws| == |b| / 2
  {
    if b == [] then [] else HostWords(b[..|b| - 2]) + [Word16(b[|b| - 1], b[|b| - 2])]
  }

  /** The checksum in wire order. */
  function CheckBytes(header: seq<u8>): (b: seq<u8>)
    requires |header| % 2 == 0
    ensures |b| == 2
  {
    Be16(0xffff - Ones(Sum(NetWords(header))))
  }

  /** The options as the data plane sees them: it does not look at an empty value. */
  function Fetched(v: OptsValue): OptsValue {
    if v.len == 0 then v.(critical := 0) else v
  }

  function EncapLen(sw: Switch, att: Attachment): nat {
    36 + LocatorLen(sw.plan.locator) + att.opts.len + if sw.encapEth then ETH_LEN else 0
  }

  function GeneveFor(sw: Switch, slot: u32, att: Attachment, proto: u16): (b: seq<u8>)
    requires WellFormedValue(sw.plan.locator, Fetched(att.opts))
    ensures |b| == 8
  {
    GeneveHeader(LocatorLen(sw.plan.locator) + att.opts.len, CBit(sw.plan.locator, Fetched(att.opts)),
                 if sw.encapEth then TEB else proto, WireVni(sw.plan.locator, slot, att.vni))
  }

  function Joined(parts: seq<seq<u8>>): seq<u8> {
    if parts == [] then [] else Joined(parts[..|parts| - 1]) + parts[|parts| - 1]
  }

  function Packed(eth: seq<u8>, ip: seq<u8>, udp: seq<u8>, geneve: seq<u8>, area: seq<u8>, rest: seq<u8>): seq<u8> {
    Joined([eth, ip, udp, geneve, area, rest])
  }

  /** The packet with a given header checksum. */
  function WithCheck(sw: Switch, slot: u32, att: Attachment, sport: u16, proto: u16, payload: seq<u8>,
                     check: seq<u8>): seq<u8>
    requires WellFormedValue(sw.plan.locator, Fetched(att.opts)) && |check| == 2
  {
    var ipLen := EncapLen(sw, att) + |payload|;
    Packed(
      EthHeader(sw.switchMac, sw.switchMac, IP),
      IpHeader(ipLen, sw.transitIp, att.gateway, check),
      UdpHeader(sport, WirePort(sw.plan, slot), ipLen - 20),
      GeneveFor(sw, slot, att, proto),
      OptionArea(sw.plan.locator, slot, att.opts),
      InnerEth(sw, slot, att, proto) + payload)
  }

  /** The packet that leaves the transit device. */
  function Encapsulated(sw: Switch, slot: u32, att: Attachment, sport: u16, proto: u16, payload: seq<u8>): seq<u8>
    requires WellFormedValue(sw.plan.locator, Fetched(att.opts))
  {
    WithCheck(sw, slot, att, sport, proto, payload, OuterCheck(sw, att, EncapLen(sw, att) + |payload|))
  }

  function OuterCheck(sw: Switch, att: Attachment, total: nat): (b: seq<u8>)
    ensures |b| == 2
  {
    CheckBytes(IpHeader(total, sw.transitIp, att.gateway, [0, 0]))
  }

  /** A frame the transit path takes, as opposed to passing it on untouched. */
  predicate Encapsulable(sw: Switch, att: Attachment, frame: seq<u8>) {
    && |frame| >= ETH_LEN
    && att.ifindex != 0 && att.gateway != 0
    && WellFormedValue(sw.plan.locator, Fetched(att.opts))
    && var proto := Word16(frame[12], frame[13]);
       || (proto == IP && |frame| >= ETH_LEN + 20)
       || (proto == IPV6 && |frame| >= ETH_LEN + 40)
  }

  // ------------------------------------------------------------------ decapsulation

  datatype Delivered = Delivered(slot: u32, frame: seq<u8>)

  function AreaLen(p: seq<u8>): nat
    requires |p| > 42
  {
    (p[42] as int) % 0x40 * 4
  }

  /** The option area a GENEVE packet announces, if the packet is one for us. */
  function ParseOuter(p: seq<u8>): Option<nat> {
    if |p| < 34 then None
    else if Word16(p[12], p[13]) != IP || p[14] % 0x10 != 5 || p[23] != UDP_PROTO then None
    else if |p| < 50 || p[42] / 0x40 != 0 then None
    else
      var areaLen := AreaLen(p);
      if areaLen > MAX_OPTS_LEN || |p| < 50 + areaLen then None else Some(areaLen)
  }

  function LocateIn(sw: Switch, p: seq<u8>, areaLen: nat): Option<(u32, nat)>
    requires |p| >= 50 + areaLen
  {
    Locate(sw.plan, Word16(p[36], p[37]), VniOf(p[46..49]), p[50..50 + areaLen], p[43] / 0x40 % 2 == 1)
  }

  /** The return path: locate the slot, authenticate the gateway and the VNI, strip the
      outer headers and readdress the frame. */
  function Decap(sw: Switch, slots: seq<Option<Attachment>>, p: seq<u8>): Option<Delivered> {
    match ParseOuter(p)
    case None => None
    case Some(areaLen) =>
      match LocateIn(sw, p, areaLen)
      case None => None
      case Some((slot, vni)) =>
        if slot >= |slots| || slots[slot].None? then None
        else if Word32(p[26..30]) != slots[slot].value.gateway || vni != slots[slot].value.vni then None
        else Strip(sw, slot, p, 50 + areaLen)
  }

  function Strip(sw: Switch, slot: u32, p: seq<u8>, at: nat): Option<Delivered>
    requires |p| >= at >= 50
  {
    var proto := Word16(p[44], p[45]);
    if proto != TEB then
      if |p| <= at then None
      else Some(Delivered(slot, EthHeader(PortMac(sw, slot), sw.switchMac, proto) + p[at..]))
    else
      if |p| <= at + ETH_LEN then None
      else Some(Delivered(slot, EthHeader(PortMac(sw, slot), sw.switchMac, Word16(p[at + 12], p[at + 13]))
                                + p[at + ETH_LEN..]))
  }

  // --------------------------------------------------------------------- round trip

  lemma Sections(eth: seq<u8>, ip: seq<u8>, udp: seq<u8>, geneve: seq<u8>, area: seq<u8>, rest: seq<u8>)
    requires |eth| == 14 && |ip| == 20 && |udp| == 8 && |geneve| == 8
    ensures var p := Packed(eth, ip, udp, geneve, area, rest);
            && |p| == 50 + |area| + |rest|
            && p[..14] == eth && p[14..34] == ip && p[34..42] == udp && p[42..50] == geneve
            && p[50..50 + |area|] == area && p[50 + |area|..] == rest
  {
    JoinedSix(eth, ip, udp, geneve, area, rest);
  }

  lemma JoinedSix(a: seq<u8>, b: seq<u8>, c: seq<u8>, d: seq<u8>, e: seq<u8>, f: seq<u8>)
    ensures Joined([a, b, c, d, e, f]) == a + b + c + d + e + f
  {
    assert Joined([a]) == a;
    assert [a, b][..1] == [a];
    assert Joined([a, b]) == a + b;
    assert [a, b, c][..2] == [a, b];
    assert Joined([a, b, c]) == a + b + c;
    assert [a, b, c, d][..3] == [a, b, c];
    assert Joined([a, b, c, d]) == a + b + c + d;
    assert [a, b, c, d, e][..4] == [a, b, c, d];
    assert Joined([a, b, c, d, e]) == a + b + c + d + e;
    assert [a, b, c, d, e, f][..5] == [a, b, c, d, e];
  }

  lemma SubSlice(p: seq<u8>, a: nat, b: nat, c: nat, d: nat)
    requires a <= b <= |p| && c <= d <= b - a
    ensures p[a..b][c..d] == p[a + c..a + d]
  {
    var inner, direct := p[a..b][c..d], p[a + c..a + d];
    forall k | 0 <= k < d - c ensures inner[k] == direct[k] {
      assert inner[k] == p[a..b][c + k];
    }
  }

  lemma HeaderFields(total: nat, src: u32, dst: u32, check: seq<u8>, sport: u16, dport: u16, length: nat)
    requires |check| == 2
    ensures IpHeader(total, src, dst, check)[16..20] == Be32(dst)
    ensures UdpHeader(sport, dport, length)[2..4] == Be16(dport)
  {
  }

  /** What the gateway and the return path rely on in a sent packet. */
  ghost predicate Holds(p: seq<u8>, gateway: u32, port: u16, geneve: seq<u8>, area: seq<u8>, rest: seq<u8>) {
    && |p| == 50 + |area| + |rest|
    && p[30..34] == Be32(gateway)
    && p[36..38] == Be16(port)
    && p[42..50] == geneve
    && p[50..50 + |area|] == area
    && p[50 + |area|..] == rest
  }

  lemma HoldsAt(p: seq<u8>, ip: seq<u8>, udp: seq<u8>, geneve: seq<u8>, area: seq<u8>, rest: seq<u8>, gateway: u32, port: u16)
    requires |p| == 50 + |area| + |rest| && p[14..34] == ip && p[34..42] == udp && p[42..50] == geneve
    requires p[50..50 + |area|] == area && p[50 + |area|..] == rest
    requires ip[16..20] == Be32(gateway) && udp[2..4] == Be16(port)
    ensures Holds(p, gateway, port, geneve, area, rest)
  {
    SubSlice(p, 14, 34, 16, 20);
    SubSlice(p, 34, 42, 2, 4);
  }

  lemma WithCheckIs(sw: Switch, slot: u32, att: Attachment, sport: u16, proto: u16, payload: seq<u8>, check: seq<u8>,
                    total: nat)
    requires WellFormedValue(sw.plan.locator, Fetched(att.opts)) && |check| == 2
    requires total == EncapLen(sw, att) + |payload|
    ensures WithCheck(sw, slot, att, sport, proto, payload, check) ==
            Packed(EthHeader(sw.switchMac, sw.switchMac, IP), IpHeader(total, sw.transitIp, att.gateway, check),
                   UdpHeader(sport, WirePort(sw.plan, slot), total - 20), GeneveFor(sw, slot, att, proto),
                   OptionArea(sw.plan.locator, slot, att.opts), InnerEth(sw, slot, att, proto) + payload)
  {
  }

  lemma SentFields(sw: Switch, slot: u32, att: Attachment, sport: u16, proto: u16, payload: seq<u8>, check: seq<u8>)
    requires WellFormedValue(sw.plan.locator, Fetched(att.opts)) && |check| == 2
    ensures Holds(WithCheck(sw, slot, att, sport, proto, payload, check), att.gateway, WirePort(sw.plan, slot),
                  GeneveFor(sw, slot, att, proto), OptionArea(sw.plan.locator, slot, att.opts),
                  InnerEth(sw, slot, att, proto) + payload)
  {
    var ipLen := EncapLen(sw, att) + |payload|;
    HeaderFields(ipLen, sw.transitIp, att.gateway, check, sport, WirePort(sw.plan, slot), ipLen - 20);
    WithCheckIs(sw, slot, att, sport, proto, payload, check, ipLen);
    Sections(
      EthHeader(sw.switchMac, sw.switchMac, IP), IpHeader(ipLen, sw.transitIp, att.gateway, check),
      UdpHeader(sport, WirePort(sw.plan, slot), ipLen - 20), GeneveFor(sw, slot, att, proto),
      OptionArea(sw.plan.locator, slot, att.opts), InnerEth(sw, slot, att, proto) + payload);
    HoldsAt(
      WithCheck(sw, slot, att, sport, proto, payload, check), IpHeader(ipLen, sw.transitIp, att.gateway, check),
      UdpHeader(sport, WirePort(sw.plan, slot), ipLen - 20), GeneveFor(sw, slot, att, proto),
      OptionArea(sw.plan.locator, slot, att.opts), InnerEth(sw, slot, att, proto) + payload,
      att.gateway, WirePort(sw.plan, slot));
  }

  // ------------------------------------------------------------- the headers in place

  ghost predicate EthFields(h: seq<u8>, dst: Mac, src: Mac, proto: u16) {
    |h| == 14 && h[..6] == dst && h[6..12] == src && h[12..14] == Be16(proto)
  }

  ghost predicate IpFields(h: seq<u8>, check: seq<u8>, src: u32, dst: u32) {
    && |h| == 20 && h[0] == 0x45 && h[1] == 0 && h[4..8] == [0, 0, 0x40, 0] && h[8] == 64 && h[9] == 17
    && h[10..12] == check && h[12..16] == Be32(src) && h[16..20] == Be32(dst)
  }

  ghost predicate UdpFields(h: seq<u8>, sport: u16, dport: u16) {
    |h| == 8 && h[..2] == Be16(sport) && h[2..4] == Be16(dport) && h[6..8] == [0, 0]
  }

  /** The outer headers at their offsets: from and to the switch's own address on the link,
      an IPv4 header without options and fragments, with a time to live of 64, from the
      transit address to the gateway, and a UDP header without checksum. */
  ghost predicate OuterLayout(p: seq<u8>, mac: Mac, check: seq<u8>, src: u32, dst: u32, sport: u16, dport: u16) {
    && |p| >= 42 && p[..6] == mac && p[6..12] == mac && p[12] == 0x08 && p[13] == 0x00
    && p[14] == 0x45 && p[15] == 0 && p[18..22] == [0, 0, 0x40, 0] && p[22] == 64 && p[23] == 17
    && p[24..26] == check && p[26..30] == Be32(src) && p[30..34] == Be32(dst)
    && p[34..36] == Be16(sport) && p[36..38] == Be16(dport) && p[40..42] == [0, 0]
  }

  lemma EthFieldsOf(dst: Mac, src: Mac, proto: u16)
    ensures EthFields(EthHeader(dst, src, proto), dst, src, proto)
  {
  }

  lemma IpFieldsOf(total: nat, src: u32, dst: u32, check: seq<u8>)
    requires |check| == 2
    ensures IpFields(IpHeader(total, src, dst, check), check, src, dst)
  {
    SixParts([0x45, 0], Be16(total % 0x1_0000), [0, 0, 0x40, 0, 64, 17], check, Be32(src), Be32(dst));
  }

  lemma SixParts(a: seq<u8>, b: seq<u8>, c: seq<u8>, check: seq<u8>, d: seq<u8>, e: seq<u8>)
    requires |a| == |b| == |check| == 2 && |c| == 6 && |d| == |e| == 4
    ensures var h := a + b + c + check + d + e;
            && h[0] == a[0] && h[1] == a[1] && h[4..8] == c[..4] && h[8] == c[4] && h[9] == c[5]
            && h[10..12] == check && h[12..16] == d && h[16..20] == e
  {
  }

  lemma UdpFieldsOf(sport: u16, dport: u16, length: nat)
    ensures UdpFields(UdpHeader(sport, dport, length), sport, dport)
  {
  }

  lemma OuterAt(p: seq<u8>, eth: seq<u8>, ip: seq<u8>, udp: seq<u8>, mac: Mac, check: seq<u8>, src: u32, dst: u32,
                sport: u16, dport: u16)
    requires |p| >= 42 && p[..14] == eth && p[14..34] == ip && p[34..42] == udp
    requires EthFields(eth, mac, mac, IP) && IpFields(ip, check, src, dst) && UdpFields(udp, sport, dport)
    ensures OuterLayout(p, mac, check, src, dst, sport, dport)
  {
    assert p[..6] == eth[..6] && p[6..12] == eth[6..12];
    assert p[12] == eth[12..14][0] && p[13] == eth[12..14][1];
    IpAt(p, ip);
    SubSlice(p, 34, 42, 0, 2);
    SubSlice(p, 34, 42, 2, 4);
    SubSlice(p, 34, 42, 6, 8);
  }

  lemma IpAt(p: seq<u8>, ip: seq<u8>)
    requires |p| >= 42 && p[14..34] == ip
    ensures p[14] == ip[0] && p[15] == ip[1] && p[18..22] == ip[4..8] && p[22] == ip[8] && p[23] == ip[9]
    ensures p[24..26] == ip[10..12] && p[26..30] == ip[12..16] && p[30..34] == ip[16..20]
  {
    SubSlice(p, 14, 34, 4, 8);
    SubSlice(p, 14, 34, 10, 12);
    SubSlice(p, 14, 34, 12, 16);
    SubSlice(p, 14, 34, 16, 20);
  }

  /** Every byte of the outer headers of a sent packet but the two lengths. */
  lemma SentLayout(sw: Switch, slot: u32, att: Attachment, sport: u16, proto: u16, payload: seq<u8>, check: seq<u8>)
    requires WellFormedValue(sw.plan.locator, Fetched(att.opts)) && |check| == 2
    ensures OuterLayout(WithCheck(sw, slot, att, sport, proto, payload, check), sw.switchMac, check, sw.transitIp,
                        att.gateway, sport, WirePort(sw.plan, slot))
  {
    var ipLen := EncapLen(sw, att) + |payload|;
    WithCheckIs(sw, slot, att, sport, proto, payload, check, ipLen);
    EthFieldsOf(sw.switchMac, sw.switchMac, IP);
    IpFieldsOf(ipLen, sw.transitIp, att.gateway, check);
    UdpFieldsOf(sport, WirePort(sw.plan, slot), ipLen - 20);
    Sections(
      EthHeader(sw.switchMac, sw.switchMac, IP), IpHeader(ipLen, sw.transitIp, att.gateway, check),
      UdpHeader(sport, WirePort(sw.plan, slot), ipLen - 20), GeneveFor(sw, slot, att, proto),
      OptionArea(sw.plan.locator, slot, att.opts), InnerEth(sw, slot, att, proto) + payload);
    OuterAt(
      WithCheck(sw, slot, att, sport, proto, payload, check),
      EthHeader(sw.switchMac, sw.switchMac, IP), IpHeader(ipLen, sw.transitIp, att.gateway, check),
      UdpHeader(sport, WirePort(sw.plan, slot), ipLen - 20),
      sw.switchMac, check, sw.transitIp, att.gateway, sport, WirePort(sw.plan, slot));
  }

  /** The GENEVE base header and the inner header at their offsets. */
  ghost predicate InnerLayout(p: seq<u8>, n: nat, critical: bool, eth: bool, dst: Mac, src: Mac, proto: u16, vni: nat,
                              payload: seq<u8>) {
    && |p| == 50 + n + (if eth then 14 else 0) + |payload|
    && p[42] == n / 4 && p[43] == (if critical then 0x40 else 0) && p[49] == 0
    && p[44..46] == Be16(if eth then 0x6558 else proto) && VniOf(p[46..49]) == vni
    && (eth ==> p[50 + n..56 + n] == dst && p[56 + n..62 + n] == src && p[62 + n..64 + n] == Be16(proto))
    && p[|p| - |payload|..] == payload
  }

  lemma InnerParts(eth: seq<u8>, dst: Mac, src: Mac, proto: u16, payload: seq<u8>)
    requires EthFields(eth, dst, src, proto)
    ensures var rest := eth + payload;
            rest[..6] == dst && rest[6..12] == src && rest[12..14] == Be16(proto) && rest[14..] == payload
  {
    assert (eth + payload)[..14] == eth;
    SubSlice(eth + payload, 0, 14, 0, 6);
    SubSlice(eth + payload, 0, 14, 6, 12);
    SubSlice(eth + payload, 0, 14, 12, 14);
  }

  lemma InnerAt(p: seq<u8>, g: seq<u8>, n: nat, rest: seq<u8>, critical: bool, eth: bool, dst: Mac, src: Mac, proto: u16,
                vni: nat, payload: seq<u8>)
    requires |p| == 50 + n + |rest| && p[42..50] == g && p[50 + n..] == rest
    requires |g| == 8 && g[0] == n / 4 && g[1] == (if critical then 0x40 else 0) && g[7] == 0
    requires g[2..4] == Be16(if eth then 0x6558 else proto) && VniOf(g[4..7]) == vni
    requires RestIs(rest, eth, dst, src, proto, payload)
    ensures InnerLayout(p, n, critical, eth, dst, src, proto, vni, payload)
  {
    SubSlice(p, 42, 50, 2, 4);
    SubSlice(p, 42, 50, 4, 7);
    assert p[42] == p[42..50][0] && p[43] == p[42..50][1] && p[49] == p[42..50][7];
    if eth {
      SubSlice(p, 50 + n, |p|, 0, 6);
      SubSlice(p, 50 + n, |p|, 6, 12);
      SubSlice(p, 50 + n, |p|, 12, 14);
      SubSlice(p, 50 + n, |p|, 14, |rest|);
    }
  }

  /** The rest of a sent packet: the area length, the C bit, the payload's type and the VNI
      on the wire; the inner Ethernet header, to the transit MAC or to everyone, from the
      port, if the switch uses one; and the payload. */
  lemma SentInner(sw: Switch, slot: u32, att: Attachment, sport: u16, proto: u16, payload: seq<u8>, check: seq<u8>)
    requires WellFormedValue(sw.plan.locator, Fetched(att.opts)) && |check| == 2
    requires WireVni(sw.plan.locator, slot, att.vni) <= 0xff_ffff
    ensures InnerLayout(WithCheck(sw, slot, att, sport, proto, payload, check), |OptionArea(sw.plan.locator, slot, att.opts)|,
                        CBit(sw.plan.locator, Fetched(att.opts)), sw.encapEth,
                        if att.mac == ZERO_MAC then BROADCAST else att.mac, PortMac(sw, slot), proto,
                        WireVni(sw.plan.locator, slot, att.vni), payload)
  {
    var ipLen := EncapLen(sw, att) + |payload|;
    WithCheckIs(sw, slot, att, sport, proto, payload, check, ipLen);
    GeneveParts(sw, slot, att, proto);
    AreaParts(sw.plan.locator, slot, att.opts);
    RestParts(sw, slot, att, proto, payload);
    PackedInner(
      EthHeader(sw.switchMac, sw.switchMac, IP), IpHeader(ipLen, sw.transitIp, att.gateway, check),
      UdpHeader(sport, WirePort(sw.plan, slot), ipLen - 20), GeneveFor(sw, slot, att, proto),
      OptionArea(sw.plan.locator, slot, att.opts), InnerEth(sw, slot, att, proto) + payload,
      CBit(sw.plan.locator, Fetched(att.opts)), sw.encapEth, if att.mac == ZERO_MAC then BROADCAST else att.mac,
      PortMac(sw, slot), proto, WireVni(sw.plan.locator, slot, att.vni), payload);
  }

  /** The inner frame: the payload, behind an Ethernet header if the switch uses one. */
  ghost predicate RestIs(rest: seq<u8>, eth: bool, dst: Mac, src: Mac, proto: u16, payload: seq<u8>) {
    if eth then |rest| == 14 + |payload| && rest[..6] == dst && rest[6..12] == src && rest[12..14] == Be16(proto)
                && rest[14..] == payload
    else rest == payload
  }

  lemma RestParts(sw: Switch, slot: u32, att: Attachment, proto: u16, payload: seq<u8>)
    ensures RestIs(InnerEth(sw, slot, att, proto) + payload, sw.encapEth,
                   if att.mac == ZERO_MAC then BROADCAST else att.mac, PortMac(sw, slot), proto, payload)
  {
    var dst := if att.mac == ZERO_MAC then BROADCAST else att.mac;
    if sw.encapEth {
      EthFieldsOf(dst, PortMac(sw, slot), proto);
      InnerParts(EthHeader(dst, PortMac(sw, slot), proto), dst, PortMac(sw, slot), proto, payload);
    } else {
      assert InnerEth(sw, slot, att, proto) + payload == payload;
    }
  }

  lemma PackedInner(eth: seq<u8>, ip: seq<u8>, udp: seq<u8>, g: seq<u8>, area: seq<u8>, rest: seq<u8>, critical: bool,
                    encap: bool, dst: Mac, src: Mac, proto: u16, vni: nat, payload: seq<u8>)
    requires |eth| == 14 && |ip| == 20 && |udp| == 8
    requires |g| == 8 && g[0] == |area| / 4 && g[1] == (if critical then 0x40 else 0) && g[7] == 0
    requires g[2..4] == Be16(if encap then 0x6558 else proto) && VniOf(g[4..7]) == vni
    requires RestIs(rest, encap, dst, src, proto, payload)
    ensures InnerLayout(Packed(eth, ip, udp, g, area, rest), |area|, critical, encap, dst, src, proto, vni, payload)
  {
    Sections(eth, ip, udp, g, area, rest);
    InnerAt(Packed(eth, ip, udp, g, area, rest), g, |area|, rest, critical, encap, dst, src, proto, vni, payload);
  }

  /** A sent packet is one the return path would parse, with the area it announces. */
  lemma SentParses(sw: Switch, slot: u32, att: Attachment, sport: u16, proto: u16, payload: seq<u8>, check: seq<u8>)
    requires WellFormedValue(sw.plan.locator, Fetched(att.opts)) && |check| == 2
    requires WireVni(sw.plan.locator, slot, att.vni) <= 0xff_ffff
    ensures ParseOuter(WithCheck(sw, slot, att, sport, proto, payload, check)) ==
            Some(LocatorLen(sw.plan.locator) + att.opts.len)
  {
    var ipLen := EncapLen(sw, att) + |payload|;
    WithCheckIs(sw, slot, att, sport, proto, payload, check, ipLen);
    EthFieldsOf(sw.switchMac, sw.switchMac, IP);
    IpFieldsOf(ipLen, sw.transitIp, att.gateway, check);
    UdpFieldsOf(sport, WirePort(sw.plan, slot), ipLen - 20);
    GeneveParts(sw, slot, att, proto);
    AreaParts(sw.plan.locator, slot, att.opts);
    PackedParses(
      EthHeader(sw.switchMac, sw.switchMac, IP), IpHeader(ipLen, sw.transitIp, att.gateway, check),
      UdpHeader(sport, WirePort(sw.plan, slot), ipLen - 20), GeneveFor(sw, slot, att, proto),
      OptionArea(sw.plan.locator, slot, att.opts), InnerEth(sw, slot, att, proto) + payload,
      sw.switchMac, check, sw.transitIp, att.gateway, sport, WirePort(sw.plan, slot));
  }

  lemma PackedParses(eth: seq<u8>, ip: seq<u8>, udp: seq<u8>, geneve: seq<u8>, area: seq<u8>, rest: seq<u8>,
                     mac: Mac, check: seq<u8>, src: u32, dst: u32, sport: u16, dport: u16)
    requires EthFields(eth, mac, mac, IP) && IpFields(ip, check, src, dst) && UdpFields(udp, sport, dport)
    requires |geneve| == 8 && geneve[0] == |area| / 4 && |area| % 4 == 0 && |area| <= MAX_OPTS_LEN
    ensures ParseOuter(Packed(eth, ip, udp, geneve, area, rest)) == Some(|area|)
  {
    var p := Packed(eth, ip, udp, geneve, area, rest);
    Sections(eth, ip, udp, geneve, area, rest);
    OuterAt(p, eth, ip, udp, mac, check, src, dst, sport, dport);
    assert p[42] == p[42..50][0];
    LaidOutParses(p, mac, check, src, dst, sport, dport, |area|);
  }

  lemma LaidOutParses(p: seq<u8>, mac: Mac, check: seq<u8>, src: u32, dst: u32, sport: u16, dport: u16, n: nat)
    requires OuterLayout(p, mac, check, src, dst, sport, dport)
    requires |p| >= 50 + n && p[42] == n / 4 && n % 4 == 0 && n <= MAX_OPTS_LEN
    ensures ParseOuter(p) == Some(n)
  {
    AnnouncedArea(p, n);
  }

  /** A gateway that sends the inner frame back: to us, over the same port and VNI, with
      the locator option but without the opaque ones. Inner MAC addresses are its own. */
  ghost predicate Reflects(sw: Switch, p: seq<u8>, q: seq<u8>) {
    var own := LocatorLen(sw.plan.locator);
    && |q| >= 50 + own && |p| >= 50 && |p| >= 50 + AreaLen(p) >= 50 + own
    && Word16(q[12], q[13]) == IP && q[14] % 0x10 == 5 && q[23] == UDP_PROTO
    && q[26..30] == p[30..34]
    && q[36..38] == p[36..38]
    && q[42] == own / 4 && (q[43] / 0x40 % 2 == 1 <==> LocatorCritical(sw.plan.locator))
    && q[44..49] == p[44..49]
    && q[50..50 + own] == p[50..50 + own]
    && SameInner(sw.encapEth, p[50 + AreaLen(p)..], q[50 + own..])
  }

  ghost predicate SameInner(eth: bool, a: seq<u8>, b: seq<u8>) {
    if eth then |a| == |b| >= 12 && a[12..] == b[12..] else a == b
  }

  lemma HeaderParts(areaLen: nat, critical: bool, proto: u16, vni: nat)
    requires areaLen <= MAX_OPTS_LEN
    ensures var g := GeneveHeader(areaLen, critical, proto, vni);
            && g[0] == areaLen / 4 && g[1] == (if critical then 0x40 else 0) && g[7] == 0
            && g[2..4] == Be16(proto) && g[4..7] == VniBytes(vni)
  {
  }

  lemma GeneveSlices(p: seq<u8>, q: seq<u8>, g: seq<u8>)
    requires |p| >= 50 && |q| >= 50 && p[42..50] == g && q[44..49] == p[44..49]
    ensures p[42] == g[0] && q[44..46] == g[2..4] && q[46..49] == g[4..7]
  {
    SubSlice(p, 42, 50, 2, 7);
    assert p[42] == p[42..50][0];
    assert q[44..49] == g[2..7];
    SubSlice(q, 44, 49, 0, 2);
    SubSlice(q, 44, 49, 2, 5);
    SubSlice(g, 2, 7, 0, 2);
    SubSlice(g, 2, 7, 2, 5);
  }

  lemma ReflectedParses(sw: Switch, p: seq<u8>, q: seq<u8>)
    requires Reflects(sw, p, q)
    ensures ParseOuter(q) == Some(LocatorLen(sw.plan.locator))
  {
  }

  lemma ReflectedInner(sw: Switch, p: seq<u8>, q: seq<u8>, area: seq<u8>, rest: seq<u8>)
    requires Reflects(sw, p, q) && AreaLen(p) == |area| >= LocatorLen(sw.plan.locator)
    requires |p| == 50 + |area| + |rest| && p[50..50 + |area|] == area && p[50 + |area|..] == rest
    ensures q[50..50 + LocatorLen(sw.plan.locator)] == area[..LocatorLen(sw.plan.locator)]
    ensures SameInner(sw.encapEth, rest, q[50 + LocatorLen(sw.plan.locator)..])
  {
    SubSlice(p, 50, 50 + |area|, 0, LocatorLen(sw.plan.locator));
  }

  lemma AnnouncedArea(p: seq<u8>, n: nat)
    requires |p| > 42 && p[42] == n / 4 && n % 4 == 0 && n <= MAX_OPTS_LEN
    ensures AreaLen(p) == n
  {
  }

  /** What a reflected packet decodes to, field by field. */
  lemma ReflectedFields(sw: Switch, p: seq<u8>, q: seq<u8>, gateway: u32, port: u16, g: seq<u8>, proto: u16, vni: nat,
                        area: seq<u8>, rest: seq<u8>)
    requires |area| <= MAX_OPTS_LEN && |area| % 4 == 0 && |area| >= LocatorLen(sw.plan.locator)
    requires |g| == 8 && g[0] == |area| / 4 && g[2..4] == Be16(proto) && VniOf(g[4..7]) == vni
    requires Holds(p, gateway, port, g, area, rest) && Reflects(sw, p, q)
    ensures Word32(q[26..30]) == gateway && Word16(q[36], q[37]) == port
    ensures VniOf(q[46..49]) == vni && Word16(q[44], q[45]) == proto
    ensures q[50..50 + LocatorLen(sw.plan.locator)] == area[..LocatorLen(sw.plan.locator)]
    ensures SameInner(sw.encapEth, rest, q[50 + LocatorLen(sw.plan.locator)..])
  {
    GeneveSlices(p, q, g);
    AnnouncedArea(p, |area|);
    ReflectedInner(sw, p, q, area, rest);
    WordsOf(q, 36, port);
    WordsOf(q, 44, proto);
  }

  lemma WordsOf(q: seq<u8>, at: nat, w: u16)
    requires |q| >= at + 2 && q[at..at + 2] == Be16(w)
    ensures Word16(q[at], q[at + 1]) == w
  {
    assert q[at] == q[at..at + 2][0] && q[at + 1] == q[at..at + 2][1];
  }

  /** What is left behind the area: the inner frame. */
  lemma ReflectedRest(q: seq<u8>, own: nat, proto: u16, macs: seq<u8>, payload: seq<u8>)
    requires |q| >= 50 + own && |macs| == 12
    requires SameInner(true, macs + Be16(proto) + payload, q[50 + own..])
    ensures |q| == 50 + own + ETH_LEN + |payload| && q[50 + own + ETH_LEN..] == payload
    ensures Word16(q[50 + own + 12], q[50 + own + 13]) == proto
  {
    var back := q[50 + own..];
    assert (macs + Be16(proto) + payload)[12..] == Be16(proto) + payload;
    assert back[12..] == Be16(proto) + payload;
    assert q[50 + own + 12] == back[12..][0] && q[50 + own + 13] == back[12..][1];
    assert q[50 + own + ETH_LEN..] == back[12..][2..];
  }

  /** A returned packet, read at the offsets the return path uses. */
  ghost predicate Returned(sw: Switch, slot: u32, att: Attachment, proto: u16, rest: seq<u8>, q: seq<u8>) {
    var own := LocatorLen(sw.plan.locator);
    && ParseOuter(q) == Some(own) && Word32(q[26..30]) == att.gateway
    && Word16(q[36], q[37]) == WirePort(sw.plan, slot)
    && VniOf(q[46..49]) == WireVni(sw.plan.locator, slot, att.vni)
    && q[50..50 + own] == LocatorBytes(sw.plan.locator, slot)
    && (q[43] / 0x40 % 2 == 1 <==> LocatorCritical(sw.plan.locator))
    && Word16(q[44], q[45]) == (if sw.encapEth then TEB else proto)
    && SameInner(sw.encapEth, rest, q[50 + own..])
  }

  lemma GeneveParts(sw: Switch, slot: u32, att: Attachment, proto: u16)
    requires WellFormedValue(sw.plan.locator, Fetched(att.opts))
    requires WireVni(sw.plan.locator, slot, att.vni) <= 0xff_ffff
    ensures var g := GeneveFor(sw, slot, att, proto);
            && g[0] == (LocatorLen(sw.plan.locator) + att.opts.len) / 4
            && g[1] == (if CBit(sw.plan.locator, Fetched(att.opts)) then 0x40 else 0) && g[7] == 0
            && g[2..4] == Be16(if sw.encapEth then TEB else proto)
            && VniOf(g[4..7]) == WireVni(sw.plan.locator, slot, att.vni)
  {
    HeaderParts(LocatorLen(sw.plan.locator) + att.opts.len, CBit(sw.plan.locator, Fetched(att.opts)),
                if sw.encapEth then TEB else proto, WireVni(sw.plan.locator, slot, att.vni));
  }

  lemma AreaParts(loc: Locator, slot: u32, v: OptsValue)
    requires WellFormedValue(loc, Fetched(v))
    ensures var area := OptionArea(loc, slot, v);
            && |area| == LocatorLen(loc) + v.len && |area| % 4 == 0
            && area[..LocatorLen(loc)] == LocatorBytes(loc, slot)
  {
  }

  lemma ReflectedReturns(sw: Switch, slot: u32, att: Attachment, proto: u16, rest: seq<u8>, p: seq<u8>, q: seq<u8>)
    requires WellFormedValue(sw.plan.locator, Fetched(att.opts))
    requires WireVni(sw.plan.locator, slot, att.vni) <= 0xff_ffff
    requires Holds(p, att.gateway, WirePort(sw.plan, slot), GeneveFor(sw, slot, att, proto),
                   OptionArea(sw.plan.locator, slot, att.opts), rest)
    requires Reflects(sw, p, q)
    ensures Returned(sw, slot, att, proto, rest, q)
  {
    var loc := sw.plan.locator;
    ReflectedParses(sw, p, q);
    GeneveParts(sw, slot, att, proto);
    AreaParts(loc, slot, att.opts);
    ReflectedFields(sw, p, q, att.gateway, WirePort(sw.plan, slot), GeneveFor(sw, slot, att, proto),
                    if sw.encapEth then TEB else proto, WireVni(loc, slot, att.vni),
                    OptionArea(loc, slot, att.opts), rest);
  }

  /** A packet that parses, locates the slot and carries its gateway is stripped for it. */
  lemma ReturnedDecaps(sw: Switch, slots: seq<Option<Attachment>>, slot: u32, att: Attachment, proto: u16,
                       rest: seq<u8>, q: seq<u8>)
    requires ValidPlan(sw.plan) && slot < sw.plan.nPorts && slot < |slots| && slots[slot] == Some(att)
    requires ValidVni(sw.plan.locator, att.vni) && Returned(sw, slot, att, proto, rest, q)
    ensures Decap(sw, slots, q) == Strip(sw, slot, q, 50 + LocatorLen(sw.plan.locator))
  {
    LocateInverts(sw.plan, slot, att.vni);
    assert LocateIn(sw, q, LocatorLen(sw.plan.locator)) == Some((slot, att.vni));
  }

  /** Encapsulate, let the gateway reflect, decapsulate: the same slot gets the same
      payload under the same ethertype, addressed to it by the switch. */
  lemma RoundTrip(sw: Switch, slots: seq<Option<Attachment>>, slot: u32, att: Attachment, sport: u16, proto: u16,
                  payload: seq<u8>, q: seq<u8>)
    requires ValidPlan(sw.plan) && slot < sw.plan.nPorts && slot < |slots| && slots[slot] == Some(att)
    requires ValidVni(sw.plan.locator, att.vni) && WellFormedValue(sw.plan.locator, Fetched(att.opts))
    requires (proto == IP || proto == IPV6) && payload != []
    ensures Reflects(sw, Encapsulated(sw, slot, att, sport, proto, payload), q) ==>
              Decap(sw, slots, q) ==
              Some(Delivered(slot, EthHeader(PortMac(sw, slot), sw.switchMac, proto) + payload))
  {
    if Reflects(sw, Encapsulated(sw, slot, att, sport, proto, payload), q) {
      SentReturns(sw, slot, att, sport, proto, payload, OuterCheck(sw, att, EncapLen(sw, att) + |payload|), q);
      ReturnedDelivers(sw, slots, slot, att, proto, payload, q);
    }
  }

  lemma SentReturns(sw: Switch, slot: u32, att: Attachment, sport: u16, proto: u16, payload: seq<u8>,
                    check: seq<u8>, q: seq<u8>)
    requires ValidPlan(sw.plan) && slot < sw.plan.nPorts && |check| == 2
    requires ValidVni(sw.plan.locator, att.vni) && WellFormedValue(sw.plan.locator, Fetched(att.opts))
    requires Reflects(sw, WithCheck(sw, slot, att, sport, proto, payload, check), q)
    ensures Returned(sw, slot, att, proto, InnerEth(sw, slot, att, proto) + payload, q)
  {
    SentFields(sw, slot, att, sport, proto, payload, check);
    LocateInverts(sw.plan, slot, att.vni);
    ReflectedReturns(sw, slot, att, proto, InnerEth(sw, slot, att, proto) + payload,
                     WithCheck(sw, slot, att, sport, proto, payload, check), q);
  }

  lemma ReturnedDelivers(sw: Switch, slots: seq<Option<Attachment>>, slot: u32, att: Attachment, proto: u16,
                         payload: seq<u8>, q: seq<u8>)
    requires ValidPlan(sw.plan) && slot < sw.plan.nPorts && slot < |slots| && slots[slot] == Some(att)
    requires ValidVni(sw.plan.locator, att.vni) && proto != TEB && payload != []
    requires Returned(sw, slot, att, proto, InnerEth(sw, slot, att, proto) + payload, q)
    ensures Decap(sw, slots, q) ==
            Some(Delivered(slot, EthHeader(PortMac(sw, slot), sw.switchMac, proto) + payload))
  {
    var inner := InnerEth(sw, slot, att, proto);
    ReturnedDecaps(sw, slots, slot, att, proto, inner + payload, q);
    assert sw.encapEth ==> inner[12..] == Be16(proto);
    StripsTo(sw, slot, proto, payload, inner, q);
  }

  /** Stripping a located packet yields the frame inside. */
  lemma StripsTo(sw: Switch, slot: u32, proto: u16, payload: seq<u8>, inner: seq<u8>, q: seq<u8>)
    requires payload != [] && proto != TEB && |q| >= 50 + LocatorLen(sw.plan.locator)
    requires if sw.encapEth then |inner| == ETH_LEN && inner[12..] == Be16(proto) else inner == []
    requires SameInner(sw.encapEth, inner + payload, q[50 + LocatorLen(sw.plan.locator)..])
    requires Word16(q[44], q[45]) == if sw.encapEth then TEB else proto
    ensures Strip(sw, slot, q, 50 + LocatorLen(sw.plan.locator)) ==
            Some(Delivered(slot, EthHeader(PortMac(sw, slot), sw.switchMac, proto) + payload))
  {
    var own := LocatorLen(sw.plan.locator);
    if sw.encapEth {
      assert inner + payload == inner[..12] + Be16(proto) + payload;
      ReflectedRest(q, own, proto, inner[..12], payload);
    } else {
      assert inner + payload == payload;
    }
  }

  /** A packet of the shape we send can be reflected. */
  lemma MirrorReflects(sw: Switch, p: seq<u8>)
    requires |p| >= 50 && |p| >= 50 + AreaLen(p) >= 50 + LocatorLen(sw.plan.locator)
    requires Word16(p[12], p[13]) == IP && p[14] % 0x10 == 5 && p[23] == UDP_PROTO
    requires sw.encapEth ==> |p| >= 50 + AreaLen(p) + 12
    ensures Reflects(sw, p, Mirror(sw, p))
  {
    var q, own := Mirror(sw, p), LocatorLen(sw.plan.locator);
    var head := p[..26] + p[30..34] + p[26..30] + p[34..42];
    Swapped(p[..26], p[30..34], p[26..30], p[34..42]);
    SubSlice(p, 34, 42, 2, 4);
    assert q[..42] == head;
    assert q[12] == p[12] && q[13] == p[13] && q[14] == p[14] && q[23] == p[23];
    SubSlice(q, 0, 42, 26, 30);
    SubSlice(q, 0, 42, 36, 38);
    assert q[44..50] == p[44..50];
    SubSlice(q, 44, 50, 0, 5);
    SubSlice(p, 44, 50, 0, 5);
    assert q[50..50 + own] == p[50..50 + own];
    assert q[50 + own..] == p[50 + AreaLen(p)..];
  }

  /** The mirror image of a packet reflects it. */
  ghost predicate Mirrors(sw: Switch, p: seq<u8>) {
    && |p| >= 50 && |p| >= 50 + AreaLen(p) >= 50 + LocatorLen(sw.plan.locator)
    && Reflects(sw, p, Mirror(sw, p))
  }

  lemma ParsedMirrors(sw: Switch, p: seq<u8>)
    requires ParseOuter(p).Some? && ParseOuter(p).value >= LocatorLen(sw.plan.locator)
    requires sw.encapEth ==> |p| >= 50 + ParseOuter(p).value + 12
    ensures Mirrors(sw, p)
  {
    MirrorReflects(sw, p);
  }

  /** Every sent packet can be reflected, and every reflection of it, such as its mirror
      image, brings the payload back. */
  lemma SentCanReturn(sw: Switch, slot: u32, att: Attachment, sport: u16, proto: u16, payload: seq<u8>)
    requires ValidPlan(sw.plan) && slot < sw.plan.nPorts
    requires ValidVni(sw.plan.locator, att.vni) && WellFormedValue(sw.plan.locator, Fetched(att.opts))
    ensures Mirrors(sw, Encapsulated(sw, slot, att, sport, proto, payload))
  {
    var total := EncapLen(sw, att) + |payload|;
    var check := OuterCheck(sw, att, total);
    LocateInverts(sw.plan, slot, att.vni);
    EncapsulatedIs(sw, slot, att, sport, proto, payload, check, total);
    WithCheckLength(sw, slot, att, sport, proto, payload, check);
    SentParses(sw, slot, att, sport, proto, payload, check);
    ParsedMirrors(sw, WithCheck(sw, slot, att, sport, proto, payload, check));
  }

  lemma Swapped(a: seq<u8>, b: seq<u8>, c: seq<u8>, d: seq<u8>)
    requires |a| == 26 && |b| == 4 && |c| == 4 && |d| == 8
    ensures var head := a + b + c + d; head[..26] == a && head[26..30] == b && head[36..38] == d[2..4]
  {
  }

  function Mirror(sw: Switch, p: seq<u8>): seq<u8>
    requires |p| >= 50 && |p| >= 50 + AreaLen(p) >= 50 + LocatorLen(sw.plan.locator)
  {
    var own := LocatorLen(sw.plan.locator);
    (p[..26] + p[30..34] + p[26..30] + p[34..42])
    + [own / 4, if LocatorCritical(sw.plan.locator) then 0x40 else 0] + p[44..50]
    + p[50..50 + own] + p[50 + AreaLen(p)..]
  }

  /** Nothing is delivered that the slot's gateway did not address to the slot, over the
      slot's own port, VNI and locator, with nothing else in the option area. */
  lemma DeliveredIsAuthentic(sw: Switch, slots: seq<Option<Attachment>>, q: seq<u8>)
    requires ValidPlan(sw.plan) && Decap(sw, slots, q).Some?
    ensures var d := Decap(sw, slots, q).value;
            var own := LocatorLen(sw.plan.locator);
            && d.slot < sw.plan.nPorts && d.slot < |slots| && slots[d.slot].Some?
            && ParseOuter(q) == Some(own)
            && var att := slots[d.slot].value;
               && Word32(q[26..30]) == att.gateway
               && Word16(q[36], q[37]) == WirePort(sw.plan, d.slot)
               && att.vni <= 0xff_ffff && VniOf(q[46..49]) == WireVni(sw.plan.locator, d.slot, att.vni)
               && q[50..50 + own] == LocatorBytes(sw.plan.locator, d.slot)
               && (q[43] / 0x40 % 2 == 1 <==> LocatorCritical(sw.plan.locator))
  {
    DecapLocates(sw, slots, q);
    var areaLen := ParseOuter(q).value;
    LocateExact(sw.plan, Word16(q[36], q[37]), VniOf(q[46..49]), q[50..50 + areaLen], q[43] / 0x40 % 2 == 1);
  }

  /** What the return path parses is IPv4 without options, UDP, and GENEVE version 0. */
  lemma ParsedIsGeneve(q: seq<u8>)
    ensures ParseOuter(q).Some? ==>
              && |q| >= 50 + ParseOuter(q).value && ParseOuter(q).value <= 64
              && q[12] == 0x08 && q[13] == 0 && q[14] % 0x10 == 5 && q[23] == 17 && q[42] == ParseOuter(q).value / 4
  {
  }

  /** What is stripped and delivered is the inner frame, under its own type, addressed from
      the switch to the port; nothing is delivered exactly if no payload is left. */
  lemma StrippedFrame(sw: Switch, slot: u32, q: seq<u8>, at: nat)
    requires |q| >= at >= 50
    ensures var teb := Word16(q[44], q[45]) == 0x6558;
            var from := at + if teb then 14 else 0;
            && (Strip(sw, slot, q, at).Some? <==> |q| > from)
            && (|q| > from ==>
                  var d := Strip(sw, slot, q, at).value;
                  && d.slot == slot && |d.frame| == 14 + |q| - from
                  && d.frame[..6] == PortMac(sw, slot) && d.frame[6..12] == sw.switchMac && d.frame[14..] == q[from..]
                  && Word16(d.frame[12], d.frame[13]) ==
                     if teb then Word16(q[at + 12], q[at + 13]) else Word16(q[44], q[45]))
  {
    var teb := Word16(q[44], q[45]) == TEB;
    var from := at + if teb then ETH_LEN else 0;
    if |q| > from {
      var proto := if teb then Word16(q[at + 12], q[at + 13]) else Word16(q[44], q[45]);
      var d, eth := Strip(sw, slot, q, at).value, EthHeader(PortMac(sw, slot), sw.switchMac, proto);
      assert d.frame == eth + q[from..];
      EthFieldsOf(PortMac(sw, slot), sw.switchMac, proto);
      InnerParts(eth, PortMac(sw, slot), sw.switchMac, proto, q[from..]);
      WordsOf(d.frame, 12, proto);
    }
  }

  /** A delivery is the stripped packet of the slot it was located to. */
  lemma DecapLocates(sw: Switch, slots: seq<Option<Attachment>>, q: seq<u8>)
    ensures Decap(sw, slots, q).Some? ==>
              && ParseOuter(q).Some? && LocateIn(sw, q, ParseOuter(q).value).Some?
              && var d, found := Decap(sw, slots, q).value, LocateIn(sw, q, ParseOuter(q).value).value;
                 && d.slot == found.0 && d.slot < |slots| && slots[d.slot].Some?
                 && Word32(q[26..30]) == slots[d.slot].value.gateway && found.1 == slots[d.slot].value.vni
                 && Strip(sw, d.slot, q, 50 + ParseOuter(q).value) == Some(d)
  {
  }

  // ---------------------------------------------------------------- outer header checks

  lemma {:induction false} NetWordAt(b: seq<u8>, i: nat)
    requires |b| % 2 == 0 && i < |b| / 2
    ensures NetWords(b)[i] == Word16(b[2 * i], b[2 * i + 1])
  {
    if 2 * i + 2 < |b| {
      NetWordAt(b[..|b| - 2], i);
    }
  }

  lemma SwapWord(hi: u8, lo: u8)
    ensures Swap(Word16(hi, lo)) == Word16(lo, hi)
  {
  }

  lemma {:induction false} HostWordsSwap(b: seq<u8>)
    requires |b| % 2 == 0
    ensures HostWords(b) == SwapAll(NetWords(b))
  {
    if b != [] {
      var front := b[..|b| - 2];
      HostWordsSwap(front);
      SwapWord(b[|b| - 2], b[|b| - 1]);
      assert NetWords(b)[..|NetWords(b)| - 1] == NetWords(front);
    }
  }

  /** Summing in machine order swaps the sum. */
  lemma HostSum(b: seq<u8>)
    requires |b| % 2 == 0
    ensures Ones(Sum(HostWords(b))) == Swap(Ones(Sum(NetWords(b))))
  {
    HostWordsSwap(b);
    OnesOfSwapped(NetWords(b));
  }

  lemma HeaderBytes(total: nat, src: u32, dst: u32, check: seq<u8>)
    requires |check| == 2
    ensures var h := IpHeader(total, src, dst, check);
            h[0] == 0x45 && h[1] == 0 && h[2..4] == Be16(total % 0x1_0000) && h[10..12] == check
    ensures IpHeader(total, src, dst, check) == IpHeader(total, src, dst, [0, 0])[10 := check[0]][11 := check[1]]
  {
    PartBytes([0x45, 0], Be16(total % 0x1_0000), [0, 0, 0x40, 0, 64, UDP_PROTO], check, Be32(src), Be32(dst));
  }

  lemma PartBytes(a: seq<u8>, b: seq<u8>, c: seq<u8>, check: seq<u8>, d: seq<u8>, e: seq<u8>)
    requires |a| == |b| == |check| == 2 && |c| == 6 && |d| == |e| == 4
    ensures var h := a + b + c + check + d + e;
            && h[0] == a[0] && h[1] == a[1] && h[2..4] == b && h[10..12] == check
            && h == (a + b + c + [0, 0] + d + e)[10 := check[0]][11 := check[1]]
  {
  }

  /** The emitted outer header verifies at any receiver. */
  lemma OuterHeaderVerifies(total: nat, src: u32, dst: u32)
    ensures Verifies(Sum(NetWords(IpHeader(total, src, dst, CheckBytes(IpHeader(total, src, dst, [0, 0]))))))
  {
    var blank := IpHeader(total, src, dst, [0, 0]);
    var check := CheckBytes(blank);
    HeaderBytes(total, src, dst, check);
    HeaderBytes(total, src, dst, [0, 0]);
    NetWordAt(blank, 0);
    NetWordAt(blank, 5);
    assert blank[10..12] == [0, 0];
    assert blank[10] == blank[10..12][0] && blank[11] == blank[10..12][1];
    SumAtLeast(NetWords(blank), 0);
    FilledChecksumVerifies(NetWords(blank), 5);
    ChangedWord(blank, check);
  }

  lemma ChangedWord(blank: seq<u8>, check: seq<u8>)
    requires |blank| == 20 && |check| == 2
    ensures NetWords(blank[10 := check[0]][11 := check[1]]) == NetWords(blank)[5 := Word16(check[0], check[1])]
  {
    var filled := blank[10 := check[0]][11 := check[1]];
    var a, b := NetWords(filled), NetWords(blank)[5 := Word16(check[0], check[1])];
    forall i: nat | i < 10 ensures a[i] == b[i] {
      NetWordAt(filled, i);
      NetWordAt(blank, i);
    }
  }

  /** The IP and the UDP header announce the lengths the packet has. */
  ghost predicate TrueLengths(p: seq<u8>) {
    50 <= |p| && Word16(p[16], p[17]) == |p| - ETH_LEN && Word16(p[38], p[39]) == |p| - ETH_LEN - 20
  }

  lemma PackedLengths(eth: seq<u8>, ip: seq<u8>, udp: seq<u8>, geneve: seq<u8>, area: seq<u8>, rest: seq<u8>, n: u16)
    requires |eth| == 14 && |ip| == 20 && |udp| == 8 && |geneve| == 8 && n == 36 + |area| + |rest|
    requires Word16(ip[2], ip[3]) == n && Word16(udp[4], udp[5]) == n - 20
    ensures TrueLengths(Packed(eth, ip, udp, geneve, area, rest))
  {
    var p := Packed(eth, ip, udp, geneve, area, rest);
    Sections(eth, ip, udp, geneve, area, rest);
    assert p[16] == p[14..34][2] && p[17] == p[14..34][3];
    assert p[38] == p[34..42][4] && p[39] == p[34..42][5];
  }

  lemma LengthWords(total: nat, src: u32, dst: u32, check: seq<u8>, sport: u16, dport: u16, length: nat)
    requires |check| == 2 && total <= 0xffff && length <= 0xffff
    ensures var h := IpHeader(total, src, dst, check); Word16(h[2], h[3]) == total
    ensures var h := UdpHeader(sport, dport, length); Word16(h[4], h[5]) == length
  {
    assert total % 0x1_0000 == total && length % 0x1_0000 == length;
    var ip, udp := IpHeader(total, src, dst, check), UdpHeader(sport, dport, length);
    assert ip[2] == Be16(total)[0] && ip[3] == Be16(total)[1];
    assert udp[4] == Be16(length)[0] && udp[5] == Be16(length)[1];
  }

  lemma PartLengths(sw: Switch, slot: u32, att: Attachment, proto: u16, payload: seq<u8>)
    requires WellFormedValue(sw.plan.locator, Fetched(att.opts))
    ensures 36 + |OptionArea(sw.plan.locator, slot, att.opts)| + |InnerEth(sw, slot, att, proto) + payload| ==
            EncapLen(sw, att) + |payload|
  {
  }

  /** A packet that fits the 16-bit fields announces its true lengths. */
  lemma LengthsAreTrue(sw: Switch, slot: u32, att: Attachment, sport: u16, proto: u16, payload: seq<u8>, check: seq<u8>)
    requires WellFormedValue(sw.plan.locator, Fetched(att.opts)) && |check| == 2
    requires EncapLen(sw, att) + |payload| <= 0xffff
    ensures TrueLengths(WithCheck(sw, slot, att, sport, proto, payload, check))
  {
    var ipLen := EncapLen(sw, att) + |payload|;
    PartLengths(sw, slot, att, proto, payload);
    LengthWords(ipLen, sw.transitIp, att.gateway, check, sport, WirePort(sw.plan, slot), ipLen - 20);
    PackedLengths(
      EthHeader(sw.switchMac, sw.switchMac, IP), IpHeader(ipLen, sw.transitIp, att.gateway, check),
      UdpHeader(sport, WirePort(sw.plan, slot), ipLen - 20), GeneveFor(sw, slot, att, proto),
      OptionArea(sw.plan.locator, slot, att.opts), InnerEth(sw, slot, att, proto) + payload, ipLen);
  }

  lemma EncapsulatedIs(sw: Switch, slot: u32, att: Attachment, sport: u16, proto: u16, payload: seq<u8>, check: seq<u8>,
                       total: nat)
    requires WellFormedValue(sw.plan.locator, Fetched(att.opts))
    requires total == EncapLen(sw, att) + |payload| && check == OuterCheck(sw, att, total)
    ensures WithCheck(sw, slot, att, sport, proto, payload, check) == Encapsulated(sw, slot, att, sport, proto, payload)
  {
  }

  lemma WithCheckLength(sw: Switch, slot: u32, att: Attachment, sport: u16, proto: u16, payload: seq<u8>,
                        check: seq<u8>)
    requires WellFormedValue(sw.plan.locator, Fetched(att.opts)) && |check| == 2
    ensures |WithCheck(sw, slot, att, sport, proto, payload, check)| == ETH_LEN + EncapLen(sw, att) + |payload|
  {
    SentFields(sw, slot, att, sport, proto, payload, check);
    PartLengths(sw, slot, att, proto, payload);
  }

  lemma SentLength(sw: Switch, slot: u32, att: Attachment, sport: u16, proto: u16, payload: seq<u8>)
    requires WellFormedValue(sw.plan.locator, Fetched(att.opts))
    ensures |Encapsulated(sw, slot, att, sport, proto, payload)| == ETH_LEN + EncapLen(sw, att) + |payload|
  {
    var total := EncapLen(sw, att) + |payload|;
    var check := OuterCheck(sw, att, total);
    WithCheckLength(sw, slot, att, sport, proto, payload, check);
    EncapsulatedIs(sw, slot, att, sport, proto, payload, check, total);
  }
}
