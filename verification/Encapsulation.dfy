/** The encapsulation as the data plane performs it: room is made in the packet and the
    headers are written into it at fixed offsets, the options word by word. */
module Encapsulation {
  import opened Wire
  import opened Checksum
  import opened Geneve
  import opened Locators
  import opened Tunnel

  /** Opens a gap behind the Ethernet header; what is in the gap is unspecified. */
  method AdjustRoom(frame: array<u8>, n: nat) returns (packet: array<u8>)
    requires frame.Length >= ETH_LEN
    ensures fresh(packet) && packet.Length == frame.Length + n
    ensures packet[..ETH_LEN] == frame[..ETH_LEN] && packet[ETH_LEN + n..] == frame[ETH_LEN..]
  {
    packet := new u8[frame.Length + n];
    forall k | 0 <= k < ETH_LEN {
      packet[k] := frame[k];
    }
    forall k | ETH_LEN <= k < frame.Length {
      packet[n + k] := frame[k];
    }
  }

  /** Sums the header in machine order and stores the result in machine order; on the
      wire that is the checksum in network order. */
  method FillChecksum(packet: array<u8>, ghost prefix: seq<u8>, ghost blank: seq<u8>, ghost end: nat)
    requires 34 <= end <= packet.Length && |prefix| == 14 && |blank| == 20
    requires packet[..34] == prefix + blank
    modifies packet
    ensures packet[..34] == prefix + blank[10 := CheckBytes(blank)[0]][11 := CheckBytes(blank)[1]]
    ensures packet[end..] == old(packet[end..])
  {
    assert packet[14..34] == blank;
    var words := HostWords(packet[14..34]);
    var check := IpChecksum(words, 20);
    assert words[..10] == words;
    StoredBytes(blank, check);
    packet[24], packet[25] := check % 0x100, check / 0x100;
    ghost var filled := blank[10 := CheckBytes(blank)[0]][11 := CheckBytes(blank)[1]];
    assert packet[..34] == prefix + filled;
  }

  lemma StoredBytes(blank: seq<u8>, check: u16)
    requires |blank| == 20 && check == 0xffff - Ones(Sum(HostWords(blank)))
    ensures CheckBytes(blank) == [check % 0x100, check / 0x100]
  {
    HostSum(blank);
    StoredLowByteFirst(Ones(Sum(NetWords(blank))), Ones(Sum(HostWords(blank))), check);
  }

  /** Copies the opaque options, four bytes at a time and at most sixteen times. */
  method CopyOptions(packet: array<u8>, base: nat, v: OptsValue, ghost end: nat)
    requires |v.data| == MAX_OPTS_LEN && v.len % 4 == 0 && v.len <= MAX_OPTS_LEN
    requires base + v.len <= end <= packet.Length
    modifies packet
    ensures packet[..base + v.len] == old(packet[..base]) + v.data[..v.len]
    ensures packet[end..] == old(packet[end..])
  {
    ghost var prefix := packet[..base];
    var i := 0;
    while i < MAX_OPTS_LEN / 4
      invariant 0 <= i <= 16 && i * 4 <= v.len
      invariant packet[..base + i * 4] == prefix + v.data[..i * 4]
      invariant packet[end..] == old(packet[end..])
    {
      if i * 4 >= v.len {
        break;
      }
      Store(packet, base + i * 4, v.data[i * 4..i * 4 + 4], end);
      NextWord(prefix, v.data, i * 4);
      i := i + 1;
    }
  }

  lemma NextWord(prefix: seq<u8>, data: seq<u8>, at: nat)
    requires at + 4 <= |data|
    ensures prefix + data[..at] + data[at..at + 4] == prefix + data[..at + 4]
  {
    assert data[..at] + data[at..at + 4] == data[..at + 4];
    assert prefix + data[..at] + data[at..at + 4] == prefix + (data[..at] + data[at..at + 4]);
  }

  /** Ethernet, IP with its checksum, UDP and GENEVE base header. */
  method WriteOuter(packet: array<u8>, eth: seq<u8>, total: nat, src: u32, dst: u32, udp: seq<u8>, geneve: seq<u8>,
                    ghost end: nat)
    requires |eth| == 14 && |udp| == 8 && |geneve| == 8 && 50 <= end <= packet.Length
    modifies packet
    ensures packet[..50] ==
            eth + IpHeader(total, src, dst, CheckBytes(IpHeader(total, src, dst, [0, 0]))) + udp + geneve
    ensures packet[end..] == old(packet[end..])
  {
    var blank := IpHeader(total, src, dst, [0, 0]);
    Store(packet, 0, eth, end);
    Store(packet, 14, blank, end);
    HeaderBytes(total, src, dst, CheckBytes(blank));
    FillChecksum(packet, eth, blank, end);
    Store(packet, 34, udp, end);
    Store(packet, 42, geneve, end);
  }

  /** The locator first, the opaque options behind it, then the inner Ethernet header. */
  method WriteInner(packet: array<u8>, locator: seq<u8>, v: OptsValue, inner: seq<u8>, ghost end: nat)
    requires |v.data| == MAX_OPTS_LEN && v.len % 4 == 0 && v.len <= MAX_OPTS_LEN
    requires end == 50 + |locator| + v.len + |inner| <= packet.Length
    modifies packet
    ensures packet[..end] == old(packet[..50]) + (locator + v.data[..v.len]) + inner
    ensures packet[end..] == old(packet[end..])
  {
    ghost var outer := packet[..50];
    Store(packet, 50, locator, end);
    CopyOptions(packet, 50 + |locator|, v, end);
    assert outer + locator + v.data[..v.len] == outer + (locator + v.data[..v.len]);
    Store(packet, 50 + |locator| + v.len, inner, end);
  }

  lemma JoinsUp(packet: seq<u8>, end: nat, eth: seq<u8>, ip: seq<u8>, udp: seq<u8>, geneve: seq<u8>, area: seq<u8>,
                inner: seq<u8>, payload: seq<u8>)
    requires end <= |packet| && packet[..end] == eth + ip + udp + geneve + area + inner && packet[end..] == payload
    ensures packet == Packed(eth, ip, udp, geneve, area, inner + payload)
  {
    JoinedSix(eth, ip, udp, geneve, area, inner + payload);
    assert packet == packet[..end] + packet[end..];
    assert eth + ip + udp + geneve + area + inner + payload == eth + ip + udp + geneve + area + (inner + payload);
  }

  method WriteAll(packet: array<u8>, eth: seq<u8>, total: nat, src: u32, dst: u32, ghost check: seq<u8>, udp: seq<u8>,
                  geneve: seq<u8>, locator: seq<u8>, v: OptsValue, ghost area: seq<u8>, inner: seq<u8>,
                  ghost payload: seq<u8>, ghost whole: seq<u8>)
    requires |eth| == 14 && |udp| == 8 && |geneve| == 8
    requires |v.data| == MAX_OPTS_LEN && v.len % 4 == 0 && v.len <= MAX_OPTS_LEN
    requires var end := 50 + |locator| + v.len + |inner|; end <= packet.Length && packet[end..] == payload
    requires area == locator + v.data[..v.len] && check == CheckBytes(IpHeader(total, src, dst, [0, 0]))
    requires whole == Packed(eth, IpHeader(total, src, dst, check), udp, geneve, area, inner + payload)
    modifies packet
    ensures packet[..] == whole
  {
    ghost var end := 50 + |locator| + v.len + |inner|;
    WriteOuter(packet, eth, total, src, dst, udp, geneve, end);
    WriteInner(packet, locator, v, inner, end);
    JoinsUp(packet[..], end, eth, IpHeader(total, src, dst, check), udp, geneve, area, inner, payload);
  }

  lemma RoomFits(sw: Switch, slot: u32, att: Attachment, proto: u16)
    ensures 50 + |LocatorBytes(sw.plan.locator, slot)| + att.opts.len + |InnerEth(sw, slot, att, proto)| ==
            ETH_LEN + EncapLen(sw, att)
  {
  }

  /** All the writing, into a packet with room for it. */
  method Write(sw: Switch, slot: u32, att: Attachment, sport: u16, proto: u16, packet: array<u8>, payload: seq<u8>)
    requires |att.opts.data| == MAX_OPTS_LEN && WellFormedValue(sw.plan.locator, Fetched(att.opts))
    requires packet.Length == ETH_LEN + EncapLen(sw, att) + |payload|
    requires packet[ETH_LEN + EncapLen(sw, att)..] == payload
    modifies packet
    ensures packet[..] == Encapsulated(sw, slot, att, sport, proto, payload)
  {
    var total := EncapLen(sw, att) + |payload|;
    RoomFits(sw, slot, att, proto);
    ghost var check := OuterCheck(sw, att, total);
    WithCheckIs(sw, slot, att, sport, proto, payload, check, total);
    EncapsulatedIs(sw, slot, att, sport, proto, payload, check, total);
    WriteAll(packet, EthHeader(sw.switchMac, sw.switchMac, IP), total, sw.transitIp, att.gateway, check,
             UdpHeader(sport, WirePort(sw.plan, slot), total - 20), GeneveFor(sw, slot, att, proto),
             LocatorBytes(sw.plan.locator, slot), att.opts, OptionArea(sw.plan.locator, slot, att.opts),
             InnerEth(sw, slot, att, proto), payload, Encapsulated(sw, slot, att, sport, proto, payload));
  }

  /** The transit path takes exactly the encapsulable frames and turns each into the packet
      that Tunnel.RoundTrip is about; it passes any other frame on as it is. */
  method Encap(sw: Switch, slot: u32, att: Attachment, sport: u16, frame: array<u8>)
    returns (sent: bool, packet: array<u8>)
    requires |att.opts.data| == MAX_OPTS_LEN
    ensures sent <==> Encapsulable(sw, att, frame[..])
    ensures !sent ==> packet == frame
    ensures sent ==> packet[..] ==
                     Encapsulated(sw, slot, att, sport, Word16(frame[12], frame[13]), frame[ETH_LEN..])
  {
    if frame.Length < ETH_LEN {
      return false, frame;
    }
    var proto := Word16(frame[12], frame[13]);
    if proto != IP && proto != IPV6 {
      return false, frame;
    }
    if att.ifindex == 0 || att.gateway == 0 {
      return false, frame;
    }
    var len := att.opts.len;
    if len > 0 && (len > MAX_OPTS_LEN || len % 4 != 0 || att.opts.critical > 1) {
      return false, frame;
    }
    var total := LocatorLen(sw.plan.locator) + len;
    if total > MAX_OPTS_LEN {
      return false, frame;
    }
    if frame.Length < ETH_LEN + (if proto == IP then 20 else 40) {
      return false, frame;
    }
    packet := AdjustRoom(frame, EncapLen(sw, att));
    Write(sw, slot, att, sport, proto, packet, frame[ETH_LEN..]);
    return true, packet;
  }
}
