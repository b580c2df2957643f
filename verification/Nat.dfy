/** Management NAT: what the data plane rewrites in a packet on its way to a management
    service and in the reply, and what becomes of its checksums and of its flow. */
module Nat {
  import opened Wire
  import opened Checksum
  import opened Services
  import Floating

  const SRC: nat := 6
  const DST: nat := 8
  const IP_CHECK: nat := 5

  /** Header words of an IPv4 packet, as they stand on the wire. */
  type Header = ws: seq<u16> | |ws| >= 10 witness [0, 0, 0, 0, 0, 0, 0, 0, 0, 0]

  function Proto(ip: Header): u8 {
    ip[4] % 0x100
  }

  /** The address whose first word is at the given position. */
  function Address(ip: Header, at: nat): u32
    requires at == SRC || at == DST
  {
    (ip[at] as int) * 0x1_0000 + ip[at + 1]
  }

  /** Pseudo-header and transport words: what a TCP or UDP checksum covers. */
  function Covered(ip: Header, l4: seq<u16>, length: u16): nat {
    Words(Address(ip, SRC)) + Words(Address(ip, DST)) + Proto(ip) + length + Sum(l4)
  }

  predicate WellFormed(ip: Header, l4: seq<u16>) {
    && ip[0] >= 0x4500
    && (Proto(ip) == TCP ==> |l4| >= 10)
    && (Proto(ip) == UDP ==> |l4| >= 4)
  }

  /** TCP checksums verify; UDP checksums verify or are absent. */
  predicate L4Good(ip: Header, l4: seq<u16>, length: u16)
    requires WellFormed(ip, l4)
  {
    if Proto(ip) == TCP then Verifies(Covered(ip, l4, length))
    else if Proto(ip) == UDP then l4[3] == 0 || Verifies(Covered(ip, l4, length))
    else true
  }

  predicate Good(ip: Header, l4: seq<u16>, length: u16) {
    WellFormed(ip, l4) && Verifies(Sum(ip)) && L4Good(ip, l4, length)
  }

  // ------------------------------------------------------------- the rewrites on values

  /** An address replaced, and the header checksum with it. */
  function AddressSet(ip: Header, at: nat, to: u32): Header
    requires at == SRC || at == DST
  {
    ip[at := to / 0x1_0000][at + 1 := to % 0x1_0000][IP_CHECK := Replace(ip[IP_CHECK], Address(ip, at), to)]
  }

  /** The transport checksum that is to be kept up, if the packet has one. */
  function LiveCheck(proto: u8, l4: seq<u16>): (at: Option<nat>)
    ensures at.Some? ==> 2 <= at.value < |l4|
  {
    if proto == TCP && |l4| > 8 then Some(8)
    else if proto == UDP && |l4| >= 4 && l4[3] != 0 then Some(3)
    else None
  }

  function Patched(l4: seq<u16>, at: Option<nat>, from: u32, to: u32): (r: seq<u16>)
    requires at.Some? ==> at.value < |l4|
    ensures |r| == |l4|
  {
    if at.Some? then l4[at.value := Replace(l4[at.value], from, to)] else l4
  }

  /** The patches of a service translation, then the port itself. */
  function PortSet(l4: seq<u16>, check: Option<nat>, at: nat, from: u32, to: u32, port: u16): seq<u16>
    requires at < 2 <= |l4| && (check.Some? ==> 2 <= check.value < |l4|)
  {
    var addressed := Patched(l4, check, from, to);
    if port == l4[at] then addressed else Patched(addressed, check, l4[at], port)[at := port]
  }

  lemma AddressSetKeeps(ip: Header, at: nat, to: u32)
    requires at == SRC || at == DST
    ensures var ip' := AddressSet(ip, at, to);
            && Proto(ip') == Proto(ip) && ip'[0] == ip[0] && Address(ip', at) == to
            && Address(ip', SRC + DST - at) == Address(ip, SRC + DST - at)
  {
  }

  lemma SumOfTwo(ws: seq<u16>, a: nat, x: u16, b: nat, y: u16)
    requires a < |ws| && b < |ws| && a != b
    ensures Sum(ws[a := x][b := y]) == Sum(ws) - ws[a] - ws[b] + x + y
    ensures Sum(ws) >= ws[a] as int + ws[b]
  {
    SumUpdate(ws, a, x);
    SumUpdate(ws[a := x], b, y);
    SumUpdate(ws, a, 0);
    SumAtLeast(ws[a := 0], b);
  }

  lemma SumOfThree(ws: seq<u16>, a: nat, x: u16, b: nat, y: u16, c: nat, z: u16)
    requires 0 < a < |ws| && 0 < b < |ws| && 0 < c < |ws| && a != b && a != c && b != c
    ensures Sum(ws[a := x][b := y][c := z]) == Sum(ws) - ws[a] - ws[b] - ws[c] + x + y + z
    ensures Sum(ws) >= ws[0] as int + ws[a] + ws[b] + ws[c]
  {
    SumOfTwo(ws, a, x, b, y);
    SumUpdate(ws[a := x][b := y], c, z);
    SumOfTwo(ws, a, 0, b, 0);
    SumUpdate(ws[a := 0][b := 0], c, 0);
    SumAtLeast(ws[a := 0][b := 0][c := 0], 0);
  }

  lemma AddressWords(ip: Header, at: nat)
    requires at == SRC || at == DST
    ensures Words(Address(ip, at)) == ip[at] as int + ip[at + 1]
  {
  }

  lemma AddressSetSum(ip: Header, at: nat, to: u32, check: u16)
    requires at == SRC || at == DST
    ensures Sum(ip[at := to / 0x1_0000][at + 1 := to % 0x1_0000][IP_CHECK := check]) ==
            Sum(ip) - Words(Address(ip, at)) - ip[IP_CHECK] + Words(to) + check
    ensures Sum(ip) >= Words(Address(ip, at)) + ip[IP_CHECK] + ip[0]
  {
    SumOfThree(ip, at, to / 0x1_0000, at + 1, to % 0x1_0000, IP_CHECK, check);
    AddressWords(ip, at);
  }

  /** One patch follows one change of the covered words. */
  lemma PatchVerifies(total: nat, check: u16, from: u32, to: u32)
    requires Verifies(total) && total > Words(from) + check
    ensures Verifies(total - Words(from) - check + Words(to) + Replace(check, from, to))
  {
    ReplaceVerifies(total - Words(from) - check, check, from, to);
  }

  /** Rewriting an address keeps the header checksum right. */
  lemma AddressSetVerifies(ip: Header, at: nat, to: u32)
    requires (at == SRC || at == DST) && ip[0] > 0 && Verifies(Sum(ip))
    ensures Verifies(Sum(AddressSet(ip, at, to)))
  {
    AddressSetSum(ip, at, to, Replace(ip[IP_CHECK], Address(ip, at), to));
    PatchVerifies(Sum(ip), ip[IP_CHECK], Address(ip, at), to);
  }

  lemma CoveredAfter(ip: Header, l4: seq<u16>, length: u16, at: nat, to: u32, check: nat)
    requires (at == SRC || at == DST) && check < |l4| && Proto(ip) > 0
    ensures var from, c' := Address(ip, at), Replace(l4[check], Address(ip, at), to);
            && Covered(ip, l4, length) > Words(from) + l4[check]
            && Covered(AddressSet(ip, at, to), l4[check := c'], length) ==
               Covered(ip, l4, length) - Words(from) - l4[check] + Words(to) + c'
  {
    AddressSetKeeps(ip, at, to);
    SumUpdate(l4, check, Replace(l4[check], Address(ip, at), to));
    SumAtLeast(l4, check);
  }

  /** The address rewrite and its two checksum updates keep a good packet good. */
  lemma AddressKeepsGood(ip: Header, l4: seq<u16>, length: u16, at: nat, to: u32)
    requires (at == SRC || at == DST) && Good(ip, l4, length)
    ensures Good(AddressSet(ip, at, to), Patched(l4, LiveCheck(Proto(ip), l4), Address(ip, at), to), length)
  {
    AddressSetVerifies(ip, at, to);
    AddressSetKeeps(ip, at, to);
    var check := LiveCheck(Proto(ip), l4);
    if check.Some? {
      CoveredAfter(ip, l4, length, at, to, check.value);
      PatchVerifies(Covered(ip, l4, length), l4[check.value], Address(ip, at), to);
    }
  }

  lemma CoveredPort(ip: Header, l4: seq<u16>, length: u16, check: nat, c: u16, at: nat, port: u16)
    requires at < 2 <= check < |l4| && Proto(ip) > 0
    ensures Covered(ip, l4, length) > Words(l4[at]) + l4[check]
    ensures Covered(ip, l4[check := c][at := port], length) ==
            Covered(ip, l4, length) - Words(l4[at]) - l4[check] + Words(port) + c
  {
    SumOfTwo(l4, check, c, at, port);
    WordsOfPort(l4[at]);
    WordsOfPort(port);
  }

  lemma WordsOfPort(port: u16)
    ensures Words(port) == port
  {
  }

  /** So does a port rewrite; the checksum may pass through zero on the way. */
  lemma PortVerifies(ip: Header, l4: seq<u16>, length: u16, check: nat, at: nat, port: u16)
    requires at < 2 <= check < |l4| && Proto(ip) > 0 && Verifies(Covered(ip, l4, length))
    ensures Verifies(Covered(ip, Patched(l4, Some(check), l4[at], port)[at := port], length))
  {
    CoveredPort(ip, l4, length, check, Replace(l4[check], l4[at], port), at, port);
    PatchVerifies(Covered(ip, l4, length), l4[check], l4[at], port);
  }

  lemma ServiceKeepsGood(ip: Header, l4: seq<u16>, length: u16, at: nat, to: u32, portAt: nat, port: u16)
    requires (at == SRC || at == DST) && portAt < 2 <= |l4| && Good(ip, l4, length)
    ensures Good(AddressSet(ip, at, to),
                 PortSet(l4, LiveCheck(Proto(ip), l4), portAt, Address(ip, at), to, port), length)
  {
    var check := LiveCheck(Proto(ip), l4);
    AddressKeepsGood(ip, l4, length, at, to);
    AddressSetKeeps(ip, at, to);
    var ip', l4' := AddressSet(ip, at, to), Patched(l4, check, Address(ip, at), to);
    if check.Some? && port != l4[portAt] {
      CoveredAfter(ip, l4, length, at, to, check.value);
      PatchVerifies(Covered(ip, l4, length), l4[check.value], Address(ip, at), to);
      PortVerifies(ip', l4', length, check.value, portAt, port);
    }
  }

  // -------------------------------------------------------------------------- flows

  /** Who talks to whom; the ports count only if the packet holds them. */
  datatype Flow = Flow(proto: u8, src: u32, dst: u32, hasPorts: bool, sport: u16, dport: u16)

  function FlowOf(ip: Header, l4: seq<u16>): Flow {
    Flow(Proto(ip), Address(ip, SRC), Address(ip, DST), |l4| >= 2,
         if |l4| >= 2 then l4[0] else 0, if |l4| >= 2 then l4[1] else 0)
  }

  function Lookup(table: map<Key, Val>, f: Flow, ip: u32, port: u16): Option<Val> {
    if Translated(f.proto) && f.hasPorts && Key(ip, port, f.proto) in table
    then Some(table[Key(ip, port, f.proto)]) else None
  }

  /** Towards the service: from the floating address, to the target if there is one. */
  function NxFlow(t: Tables, floating: u32, f: Flow): Flow {
    match Lookup(t.fwd, f, f.dst, f.dport)
    case None => f.(src := floating)
    case Some(v) => f.(src := floating, dst := v.ip, dport := v.port)
  }

  /** Back to the sandbox: to its inner address, from the virtual address if there is one. */
  function MxFlow(t: Tables, inner: u32, f: Flow): Flow {
    match Lookup(t.rev, f, f.src, f.sport)
    case None => f.(dst := inner)
    case Some(v) => f.(dst := inner, src := v.ip, sport := v.port)
  }

  /** What a peer answers. */
  function Reply(f: Flow): Flow {
    f.(src := f.dst, dst := f.src, sport := f.dport, dport := f.sport)
  }

  /** A TCP or UDP request to the virtual address and port of a service leaves for the target
      of the last service that names them, any other request keeps its destination; all leave
      from the floating address. */
  lemma RequestGoesToTarget(services: seq<Service>, floating: u32, f: Flow)
    ensures var t := Tables(FwdMap(services), RevMap(services));
            && (forall i: nat :: LastFor(services, i, f.dst, f.dport) && f.hasPorts && (f.proto == 6 || f.proto == 17) ==>
                  NxFlow(t, floating, f) == Flow(f.proto, floating, services[i].target, true, f.sport, services[i].tport))
            && (!f.hasPorts || (f.proto != 6 && f.proto != 17) || !NamesService(services, f.dst, f.dport) ==>
                  NxFlow(t, floating, f) == Flow(f.proto, floating, f.dst, f.hasPorts, f.sport, f.dport))
  {
    FwdExact(services, Key(f.dst, f.dport, f.proto));
    if exists i: nat :: LastFor(services, i, f.dst, f.dport) {
      var i: nat :| LastFor(services, i, f.dst, f.dport);
      assert services[i].vip == f.dst && services[i].vport == f.dport;
    }
  }

  /** Some service has this virtual address and port. */
  ghost predicate NamesService(services: seq<Service>, ip: u32, port: u16) {
    exists i :: 0 <= i < |services| && services[i].vip == ip && services[i].vport == port
  }

  ghost predicate NamesTarget(services: seq<Service>, ip: u32, port: u16) {
    exists i :: 0 <= i < |services| && services[i].target == ip && services[i].tport == port
  }

  /** A TCP or UDP reply from the target of a service arrives from its virtual address and
      port, any other reply keeps its source; all arrive at the inner address. */
  lemma ReplyComesFromService(services: seq<Service>, inner: u32, f: Flow)
    requires DistinctTargets(services)
    ensures var t := Tables(FwdMap(services), RevMap(services));
            && (forall i :: 0 <= i < |services| && services[i].target == f.src && services[i].tport == f.sport
                            && f.hasPorts && (f.proto == 6 || f.proto == 17) ==>
                  MxFlow(t, inner, f) == Flow(f.proto, services[i].vip, inner, true, services[i].vport, f.dport))
            && (!f.hasPorts || (f.proto != 6 && f.proto != 17) || !NamesTarget(services, f.src, f.sport) ==>
                  MxFlow(t, inner, f) == Flow(f.proto, f.src, inner, f.hasPorts, f.sport, f.dport))
  {
    var t := Tables(FwdMap(services), RevMap(services));
    RevKeys(services, Key(f.src, f.sport, f.proto));
    forall i | 0 <= i < |services| && services[i].target == f.src && services[i].tport == f.sport
               && f.hasPorts && (f.proto == 6 || f.proto == 17)
      ensures MxFlow(t, inner, f) == Flow(f.proto, services[i].vip, inner, true, services[i].vport, f.dport)
    {
      RevExact(services, i, f.proto);
    }
  }

  /** The reply to a translated request comes back through the same identity, to the
      slot's inner address and from the virtual address and port that were asked. */
  lemma ReplyReturns(services: seq<Service>, base: u32, bits: nat, nPorts: nat, slot: u32, generation: u32,
                     inner: u32, f: Flow)
    requires DistinctTargets(services) && Floating.ValidWindow(base, bits)
    requires slot < nPorts <= Floating.SLOTS && generation < Pow2(bits)
    requires f.hasPorts && Key(f.dst, f.dport, f.proto) in FwdMap(services)
    ensures var t := Tables(FwdMap(services), RevMap(services));
            var reply := Reply(NxFlow(t, Floating.FloatingIp(base, slot, generation), f));
            && Floating.Identify(base, bits, nPorts, reply.dst) == Some((slot, generation))
            && MxFlow(t, inner, reply) == Flow(f.proto, f.dst, inner, true, f.dport, f.sport)
  {
    Floating.IdentifyInverts(base, bits, nPorts, slot, generation);
    FwdExact(services, Key(f.dst, f.dport, f.proto));
    RevInvertsFwd(services, Key(f.dst, f.dport, f.proto));
  }

  /** For any request the reply seems to come from the address and port that were asked,
      except exactly when the request went straight to the target of a service: then the
      reply carries the virtual address of that service instead. */
  lemma ReplySourceExact(services: seq<Service>, floating: u32, inner: u32, f: Flow)
    requires DistinctTargets(services)
    ensures var t := Tables(FwdMap(services), RevMap(services));
            var back := MxFlow(t, inner, Reply(NxFlow(t, floating, f)));
            var direct := Lookup(t.rev, f, f.dst, f.dport);
            && back.dst == inner && back.dport == f.sport
            && (back.src == f.dst && back.sport == f.dport <==>
                || Lookup(t.fwd, f, f.dst, f.dport).Some?
                || direct.None?
                || direct.value == Val(f.dst, f.dport))
  {
    if Lookup(FwdMap(services), f, f.dst, f.dport).Some? {
      RevInvertsFwd(services, Key(f.dst, f.dport, f.proto));
    }
  }

  /** One service and a sandbox that bypasses it: both addresses lie in the extracted
      route, so the request to the target goes through the translation as well. */
  lemma DirectReplyIsRelabelled()
    ensures var s, extracts := Service(1, 80, 2, 8080), [[Floating.Net(0, 30)]];
            var f := Flow(TCP, 9, 2, true, 4000, 8080);
            var t := Tables(FwdMap([s]), RevMap([s]));
            && Acceptable([s], extracts) && MatchMgmt(FirstThree(Flatten(extracts)), f.dst).Some?
            && MxFlow(t, 9, Reply(NxFlow(t, 7, f))).src == 1
  {
    ServiceIsExtracted();
    DirectReply();
  }

  lemma ServiceIsExtracted()
    ensures var s, extracts := Service(1, 80, 2, 8080), [[Floating.Net(0, 30)]];
            Acceptable([s], extracts) && MatchMgmt(FirstThree(Flatten(extracts)), 2).Some?
  {
    var route := [Floating.Net(0, 30)];
    assert Pow2(2) == 4;
    assert Floating.Contains(route[0], 1) && Floating.Contains(route[0], 2);
    assert Floating.Routed([route][0], 1);
    var none: seq<seq<Floating.Net>> := [];
    assert [route][..0] == none;
    assert Flatten([route]) == route;
    MatchIsContains(route[0], 2);
  }

  lemma DirectReply()
    ensures var s := Service(1, 80, 2, 8080);
            var t := Tables(FwdMap([s]), RevMap([s]));
            MxFlow(t, 9, Reply(NxFlow(t, 7, Flow(TCP, 9, 2, true, 4000, 8080)))).src == 1
  {
    var s := Service(1, 80, 2, 8080);
    assert [s][..0] == [];
    assert FwdMap([s]) == map[][Key(1, 80, TCP) := Val(2, 8080)][Key(1, 80, UDP) := Val(2, 8080)];
    assert RevMap([s]) == map[][Key(2, 8080, TCP) := Val(1, 80)][Key(2, 8080, UDP) := Val(1, 80)];
  }

  // ------------------------------------------------------------- the rewrites in place

  /** Only addresses, ports and checksums differ. */
  predicate SameBody(ip: Header, l4: seq<u16>, ip': Header, l4': seq<u16>) {
    && |ip'| == |ip| && |l4'| == |l4|
    && (forall k :: 0 <= k < |ip| && !(5 <= k < 10) ==> ip'[k] == ip[k])
    && (forall k :: 2 <= k < |l4| && k != 3 && k != 8 ==> l4'[k] == l4[k])
  }

  function Addressed(f: Flow, at: nat, to: u32): Flow {
    if at == SRC then f.(src := to) else f.(dst := to)
  }

  function Ported(f: Flow, at: nat, port: u16): Flow {
    if at == 0 then f.(sport := port) else f.(dport := port)
  }

  lemma AddressFlow(ip: Header, l4: seq<u16>, at: nat, to: u32)
    requires at == SRC || at == DST
    ensures var ip', l4' := AddressSet(ip, at, to), Patched(l4, LiveCheck(Proto(ip), l4), Address(ip, at), to);
            FlowOf(ip', l4') == Addressed(FlowOf(ip, l4), at, to) && SameBody(ip, l4, ip', l4')
  {
    AddressSetKeeps(ip, at, to);
  }

  lemma ServiceFlow(ip: Header, l4: seq<u16>, at: nat, to: u32, portAt: nat, port: u16)
    requires (at == SRC || at == DST) && portAt < 2 <= |l4|
    ensures var ip', l4' := AddressSet(ip, at, to),
                            PortSet(l4, LiveCheck(Proto(ip), l4), portAt, Address(ip, at), to, port);
            && FlowOf(ip', l4') == Ported(Addressed(FlowOf(ip, l4), at, to), portAt, port)
            && SameBody(ip, l4, ip', l4')
  {
    AddressSetKeeps(ip, at, to);
    PortSetKeeps(l4, LiveCheck(Proto(ip), l4), portAt, Address(ip, at), to, port);
  }

  lemma PortSetKeeps(l4: seq<u16>, check: Option<nat>, at: nat, from: u32, to: u32, port: u16)
    requires at < 2 <= |l4| && (check.Some? ==> 2 <= check.value < |l4|)
    ensures var l4' := PortSet(l4, check, at, from, to, port);
            && |l4'| == |l4| && l4'[at] == port && l4'[1 - at] == l4[1 - at]
            && forall k :: 2 <= k < |l4| && Some(k) != check ==> l4'[k] == l4[k]
  {
  }

  class Packet {
    var ip: Header
    var l4: seq<u16>
    const length: u16

    constructor (ip: Header, l4: seq<u16>, length: u16)
      ensures this.ip == ip && this.l4 == l4 && this.length == length
    {
      this.ip, this.l4, this.length := ip, l4, length;
    }

    method PatchL4(proto: u8, from: u32, to: u32)
      modifies this`l4
      ensures l4 == Patched(old(l4), LiveCheck(proto, old(l4)), from, to)
    {
      if proto == UDP {
        if |l4| >= 4 && l4[3] != 0 {
          l4 := l4[3 := Replace(l4[3], from, to)];
        }
      } else if proto == TCP {
        if |l4| > 8 {
          l4 := l4[8 := Replace(l4[8], from, to)];
        }
      }
    }

    method RewriteAddress(at: nat, to: u32)
      requires at == SRC || at == DST
      modifies this
      ensures FlowOf(ip, l4) == Addressed(FlowOf(old(ip), old(l4)), at, to)
      ensures Good(old(ip), old(l4), length) ==> Good(ip, l4, length)
      ensures SameBody(old(ip), old(l4), ip, l4)
    {
      AddressFlow(ip, l4, at, to);
      if Good(ip, l4, length) {
        AddressKeepsGood(ip, l4, length, at, to);
      }
      var from, proto := Address(ip, at), Proto(ip);
      ip := ip[at := to / 0x1_0000][at + 1 := to % 0x1_0000];
      ip := ip[IP_CHECK := Replace(ip[IP_CHECK], from, to)];
      PatchL4(proto, from, to);
    }

    method RewriteService(at: nat, to: u32, portAt: nat, port: u16)
      requires (at == SRC || at == DST) && portAt < 2 <= |l4| && Translated(Proto(ip))
      modifies this
      ensures FlowOf(ip, l4) == Ported(Addressed(FlowOf(old(ip), old(l4)), at, to), portAt, port)
      ensures Good(old(ip), old(l4), length) ==> Good(ip, l4, length)
      ensures SameBody(old(ip), old(l4), ip, l4)
    {
      ServiceFlow(ip, l4, at, to, portAt, port);
      if Good(ip, l4, length) {
        ServiceKeepsGood(ip, l4, length, at, to, portAt, port);
      }
      StoreService(at, to, portAt, port);
    }

    /** The UDP checksum is tested once, before either of its updates. */
    method StoreService(at: nat, to: u32, portAt: nat, port: u16)
      requires (at == SRC || at == DST) && portAt < 2 <= |l4| && Translated(Proto(ip))
      modifies this
      ensures ip == AddressSet(old(ip), at, to)
      ensures l4 == PortSet(old(l4), LiveCheck(Proto(old(ip)), old(l4)), portAt, Address(old(ip), at), to, port)
    {
      var from, proto, oldPort := Address(ip, at), Proto(ip), l4[portAt];
      ip := ip[at := to / 0x1_0000][at + 1 := to % 0x1_0000];
      ip := ip[IP_CHECK := Replace(ip[IP_CHECK], from, to)];
      if proto == UDP {
        if |l4| >= 4 && l4[3] != 0 {
          l4 := l4[3 := Replace(l4[3], from, to)];
          if port != oldPort {
            l4 := l4[3 := Replace(l4[3], oldPort, port)];
          }
        }
      } else if |l4| > 8 {
        l4 := l4[8 := Replace(l4[8], from, to)];
        if port != oldPort {
          l4 := l4[8 := Replace(l4[8], oldPort, port)];
        }
      }
      if port != oldPort {
        l4 := l4[portAt := port];
      }
    }

    /** Sandbox to management service. */
    method TranslateRequest(t: Tables, floating: u32)
      modifies this
      ensures FlowOf(ip, l4) == NxFlow(t, floating, FlowOf(old(ip), old(l4)))
      ensures Good(old(ip), old(l4), length) ==> Good(ip, l4, length)
      ensures SameBody(old(ip), old(l4), ip, l4)
    {
      var hit := None;
      if Translated(Proto(ip)) && |l4| >= 2 {
        var k := Key(Address(ip, DST), l4[1], Proto(ip));
        if k in t.fwd {
          hit := Some(t.fwd[k]);
        }
      }
      RewriteAddress(SRC, floating);
      if hit.Some? {
        RewriteService(DST, hit.value.ip, 1, hit.value.port);
      }
    }

    /** Management service to sandbox. */
    method TranslateReply(t: Tables, inner: u32)
      modifies this
      ensures FlowOf(ip, l4) == MxFlow(t, inner, FlowOf(old(ip), old(l4)))
      ensures Good(old(ip), old(l4), length) ==> Good(ip, l4, length)
      ensures SameBody(old(ip), old(l4), ip, l4)
    {
      var hit := None;
      if Translated(Proto(ip)) && |l4| >= 2 {
        var k := Key(Address(ip, SRC), l4[0], Proto(ip));
        if k in t.rev {
          hit := Some(t.rev[k]);
        }
      }
      RewriteAddress(DST, inner);
      if hit.Some? {
        RewriteService(SRC, hit.value.ip, 0, hit.value.port);
      }
    }
  }
}
