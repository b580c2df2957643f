/** From the request to the wire: what a frame of an attached sandbox looks like when it
    leaves the switch, in terms of the request the sandbox was attached with. */
module Delivery {
  import opened Wire
  import opened Geneve
  import opened Locators
  import opened Tunnel
  import opened SlotMachine
  import opened SlotTraces
  import opened SlotTheorems

  function Gateway(r: Request): u32 {
    if r.gateway.V4? then r.gateway.addr else 0
  }

  /** The transit side of a slot as one request asked for it. */
  ghost predicate Carries(att: Attachment, r: Request) {
    && att.gateway == Gateway(r) && att.vni == r.vni
    && att.mac == (if r.mac == [] then ZERO_MAC else r.mac)
    && |att.opts.data| == MAX_OPTS_LEN && att.opts.len == |EncodeAll(r.options)| <= MAX_OPTS_LEN
    && att.opts.data[..att.opts.len] == EncodeAll(r.options)
    && (att.opts.len > 0 ==> att.opts.critical == if AnyCritical(r.options) then 1 else 0)
  }

  /** The option area of the packet is n bytes long and parses to these options. */
  ghost predicate AreaReads(p: seq<u8>, n: nat, os: seq<GeneveOption>) {
    |p| >= 50 + n && ParseOuter(p) == Some(n) && ParseTlvs(p[50..50 + n]) == Some(os)
  }

  /** Port, VNI and locator of the packet lead back to the slot and its VNI. */
  ghost predicate LeadsBack(plan: Plan, p: seq<u8>, slot: u32, vni: u32) {
    && |p| >= 50 + LocatorLen(plan.locator)
    && Locate(plan, Word16(p[36], p[37]), VniOf(p[46..49]), p[50..50 + LocatorLen(plan.locator)],
              LocatorCritical(plan.locator)) == Some((slot, vni))
  }

  /** What a receiver finds in the packet: it goes to the requested gateway, its option area
      parses to the locator and the requested options, the C bit says whether one of them is
      critical, and port, VNI and locator lead back to the slot and the requested VNI. */
  ghost predicate OnWire(sw: Switch, slot: u32, r: Request, p: seq<u8>) {
    var loc := sw.plan.locator;
    && AreaReads(p, LocatorLen(loc) + |EncodeAll(r.options)|, LocatorOption(loc, slot) + r.options)
    && p[30..34] == Be32(Gateway(r))
    && p[43] == (if AnyCritical(LocatorOption(loc, slot) + r.options) then 0x40 else 0)
    && LeadsBack(sw.plan, p, slot, r.vni)
  }

  lemma {:induction false} NoOptions(os: seq<GeneveOption>)
    ensures EncodeAll(os) == [] <==> os == []
  {
    if os != [] {
      OptionFits(os, 0);
    }
  }

  /** The options value a slot carries for the request, as the data plane fetches it. */
  lemma CarriedOptions(loc: Locator, slot: u32, att: Attachment, r: Request)
    requires Carries(att, r) && Acceptable(loc, r.options)
    ensures WellFormedValue(loc, Fetched(att.opts))
    ensures OptionArea(loc, slot, att.opts) == OptionArea(loc, slot, ValueOf(r.options))
    ensures CBit(loc, Fetched(att.opts)) <==> AnyCritical(LocatorOption(loc, slot) + r.options)
  {
    MarshalledWellFormed(loc, r.options);
    CBitExact(loc, slot, r.options);
    NoOptions(r.options);
  }

  lemma AreaAsRequested(loc: Locator, slot: u32, att: Attachment, r: Request)
    requires Carries(att, r) && Acceptable(loc, r.options)
    ensures att.opts.len <= |att.opts.data|
    ensures var area := OptionArea(loc, slot, att.opts);
            && |area| == LocatorLen(loc) + |EncodeAll(r.options)|
            && ParseTlvs(area) == Some(LocatorOption(loc, slot) + r.options)
            && area[..LocatorLen(loc)] == LocatorBytes(loc, slot)
  {
    CarriedOptions(loc, slot, att, r);
    EmittedAreaParses(loc, slot, r.options);
    AreaParts(loc, slot, att.opts);
  }

  lemma LedBack(plan: Plan, p: seq<u8>, slot: u32, vni: u32, geneve: seq<u8>, area: seq<u8>)
    requires ValidPlan(plan) && slot < plan.nPorts && vni <= MaxVni(plan.locator)
    requires |p| >= 50 + |area| && |area| >= LocatorLen(plan.locator)
    requires p[36..38] == Be16(WirePort(plan, slot)) && p[42..50] == geneve && p[50..50 + |area|] == area
    requires area[..LocatorLen(plan.locator)] == LocatorBytes(plan.locator, slot)
    requires VniOf(geneve[4..7]) == WireVni(plan.locator, slot, vni)
    ensures LeadsBack(plan, p, slot, vni)
  {
    WordsOf(p, 36, WirePort(plan, slot));
    SubSlice(p, 42, 50, 4, 7);
    SubSlice(p, 50, 50 + |area|, 0, LocatorLen(plan.locator));
    LocateInverts(plan, slot, vni);
  }

  /** A packet whose parts are those, read at the receiver's offsets. */
  lemma ReadAtOffsets(sw: Switch, slot: u32, r: Request, p: seq<u8>, geneve: seq<u8>, area: seq<u8>, rest: seq<u8>)
    requires ValidPlan(sw.plan) && slot < sw.plan.nPorts && r.vni <= MaxVni(sw.plan.locator)
    requires Holds(p, Gateway(r), WirePort(sw.plan, slot), geneve, area, rest) && |geneve| == 8
    requires |area| == LocatorLen(sw.plan.locator) + |EncodeAll(r.options)| && ParseOuter(p) == Some(|area|)
    requires ParseTlvs(area) == Some(LocatorOption(sw.plan.locator, slot) + r.options)
    requires area[..LocatorLen(sw.plan.locator)] == LocatorBytes(sw.plan.locator, slot)
    requires VniOf(geneve[4..7]) == WireVni(sw.plan.locator, slot, r.vni)
    requires geneve[1] == if AnyCritical(LocatorOption(sw.plan.locator, slot) + r.options) then 0x40 else 0
    ensures OnWire(sw, slot, r, p)
  {
    LedBack(sw.plan, p, slot, r.vni, geneve, area);
    assert p[43] == p[42..50][1];
  }

  /** A frame encapsulated for a slot that carries the request goes out as it asks. */
  lemma RequestReachesWire(sw: Switch, slot: u32, r: Request, att: Attachment, sport: u16, proto: u16, payload: seq<u8>)
    requires ValidPlan(sw.plan) && slot < sw.plan.nPorts && Carries(att, r)
    requires Acceptable(sw.plan.locator, r.options) && r.vni <= MaxVni(sw.plan.locator)
    ensures WellFormedValue(sw.plan.locator, Fetched(att.opts))
    ensures OnWire(sw, slot, r, Encapsulated(sw, slot, att, sport, proto, payload))
  {
    var loc, total := sw.plan.locator, EncapLen(sw, att) + |payload|;
    CarriedOptions(loc, slot, att, r);
    AreaAsRequested(loc, slot, att, r);
    LocateInverts(sw.plan, slot, r.vni);
    var check := OuterCheck(sw, att, total);
    EncapsulatedIs(sw, slot, att, sport, proto, payload, check, total);
    SentFields(sw, slot, att, sport, proto, payload, check);
    SentParses(sw, slot, att, sport, proto, payload, check);
    GeneveParts(sw, slot, att, proto);
    ReadAtOffsets(sw, slot, r, WithCheck(sw, slot, att, sport, proto, payload, check), GeneveFor(sw, slot, att, proto),
                  OptionArea(loc, slot, att.opts), InnerEth(sw, slot, att, proto) + payload);
  }

  /** The transit path takes a frame exactly if the slot has a transit device, a gateway was
      asked for, and the frame holds a whole IPv4 or IPv6 header. */
  lemma FramesTaken(sw: Switch, r: Request, att: Attachment, frame: seq<u8>)
    requires Carries(att, r) && Acceptable(sw.plan.locator, r.options)
    ensures Encapsulable(sw, att, frame) <==>
            && att.ifindex != 0 && r.gateway.V4? && r.gateway.addr != 0
            && (|| (|frame| >= 34 && frame[12] == 0x08 && frame[13] == 0x00)
                || (|frame| >= 54 && frame[12] == 0x86 && frame[13] == 0xdd))
  {
    CarriedOptions(sw.plan.locator, 0, att, r);
  }

  // --------------------------------------------------------------- from the slot memory

  /** The transit side that a packet program encapsulates with, as it loaded it. */
  ghost predicate Loaded(att: Attachment, obs: seq<int>) {
    && |obs| >= 10 && att.gateway == obs[1] && att.vni == obs[2] && att.opts.len == obs[3] && att.mac == obs[4..10]
    && |att.opts.data| == MAX_OPTS_LEN
    && (obs[3] > 0 ==> |obs| == 12 + obs[3] && obs[3] <= MAX_OPTS_LEN && att.opts.critical == obs[11]
                       && att.opts.data[..obs[3]] == obs[12..])
  }

  lemma LoadedCarries(cfg: SwitchConfig, r: Request, c: Config, g: nat, att: Attachment)
    requires Validate(cfg, r) == Some(c) && Loaded(att, Uses(NxTransit, c, g))
    ensures Carries(att, r)
  {
    var used := Uses(NxTransit, c, g);
    MarshalledWellFormed(cfg.locator, r.options);
    ImageCells(ValueOf(r.options));
    assert used[4..10] == c.transit[2..];
    if c.opts[0] > 0 {
      assert used[12..] == c.opts[2..2 + c.opts[0]];
    }
  }

  /** Of every frame a packet program forwards: if the slot was not taken over at its gate
      and undisturbed from there to its last load, the frame leaves as the request asks that
      the publishing Attach or SetPortUp call was started with. */
  lemma {:induction false} ForwardedAsRequested(cfg: SwitchConfig, states: seq<Sys>, acts: seq<Action>, i: nat, pid: nat,
                                                sw: Switch, slot: u32, att: Attachment, sport: u16, proto: u16, payload: seq<u8>)
    returns (asked: nat, published: nat, gate: nat, last: nat)
    requires IsRun(cfg, states, acts) && i < |states|
    requires pid in states[i].packets && states[i].packets[pid].pc.PForward? && states[i].packets[pid].kind.NxTransit?
    requires sw.plan.locator == cfg.locator && ValidPlan(sw.plan) && slot < sw.plan.nPorts
    requires Loaded(att, states[i].packets[pid].obs)
    ensures asked < published < gate < last < i && PassesGate(states[gate], acts[gate], pid)
    ensures Publishes(states[published], acts[published], states[i].packets[pid].pub, states[i].packets[pid].pubGen)
    ensures Starts(cfg, acts[asked], acts[published].pid, states[i].packets[pid].pub)
    ensures states[gate].port.slot.innerIP != RESERVED && Undisturbed(states, acts, gate, last) ==>
              && WellFormedValue(sw.plan.locator, Fetched(att.opts))
              && OnWire(sw, slot, acts[asked].r, Encapsulated(sw, slot, att, sport, proto, payload))
  {
    asked, published, gate, last := ForwardedPacketSawOneConfig(cfg, states, acts, i, pid);
    if states[gate].port.slot.innerIP != RESERVED && Undisturbed(states, acts, gate, last) {
      var p, r := states[i].packets[pid], acts[asked].r;
      LoadedCarries(cfg, r, p.pub, p.pubGen, att);
      ValidateExact(cfg, r);
      RequestReachesWire(sw, slot, r, att, sport, proto, payload);
    }
  }
}
