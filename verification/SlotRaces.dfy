/** Stronger claims that fail, each refuted by a run of the slot machine.

    tc_ingress_mx compares the generation before it passes the publication gate, does not
    load it again, and loads the address it delivers to after the gate. So a reply can reach
    an attachment of another generation that was claimed before the gate or after it, and at
    a gate opened on a slot that was taken over it reaches no attachment at all. Stats
    brackets its identity loads with two counter reads, but Attach publishes its generation
    before it resets the counters, so equal counter generations alone do not tie the two
    together. */
module SlotRaces {
  import opened Wire
  import opened Geneve
  import opened SlotMachine

  ghost predicate Reachable(sw: SwitchConfig, s: Sys) {
    exists states, acts :: IsRun(sw, states, acts) && states[|acts|] == s
  }

  lemma {:induction false} Start(sw: SwitchConfig)
    ensures Reachable(sw, Init())
  {
    var acts: seq<Action> := [];
    assert IsRun(sw, [Init()], acts) && [Init()][|acts|] == Init();
  }

  lemma {:induction false} Extend(sw: SwitchConfig, s: Sys, a: Action)
    requires Reachable(sw, s) && Enabled(sw, s, a)
    ensures Reachable(sw, Next(sw, s, a))
  {
    var states, acts :| IsRun(sw, states, acts) && states[|acts|] == s;
    var states', acts' := states + [Next(sw, s, a)], acts + [a];
    forall i | 0 <= i < |acts'| ensures StepAt(sw, states', acts', i) {
      assert i < |acts| ==> StepAt(sw, states, acts, i);
    }
    assert IsRun(sw, states', acts') && states'[|acts'|] == Next(sw, s, a);
  }

  // ------------------------------------------------------------------ a plain attachment

  function Plain(ip: u32): Request {
    Request(V4(ip), Absent, [], 0, [])
  }

  function PlainConfig(ip: nat): Config {
    Config(ip, NO_TRANSIT, false, NO_OPTS)
  }

  lemma {:induction false} PlainValidates(sw: SwitchConfig, ip: u32)
    requires IsAllocated(ip)
    ensures Validate(sw, Plain(ip)) == Some(PlainConfig(ip))
  {
    assert EncodeAll([]) == [];
    assert [0, 0] + NO_MAC == NO_TRANSIT;
    var v := ValueOf([]);
    assert v == OptsValue(0, 0, [] + Zeros(MAX_OPTS_LEN));
    assert OptImage(v) == NO_OPTS;
  }

  /** The system with this Attach as its only operation. */
  function Running(s: Sys, pid: nat, ip: nat, generation: nat, pc: AttachPc): Sys {
    s.(ops := map[pid := Attach(PlainConfig(ip), generation, false, pc)])
  }

  /** A port whose configuration cells are already those of a plain attachment. */
  predicate PlainPort(m: Port, ip: nat) {
    m.slot.innerIP == ip && m.slot.transit == NO_TRANSIT && m.opt == NO_OPTS && m.slot.hint == 0
    && m.slot.flags == 0 && !m.slot.tap
  }

  function PlainAttach(ip: nat, generation: nat, pc: AttachPc): Op {
    Attach(PlainConfig(ip), generation, false, pc)
  }

  /** One step of the Attach in flight. */
  lemma {:induction false} Advance(sw: SwitchConfig, s: Sys, pid: nat, ip: nat, generation: nat, pc: AttachPc, m: Port, pc': AttachPc)
    requires Reachable(sw, Running(s, pid, ip, generation, pc))
    requires AttachNext(s.port, PlainAttach(ip, generation, pc), true) == After(m, Some(PlainAttach(ip, generation, pc')))
    ensures Reachable(sw, Running(s.(port := m), pid, ip, generation, pc'))
  {
    Extend(sw, Running(s, pid, ip, generation, pc), OpStep(pid, true));
    assert map[pid := PlainAttach(ip, generation, pc)][pid := PlainAttach(ip, generation, pc')] == map[pid := PlainAttach(ip, generation, pc')];
  }

  lemma {:induction false} CopyTransit(sw: SwitchConfig, s: Sys, pid: nat, ip: nat, generation: nat, k: nat)
    requires PlainPort(s.port, ip) && k <= 8 && Reachable(sw, Running(s, pid, ip, generation, ATransit(k)))
    ensures Reachable(sw, Running(s, pid, ip, generation, AKind))
    decreases 8 - k
  {
    Advance(sw, s, pid, ip, generation, ATransit(k), s.port, if k < 8 then ATransit(k + 1) else AKind);
    if k < 8 {
      CopyTransit(sw, s, pid, ip, generation, k + 1);
    }
  }

  lemma {:induction false} CopyOpts(sw: SwitchConfig, s: Sys, pid: nat, ip: nat, generation: nat, k: nat)
    requires PlainPort(s.port, ip) && k <= OPT_CELLS && Reachable(sw, Running(s, pid, ip, generation, AOpts(k)))
    ensures Reachable(sw, Running(s, pid, ip, generation, APrepare))
    decreases OPT_CELLS - k
  {
    assert k < OPT_CELLS ==> NO_OPTS[k := NO_OPTS[k]] == NO_OPTS;
    Advance(sw, s, pid, ip, generation, AOpts(k), s.port, if k < OPT_CELLS then AOpts(k + 1) else APrepare);
    if k < OPT_CELLS {
      CopyOpts(sw, s, pid, ip, generation, k + 1);
    }
  }

  /** A Free port on which a plain Attach stores only values the cells already hold. */
  predicate Vacant(s: Sys) {
    PlainPort(s.port, FREE) && s.ops == map[]
  }

  function Prepared(m: Port, ip: nat, generation: nat): Port {
    m.(slot := m.slot.(innerIP := ip, statsReady := 0, generation := generation),
       att := m.att + 1, attGen := generation, genBy := m.att + 1)
  }

  /** Attach up to the copying of its configuration. */
  lemma {:induction false} AttachClears(sw: SwitchConfig, s: Sys, pid: nat, ip: u32, g: nat)
    requires Vacant(s) && Reachable(sw, s) && IsAllocated(ip) && GenerationFits(sw, g)
    ensures Reachable(sw, Running(s.(port := Clean(s.port, ip, g)), pid, ip, g, ATransit(0)))
  {
    PlainValidates(sw, ip);
    Extend(sw, s, Claim(pid, Plain(ip), g, false));
    var m := Claimed(s.port, PlainConfig(ip), g);
    var n := m.(slot := m.slot.(statsReady := 0));
    Advance(sw, s.(port := m), pid, ip, g, AClaimed, n, AReady);
    Advance(sw, s.(port := n), pid, ip, g, AReady, n, AFlags);
    Advance(sw, s.(port := n), pid, ip, g, AFlags, n, AGen);
    Advance(sw, s.(port := n), pid, ip, g, AGen, Clean(s.port, ip, g), AHint);
    Advance(sw, s.(port := Clean(s.port, ip, g)), pid, ip, g, AHint, Clean(s.port, ip, g), ATransit(0));
  }

  function Clean(m: Port, ip: nat, g: nat): Port {
    Prepared(m, ip, g).(slot := Prepared(m, ip, g).slot.(generation := UNPUBLISHED), genBy := m.genBy)
  }

  lemma {:induction false} AttachCopies(sw: SwitchConfig, s: Sys, pid: nat, ip: nat, g: nat)
    requires PlainPort(s.port, ip) && Reachable(sw, Running(s, pid, ip, g, ATransit(0)))
    ensures Reachable(sw, Running(s, pid, ip, g, APubGen))
  {
    CopyTransit(sw, s, pid, ip, g, 0);
    Advance(sw, s, pid, ip, g, AKind, s.port, AOpts(0));
    CopyOpts(sw, s, pid, ip, g, 0);
    Advance(sw, s, pid, ip, g, APrepare, s.port, ARecheck);
    Advance(sw, s, pid, ip, g, ARecheck, s.port, APubHint);
    Advance(sw, s, pid, ip, g, APubHint, s.port, APubGen);
  }

  /** Attach up to the point where its generation is published and its counters are not yet reset. */
  lemma {:induction false} AttachPrepares(sw: SwitchConfig, s: Sys, pid: nat, ip: u32, g: nat)
    requires Vacant(s) && Reachable(sw, s) && IsAllocated(ip) && GenerationFits(sw, g)
    ensures Reachable(sw, Running(s.(port := Prepared(s.port, ip, g)), pid, ip, g, AStats))
  {
    AttachClears(sw, s, pid, ip, g);
    var t := s.(port := Clean(s.port, ip, g));
    AttachCopies(sw, t, pid, ip, g);
    Advance(sw, t, pid, ip, g, APubGen, Prepared(s.port, ip, g), AStats);
  }

  function Up(m: Port, ip: nat): Port {
    m.(slot := m.slot.(statsReady := 1, flags := 1), ctr := Counters(m.ctr.gen + 1, ZERO, ZERO), ctrOwner := m.att,
       pub := PlainConfig(ip), pubGen := m.attGen)
  }

  function Confirmed(m: Port): Port {
    m.(slot := m.slot.(statsReady := 1), ctr := Counters(m.ctr.gen + 1, ZERO, ZERO), ctrOwner := m.att)
  }

  lemma {:induction false} AttachResets(sw: SwitchConfig, s: Sys, pid: nat, ip: u32, g: nat)
    requires s.port.ctr.gen < MAX_U64 && Reachable(sw, Running(s, pid, ip, g, AStats))
    ensures Reachable(sw, Running(s.(port := Confirmed(s.port)), pid, ip, g, AUp))
  {
    var m := s.port;
    Advance(sw, s, pid, ip, g, AStats, m, AReset(m.ctr.gen));
    var n := m.(ctr := Counters(m.ctr.gen + 1, ZERO, ZERO), ctrOwner := m.att);
    Advance(sw, s, pid, ip, g, AReset(m.ctr.gen), n, AConfirm);
    Advance(sw, s.(port := n), pid, ip, g, AConfirm, Confirmed(m), AUp);
  }

  /** Attach from its counter reset to its return. */
  lemma {:induction false} AttachPublishes(sw: SwitchConfig, s: Sys, pid: nat, ip: u32)
    requires s.ops == map[] && s.port.ctr.gen < MAX_U64 && Reachable(sw, Running(s, pid, ip, s.port.attGen, AStats))
    ensures Reachable(sw, s.(port := Up(s.port, ip)))
  {
    var g := s.port.attGen;
    AttachResets(sw, s, pid, ip, g);
    Extend(sw, Running(s.(port := Confirmed(s.port)), pid, ip, g, AUp), OpStep(pid, true));
    assert map[pid := PlainAttach(ip, g, AUp)] - {pid} == map[];
  }

  // ------------------------------------------------------------------------- a detach

  function Detached(m: Port): Port {
    m.(slot := m.slot.(innerIP := FREE, flags := 0, hint := 0), epoch := m.epoch + 2)
  }

  lemma {:induction false} DetachMoves(sw: SwitchConfig, s: Sys, op: Op, m: Port, op': Op)
    requires Reachable(sw, s.(ops := map[0 := op])) && OpNext(s.port, op, true) == After(m, Some(op'))
    ensures Reachable(sw, s.(port := m, ops := map[0 := op']))
  {
    Extend(sw, s.(ops := map[0 := op]), OpStep(0, true));
    assert map[0 := op][0 := op'] == map[0 := op'];
  }

  lemma {:induction false} DetachRuns(sw: SwitchConfig, s: Sys)
    requires Reachable(sw, s) && s.ops == map[] && IsAllocated(s.port.slot.innerIP)
    ensures Reachable(sw, s.(port := Detached(s.port)))
  {
    var ip, m := s.port.slot.innerIP, s.port;
    Extend(sw, s, StartDetach(0));
    DetachMoves(sw, s, Detach(ip, DDevice), m, Detach(ip, DRecheck));
    DetachMoves(sw, s, Detach(ip, DRecheck), m, Detach(ip, DRevoke));
    var n := m.(slot := m.slot.(flags := 0), epoch := m.epoch + 1);
    DetachMoves(sw, s, Detach(ip, DRevoke), n, Detach(ip, DHint));
    var o := n.(slot := n.slot.(hint := 0));
    DetachMoves(sw, s.(port := n), Detach(ip, DHint), o, Detach(ip, DRelease));
    Extend(sw, s.(port := o, ops := map[0 := Detach(ip, DRelease)]), OpStep(0, true));
    assert map[0 := Detach(ip, DRelease)] - {0} == map[];
  }

  // ---------------------------------------------------------- a reply that is too late

  lemma {:induction false} PacketMoves(sw: SwitchConfig, s: Sys, p: Packet, q: Packet)
    requires Reachable(sw, s) && s.packets == map[0 := p] && !p.pc.PForward? && PacketNext(sw, s.port, p, true) == Some(q)
    ensures Reachable(sw, s.(packets := map[0 := q]))
  {
    Extend(sw, s, PacketStep(0, true));
    assert map[0 := p][0 := q] == map[0 := q];
  }

  /** A port that is up, on a switch where nothing else runs. */
  lemma {:induction false} AttachedOnce(sw: SwitchConfig, ip: u32, g: nat) returns (s: Sys)
    requires IsAllocated(ip) && GenerationFits(sw, g)
    ensures Reachable(sw, s) && PlainPort(s.port.(slot := s.port.slot.(flags := 0)), ip) && s.port.slot.flags == 1
    ensures s.ops == map[] && s.packets == map[]
    ensures s.port.slot.ifindex == 1 && s.port.slot.generation == g && s.port.pubGen == g
    ensures s.port.epoch == 0 && s.port.ctr.gen == 1
  {
    Start(sw);
    Extend(sw, Init(), SetIfindex(1));
    var s0 := Next(sw, Init(), SetIfindex(1));
    AttachPrepares(sw, s0, 0, ip, g);
    var s1 := s0.(port := Prepared(s0.port, ip, g));
    AttachPublishes(sw, s1, 0, ip);
    s := s1.(port := Up(s1.port, ip));
  }

  /** A reply that has just passed its generation check. */
  function Checked(m: Port, len: nat, g: nat): Packet {
    Packet(Mx, len, g, PInner, m.ctr.gen, [], 0, 0, NO_CONFIG, 0, m.epoch)
  }

  lemma {:induction false} ReplyChecks(sw: SwitchConfig, s: Sys, g: nat, len: nat)
    requires sw.generationBits <= 20 && GenerationFits(sw, g)
    requires Reachable(sw, s) && s.packets == map[] && s.port.slot.generation == g
    ensures Reachable(sw, s.(packets := map[0 := Checked(s.port, len, g)]))
  {
    Extend(sw, s, Arrive(0, Mx, len, g));
    var p := Packet(Mx, len, g, PStats, 0, [], 0, 0, NO_CONFIG, 0, 0);
    assert s.packets[0 := p] == map[0 := p];
    var q := p.(cap := s.port.ctr.gen, pc := PGen);
    PacketMoves(sw, s.(packets := map[0 := p]), p, q);
    PacketMoves(sw, s.(packets := map[0 := q]), q, Checked(s.port, len, g));
  }

  /** A reply that has seen the slot attached waits at the gate. */
  function Waiting(m: Port, p: Packet): Packet {
    p.(pc := PToken, epoch := m.epoch)
  }

  lemma {:induction false} ReplyWaits(sw: SwitchConfig, s: Sys, p: Packet)
    requires Reachable(sw, s) && s.packets == map[0 := p] && p.kind.Mx? && p.pc.PInner?
    requires IsAllocated(s.port.slot.innerIP) && s.port.slot.ifindex == 1
    ensures Reachable(sw, s.(packets := map[0 := Waiting(s.port, p)]))
  {
    var q := p.(pc := PIfindex, epoch := s.port.epoch);
    PacketMoves(sw, s, p, q);
    PacketMoves(sw, s.(packets := map[0 := q]), q, Waiting(s.port, p));
  }

  function Passed(m: Port, p: Packet): Packet {
    p.(pc := PRead, obs := [], lastEpoch := m.epoch, pub := m.pub, pubGen := m.pubGen)
  }

  function Loaded(m: Port, p: Packet): Packet {
    p.(pc := PForward, obs := [m.slot.innerIP], lastEpoch := m.epoch)
  }

  lemma {:induction false} ReplyLoads(sw: SwitchConfig, s: Sys, p: Packet)
    requires Reachable(sw, s) && s.packets == map[0 := p] && p.kind.Mx? && p.pc.PRead? && p.obs == []
    ensures Reachable(sw, s.(packets := map[0 := Loaded(s.port, p)]))
  {
    assert Observe(s.port, p) == [s.port.slot.innerIP as int];
    PacketMoves(sw, s, p, Loaded(s.port, p));
  }

  /** For any two attachments in succession there is a run in which a reply for the
      generation of the first is delivered to the second, although nothing was revoked or
      taken over since the reply checked its generation. */
  lemma {:induction false} LateReplyReachesNewAttachment(sw: SwitchConfig, ip: u32, g: nat, ip': u32, g': nat, len: nat)
    returns (t: Sys)
    requires sw.generationBits <= 20 && IsAllocated(ip) && GenerationFits(sw, g) && IsAllocated(ip') && GenerationFits(sw, g')
    ensures Reachable(sw, t) && 0 in t.packets
    ensures var p := t.packets[0];
            && p.kind.Mx? && p.pc.PForward? && p.epoch == p.lastEpoch == p.genEpoch
            && p.obs == [ip'] && p.want == g && p.pubGen == g'
  {
    var s0 := AttachedOnce(sw, ip, g);
    DetachRuns(sw, s0);
    var s1 := s0.(port := Detached(s0.port));
    ReplyChecks(sw, s1, g, len);
    var p := Checked(s1.port, len, g);
    var s2 := s1.(packets := map[0 := p]);
    AttachPrepares(sw, s2, 0, ip', g');
    var s3 := s2.(port := Prepared(s2.port, ip', g'));
    AttachPublishes(sw, s3, 0, ip');
    var s4 := s3.(port := Up(s3.port, ip'));
    ReplyWaits(sw, s4, p);
    var q := Waiting(s4.port, p);
    PacketMoves(sw, s4.(packets := map[0 := q]), q, Passed(s4.port, q));
    ReplyLoads(sw, s4.(packets := map[0 := Passed(s4.port, q)]), Passed(s4.port, q));
    t := s4.(packets := map[0 := Loaded(s4.port, Passed(s4.port, q))]);
  }

  /** A reply past the gate of the attachment it names. */
  lemma {:induction false} ReplyPassed(sw: SwitchConfig, ip: u32, g: nat, len: nat) returns (s: Sys, p: Packet)
    requires sw.generationBits <= 20 && IsAllocated(ip) && GenerationFits(sw, g)
    ensures Reachable(sw, s) && s.packets == map[0 := p] && s.ops == map[] && s.port.ctr.gen == 1
    ensures PlainPort(s.port.(slot := s.port.slot.(flags := 0)), ip)
    ensures p.kind.Mx? && p.pc.PRead? && p.obs == [] && p.want == p.pubGen == g && p.epoch == p.genEpoch
  {
    var s0 := AttachedOnce(sw, ip, g);
    ReplyChecks(sw, s0, g, len);
    var q := Checked(s0.port, len, g);
    ReplyWaits(sw, s0.(packets := map[0 := q]), q);
    var r := Waiting(s0.port, q);
    p := Passed(s0.port, r);
    PacketMoves(sw, s0.(packets := map[0 := r]), r, p);
    s := s0.(packets := map[0 := p]);
  }

  /** For any two attachments in succession there is a run in which a reply passes its check
      and its gate on the first, and is delivered to the second, which was attached before
      the reply loaded its address. */
  lemma {:induction false} OvertakenReplyReachesNewAttachment(sw: SwitchConfig, ip: u32, g: nat, ip': u32, g': nat, len: nat)
    returns (t: Sys)
    requires sw.generationBits <= 20 && IsAllocated(ip) && GenerationFits(sw, g) && IsAllocated(ip') && GenerationFits(sw, g')
    ensures Reachable(sw, t) && 0 in t.packets && Live(t.port) && t.port.attGen == g'
    ensures var p := t.packets[0];
            p.kind.Mx? && p.pc.PForward? && p.epoch == p.genEpoch && p.want == p.pubGen == g && p.obs == [ip']
  {
    var s, p := ReplyPassed(sw, ip, g, len);
    DetachRuns(sw, s);
    var s1 := s.(port := Detached(s.port));
    AttachPrepares(sw, s1, 0, ip', g');
    var s2 := s1.(port := Prepared(s1.port, ip', g'));
    AttachPublishes(sw, s2, 0, ip');
    var s3 := s2.(port := Up(s2.port, ip'));
    ReplyLoads(sw, s3, p);
    t := s3.(packets := map[0 := Loaded(s3.port, p)]);
  }

  // ------------------------------------------------------------ a gate on a taken slot

  function Taken(m: Port): Port {
    m.(slot := m.slot.(innerIP := RESERVED), epoch := m.epoch + 1)
  }

  lemma {:induction false} TakeoverRuns(sw: SwitchConfig, s: Sys)
    requires Reachable(sw, s) && LockFree(s) && IsAllocated(s.port.slot.innerIP)
    ensures Reachable(sw, s.(port := Taken(s.port)))
  {
    Extend(sw, s, StartControl(TakeLoad));
    Extend(sw, s.(ctl := TakeLoad), ControlStep);
    Extend(sw, s.(ctl := TakeCas(s.port.slot.innerIP)), ControlStep);
  }

  /** An Attach that has only its last store left. */
  lemma {:induction false} AttachAtUp(sw: SwitchConfig, ip: u32, g: nat) returns (s: Sys)
    requires IsAllocated(ip) && GenerationFits(sw, g)
    ensures Reachable(sw, Running(s, 0, ip, g, AUp)) && LockFree(s) && s.packets == map[]
    ensures s.port.slot.innerIP == ip && s.port.slot.flags == 0 && s.port.slot.ifindex == 1 && s.port.slot.generation == g
  {
    Start(sw);
    Extend(sw, Init(), SetIfindex(1));
    var s0 := Next(sw, Init(), SetIfindex(1));
    AttachPrepares(sw, s0, 0, ip, g);
    var s1 := s0.(port := Prepared(s0.port, ip, g));
    AttachResets(sw, s1, 0, ip, g);
    s := s1.(port := Confirmed(s1.port));
  }

  /** An Attach that has only its last store left, and a reply for it at the gate. */
  lemma {:induction false} ReplyAtGate(sw: SwitchConfig, ip: u32, g: nat, len: nat) returns (s: Sys, p: Packet)
    requires sw.generationBits <= 20 && IsAllocated(ip) && GenerationFits(sw, g)
    ensures Reachable(sw, Running(s, 0, ip, g, AUp)) && LockFree(s) && s.packets == map[0 := p]
    ensures s.port.slot.innerIP == ip && s.port.slot.flags == 0
    ensures p.kind.Mx? && p.pc.PToken? && p.want == g && p.epoch == p.genEpoch
  {
    var s2 := AttachAtUp(sw, ip, g);
    ReplyChecks(sw, Running(s2, 0, ip, g, AUp), g, len);
    var q := Checked(s2.port, len, g);
    ReplyWaits(sw, Running(s2, 0, ip, g, AUp).(packets := map[0 := q]), q);
    p := Waiting(s2.port, q);
    s := s2.(packets := map[0 := p]);
  }

  /** For any attachment there is a run in which the slot is taken over while the Attach is
      about to store up; the reply it lets through the gate is delivered to the address that
      marks a Reserved slot, although nothing happens any more after the gate. */
  lemma {:induction false} TakenGateLeadsNowhere(sw: SwitchConfig, ip: u32, g: nat, len: nat) returns (t: Sys)
    requires sw.generationBits <= 20 && IsAllocated(ip) && GenerationFits(sw, g)
    ensures Reachable(sw, t) && 0 in t.packets && t.port.slot.innerIP == RESERVED
    ensures var p := t.packets[0];
            && p.kind.Mx? && p.pc.PForward? && p.lastEpoch == t.port.epoch
            && p.want == p.pubGen == g && p.obs == [RESERVED] && p.pub.ip == ip
  {
    var s, p := ReplyAtGate(sw, ip, g, len);
    TakeoverRuns(sw, Running(s, 0, ip, g, AUp));
    var m := Taken(s.port);
    Extend(sw, Running(s.(port := m), 0, ip, g, AUp), OpStep(0, true));
    assert map[0 := PlainAttach(ip, g, AUp)] - {0} == map[];
    var n := m.(slot := m.slot.(flags := 1), pub := PlainConfig(ip), pubGen := g);
    var s1 := s.(port := n, ops := map[]);
    var q := Passed(n, p);
    PacketMoves(sw, s1, p, q);
    ReplyLoads(sw, s1.(packets := map[0 := q]), q);
    t := s1.(packets := map[0 := Loaded(n, q)]);
  }

  // ------------------------------------------------------ a forced slot that stays up

  /** For any attachment there is a run in which a force reserve takes the slot over and takes
      the port down, the Attach still in flight stores up, and the force reserve finishes: the
      slot is Reserved and up, with nothing left to run. */
  lemma {:induction false} ForcedSlotStaysUp(sw: SwitchConfig, ip: u32, g: nat) returns (t: Sys)
    requires IsAllocated(ip) && GenerationFits(sw, g)
    ensures Reachable(sw, t) && t.ctl.Idle? && t.ops == map[]
    ensures t.port.slot.innerIP == RESERVED && t.port.slot.flags == 1 && t.port.slot.hint == 0
  {
    var s0 := AttachAtUp(sw, ip, g);
    var s := Running(s0, 0, ip, g, AUp);
    Extend(sw, s, StartControl(ForceLoad));
    Extend(sw, s.(ctl := ForceLoad), ControlStep);
    Extend(sw, s.(ctl := ForceCas(ip)), ControlStep);
    var m := Taken(s.port);
    Extend(sw, s.(port := m, ctl := ForceFlags), ControlStep);
    t := ForceEnds(sw, s0.(port := m, ctl := ForceHint), ip, g);
  }

  lemma {:induction false} ForceEnds(sw: SwitchConfig, s: Sys, ip: u32, g: nat) returns (t: Sys)
    requires Reachable(sw, Running(s, 0, ip, g, AUp)) && s.ctl.ForceHint? && s.port.slot.innerIP == RESERVED
    ensures Reachable(sw, t) && t.ctl.Idle? && t.ops == map[]
    ensures t.port.slot.innerIP == RESERVED && t.port.slot.flags == 1 && t.port.slot.hint == 0
  {
    Extend(sw, Running(s, 0, ip, g, AUp), OpStep(0, true));
    assert map[0 := PlainAttach(ip, g, AUp)] - {0} == map[];
    var n := s.port.(slot := s.port.slot.(flags := 1), pub := PlainConfig(ip), pubGen := g);
    Extend(sw, s.(port := n, ops := map[]), ControlStep);
    t := s.(port := n.(slot := n.slot.(hint := 0)), ops := map[], ctl := Idle);
  }

  // --------------------------------------------------- identity of one, counters of another

  lemma {:induction false} ReaderMoves(sw: SwitchConfig, s: Sys, r: Reader, q: Reader)
    requires Reachable(sw, s) && s.readers == map[0 := r] && ReaderNext(s.port, r) == Some(q)
    ensures Reachable(sw, s.(readers := map[0 := q]))
  {
    Extend(sw, s, StatsStep(0));
    assert map[0 := r][0 := q] == map[0 := q];
  }

  /** A Stats read has taken its first counter snapshot of the first attachment. */
  lemma {:induction false} StatsStarted(sw: SwitchConfig, ip: u32, g: nat) returns (s: Sys)
    requires IsAllocated(ip) && GenerationFits(sw, g)
    ensures Reachable(sw, s) && s.ops == map[] && s.readers == map[0 := NEW_READER.(pc := RInner, first := 1)]
    ensures s.port == Up(Prepared(Init().port, ip, g), ip)
  {
    Start(sw);
    AttachPrepares(sw, Init(), 0, ip, g);
    var s0 := Init().(port := Prepared(Init().port, ip, g));
    AttachPublishes(sw, s0, 0, ip);
    var s1 := s0.(port := Up(s0.port, ip));
    Extend(sw, s1, StartStats(0));
    var r := NEW_READER;
    ReaderMoves(sw, s1.(readers := map[0 := r]), r, r.(pc := RReady));
    ReaderMoves(sw, s1.(readers := map[0 := r.(pc := RReady)]), r.(pc := RReady), r.(pc := RFirst));
    ReaderMoves(sw, s1.(readers := map[0 := r.(pc := RFirst)]), r.(pc := RFirst), r.(pc := RInner, first := 1));
    s := s1.(readers := map[0 := r.(pc := RInner, first := 1)]);
  }

  /** The read loads the identity of the second attachment before that one resets the counters. */
  lemma {:induction false} IdentityLoaded(sw: SwitchConfig, s: Sys, ip: u32, g: nat) returns (r: Reader)
    requires s.readers == map[0 := NEW_READER.(pc := RInner, first := 1)] && s.port.ctr.gen == 1
    requires s.port.slot.innerIP == ip && IsAllocated(ip) && s.port.slot.generation == g
    requires Reachable(sw, s)
    ensures Reachable(sw, s.(readers := map[0 := r]))
    ensures r.pc == RFlags1 && r.ip == ip && r.gen == g && r.snap == s.port.ctr
    ensures r.atIP == r.atGen == r.atSnap == Now(s.port)
  {
    var r0 := NEW_READER.(pc := RInner, first := 1);
    var r1 := r0.(pc := RGen, ip := ip, atIP := Now(s.port));
    ReaderMoves(sw, s, r0, r1);
    var r2 := r1.(pc := RSecond, gen := g, atGen := Now(s.port));
    ReaderMoves(sw, s.(readers := map[0 := r1]), r1, r2);
    r := r2.(pc := RFlags1, snap := s.port.ctr, atSnap := Now(s.port));
    ReaderMoves(sw, s.(readers := map[0 := r2]), r2, r);
  }

  /** For any two attachments in succession there is a run in which Stats passes every check
      and returns the second one's address and generation with the first one's counters. */
  lemma {:induction false} StatsMixesAttachments(sw: SwitchConfig, ip: u32, g: nat, ip': u32, g': nat) returns (t: Sys)
    requires IsAllocated(ip) && IsAllocated(ip') && GenerationFits(sw, g) && GenerationFits(sw, g')
    ensures Reachable(sw, t) && 0 in t.readers
    ensures var r := t.readers[0];
            && r.pc.RGen1? && t.port.slot.generation == r.gen
            && r.ip == ip' && r.gen == g'
            && r.atIP.att == r.atGen.att == 2 && r.atSnap.ctrOwner == 1 && r.snap.gen == 1
            && t.port.ctr.gen == 2
  {
    var s := StatsStarted(sw, ip, g);
    DetachRuns(sw, s);
    var s1 := s.(port := Detached(s.port));
    AttachPrepares(sw, s1, 0, ip', g');
    var s2 := s1.(port := Prepared(s1.port, ip', g'));
    var r := IdentityLoaded(sw, Running(s2, 0, ip', g', AStats), ip', g');
    var s3 := s2.(readers := map[0 := r]);
    AttachPublishes(sw, s3, 0, ip');
    var m := Up(s3.port, ip');
    var s4 := s3.(port := m);
    var r1 := r.(pc := RReady1, atUp := Now(m));
    ReaderMoves(sw, s4, r, r1);
    ReaderMoves(sw, s4.(readers := map[0 := r1]), r1, r1.(pc := RInner1));
    ReaderMoves(sw, s4.(readers := map[0 := r1.(pc := RInner1)]), r1.(pc := RInner1), r1.(pc := RGen1));
    t := s4.(readers := map[0 := r1.(pc := RGen1)]);
  }
}
