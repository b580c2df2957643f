/** Calls that nothing disturbs succeed: from every reachable state in which a call may be
    made, its own steps alone lead to a state in which it has done what it is for. */
module SlotProgress {
  import opened Wire
  import opened SlotMachine
  import opened SlotInvariant
  import opened SlotObservers
  import opened SlotRaces
  import opened SlotTheorems

  lemma {:induction false} ReachableInv(sw: SwitchConfig, s: Sys)
    requires Reachable(sw, s)
    ensures Inv(sw, s)
  {
    var states, acts :| IsRun(sw, states, acts) && states[|acts|] == s;
    RunInv(sw, states, acts, |acts|);
  }

  /** The system with this operation as the only one in flight. */
  function With(s: Sys, pid: nat, op: Op): Sys {
    s.(ops := map[pid := op])
  }

  lemma {:induction false} WithInv(sw: SwitchConfig, s: Sys, pid: nat, op: Op)
    requires Reachable(sw, With(s, pid, op))
    ensures SoloInv(sw, s.port, s.ctl, Some(op))
  {
    ReachableInv(sw, With(s, pid, op));
    CurrentIs(With(s, pid, op).ops, pid);
  }

  /** One step of the operation, with every system call working. */
  lemma {:induction false} Moves(sw: SwitchConfig, s: Sys, pid: nat, op: Op, m: Port, op': Op)
    requires Reachable(sw, With(s, pid, op)) && OpNext(s.port, op, true) == After(m, Some(op'))
    ensures Reachable(sw, With(s.(port := m), pid, op'))
  {
    Extend(sw, With(s, pid, op), OpStep(pid, true));
    assert map[pid := op][pid := op'] == map[pid := op'];
  }

  lemma {:induction false} Returns(sw: SwitchConfig, s: Sys, pid: nat, op: Op, m: Port)
    requires Reachable(sw, With(s, pid, op)) && OpNext(s.port, op, true) == After(m, None)
    ensures Reachable(sw, s.(port := m, ops := map[]))
  {
    Extend(sw, With(s, pid, op), OpStep(pid, true));
    assert map[pid := op] - {pid} == map[];
  }

  // -------------------------------------------------------------------------- Attach

  function AttachLeft(pc: AttachPc): nat {
    match pc
    case AClaimed => 300 case AReady => 299 case AFlags => 298 case AGen => 297 case AHint => 296
    case ATransit(k) => 200 + if k < 20 then 20 - k else 0
    case AKind => 199
    case AOpts(k) => 100 + if k < 80 then 80 - k else 0
    case APrepare => 99 case ARecheck => 98 case APubHint => 97 case APubGen => 96 case AStats => 95
    case AReset(_) => 94 case AConfirm => 93 case AUp => 92 case ARollback => 0
  }

  /** Where the counters stand in an Attach that found them at this generation. */
  predicate CountersAt(m: Port, pc: AttachPc, gen: nat) {
    match pc
    case AReset(prev) => m.ctr.gen == prev == gen
    case AConfirm => m.ctr == Counters(gen + 1, ZERO, ZERO) && m.ctrOwner == m.att
    case AUp => m.ctr == Counters(gen + 1, ZERO, ZERO) && m.ctrOwner == m.att && m.slot.statsReady == 1
    case _ => m.ctr.gen == gen
  }

  /** A slot an Attach can finish on: still its own, and with a device if it is a tap port. */
  predicate Workable(m: Port, c: Config, pc: AttachPc, gen: nat) {
    && m.slot.innerIP == c.ip && (m.slot.tap ==> m.slot.ifindex != 0)
    && gen < MAX_U64 && CountersAt(m, pc, gen) && !pc.ARollback?
  }

  lemma {:induction false} AttachMoves(m: Port, op: Op, gen: nat)
    requires op.Attach? && Workable(m, op.c, op.apc, gen) && !op.apc.AUp?
    ensures var r := AttachNext(m, op, true);
            && r.op.Some? && r.op.value.Attach? && r.op.value == op.(apc := r.op.value.apc)
            && AttachLeft(r.op.value.apc) < AttachLeft(op.apc)
            && Workable(r.port, op.c, r.op.value.apc, gen) && r.port.att == m.att
            && r.port.slot.tap == m.slot.tap && r.port.slot.ifindex == m.slot.ifindex
  {
    match op.apc
    case AClaimed | AReady | AFlags | AGen | AHint =>
    case ATransit(_) | AOpts(_) =>
    case AKind | APrepare | ARecheck =>
    case APubHint | APubGen | AStats | AReset(_) | AConfirm =>
  }

  /** What a successful Attach makes of a port. */
  predicate Attached(m: Port, c: Config, generation: nat, adminDown: bool) {
    && m.slot.innerIP == c.ip && Holds(m.slot.hint, m.slot.transit, m.opt, c)
    && m.slot.generation == generation && m.slot.flags == (if adminDown then 0 else 1)
    && m.slot.statsReady == 1 && m.ctrOwner == m.att
    && (!adminDown ==> m.pub == c && m.pubGen == generation)
  }

  lemma {:induction false} AttachFinishes(sw: SwitchConfig, s: Sys, pid: nat, op: Op, gen: nat) returns (m: Port)
    requires op.Attach? && Reachable(sw, With(s, pid, op)) && Workable(s.port, op.c, op.apc, gen)
    ensures Reachable(sw, s.(port := m, ops := map[]))
    ensures Attached(m, op.c, op.generation, op.adminDown) && m.ctr == Counters(gen + 1, ZERO, ZERO) && m.att == s.port.att
    decreases AttachLeft(op.apc)
  {
    WithInv(sw, s, pid, op);
    if op.apc.AUp? {
      m := AttachNext(s.port, op, true).port;
      Returns(sw, s, pid, op, m);
    } else {
      AttachMoves(s.port, op, gen);
      var r := AttachNext(s.port, op, true);
      Moves(sw, s, pid, op, r.port, r.op.value);
      m := AttachFinishes(sw, s.(port := r.port), pid, r.op.value, gen);
    }
  }

  /** An undisturbed Attach of a valid request on any Free slot (with a device, if it is a tap
      port) returns with the slot its own, the configuration and the generation in place, new
      counters at zero and confirmed, and the port up unless it was asked to stay down. */
  lemma {:induction false} AttachCompletes(sw: SwitchConfig, s: Sys, pid: nat, r: Request, generation: nat, adminDown: bool)
    returns (m: Port)
    requires Reachable(sw, s) && s.port.slot.innerIP == FREE && (s.port.slot.tap ==> s.port.slot.ifindex != 0)
    requires Validate(sw, r).Some? && GenerationFits(sw, generation) && s.port.ctr.gen < MAX_U64
    ensures Reachable(sw, s.(port := m))
    ensures Attached(m, Validate(sw, r).value, generation, adminDown)
    ensures m.ctr == Counters(s.port.ctr.gen + 1, ZERO, ZERO) && m.att == s.port.att + 1
  {
    ReachableInv(sw, s);
    assert s.ops == map[];
    var c := Validate(sw, r).value;
    Extend(sw, s, Claim(pid, r, generation, adminDown));
    var t := s.(port := Claimed(s.port, c, generation));
    m := AttachFinishes(sw, t, pid, Attach(c, generation, adminDown, AClaimed), s.port.ctr.gen);
    assert t.(port := m, ops := map[]) == s.(port := m);
  }

  // ----------------------------------------------------------------------- SetPortUp

  function CommitLeft(pc: CommitPc): nat {
    match pc
    case CRecheck => 300
    case COpts(k) => 200 + if k < 80 then 80 - k else 0
    case CRecheck2 => 199 case CHint => 198
    case CTransit(k) => 100 + if k < 20 then 20 - k else 0
    case CCas => 99 case CConfirm => 98 case CUp => 97
  }

  /** What SetPortUp leaves alone: it is the same attachment, with the same counters. */
  predicate SameAttachment(m: Port, n: Port) {
    && n.att == m.att && n.attGen == m.attGen && n.ctr == m.ctr && n.ctrOwner == m.ctrOwner
    && n.slot.generation == m.slot.generation && n.slot.statsReady == m.slot.statsReady
  }

  predicate Owned(m: Port, op: Op)
    requires op.Commit?
  {
    m.slot.innerIP == if op.cpc.CConfirm? || op.cpc.CUp? then op.c.ip else op.cur
  }

  lemma {:induction false} CommitMoves(m: Port, op: Op)
    requires op.Commit? && Owned(m, op) && !op.cpc.CUp?
    ensures var r := CommitNext(m, op, true);
            && r.op.Some? && r.op.value.Commit? && r.op.value == op.(cpc := r.op.value.cpc)
            && CommitLeft(r.op.value.cpc) < CommitLeft(op.cpc)
            && Owned(r.port, r.op.value) && SameAttachment(m, r.port)
  {
    match op.cpc
    case COpts(_) | CTransit(_) =>
    case CRecheck | CRecheck2 | CHint | CCas | CConfirm =>
  }

  /** What a successful SetPortUp makes of a port. */
  predicate Raised(m: Port, n: Port, c: Config) {
    && n.slot.innerIP == c.ip && Holds(n.slot.hint, n.slot.transit, n.opt, c)
    && n.slot.flags == 1 && n.pub == c && n.pubGen == m.attGen && SameAttachment(m, n)
  }

  lemma {:induction false} CommitFinishes(sw: SwitchConfig, s: Sys, pid: nat, op: Op) returns (m: Port)
    requires op.Commit? && Reachable(sw, With(s, pid, op)) && Owned(s.port, op)
    ensures Reachable(sw, s.(port := m, ops := map[])) && Raised(s.port, m, op.c)
    decreases CommitLeft(op.cpc)
  {
    WithInv(sw, s, pid, op);
    if op.cpc.CUp? {
      m := CommitNext(s.port, op, true).port;
      Returns(sw, s, pid, op, m);
    } else {
      CommitMoves(s.port, op);
      var r := CommitNext(s.port, op, true);
      Moves(sw, s, pid, op, r.port, r.op.value);
      m := CommitFinishes(sw, s.(port := r.port), pid, r.op.value);
    }
  }

  /** An undisturbed SetPortUp of a valid request on any attached port that is down returns
      with the port up under the new configuration, and the attachment otherwise as it was. */
  lemma {:induction false} PortUpCompletes(sw: SwitchConfig, s: Sys, pid: nat, r: Request) returns (m: Port)
    requires Reachable(sw, s) && s.ops == map[] && IsAllocated(s.port.slot.innerIP) && s.port.slot.flags == 0
    requires Validate(sw, r).Some?
    ensures Reachable(sw, s.(port := m)) && Raised(s.port, m, Validate(sw, r).value)
  {
    var c, cur := Validate(sw, r).value, s.port.slot.innerIP;
    Extend(sw, s, StartPortUp(pid, r));
    Moves(sw, s, pid, PortUp(Some(c), cur, false), s.port, PortUp(Some(c), cur, true));
    Moves(sw, s, pid, PortUp(Some(c), cur, true), s.port, Commit(c, cur, CRecheck));
    m := CommitFinishes(sw, s, pid, Commit(c, cur, CRecheck));
    assert s.(port := m, ops := map[]) == s.(port := m);
  }

  // -------------------------------------------------------------------- control lock

  /** An undisturbed force reserve leaves any slot Reserved, and down with a zero hint if it
      was attached. */
  lemma {:induction false} ForceCompletes(sw: SwitchConfig, s: Sys) returns (m: Port)
    requires Reachable(sw, s) && LockFree(s)
    ensures Reachable(sw, s.(port := m)) && m.slot.innerIP == RESERVED
    ensures IsAllocated(s.port.slot.innerIP) ==> m.slot.flags == 0 && m.slot.hint == 0
  {
    var ip := s.port.slot.innerIP;
    Extend(sw, s, StartControl(ForceLoad));
    Extend(sw, s.(ctl := ForceLoad), ControlStep);
    m := s.port;
    if ip != RESERVED {
      Extend(sw, s.(ctl := ForceCas(ip)), ControlStep);
      m := Seize(s.port, ip, Idle, Idle).port;
      if IsAllocated(ip) {
        Extend(sw, s.(port := m, ctl := ForceFlags), ControlStep);
        m := m.(slot := m.slot.(flags := 0));
        Extend(sw, s.(port := m, ctl := ForceHint), ControlStep);
        m := m.(slot := m.slot.(hint := 0));
      }
    }
    assert s.(port := m, ctl := Idle) == s.(port := m);
  }

  /** An undisturbed reserve takes any Free slot, and withdraws its counters. */
  lemma {:induction false} ReserveCompletes(sw: SwitchConfig, s: Sys)
    requires Reachable(sw, s) && LockFree(s) && s.port.slot.innerIP == FREE
    ensures Reachable(sw, s.(port := s.port.(slot := s.port.slot.(innerIP := RESERVED, statsReady := 0))))
  {
    Extend(sw, s, StartControl(ReserveCas));
    Extend(sw, s.(ctl := ReserveCas), ControlStep);
    var m := s.port.(slot := s.port.slot.(innerIP := RESERVED));
    Extend(sw, s.(port := m, ctl := ReserveReady), ControlStep);
  }

  /** An undisturbed reopening leaves a Reserved slot Free and down. */
  lemma {:induction false} ReopenCompletes(sw: SwitchConfig, s: Sys)
    requires Reachable(sw, s) && LockFree(s) && s.port.slot.innerIP == RESERVED && s.ops == map[]
    ensures Reachable(sw, s.(port := s.port.(slot := s.port.slot.(innerIP := FREE, flags := 0))))
  {
    Extend(sw, s, StartReopen);
    Extend(sw, s.(ctl := ReopenFlags), ControlStep);
    var m := s.port.(slot := s.port.slot.(flags := 0));
    Extend(sw, s.(port := m, ctl := ReopenCas), ControlStep);
  }

  // ----------------------------------------------------------------------- observers

  lemma {:induction false} ReaderGoes(sw: SwitchConfig, s: Sys, pid: nat, r: Reader, q: Reader)
    requires Reachable(sw, s) && pid in s.readers && s.readers[pid] == r && ReaderNext(s.port, r) == Some(q)
    ensures Reachable(sw, s.(readers := s.readers[pid := q]))
  {
    Extend(sw, s, StatsStep(pid));
  }

  /** The readers with this one among them. */
  function Reading(s: Sys, pid: nat, r: Reader): Sys {
    s.(readers := s.readers[pid := r])
  }

  lemma {:induction false} ReadingGoes(sw: SwitchConfig, s: Sys, pid: nat, r: Reader, q: Reader)
    requires Reachable(sw, Reading(s, pid, r)) && ReaderNext(s.port, r) == Some(q)
    ensures Reachable(sw, Reading(s, pid, q))
  {
    ReaderGoes(sw, Reading(s, pid, r), pid, r, q);
    assert s.readers[pid := r][pid := q] == s.readers[pid := q];
  }

  /** An undisturbed Stats read of a port that is up and has confirmed counters passes all
      checks and returns the address, the generation and the counters as they are. */
  lemma {:induction false} StatsCompletes(sw: SwitchConfig, s: Sys, pid: nat) returns (r: Reader)
    requires Reachable(sw, s) && s.ctl.Idle? && pid !in s.readers
    requires Live(s.port) && s.port.slot.statsReady == 1 && s.port.ctr.gen > 0
    ensures Reachable(sw, Reading(s, pid, r)) && r.pc.RGen1?
    ensures r.ip == s.port.slot.innerIP && r.gen == s.port.slot.generation && r.snap == s.port.ctr
  {
    Extend(sw, s, StartStats(pid));
    r := ReadFinishes(sw, s, pid, NEW_READER);
  }

  /** A read whose loads so far saw the port as it is. */
  predicate Reads(m: Port, r: Reader) {
    && (Rank(r.pc) >= 3 ==> r.first == m.ctr.gen)
    && (Rank(r.pc) >= 4 ==> r.ip == m.slot.innerIP)
    && (Rank(r.pc) >= 5 ==> r.gen == m.slot.generation)
    && (Rank(r.pc) >= 6 ==> r.snap == m.ctr)
  }

  lemma {:induction false} ReadMoves(m: Port, r: Reader)
    requires Live(m) && m.slot.statsReady == 1 && m.ctr.gen > 0 && Reads(m, r) && !r.pc.RGen1?
    ensures var q := ReaderNext(m, r); q.Some? && Reads(m, q.value) && Rank(q.value.pc) == Rank(r.pc) + 1
  {
    match r.pc
    case RFlags | RReady | RFirst | RInner | RGen =>
    case RSecond | RFlags1 | RReady1 | RInner1 =>
  }

  lemma {:induction false} ReadFinishes(sw: SwitchConfig, s: Sys, pid: nat, r: Reader) returns (q: Reader)
    requires Live(s.port) && s.port.slot.statsReady == 1 && s.port.ctr.gen > 0
    requires Reads(s.port, r) && Reachable(sw, Reading(s, pid, r))
    ensures Reachable(sw, Reading(s, pid, q)) && q.pc.RGen1? && Reads(s.port, q)
    decreases 9 - Rank(r.pc)
  {
    if r.pc.RGen1? {
      q := r;
    } else {
      ReadMoves(s.port, r);
      var next := ReaderNext(s.port, r).value;
      ReadingGoes(sw, s, pid, r, next);
      q := ReadFinishes(sw, s, pid, next);
    }
  }

  /** The packets with this one among them. */
  function Passing(s: Sys, pid: nat, p: Packet): Sys {
    s.(packets := s.packets[pid := p])
  }

  lemma {:induction false} PassingGoes(sw: SwitchConfig, s: Sys, pid: nat, p: Packet, q: Packet)
    requires Reachable(sw, Passing(s, pid, p)) && !p.pc.PForward? && PacketNext(sw, s.port, p, true) == Some(q)
    ensures Reachable(sw, Passing(s, pid, q))
  {
    Extend(sw, Passing(s, pid, p), PacketStep(pid, true));
    assert s.packets[pid := p][pid := q] == s.packets[pid := q];
  }

  function PacketLeft(p: Packet): nat {
    match p.pc
    case PStats => 205 case PGen => 204 case PInner => 203 case PIfindex => 202 case PToken => 201
    case PRead => 1 + if |p.obs| < 100 then 100 - |p.obs| else 0
    case PForward => 0
  }

  /** A port through which such a packet passes. */
  predicate Passable(sw: SwitchConfig, m: Port, p: Packet) {
    && Live(m) && PublishedInv(sw, m)
    && (p.kind.Mx? ==> p.want == m.slot.generation) && (p.kind.Mx? || p.kind.Return? ==> m.slot.ifindex != 0)
  }

  predicate Passes(m: Port, p: Packet) {
    && (!p.pc.PStats? ==> p.cap == m.ctr.gen) && (p.pc.PGen? ==> p.kind.Mx?)
    && (p.pc.PIfindex? ==> p.kind.Mx? || p.kind.Return?)
    && (p.pc.PRead? || p.pc.PForward? ==> p.pub == m.pub && p.pubGen == m.pubGen && ObsMatch(p))
    && (p.pc.PRead? ==> |p.obs| < PlanLen(p.kind, p.obs))
    && (p.pc.PForward? ==> |p.obs| == PlanLen(p.kind, p.obs))
  }

  lemma {:induction false} PlanBounded(sw: SwitchConfig, p: Packet)
    requires ObsMatch(p) && WellFormed(sw, p.pub)
    ensures PlanLen(p.kind, p.obs) <= 76
  {
    assert p.kind.NxTransit? && |p.obs| >= 4 ==> p.obs[3] == ConfigLoc(p.pub, p.pubGen, PlanLoc(p.kind, 3));
  }

  lemma {:induction false} LoadMoves(sw: SwitchConfig, m: Port, p: Packet)
    requires Passable(sw, m, p) && Passes(m, p) && p.pc.PRead?
    ensures var q := PacketNext(sw, m, p, true);
            q.Some? && Passes(m, q.value) && PacketLeft(q.value) < PacketLeft(p) && SamePacket(p, q.value)
  {
    NextMatches(sw, m, p);
    PlanBounded(sw, p);
    NoDefect(sw, p.(obs := Observe(m, p)));
  }

  predicate SamePacket(p: Packet, q: Packet) {
    q.kind == p.kind && q.len == p.len && q.want == p.want
  }

  lemma {:induction false} PacketGoes(sw: SwitchConfig, m: Port, p: Packet)
    requires Passable(sw, m, p) && Passes(m, p) && !p.pc.PForward?
    ensures var q := PacketNext(sw, m, p, true);
            q.Some? && Passes(m, q.value) && PacketLeft(q.value) < PacketLeft(p) && SamePacket(p, q.value)
  {
    match p.pc
    case PRead => LoadMoves(sw, m, p);
    case PStats =>
    case PGen =>
    case PInner =>
    case PIfindex =>
    case PToken =>
  }

  lemma {:induction false} PacketFinishes(sw: SwitchConfig, s: Sys, pid: nat, p: Packet) returns (q: Packet)
    requires Passable(sw, s.port, p) && Passes(s.port, p) && Reachable(sw, Passing(s, pid, p))
    ensures Reachable(sw, Passing(s, pid, q)) && q.pc.PForward? && Passes(s.port, q) && SamePacket(p, q)
    decreases PacketLeft(p)
  {
    if p.pc.PForward? {
      q := p;
    } else {
      PacketGoes(sw, s.port, p);
      var next := PacketNext(sw, s.port, p, true).value;
      PassingGoes(sw, s, pid, p, next);
      q := PacketFinishes(sw, s, pid, next);
    }
  }

  /** A packet that meets a port that is up and stays as it is passes every check and is
      forwarded with the whole published configuration: from the sandbox always, from a
      gateway if the port has a device, and a reply if it also names the generation. */
  lemma {:induction false} PacketCompletes(sw: SwitchConfig, s: Sys, pid: nat, kind: Kind, len: nat, want: nat)
    returns (p: Packet)
    requires Reachable(sw, s) && Live(s.port) && pid !in s.packets
    requires kind.Mx? || kind.Return? ==> s.port.slot.ifindex != 0
    requires kind.Mx? ==> sw.generationBits <= 20 && want == s.port.slot.generation
    ensures Reachable(sw, Passing(s, pid, p)) && p.pc.PForward? && p.kind == kind && p.len == len
    ensures p.obs == Uses(kind, s.port.pub, s.port.pubGen) && p.cap == s.port.ctr.gen
  {
    ReachableInv(sw, s);
    Extend(sw, s, Arrive(pid, kind, len, want));
    p := PacketFinishes(sw, s, pid, Packet(kind, len, want, PStats, 0, [], 0, 0, NO_CONFIG, 0, 0));
    LoadsAre(sw, p);
  }
}
