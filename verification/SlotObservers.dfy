/** Packet programs, Stats readers and counters: their assertions, that these are
    stable under every other process (Evolves), and the invariant of whole runs. */
module SlotObservers {
  import opened Wire
  import opened SlotMachine
  import opened SlotInvariant

  // ------------------------------------------------------------------ packet programs

  /** Every value loaded after the gate is the published configuration's. */
  predicate ObsMatch(p: Packet) {
    forall j :: 0 <= j < |p.obs| ==> p.obs[j] == ConfigLoc(p.pub, p.pubGen, PlanLoc(p.kind, j))
  }

  predicate PacketInv(sw: SwitchConfig, m: Port, p: Packet) {
    p.cap <= m.ctr.gen &&
    match p.pc
    case PStats | PGen | PInner => true
    case PIfindex | PToken =>
      p.epoch <= m.epoch && (p.epoch == m.epoch ==> IsAllocated(m.slot.innerIP))
    case PRead =>
      && p.epoch <= p.lastEpoch <= m.epoch
      && (p.epoch == m.epoch ==> Live(m) && p.pub == m.pub && p.pubGen == m.pubGen)
      && (p.epoch == p.lastEpoch ==> ObsMatch(p))
    case PForward =>
      && p.epoch <= p.lastEpoch && |p.obs| >= PlanLen(p.kind, p.obs)
      && (p.epoch == p.lastEpoch ==> WellFormed(sw, p.pub) && ObsMatch(p))
  }

  lemma {:induction false} PacketStable(sw: SwitchConfig, m: Port, o: Option<Op>, n: Port, q: Option<Op>, p: Packet)
    requires PacketInv(sw, m, p) && Evolves(m, o, n, q)
    ensures PacketInv(sw, n, p)
  {
  }

  /** On an up port each location holds what the published configuration says. */
  lemma {:induction false} ReadsPublished(sw: SwitchConfig, m: Port, l: Loc)
    requires PublishedInv(sw, m) && Live(m)
    ensures ReadLoc(m, l) == ConfigLoc(m.pub, m.pubGen, l)
  {
  }

  lemma {:induction false} ReadMatches(sw: SwitchConfig, m: Port, p: Packet)
    requires PublishedInv(sw, m) && PacketInv(sw, m, p) && p.pc.PRead? && p.epoch == m.epoch
    ensures ObsMatch(p.(obs := Observe(m, p)))
  {
    ReadsPublished(sw, m, PlanLoc(p.kind, |p.obs|));
  }

  lemma {:induction false} PacketStep(sw: SwitchConfig, m: Port, ctl: Ctl, o: Option<Op>, p: Packet, ok: bool)
    requires SoloInv(sw, m, ctl, o) && PacketInv(sw, m, p) && PacketNext(sw, m, p, ok).Some?
    ensures PacketInv(sw, m, PacketNext(sw, m, p, ok).value)
  {
    match p.pc
    case PRead => if p.epoch == m.epoch { ReadMatches(sw, m, p); }
    case PStats =>
    case PGen =>
    case PInner =>
    case PIfindex =>
    case PToken =>
  }

  // -------------------------------------------------------------------- Stats readers

  /** A stamp taken earlier in the run. */
  predicate Past(t: Stamp, m: Port) {
    && t.att <= m.att && t.ctrGen <= m.ctr.gen && t.ctrOwner <= t.att
    && (t.ctrGen == m.ctr.gen ==> t.ctrOwner == m.ctrOwner)
  }

  function Rank(pc: ReaderPc): nat {
    match pc
    case RFlags => 0 case RReady => 1 case RFirst => 2 case RInner => 3 case RGen => 4
    case RSecond => 5 case RFlags1 => 6 case RReady1 => 7 case RInner1 => 8 case RGen1 => 9
  }

  /** The two counter reads bracket the identity reads in one counter generation. */
  predicate Bracketed(r: Reader) {
    && r.first != 0 && IsAllocated(r.ip)
    && r.snap.gen == r.atIP.ctrGen == r.atGen.ctrGen == r.atSnap.ctrGen
    && r.atIP.ctrOwner == r.atGen.ctrOwner == r.atSnap.ctrOwner
    && r.atGen.att <= r.atSnap.att
  }

  predicate IdentityRead(r: Reader) {
    && r.first <= r.atIP.ctrGen <= r.atGen.ctrGen && r.atIP.att <= r.atGen.att
    && (r.atGen.ctrOwner == r.atGen.att ==> r.gen == r.atGen.attGen)
  }

  predicate SeenUp(m: Port, o: Option<Op>, r: Reader) {
    && Past(r.atUp, m)
    && r.atSnap.att <= r.atUp.att && r.atSnap.ctrGen <= r.atUp.ctrGen
    && (r.atUp.ready == 0 || r.atUp.ready == 1)
    && (r.atUp.ready == 1 ==> r.atUp.ctrOwner == r.atUp.att)
    && (r.atUp.ready == 0 && r.atUp.ctrGen == m.ctr.gen ==> Unready(m, o))
  }

  predicate ReaderInv(m: Port, o: Option<Op>, r: Reader) {
    var k := Rank(r.pc);
    && (k >= 3 ==> r.first <= m.ctr.gen)
    && (k >= 4 ==> Past(r.atIP, m) && r.first <= r.atIP.ctrGen)
    && (k >= 5 ==> Past(r.atGen, m) && IdentityRead(r))
    && (k >= 6 ==> Past(r.atSnap, m) && Bracketed(r))
    && (k >= 7 ==> SeenUp(m, o, r))
    && (k >= 8 ==> r.atUp.ready == 1 || r.atUp.ctrGen < m.ctr.gen)
  }

  lemma {:induction false} ReaderStable(m: Port, o: Option<Op>, n: Port, q: Option<Op>, r: Reader)
    requires ReaderInv(m, o, r) && Evolves(m, o, n, q)
    ensures ReaderInv(n, q, r)
  {
  }

  lemma {:induction false} ReaderStep(sw: SwitchConfig, m: Port, ctl: Ctl, o: Option<Op>, r: Reader)
    requires SoloInv(sw, m, ctl, o) && m.slot.innerIP != RESERVED && ReaderInv(m, o, r) && ReaderNext(m, r).Some?
    ensures ReaderInv(m, o, ReaderNext(m, r).value)
  {
    match r.pc
    case RFlags =>
    case RReady =>
    case RFirst =>
    case RInner =>
    case RGen =>
    case RSecond =>
    case RFlags1 =>
    case RReady1 =>
    case RInner1 =>
  }

  // ------------------------------------------------------------------------- counters

  predicate Counts(e: Event, gen: nat, k: nat) {
    gen != 0 && e.cap == gen && KindIndex(e.kind) == k
  }

  /** Packets of kind k that captured this generation and finished their update. */
  function PacketsOf(log: seq<Event>, gen: nat, k: nat): nat {
    if log == [] then 0
    else PacketsOf(log[..|log| - 1], gen, k) + if Counts(log[|log| - 1], gen, k) then 1 else 0
  }

  function BytesOf(log: seq<Event>, gen: nat, k: nat): nat {
    if log == [] then 0
    else BytesOf(log[..|log| - 1], gen, k) + if Counts(log[|log| - 1], gen, k) then log[|log| - 1].len else 0
  }

  /** Packets of one kind leave the counters of the others alone. */
  lemma CountsApart(c: Counters, cap: nat, kind: Kind, len: nat, other: Kind)
    requires other != kind
    ensures var d := CountPacket(c, cap, kind, len);
            d.packets[KindIndex(other)] == c.packets[KindIndex(other)] && d.bytes[KindIndex(other)] == c.bytes[KindIndex(other)]
  {
  }

  predicate CountersExact(log: seq<Event>, c: Counters) {
    forall k :: 0 <= k < 4 ==>
      && c.packets[k] == PacketsOf(log, c.gen, k) % (MAX_U64 + 1)
      && c.bytes[k] == BytesOf(log, c.gen, k) % (MAX_U64 + 1)
  }

  predicate Bounded(log: seq<Event>, gen: nat) {
    forall i :: 0 <= i < |log| ==> log[i].cap <= gen
  }

  lemma {:induction false} NoneYet(log: seq<Event>, gen: nat, k: nat)
    requires gen > 0 && Bounded(log, gen - 1)
    ensures PacketsOf(log, gen, k) == 0 && BytesOf(log, gen, k) == 0
  {
    if log != [] {
      NoneYet(log[..|log| - 1], gen, k);
    }
  }

  /** A reset to the next generation starts exact: nothing can have captured it. */
  lemma {:induction false} ResetExact(log: seq<Event>, gen: nat)
    requires Bounded(log, gen)
    ensures CountersExact(log, Counters(gen + 1, ZERO, ZERO))
  {
    var next := gen + 1;
    forall k: nat ensures PacketsOf(log, next, k) == 0 && BytesOf(log, next, k) == 0 {
      NoneYet(log, next, k);
    }
  }

  lemma WrapAdd(a: nat, b: nat)
    ensures (a % (MAX_U64 + 1) + b) % (MAX_U64 + 1) == (a + b) % (MAX_U64 + 1)
  {
  }

  lemma {:induction false} CountExact(log: seq<Event>, c: Counters, e: Event)
    requires CountersExact(log, c)
    ensures CountersExact(log + [e], CountPacket(c, e.cap, e.kind, e.len))
  {
    var d := CountPacket(c, e.cap, e.kind, e.len);
    assert (log + [e])[..|log|] == log;
    forall k | 0 <= k < 4
      ensures d.packets[k] == PacketsOf(log + [e], d.gen, k) % (MAX_U64 + 1)
      ensures d.bytes[k] == BytesOf(log + [e], d.gen, k) % (MAX_U64 + 1)
    {
      WrapAdd(PacketsOf(log, c.gen, k), 1);
      WrapAdd(BytesOf(log, c.gen, k), e.len);
    }
  }

  // --------------------------------------------------------------- invariant of runs

  predicate ReadersShare(s: Sys) {
    s.readers != map[] ==> s.ctl.Idle? && s.port.slot.innerIP != RESERVED
  }

  ghost predicate ObserversInv(sw: SwitchConfig, s: Sys) {
    && (forall p :: p in s.packets ==> PacketInv(sw, s.port, s.packets[p]))
    && (forall r :: r in s.readers ==> ReaderInv(s.port, Current(s.ops), s.readers[r]))
  }

  ghost predicate Inv(sw: SwitchConfig, s: Sys) {
    && CoreInv(sw, s) && ObserversInv(sw, s) && ReadersShare(s)
    && Bounded(s.log, s.port.ctr.gen) && CountersExact(s.log, s.port.ctr)
  }

  lemma {:induction false} CurrentPut(ops: map<nat, Op>, pid: nat, o: Option<Op>)
    requires AtMostOne(ops) && (pid in ops || ops == map[])
    ensures AtMostOne(Put(ops, pid, o)) && Current(Put(ops, pid, o)) == o
  {
    var r := Put(ops, pid, o);
    assert forall p :: p in r ==> p == pid;
    if o.Some? {
      CurrentIs(r, pid);
    } else {
      assert r == map[];
    }
  }

  lemma {:induction false} ObserversStable(sw: SwitchConfig, s: Sys, t: Sys)
    requires ObserversInv(sw, s) && t.packets == s.packets && t.readers == s.readers
    requires Evolves(s.port, Current(s.ops), t.port, Current(t.ops))
    ensures ObserversInv(sw, t)
  {
    forall p | p in t.packets ensures PacketInv(sw, t.port, t.packets[p]) {
      PacketStable(sw, s.port, Current(s.ops), t.port, Current(t.ops), s.packets[p]);
    }
    forall r | r in t.readers ensures ReaderInv(t.port, Current(t.ops), t.readers[r]) {
      ReaderStable(s.port, Current(s.ops), t.port, Current(t.ops), s.readers[r]);
    }
  }

  /** An attachment step resets counters or leaves them alone. */
  lemma {:induction false} OpCounters(sw: SwitchConfig, m: Port, ctl: Ctl, op: Op, ok: bool)
    requires SoloInv(sw, m, ctl, Some(op))
    ensures var n := OpNext(m, op, ok).port; n.ctr == m.ctr || n.ctr == Counters(m.ctr.gen + 1, ZERO, ZERO)
  {
    match op
    case Attach(_, _, _, pc) =>
    case PortUp(_, _, _) =>
    case Commit(_, _, _) =>
    case Detach(_, _) =>
  }

  lemma {:induction false} OpReserved(m: Port, op: Op, ok: bool)
    requires m.slot.innerIP != RESERVED && (op.Attach? ==> op.c.ip != RESERVED) && (op.Commit? ==> op.c.ip != RESERVED)
    ensures OpNext(m, op, ok).port.slot.innerIP != RESERVED
  {
    match op
    case Attach(_, _, _, pc) =>
    case PortUp(_, _, _) =>
    case Commit(_, _, _) =>
    case Detach(_, _) =>
  }

  lemma {:induction false} OpStepCore(sw: SwitchConfig, s: Sys, pid: nat, ok: bool)
    requires CoreInv(sw, s) && pid in s.ops
    ensures var t := OpStepNext(s, pid, ok); CoreInv(sw, t) && Evolves(s.port, Current(s.ops), t.port, Current(t.ops))
  {
    var op := s.ops[pid];
    CurrentIs(s.ops, pid);
    CurrentPut(s.ops, pid, OpNext(s.port, op, ok).op);
    OpSolo(sw, s.port, s.ctl, op, ok);
    OpEvolves(sw, s.port, s.ctl, op, ok);
  }

  lemma {:induction false} OpStepCounters(sw: SwitchConfig, s: Sys, pid: nat, ok: bool)
    requires CoreInv(sw, s) && pid in s.ops && Bounded(s.log, s.port.ctr.gen) && CountersExact(s.log, s.port.ctr)
    ensures var n := OpNext(s.port, s.ops[pid], ok).port; Bounded(s.log, n.ctr.gen) && CountersExact(s.log, n.ctr)
  {
    CurrentIs(s.ops, pid);
    OpCounters(sw, s.port, s.ctl, s.ops[pid], ok);
    ResetExact(s.log, s.port.ctr.gen);
  }

  lemma {:induction false} OpStepShares(sw: SwitchConfig, s: Sys, pid: nat, ok: bool)
    requires CoreInv(sw, s) && pid in s.ops && ReadersShare(s)
    ensures ReadersShare(OpStepNext(s, pid, ok))
  {
    CurrentIs(s.ops, pid);
    if s.port.slot.innerIP != RESERVED {
      OpReserved(s.port, s.ops[pid], ok);
    }
  }

  lemma {:induction false} OpStepInv(sw: SwitchConfig, s: Sys, pid: nat, ok: bool)
    requires Inv(sw, s) && pid in s.ops
    ensures Inv(sw, OpStepNext(s, pid, ok))
  {
    OpStepCore(sw, s, pid, ok);
    OpStepCounters(sw, s, pid, ok);
    OpStepShares(sw, s, pid, ok);
    ObserversStable(sw, s, OpStepNext(s, pid, ok));
  }

  lemma {:induction false} StartInv(sw: SwitchConfig, s: Sys, a: Action)
    requires Inv(sw, s) && Enabled(sw, s, a) && (a.StartPortUp? || a.StartDetach?)
    ensures Inv(sw, Next(sw, s, a))
  {
    var t := Next(sw, s, a);
    if IsAllocated(s.port.slot.innerIP) {
      var op := t.ops[a.pid];
      if a.StartPortUp? && Validate(sw, a.r).Some? {
        ValidatedWellFormed(sw, a.r);
      }
      StartSolo(sw, s.port, s.ctl, op);
      CurrentPut(s.ops, a.pid, Some(op));
      ObserversStable(sw, s, t);
    }
  }

  lemma {:induction false} ClaimInv(sw: SwitchConfig, s: Sys, a: Action)
    requires Inv(sw, s) && Enabled(sw, s, a) && a.Claim?
    ensures Inv(sw, Next(sw, s, a))
  {
    var t := Next(sw, s, a);
    if s.port.slot.innerIP == FREE {
      ValidatedWellFormed(sw, a.r);
      var c := Validate(sw, a.r).value;
      assert s.ops == map[];
      ClaimSolo(sw, s.port, s.ctl, Current(s.ops), c, a.generation, a.adminDown);
      CurrentPut(s.ops, a.pid, Some(Attach(c, a.generation, a.adminDown, AClaimed)));
      ObserversStable(sw, s, t);
    }
  }

  predicate IsControl(a: Action) {
    a.StartControl? || a.StartReopen? || a.ControlStep? || a.SetIfindex? || a.SetMode?
  }

  lemma {:induction false} ControlStepCore(sw: SwitchConfig, s: Sys)
    requires CoreInv(sw, s) && Enabled(sw, s, ControlStep)
    ensures var t := Next(sw, s, ControlStep); CoreInv(sw, t) && Evolves(s.port, Current(s.ops), t.port, Current(t.ops))
  {
    ControlSolo(sw, s.port, s.ctl, Current(s.ops));
    ControlEvolves(sw, s.port, s.ctl, Current(s.ops));
  }

  lemma {:induction false} LockCore(sw: SwitchConfig, s: Sys, a: Action)
    requires CoreInv(sw, s) && Enabled(sw, s, a) && (a.StartControl? || a.StartReopen?)
    ensures CoreInv(sw, Next(sw, s, a)) && Next(sw, s, a).port == s.port && Next(sw, s, a).ops == s.ops
  {
  }

  lemma {:induction false} DeviceCore(sw: SwitchConfig, s: Sys, a: Action)
    requires CoreInv(sw, s) && Enabled(sw, s, a) && (a.SetIfindex? || a.SetMode?)
    ensures var t := Next(sw, s, a); CoreInv(sw, t) && Evolves(s.port, Current(s.ops), t.port, Current(t.ops))
  {
    var slot, o := s.port.slot, Current(s.ops);
    if a.SetIfindex? {
      DeviceSolo(sw, s.port, s.ctl, o, a.v, slot.tap);
    } else {
      DeviceSolo(sw, s.port, s.ctl, o, slot.ifindex, a.tap);
    }
  }

  lemma {:induction false} StandsStill(m: Port, o: Option<Op>)
    ensures Evolves(m, o, m, o)
  {
  }

  lemma {:induction false} ControlCore(sw: SwitchConfig, s: Sys, a: Action)
    requires CoreInv(sw, s) && Enabled(sw, s, a) && IsControl(a)
    ensures CoreInv(sw, Next(sw, s, a))
    ensures Evolves(s.port, Current(s.ops), Next(sw, s, a).port, Current(Next(sw, s, a).ops))
  {
    if a.ControlStep? {
      ControlStepCore(sw, s);
    } else if a.SetIfindex? || a.SetMode? {
      DeviceCore(sw, s, a);
    } else {
      LockCore(sw, s, a);
      StandsStill(s.port, Current(s.ops));
    }
  }

  /** A control step leaves counters and observers alone, and starts only without readers. */
  lemma {:induction false} ControlRest(sw: SwitchConfig, s: Sys, a: Action)
    requires Enabled(sw, s, a) && IsControl(a) && ReadersShare(s)
    ensures var t := Next(sw, s, a);
            t.log == s.log && t.port.ctr == s.port.ctr && t.packets == s.packets && t.readers == s.readers && ReadersShare(t)
  {
  }

  lemma {:induction false} ControlInv(sw: SwitchConfig, s: Sys, a: Action)
    requires Inv(sw, s) && Enabled(sw, s, a) && IsControl(a)
    ensures Inv(sw, Next(sw, s, a))
  {
    ControlCore(sw, s, a);
    ControlRest(sw, s, a);
    ObserversStable(sw, s, Next(sw, s, a));
  }

  lemma {:induction false} PacketStepInv(sw: SwitchConfig, s: Sys, pid: nat, ok: bool)
    requires Inv(sw, s) && pid in s.packets
    ensures Inv(sw, PacketStepNext(sw, s, pid, ok))
  {
    var p, t, o := s.packets[pid], PacketStepNext(sw, s, pid, ok), Current(s.ops);
    if p.pc.PForward? {
      CountSolo(sw, s.port, s.ctl, o, t.port.ctr);
      CountExact(s.log, s.port.ctr, Event(p.cap, p.kind, p.len));
    } else if pid in t.packets {
      PacketStep(sw, s.port, s.ctl, o, p, ok);
    }
    var u := s.(port := t.port);
    ObserversStable(sw, s, u);
    forall q | q in t.packets ensures PacketInv(sw, t.port, t.packets[q]) {
      assert q != pid ==> t.packets[q] == u.packets[q];
    }
  }

  lemma {:induction false} ReaderStepInv(sw: SwitchConfig, s: Sys, a: Action)
    requires Inv(sw, s) && Enabled(sw, s, a) && (a.StartStats? || a.StatsStep?)
    ensures Inv(sw, Next(sw, s, a))
  {
    var t := Next(sw, s, a);
    if a.StatsStep? && a.pid in t.readers {
      ReaderStep(sw, s.port, s.ctl, Current(s.ops), s.readers[a.pid]);
    }
    forall q | q in t.readers ensures ReaderInv(t.port, Current(t.ops), t.readers[q]) {
      assert q != a.pid ==> q in s.readers && t.readers[q] == s.readers[q];
    }
  }

  lemma {:induction false} StepInv(sw: SwitchConfig, s: Sys, a: Action)
    requires Inv(sw, s) && Enabled(sw, s, a)
    ensures Inv(sw, Next(sw, s, a))
  {
    match a
    case Claim(_, _, _, _) => ClaimInv(sw, s, a);
    case StartPortUp(_, _) | StartDetach(_) => StartInv(sw, s, a);
    case OpStep(pid, ok) => OpStepInv(sw, s, pid, ok);
    case StartControl(_) | StartReopen | ControlStep | SetIfindex(_) | SetMode(_) => ControlInv(sw, s, a);
    case Arrive(_, _, _, _) =>
      forall q | q in Next(sw, s, a).packets ensures PacketInv(sw, s.port, Next(sw, s, a).packets[q]) {
        assert q != a.pid ==> q in s.packets;
      }
    case PacketStep(pid, ok) => PacketStepInv(sw, s, pid, ok);
    case StartStats(_) | StatsStep(_) => ReaderStepInv(sw, s, a);
  }

  lemma {:induction false} StartEvolves(sw: SwitchConfig, s: Sys, a: Action)
    requires CoreInv(sw, s) && Enabled(sw, s, a) && (a.StartPortUp? || a.StartDetach?)
    ensures Evolves(s.port, Current(s.ops), Next(sw, s, a).port, Current(Next(sw, s, a).ops))
  {
    var t := Next(sw, s, a);
    if t != s {
      CurrentPut(s.ops, a.pid, Some(t.ops[a.pid]));
    } else {
      StandsStill(s.port, Current(s.ops));
    }
  }

  lemma {:induction false} ClaimEvolves(sw: SwitchConfig, s: Sys, a: Action)
    requires CoreInv(sw, s) && Enabled(sw, s, a) && a.Claim?
    ensures Evolves(s.port, Current(s.ops), Next(sw, s, a).port, Current(Next(sw, s, a).ops))
  {
    if s.port.slot.innerIP == FREE {
      assert s.ops == map[];
      CurrentPut(s.ops, a.pid, Some(Attach(Validate(sw, a.r).value, a.generation, a.adminDown, AClaimed)));
    } else {
      StandsStill(s.port, Current(s.ops));
    }
  }

  lemma {:induction false} ObserverEvolves(sw: SwitchConfig, s: Sys, a: Action)
    requires Enabled(sw, s, a) && (a.Arrive? || a.PacketStep? || a.StartStats? || a.StatsStep?)
    ensures Evolves(s.port, Current(s.ops), Next(sw, s, a).port, Current(Next(sw, s, a).ops))
  {
  }

  /** Every step of every process keeps the guarantee the others rely on. */
  lemma {:induction false} StepEvolves(sw: SwitchConfig, s: Sys, a: Action)
    requires CoreInv(sw, s) && Enabled(sw, s, a)
    ensures Evolves(s.port, Current(s.ops), Next(sw, s, a).port, Current(Next(sw, s, a).ops))
  {
    if a.OpStep? {
      OpStepCore(sw, s, a.pid, a.ok);
    } else if a.Claim? {
      ClaimEvolves(sw, s, a);
    } else if a.StartPortUp? || a.StartDetach? {
      StartEvolves(sw, s, a);
    } else if IsControl(a) {
      ControlCore(sw, s, a);
    } else {
      ObserverEvolves(sw, s, a);
    }
  }

  /** The invariant holds in every state of every run. */
  lemma {:induction false} RunInv(sw: SwitchConfig, states: seq<Sys>, acts: seq<Action>, i: nat)
    requires IsRun(sw, states, acts) && i < |states|
    ensures Inv(sw, states[i])
  {
    if i > 0 {
      RunInv(sw, states, acts, i - 1);
      assert StepAt(sw, states, acts, i - 1);
      StepInv(sw, states[i - 1], acts[i - 1]);
    }
  }
}
