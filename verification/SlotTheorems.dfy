/** What the slot protocol guarantees, for every run of the slot machine. */
module SlotTheorems {
  import opened Wire
  import opened Geneve
  import opened SlotMachine
  import opened SlotInvariant
  import opened SlotObservers
  import opened SlotTraces
  import opened SlotReplies

  // ------------------------------------------------------------------ publication

  lemma {:induction false} RunPacket(sw: SwitchConfig, states: seq<Sys>, acts: seq<Action>, i: nat, pid: nat)
    requires IsRun(sw, states, acts) && i < |states| && pid in states[i].packets
    ensures PacketInv(sw, states[i].port, states[i].packets[pid])
  {
    RunInv(sw, states, acts, i);
  }

  ghost predicate EvolvesAt(states: seq<Sys>, k: nat)
    requires k + 1 < |states|
  {
    Evolves(states[k].port, Current(states[k].ops), states[k + 1].port, Current(states[k + 1].ops))
  }

  ghost predicate Chain(states: seq<Sys>) {
    forall k :: 0 <= k < |states| - 1 ==> EvolvesAt(states, k)
  }

  lemma {:induction false} RunIsChain(sw: SwitchConfig, states: seq<Sys>, acts: seq<Action>)
    requires IsRun(sw, states, acts)
    ensures Chain(states)
  {
    forall k | 0 <= k < |states| - 1 ensures EvolvesAt(states, k) {
      RunInv(sw, states, acts, k);
      assert StepAt(sw, states, acts, k);
      StepEvolves(sw, states[k], acts[k]);
    }
  }

  /** A live port keeps its published configuration until the epoch moves. */
  lemma {:induction false} LiveStays(states: seq<Sys>, i: nat, j: nat)
    requires Chain(states) && i <= j < |states| && Live(states[i].port)
    ensures states[i].port.epoch <= states[j].port.epoch
    ensures states[i].port.epoch == states[j].port.epoch ==>
              Live(states[j].port) && SameConfig(states[i].port, states[j].port)
  {
    if i < j {
      LiveStays(states, i, j - 1);
      assert EvolvesAt(states, j - 1);
    }
  }

  /** What a packet program past a live gate has loaded, as long as the epoch of the gate
      lasts: the configuration in force at the gate. */
  predicate SeenAtGate(m: Port, p: Packet) {
    && p.pub == m.pub && p.pubGen == m.pubGen && m.epoch <= p.lastEpoch
    && (p.lastEpoch == m.epoch ==> ObsMatch(p))
  }

  lemma {:induction false} NextSeen(sw: SwitchConfig, m: Port, n: Port, p: Packet, ok: bool)
    requires SeenAtGate(m, p) && p.pc.PRead? && PacketNext(sw, n, p, ok).Some?
    requires p.lastEpoch <= n.epoch && PublishedInv(sw, n)
    requires n.epoch == m.epoch ==> Live(n) && SameConfig(m, n)
    ensures SeenAtGate(m, PacketNext(sw, n, p, ok).value)
  {
    if n.epoch == m.epoch {
      ReadsPublished(sw, n, PlanLoc(p.kind, |p.obs|));
    }
  }

  lemma {:induction false} SeenAtFirst(sw: SwitchConfig, states: seq<Sys>, acts: seq<Action>, gate: nat, pid: nat)
    requires IsRun(sw, states, acts) && gate < |acts| && PassesGate(states[gate], acts[gate], pid)
    ensures pid in states[gate + 1].packets && SeenAtGate(states[gate].port, states[gate + 1].packets[pid])
  {
    assert StepAt(sw, states, acts, gate);
  }

  lemma {:induction false} SeenNext(sw: SwitchConfig, states: seq<Sys>, acts: seq<Action>, gate: nat, i: nat, pid: nat)
    requires IsRun(sw, states, acts) && Chain(states) && gate <= i < |acts| && Live(states[gate].port)
    requires pid in states[i].packets && states[i].packets[pid].pc.PRead? && SeenAtGate(states[gate].port, states[i].packets[pid])
    requires acts[i].PacketStep? && PacketNext(sw, states[i].port, states[i].packets[pid], acts[i].ok).Some?
    ensures SeenAtGate(states[gate].port, PacketNext(sw, states[i].port, states[i].packets[pid], acts[i].ok).value)
  {
    LiveStays(states, gate, i);
    RunInv(sw, states, acts, i);
    RunPacket(sw, states, acts, i, pid);
    NextSeen(sw, states[gate].port, states[i].port, states[i].packets[pid], acts[i].ok);
  }

  lemma {:induction false} SeenSinceGate(sw: SwitchConfig, states: seq<Sys>, acts: seq<Action>, gate: nat, i: nat, pid: nat)
    requires IsRun(sw, states, acts) && Chain(states) && gate < i < |states|
    requires PassesGate(states[gate], acts[gate], pid) && StaysPastGate(states, pid, gate + 1, i) && Live(states[gate].port)
    ensures SeenAtGate(states[gate].port, states[i].packets[pid])
  {
    if i == gate + 1 {
      SeenAtFirst(sw, states, acts, gate, pid);
    } else {
      SeenSinceGate(sw, states, acts, gate, i - 1, pid);
      assert StepAt(sw, states, acts, i - 1);
      PacketFrom(sw, states[i - 1], acts[i - 1], pid);
      if states[i].packets[pid] != states[i - 1].packets[pid] {
        SeenNext(sw, states, acts, gate, i - 1, pid);
      }
    }
  }

  /** At a gate the slot is attached, or a takeover has made it Reserved. */
  lemma {:induction false} GateIsLive(sw: SwitchConfig, states: seq<Sys>, acts: seq<Action>, i: nat)
    requires IsRun(sw, states, acts) && i < |states| && states[i].port.slot.flags == 1
    ensures Live(states[i].port) <==> states[i].port.slot.innerIP != RESERVED
    ensures Live(states[i].port) ==> WellFormed(sw, states[i].port.pub) && GenerationFits(sw, states[i].port.pubGen)
  {
    RunInv(sw, states, acts, i);
  }

  /** What a packet program uses of a configuration: an encapsulated frame the generation,
      gateway, VNI, option length, MAC and the options value as far as it goes; a management
      request the same without options and the generation once more for its source address;
      a reply the inner address; a returned packet VNI and gateway. */
  function Uses(kind: Kind, c: Config, generation: nat): seq<int> {
    var gateway, vni, mac, len := c.transit[0], c.transit[1], c.transit[2..], c.opts[0];
    match kind
    case Mx => [c.ip]
    case Return => [vni, gateway]
    case NxMgmt => [generation, gateway, vni, len] + mac + [generation]
    case NxTransit =>
      [generation, gateway, vni, len] + mac + if 0 < len <= MAX_OPTS_LEN then [len, c.opts[1]] + c.opts[2..2 + len] else []
  }

  lemma {:induction false} TransitLoads(sw: SwitchConfig, p: Packet)
    requires p.kind.NxTransit? && ObsMatch(p) && |p.obs| == PlanLen(p.kind, p.obs) && WellFormed(sw, p.pub)
    ensures p.obs == Uses(p.kind, p.pub, p.pubGen)
  {
    var used := Uses(p.kind, p.pub, p.pubGen);
    assert |p.obs| >= 10 && p.obs[3] == p.pub.opts[0];
    forall j | 0 <= j < |p.obs| ensures p.obs[j] == used[j] {
      assert p.obs[j] == ConfigLoc(p.pub, p.pubGen, PlanLoc(p.kind, j));
    }
  }

  lemma {:induction false} LoadsAre(sw: SwitchConfig, p: Packet)
    requires ObsMatch(p) && |p.obs| == PlanLen(p.kind, p.obs) && WellFormed(sw, p.pub)
    ensures p.obs == Uses(p.kind, p.pub, p.pubGen)
  {
    if p.kind.NxTransit? {
      TransitLoads(sw, p);
    } else {
      var used := Uses(p.kind, p.pub, p.pubGen);
      forall j | 0 <= j < |p.obs| ensures p.obs[j] == used[j] {
        assert p.obs[j] == ConfigLoc(p.pub, p.pubGen, PlanLoc(p.kind, j));
      }
    }
  }

  /** A call publishes the configuration its own request asked for. */
  lemma {:induction false} PublishedAsAsked(sw: SwitchConfig, states: seq<Sys>, acts: seq<Action>, i: nat, c: Config, g: nat)
    returns (asked: nat)
    requires IsRun(sw, states, acts) && i < |acts| && Publishes(states[i], acts[i], c, g)
    ensures asked < i && Starts(sw, acts[asked], acts[i].pid, c) && AskedFor(acts[asked].r, c)
  {
    asked := RequestOf(sw, states, acts, i, acts[i].pid);
    ValidateExact(sw, acts[asked].r);
  }

  /** A forwarded packet passed its gate in one step, when the port had been up ever since
      one Attach or SetPortUp call published its configuration, which is the one that call had
      been asked for, and the generation was the one its attachment had asked for. If the slot
      was not taken over at the gate, and nothing was revoked, released or taken over between
      the gate and the last load, then every load after the gate saw that configuration: never
      a provisional or a mixed one, and one the data plane accepts. */
  lemma {:induction false} ForwardedPacketSawOneConfig(sw: SwitchConfig, states: seq<Sys>, acts: seq<Action>, i: nat, pid: nat)
    returns (asked: nat, published: nat, gate: nat, last: nat)
    requires IsRun(sw, states, acts) && i < |states|
    requires pid in states[i].packets && states[i].packets[pid].pc.PForward?
    ensures asked < published < gate < last < i
    ensures Publishes(states[published], acts[published], states[i].packets[pid].pub, states[i].packets[pid].pubGen)
    ensures Starts(sw, acts[asked], acts[published].pid, states[i].packets[pid].pub)
    ensures AskedFor(acts[asked].r, states[i].packets[pid].pub)
    ensures UpFrom(states, published + 1, gate)
    ensures PassesGate(states[gate], acts[gate], pid) && StaysPastGate(states, pid, gate + 1, i)
    ensures HadClaim(states, acts, gate, states[gate].port.att, states[i].packets[pid].pubGen)
    ensures LoadsPublished(states[last], acts[last], pid) && StaysAs(states, pid, states[i].packets[pid], last + 1, i)
    ensures states[gate].port.slot.innerIP != RESERVED && Undisturbed(states, acts, gate, last) ==>
              var p := states[i].packets[pid];
              WellFormed(sw, p.pub) && p.obs == Uses(p.kind, p.pub, p.pubGen)
  {
    gate := GateOf(sw, states, acts, i, pid);
    published := UpSincePublication(sw, states, acts, gate);
    asked := PublishedAsAsked(sw, states, acts, published, states[gate].port.pub, states[gate].port.pubGen);
    last := LastLoadOf(sw, states, acts, i, pid);
    GateGeneration(sw, states, acts, gate);
    if states[gate].port.slot.innerIP != RESERVED && Undisturbed(states, acts, gate, last) {
      LoadsSinceGate(sw, states, acts, gate, last, i, pid);
    }
  }

  lemma {:induction false} LoadsSinceGate(sw: SwitchConfig, states: seq<Sys>, acts: seq<Action>, gate: nat, last: nat, i: nat, pid: nat)
    requires IsRun(sw, states, acts) && gate < last < i < |states|
    requires PassesGate(states[gate], acts[gate], pid) && StaysPastGate(states, pid, gate + 1, i)
    requires states[i].packets[pid].pc.PForward? && states[i].packets[pid].lastEpoch == states[last].port.epoch
    requires states[gate].port.slot.innerIP != RESERVED && Undisturbed(states, acts, gate, last)
    ensures var p := states[i].packets[pid]; WellFormed(sw, p.pub) && p.obs == Uses(p.kind, p.pub, p.pubGen)
  {
    GateIsLive(sw, states, acts, gate);
    RunIsChain(sw, states, acts);
    SeenSinceGate(sw, states, acts, gate, i, pid);
    EpochCounts(sw, states, acts, gate, last);
    PlanComplete(sw, states, acts, i, pid);
    LoadsAre(sw, states[i].packets[pid]);
  }

  /** Whatever happens to the slot meanwhile, an encapsulated frame is forwarded only with a
      generation in range, options that are aligned and leave room for the locator, a map
      value of the announced length and a critical flag of one bit. */
  lemma {:induction false} ForwardedLoadsInRange(sw: SwitchConfig, states: seq<Sys>, acts: seq<Action>, i: nat, pid: nat)
    requires IsRun(sw, states, acts) && i < |states|
    requires pid in states[i].packets && states[i].packets[pid].pc.PForward? && states[i].packets[pid].kind.NxTransit?
    ensures var obs := states[i].packets[pid].obs;
            && |obs| >= 10 && obs[0] < Pow2(sw.generationBits) && obs[3] + LocatorLen(sw.locator) <= MAX_OPTS_LEN
            && (obs[3] > 0 ==> obs[3] % 4 == 0 && |obs| == 12 + obs[3] && obs[10] == obs[3] && obs[11] <= 1)
  {
    PlanComplete(sw, states, acts, i, pid);
  }

  /** Nor do the encapsulator's own rejections fire, under the same condition. */
  lemma {:induction false} DefensiveChecksNeverFire(sw: SwitchConfig, states: seq<Sys>, acts: seq<Action>, i: nat, pid: nat)
    returns (gate: nat)
    requires IsRun(sw, states, acts) && i < |states|
    requires pid in states[i].packets && states[i].packets[pid].pc.PRead?
    ensures gate < i && PassesGate(states[gate], acts[gate], pid) && StaysPastGate(states, pid, gate + 1, i)
    ensures states[gate].port.slot.innerIP != RESERVED && Undisturbed(states, acts, gate, i) ==>
              !Defensive(sw, states[i].packets[pid].kind, Observe(states[i].port, states[i].packets[pid]))
  {
    gate := GateOf(sw, states, acts, i, pid);
    GateIsLive(sw, states, acts, gate);
    if states[gate].port.slot.innerIP != RESERVED && Undisturbed(states, acts, gate, i) {
      EpochCounts(sw, states, acts, gate, i);
      RunIsChain(sw, states, acts);
      LiveStays(states, gate, i);
      SeenSinceGate(sw, states, acts, gate, i, pid);
      RunInv(sw, states, acts, i);
      RunPacket(sw, states, acts, i, pid);
      NextMatches(sw, states[i].port, states[i].packets[pid]);
      NoDefect(sw, states[i].packets[pid].(obs := Observe(states[i].port, states[i].packets[pid])));
    }
  }

  lemma {:induction false} NextMatches(sw: SwitchConfig, m: Port, p: Packet)
    requires PublishedInv(sw, m) && Live(m) && ObsMatch(p) && p.pub == m.pub && p.pubGen == m.pubGen
    ensures ObsMatch(p.(obs := Observe(m, p)))
  {
    ReadsPublished(sw, m, PlanLoc(p.kind, |p.obs|));
  }

  lemma {:induction false} NoDefect(sw: SwitchConfig, p: Packet)
    requires ObsMatch(p) && WellFormed(sw, p.pub) && GenerationFits(sw, p.pubGen)
    ensures !Defensive(sw, p.kind, p.obs)
  {
    if p.kind.NxTransit? {
      assert |p.obs| > 3 ==> p.obs[3] == p.pub.opts[0];
      assert |p.obs| > 10 ==> p.obs[10] == ConfigLoc(p.pub, p.pubGen, LOpt(0));
      assert |p.obs| > 11 ==> p.obs[11] == ConfigLoc(p.pub, p.pubGen, LOpt(1));
    }
  }

  /** An Allocated, up slot is well formed in every reachable state. */
  lemma {:induction false} UpSlotWellFormed(sw: SwitchConfig, states: seq<Sys>, acts: seq<Action>, i: nat)
    requires IsRun(sw, states, acts) && i < |states| && Live(states[i].port)
    ensures var m := states[i].port;
            && m.slot.hint == m.opt[0] && m.slot.hint % 4 == 0
            && 0 <= m.slot.hint && m.slot.hint + LocatorLen(sw.locator) <= MAX_OPTS_LEN
            && (m.opt[1] == 0 || m.opt[1] == 1)
            && 0 <= m.slot.transit[1] <= MaxVni(sw.locator)
            && m.slot.generation < Pow2(sw.generationBits)
  {
    RunInv(sw, states, acts, i);
  }

  // --------------------------------------------------------------------- ownership

  /** A Free slot is down and unowned; no slot ever has two owners. */
  lemma {:induction false} FreeIsDown(sw: SwitchConfig, states: seq<Sys>, acts: seq<Action>, i: nat)
    requires IsRun(sw, states, acts) && i < |states|
    ensures states[i].port.slot.innerIP == FREE ==> states[i].port.slot.flags == 0 && states[i].ops == map[]
    ensures forall p, q :: p in states[i].ops && q in states[i].ops ==> p == q
  {
    RunInv(sw, states, acts, i);
  }

  /** Two winning claims on a slot are separated by the end of the first attachment: a
      release, which left the slot Free, or a takeover, which left it Reserved. */
  lemma {:induction false} ClaimsAreSeparated(sw: SwitchConfig, states: seq<Sys>, acts: seq<Action>, i: nat, j: nat)
    returns (k: nat)
    requires IsRun(sw, states, acts) && i < j < |acts| && WinsClaim(states[i], acts[i]) && WinsClaim(states[j], acts[j])
    ensures i < k < j && IsAllocated(states[k].port.slot.innerIP)
    ensures || (Releases(states[k], acts[k]) && states[k + 1].port.slot.innerIP == FREE)
            || (TakesOver(states[k], acts[k]) && states[k + 1].port.slot.innerIP == RESERVED)
  {
    RunEnds(sw, states, acts, i);
    StaysAttached(sw, states, acts, i + 1, j);
    k :| i + 1 <= k < j && Ends(states[k], acts[k]);
    RunEnds(sw, states, acts, k);
  }

  // ------------------------------------------------------------- operations that fail

  /** An Attach that fails after its claim leaves the slot Free, down and with a zero
      option hint, unless a takeover intervened, which stays Reserved. */
  lemma {:induction false} FailedAttachLeaves(sw: SwitchConfig, states: seq<Sys>, acts: seq<Action>, i: nat)
    requires IsRun(sw, states, acts) && i < |acts| && acts[i].OpStep? && acts[i].pid in states[i].ops
    requires states[i].ops[acts[i].pid].Attach? && acts[i].pid !in states[i + 1].ops
    requires !states[i].ops[acts[i].pid].apc.AUp?
    ensures var slot := states[i + 1].port.slot;
            slot.innerIP == RESERVED || (slot.innerIP == FREE && slot.flags == 0 && slot.hint == 0)
  {
    assert StepAt(sw, states, acts, i);
    RunInv(sw, states, acts, i);
    CurrentIs(states[i].ops, acts[i].pid);
  }

  predicate IsPortUp(op: Op) {
    op.PortUp? || op.Commit?
  }

  /** A SetPortUp that fails leaves the port down, or, if it found it already up,
      exactly as it was. */
  lemma {:induction false} FailedPortUpLeavesDown(sw: SwitchConfig, states: seq<Sys>, acts: seq<Action>, i: nat)
    requires IsRun(sw, states, acts) && i < |acts| && acts[i].OpStep? && acts[i].pid in states[i].ops
    requires IsPortUp(states[i].ops[acts[i].pid]) && acts[i].pid !in states[i + 1].ops
    requires states[i].ops[acts[i].pid].Commit? ==> !states[i].ops[acts[i].pid].cpc.CUp?
    ensures var op := states[i].ops[acts[i].pid];
            if op.PortUp? && !op.checked then states[i + 1].port == states[i].port && states[i].port.slot.flags == 1
            else states[i + 1].port.slot.flags == 0
  {
    assert StepAt(sw, states, acts, i);
    RunInv(sw, states, acts, i);
    CurrentIs(states[i].ops, acts[i].pid);
  }

  /** Until it revokes, no step of a Detach changes anything. When it returns, it has
      failed and changed nothing, or the slot is Free, down and with a zero option hint, or
      a takeover intervened, which stays Reserved. */
  lemma {:induction false} DetachLeaves(sw: SwitchConfig, states: seq<Sys>, acts: seq<Action>, i: nat)
    requires IsRun(sw, states, acts) && i < |acts| && acts[i].OpStep? && acts[i].pid in states[i].ops
    requires states[i].ops[acts[i].pid].Detach?
    ensures var pc := states[i].ops[acts[i].pid].dpc;
            pc.DDevice? || pc.DRecheck? ==> states[i + 1].port == states[i].port
    ensures var pc, slot := states[i].ops[acts[i].pid].dpc, states[i + 1].port.slot;
            acts[i].pid !in states[i + 1].ops ==>
              || (pc.DDevice? && states[i + 1].port == states[i].port)
              || slot.innerIP == RESERVED
              || (slot.innerIP == FREE && slot.flags == 0 && slot.hint == 0)
  {
    assert StepAt(sw, states, acts, i);
    RunInv(sw, states, acts, i);
    CurrentIs(states[i].ops, acts[i].pid);
  }

  // -------------------------------------------------------------------- Stats reads

  /** Some earlier state of the run had this address, or this generation, and this stamp. */
  ghost predicate HadIP(states: seq<Sys>, i: nat, ip: nat, st: Stamp)
    requires i <= |states|
  {
    exists k :: 0 <= k < i && states[k].port.slot.innerIP == ip && Now(states[k].port) == st
  }

  ghost predicate HadGeneration(states: seq<Sys>, i: nat, gen: nat, st: Stamp)
    requires i <= |states|
  {
    exists k :: 0 <= k < i && states[k].port.slot.generation == gen && Now(states[k].port) == st
  }

  ghost predicate HadCounters(states: seq<Sys>, i: nat, c: Counters, st: Stamp)
    requires i <= |states|
  {
    exists k :: 0 <= k < i && states[k].port.ctr == c && Now(states[k].port) == st
  }

  predicate SameLoads(r: Reader, q: Reader) {
    && (Rank(r.pc) >= 3 ==> Rank(q.pc) >= 3 && q.first == r.first)
    && (Rank(r.pc) >= 4 ==> Rank(q.pc) >= 4 && q.ip == r.ip && q.atIP == r.atIP)
    && (Rank(r.pc) >= 5 ==> Rank(q.pc) >= 5 && q.gen == r.gen && q.atGen == r.atGen)
    && (Rank(r.pc) >= 6 ==> Rank(q.pc) >= 6 && q.snap == r.snap && q.atSnap == r.atSnap)
  }

  lemma {:induction false} ReaderLoads(m: Port, r: Reader)
    requires ReaderNext(m, r).Some?
    ensures var q := ReaderNext(m, r).value;
            && SameLoads(r, q)
            && (Rank(r.pc) < 4 <= Rank(q.pc) ==> q.ip == m.slot.innerIP && q.atIP == Now(m))
            && (Rank(r.pc) < 5 <= Rank(q.pc) ==> q.gen == m.slot.generation && q.atGen == Now(m))
            && (Rank(r.pc) < 6 <= Rank(q.pc) ==> q.snap == m.ctr && q.atSnap == Now(m))
  {
  }

  lemma {:induction false} ReaderOrigin(sw: SwitchConfig, states: seq<Sys>, acts: seq<Action>, i: nat, pid: nat)
    requires IsRun(sw, states, acts) && i < |states| && pid in states[i].readers
    ensures var r := states[i].readers[pid];
            && (Rank(r.pc) >= 4 ==> HadIP(states, i, r.ip, r.atIP))
            && (Rank(r.pc) >= 5 ==> HadGeneration(states, i, r.gen, r.atGen))
            && (Rank(r.pc) >= 6 ==> HadCounters(states, i, r.snap, r.atSnap))
  {
    var s, r := states[i - 1], states[i].readers[pid];
    assert StepAt(sw, states, acts, i - 1);
    ReaderFrom(sw, s, acts[i - 1], pid);
    if r != NEW_READER {
      ReaderOrigin(sw, states, acts, i - 1, pid);
      if r != s.readers[pid] {
        ReaderLoads(s.port, s.readers[pid]);
      }
    }
  }

  /** The step in which a reader past it made its load of this rank. */
  lemma {:induction false} ReadStepOf(sw: SwitchConfig, states: seq<Sys>, acts: seq<Action>, i: nat, pid: nat, rank: nat)
    returns (k: nat)
    requires IsRun(sw, states, acts) && i < |states| && pid in states[i].readers && rank < Rank(states[i].readers[pid].pc)
    ensures k < i && acts[k] == StatsStep(pid) && pid in states[k].readers && Rank(states[k].readers[pid].pc) == rank
    ensures var next := ReaderNext(states[k].port, states[k].readers[pid]);
            && next.Some? && SameLoads(next.value, states[i].readers[pid])
            && SameLoads(states[k].readers[pid], states[i].readers[pid])
  {
    assert StepAt(sw, states, acts, i - 1);
    ReaderFrom(sw, states[i - 1], acts[i - 1], pid);
    var r, q := states[i - 1].readers[pid], states[i].readers[pid];
    if r != q {
      ReaderLoads(states[i - 1].port, r);
      ReaderRank(states[i - 1].port, r);
    }
    if Rank(r.pc) > rank {
      k := ReadStepOf(sw, states, acts, i - 1, pid, rank);
    } else {
      k := i - 1;
    }
  }

  lemma {:induction false} ReaderRank(m: Port, r: Reader)
    requires ReaderNext(m, r).Some?
    ensures Rank(ReaderNext(m, r).value.pc) == Rank(r.pc) + 1
  {
  }

  /** A read that passes its checks found the port up and its counters confirmed before its
      first load and again after its last, and then the address still the one it returns. */
  lemma {:induction false} StatsReadChecked(sw: SwitchConfig, states: seq<Sys>, acts: seq<Action>, i: nat, pid: nat)
    returns (up: nat, ready: nat, first: nat, second: nat, up': nat, ready': nat, address: nat)
    requires IsRun(sw, states, acts) && i < |states| && pid in states[i].readers && states[i].readers[pid].pc.RGen1?
    ensures up < ready < first < second < up' < ready' < address < i
    ensures states[up].port.slot.flags == 1 && states[up'].port.slot.flags == 1
    ensures states[ready].port.slot.statsReady == 1 && states[ready'].port.slot.statsReady == 1
    ensures states[first].port.ctr.gen == states[second].port.ctr.gen == states[i].readers[pid].snap.gen > 0
    ensures states[address].port.slot.innerIP == states[i].readers[pid].ip
  {
    address := ReadStepOf(sw, states, acts, i, pid, 8);
    ready' := ReadStepOf(sw, states, acts, address, pid, 7);
    up' := ReadStepOf(sw, states, acts, ready', pid, 6);
    second := ReadStepOf(sw, states, acts, up', pid, 5);
    first := ReadStepOf(sw, states, acts, second, pid, 2);
    ready := ReadStepOf(sw, states, acts, first, pid, 1);
    up := ReadStepOf(sw, states, acts, ready, pid, 0);
  }

  lemma {:induction false} RunReader(sw: SwitchConfig, states: seq<Sys>, acts: seq<Action>, i: nat, pid: nat)
    requires IsRun(sw, states, acts) && i < |states| && pid in states[i].readers
    ensures ReaderInv(states[i].port, Current(states[i].ops), states[i].readers[pid])
  {
    RunInv(sw, states, acts, i);
  }

  /** Address, generation and counters of one attachment: the states the first two were
      loaded from had the same owner, that owner had installed the counters, and the
      generation is the one it asked for. */
  predicate OneAttachment(r: Reader) {
    r.atIP.att == r.atGen.att == r.atSnap.ctrOwner && r.gen == r.atGen.attGen
  }

  lemma {:induction false} ReadIsOne(m: Port, o: Option<Op>, r: Reader)
    requires ReaderInv(m, o, r) && r.pc.RGen1?
    ensures IsAllocated(r.ip) && r.snap.gen == r.atGen.ctrGen > 0
    ensures OneAttachment(r) <==> r.atGen.att == r.atGen.ctrOwner
    ensures m.ctr.gen == r.snap.gen ==> OneAttachment(r)
  {
  }

  /** A Stats read that passes all its checks, in a state where the counter generation
      it returned is still current, returns an address, a generation and counters that
      belong to one attachment. */
  lemma {:induction false} StatsReadIsOneAttachment(sw: SwitchConfig, states: seq<Sys>, acts: seq<Action>, i: nat, pid: nat)
    requires IsRun(sw, states, acts) && i < |states| && pid in states[i].readers
    requires states[i].readers[pid].pc.RGen1? && states[i].port.slot.generation == states[i].readers[pid].gen
    requires states[i].port.ctr.gen == states[i].readers[pid].snap.gen
    ensures var r := states[i].readers[pid];
            && IsAllocated(r.ip) && OneAttachment(r)
            && HadIP(states, i, r.ip, r.atIP) && HadGeneration(states, i, r.gen, r.atGen) && HadCounters(states, i, r.snap, r.atSnap)
  {
    ReaderOrigin(sw, states, acts, i, pid);
    RunReader(sw, states, acts, i, pid);
    ReadIsOne(states[i].port, Current(states[i].ops), states[i].readers[pid]);
  }

  /** A read that passes its checks describes one attachment exactly if no claim was won
      between the reset that installed its counters and its load of the generation. */
  lemma {:induction false} StatsReadExactly(sw: SwitchConfig, states: seq<Sys>, acts: seq<Action>, i: nat, pid: nat)
    returns (reset: nat, load: nat)
    requires IsRun(sw, states, acts) && i < |states| && pid in states[i].readers && states[i].readers[pid].pc.RGen1?
    ensures reset < load < i
    ensures ResetsCounters(states[reset], acts[reset]) && states[reset + 1].port.ctr.gen == states[i].readers[pid].snap.gen
    ensures LoadsGeneration(states[load], acts[load], pid) && states[i].readers[pid].atGen == Now(states[load].port)
    ensures OneAttachment(states[i].readers[pid]) <==> NoClaim(states, acts, reset, load)
  {
    RunReader(sw, states, acts, i, pid);
    ReadIsOne(states[i].port, Current(states[i].ops), states[i].readers[pid]);
    load := LoadOf(sw, states, acts, i, pid);
    reset := ResetOf(sw, states, acts, load);
    ClaimsCount(sw, states, acts, reset, load);
  }

  // ------------------------------------------------------------------------ counters

  /** In every state the counters are exactly the packets and bytes of the packets that
      captured the current, non-zero generation and finished their update. */
  lemma {:induction false} CountersAreExact(sw: SwitchConfig, states: seq<Sys>, acts: seq<Action>, i: nat, k: nat)
    requires IsRun(sw, states, acts) && i < |states| && k < 4
    ensures var c := states[i].port.ctr;
            && c.packets[k] == PacketsOf(states[i].log, c.gen, k) % (MAX_U64 + 1)
            && c.bytes[k] == BytesOf(states[i].log, c.gen, k) % (MAX_U64 + 1)
  {
    RunInv(sw, states, acts, i);
  }

  /** A packet is counted, once and with its length, exactly if the counters were not reset
      between its capture of their generation and its update, and had been reset at all. */
  lemma {:induction false} CountedExactly(sw: SwitchConfig, states: seq<Sys>, acts: seq<Action>, i: nat, pid: nat)
    returns (captured: nat)
    requires IsRun(sw, states, acts) && i < |acts| && acts[i].PacketStep? && acts[i].pid == pid
    requires pid in states[i].packets && states[i].packets[pid].pc.PForward?
    ensures captured < i && Captures(states[captured], acts[captured], pid)
    ensures var k, len, c := KindIndex(states[i].packets[pid].kind), states[i].packets[pid].len, states[i].port.ctr;
            states[i + 1].port.ctr ==
            if NoReset(states, acts, captured, i) && c.gen > 0 then
              Counters(c.gen, c.packets[k := (c.packets[k] + 1) % (MAX_U64 + 1)], c.bytes[k := (c.bytes[k] + len) % (MAX_U64 + 1)])
            else c
  {
    assert StepAt(sw, states, acts, i);
    captured := CaptureOf(sw, states, acts, i, pid);
    GenerationsGrow(sw, states, acts, captured, i);
  }

  /** A packet that captured an earlier generation is never counted. */
  lemma {:induction false} LatePacketNotCounted(sw: SwitchConfig, states: seq<Sys>, acts: seq<Action>, i: nat, j: nat, pid: nat, ok: bool)
    requires IsRun(sw, states, acts) && i < j < |acts|
    requires states[i].port.ctr.gen < states[j].port.ctr.gen
    requires pid in states[i].packets && pid in states[j].packets && states[j].packets[pid].cap == states[i].packets[pid].cap
    requires acts[j] == Action.PacketStep(pid, ok)
    ensures states[j + 1].port.ctr == states[j].port.ctr
  {
    assert StepAt(sw, states, acts, j);
    RunPacket(sw, states, acts, i, pid);
  }

  // ------------------------------------------------------------------- control states

  lemma {:induction false} OpChange(m: Port, op: Op, ok: bool)
    requires op.Attach? || op.Commit? ==> op.c.ip != RESERVED
    requires op.Attach? ==> m.slot.innerIP == op.c.ip || m.slot.innerIP == RESERVED
    requires op.Commit? || op.Detach? ==> op.cur != RESERVED
    ensures LockFreeChange(m.slot.innerIP, OpNext(m, op, ok).port.slot.innerIP)
    ensures OpNext(m, op, ok).port.slot.ifindex == m.slot.ifindex
  {
    match op
    case Attach(_, _, _, pc) =>
    case PortUp(_, _, _) =>
    case Commit(_, _, _) =>
    case Detach(_, _) =>
  }

  /** Only the control-lock holder enters or leaves Reserved or changes a device index:
      every other step is a lock-free change. */
  lemma {:induction false} OthersAreLockFree(sw: SwitchConfig, states: seq<Sys>, acts: seq<Action>, i: nat)
    requires IsRun(sw, states, acts) && i < |acts| && !IsControl(acts[i])
    ensures LockFreeChange(states[i].port.slot.innerIP, states[i + 1].port.slot.innerIP)
    ensures states[i + 1].port.slot.ifindex == states[i].port.slot.ifindex
  {
    assert StepAt(sw, states, acts, i);
    RunInv(sw, states, acts, i);
    if acts[i].OpStep? {
      CurrentIs(states[i].ops, acts[i].pid);
      OpChange(states[i].port, states[i].ops[acts[i].pid], acts[i].ok);
    } else if acts[i].Claim? {
      ValidatedWellFormed(sw, acts[i].r);
    }
  }
}
