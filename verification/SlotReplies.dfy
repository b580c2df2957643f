/** When a management reply reaches the attachment whose generation it names.

    tc_ingress_mx loads the generation of the slot and compares it, sees the slot attached,
    passes the publication gate, and loads the address it delivers to: four steps between
    which others run. The comparison says something about the address exactly as far as no
    other generation was stored before the gate and the attachment did not end before the
    address was loaded. */
module SlotReplies {
  import opened Wire
  import opened SlotMachine
  import opened SlotInvariant
  import opened SlotObservers
  import opened SlotTraces
  import Floating

  // ------------------------------------------------------------ who stored the generation

  predicate GenOp(m: Port, op: Op) {
    if op.Attach? then
      m.att > 0 && m.attGen == op.generation && if Published(op.apc) then m.genBy == m.att else m.genBy < m.att
    else
      m.genBy == m.att > 0
  }

  /** The generation cell against the claims: it holds the generation of the latest claim
      once that one stored it, which it has on a port that is up or has no Attach running. */
  predicate GenInv(m: Port, o: Option<Op>) {
    && m.genBy <= m.att
    && (m.genBy == m.att && m.att > 0 ==> m.slot.generation == m.attGen)
    && (m.slot.flags == 1 ==> m.genBy == m.att > 0 && m.pubGen == m.attGen)
    && (o.Some? ==> GenOp(m, o.value))
    && (o.None? && IsAllocated(m.slot.innerIP) ==> m.genBy == m.att > 0)
  }

  lemma {:induction false} AttachWorkGen(sw: SwitchConfig, m: Port, ctl: Ctl, op: Op, ok: bool)
    requires op.Attach? && SoloInv(sw, m, ctl, Some(op)) && GenInv(m, Some(op))
    requires !op.apc.APubHint? && !op.apc.APubGen? && !Published(op.apc)
    ensures GenInv(AttachNext(m, op, ok).port, AttachNext(m, op, ok).op)
  {
    match op.apc
    case AClaimed | AReady | AFlags | AGen | AHint =>
    case ATransit(_) | AOpts(_) =>
    case AKind | APrepare | ARecheck | ARollback =>
  }

  lemma {:induction false} AttachPublishGen(sw: SwitchConfig, m: Port, ctl: Ctl, op: Op, ok: bool)
    requires op.Attach? && SoloInv(sw, m, ctl, Some(op)) && GenInv(m, Some(op))
    requires op.apc.APubHint? || op.apc.APubGen? || Published(op.apc)
    ensures GenInv(AttachNext(m, op, ok).port, AttachNext(m, op, ok).op)
  {
    match op.apc
    case APubHint | APubGen | AStats =>
    case AReset(_) | AConfirm | AUp =>
  }

  lemma {:induction false} CommitGen(m: Port, op: Op, ok: bool)
    requires op.Commit? && GenInv(m, Some(op))
    ensures GenInv(CommitNext(m, op, ok).port, CommitNext(m, op, ok).op)
  {
    match op.cpc
    case COpts(_) | CTransit(_) =>
    case CRecheck | CRecheck2 | CHint | CCas | CConfirm | CUp =>
  }

  lemma {:induction false} DetachGen(m: Port, op: Op, ok: bool)
    requires op.Detach? && GenInv(m, Some(op))
    ensures GenInv(DetachNext(m, op, ok).port, DetachNext(m, op, ok).op)
  {
    match op.dpc
    case DDevice | DRecheck | DRevoke | DHint | DRelease | DReload =>
  }

  lemma {:induction false} OpGen(sw: SwitchConfig, m: Port, ctl: Ctl, op: Op, ok: bool)
    requires SoloInv(sw, m, ctl, Some(op)) && GenInv(m, Some(op))
    ensures GenInv(OpNext(m, op, ok).port, OpNext(m, op, ok).op)
  {
    match op
    case Attach(_, _, _, pc) =>
      if pc.APubHint? || pc.APubGen? || Published(pc) {
        AttachPublishGen(sw, m, ctl, op, ok);
      } else {
        AttachWorkGen(sw, m, ctl, op, ok);
      }
    case PortUp(_, _, _) =>
    case Commit(_, _, _) => CommitGen(m, op, ok);
    case Detach(_, _) => DetachGen(m, op, ok);
  }

  lemma {:induction false} ControlGen(sw: SwitchConfig, m: Port, ctl: Ctl, o: Option<Op>)
    requires SoloInv(sw, m, ctl, o) && GenInv(m, o)
    ensures GenInv(ControlNext(m, ctl).port, o)
  {
  }

  lemma {:induction false} OpStepGen(sw: SwitchConfig, s: Sys, pid: nat, ok: bool)
    requires CoreInv(sw, s) && GenInv(s.port, Current(s.ops)) && pid in s.ops
    ensures var t := OpStepNext(s, pid, ok); GenInv(t.port, Current(t.ops))
  {
    CurrentIs(s.ops, pid);
    CurrentPut(s.ops, pid, OpNext(s.port, s.ops[pid], ok).op);
    OpGen(sw, s.port, s.ctl, s.ops[pid], ok);
  }

  lemma {:induction false} StartGen(sw: SwitchConfig, s: Sys, a: Action)
    requires CoreInv(sw, s) && GenInv(s.port, Current(s.ops)) && Enabled(sw, s, a)
    requires a.Claim? || a.StartPortUp? || a.StartDetach?
    ensures var t := Next(sw, s, a); GenInv(t.port, Current(t.ops))
  {
    var t := Next(sw, s, a);
    if t != s {
      assert s.ops == map[];
      CurrentPut(s.ops, a.pid, Some(t.ops[a.pid]));
    }
  }

  lemma {:induction false} StepGen(sw: SwitchConfig, s: Sys, a: Action)
    requires CoreInv(sw, s) && GenInv(s.port, Current(s.ops)) && Enabled(sw, s, a)
    ensures var t := Next(sw, s, a); GenInv(t.port, Current(t.ops))
  {
    match a
    case OpStep(pid, ok) => OpStepGen(sw, s, pid, ok);
    case Claim(_, _, _, _) | StartPortUp(_, _) | StartDetach(_) => StartGen(sw, s, a);
    case ControlStep => ControlGen(sw, s.port, s.ctl, Current(s.ops));
    case StartControl(_) | StartReopen | SetIfindex(_) | SetMode(_) =>
    case Arrive(_, _, _, _) | PacketStep(_, _) | StartStats(_) | StatsStep(_) =>
  }

  lemma {:induction false} RunGen(sw: SwitchConfig, states: seq<Sys>, acts: seq<Action>, i: nat)
    requires IsRun(sw, states, acts) && i < |states|
    ensures GenInv(states[i].port, Current(states[i].ops))
  {
    if i > 0 {
      RunGen(sw, states, acts, i - 1);
      RunInv(sw, states, acts, i - 1);
      assert StepAt(sw, states, acts, i - 1);
      StepGen(sw, states[i - 1], acts[i - 1]);
    }
  }

  // ------------------------------------------------------------- along a run

  /** The storing claim stays the same exactly as long as no generation is stored. */
  lemma {:induction false} GenerationStays(sw: SwitchConfig, states: seq<Sys>, acts: seq<Action>, i: nat, j: nat)
    requires IsRun(sw, states, acts) && i <= j < |states|
    ensures states[i].port.genBy <= states[j].port.genBy
    ensures states[i].port.genBy == states[j].port.genBy <==> NoGeneration(states, acts, i, j)
  {
    if i < j {
      GenerationStays(sw, states, acts, i, j - 1);
      assert StepAt(sw, states, acts, j - 1);
      StepHistory(sw, states[j - 1], acts[j - 1]);
      StoresAnew(sw, states, acts, j - 1);
      assert NoGeneration(states, acts, i, j) <==>
             NoGeneration(states, acts, i, j - 1) && !PublishesGeneration(states[j - 1], acts[j - 1]);
    }
  }

  lemma {:induction false} StoresAnew(sw: SwitchConfig, states: seq<Sys>, acts: seq<Action>, i: nat)
    requires IsRun(sw, states, acts) && i < |acts|
    ensures PublishesGeneration(states[i], acts[i]) ==> states[i].port.genBy < states[i].port.att
  {
    RunInv(sw, states, acts, i);
    RunGen(sw, states, acts, i);
    if PublishesGeneration(states[i], acts[i]) {
      CurrentIs(states[i].ops, acts[i].pid);
    }
  }

  /** Claim number n was won earlier, asking for this generation. */
  ghost predicate HadClaim(states: seq<Sys>, acts: seq<Action>, i: nat, n: nat, generation: nat)
    requires i <= |acts| < |states|
  {
    exists k :: 0 <= k < i && WinsClaim(states[k], acts[k]) && states[k].port.att + 1 == n && acts[k].generation == generation
  }

  lemma {:induction false} HadClaimStays(states: seq<Sys>, acts: seq<Action>, i: nat, j: nat, n: nat, generation: nat)
    requires i <= j <= |acts| < |states| && HadClaim(states, acts, i, n, generation)
    ensures HadClaim(states, acts, j, n, generation)
  {
  }

  /** The latest claim asked for attGen. */
  lemma {:induction false} LatestClaim(sw: SwitchConfig, states: seq<Sys>, acts: seq<Action>, i: nat)
    requires IsRun(sw, states, acts) && i < |states|
    ensures states[i].port.att > 0 ==> HadClaim(states, acts, i, states[i].port.att, states[i].port.attGen)
  {
    if i > 0 {
      var m, n := states[i - 1].port, states[i].port;
      LatestClaim(sw, states, acts, i - 1);
      assert StepAt(sw, states, acts, i - 1);
      StepHistory(sw, states[i - 1], acts[i - 1]);
      if m.att > 0 {
        HadClaimStays(states, acts, i - 1, i, m.att, m.attGen);
      }
    }
  }

  /** What the generation cell can hold: nothing yet, the mark of an attachment being
      prepared, or the generation of the claim that stored it. */
  ghost predicate CellOrigin(states: seq<Sys>, acts: seq<Action>, i: nat)
    requires i <= |acts| < |states|
  {
    var m := states[i].port;
    || m.slot.generation == UNPUBLISHED
    || (m.genBy == 0 && m.slot.generation == 0)
    || HadClaim(states, acts, i, m.genBy, m.slot.generation)
  }

  lemma {:induction false} OpCell(m: Port, op: Op, ok: bool)
    ensures var n := OpNext(m, op, ok).port;
            || n.slot.generation == m.slot.generation
            || n.slot.generation == UNPUBLISHED
            || (op.Attach? && op.apc.APubGen? && n.slot.generation == op.generation)
  {
    match op
    case Attach(_, _, _, pc) =>
    case PortUp(_, _, _) =>
    case Commit(_, _, _) =>
    case Detach(_, _) =>
  }

  lemma {:induction false} StepCell(sw: SwitchConfig, s: Sys, a: Action)
    requires Enabled(sw, s, a)
    ensures var n := Next(sw, s, a).port;
            || n.slot.generation == s.port.slot.generation
            || n.slot.generation == UNPUBLISHED
            || (PublishesGeneration(s, a) && n.slot.generation == s.ops[a.pid].generation)
  {
    if a.OpStep? {
      OpCell(s.port, s.ops[a.pid], a.ok);
    }
  }

  lemma {:induction false} CellStored(sw: SwitchConfig, states: seq<Sys>, acts: seq<Action>, i: nat)
    requires IsRun(sw, states, acts) && i < |acts| && PublishesGeneration(states[i], acts[i])
    ensures CellOrigin(states, acts, i + 1)
  {
    assert StepAt(sw, states, acts, i);
    StepHistory(sw, states[i], acts[i]);
    RunInv(sw, states, acts, i);
    RunGen(sw, states, acts, i);
    CurrentIs(states[i].ops, acts[i].pid);
    LatestClaim(sw, states, acts, i);
    HadClaimStays(states, acts, i, i + 1, states[i].port.att, states[i].port.attGen);
  }

  lemma {:induction false} CellHasOrigin(sw: SwitchConfig, states: seq<Sys>, acts: seq<Action>, i: nat)
    requires IsRun(sw, states, acts) && i < |states|
    ensures CellOrigin(states, acts, i)
  {
    if i > 0 {
      if PublishesGeneration(states[i - 1], acts[i - 1]) {
        CellStored(sw, states, acts, i - 1);
      } else {
        CellHasOrigin(sw, states, acts, i - 1);
        assert StepAt(sw, states, acts, i - 1);
        StepHistory(sw, states[i - 1], acts[i - 1]);
        StepCell(sw, states[i - 1], acts[i - 1]);
        var m := states[i - 1].port;
        if HadClaim(states, acts, i - 1, m.genBy, m.slot.generation) {
          HadClaimStays(states, acts, i - 1, i, m.genBy, m.slot.generation);
        }
      }
    }
  }

  // ---------------------------------------------------------------------- replies

  /** Every attachment of the run asks for a generation of its own, and none for the 0 a
      slot holds before its first attachment. */
  ghost predicate FreshGenerations(states: seq<Sys>, acts: seq<Action>)
    requires |acts| < |states|
  {
    && (forall k :: 0 <= k < |acts| && WinsClaim(states[k], acts[k]) ==> acts[k].generation != 0)
    && (forall j, k :: 0 <= j < k < |acts| && WinsClaim(states[j], acts[j]) && WinsClaim(states[k], acts[k])
          ==> acts[j].generation != acts[k].generation)
  }

  /** The steps that decide about a delivered reply: it checks its generation, sees the slot
      attached, passes the gate, and loads the address it is delivered to. */
  ghost predicate ReplyTrace(states: seq<Sys>, acts: seq<Action>, i: nat, pid: nat, check: nat, state: nat, gate: nat, load: nat)
    requires i < |states| == |acts| + 1 && pid in states[i].packets
  {
    && check < state < gate < load < i
    && ChecksGeneration(states[check], acts[check], pid) && StaysPastCheck(states, pid, check + 1, i)
    && ChecksState(states[state], acts[state], pid)
    && PassesGate(states[gate], acts[gate], pid)
    && LoadsPublished(states[load], acts[load], pid)
    && states[check].port.slot.generation == states[i].packets[pid].want
    && states[gate].port.pub == states[i].packets[pid].pub && states[gate].port.pubGen == states[i].packets[pid].pubGen
    && states[i].packets[pid].obs == [states[load].port.slot.innerIP]
  }

  lemma {:induction false} ReplySteps(sw: SwitchConfig, states: seq<Sys>, acts: seq<Action>, i: nat, pid: nat)
    returns (check: nat, state: nat, gate: nat, load: nat)
    requires IsRun(sw, states, acts) && i < |states| && pid in states[i].packets
    requires states[i].packets[pid].pc.PForward? && states[i].packets[pid].kind.Mx?
    ensures ReplyTrace(states, acts, i, pid, check, state, gate, load)
  {
    check := CheckOf(sw, states, acts, i, pid);
    state := StateCheckOf(sw, states, acts, i, pid);
    gate := GateOf(sw, states, acts, i, pid);
    load := LastLoadOf(sw, states, acts, i, pid);
    RepliesLoadOnce(sw, states, acts, load, pid);
  }

  /** A reply names a generation within range, so never the mark of a slot being prepared. */
  lemma {:induction false} WantInRange(sw: SwitchConfig, states: seq<Sys>, acts: seq<Action>, i: nat, pid: nat)
    requires IsRun(sw, states, acts) && i < |states| && pid in states[i].packets && states[i].packets[pid].kind.Mx?
    ensures states[i].packets[pid].want != UNPUBLISHED
  {
    assert StepAt(sw, states, acts, i - 1);
    var s, a := states[i - 1], acts[i - 1];
    PacketFrom(sw, s, a, pid);
    if pid in s.packets {
      if states[i].packets[pid] != s.packets[pid] {
        GateStep(sw, s.port, s.packets[pid], a.ok);
      }
      WantInRange(sw, states, acts, i - 1, pid);
    } else {
      Floating.Pow2Monotone(sw.generationBits, 20);
      Floating.Pow2Twenty();
    }
  }

  /** On an up port the generation cell, the published generation and the latest claim agree. */
  lemma {:induction false} GateGeneration(sw: SwitchConfig, states: seq<Sys>, acts: seq<Action>, i: nat)
    requires IsRun(sw, states, acts) && i < |states| && states[i].port.slot.flags == 1
    ensures var m := states[i].port;
            m.genBy == m.att > 0 && m.pubGen == m.attGen && HadClaim(states, acts, i, m.att, m.pubGen)
  {
    RunGen(sw, states, acts, i);
    LatestClaim(sw, states, acts, i);
  }

  /** If no attachment stores its generation between the check and the gate, the reply passes
      the gate of the generation it names, whether the port was up or down at the check. */
  lemma {:induction false} GateAgrees(sw: SwitchConfig, states: seq<Sys>, acts: seq<Action>, check: nat, gate: nat)
    requires IsRun(sw, states, acts) && check < gate < |states| && states[gate].port.slot.flags == 1
    requires NoGeneration(states, acts, check, gate)
    ensures states[check].port.att == states[gate].port.att
    ensures states[check].port.slot.generation == states[gate].port.attGen == states[gate].port.pubGen
  {
    GenerationStays(sw, states, acts, check, gate);
    GateGeneration(sw, states, acts, gate);
    RunGen(sw, states, acts, check);
    ClaimsCount(sw, states, acts, check, gate);
  }

  /** The attachment whose generation was checked still has the slot when the address is
      loaded exactly if no generation was stored before the gate and no claim won after it. */
  lemma {:induction false} CheckedClaimStays(sw: SwitchConfig, states: seq<Sys>, acts: seq<Action>, check: nat, gate: nat, load: nat)
    requires IsRun(sw, states, acts) && check < gate < load < |states| && states[gate].port.slot.flags == 1
    ensures states[check].port.genBy == states[load].port.att <==>
            NoGeneration(states, acts, check, gate) && NoClaim(states, acts, gate, load)
    ensures states[check].port.genBy == states[load].port.att ==> states[check].port.att == states[load].port.att
  {
    RunGen(sw, states, acts, check);
    GateGeneration(sw, states, acts, gate);
    GenerationStays(sw, states, acts, check, gate);
    ClaimsCount(sw, states, acts, check, gate);
    ClaimsCount(sw, states, acts, gate, load);
  }

  /** The claim whose generation a reply compared with is the one whose address it is
      delivered to exactly if no generation is stored between its check and its gate and the
      attachment it saw does not end before it loads the address. This needs nothing about
      the generations in use. */
  lemma {:induction false} ReplyAttachmentExact(sw: SwitchConfig, states: seq<Sys>, acts: seq<Action>, i: nat, pid: nat)
    returns (check: nat, state: nat, gate: nat, load: nat)
    requires IsRun(sw, states, acts) && i < |states| && pid in states[i].packets
    requires states[i].packets[pid].pc.PForward? && states[i].packets[pid].kind.Mx?
    ensures ReplyTrace(states, acts, i, pid, check, state, gate, load)
    ensures IsAllocated(states[load].port.slot.innerIP) && states[check].port.genBy == states[load].port.att <==>
            NoGeneration(states, acts, check, gate) && NoEnd(states, acts, state, load)
  {
    check, state, gate, load := ReplySteps(sw, states, acts, i, pid);
    CheckedClaimStays(sw, states, acts, check, gate, load);
    StaysAttached(sw, states, acts, state, load);
    ClaimsCount(sw, states, acts, check, state);
    ClaimsCount(sw, states, acts, state, load);
  }

  /** The address a reply is delivered to belongs to the attachment of the generation it
      names if no generation is stored between its check and its gate, and the attachment
      it saw does not end before the address is loaded. If only no claim is won after the
      gate, the slot still has no other attachment, but may have none any more. */
  lemma {:induction false} ReplyGenerationAgrees(sw: SwitchConfig, states: seq<Sys>, acts: seq<Action>, i: nat, pid: nat)
    returns (check: nat, state: nat, gate: nat, load: nat)
    requires IsRun(sw, states, acts) && i < |states| && pid in states[i].packets
    requires states[i].packets[pid].pc.PForward? && states[i].packets[pid].kind.Mx?
    ensures ReplyTrace(states, acts, i, pid, check, state, gate, load)
    ensures NoGeneration(states, acts, check, gate) && NoClaim(states, acts, gate, load) ==>
              states[load].port.attGen == states[i].packets[pid].want
    ensures NoGeneration(states, acts, check, gate) && NoEnd(states, acts, state, load) ==>
              ReachesNamed(states[load].port, states[i].packets[pid].want)
  {
    check, state, gate, load := ReplySteps(sw, states, acts, i, pid);
    if NoGeneration(states, acts, check, gate) {
      GateAgrees(sw, states, acts, check, gate);
      ClaimsCount(sw, states, acts, gate, load);
      StaysAttached(sw, states, acts, state, load);
    }
  }

  /** The slot has an attachment, and it is the one that asked for this generation. */
  predicate ReachesNamed(m: Port, generation: nat) {
    IsAllocated(m.slot.innerIP) && m.attGen == generation
  }

  /** Claims with different numbers are different claims, so they asked for different
      generations. */
  lemma {:induction false} ClaimsDiffer(states: seq<Sys>, acts: seq<Action>, i: nat, n: nat, g: nat, n': nat, g': nat)
    requires i <= |acts| < |states| && FreshGenerations(states, acts) && n != n'
    requires HadClaim(states, acts, i, n, g) && HadClaim(states, acts, i, n', g')
    ensures g != g'
  {
    var k :| 0 <= k < i && WinsClaim(states[k], acts[k]) && states[k].port.att + 1 == n && acts[k].generation == g;
    var k' :| 0 <= k' < i && WinsClaim(states[k'], acts[k']) && states[k'].port.att + 1 == n' && acts[k'].generation == g';
    assert k != k';
  }

  /** Where attachments do not reuse generations, both conditions are exact. */
  lemma {:induction false} ReplyGenerationExact(sw: SwitchConfig, states: seq<Sys>, acts: seq<Action>, i: nat, pid: nat)
    returns (check: nat, state: nat, gate: nat, load: nat)
    requires IsRun(sw, states, acts) && i < |states| && pid in states[i].packets && FreshGenerations(states, acts)
    requires states[i].packets[pid].pc.PForward? && states[i].packets[pid].kind.Mx?
    ensures ReplyTrace(states, acts, i, pid, check, state, gate, load)
    ensures states[load].port.attGen == states[i].packets[pid].want <==>
            NoGeneration(states, acts, check, gate) && NoClaim(states, acts, gate, load)
    ensures ReachesNamed(states[load].port, states[i].packets[pid].want) <==>
            NoGeneration(states, acts, check, gate) && NoEnd(states, acts, state, load)
  {
    check, state, gate, load := ReplyGenerationAgrees(sw, states, acts, i, pid);
    if states[load].port.attGen == states[i].packets[pid].want {
      WantInRange(sw, states, acts, i, pid);
      SameClaim(sw, states, acts, check, gate, load);
      ClaimsCount(sw, states, acts, state, load);
      ClaimsCount(sw, states, acts, check, state);
      StaysAttached(sw, states, acts, state, load);
    }
  }

  /** If the slot ends up with the generation a reply named, the claim is still the one whose
      generation the reply checked. */
  lemma {:induction false} SameClaim(sw: SwitchConfig, states: seq<Sys>, acts: seq<Action>, check: nat, gate: nat, load: nat)
    requires IsRun(sw, states, acts) && check < gate < load < |states| && FreshGenerations(states, acts)
    requires states[check].port.slot.generation == states[load].port.attGen != UNPUBLISHED
    requires states[gate].port.slot.flags == 1
    ensures states[check].port.att == states[load].port.att
    ensures NoGeneration(states, acts, check, gate) && NoClaim(states, acts, gate, load)
  {
    GateGeneration(sw, states, acts, gate);
    ClaimsCount(sw, states, acts, gate, load);
    CellIsClaim(sw, states, acts, check, load);
    CheckedClaimStays(sw, states, acts, check, gate, load);
  }

  lemma {:induction false} CellIsClaim(sw: SwitchConfig, states: seq<Sys>, acts: seq<Action>, check: nat, load: nat)
    requires IsRun(sw, states, acts) && check < load < |states| && FreshGenerations(states, acts)
    requires states[check].port.slot.generation == states[load].port.attGen != UNPUBLISHED && states[load].port.att > 0
    ensures states[check].port.genBy == states[load].port.att
  {
    var m, n := states[check].port, states[load].port;
    CellHasOrigin(sw, states, acts, check);
    LatestClaim(sw, states, acts, load);
    if HadClaim(states, acts, check, m.genBy, m.slot.generation) {
      HadClaimStays(states, acts, check, load, m.genBy, m.slot.generation);
      if m.genBy != n.att {
        ClaimsDiffer(states, acts, load, m.genBy, m.slot.generation, n.att, n.attGen);
      }
    }
  }
}
