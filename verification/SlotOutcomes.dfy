/** What calls leave behind: an Attach or SetPortUp that succeeds, what a call can fail for,
    and what a finished action of the control lock leaves, in every run. */
module SlotOutcomes {
  import opened Wire
  import opened SlotMachine
  import opened SlotInvariant
  import opened SlotObservers
  import opened SlotTraces

  // ------------------------------------------------------------------------- success

  /** A slot that was taken over, or holds exactly this configuration. */
  predicate HoldsOrTaken(m: Port, c: Config) {
    m.slot.innerIP == RESERVED || (m.slot.innerIP == c.ip && Holds(m.slot.hint, m.slot.transit, m.opt, c))
  }

  /** The last step of an Attach: up unless it was asked to stay down, under the generation
      it asked for, and with the whole configuration in place unless it was taken over. It
      had found the device of a tap port, and after preparing had found the slot its own. */
  lemma {:induction false} AttachSucceeds(sw: SwitchConfig, states: seq<Sys>, acts: seq<Action>, i: nat)
    returns (device: nat, recheck: nat)
    requires IsRun(sw, states, acts) && i < |acts| && AttachAt(states[i], acts[i], AUp)
    ensures var op, m := states[i].ops[acts[i].pid], states[i + 1].port;
            && acts[i].pid !in states[i + 1].ops && HoldsOrTaken(m, op.c)
            && m.slot.generation == m.attGen == op.generation
            && m.slot.flags == (if op.adminDown then 0 else 1)
            && (!op.adminDown ==> m.pub == op.c && m.pubGen == op.generation)
    ensures device < recheck < i
    ensures states[device].port.slot.tap ==> states[device].port.slot.ifindex != 0
    ensures states[recheck].port.slot.innerIP == states[i].ops[acts[i].pid].c.ip
  {
    assert StepAt(sw, states, acts, i);
    RunInv(sw, states, acts, i);
    CurrentIs(states[i].ops, acts[i].pid);
    recheck := PassedCheck(sw, states, acts, i, acts[i].pid, 2);
    device := PassedCheck(sw, states, acts, recheck, acts[i].pid, 1);
  }

  predicate CommitsUp(s: Sys, a: Action) {
    a.OpStep? && a.pid in s.ops && s.ops[a.pid].Commit? && s.ops[a.pid].cpc.CUp?
  }

  /** The last step of a SetPortUp: up, with the whole new configuration in place unless it
      was taken over, under the generation and with the counters the attachment had. It had
      found the slot its own before and after it wrote the options, when it swapped the
      address, and once more after that. */
  lemma {:induction false} PortUpSucceeds(sw: SwitchConfig, states: seq<Sys>, acts: seq<Action>, i: nat)
    returns (before: nat, after: nat, swap: nat, confirm: nat)
    requires IsRun(sw, states, acts) && i < |acts| && CommitsUp(states[i], acts[i])
    ensures var op, m, n := states[i].ops[acts[i].pid], states[i].port, states[i + 1].port;
            && acts[i].pid !in states[i + 1].ops && HoldsOrTaken(n, op.c)
            && n.slot.flags == 1 && n.pub == op.c && n.pubGen == m.attGen
            && n.slot.generation == m.slot.generation && n.slot.statsReady == m.slot.statsReady && n.ctr == m.ctr
    ensures before < after < swap < confirm < i
    ensures var op := states[i].ops[acts[i].pid];
            && states[before].port.slot.innerIP == states[after].port.slot.innerIP == states[swap].port.slot.innerIP == op.cur
            && states[confirm].port.slot.innerIP == op.c.ip
  {
    assert StepAt(sw, states, acts, i);
    RunInv(sw, states, acts, i);
    CurrentIs(states[i].ops, acts[i].pid);
    confirm := PassedCheck(sw, states, acts, i, acts[i].pid, 4);
    swap := PassedCheck(sw, states, acts, confirm, acts[i].pid, 3);
    after := PassedCheck(sw, states, acts, swap, acts[i].pid, 2);
    before := PassedCheck(sw, states, acts, after, acts[i].pid, 1);
  }

  /** A Detach that revokes had found the slot its own after it moved the device. */
  lemma {:induction false} RevokesOwnSlot(sw: SwitchConfig, states: seq<Sys>, acts: seq<Action>, i: nat) returns (recheck: nat)
    requires IsRun(sw, states, acts) && i < |acts| && Revokes(states[i], acts[i])
    ensures recheck < i && states[recheck].port.slot.innerIP == states[i].ops[acts[i].pid].cur
    ensures states[i + 1].port.slot.flags == 0
  {
    assert StepAt(sw, states, acts, i);
    recheck := PassedCheck(sw, states, acts, i, acts[i].pid, 1);
  }

  /** A reply or a returned packet is forwarded only if it found a device before its gate. */
  lemma {:induction false} ForwardedToDevice(sw: SwitchConfig, states: seq<Sys>, acts: seq<Action>, i: nat, pid: nat)
    returns (device: nat, gate: nat)
    requires IsRun(sw, states, acts) && i < |states| && pid in states[i].packets && states[i].packets[pid].pc.PForward?
    requires states[i].packets[pid].kind.Mx? || states[i].packets[pid].kind.Return?
    ensures device < gate < i && PassesGate(states[gate], acts[gate], pid)
    ensures FindsDevice(states[device], acts[device], pid)
  {
    gate := GateOf(sw, states, acts, i, pid);
    device := DeviceOf(sw, states, acts, gate, pid);
  }

  // ------------------------------------------------------------------------- failure

  /** The step abandons the call: it turns to the rollback, or returns early. */
  predicate Abandons(m: Port, op: Op, ok: bool) {
    var next := OpNext(m, op, ok).op;
    match op
    case Attach(_, _, _, pc) => !pc.AUp? && !pc.ARollback? && (next.None? || (next.value.Attach? && next.value.apc.ARollback?))
    case PortUp(_, _, _) => next.None?
    case Commit(_, _, pc) => !pc.CUp? && next.None?
    case Detach(_, pc) => next.None? && OpNext(m, op, ok).port.slot.innerIP != FREE
  }

  /** What makes a call give up at this point: a system call fails; the slot is found taken
      over; a tap port has no device; SetPortUp finds the port up, or was given a bad request. */
  predicate GivesUp(m: Port, op: Op, ok: bool) {
    var taken := m.slot.innerIP == RESERVED;
    match op
    case Attach(_, _, _, pc) =>
      if pc.AKind? then m.slot.tap && m.slot.ifindex == 0
      else if pc.AOpts? || pc.APrepare? then !ok
      else pc.ARecheck? && taken
    case PortUp(want, _, checked) => if checked then !ok || want.None? else m.slot.flags == 1
    case Commit(_, _, pc) =>
      if pc.COpts? then !ok else (pc.CRecheck? || pc.CRecheck2? || pc.CCas? || pc.CConfirm?) && taken
    case Detach(_, pc) => if pc.DDevice? then !ok else (pc.DRecheck? || pc.DReload?) && taken
  }

  lemma {:induction false} AttachGivesUp(sw: SwitchConfig, m: Port, op: Op, ok: bool)
    requires op.Attach? && OpInv(sw, m, op)
    ensures Abandons(m, op, ok) <==> GivesUp(m, op, ok)
  {
    match op.apc
    case AClaimed | AReady | AFlags | AGen | AHint =>
    case ATransit(_) | AOpts(_) =>
    case AKind | APrepare | ARecheck | ARollback =>
    case APubHint | APubGen | AStats | AReset(_) | AConfirm | AUp =>
  }

  lemma {:induction false} CommitGivesUp(sw: SwitchConfig, m: Port, op: Op, ok: bool)
    requires op.Commit? && OpInv(sw, m, op)
    ensures Abandons(m, op, ok) <==> GivesUp(m, op, ok)
  {
    match op.cpc
    case COpts(_) | CTransit(_) =>
    case CRecheck | CRecheck2 | CHint | CCas | CConfirm | CUp =>
  }

  /** In every run a call is abandoned exactly where a system call fails, it finds the slot
      taken over, a tap port has no device, or SetPortUp finds the port up or was given a bad
      request. */
  lemma {:induction false} FailsExactly(sw: SwitchConfig, states: seq<Sys>, acts: seq<Action>, i: nat)
    requires IsRun(sw, states, acts) && i < |acts| && acts[i].OpStep? && acts[i].pid in states[i].ops
    ensures Abandons(states[i].port, states[i].ops[acts[i].pid], acts[i].ok) <==>
            GivesUp(states[i].port, states[i].ops[acts[i].pid], acts[i].ok)
  {
    RunInv(sw, states, acts, i);
    CurrentIs(states[i].ops, acts[i].pid);
    var m, op, ok := states[i].port, states[i].ops[acts[i].pid], acts[i].ok;
    match op
    case Attach(_, _, _, _) => AttachGivesUp(sw, m, op, ok);
    case PortUp(_, _, _) =>
    case Commit(_, _, _) => CommitGivesUp(sw, m, op, ok);
    case Detach(_, _) =>
  }

  // -------------------------------------------------------------------- control lock

  /** The holder of the control lock finishes in this step. */
  predicate Finishes(s: Sys, a: Action) {
    a.ControlStep? && !s.ctl.Idle? && ControlNext(s.port, s.ctl).ctl.Idle?
  }

  /** A finished takeover or reserve leaves the slot Reserved, with a zero hint behind an
      attachment taken by force and without confirmed counters behind a plain reserve; a
      plain reserve may instead have found the slot in use. A finished reopening leaves it
      Free and down. */
  lemma {:induction false} ControlLeaves(sw: SwitchConfig, states: seq<Sys>, acts: seq<Action>, i: nat)
    requires IsRun(sw, states, acts) && i < |acts| && Finishes(states[i], acts[i])
    ensures var ctl, m, n := states[i].ctl, states[i].port, states[i + 1].port;
            && (ctl.ReopenFlags? || ctl.ReopenCas? ==> n.slot.innerIP == FREE && n.slot.flags == 0)
            && (ctl.ReserveCas? ==> n == m && m.slot.innerIP != FREE)
            && (!ctl.ReopenFlags? && !ctl.ReopenCas? && !ctl.ReserveCas? ==> n.slot.innerIP == RESERVED)
            && (ctl.ReserveReady? ==> n.slot.statsReady == 0)
            && (ctl.ForceHint? ==> n.slot.hint == 0)
            && (ctl.ForceCas? ==> m.slot.innerIP == FREE)
  {
    assert StepAt(sw, states, acts, i);
    RunInv(sw, states, acts, i);
  }

  predicate ClearsUp(s: Sys, a: Action) {
    a.ControlStep? && s.ctl.ForceFlags?
  }

  ghost predicate Forcing(states: seq<Sys>, i: nat, j: nat)
    requires j < |states|
  {
    forall k :: i <= k <= j ==> states[k].ctl.ForceHint?
  }

  lemma {:induction false} CtlFrom(sw: SwitchConfig, s: Sys, a: Action)
    requires Enabled(sw, s, a) && Next(sw, s, a).ctl.ForceHint?
    ensures (s.ctl.ForceHint? && !a.ControlStep?) || ClearsUp(s, a)
  {
  }

  /** The step in which a force reserve took the port down. */
  lemma {:induction false} ClearedAt(sw: SwitchConfig, states: seq<Sys>, acts: seq<Action>, i: nat) returns (k: nat)
    requires IsRun(sw, states, acts) && i < |states| && states[i].ctl.ForceHint?
    ensures k < i && ClearsUp(states[k], acts[k]) && Forcing(states, k + 1, i)
  {
    assert StepAt(sw, states, acts, i - 1);
    CtlFrom(sw, states[i - 1], acts[i - 1]);
    if ClearsUp(states[i - 1], acts[i - 1]) {
      k := i - 1;
    } else {
      k := ClearedAt(sw, states, acts, i - 1);
    }
  }

  /** Some call stores up in this step. */
  predicate StoresUp(s: Sys, a: Action) {
    (AttachAt(s, a, AUp) && !s.ops[a.pid].adminDown) || CommitsUp(s, a)
  }

  ghost predicate NoUp(states: seq<Sys>, acts: seq<Action>, i: nat, j: nat)
    requires j <= |acts| <= |states|
  {
    forall k :: i <= k < j ==> !StoresUp(states[k], acts[k])
  }

  /** While a force reserve has only its hint left to clear, the port goes up exactly where
      a call in flight stores up, and nothing takes it down again. */
  lemma {:induction false} ForcedStep(sw: SwitchConfig, s: Sys, a: Action)
    requires CoreInv(sw, s) && Enabled(sw, s, a) && s.ctl.ForceHint? && !a.ControlStep?
    requires s.port.slot.flags == 1 ==> s.ops == map[]
    ensures var t := Next(sw, s, a);
            && (t.port.slot.flags == 1 <==> s.port.slot.flags == 1 || StoresUp(s, a))
            && (t.port.slot.flags == 1 ==> t.ops == map[])
  {
    if a.OpStep? {
      CurrentIs(s.ops, a.pid);
      CurrentPut(s.ops, a.pid, OpNext(s.port, s.ops[a.pid], a.ok).op);
      if OpNext(s.port, s.ops[a.pid], a.ok).port.slot.flags == 1 {
        OpUp(s.port, s.ops[a.pid], a.ok);
      }
    }
  }

  lemma {:induction false} ClearedNow(sw: SwitchConfig, states: seq<Sys>, acts: seq<Action>, k: nat)
    requires IsRun(sw, states, acts) && k < |acts| && ClearsUp(states[k], acts[k])
    ensures states[k + 1].port.slot.flags == 0
  {
    assert StepAt(sw, states, acts, k);
  }

  lemma {:induction false} ForcedState(sw: SwitchConfig, states: seq<Sys>, acts: seq<Action>, k: nat, i: nat)
    requires IsRun(sw, states, acts) && k < i < |states| && ClearsUp(states[k], acts[k]) && Forcing(states, k + 1, i)
    ensures states[i].port.slot.flags == 1 <==> !NoUp(states, acts, k + 1, i)
    ensures states[i].port.slot.flags == 1 ==> states[i].ops == map[]
  {
    if i == k + 1 {
      ClearedNow(sw, states, acts, k);
    } else {
      ForcedState(sw, states, acts, k, i - 1);
      RunInv(sw, states, acts, i - 1);
      assert StepAt(sw, states, acts, i - 1);
      ForcedStep(sw, states[i - 1], acts[i - 1]);
      assert NoUp(states, acts, k + 1, i) <==> NoUp(states, acts, k + 1, i - 1) && !StoresUp(states[i - 1], acts[i - 1]);
    }
  }

  /** A force reserve that took over an attachment leaves the port down exactly if no call in
      flight stored up after the force reserve had taken it down. */
  lemma {:induction false} ForceLeavesDownExactly(sw: SwitchConfig, states: seq<Sys>, acts: seq<Action>, i: nat)
    returns (cleared: nat)
    requires IsRun(sw, states, acts) && i < |acts| && Finishes(states[i], acts[i]) && states[i].ctl.ForceHint?
    ensures cleared < i && ClearsUp(states[cleared], acts[cleared]) && Forcing(states, cleared + 1, i)
    ensures states[i + 1].port.slot.innerIP == RESERVED && states[i + 1].port.slot.hint == 0
    ensures states[i + 1].port.slot.flags == 0 <==> NoUp(states, acts, cleared + 1, i)
  {
    cleared := ClearedAt(sw, states, acts, i);
    ForcedState(sw, states, acts, cleared, i);
    ControlLeaves(sw, states, acts, i);
    RunInv(sw, states, acts, i);
    assert StepAt(sw, states, acts, i);
  }
}
