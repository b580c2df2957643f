/** Steps of a run and what they leave in the history: who claimed the slot, published a
    configuration or a generation, reset the counters, and when an observer loaded what. */
module SlotTraces {
  import opened Wire
  import opened SlotMachine
  import opened SlotInvariant
  import opened SlotObservers

  // ------------------------------------------------------------------------- steps

  /** The claim of Attach succeeds in this step. */
  predicate WinsClaim(s: Sys, a: Action) {
    a.Claim? && s.port.slot.innerIP == FREE
  }

  predicate AttachAt(s: Sys, a: Action, pc: AttachPc) {
    a.OpStep? && a.pid in s.ops && s.ops[a.pid].Attach? && s.ops[a.pid].apc == pc
  }

  /** An Attach stores its generation. */
  predicate PublishesGeneration(s: Sys, a: Action) {
    AttachAt(s, a, APubGen)
  }

  /** An Attach installs a new counter instance. */
  predicate ResetsCounters(s: Sys, a: Action) {
    a.OpStep? && a.ok && a.pid in s.ops && s.ops[a.pid].Attach? && s.ops[a.pid].apc.AReset?
  }

  /** The step that publishes configuration c under a generation: the last store of an
      Attach that asked for both, or of a SetPortUp for the attachment of that generation. */
  predicate Publishes(s: Sys, a: Action, c: Config, generation: nat) {
    && a.OpStep? && a.pid in s.ops
    && (|| (s.ops[a.pid].Attach? && s.ops[a.pid].apc.AUp? && !s.ops[a.pid].adminDown
            && s.ops[a.pid].c == c && s.ops[a.pid].generation == generation)
        || (s.ops[a.pid].Commit? && s.ops[a.pid].cpc.CUp? && s.ops[a.pid].c == c && s.port.attGen == generation))
  }

  predicate OpReleases(m: Port, op: Op) {
    || (op.Attach? && op.apc.ARollback? && m.slot.innerIP == op.c.ip)
    || (op.Detach? && op.dpc.DRelease? && m.slot.innerIP == op.cur)
  }

  /** The owner gives the slot back: an Attach that rolls back, or a Detach. */
  predicate Releases(s: Sys, a: Action) {
    a.OpStep? && a.pid in s.ops && OpReleases(s.port, s.ops[a.pid])
  }

  predicate CtlTakes(m: Port, ctl: Ctl) {
    (ctl.ForceCas? || ctl.TakeCas?) && IsAllocated(ctl.cur) && m.slot.innerIP == ctl.cur
  }

  /** The holder of the control lock makes an attached slot Reserved. */
  predicate TakesOver(s: Sys, a: Action) {
    a.ControlStep? && CtlTakes(s.port, s.ctl)
  }

  /** The attachment ends. */
  predicate Ends(s: Sys, a: Action) {
    Releases(s, a) || TakesOver(s, a)
  }

  /** A Detach takes the port down. */
  predicate Revokes(s: Sys, a: Action) {
    a.OpStep? && a.pid in s.ops && s.ops[a.pid].Detach? && s.ops[a.pid].dpc.DRevoke?
  }

  lemma {:induction false} OpHistory(m: Port, op: Op, ok: bool)
    ensures var n := OpNext(m, op, ok).port;
            && n.att == m.att && n.attGen == m.attGen
            && n.genBy == (if op.Attach? && op.apc.APubGen? then m.att else m.genBy)
  {
    match op
    case Attach(_, _, _, pc) =>
    case PortUp(_, _, _) =>
    case Commit(_, _, _) =>
    case Detach(_, _) =>
  }

  /** Only a winning claim moves att and attGen, only a generation store moves genBy. */
  lemma {:induction false} StepHistory(sw: SwitchConfig, s: Sys, a: Action)
    requires Enabled(sw, s, a)
    ensures var m, n := s.port, Next(sw, s, a).port;
            && n.att == (if WinsClaim(s, a) then m.att + 1 else m.att)
            && n.attGen == (if WinsClaim(s, a) then a.generation else m.attGen)
            && n.genBy == (if PublishesGeneration(s, a) then m.att else m.genBy)
  {
    if a.OpStep? {
      OpHistory(s.port, s.ops[a.pid], a.ok);
    }
  }

  lemma {:induction false} OpResets(sw: SwitchConfig, m: Port, ctl: Ctl, op: Op, ok: bool)
    requires SoloInv(sw, m, ctl, Some(op))
    ensures var n := OpNext(m, op, ok).port;
            if op.Attach? && op.apc.AReset? && ok then n.ctr == Counters(m.ctr.gen + 1, ZERO, ZERO) && n.ctrOwner == m.att
            else n.ctr == m.ctr && n.ctrOwner == m.ctrOwner
  {
    match op
    case Attach(_, _, _, pc) =>
    case PortUp(_, _, _) =>
    case Commit(_, _, _) =>
    case Detach(_, _) =>
  }

  /** A reset raises the counter generation by one, zeroes the counters and makes the
      attachment that runs it their owner; no other step changes generation or owner. */
  lemma {:induction false} StepResets(sw: SwitchConfig, s: Sys, a: Action)
    requires CoreInv(sw, s) && Enabled(sw, s, a)
    ensures var m, n := s.port, Next(sw, s, a).port;
            if ResetsCounters(s, a) then n.ctr == Counters(m.ctr.gen + 1, ZERO, ZERO) && n.ctrOwner == m.att
            else n.ctr.gen == m.ctr.gen && n.ctrOwner == m.ctrOwner
  {
    if a.OpStep? {
      CurrentIs(s.ops, a.pid);
      OpResets(sw, s.port, s.ctl, s.ops[a.pid], a.ok);
    }
  }

  lemma {:induction false} RunResets(sw: SwitchConfig, states: seq<Sys>, acts: seq<Action>, i: nat)
    requires IsRun(sw, states, acts) && i < |acts|
    ensures var m, n := states[i].port, states[i + 1].port;
            if ResetsCounters(states[i], acts[i]) then n.ctr == Counters(m.ctr.gen + 1, ZERO, ZERO) && n.ctrOwner == m.att
            else n.ctr.gen == m.ctr.gen && n.ctrOwner == m.ctrOwner
  {
    assert StepAt(sw, states, acts, i);
    RunInv(sw, states, acts, i);
    StepResets(sw, states[i], acts[i]);
  }

  // --------------------------------------------------------------- ends of attachments

  lemma {:induction false} AttachEnds(sw: SwitchConfig, m: Port, op: Op, ok: bool)
    requires op.Attach? && OpInv(sw, m, op)
    ensures var n := AttachNext(m, op, ok).port;
            if OpReleases(m, op) then IsAllocated(m.slot.innerIP) && n.slot.innerIP == FREE && n.epoch == m.epoch + 1
            else n.slot.innerIP == m.slot.innerIP && n.epoch == m.epoch
  {
    match op.apc
    case AClaimed | AReady | AFlags | AGen | AHint =>
    case ATransit(_) | AOpts(_) =>
    case AKind | APrepare | ARecheck | ARollback =>
    case APubHint | APubGen | AStats | AReset(_) | AConfirm | AUp =>
  }

  lemma {:induction false} CommitEnds(sw: SwitchConfig, m: Port, op: Op, ok: bool)
    requires op.Commit? && OpInv(sw, m, op)
    ensures var n := CommitNext(m, op, ok).port;
            n.epoch == m.epoch && (IsAllocated(n.slot.innerIP) <==> IsAllocated(m.slot.innerIP))
  {
    match op.cpc
    case COpts(_) | CTransit(_) =>
    case CRecheck | CRecheck2 | CHint | CCas | CConfirm | CUp =>
  }

  lemma {:induction false} DetachEnds(m: Port, op: Op, ok: bool)
    requires op.Detach? && IsAllocated(op.cur)
    ensures var n := DetachNext(m, op, ok).port;
            && n.epoch == m.epoch + (if OpReleases(m, op) || op.dpc.DRevoke? then 1 else 0)
            && (if OpReleases(m, op) then IsAllocated(m.slot.innerIP) && n.slot.innerIP == FREE
                else n.slot.innerIP == m.slot.innerIP)
  {
    match op.dpc
    case DDevice | DRecheck | DRevoke | DHint | DRelease | DReload =>
  }

  lemma {:induction false} OpEnds(sw: SwitchConfig, m: Port, op: Op, ok: bool)
    requires OpInv(sw, m, op)
    ensures var n := OpNext(m, op, ok).port;
            && n.epoch == m.epoch + (if OpReleases(m, op) || (op.Detach? && op.dpc.DRevoke?) then 1 else 0)
            && (OpReleases(m, op) ==> IsAllocated(m.slot.innerIP) && n.slot.innerIP == FREE)
            && (!OpReleases(m, op) ==> (IsAllocated(m.slot.innerIP) <==> IsAllocated(n.slot.innerIP)))
  {
    match op
    case Attach(_, _, _, _) => AttachEnds(sw, m, op, ok);
    case PortUp(_, _, _) =>
    case Commit(_, _, _) => CommitEnds(sw, m, op, ok);
    case Detach(_, _) => DetachEnds(m, op, ok);
  }

  lemma {:induction false} ControlEnds(m: Port, ctl: Ctl)
    ensures var n := ControlNext(m, ctl).port;
            && n.epoch == m.epoch + (if CtlTakes(m, ctl) then 1 else 0)
            && (CtlTakes(m, ctl) ==> n.slot.innerIP == RESERVED)
            && (!CtlTakes(m, ctl) ==> (IsAllocated(m.slot.innerIP) <==> IsAllocated(n.slot.innerIP)))
  {
  }

  /** An attachment ends by a release, which leaves the slot Free, or by a takeover, which
      leaves it Reserved; it begins by a winning claim, and the epoch counts ends and
      revocations. */
  lemma {:induction false} StepEnds(sw: SwitchConfig, s: Sys, a: Action)
    requires CoreInv(sw, s) && Enabled(sw, s, a)
    ensures var ip, ip' := s.port.slot.innerIP, Next(sw, s, a).port.slot.innerIP;
            && (Releases(s, a) ==> IsAllocated(ip) && ip' == FREE)
            && (TakesOver(s, a) ==> IsAllocated(ip) && ip' == RESERVED)
            && (WinsClaim(s, a) ==> ip == FREE && IsAllocated(ip'))
            && (!Ends(s, a) && !WinsClaim(s, a) ==> (IsAllocated(ip) <==> IsAllocated(ip')))
    ensures Next(sw, s, a).port.epoch == s.port.epoch + if Ends(s, a) || Revokes(s, a) then 1 else 0
  {
    if a.OpStep? {
      CurrentIs(s.ops, a.pid);
      OpEnds(sw, s.port, s.ops[a.pid], a.ok);
    } else if a.ControlStep? {
      ControlEnds(s.port, s.ctl);
    } else if a.Claim? {
      ValidatedWellFormed(sw, a.r);
    }
  }

  // ------------------------------------------------------------------ along a run

  /** No claim is won in the steps from i up to, but not including, j. */
  ghost predicate NoClaim(states: seq<Sys>, acts: seq<Action>, i: nat, j: nat)
    requires j <= |acts| <= |states|
  {
    forall k :: i <= k < j ==> !WinsClaim(states[k], acts[k])
  }

  ghost predicate NoGeneration(states: seq<Sys>, acts: seq<Action>, i: nat, j: nat)
    requires j <= |acts| <= |states|
  {
    forall k :: i <= k < j ==> !PublishesGeneration(states[k], acts[k])
  }

  ghost predicate NoEnd(states: seq<Sys>, acts: seq<Action>, i: nat, j: nat)
    requires j <= |acts| <= |states|
  {
    forall k :: i <= k < j ==> !Ends(states[k], acts[k])
  }

  /** Neither a revocation nor the end of an attachment in the steps from i to j. */
  ghost predicate Undisturbed(states: seq<Sys>, acts: seq<Action>, i: nat, j: nat)
    requires j <= |acts| <= |states|
  {
    forall k :: i <= k < j ==> !Ends(states[k], acts[k]) && !Revokes(states[k], acts[k])
  }

  ghost predicate NoReset(states: seq<Sys>, acts: seq<Action>, i: nat, j: nat)
    requires j <= |acts| <= |states|
  {
    forall k :: i <= k < j ==> !ResetsCounters(states[k], acts[k])
  }

  /** Claims are numbered in order: the number stays exactly as long as none is won. */
  lemma {:induction false} ClaimsCount(sw: SwitchConfig, states: seq<Sys>, acts: seq<Action>, i: nat, j: nat)
    requires IsRun(sw, states, acts) && i <= j < |states|
    ensures states[i].port.att <= states[j].port.att
    ensures states[i].port.att == states[j].port.att <==> NoClaim(states, acts, i, j)
    ensures states[i].port.att == states[j].port.att ==> states[i].port.attGen == states[j].port.attGen
  {
    if i < j {
      ClaimsCount(sw, states, acts, i, j - 1);
      assert StepAt(sw, states, acts, j - 1);
      StepHistory(sw, states[j - 1], acts[j - 1]);
      assert NoClaim(states, acts, i, j) <==> NoClaim(states, acts, i, j - 1) && !WinsClaim(states[j - 1], acts[j - 1]);
    }
  }

  lemma {:induction false} RunEnds(sw: SwitchConfig, states: seq<Sys>, acts: seq<Action>, i: nat)
    requires IsRun(sw, states, acts) && i < |acts|
    ensures var ip, ip' := states[i].port.slot.innerIP, states[i + 1].port.slot.innerIP;
            && (Releases(states[i], acts[i]) ==> IsAllocated(ip) && ip' == FREE)
            && (TakesOver(states[i], acts[i]) ==> IsAllocated(ip) && ip' == RESERVED)
            && (WinsClaim(states[i], acts[i]) ==> ip == FREE && IsAllocated(ip'))
            && (!Ends(states[i], acts[i]) && !WinsClaim(states[i], acts[i]) ==> (IsAllocated(ip) <==> IsAllocated(ip')))
    ensures states[i + 1].port.epoch ==
            states[i].port.epoch + if Ends(states[i], acts[i]) || Revokes(states[i], acts[i]) then 1 else 0
  {
    assert StepAt(sw, states, acts, i);
    RunInv(sw, states, acts, i);
    StepEnds(sw, states[i], acts[i]);
  }

  /** An attached slot stays with its attachment exactly as long as that one neither is
      released nor taken over. */
  lemma {:induction false} StaysAttached(sw: SwitchConfig, states: seq<Sys>, acts: seq<Action>, i: nat, j: nat)
    requires IsRun(sw, states, acts) && i <= j < |states| && IsAllocated(states[i].port.slot.innerIP)
    ensures IsAllocated(states[j].port.slot.innerIP) && NoClaim(states, acts, i, j) <==> NoEnd(states, acts, i, j)
  {
    if i < j {
      StaysAttached(sw, states, acts, i, j - 1);
      RunEnds(sw, states, acts, j - 1);
      assert NoClaim(states, acts, i, j) <==> NoClaim(states, acts, i, j - 1) && !WinsClaim(states[j - 1], acts[j - 1]);
      assert NoEnd(states, acts, i, j) <==> NoEnd(states, acts, i, j - 1) && !Ends(states[j - 1], acts[j - 1]);
    }
  }

  /** The epoch stays exactly as long as nothing is revoked, released or taken over. */
  lemma {:induction false} EpochCounts(sw: SwitchConfig, states: seq<Sys>, acts: seq<Action>, i: nat, j: nat)
    requires IsRun(sw, states, acts) && i <= j < |states|
    ensures states[i].port.epoch <= states[j].port.epoch
    ensures states[i].port.epoch == states[j].port.epoch <==> Undisturbed(states, acts, i, j)
  {
    if i < j {
      EpochCounts(sw, states, acts, i, j - 1);
      RunEnds(sw, states, acts, j - 1);
      assert Undisturbed(states, acts, i, j) <==>
             Undisturbed(states, acts, i, j - 1) && !Ends(states[j - 1], acts[j - 1]) && !Revokes(states[j - 1], acts[j - 1]);
    }
  }

  /** Counter generations never go back, and they grow exactly where a reset happens; between
      two resets the owner of the counters is the same. */
  lemma {:induction false} GenerationsGrow(sw: SwitchConfig, states: seq<Sys>, acts: seq<Action>, i: nat, j: nat)
    requires IsRun(sw, states, acts) && i <= j < |states|
    ensures states[i].port.ctr.gen <= states[j].port.ctr.gen
    ensures states[i].port.ctr.gen == states[j].port.ctr.gen <==> NoReset(states, acts, i, j)
    ensures states[i].port.ctr.gen == states[j].port.ctr.gen ==> states[i].port.ctrOwner == states[j].port.ctrOwner
  {
    if i < j {
      GenerationsGrow(sw, states, acts, i, j - 1);
      RunResets(sw, states, acts, j - 1);
      assert NoReset(states, acts, i, j) <==> NoReset(states, acts, i, j - 1) && !ResetsCounters(states[j - 1], acts[j - 1]);
    }
  }

  /** A counter generation other than the initial one was installed by a reset, and belongs
      to the attachment that ran it. */
  lemma {:induction false} ResetOf(sw: SwitchConfig, states: seq<Sys>, acts: seq<Action>, i: nat) returns (k: nat)
    requires IsRun(sw, states, acts) && i < |states| && states[i].port.ctr.gen > 0
    ensures k < i && ResetsCounters(states[k], acts[k])
    ensures states[k + 1].port.ctr.gen == states[i].port.ctr.gen && states[k].port.att == states[i].port.ctrOwner
  {
    RunResets(sw, states, acts, i - 1);
    if ResetsCounters(states[i - 1], acts[i - 1]) {
      k := i - 1;
    } else {
      k := ResetOf(sw, states, acts, i - 1);
    }
  }

  // ------------------------------------------------------------------- publication

  lemma {:induction false} AttachUp(m: Port, op: Op, ok: bool)
    requires op.Attach? && AttachNext(m, op, ok).port.slot.flags == 1
    ensures var n := AttachNext(m, op, ok).port;
            || (m.slot.flags == 1 && n.pub == m.pub && n.pubGen == m.pubGen)
            || (op.apc.AUp? && !op.adminDown && n.pub == op.c && n.pubGen == op.generation)
  {
    match op.apc
    case AClaimed | AReady | AFlags | AGen | AHint =>
    case ATransit(_) | AOpts(_) =>
    case AKind | APrepare | ARecheck | ARollback =>
    case APubHint | APubGen | AStats | AReset(_) | AConfirm | AUp =>
  }

  lemma {:induction false} CommitUp(m: Port, op: Op, ok: bool)
    requires op.Commit? && CommitNext(m, op, ok).port.slot.flags == 1
    ensures var n := CommitNext(m, op, ok).port;
            || (m.slot.flags == 1 && n.pub == m.pub && n.pubGen == m.pubGen)
            || (op.cpc.CUp? && n.pub == op.c && n.pubGen == m.attGen)
  {
    match op.cpc
    case COpts(_) | CTransit(_) =>
    case CRecheck | CRecheck2 | CHint | CCas | CConfirm | CUp =>
  }

  lemma {:induction false} OpUp(m: Port, op: Op, ok: bool)
    requires OpNext(m, op, ok).port.slot.flags == 1
    ensures var n := OpNext(m, op, ok).port;
            || (m.slot.flags == 1 && n.pub == m.pub && n.pubGen == m.pubGen)
            || (op.Attach? && op.apc.AUp? && !op.adminDown && n.pub == op.c && n.pubGen == op.generation)
            || (op.Commit? && op.cpc.CUp? && n.pub == op.c && n.pubGen == m.attGen)
  {
    match op
    case Attach(_, _, _, _) => AttachUp(m, op, ok);
    case PortUp(_, _, _) =>
    case Commit(_, _, _) => CommitUp(m, op, ok);
    case Detach(_, _) =>
  }

  lemma {:induction false} StepUp(sw: SwitchConfig, s: Sys, a: Action)
    requires Enabled(sw, s, a) && Next(sw, s, a).port.slot.flags == 1
    ensures var m, n := s.port, Next(sw, s, a).port;
            (m.slot.flags == 1 && n.pub == m.pub && n.pubGen == m.pubGen) || Publishes(s, a, n.pub, n.pubGen)
  {
    if a.OpStep? {
      OpUp(s.port, s.ops[a.pid], a.ok);
    }
  }

  ghost predicate UpFrom(states: seq<Sys>, i: nat, j: nat)
    requires j < |states|
  {
    forall k :: i <= k <= j ==> states[k].port.slot.flags == 1
  }

  /** An up port has been up ever since one call published the configuration and the
      generation that are in force. */
  lemma {:induction false} UpSincePublication(sw: SwitchConfig, states: seq<Sys>, acts: seq<Action>, i: nat) returns (k: nat)
    requires IsRun(sw, states, acts) && i < |states| && states[i].port.slot.flags == 1
    ensures k < i && Publishes(states[k], acts[k], states[i].port.pub, states[i].port.pubGen) && UpFrom(states, k + 1, i)
  {
    assert StepAt(sw, states, acts, i - 1);
    StepUp(sw, states[i - 1], acts[i - 1]);
    var m := states[i - 1].port;
    if m.slot.flags == 1 && states[i].port.pub == m.pub && states[i].port.pubGen == m.pubGen {
      k := UpSincePublication(sw, states, acts, i - 1);
    } else {
      k := i - 1;
    }
  }

  // --------------------------------------------------------------------- requests

  /** The configuration an operation works towards. */
  function Goal(op: Op): Option<Config> {
    match op
    case Attach(c, _, _, _) => Some(c)
    case PortUp(want, _, _) => want
    case Commit(c, _, _) => Some(c)
    case Detach(_, _) => None
  }

  /** A call starts with this request. */
  predicate Starts(sw: SwitchConfig, a: Action, pid: nat, c: Config) {
    (a.Claim? || a.StartPortUp?) && a.pid == pid && Validate(sw, a.r) == Some(c)
  }

  lemma {:induction false} OpGoal(m: Port, op: Op, ok: bool)
    requires OpNext(m, op, ok).op.Some?
    ensures Goal(OpNext(m, op, ok).op.value) == Goal(op)
  {
    match op
    case Attach(_, _, _, pc) =>
    case PortUp(_, _, _) =>
    case Commit(_, _, _) =>
    case Detach(_, _) =>
  }

  lemma {:induction false} StepGoal(sw: SwitchConfig, s: Sys, a: Action, pid: nat)
    requires Enabled(sw, s, a) && pid in Next(sw, s, a).ops && Goal(Next(sw, s, a).ops[pid]).Some?
    ensures var c := Goal(Next(sw, s, a).ops[pid]).value;
            Starts(sw, a, pid, c) || (pid in s.ops && Goal(s.ops[pid]) == Some(c))
  {
    if a.OpStep? && a.pid == pid {
      OpGoal(s.port, s.ops[pid], a.ok);
    }
  }

  /** What an operation works towards is what its call was started with. */
  lemma {:induction false} RequestOf(sw: SwitchConfig, states: seq<Sys>, acts: seq<Action>, i: nat, pid: nat) returns (k: nat)
    requires IsRun(sw, states, acts) && i < |states| && pid in states[i].ops && Goal(states[i].ops[pid]).Some?
    ensures k < i && Starts(sw, acts[k], pid, Goal(states[i].ops[pid]).value)
  {
    assert StepAt(sw, states, acts, i - 1);
    StepGoal(sw, states[i - 1], acts[i - 1], pid);
    if Starts(sw, acts[i - 1], pid, Goal(states[i].ops[pid]).value) {
      k := i - 1;
    } else {
      k := RequestOf(sw, states, acts, i - 1, pid);
    }
  }

  // ------------------------------------------------------------- checks of operations

  /** How many of its checks an operation has behind it. */
  function Level(op: Op): nat {
    match op
    case Attach(_, _, _, pc) =>
      if pc.AOpts? || pc.APrepare? || pc.ARecheck? then 1 else if pc.APubHint? || pc.APubGen? || Published(pc) then 2 else 0
    case PortUp(_, _, _) => 0
    case Commit(_, _, pc) =>
      if pc.CRecheck? then 0 else if pc.COpts? || pc.CRecheck2? then 1 else if pc.CConfirm? then 3 else if pc.CUp? then 4 else 2
    case Detach(_, pc) => if pc.DDevice? || pc.DRecheck? then 0 else 1
  }

  /** The n-th check of an operation, passed: Attach looks for the device of a tap port and,
      once prepared, at the slot; SetPortUp looks at the slot before and after it writes the
      options, swaps the address, and looks again; Detach looks before it revokes. */
  predicate ChecksPass(m: Port, op: Op, n: nat) {
    match op
    case Attach(c, _, _, pc) =>
      || (n == 1 && pc.AKind? && (m.slot.tap ==> m.slot.ifindex != 0))
      || (n == 2 && pc.ARecheck? && m.slot.innerIP == c.ip)
    case PortUp(_, _, _) => false
    case Commit(c, cur, pc) =>
      || (n == 1 && pc.CRecheck? && m.slot.innerIP == cur)
      || (n == 2 && pc.CRecheck2? && m.slot.innerIP == cur)
      || (n == 3 && pc.CCas? && m.slot.innerIP == cur)
      || (n == 4 && pc.CConfirm? && m.slot.innerIP == c.ip)
    case Detach(cur, pc) => n == 1 && pc.DRecheck? && m.slot.innerIP == cur
  }

  /** The same call, further on. */
  predicate SameCall(op: Op, op': Op) {
    match op
    case Attach(_, _, _, _) => op'.Attach? && op' == op.(apc := op'.apc)
    case PortUp(_, _, _) => false
    case Commit(_, _, _) => op'.Commit? && op' == op.(cpc := op'.cpc)
    case Detach(_, _) => op'.Detach? && op' == op.(dpc := op'.dpc)
  }

  lemma {:induction false} OpLevel(m: Port, op: Op, ok: bool, n: nat)
    requires n > 0 && OpNext(m, op, ok).op.Some? && Level(OpNext(m, op, ok).op.value) >= n
    ensures SameCall(op, OpNext(m, op, ok).op.value)
    ensures Level(op) >= n || ChecksPass(m, op, n)
  {
    match op
    case Attach(_, _, _, pc) =>
    case PortUp(_, _, _) =>
    case Commit(_, _, _) =>
    case Detach(_, _) =>
  }

  lemma {:induction false} OpFrom(sw: SwitchConfig, s: Sys, a: Action, pid: nat)
    requires Enabled(sw, s, a) && pid in Next(sw, s, a).ops && Level(Next(sw, s, a).ops[pid]) > 0
    ensures var op := Next(sw, s, a).ops[pid];
            || (pid in s.ops && s.ops[pid] == op)
            || (a.OpStep? && a.pid == pid && pid in s.ops && OpNext(s.port, s.ops[pid], a.ok).op == Some(op))
  {
  }

  /** The step in which the call passed its n-th check. */
  lemma {:induction false} PassedCheck(sw: SwitchConfig, states: seq<Sys>, acts: seq<Action>, i: nat, pid: nat, n: nat)
    returns (k: nat)
    requires IsRun(sw, states, acts) && i < |states| && pid in states[i].ops && 0 < n <= Level(states[i].ops[pid])
    ensures k < i && acts[k].OpStep? && acts[k].pid == pid && pid in states[k].ops
    ensures ChecksPass(states[k].port, states[k].ops[pid], n) && SameCall(states[k].ops[pid], states[i].ops[pid])
  {
    assert StepAt(sw, states, acts, i - 1);
    OpFrom(sw, states[i - 1], acts[i - 1], pid);
    var op, op' := states[i - 1].ops[pid], states[i].ops[pid];
    if op != op' {
      OpLevel(states[i - 1].port, op, acts[i - 1].ok, n);
    }
    if Level(op) >= n {
      k := PassedCheck(sw, states, acts, i - 1, pid, n);
    } else {
      k := i - 1;
    }
  }

  // ------------------------------------------------------------- loads of observers

  /** A packet program loads the up bit and goes on. */
  predicate PassesGate(s: Sys, a: Action, pid: nat) {
    && a.PacketStep? && a.pid == pid && pid in s.packets
    && s.packets[pid].pc.PToken? && s.port.slot.flags == 1
  }

  /** A management reply loads the generation it names. */
  predicate ChecksGeneration(s: Sys, a: Action, pid: nat) {
    && a.PacketStep? && a.pid == pid && pid in s.packets && s.packets[pid].kind.Mx?
    && s.packets[pid].pc.PGen? && s.port.slot.generation == s.packets[pid].want
  }

  /** A packet program sees the slot attached and goes on. */
  predicate ChecksState(s: Sys, a: Action, pid: nat) {
    && a.PacketStep? && a.pid == pid && pid in s.packets
    && s.packets[pid].pc.PInner? && IsAllocated(s.port.slot.innerIP)
  }

  /** A packet program makes a load after the gate. */
  predicate LoadsPublished(s: Sys, a: Action, pid: nat) {
    a.PacketStep? && a.pid == pid && pid in s.packets && s.packets[pid].pc.PRead?
  }

  predicate PastState(p: Packet) {
    p.pc.PIfindex? || p.pc.PToken? || PastGate(p)
  }

  predicate PastGate(p: Packet) {
    p.pc.PRead? || p.pc.PForward?
  }

  predicate PastCheck(p: Packet) {
    p.kind.Mx? && !p.pc.PStats? && !p.pc.PGen?
  }

  lemma {:induction false} PacketFrom(sw: SwitchConfig, s: Sys, a: Action, pid: nat)
    requires Enabled(sw, s, a) && pid in Next(sw, s, a).packets
    ensures var p := Next(sw, s, a).packets[pid];
            || (pid in s.packets && p == s.packets[pid])
            || (a.Arrive? && a.pid == pid && p.pc.PStats?)
            || (a.PacketStep? && a.pid == pid && pid in s.packets && PacketNext(sw, s.port, s.packets[pid], a.ok) == Some(p))
  {
  }

  lemma {:induction false} GateStep(sw: SwitchConfig, m: Port, p: Packet, ok: bool)
    requires PacketNext(sw, m, p, ok).Some?
    ensures var q := PacketNext(sw, m, p, ok).value;
            && q.kind == p.kind && q.want == p.want
            && (PastGate(q) ==>
                  || (PastGate(p) && q.pub == p.pub && q.pubGen == p.pubGen)
                  || (p.pc.PToken? && m.slot.flags == 1 && q.pub == m.pub && q.pubGen == m.pubGen))
            && (PastCheck(q) ==> PastCheck(p) || (p.kind.Mx? && p.pc.PGen? && m.slot.generation == p.want))
            && (PastState(q) ==> PastState(p) || (p.pc.PInner? && IsAllocated(m.slot.innerIP)))
            && (PastGate(p) ==> PastGate(q)) && (PastCheck(p) ==> PastCheck(q)) && (PastState(p) ==> PastState(q))
  {
    match p.pc
    case PStats =>
    case PGen =>
    case PInner =>
    case PIfindex =>
    case PToken =>
    case PRead =>
  }

  /** The same packet is under way, past the gate, in all the states from i to j. */
  ghost predicate StaysPastGate(states: seq<Sys>, pid: nat, i: nat, j: nat)
    requires j < |states|
  {
    forall k :: i <= k <= j ==> pid in states[k].packets && PastGate(states[k].packets[pid])
  }

  ghost predicate StaysPastCheck(states: seq<Sys>, pid: nat, i: nat, j: nat)
    requires j < |states|
  {
    forall k :: i <= k <= j ==> pid in states[k].packets && PastCheck(states[k].packets[pid])
  }

  /** The step in which a packet passed the gate; the configuration it works from was the
      one in force in that step. */
  lemma {:induction false} GateOf(sw: SwitchConfig, states: seq<Sys>, acts: seq<Action>, i: nat, pid: nat) returns (g: nat)
    requires IsRun(sw, states, acts) && i < |states| && pid in states[i].packets && PastGate(states[i].packets[pid])
    ensures g < i && PassesGate(states[g], acts[g], pid) && StaysPastGate(states, pid, g + 1, i)
    ensures states[g].packets[pid].kind == states[i].packets[pid].kind
    ensures states[g].port.pub == states[i].packets[pid].pub && states[g].port.pubGen == states[i].packets[pid].pubGen
  {
    assert StepAt(sw, states, acts, i - 1);
    PacketFrom(sw, states[i - 1], acts[i - 1], pid);
    var s, p := states[i - 1], states[i].packets[pid];
    if p != s.packets[pid] {
      GateStep(sw, s.port, s.packets[pid], acts[i - 1].ok);
    }
    if PastGate(s.packets[pid]) {
      g := GateOf(sw, states, acts, i - 1, pid);
    } else {
      g := i - 1;
    }
  }

  /** The step in which a reply checked its generation. */
  lemma {:induction false} CheckOf(sw: SwitchConfig, states: seq<Sys>, acts: seq<Action>, i: nat, pid: nat) returns (c: nat)
    requires IsRun(sw, states, acts) && i < |states| && pid in states[i].packets && PastCheck(states[i].packets[pid])
    ensures c < i && ChecksGeneration(states[c], acts[c], pid) && StaysPastCheck(states, pid, c + 1, i)
    ensures states[c].port.slot.generation == states[i].packets[pid].want
  {
    assert StepAt(sw, states, acts, i - 1);
    PacketFrom(sw, states[i - 1], acts[i - 1], pid);
    var s, p := states[i - 1], states[i].packets[pid];
    if p != s.packets[pid] {
      GateStep(sw, s.port, s.packets[pid], acts[i - 1].ok);
    }
    if PastCheck(s.packets[pid]) {
      c := CheckOf(sw, states, acts, i - 1, pid);
    } else {
      c := i - 1;
    }
  }

  ghost predicate StaysPastState(states: seq<Sys>, pid: nat, i: nat, j: nat)
    requires j < |states|
  {
    forall k :: i <= k <= j ==> pid in states[k].packets && PastState(states[k].packets[pid])
  }

  /** The step in which a packet program saw the slot attached. */
  lemma {:induction false} StateCheckOf(sw: SwitchConfig, states: seq<Sys>, acts: seq<Action>, i: nat, pid: nat) returns (c: nat)
    requires IsRun(sw, states, acts) && i < |states| && pid in states[i].packets && PastState(states[i].packets[pid])
    ensures c < i && ChecksState(states[c], acts[c], pid) && StaysPastState(states, pid, c + 1, i)
  {
    assert StepAt(sw, states, acts, i - 1);
    PacketFrom(sw, states[i - 1], acts[i - 1], pid);
    var s, p := states[i - 1], states[i].packets[pid];
    if p != s.packets[pid] {
      GateStep(sw, s.port, s.packets[pid], acts[i - 1].ok);
    }
    if PastState(s.packets[pid]) {
      c := StateCheckOf(sw, states, acts, i - 1, pid);
    } else {
      c := i - 1;
    }
  }

  /** A packet program finds the port's device. */
  predicate FindsDevice(s: Sys, a: Action, pid: nat) {
    && a.PacketStep? && a.pid == pid && pid in s.packets
    && s.packets[pid].pc.PIfindex? && s.port.slot.ifindex != 0
  }

  /** The step in which a reply or a returned packet found the device it is delivered to. */
  lemma {:induction false} DeviceOf(sw: SwitchConfig, states: seq<Sys>, acts: seq<Action>, i: nat, pid: nat) returns (d: nat)
    requires IsRun(sw, states, acts) && i < |states| && pid in states[i].packets
    requires states[i].packets[pid].kind.Mx? || states[i].packets[pid].kind.Return?
    requires states[i].packets[pid].pc.PToken? || PastGate(states[i].packets[pid])
    ensures d < i && FindsDevice(states[d], acts[d], pid)
  {
    assert StepAt(sw, states, acts, i - 1);
    PacketFrom(sw, states[i - 1], acts[i - 1], pid);
    var s, p := states[i - 1], states[i].packets[pid];
    if p != s.packets[pid] {
      DeviceStep(sw, s.port, s.packets[pid], acts[i - 1].ok);
    }
    if s.packets[pid].pc.PToken? || PastGate(s.packets[pid]) {
      d := DeviceOf(sw, states, acts, i - 1, pid);
    } else {
      d := i - 1;
    }
  }

  lemma {:induction false} DeviceStep(sw: SwitchConfig, m: Port, p: Packet, ok: bool)
    requires PacketNext(sw, m, p, ok).Some? && (p.kind.Mx? || p.kind.Return?)
    ensures var q := PacketNext(sw, m, p, ok).value;
            && q.kind == p.kind
            && (q.pc.PToken? || PastGate(q) ==> p.pc.PToken? || PastGate(p) || (p.pc.PIfindex? && m.slot.ifindex != 0))
  {
    match p.pc
    case PStats =>
    case PGen =>
    case PInner =>
    case PIfindex =>
    case PToken =>
    case PRead =>
  }

  ghost predicate StaysAs(states: seq<Sys>, pid: nat, p: Packet, i: nat, j: nat)
    requires j < |states|
  {
    forall k :: i <= k <= j ==> pid in states[k].packets && states[k].packets[pid] == p
  }

  /** The last load of a packet program that is ready to forward. */
  lemma {:induction false} LastLoadOf(sw: SwitchConfig, states: seq<Sys>, acts: seq<Action>, i: nat, pid: nat) returns (l: nat)
    requires IsRun(sw, states, acts) && i < |states| && pid in states[i].packets && states[i].packets[pid].pc.PForward?
    ensures l < i && LoadsPublished(states[l], acts[l], pid) && StaysAs(states, pid, states[i].packets[pid], l + 1, i)
    ensures states[l].packets[pid].kind == states[i].packets[pid].kind
    ensures states[i].packets[pid].obs == Observe(states[l].port, states[l].packets[pid])
    ensures states[i].packets[pid].lastEpoch == states[l].port.epoch && acts[l].ok
  {
    assert StepAt(sw, states, acts, i - 1);
    PacketFrom(sw, states[i - 1], acts[i - 1], pid);
    if states[i - 1].packets[pid] == states[i].packets[pid] {
      l := LastLoadOf(sw, states, acts, i - 1, pid);
    } else {
      l := i - 1;
    }
  }

  /** A reply makes one load after the gate. */
  lemma {:induction false} RepliesLoadOnce(sw: SwitchConfig, states: seq<Sys>, acts: seq<Action>, i: nat, pid: nat)
    requires IsRun(sw, states, acts) && i < |states| && pid in states[i].packets
    requires states[i].packets[pid].kind.Mx? && states[i].packets[pid].pc.PRead?
    ensures states[i].packets[pid].obs == []
  {
    assert StepAt(sw, states, acts, i - 1);
    PacketFrom(sw, states[i - 1], acts[i - 1], pid);
    if states[i - 1].packets[pid] == states[i].packets[pid] {
      RepliesLoadOnce(sw, states, acts, i - 1, pid);
    }
  }

  /** A packet program goes on loading exactly until its plan is complete. */
  lemma {:induction false} PlanIncomplete(sw: SwitchConfig, states: seq<Sys>, acts: seq<Action>, i: nat, pid: nat)
    requires IsRun(sw, states, acts) && i < |states| && pid in states[i].packets && states[i].packets[pid].pc.PRead?
    ensures |states[i].packets[pid].obs| < PlanLen(states[i].packets[pid].kind, states[i].packets[pid].obs)
  {
    assert StepAt(sw, states, acts, i - 1);
    PacketFrom(sw, states[i - 1], acts[i - 1], pid);
    if states[i - 1].packets[pid] == states[i].packets[pid] {
      PlanIncomplete(sw, states, acts, i - 1, pid);
    }
  }

  lemma {:induction false} PlanCompletes(m: Port, p: Packet)
    requires |p.obs| < PlanLen(p.kind, p.obs) && |Observe(m, p)| >= PlanLen(p.kind, Observe(m, p))
    ensures |Observe(m, p)| == PlanLen(p.kind, Observe(m, p))
  {
  }

  /** A packet that is ready to forward has completed its plan, and none of the
      encapsulator's own rejections applied to what it loaded. */
  lemma {:induction false} PlanComplete(sw: SwitchConfig, states: seq<Sys>, acts: seq<Action>, i: nat, pid: nat)
    requires IsRun(sw, states, acts) && i < |states| && pid in states[i].packets && states[i].packets[pid].pc.PForward?
    ensures var p := states[i].packets[pid]; |p.obs| == PlanLen(p.kind, p.obs) && !Defensive(sw, p.kind, p.obs)
  {
    var l := LastLoadOf(sw, states, acts, i, pid);
    assert StepAt(sw, states, acts, l);
    assert states[l + 1].packets[pid] == states[i].packets[pid];
    PlanIncomplete(sw, states, acts, l, pid);
    PlanCompletes(states[l].port, states[l].packets[pid]);
  }

  /** A packet program captures the counter generation. */
  predicate Captures(s: Sys, a: Action, pid: nat) {
    a.PacketStep? && a.pid == pid && pid in s.packets && s.packets[pid].pc.PStats?
  }

  /** The step in which a packet captured the counter generation it will count in. */
  lemma {:induction false} CaptureOf(sw: SwitchConfig, states: seq<Sys>, acts: seq<Action>, i: nat, pid: nat) returns (k: nat)
    requires IsRun(sw, states, acts) && i < |states| && pid in states[i].packets && !states[i].packets[pid].pc.PStats?
    ensures k < i && Captures(states[k], acts[k], pid) && states[i].packets[pid].cap == states[k].port.ctr.gen
    ensures states[i].packets[pid].kind == states[k].packets[pid].kind && states[i].packets[pid].len == states[k].packets[pid].len
  {
    assert StepAt(sw, states, acts, i - 1);
    PacketFrom(sw, states[i - 1], acts[i - 1], pid);
    var s, p := states[i - 1], states[i].packets[pid];
    if p != s.packets[pid] {
      CaptureStep(sw, s.port, s.packets[pid], acts[i - 1].ok);
    }
    if s.packets[pid].pc.PStats? {
      k := i - 1;
    } else {
      k := CaptureOf(sw, states, acts, i - 1, pid);
    }
  }

  lemma {:induction false} CaptureStep(sw: SwitchConfig, m: Port, p: Packet, ok: bool)
    requires PacketNext(sw, m, p, ok).Some?
    ensures var q := PacketNext(sw, m, p, ok).value;
            && q.kind == p.kind && q.len == p.len && !q.pc.PStats?
            && q.cap == if p.pc.PStats? then m.ctr.gen else p.cap
  {
    match p.pc
    case PStats =>
    case PGen =>
    case PInner =>
    case PIfindex =>
    case PToken =>
    case PRead =>
  }

  /** A Stats reader loads the generation. */
  predicate LoadsGeneration(s: Sys, a: Action, pid: nat) {
    a.StatsStep? && a.pid == pid && pid in s.readers && s.readers[pid].pc.RGen?
  }

  lemma {:induction false} ReaderFrom(sw: SwitchConfig, s: Sys, a: Action, pid: nat)
    requires Enabled(sw, s, a) && pid in Next(sw, s, a).readers
    ensures var r := Next(sw, s, a).readers[pid];
            || r == NEW_READER
            || (pid in s.readers && r == s.readers[pid])
            || (a.StatsStep? && a.pid == pid && pid in s.readers && ReaderNext(s.port, s.readers[pid]) == Some(r))
  {
  }

  /** The step in which a reader past it loaded the generation. */
  lemma {:induction false} LoadOf(sw: SwitchConfig, states: seq<Sys>, acts: seq<Action>, i: nat, pid: nat) returns (k: nat)
    requires IsRun(sw, states, acts) && i < |states| && pid in states[i].readers && Rank(states[i].readers[pid].pc) >= 5
    ensures k < i && LoadsGeneration(states[k], acts[k], pid)
    ensures states[i].readers[pid].gen == states[k].port.slot.generation && states[i].readers[pid].atGen == Now(states[k].port)
  {
    assert StepAt(sw, states, acts, i - 1);
    ReaderFrom(sw, states[i - 1], acts[i - 1], pid);
    if Rank(states[i - 1].readers[pid].pc) >= 5 {
      k := LoadOf(sw, states, acts, i - 1, pid);
    } else {
      k := i - 1;
    }
  }
}
