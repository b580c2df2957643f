/** The inductive invariant of the slot machine.

    SoloInv ties the shared memory to the program counters of the attachment
    operation in flight and of the control-lock holder. Evolves is what every step
    guarantees to everyone else; the assertions of packet programs (PacketInv) and
    Stats readers (ReaderInv) are stable under it. */
module SlotInvariant {
  import opened Wire
  import opened SlotMachine

  // ------------------------------------------------------------------ core invariant

  predicate Stored(c: Config, k: nat, j: nat) {
    if j < 2 || !c.macGiven then j < k else j + 6 < k
  }

  /** The first k transit stores have been made. */
  predicate TransitDone(transit: Transit, c: Config, k: nat) {
    forall j :: 0 <= j < TRANSIT_CELLS && Stored(c, k, j) ==> transit[j] == c.transit[j]
  }

  lemma {:induction false} TransitStep(transit: Transit, c: Config, k: nat)
    requires k < StoreCount(c) && TransitDone(transit, c, k)
    requires !c.macGiven ==> c.transit[2..] == NO_MAC
    ensures TransitDone(StoreTransit(transit, c, k), c, k + 1)
  {
    if !c.macGiven {
      forall j | 2 <= j < TRANSIT_CELLS ensures c.transit[j] == 0 {
        assert c.transit[2..][j - 2] == 0;
      }
    }
  }

  lemma {:induction false} TransitComplete(transit: Transit, c: Config, k: nat)
    requires k >= StoreCount(c) && TransitDone(transit, c, k)
    ensures transit == c.transit
  {
    assert forall j :: 0 <= j < TRANSIT_CELLS ==> Stored(c, k, j);
  }

  /** The first k cells of the options map have been written. */
  predicate OptsDone(opt: OptCells, image: OptCells, k: nat) {
    forall j :: 0 <= j < OPT_CELLS && j < k ==> opt[j] == image[j]
  }

  lemma {:induction false} OptsComplete(opt: OptCells, image: OptCells, k: nat)
    requires k >= OPT_CELLS && OptsDone(opt, image, k)
    ensures opt == image
  {
  }

  /** The slot and the options map hold exactly this configuration. */
  predicate Holds(hint: int, transit: Transit, opt: OptCells, c: Config) {
    hint == c.opts[0] && transit == c.transit && opt == c.opts
  }

  predicate AttachProgress(hint: int, transit: Transit, opt: OptCells, c: Config, pc: AttachPc) {
    match pc
    case AClaimed | AReady | AFlags | AGen | AHint => true
    case ATransit(k) => hint == 0 && TransitDone(transit, c, k)
    case AKind => hint == 0 && transit == c.transit
    case AOpts(k) => hint == 0 && transit == c.transit && OptsDone(opt, c.opts, k)
    case APrepare | ARecheck | APubHint => hint == 0 && transit == c.transit && opt == c.opts
    case ARollback => hint == 0
    case _ => Holds(hint, transit, opt, c)
  }

  predicate Published(pc: AttachPc) {
    pc.AStats? || pc.AReset? || pc.AConfirm? || pc.AUp?
  }

  predicate AttachInv(sw: SwitchConfig, m: Port, c: Config, generation: nat, pc: AttachPc) {
    && WellFormed(sw, c) && GenerationFits(sw, generation)
    && m.attGen == generation
    && m.slot.flags == 0
    && (m.slot.innerIP == c.ip || m.slot.innerIP == RESERVED)
    && (m.slot.innerIP == c.ip ==> AttachProgress(m.slot.hint, m.slot.transit, m.opt, c, pc))
    && (Published(pc) ==> m.slot.generation == generation)
    && (!pc.AConfirm? && !pc.AUp? ==> m.ctrOwner < m.att)
    && (pc.AReset? ==> pc.prev == m.ctr.gen && pc.prev < MAX_U64)
    && (pc.AConfirm? ==> m.ctrOwner == m.att)
    && (!pc.AClaimed? && !pc.AUp? ==> m.slot.statsReady == 0)
  }

  predicate CommitProgress(hint: int, transit: Transit, opt: OptCells, c: Config, pc: CommitPc) {
    match pc
    case CRecheck => true
    case COpts(k) => OptsDone(opt, c.opts, k)
    case CRecheck2 | CHint => opt == c.opts
    case CTransit(k) => opt == c.opts && hint == c.opts[0] && TransitDone(transit, c, k)
    case CCas | CConfirm | CUp => Holds(hint, transit, opt, c)
  }

  predicate CommitInv(sw: SwitchConfig, m: Port, c: Config, cur: nat, pc: CommitPc) {
    && IsAllocated(cur) && WellFormed(sw, c)
    && (m.slot.innerIP == RESERVED || m.slot.innerIP == if pc.CConfirm? || pc.CUp? then c.ip else cur)
    && m.slot.flags == 0
    && (m.slot.innerIP != RESERVED ==> CommitProgress(m.slot.hint, m.slot.transit, m.opt, c, pc))
  }

  predicate PortUpInv(sw: SwitchConfig, m: Port, want: Option<Config>, cur: nat, checked: bool) {
    && IsAllocated(cur)
    && (want.Some? ==> WellFormed(sw, want.value))
    && (m.slot.innerIP == RESERVED || m.slot.innerIP == cur)
    && (checked ==> m.slot.flags == 0)
  }

  predicate DetachInv(m: Port, cur: nat, pc: DetachPc) {
    && IsAllocated(cur)
    && (m.slot.innerIP == cur || m.slot.innerIP == RESERVED)
    && (pc.DHint? || pc.DRelease? || pc.DReload? ==> m.slot.flags == 0)
    && (pc.DRelease? && m.slot.innerIP == cur ==> m.slot.hint == 0)
    && (pc.DReload? ==> m.slot.innerIP == RESERVED)
  }

  predicate OpInv(sw: SwitchConfig, m: Port, op: Op) {
    match op
    case Attach(c, generation, _, pc) => AttachInv(sw, m, c, generation, pc)
    case PortUp(want, cur, checked) => PortUpInv(sw, m, want, cur, checked)
    case Commit(c, cur, pc) => CommitInv(sw, m, c, cur, pc)
    case Detach(cur, pc) => DetachInv(m, cur, pc)
  }

  predicate CtlInv(m: Port, ctl: Ctl, o: Option<Op>) {
    && (ctl.ForceFlags? || ctl.ForceHint? || ctl.ReserveReady? ==> m.slot.innerIP == RESERVED)
    && (ctl.ReopenFlags? || ctl.ReopenCas? ==> m.slot.innerIP == RESERVED && o.None?)
    && (ctl.ReopenCas? ==> m.slot.flags == 0)
    && (ctl.ForceCas? || ctl.TakeCas? ==> ctl.cur != RESERVED)
  }

  /** An up slot holds the published configuration, and it is well formed. */
  predicate PublishedInv(sw: SwitchConfig, m: Port) {
    Live(m) ==>
      && WellFormed(sw, m.pub) && GenerationFits(sw, m.pubGen) && m.pubGen == m.attGen
      && m.slot.innerIP == m.pub.ip && m.slot.generation == m.pubGen
      && Holds(m.slot.hint, m.slot.transit, m.opt, m.pub)
  }

  predicate Attaching(o: Option<Op>) {
    o.Some? && o.value.Attach?
  }

  predicate JustClaimed(o: Option<Op>) {
    Attaching(o) && o.value.apc.AClaimed?
  }

  predicate Confirming(o: Option<Op>) {
    Attaching(o) && o.value.apc.AConfirm?
  }

  predicate IdentityInv(sw: SwitchConfig, m: Port, o: Option<Op>) {
    && (IsAllocated(m.slot.innerIP) && !Attaching(o) ==> m.slot.generation == m.attGen && GenerationFits(sw, m.attGen))
    && m.ctrOwner <= m.att
    && (m.ctrOwner == m.att ==> m.slot.generation == m.attGen)
    && (m.slot.statsReady == 1 && !JustClaimed(o) ==> m.ctrOwner == m.att)
  }

  /** The invariant of a slot whose operation in flight, if any, is o. */
  predicate SoloInv(sw: SwitchConfig, m: Port, ctl: Ctl, o: Option<Op>) {
    && (m.slot.flags == 0 || m.slot.flags == 1)
    && (m.slot.statsReady == 0 || m.slot.statsReady == 1)
    && (m.slot.innerIP == FREE ==> o.None? && m.slot.flags == 0)
    && (o.Some? ==> OpInv(sw, m, o.value))
    && CtlInv(m, ctl, o) && PublishedInv(sw, m) && IdentityInv(sw, m, o)
  }

  predicate AtMostOne(ops: map<nat, Op>) {
    forall p, q :: p in ops && q in ops ==> p == q
  }

  /** The operation in flight. */
  ghost function Current(ops: map<nat, Op>): Option<Op> {
    if ops == map[] then None else var p :| p in ops; Some(ops[p])
  }

  lemma {:induction false} CurrentIs(ops: map<nat, Op>, pid: nat)
    requires AtMostOne(ops) && pid in ops
    ensures Current(ops) == Some(ops[pid])
  {
  }

  ghost predicate CoreInv(sw: SwitchConfig, s: Sys) {
    AtMostOne(s.ops) && SoloInv(sw, s.port, s.ctl, Current(s.ops))
  }

  // ------------------------------------------------------------ preservation: core

  lemma {:induction false} AttachClearSolo(sw: SwitchConfig, m: Port, ctl: Ctl, op: Op)
    requires op.Attach? && SoloInv(sw, m, ctl, Some(op))
    requires op.apc.AClaimed? || op.apc.AReady? || op.apc.AFlags? || op.apc.AGen? || op.apc.AHint?
    ensures var r := AttachClear(m, op); SoloInv(sw, r.port, ctl, r.op)
  {
    match op.apc
    case AClaimed =>
    case AReady =>
    case AFlags =>
    case AGen =>
    case AHint =>
  }

  lemma {:induction false} AttachCopySolo(sw: SwitchConfig, m: Port, ctl: Ctl, op: Op, ok: bool)
    requires op.Attach? && SoloInv(sw, m, ctl, Some(op)) && (op.apc.ATransit? || op.apc.AOpts?)
    ensures var r := AttachCopy(m, op, ok); SoloInv(sw, r.port, ctl, r.op)
  {
    if m.slot.innerIP == op.c.ip {
      match op.apc
      case ATransit(k) =>
        if k < StoreCount(op.c) {
          TransitStep(m.slot.transit, op.c, k);
        } else {
          TransitComplete(m.slot.transit, op.c, k);
        }
      case AOpts(k) =>
        if k >= OPT_CELLS {
          OptsComplete(m.opt, op.c.opts, k);
        }
    }
  }

  lemma {:induction false} AttachPrepareSolo(sw: SwitchConfig, m: Port, ctl: Ctl, op: Op, ok: bool)
    requires op.Attach? && SoloInv(sw, m, ctl, Some(op))
    requires op.apc.AKind? || op.apc.APrepare? || op.apc.ARecheck? || op.apc.ARollback?
    ensures var r := AttachPrepare(m, op, ok); SoloInv(sw, r.port, ctl, r.op)
  {
    match op.apc
    case AKind =>
    case APrepare =>
    case ARecheck =>
    case ARollback =>
  }

  lemma {:induction false} AttachIdentitySolo(sw: SwitchConfig, m: Port, ctl: Ctl, op: Op, ok: bool)
    requires op.Attach? && SoloInv(sw, m, ctl, Some(op)) && (op.apc.APubHint? || op.apc.APubGen? || op.apc.AStats?)
    ensures var r := AttachPublish(m, op, ok); SoloInv(sw, r.port, ctl, r.op)
  {
    match op.apc
    case APubHint =>
    case APubGen =>
    case AStats =>
  }

  lemma {:induction false} AttachCountersSolo(sw: SwitchConfig, m: Port, ctl: Ctl, op: Op, ok: bool)
    requires op.Attach? && SoloInv(sw, m, ctl, Some(op)) && (op.apc.AReset? || op.apc.AConfirm? || op.apc.AUp?)
    ensures var r := AttachPublish(m, op, ok); SoloInv(sw, r.port, ctl, r.op)
  {
    match op.apc
    case AReset(prev) =>
    case AConfirm =>
    case AUp =>
  }

  lemma {:induction false} PortUpSolo(sw: SwitchConfig, m: Port, ctl: Ctl, op: Op, ok: bool)
    requires op.PortUp? && SoloInv(sw, m, ctl, Some(op))
    ensures var r := PortUpNext(m, op, ok); SoloInv(sw, r.port, ctl, r.op)
  {
  }

  lemma {:induction false} CommitCopySolo(sw: SwitchConfig, m: Port, ctl: Ctl, op: Op, ok: bool)
    requires op.Commit? && SoloInv(sw, m, ctl, Some(op)) && (op.cpc.CTransit? || op.cpc.COpts?)
    ensures var r := CommitCopy(m, op, ok); SoloInv(sw, r.port, ctl, r.op)
  {
    if m.slot.innerIP != RESERVED {
      match op.cpc
      case CTransit(k) =>
        if k < StoreCount(op.c) {
          TransitStep(m.slot.transit, op.c, k);
        } else {
          TransitComplete(m.slot.transit, op.c, k);
        }
      case COpts(k) =>
        if k >= OPT_CELLS {
          OptsComplete(m.opt, op.c.opts, k);
        }
    }
  }

  lemma {:induction false} CommitSolo(sw: SwitchConfig, m: Port, ctl: Ctl, op: Op, ok: bool)
    requires op.Commit? && SoloInv(sw, m, ctl, Some(op))
    ensures var r := CommitNext(m, op, ok); SoloInv(sw, r.port, ctl, r.op)
  {
    match op.cpc
    case COpts(_) | CTransit(_) => CommitCopySolo(sw, m, ctl, op, ok);
    case CRecheck =>
    case CRecheck2 =>
    case CHint =>
    case CCas =>
    case CConfirm =>
    case CUp =>
  }

  lemma {:induction false} DetachSolo(sw: SwitchConfig, m: Port, ctl: Ctl, op: Op, ok: bool)
    requires op.Detach? && SoloInv(sw, m, ctl, Some(op))
    ensures var r := DetachNext(m, op, ok); SoloInv(sw, r.port, ctl, r.op)
  {
    match op.dpc
    case DDevice =>
    case DRecheck =>
    case DRevoke =>
    case DHint =>
    case DRelease =>
    case DReload =>
  }

  lemma {:induction false} OpSolo(sw: SwitchConfig, m: Port, ctl: Ctl, op: Op, ok: bool)
    requires SoloInv(sw, m, ctl, Some(op))
    ensures var r := OpNext(m, op, ok); SoloInv(sw, r.port, ctl, r.op)
  {
    match op
    case PortUp(_, _, _) => PortUpSolo(sw, m, ctl, op, ok);
    case Commit(_, _, _) => CommitSolo(sw, m, ctl, op, ok);
    case Detach(_, _) => DetachSolo(sw, m, ctl, op, ok);
    case Attach(_, _, _, pc) =>
      match pc
      case AClaimed | AReady | AFlags | AGen | AHint => AttachClearSolo(sw, m, ctl, op);
      case ATransit(_) | AOpts(_) => AttachCopySolo(sw, m, ctl, op, ok);
      case AKind | APrepare | ARecheck | ARollback => AttachPrepareSolo(sw, m, ctl, op, ok);
      case APubHint | APubGen | AStats => AttachIdentitySolo(sw, m, ctl, op, ok);
      case AReset(_) | AConfirm | AUp => AttachCountersSolo(sw, m, ctl, op, ok);
  }

  lemma {:induction false} SeizeSolo(sw: SwitchConfig, m: Port, ctl: Ctl, o: Option<Op>, cur: nat, won: Ctl, lost: Ctl)
    requires SoloInv(sw, m, ctl, o) && cur != RESERVED
    requires won.Idle? || won.ForceFlags? || won.ReserveReady?
    requires lost.Idle? || lost.ForceLoad? || lost.TakeLoad?
    ensures var r := Seize(m, cur, won, lost); SoloInv(sw, r.port, r.ctl, o)
  {
  }

  lemma {:induction false} ControlSolo(sw: SwitchConfig, m: Port, ctl: Ctl, o: Option<Op>)
    requires SoloInv(sw, m, ctl, o)
    ensures var r := ControlNext(m, ctl); SoloInv(sw, r.port, r.ctl, o)
  {
    match ctl
    case ForceCas(cur) => SeizeSolo(sw, m, ctl, o, cur, if IsAllocated(cur) then ForceFlags else Idle, ForceLoad);
    case ReserveCas => SeizeSolo(sw, m, ctl, o, FREE, ReserveReady, Idle);
    case TakeCas(cur) => SeizeSolo(sw, m, ctl, o, cur, Idle, TakeLoad);
    case Idle =>
    case ForceLoad =>
    case ForceFlags =>
    case ForceHint =>
    case ReserveReady =>
    case TakeLoad =>
    case ReopenFlags =>
    case ReopenCas =>
  }

  /** A contender that wins the claim finds no operation in flight and nothing published. */
  lemma {:induction false} ClaimSolo(sw: SwitchConfig, m: Port, ctl: Ctl, o: Option<Op>, c: Config, generation: nat, adminDown: bool)
    requires SoloInv(sw, m, ctl, o) && m.slot.innerIP == FREE && WellFormed(sw, c) && GenerationFits(sw, generation)
    ensures SoloInv(sw, Claimed(m, c, generation), ctl, Some(Attach(c, generation, adminDown, AClaimed)))
  {
  }

  lemma {:induction false} StartSolo(sw: SwitchConfig, m: Port, ctl: Ctl, op: Op)
    requires SoloInv(sw, m, ctl, None) && IsAllocated(m.slot.innerIP)
    requires op == Detach(m.slot.innerIP, DDevice)
             || (op.PortUp? && op.cur == m.slot.innerIP && !op.checked && (op.want.Some? ==> WellFormed(sw, op.want.value)))
    ensures SoloInv(sw, m, ctl, Some(op))
  {
  }

  lemma {:induction false} DeviceSolo(sw: SwitchConfig, m: Port, ctl: Ctl, o: Option<Op>, ifindex: nat, tap: bool)
    requires SoloInv(sw, m, ctl, o)
    ensures SoloInv(sw, m.(slot := m.slot.(ifindex := ifindex, tap := tap)), ctl, o)
  {
  }

  lemma {:induction false} CountSolo(sw: SwitchConfig, m: Port, ctl: Ctl, o: Option<Op>, ctr: Counters)
    requires SoloInv(sw, m, ctl, o) && ctr.gen == m.ctr.gen
    ensures SoloInv(sw, m.(ctr := ctr), ctl, o)
  {
  }

  // ------------------------------------------- what every step guarantees to the others

  predicate SameConfig(m: Port, n: Port) {
    && n.slot.innerIP == m.slot.innerIP && n.slot.generation == m.slot.generation
    && n.slot.hint == m.slot.hint && n.slot.transit == m.slot.transit && n.opt == m.opt
    && n.pub == m.pub && n.pubGen == m.pubGen
  }

  predicate Unready(m: Port, o: Option<Op>) {
    m.slot.statsReady == 0 && !Confirming(o)
  }

  /** Claims, epochs and counter generations only grow; an up port keeps its
      configuration, and an allocated one stays allocated, until the epoch moves;
      readiness is gained only through a new counter generation. */
  predicate Evolves(m: Port, o: Option<Op>, n: Port, q: Option<Op>) {
    && m.att <= n.att && m.epoch <= n.epoch && m.ctr.gen <= n.ctr.gen
    && (n.ctr.gen == m.ctr.gen ==> n.ctrOwner == m.ctrOwner)
    && (n.epoch == m.epoch && IsAllocated(m.slot.innerIP) ==> IsAllocated(n.slot.innerIP))
    && (n.epoch == m.epoch && Live(m) ==> Live(n) && SameConfig(m, n))
    && (n.ctr.gen == m.ctr.gen && Unready(m, o) ==> Unready(n, q))
  }

  lemma {:induction false} AttachWorkEvolves(sw: SwitchConfig, m: Port, ctl: Ctl, op: Op, ok: bool)
    requires op.Attach? && SoloInv(sw, m, ctl, Some(op)) && !op.apc.APubHint? && !op.apc.APubGen? && !Published(op.apc)
    ensures Evolves(m, Some(op), AttachNext(m, op, ok).port, AttachNext(m, op, ok).op)
  {
    match op.apc
    case AClaimed | AReady | AFlags | AGen | AHint =>
    case ATransit(_) | AOpts(_) =>
    case AKind | APrepare | ARecheck | ARollback =>
  }

  lemma {:induction false} AttachPublishEvolves(sw: SwitchConfig, m: Port, ctl: Ctl, op: Op, ok: bool)
    requires op.Attach? && SoloInv(sw, m, ctl, Some(op)) && (op.apc.APubHint? || op.apc.APubGen? || Published(op.apc))
    ensures Evolves(m, Some(op), AttachNext(m, op, ok).port, AttachNext(m, op, ok).op)
  {
    match op.apc
    case APubHint | APubGen | AStats =>
    case AReset(_) | AConfirm | AUp =>
  }

  lemma {:induction false} PortUpEvolves(m: Port, op: Op, ok: bool)
    requires op.PortUp?
    ensures Evolves(m, Some(op), PortUpNext(m, op, ok).port, PortUpNext(m, op, ok).op)
  {
  }

  lemma {:induction false} CommitEvolves(sw: SwitchConfig, m: Port, ctl: Ctl, op: Op, ok: bool)
    requires op.Commit? && SoloInv(sw, m, ctl, Some(op))
    ensures Evolves(m, Some(op), CommitNext(m, op, ok).port, CommitNext(m, op, ok).op)
  {
    match op.cpc
    case COpts(_) | CTransit(_) =>
    case CRecheck | CRecheck2 | CHint =>
    case CCas | CConfirm | CUp =>
  }

  lemma {:induction false} DetachEvolves(sw: SwitchConfig, m: Port, ctl: Ctl, op: Op, ok: bool)
    requires op.Detach? && SoloInv(sw, m, ctl, Some(op))
    ensures Evolves(m, Some(op), DetachNext(m, op, ok).port, DetachNext(m, op, ok).op)
  {
    match op.dpc
    case DDevice | DRecheck | DRevoke =>
    case DHint | DRelease | DReload =>
  }

  lemma {:induction false} OpEvolves(sw: SwitchConfig, m: Port, ctl: Ctl, op: Op, ok: bool)
    requires SoloInv(sw, m, ctl, Some(op))
    ensures Evolves(m, Some(op), OpNext(m, op, ok).port, OpNext(m, op, ok).op)
  {
    match op
    case Attach(_, _, _, pc) =>
      if pc.APubHint? || pc.APubGen? || Published(pc) {
        AttachPublishEvolves(sw, m, ctl, op, ok);
      } else {
        AttachWorkEvolves(sw, m, ctl, op, ok);
      }
    case PortUp(_, _, _) => PortUpEvolves(m, op, ok);
    case Commit(_, _, _) => CommitEvolves(sw, m, ctl, op, ok);
    case Detach(_, _) => DetachEvolves(sw, m, ctl, op, ok);
  }

  lemma {:induction false} ControlEvolves(sw: SwitchConfig, m: Port, ctl: Ctl, o: Option<Op>)
    requires SoloInv(sw, m, ctl, o)
    ensures var r := ControlNext(m, ctl); Evolves(m, o, r.port, o)
  {
  }
}
