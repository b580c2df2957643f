/** One port slot and everything that runs against it, at the granularity of one
    atomic load, store or compare-and-swap per step.

    Attachment operations (Attach, SetPortUp, Detach), the holder of the control
    lock (Reserve, Release, Provision), packet programs and Stats readers all
    interleave freely. No step touches two slots, so a run of the switch restricted
    to one slot is a run of this machine.

    The caller obligations the code documents are the guards of Enabled:
    operations on one attachment do not overlap, reopening a Reserved slot does not
    overlap an attachment operation in flight on it, and the control lock has one
    holder (a Stats reader holds it shared). */
module SlotMachine {
  import opened Wire
  import opened Geneve

  const FREE: nat := 0
  const RESERVED: nat := 0xFFFF_FFFF
  const UNPUBLISHED: nat := 0xFFFF_FFFF
  const MAX_U64: nat := 0xFFFF_FFFF_FFFF_FFFF
  const TRANSIT_CELLS: nat := 8
  const OPT_CELLS: nat := 66

  predicate IsAllocated(ip: nat) {
    ip != FREE && ip != RESERVED
  }

  /** How inner_ip may change without the control lock: Reserved is neither entered nor left. */
  predicate LockFreeChange(before: nat, after: nat) {
    after == before || (before != RESERVED && after != RESERVED)
  }

  // -------------------------------------------------------------- shared memory

  /** Gateway, VNI and the six bytes of the transit MAC. */
  type Transit = s: seq<int> | |s| == TRANSIT_CELLS witness Zeros(TRANSIT_CELLS)

  /** An options-map value: length, critical flag and the 64 data bytes. */
  type OptCells = s: seq<int> | |s| == OPT_CELLS witness Zeros(OPT_CELLS)

  type Quad = s: seq<int> | |s| == 4 witness [0, 0, 0, 0]

  datatype Slot = Slot(innerIP: nat, flags: nat, generation: nat, statsReady: nat, hint: int,
                       transit: Transit, ifindex: nat, tap: bool)

  /** One counter instance, indexed by packet kind. */
  datatype Counters = Counters(gen: nat, packets: Quad, bytes: Quad)

  const NO_TRANSIT: Transit := [0, 0, 0, 0, 0, 0, 0, 0]
  const NO_MAC: seq<int> := [0, 0, 0, 0, 0, 0]
  const NO_OPTS: OptCells := Zeros(OPT_CELLS)

  // ---------------------------------------------------------------- validation

  datatype SwitchConfig = SwitchConfig(locator: Locator, generationBits: nat)

  datatype IpArg = Absent | V4(addr: u32) | NotV4

  datatype Request = Request(inner: IpArg, gateway: IpArg, mac: seq<u8>, vni: u32, options: seq<GeneveOption>)

  /** A validated attachment configuration, as the memory image it is written as. */
  datatype Config = Config(ip: nat, transit: Transit, macGiven: bool, opts: OptCells)

  const NO_CONFIG: Config := Config(FREE, NO_TRANSIT, false, NO_OPTS)

  function OptImage(v: OptsValue): OptCells
    requires |v.data| == MAX_OPTS_LEN
  {
    [v.len, v.critical] + v.data
  }

  /** The checks Attach and SetPortUp share before touching any slot. */
  function Validate(sw: SwitchConfig, r: Request): Option<Config> {
    if r.vni > MaxVni(sw.locator) || !Acceptable(sw.locator, r.options) then None
    else if !r.inner.V4? || !IsAllocated(r.inner.addr) then None
    else if r.gateway.NotV4? || (|r.mac| != 0 && |r.mac| != 6) then None
    else
      var gateway := if r.gateway.V4? then r.gateway.addr else 0;
      var mac := if r.mac == [] then NO_MAC else r.mac;
      Some(Config(r.inner.addr, [gateway, r.vni] + mac, r.mac != [], OptImage(ValueOf(r.options))))
  }

  predicate GenerationFits(sw: SwitchConfig, generation: nat) {
    generation < Pow2(sw.generationBits)
  }

  /** What the data plane demands of a published configuration. */
  predicate WellFormed(sw: SwitchConfig, c: Config) {
    && IsAllocated(c.ip)
    && 0 <= c.transit[1] <= MaxVni(sw.locator)
    && (!c.macGiven ==> c.transit[2..] == NO_MAC)
    && 0 <= c.opts[0] && c.opts[0] % 4 == 0 && c.opts[0] + LocatorLen(sw.locator) <= MAX_OPTS_LEN
    && 0 <= c.opts[1] <= 1
  }

  lemma ValidatedWellFormed(sw: SwitchConfig, r: Request)
    requires Validate(sw, r).Some?
    ensures WellFormed(sw, Validate(sw, r).value)
  {
    MarshalledWellFormed(sw.locator, r.options);
  }

  /** Some bytes that these cells hold parse to the given options. */
  ghost predicate Spells(cells: seq<int>, os: seq<GeneveOption>) {
    exists b: seq<u8> :: b == cells && ParseTlvs(b) == Some(os)
  }

  /** The configuration a request asks for: its address, its gateway and MAC or zero, its
      VNI, and an options value whose bytes parse to exactly its options. */
  ghost predicate AskedFor(r: Request, c: Config) {
    && r.inner.V4? && r.inner.addr == c.ip
    && c.transit[0] == (if r.gateway.V4? then r.gateway.addr else 0)
    && c.transit[1] == r.vni
    && c.transit[2..] == (if r.mac == [] then [0, 0, 0, 0, 0, 0] else r.mac)
    && 0 <= c.opts[0] <= MAX_OPTS_LEN && Spells(c.opts[2..2 + c.opts[0]], r.options)
    && c.opts[1] == if AnyCritical(r.options) then 1 else 0
  }

  /** A request is refused exactly for a VNI that the locator leaves no room for, an option
      list that does not fit, an inner address that is missing, not IPv4 or one of the two
      marks, a gateway that is not IPv4, or a MAC of the wrong length. */
  lemma ValidateExact(sw: SwitchConfig, r: Request)
    ensures Validate(sw, r).Some? <==>
            && (sw.locator.VniLocator? ==> r.vni < 0x1000) && r.vni < 0x100_0000
            && Acceptable(sw.locator, r.options)
            && r.inner.V4? && r.inner.addr != 0 && r.inner.addr != 0xffff_ffff
            && !r.gateway.NotV4? && (r.mac == [] || |r.mac| == 6)
    ensures Validate(sw, r).Some? ==> AskedFor(r, Validate(sw, r).value)
  {
    if Validate(sw, r).Some? {
      ImageSpells(sw.locator, r.options);
    }
  }

  lemma ImageSpells(loc: Locator, os: seq<GeneveOption>)
    requires Acceptable(loc, os)
    ensures var cells := OptImage(ValueOf(os));
            && 0 <= cells[0] <= MAX_OPTS_LEN && Spells(cells[2..2 + cells[0]], os)
            && cells[1] == if AnyCritical(os) then 1 else 0
  {
    MarshalledWellFormed(loc, os);
    ImageCells(ValueOf(os));
    OptionsParse(loc, os);
    SpellsIt(OptImage(ValueOf(os))[2..2 + |EncodeAll(os)|], EncodeAll(os), os);
  }

  lemma ImageCells(v: OptsValue)
    requires |v.data| == MAX_OPTS_LEN && v.len <= MAX_OPTS_LEN
    ensures var cells := OptImage(v); cells[0] == v.len && cells[1] == v.critical && cells[2..2 + v.len] == v.data[..v.len]
  {
  }

  lemma SpellsIt(cells: seq<int>, b: seq<u8>, os: seq<GeneveOption>)
    requires b == cells && ParseTlvs(b) == Some(os)
    ensures Spells(cells, os)
  {
  }

  /** Stores into the transit cells: gateway, VNI, the cleared MAC byte by byte,
      then the new MAC if one was given. */
  function StoreCount(c: Config): nat {
    if c.macGiven then 14 else 8
  }

  function StoreTransit(t: Transit, c: Config, k: nat): Transit
    requires k < 14
  {
    if k < 2 then t[k := c.transit[k]] else if k < 8 then t[k := 0] else t[k - 6 := c.transit[k - 6]]
  }

  // ------------------------------------------------------------------ processes

  datatype AttachPc =
    | AClaimed | AReady | AFlags | AGen | AHint | ATransit(k: nat) | AKind | AOpts(k: nat) | APrepare
    | ARecheck | APubHint | APubGen | AStats | AReset(prev: nat) | AConfirm | AUp | ARollback

  datatype CommitPc =
    | CRecheck | COpts(k: nat) | CRecheck2 | CHint | CTransit(k: nat) | CCas | CConfirm | CUp

  datatype DetachPc = DDevice | DRecheck | DRevoke | DHint | DRelease | DReload

  /** SetPortUp is PortUp until its preparation succeeds and Commit from then on. */
  datatype Op =
    | Attach(c: Config, generation: nat, adminDown: bool, apc: AttachPc)
    | PortUp(want: Option<Config>, cur: nat, checked: bool)
    | Commit(c: Config, cur: nat, cpc: CommitPc)
    | Detach(cur: nat, dpc: DetachPc)

  /** The holder of the control lock: force reserve, plain reserve, takeover by
      release, and reopening by provision. */
  datatype Ctl =
    | Idle
    | ForceLoad | ForceCas(cur: nat) | ForceFlags | ForceHint
    | ReserveCas | ReserveReady
    | TakeLoad | TakeCas(cur: nat)
    | ReopenFlags | ReopenCas

  datatype Kind = NxMgmt | NxTransit | Mx | Return

  datatype PacketPc = PStats | PGen | PInner | PIfindex | PToken | PRead | PForward

  /** obs is what the packet program has loaded since it saw the port up. The
      fields from epoch on are history: the epoch at the state check and at the
      latest load, the configuration published when the gate was passed, and the
      epoch at the generation check. */
  datatype Packet = Packet(kind: Kind, len: nat, want: nat, pc: PacketPc, cap: nat, obs: seq<int>,
                           epoch: nat, lastEpoch: nat, pub: Config, pubGen: nat, genEpoch: nat)

  datatype ReaderPc =
    | RFlags | RReady | RFirst | RInner | RGen | RSecond | RFlags1 | RReady1 | RInner1 | RGen1

  /** Who held the slot and whose counters were installed at one load. */
  datatype Stamp = Stamp(att: nat, attGen: nat, ctrGen: nat, ctrOwner: nat, ready: nat)

  /** A Stats read; the stamps are history. */
  datatype Reader = Reader(pc: ReaderPc, first: nat, ip: nat, gen: nat, snap: Counters,
                           atIP: Stamp, atGen: Stamp, atSnap: Stamp, atUp: Stamp)

  /** One finished counter update. */
  datatype Event = Event(cap: nat, kind: Kind, len: nat)

  /** The memory of one port with its history: att numbers the claims, attGen is the
      generation the latest claim asked for, genBy is the claim that published a
      generation last, ctrOwner is the claim that installed the current counters, epoch
      counts revocations and departures from Allocated, pub and pubGen are the
      configuration last published. */
  datatype Port = Port(slot: Slot, opt: OptCells, ctr: Counters,
                       att: nat, attGen: nat, genBy: nat, ctrOwner: nat, epoch: nat, pub: Config, pubGen: nat)

  /** The port, the processes running against it, and the log of finished counter updates. */
  datatype Sys = Sys(port: Port, ops: map<nat, Op>, ctl: Ctl, packets: map<nat, Packet>, readers: map<nat, Reader>,
                     log: seq<Event>)

  const ZERO: Quad := [0, 0, 0, 0]

  function Init(): Sys {
    Sys(Port(Slot(FREE, 0, 0, 0, 0, NO_TRANSIT, 0, false), NO_OPTS, Counters(0, ZERO, ZERO), 0, 0, 0, 0, 0, NO_CONFIG, 0),
        map[], Idle, map[], map[], [])
  }

  /** Allocated and up: the state in which packets are forwarded. */
  predicate Live(m: Port) {
    IsAllocated(m.slot.innerIP) && m.slot.flags == 1
  }

  // ------------------------------------------------------- attachment operations

  /** The port after one step of an operation, and the operation unless it returned. */
  datatype After = After(port: Port, op: Option<Op>)

  function Store(m: Port, slot: Slot, op: Op): After {
    After(m.(slot := slot), Some(op))
  }

  function Goto(m: Port, op: Op): After {
    After(m, Some(op))
  }

  function Done(m: Port): After {
    After(m, None)
  }

  /** The owner gives the slot back: compare-and-swap from its address to Free. */
  function Release(m: Port, ip: nat): Port {
    if m.slot.innerIP == ip then m.(slot := m.slot.(innerIP := FREE), epoch := m.epoch + 1) else m
  }

  /** Attach right after its claim: invalidate what the previous attachment left. */
  function AttachClear(m: Port, op: Op): After
    requires op.Attach?
  {
    match op.apc
    case AClaimed => Store(m, m.slot.(statsReady := 0), op.(apc := AReady))
    case AReady => Store(m, m.slot.(statsReady := 0), op.(apc := AFlags))
    case AFlags => Store(m, m.slot.(flags := 0), op.(apc := AGen))
    case AGen => Store(m, m.slot.(generation := UNPUBLISHED), op.(apc := AHint))
    case _ => Store(m, m.slot.(hint := 0), op.(apc := ATransit(0)))
  }

  /** Attach copying its configuration into the slot and the options map. */
  function AttachCopy(m: Port, op: Op, ok: bool): After
    requires op.Attach? && (op.apc.ATransit? || op.apc.AOpts?)
  {
    match op.apc
    case ATransit(k) =>
      if k < StoreCount(op.c) then
        Store(m, m.slot.(transit := StoreTransit(m.slot.transit, op.c, k)), op.(apc := ATransit(k + 1)))
      else Goto(m, op.(apc := AKind))
    case AOpts(k) =>
      if !ok then Goto(m, op.(apc := ARollback))
      else if k < OPT_CELLS then After(m.(opt := m.opt[k := op.c.opts[k]]), Some(op.(apc := AOpts(k + 1))))
      else Goto(m, op.(apc := APrepare))
  }

  /** Attach checking the port kind, preparing, rechecking ownership, or rolling back. */
  function AttachPrepare(m: Port, op: Op, ok: bool): After
    requires op.Attach?
  {
    match op.apc
    case AKind => Goto(m, op.(apc := if m.slot.tap && m.slot.ifindex == 0 then ARollback else AOpts(0)))
    case APrepare => Goto(m, op.(apc := if ok then ARecheck else ARollback))
    case ARecheck => if m.slot.innerIP == op.c.ip then Goto(m, op.(apc := APubHint)) else Done(m)
    case _ => Done(Release(m, op.c.ip))
  }

  /** Attach publishing: hint, generation, counter reset, readiness and at last up. */
  function AttachPublish(m: Port, op: Op, ok: bool): After
    requires op.Attach?
  {
    match op.apc
    case APubHint => Store(m, m.slot.(hint := op.c.opts[0]), op.(apc := APubGen))
    case APubGen => After(m.(slot := m.slot.(generation := op.generation), genBy := m.att), Some(op.(apc := AStats)))
    case AStats => Goto(m, op.(apc := if ok && m.ctr.gen < MAX_U64 then AReset(m.ctr.gen) else AUp))
    case AReset(prev) =>
      if ok then After(m.(ctr := Counters(prev + 1, ZERO, ZERO), ctrOwner := m.att), Some(op.(apc := AConfirm)))
      else Goto(m, op.(apc := AUp))
    case AConfirm => Store(m, m.slot.(statsReady := 1), op.(apc := AUp))
    case _ =>
      if op.adminDown then Done(m)
      else Done(m.(slot := m.slot.(flags := 1), pub := op.c, pubGen := op.generation))
  }

  function AttachNext(m: Port, op: Op, ok: bool): After
    requires op.Attach?
  {
    match op.apc
    case AClaimed | AReady | AFlags | AGen | AHint => AttachClear(m, op)
    case ATransit(_) | AOpts(_) => AttachCopy(m, op, ok)
    case AKind | APrepare | ARecheck | ARollback => AttachPrepare(m, op, ok)
    case APubHint | APubGen | AStats | AReset(_) | AConfirm | AUp => AttachPublish(m, op, ok)
  }

  function PortUpNext(m: Port, op: Op, ok: bool): After
    requires op.PortUp?
  {
    if !op.checked then
      if m.slot.flags == 1 then Done(m) else Goto(m, op.(checked := true))
    else if ok && op.want.Some? then Goto(m, Commit(op.want.value, op.cur, CRecheck))
    else Done(m)
  }

  /** SetPortUp copying the whole new configuration over the provisional one. */
  function CommitCopy(m: Port, op: Op, ok: bool): After
    requires op.Commit? && (op.cpc.CTransit? || op.cpc.COpts?)
  {
    match op.cpc
    case COpts(k) =>
      if !ok then Done(m)
      else if k < OPT_CELLS then After(m.(opt := m.opt[k := op.c.opts[k]]), Some(op.(cpc := COpts(k + 1))))
      else Goto(m, op.(cpc := CRecheck2))
    case CTransit(k) =>
      if k < StoreCount(op.c) then
        Store(m, m.slot.(transit := StoreTransit(m.slot.transit, op.c, k)), op.(cpc := CTransit(k + 1)))
      else Goto(m, op.(cpc := CCas))
  }

  function CommitNext(m: Port, op: Op, ok: bool): After
    requires op.Commit?
  {
    match op.cpc
    case COpts(_) | CTransit(_) => CommitCopy(m, op, ok)
    case CRecheck => if m.slot.innerIP == op.cur then Goto(m, op.(cpc := COpts(0))) else Done(m)
    case CRecheck2 => if m.slot.innerIP == op.cur then Goto(m, op.(cpc := CHint)) else Done(m)
    case CHint => Store(m, m.slot.(hint := op.c.opts[0]), op.(cpc := CTransit(0)))
    case CCas =>
      if m.slot.innerIP == op.cur then Store(m, m.slot.(innerIP := op.c.ip), op.(cpc := CConfirm)) else Done(m)
    case CConfirm => if m.slot.innerIP == op.c.ip then Goto(m, op.(cpc := CUp)) else Done(m)
    case CUp => Done(m.(slot := m.slot.(flags := 1), pub := op.c, pubGen := m.attGen))
  }

  function DetachNext(m: Port, op: Op, ok: bool): After
    requires op.Detach?
  {
    match op.dpc
    case DDevice => if ok then Goto(m, op.(dpc := DRecheck)) else Done(m)
    case DRecheck => if m.slot.innerIP == op.cur then Goto(m, op.(dpc := DRevoke)) else Done(m)
    case DRevoke => After(m.(slot := m.slot.(flags := 0), epoch := m.epoch + 1), Some(op.(dpc := DHint)))
    case DHint => Store(m, m.slot.(hint := 0), op.(dpc := DRelease))
    case DRelease => if m.slot.innerIP == op.cur then Done(Release(m, op.cur)) else Goto(m, op.(dpc := DReload))
    case DReload => Done(m)
  }

  function OpNext(m: Port, op: Op, ok: bool): After {
    match op
    case Attach(_, _, _, _) => AttachNext(m, op, ok)
    case PortUp(_, _, _) => PortUpNext(m, op, ok)
    case Commit(_, _, _) => CommitNext(m, op, ok)
    case Detach(_, _) => DetachNext(m, op, ok)
  }

  // ---------------------------------------------------------------- control lock

  /** The port and the lock holder after one control step. */
  datatype Controlled = Controlled(port: Port, ctl: Ctl)

  /** Takeover: compare-and-swap from a loaded value to Reserved. */
  function Seize(m: Port, cur: nat, won: Ctl, lost: Ctl): Controlled {
    if m.slot.innerIP == cur then
      Controlled(m.(slot := m.slot.(innerIP := RESERVED), epoch := if IsAllocated(cur) then m.epoch + 1 else m.epoch), won)
    else Controlled(m, lost)
  }

  function ControlNext(m: Port, ctl: Ctl): Controlled {
    match ctl
    case Idle => Controlled(m, Idle)
    case ForceLoad => Controlled(m, if m.slot.innerIP == RESERVED then Idle else ForceCas(m.slot.innerIP))
    case ForceCas(cur) => Seize(m, cur, if IsAllocated(cur) then ForceFlags else Idle, ForceLoad)
    case ForceFlags => Controlled(m.(slot := m.slot.(flags := 0)), ForceHint)
    case ForceHint => Controlled(m.(slot := m.slot.(hint := 0)), Idle)
    case ReserveCas => Seize(m, FREE, ReserveReady, Idle)
    case ReserveReady => Controlled(m.(slot := m.slot.(statsReady := 0)), Idle)
    case TakeLoad => Controlled(m, if m.slot.innerIP == RESERVED then Idle else TakeCas(m.slot.innerIP))
    case TakeCas(cur) => Seize(m, cur, Idle, TakeLoad)
    case ReopenFlags => Controlled(m.(slot := m.slot.(flags := 0)), ReopenCas)
    case ReopenCas =>
      Controlled(if m.slot.innerIP == RESERVED then m.(slot := m.slot.(innerIP := FREE)) else m, Idle)
  }

  // -------------------------------------------------------------- packet programs

  /** A location the packet programs load after the gate. */
  datatype Loc = LInner | LGen | LHint | LCell(k: nat) | LOpt(k: nat)

  function ReadLoc(m: Port, l: Loc): int {
    match l
    case LInner => m.slot.innerIP
    case LGen => m.slot.generation
    case LHint => m.slot.hint
    case LCell(k) => if k < TRANSIT_CELLS then m.slot.transit[k] else 0
    case LOpt(k) => if k < OPT_CELLS then m.opt[k] else 0
  }

  /** The value a published configuration has at a location. */
  function ConfigLoc(c: Config, generation: nat, l: Loc): int {
    match l
    case LInner => c.ip
    case LGen => generation
    case LHint => c.opts[0]
    case LCell(k) => if k < TRANSIT_CELLS then c.transit[k] else 0
    case LOpt(k) => if k < OPT_CELLS then c.opts[k] else 0
  }

  /** The j-th load after the gate. Encapsulation goes on to the options map. */
  function PlanLoc(kind: Kind, j: nat): Loc {
    match kind
    case Mx => LInner
    case Return => if j == 0 then LCell(1) else LCell(0)
    case NxMgmt => if j == 10 then LGen else NxLoc(j)
    case NxTransit => if j >= 10 then LOpt(j - 10) else NxLoc(j)
  }

  function NxLoc(j: nat): Loc {
    if j == 0 then LGen else if j < 3 then LCell(j - 1) else if j == 3 then LHint else LCell(j - 2)
  }

  /** How many loads the program makes, given what it has seen: the options map is
      consulted only for a non-zero hint, and for as many bytes as the hint says. */
  function PlanLen(kind: Kind, obs: seq<int>): nat {
    match kind
    case Mx => 1
    case Return => 2
    case NxMgmt => 11
    case NxTransit => if |obs| < 4 || obs[3] <= 0 then 10 else 12 + obs[3]
  }

  /** The encapsulator's own rejections: generation out of range, hint out of range
      or unaligned, total too long, map value disagreeing with the hint. */
  predicate Defensive(sw: SwitchConfig, kind: Kind, obs: seq<int>) {
    && (kind.NxMgmt? || kind.NxTransit?)
    && (|| (|obs| >= 1 && obs[0] >= Pow2(sw.generationBits))
        || (kind.NxTransit? && |obs| >= 4
            && (|| (obs[3] > 0 && (obs[3] > MAX_OPTS_LEN || obs[3] % 4 != 0))
                || LocatorLen(sw.locator) + obs[3] > MAX_OPTS_LEN
                || (|obs| >= 11 && obs[10] != obs[3])
                || (|obs| >= 12 && obs[11] > 1))))
  }

  function KindIndex(k: Kind): nat {
    match k case NxMgmt => 0 case NxTransit => 1 case Mx => 2 case Return => 3
  }

  /** A locked counter update: counted only in the captured, non-zero generation. */
  function CountPacket(c: Counters, cap: nat, kind: Kind, len: nat): Counters {
    var k := KindIndex(kind);
    if cap != 0 && c.gen == cap then
      Counters(c.gen, c.packets[k := (c.packets[k] + 1) % (MAX_U64 + 1)], c.bytes[k := (c.bytes[k] + len) % (MAX_U64 + 1)])
    else c
  }

  function Observe(m: Port, p: Packet): seq<int> {
    p.obs + [ReadLoc(m, PlanLoc(p.kind, |p.obs|))]
  }

  /** One load of a packet program; None once the packet is dropped or passed on. */
  function PacketNext(sw: SwitchConfig, m: Port, p: Packet, ok: bool): Option<Packet> {
    match p.pc
    case PStats => Some(p.(cap := m.ctr.gen, pc := if p.kind.Mx? then PGen else PInner))
    case PGen =>
      if m.slot.generation != p.want then None
      else Some(p.(pc := PInner, genEpoch := m.epoch))
    case PInner =>
      if !IsAllocated(m.slot.innerIP) then None
      else Some(p.(pc := if p.kind.Mx? || p.kind.Return? then PIfindex else PToken, epoch := m.epoch))
    case PIfindex => if m.slot.ifindex == 0 then None else Some(p.(pc := PToken))
    case PToken =>
      if m.slot.flags != 1 then None
      else Some(p.(pc := PRead, obs := [], lastEpoch := m.epoch, pub := m.pub, pubGen := m.pubGen))
    case PRead =>
      var obs := Observe(m, p);
      var done := |obs| >= PlanLen(p.kind, obs);
      if Defensive(sw, p.kind, obs) || (done && !ok) then None
      else Some(p.(obs := obs, lastEpoch := m.epoch, pc := if done then PForward else PRead))
    case PForward => None
  }

  // ---------------------------------------------------------------- Stats readers

  function Now(m: Port): Stamp {
    Stamp(m.att, m.attGen, m.ctr.gen, m.ctrOwner, m.slot.statsReady)
  }

  /** One load of a Stats read; None once it has failed or returned. */
  function ReaderNext(m: Port, r: Reader): Option<Reader> {
    match r.pc
    case RFlags => if m.slot.flags != 1 then None else Some(r.(pc := RReady))
    case RReady => if m.slot.statsReady != 1 then None else Some(r.(pc := RFirst))
    case RFirst => Some(r.(pc := RInner, first := m.ctr.gen))
    case RInner => Some(r.(pc := RGen, ip := m.slot.innerIP, atIP := Now(m)))
    case RGen => Some(r.(pc := RSecond, gen := m.slot.generation, atGen := Now(m)))
    case RSecond =>
      if r.first == 0 || r.first != m.ctr.gen || !IsAllocated(r.ip) then None
      else Some(r.(pc := RFlags1, snap := m.ctr, atSnap := Now(m)))
    case RFlags1 => if m.slot.flags != 1 then None else Some(r.(pc := RReady1, atUp := Now(m)))
    case RReady1 => if m.slot.statsReady != 1 then None else Some(r.(pc := RInner1))
    case RInner1 => if m.slot.innerIP != r.ip then None else Some(r.(pc := RGen1))
    case RGen1 => None
  }

  const NO_STAMP: Stamp := Stamp(0, 0, 0, 0, 0)

  const NEW_READER: Reader :=
    Reader(RFlags, 0, 0, 0, Counters(0, ZERO, ZERO), NO_STAMP, NO_STAMP, NO_STAMP, NO_STAMP)

  // ------------------------------------------------------------------------- runs

  datatype Action =
    | Claim(pid: nat, r: Request, generation: nat, adminDown: bool)
    | StartPortUp(pid: nat, r: Request)
    | StartDetach(pid: nat)
    | OpStep(pid: nat, ok: bool)
    | StartControl(goal: Ctl)
    | StartReopen
    | ControlStep
    | SetIfindex(v: nat)
    | SetMode(tap: bool)
    | Arrive(pid: nat, kind: Kind, len: nat, want: nat)
    | PacketStep(pid: nat, ok: bool)
    | StartStats(pid: nat)
    | StatsStep(pid: nat)

  /** The control lock is free: no holder, and no reader sharing it. */
  predicate LockFree(s: Sys) {
    s.ctl.Idle? && s.readers == map[]
  }

  predicate Enabled(sw: SwitchConfig, s: Sys, a: Action) {
    match a
    case Claim(pid, r, generation, _) => pid !in s.ops && Validate(sw, r).Some? && GenerationFits(sw, generation)
    // One operation per attachment: the caller waits for the previous one to return.
    case StartPortUp(_, _) => s.ops == map[]
    case StartDetach(_) => s.ops == map[]
    case OpStep(pid, _) => pid in s.ops
    case StartControl(goal) => LockFree(s) && (goal.ForceLoad? || goal.ReserveCas? || goal.TakeLoad?)
    // Reserved -> Free is not crossed while an attachment operation is in flight.
    case StartReopen => LockFree(s) && (s.port.slot.innerIP == RESERVED ==> s.ops == map[])
    case ControlStep => !s.ctl.Idle?
    case SetIfindex(_) => LockFree(s)
    case SetMode(_) => LockFree(s)
    // An address whose generation is out of range is passed on before the slot is read.
    case Arrive(pid, kind, _, want) =>
      pid !in s.packets && (kind.Mx? ==> sw.generationBits <= 20 && GenerationFits(sw, want))
    case PacketStep(pid, _) => pid in s.packets
    case StartStats(pid) => pid !in s.readers && s.ctl.Idle?
    case StatsStep(pid) => pid in s.readers
  }

  /** Replaces a process, or removes it once it has returned. */
  function Put<T>(m: map<nat, T>, pid: nat, o: Option<T>): map<nat, T> {
    match o case Some(x) => m[pid := x] case None => m - {pid}
  }

  /** The claim of Attach; a contender that finds the slot taken changes nothing. */
  function Claimed(m: Port, c: Config, generation: nat): Port {
    m.(slot := m.slot.(innerIP := c.ip), att := m.att + 1, attGen := generation)
  }

  function OpStepNext(s: Sys, pid: nat, ok: bool): Sys
    requires pid in s.ops
  {
    var r := OpNext(s.port, s.ops[pid], ok);
    s.(port := r.port, ops := Put(s.ops, pid, r.op))
  }

  function PacketStepNext(sw: SwitchConfig, s: Sys, pid: nat, ok: bool): Sys
    requires pid in s.packets
  {
    var p := s.packets[pid];
    var t := s.(packets := Put(s.packets, pid, PacketNext(sw, s.port, p, ok)));
    if p.pc.PForward? then
      t.(port := s.port.(ctr := CountPacket(s.port.ctr, p.cap, p.kind, p.len)), log := s.log + [Event(p.cap, p.kind, p.len)])
    else t
  }

  function Next(sw: SwitchConfig, s: Sys, a: Action): Sys
    requires Enabled(sw, s, a)
  {
    match a
    case Claim(pid, r, generation, adminDown) =>
      if s.port.slot.innerIP != FREE then s
      else
        var c := Validate(sw, r).value;
        s.(port := Claimed(s.port, c, generation), ops := s.ops[pid := Attach(c, generation, adminDown, AClaimed)])
    case StartPortUp(pid, r) =>
      if !IsAllocated(s.port.slot.innerIP) then s
      else s.(ops := s.ops[pid := PortUp(Validate(sw, r), s.port.slot.innerIP, false)])
    case StartDetach(pid) =>
      if !IsAllocated(s.port.slot.innerIP) then s
      else s.(ops := s.ops[pid := Detach(s.port.slot.innerIP, DDevice)])
    case OpStep(pid, ok) => OpStepNext(s, pid, ok)
    case StartControl(goal) => s.(ctl := goal)
    case StartReopen => if s.port.slot.innerIP != RESERVED then s else s.(ctl := ReopenFlags)
    case ControlStep => var r := ControlNext(s.port, s.ctl); s.(port := r.port, ctl := r.ctl)
    case SetIfindex(v) => s.(port := s.port.(slot := s.port.slot.(ifindex := v)))
    case SetMode(tap) => s.(port := s.port.(slot := s.port.slot.(tap := tap)))
    case Arrive(pid, kind, len, want) =>
      s.(packets := s.packets[pid := Packet(kind, len, want, PStats, 0, [], 0, 0, NO_CONFIG, 0, 0)])
    case PacketStep(pid, ok) => PacketStepNext(sw, s, pid, ok)
    case StartStats(pid) =>
      if !IsAllocated(s.port.slot.innerIP) then s else s.(readers := s.readers[pid := NEW_READER])
    case StatsStep(pid) => s.(readers := Put(s.readers, pid, ReaderNext(s.port, s.readers[pid])))
  }

  ghost predicate StepAt(sw: SwitchConfig, states: seq<Sys>, acts: seq<Action>, i: nat)
    requires |states| == |acts| + 1 && i < |acts|
  {
    Enabled(sw, states[i], acts[i]) && states[i + 1] == Next(sw, states[i], acts[i])
  }

  /** A run: every state follows from the one before by an enabled action. */
  ghost predicate IsRun(sw: SwitchConfig, states: seq<Sys>, acts: seq<Action>) {
    && |states| == |acts| + 1
    && states[0] == Init()
    && forall i :: 0 <= i < |acts| ==> StepAt(sw, states, acts, i)
  }
}
