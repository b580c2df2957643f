/** The three places a slot number can travel in: UDP port, high VNI bits, or an option
    of its own (section 3.4 of RFC 8926). */
module Locators {
  import opened Wire
  import opened Geneve

  const DEFAULT_PORT_BASE: u16 := 50000

  datatype Plan = Plan(locator: Locator, portBase: u16, nPorts: nat)

  /** What configuration validation accepts. */
  predicate ValidPlan(p: Plan) {
    && 1 <= p.nPorts <= MAX_PORTS
    && (if p.locator.PortLocator? then p.portBase + p.nPorts - 1 <= 65535 else p.portBase == DEFAULT_PORT_BASE)
  }

  /** What Attach and SetPortUp accept. */
  predicate ValidVni(loc: Locator, vni: nat) {
    vni <= MaxVni(loc)
  }

  function WirePort(p: Plan, slot: u32): u16 {
    if p.locator.PortLocator? then (p.portBase + slot) % 0x1_0000 else STANDARD_PORT
  }

  function WireVni(loc: Locator, slot: u32, vni: u32): nat {
    if loc.VniLocator? then BitOr(slot * VNI_SPAN % 0x1_0000_0000, vni) else vni
  }

  predicate LocatorCritical(loc: Locator) {
    loc.TlvLocator? && loc.typ >= 0x80
  }

  /** The receiver's strict reading of port, VNI, option area and C bit; nothing but the
      generated locator may be in the area. */
  function Locate(p: Plan, port: u16, vni: nat, area: seq<u8>, critical: bool): Option<(u32, nat)>
    requires vni <= 0xff_ffff
  {
    var found: Option<(u32, nat)> :=
      match p.locator
      case PortLocator =>
        if area != [] || critical then None
        else if port < p.portBase then None
        else Some((port - p.portBase, vni))
      case VniLocator =>
        if port != STANDARD_PORT || area != [] || critical then None
        else Some((vni / 0x1000, vni % 0x1000))
      case TlvLocator(cls, typ) =>
        if port != STANDARD_PORT || |area| != TLV_LOCATOR_LEN then None
        else if Word16(area[0], area[1]) != cls || area[2] != typ then None
        else if area[3] / 0x20 != 0 || area[3] % 0x20 != 1 then None
        else if critical != (area[2] >= 0x80) then None
        else Some((Word32(area[4..8]), vni));
    if found.None? || found.value.0 >= p.nPorts then None else found
  }

  lemma Pow2Twelve()
    ensures Pow2(12) == 0x1000
  {
    assert Pow2(4) == 16;
    assert Pow2(8) == 256;
  }

  lemma WireVniIs(slot: u32, vni: u32)
    requires slot < MAX_PORTS && vni <= 0xfff
    ensures WireVni(VniLocator, slot, vni) == slot * 0x1000 + vni
  {
    Pow2Twelve();
    OrOfShifted(slot, 12, vni);
    NoCarryOut(slot);
  }

  lemma NoCarryOut(slot: u32)
    requires slot < MAX_PORTS
    ensures slot * 0x1000 % 0x1_0000_0000 == slot * 0x1000
  {
  }

  lemma LocatePort(p: Plan, slot: u32, vni: u32)
    requires p.locator.PortLocator? && ValidPlan(p) && slot < p.nPorts && vni <= 0xff_ffff
    ensures Locate(p, WirePort(p, slot), vni, [], false) == Some((slot, vni))
  {
    assert (p.portBase + slot) % 0x1_0000 == p.portBase + slot;
  }

  lemma LocateVni(p: Plan, slot: u32, vni: u32)
    requires p.locator.VniLocator? && slot < p.nPorts <= MAX_PORTS && vni <= 0xfff
    ensures slot * 0x1000 + vni <= 0xff_ffff
    ensures Locate(p, STANDARD_PORT, slot * 0x1000 + vni, [], false) == Some((slot, vni))
  {
    assert (slot * 0x1000 + vni) / 0x1000 == slot && (slot * 0x1000 + vni) % 0x1000 == vni;
  }

  lemma LocateTlv(p: Plan, slot: u32, vni: u32)
    requires p.locator.TlvLocator? && slot < p.nPorts && vni <= 0xff_ffff
    ensures Locate(p, STANDARD_PORT, vni, LocatorBytes(p.locator, slot), LocatorCritical(p.locator)) == Some((slot, vni))
  {
    var area := LocatorBytes(p.locator, slot);
    assert area[0] == Be16(p.locator.cls)[0] && area[1] == Be16(p.locator.cls)[1];
    assert area[4..8] == Be32(slot);
  }

  /** Every slot and VNI that can be configured is found again. */
  lemma LocateInverts(p: Plan, slot: u32, vni: u32)
    requires ValidPlan(p) && slot < p.nPorts && ValidVni(p.locator, vni)
    ensures WireVni(p.locator, slot, vni) <= 0xff_ffff
    ensures Locate(p, WirePort(p, slot), WireVni(p.locator, slot, vni), LocatorBytes(p.locator, slot),
                   LocatorCritical(p.locator)) == Some((slot, vni))
  {
    match p.locator
    case PortLocator =>
      LocatePort(p, slot, vni);
    case VniLocator =>
      WireVniIs(slot, vni);
      LocateVni(p, slot, vni);
    case TlvLocator(_, _) =>
      LocateTlv(p, slot, vni);
  }

  /** Whatever is accepted is what the sender would have written for that slot and VNI. */
  lemma LocateExact(p: Plan, port: u16, vni: nat, area: seq<u8>, critical: bool)
    requires vni <= 0xff_ffff && ValidPlan(p)
    requires Locate(p, port, vni, area, critical).Some?
    ensures var (slot, v) := Locate(p, port, vni, area, critical).value;
            && slot < p.nPorts && ValidVni(p.locator, v)
            && WirePort(p, slot) == port && WireVni(p.locator, slot, v) == vni
            && LocatorBytes(p.locator, slot) == area && LocatorCritical(p.locator) == critical
  {
    var (slot, v) := Locate(p, port, vni, area, critical).value;
    match p.locator
    case PortLocator =>
    case VniLocator =>
      WireVniIs(slot, v);
    case TlvLocator(cls, typ) =>
      Be32OfWord32(area[4..8]);
      assert area == area[..4] + area[4..8];
      assert area[..4] == Be16(cls) + [typ, 1];
  }

  /** Two slots never look alike on the wire. */
  lemma LocatorsNeverCollide(p: Plan, slot: u32, vni: u32, slot': u32, vni': u32)
    requires ValidPlan(p) && slot < p.nPorts && slot' < p.nPorts
    requires ValidVni(p.locator, vni) && ValidVni(p.locator, vni')
    requires WirePort(p, slot) == WirePort(p, slot')
    requires WireVni(p.locator, slot, vni) == WireVni(p.locator, slot', vni')
    requires LocatorBytes(p.locator, slot) == LocatorBytes(p.locator, slot')
    ensures slot == slot' && vni == vni'
  {
    LocateInverts(p, slot, vni);
    LocateInverts(p, slot', vni');
  }

  /** Validation refuses no port range needlessly: in any other the last slot is lost. */
  lemma PortRangeIsNecessary(portBase: u16, nPorts: nat, vni: u32)
    requires 1 <= nPorts <= MAX_PORTS && portBase + nPorts - 1 > 65535 && vni <= 0xff_ffff
    ensures var p := Plan(PortLocator, portBase, nPorts);
            Locate(p, WirePort(p, nPorts - 1), vni, [], false) == None
  {
    var last := portBase + nPorts - 1;
    assert last % 0x1_0000 == last - 0x1_0000;
  }
}
