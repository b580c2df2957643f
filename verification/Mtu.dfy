/** MTU checks: what the transit device must carry, decided when the switch starts and
    again when a port is attached. */
module Mtu {
  import opened Wire
  import opened Geneve
  import opened Tunnel

  /** How the transit MTU is configured. */
  datatype Choice = Auto | Explicit(mtu: nat) | Device(mtu: nat)

  function BaseOverhead(encapEth: bool): nat {
    if encapEth then 64 else 50
  }

  /** The start-time decision: the MTU in effect, or the one that would be needed. */
  function ResolveTransitMtu(choice: Choice, encapEth: bool, loc: Locator, portMtu: nat): Result<nat, nat> {
    var options := if choice.Auto? then MAX_OPTS_LEN else LocatorLen(loc);
    var required := portMtu + BaseOverhead(encapEth) + options;
    match choice
    case Auto => Ok(required)
    case Explicit(mtu) => if mtu < required then Err(required) else Ok(mtu)
    case Device(mtu) => if mtu < required then Err(required) else Ok(mtu)
  }

  /** The attach-time check. */
  predicate AttachFits(transitMtu: nat, portMtu: nat, encapEth: bool, wireLen: nat) {
    transitMtu >= portMtu + BaseOverhead(encapEth) + wireLen
  }

  /** An MTU chosen automatically admits every option list the marshaller accepts. */
  lemma AutoAdmitsEveryAttach(encapEth: bool, loc: Locator, portMtu: nat, options: seq<GeneveOption>)
    requires Acceptable(loc, options)
    ensures var r := ResolveTransitMtu(Auto, encapEth, loc, portMtu);
            r.Ok? && AttachFits(r.value, portMtu, encapEth, |EncodeAll(options)| + LocatorLen(loc))
  {
  }

  /** It is also the least such MTU, under every locator. */
  lemma AutoIsTight(encapEth: bool, loc: Locator, portMtu: nat, transitMtu: nat)
    requires forall options :: Acceptable(loc, options) ==>
               AttachFits(transitMtu, portMtu, encapEth, |EncodeAll(options)| + LocatorLen(loc))
    ensures transitMtu >= ResolveTransitMtu(Auto, encapEth, loc, portMtu).value
  {
    var options := FullArea(loc);
    assert AttachFits(transitMtu, portMtu, encapEth, |EncodeAll(options)| + LocatorLen(loc));
  }

  /** Some acceptable list fills the option area behind any locator. */
  lemma FullArea(loc: Locator) returns (options: seq<GeneveOption>)
    ensures Acceptable(loc, options) && |EncodeAll(options)| + LocatorLen(loc) == MAX_OPTS_LEN
  {
    var cls := if loc.TlvLocator? && loc.cls == 0 then 1 else 0;
    options := [GeneveOption(cls, 0, Zeros(60 - LocatorLen(loc)))];
    assert options[..0] == [];
    assert EncodeAll(options) == EncodeAll(options[..0]) + EncodeOption(options[0]);
  }

  /** A start that succeeded admits every attach without opaque options, which is why
      those need no check of their own when there is no locator option either. */
  lemma StartAdmitsOptionFree(choice: Choice, encapEth: bool, loc: Locator, portMtu: nat)
    ensures var r := ResolveTransitMtu(choice, encapEth, loc, portMtu);
            r.Ok? ==> AttachFits(r.value, portMtu, encapEth, LocatorLen(loc))
  {
  }

  /** The check passes exactly if the largest frame a port may send leaves as a packet no
      longer than the transit MTU, its Ethernet header included. */
  lemma AttachFitsExactly(sw: Switch, slot: u32, att: Attachment, sport: u16, proto: u16, payload: seq<u8>,
                          transitMtu: nat)
    requires WellFormedValue(sw.plan.locator, Fetched(att.opts))
    ensures AttachFits(transitMtu, |payload|, sw.encapEth, LocatorLen(sw.plan.locator) + att.opts.len) <==>
            |Encapsulated(sw, slot, att, sport, proto, payload)| <= transitMtu
  {
    SentLength(sw, slot, att, sport, proto, payload);
  }

  /** An explicit or existing transit MTU is accepted, and kept, exactly if the largest frame
      without opaque options fits it; a refusal names the length of that frame. */
  lemma StartExact(choice: Choice, sw: Switch, slot: u32, att: Attachment, sport: u16, proto: u16, payload: seq<u8>)
    requires !choice.Auto? && att.opts.len == 0 && WellFormedValue(sw.plan.locator, Fetched(att.opts))
    ensures var r, largest := ResolveTransitMtu(choice, sw.encapEth, sw.plan.locator, |payload|),
                              |Encapsulated(sw, slot, att, sport, proto, payload)|;
            r == if largest <= choice.mtu then Ok(choice.mtu) else Err(largest)
  {
    SentLength(sw, slot, att, sport, proto, payload);
  }

  /** So the outer IP packet of every frame within the port MTU fits, with room to spare. */
  lemma EveryPacketFits(sw: Switch, slot: u32, att: Attachment, sport: u16, proto: u16, payload: seq<u8>,
                        transitMtu: nat, portMtu: nat)
    requires WellFormedValue(sw.plan.locator, Fetched(att.opts)) && |payload| <= portMtu
    requires AttachFits(transitMtu, portMtu, sw.encapEth, LocatorLen(sw.plan.locator) + att.opts.len)
    ensures |Encapsulated(sw, slot, att, sport, proto, payload)| - ETH_LEN <= transitMtu - ETH_LEN
  {
    AttachFitsExactly(sw, slot, att, sport, proto, payload, transitMtu);
  }
}
