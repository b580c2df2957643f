/** Management services: a virtual address and port that stands for a target address
    and port, validated once and installed into a forward and a reverse table. */
module Services {
  import opened Wire
  import opened Floating

  const TCP: u8 := 6
  const UDP: u8 := 17
  const MAX_ENTRIES: nat := 1024

  datatype Service = Service(vip: u32, vport: u16, target: u32, tport: u16)

  datatype Key = Key(ip: u32, port: u16, proto: u8)

  datatype Val = Val(ip: u32, port: u16)

  datatype Verdict = Accepted | NoExtract | OutsideRoutes(index: nat) | DuplicateTarget(index: nat)

  predicate InRoutes(extracts: seq<seq<Net>>, ip: u32) {
    exists i :: 0 <= i < |extracts| && Routed(extracts[i], ip)
  }

  predicate SameTarget(a: Service, b: Service) {
    a.target == b.target && a.tport == b.tport
  }

  predicate DistinctTargets(services: seq<Service>) {
    forall i, j :: 0 <= i < j < |services| ==> !SameTarget(services[i], services[j])
  }

  predicate AllInRoutes(services: seq<Service>, extracts: seq<seq<Net>>) {
    forall i :: 0 <= i < |services| ==> InRoutes(extracts, services[i].vip)
  }

  predicate Acceptable(services: seq<Service>, extracts: seq<seq<Net>>) {
    services == [] || (extracts != [] && AllInRoutes(services, extracts) && DistinctTargets(services))
  }

  /** Searches the extracts, and the routes of each, for one that holds the address. */
  method FindRoute(extracts: seq<seq<Net>>, ip: u32) returns (found: bool)
    ensures found <==> InRoutes(extracts, ip)
  {
    found := false;
    for i := 0 to |extracts|
      invariant !found && forall k :: 0 <= k < i ==> !Routed(extracts[k], ip)
    {
      for j := 0 to |extracts[i]|
        invariant !found && forall k :: 0 <= k < j ==> !Contains(extracts[i][k], ip)
      {
        if Contains(extracts[i][j], ip) {
          found := true;
          break;
        }
      }
      if found {
        break;
      }
    }
  }

  /** Accepts exactly the acceptable lists; a refusal names the first service at fault. */
  method ValidateServices(services: seq<Service>, extracts: seq<seq<Net>>) returns (r: Verdict)
    ensures r.Accepted? <==> Acceptable(services, extracts)
    ensures r.NoExtract? ==> services != [] && extracts == []
    ensures r.OutsideRoutes? ==>
              && r.index < |services| && !InRoutes(extracts, services[r.index].vip)
              && Acceptable(services[..r.index], extracts)
    ensures r.DuplicateTarget? ==>
              && r.index < |services| && InRoutes(extracts, services[r.index].vip)
              && (exists j :: 0 <= j < r.index && SameTarget(services[j], services[r.index]))
              && Acceptable(services[..r.index], extracts)
  {
    if services == [] {
      return Accepted;
    }
    if extracts == [] {
      return NoExtract;
    }
    var seen: map<(u32, u16), nat> := map[];
    for i := 0 to |services|
      invariant AllInRoutes(services[..i], extracts) && DistinctTargets(services[..i])
      invariant forall k :: k in seen ==>
                  seen[k] < i && services[seen[k]].target == k.0 && services[seen[k]].tport == k.1
      invariant forall j :: 0 <= j < i ==> (services[j].target, services[j].tport) in seen
    {
      var s := services[i];
      var inRange := FindRoute(extracts, s.vip);
      if !inRange {
        return OutsideRoutes(i);
      }
      if (s.target, s.tport) in seen {
        assert SameTarget(services[seen[(s.target, s.tport)]], services[i]);
        return DuplicateTarget(i);
      }
      seen := seen[(s.target, s.tport) := i];
    }
    assert services[..|services|] == services;
    return Accepted;
  }

  datatype Tables = Tables(fwd: map<Key, Val>, rev: map<Key, Val>)

  function FwdMap(services: seq<Service>): map<Key, Val> {
    if services == [] then map[]
    else
      var s := services[|services| - 1];
      FwdMap(services[..|services| - 1])
        [Key(s.vip, s.vport, TCP) := Val(s.target, s.tport)]
        [Key(s.vip, s.vport, UDP) := Val(s.target, s.tport)]
  }

  function RevMap(services: seq<Service>): map<Key, Val> {
    if services == [] then map[]
    else
      var s := services[|services| - 1];
      RevMap(services[..|services| - 1])
        [Key(s.target, s.tport, TCP) := Val(s.vip, s.vport)]
        [Key(s.target, s.tport, UDP) := Val(s.vip, s.vport)]
  }

  /** A hash map of bounded size refuses a new key when it is full. */
  predicate CanUpdate(m: map<Key, Val>, k: Key) {
    k in m || |m| < MAX_ENTRIES
  }

  predicate Fits(services: seq<Service>) {
    |FwdMap(services)| <= MAX_ENTRIES && |RevMap(services)| <= MAX_ENTRIES
  }

  /** The tables once the last of the services is installed for TCP only. */
  function Half(services: seq<Service>): Tables
    requires services != []
  {
    var front, s := services[..|services| - 1], services[|services| - 1];
    Tables(FwdMap(front)[Key(s.vip, s.vport, TCP) := Val(s.target, s.tport)],
           RevMap(front)[Key(s.target, s.tport, TCP) := Val(s.vip, s.vport)])
  }

  lemma {:induction false} KeysGrow(services: seq<Service>, i: nat)
    requires i <= |services|
    ensures FwdMap(services[..i]).Keys <= FwdMap(services).Keys && RevMap(services[..i]).Keys <= RevMap(services).Keys
    decreases |services| - i
  {
    if i < |services| {
      assert services[..i + 1][..i] == services[..i];
      KeysGrow(services, i + 1);
    } else {
      assert services[..i] == services;
    }
  }

  /** A new key for a full table means that the whole list does not fit. */
  lemma TooMany(m: map<Key, Val>, k: Key, all: map<Key, Val>)
    requires |m| >= MAX_ENTRIES && k !in m && m.Keys + {k} <= all.Keys
    ensures |all| > MAX_ENTRIES
  {
    Cardinality(m.Keys + {k}, all.Keys);
  }

  lemma {:induction false} Cardinality<T>(a: set<T>, b: set<T>)
    requires a <= b
    ensures |a| <= |b|
  {
    if a != {} {
      var x :| x in a;
      Cardinality(a - {x}, b - {x});
    }
  }

  lemma InFinal(services: seq<Service>, i: nat, p: nat)
    requires i < |services| && p < 2
    ensures var s, proto := services[i], if p == 0 then TCP else UDP;
            && Key(s.vip, s.vport, proto) in FwdMap(services) && Key(s.target, s.tport, proto) in RevMap(services)
            && Half(services[..i + 1]).fwd.Keys <= FwdMap(services).Keys
            && Half(services[..i + 1]).rev.Keys <= RevMap(services).Keys
            && FwdMap(services[..i]).Keys <= FwdMap(services).Keys && RevMap(services[..i]).Keys <= RevMap(services).Keys
  {
    KeysGrow(services, i);
    KeysGrow(services, i + 1);
    assert services[..i + 1][..i] == services[..i];
  }

  /** Installs one service for one protocol; either table may be full. */
  method InstallOne(fwd: map<Key, Val>, rev: map<Key, Val>, s: Service, proto: u8, ghost all: Tables) returns (r: Option<Tables>)
    requires |fwd| <= MAX_ENTRIES && |rev| <= MAX_ENTRIES && fwd.Keys <= all.fwd.Keys && rev.Keys <= all.rev.Keys
    requires Key(s.vip, s.vport, proto) in all.fwd && Key(s.target, s.tport, proto) in all.rev
    ensures r.None? ==> |all.fwd| > MAX_ENTRIES || |all.rev| > MAX_ENTRIES
    ensures r.Some? ==> r.value == Tables(fwd[Key(s.vip, s.vport, proto) := Val(s.target, s.tport)],
                                          rev[Key(s.target, s.tport, proto) := Val(s.vip, s.vport)])
    ensures r.Some? ==> |r.value.fwd| <= MAX_ENTRIES && |r.value.rev| <= MAX_ENTRIES
  {
    var there, back := Key(s.vip, s.vport, proto), Key(s.target, s.tport, proto);
    if !CanUpdate(fwd, there) {
      TooMany(fwd, there, all.fwd);
      return None;
    }
    if !CanUpdate(rev, back) {
      TooMany(rev, back, all.rev);
      return None;
    }
    return Some(Tables(fwd[there := Val(s.target, s.tport)], rev[back := Val(s.vip, s.vport)]));
  }

  /** Fills both tables; it succeeds exactly if both are large enough. */
  method WriteServices(services: seq<Service>) returns (r: Option<Tables>)
    ensures r.Some? <==> Fits(services)
    ensures r.Some? ==> r.value == Tables(FwdMap(services), RevMap(services))
  {
    var fwd: map<Key, Val>, rev: map<Key, Val> := map[], map[];
    var protos := [TCP, UDP];
    for i := 0 to |services|
      invariant fwd == FwdMap(services[..i]) && rev == RevMap(services[..i])
      invariant |fwd| <= MAX_ENTRIES && |rev| <= MAX_ENTRIES
    {
      var s := services[i];
      assert services[..i + 1][..i] == services[..i];
      for p := 0 to 2
        invariant |fwd| <= MAX_ENTRIES && |rev| <= MAX_ENTRIES
        invariant p == 0 ==> fwd == FwdMap(services[..i]) && rev == RevMap(services[..i])
        invariant p == 1 ==> Tables(fwd, rev) == Half(services[..i + 1])
        invariant p == 2 ==> fwd == FwdMap(services[..i + 1]) && rev == RevMap(services[..i + 1])
      {
        InFinal(services, i, p);
        var next := InstallOne(fwd, rev, s, protos[p], Tables(FwdMap(services), RevMap(services)));
        if next.None? {
          return None;
        }
        fwd, rev := next.value.fwd, next.value.rev;
      }
    }
    assert services[..|services|] == services;
    return Some(Tables(fwd, rev));
  }

  predicate Translated(proto: u8) {
    proto == TCP || proto == UDP
  }

  /** The last service with this virtual address and port wins. */
  ghost predicate LastFor(services: seq<Service>, i: nat, ip: u32, port: u16) {
    && i < |services| && services[i].vip == ip && services[i].vport == port
    && forall j :: i < j < |services| ==> !(services[j].vip == ip && services[j].vport == port)
  }

  /** The forward table holds exactly the configured virtual addresses, for both
      protocols, and sends each to the target of the last service that names it. */
  lemma {:induction false} FwdExact(services: seq<Service>, k: Key)
    ensures k in FwdMap(services) <==>
            Translated(k.proto) && exists i: nat :: LastFor(services, i, k.ip, k.port)
    ensures forall i: nat :: LastFor(services, i, k.ip, k.port) && k in FwdMap(services) ==>
              FwdMap(services)[k] == Val(services[i].target, services[i].tport)
  {
    if services != [] {
      var n := |services| - 1;
      var front, s := services[..n], services[n];
      FwdExact(front, k);
      if s.vip == k.ip && s.vport == k.port {
        assert LastFor(services, n, k.ip, k.port);
        assert forall i: nat :: LastFor(services, i, k.ip, k.port) ==> i == n;
      } else {
        forall i: nat ensures LastFor(services, i, k.ip, k.port) <==> LastFor(front, i, k.ip, k.port) {
          if LastFor(front, i, k.ip, k.port) {
            forall j | i < j < |services| ensures !(services[j].vip == k.ip && services[j].vport == k.port) {
              assert j < n ==> services[j] == front[j];
            }
          }
          if LastFor(services, i, k.ip, k.port) {
            assert i < n;
            assert forall j :: i < j < n ==> front[j] == services[j];
          }
        }
      }
    }
  }

  /** Every service can be found back from its target. */
  lemma {:induction false} RevExact(services: seq<Service>, i: nat, proto: u8)
    requires DistinctTargets(services) && i < |services| && Translated(proto)
    ensures var k := Key(services[i].target, services[i].tport, proto);
            k in RevMap(services) && RevMap(services)[k] == Val(services[i].vip, services[i].vport)
  {
    var n := |services| - 1;
    if i < n {
      RevExact(services[..n], i, proto);
      assert !SameTarget(services[i], services[n]);
    }
  }

  /** The reverse table holds nothing but targets, for both protocols. */
  lemma {:induction false} RevKeys(services: seq<Service>, k: Key)
    ensures k in RevMap(services) <==>
            (k.proto == 6 || k.proto == 17) && exists i :: 0 <= i < |services| && services[i].target == k.ip && services[i].tport == k.port
  {
    if services != [] {
      var n := |services| - 1;
      var front := services[..n];
      RevKeys(front, k);
      forall i | 0 <= i < n ensures services[i] == front[i] {
      }
    }
  }

  /** Each service is found back from its target. */
  ghost predicate FoundBack(services: seq<Service>) {
    forall i :: 0 <= i < |services| ==>
      var k := Key(services[i].target, services[i].tport, TCP);
      k in RevMap(services) && RevMap(services)[k] == Val(services[i].vip, services[i].vport)
  }

  /** The demand for distinct targets is exactly what the reverse table needs: every service
      is found back, and none is listed twice. */
  lemma DistinctTargetsExact(services: seq<Service>)
    ensures DistinctTargets(services) <==>
            FoundBack(services) && forall i, j :: 0 <= i < j < |services| ==> services[i] != services[j]
  {
    if DistinctTargets(services) {
      forall i | 0 <= i < |services|
        ensures var k := Key(services[i].target, services[i].tport, TCP);
                k in RevMap(services) && RevMap(services)[k] == Val(services[i].vip, services[i].vport)
      {
        RevExact(services, i, TCP);
      }
      forall i, j | 0 <= i < j < |services| ensures services[i] != services[j] {
        assert !SameTarget(services[i], services[j]);
      }
    } else {
      var i, j :| 0 <= i < j < |services| && SameTarget(services[i], services[j]);
      if FoundBack(services) {
        assert services[i] == services[j];
      }
    }
  }

  /** rev inverts fwd on every installed key, even where a virtual address repeats. */
  lemma RevInvertsFwd(services: seq<Service>, k: Key)
    requires DistinctTargets(services) && k in FwdMap(services)
    ensures var v := FwdMap(services)[k]; var back := Key(v.ip, v.port, k.proto);
            back in RevMap(services) && RevMap(services)[back] == Val(k.ip, k.port)
  {
    FwdExact(services, k);
    var i: nat :| LastFor(services, i, k.ip, k.port);
    RevExact(services, i, k.proto);
  }

  // ------------------------------------------------------------ extraction per slot

  const MAX_CIDRS: nat := 3

  function Flatten(extracts: seq<seq<Net>>): seq<Net> {
    if extracts == [] then [] else Flatten(extracts[..|extracts| - 1]) + extracts[|extracts| - 1]
  }

  function FirstThree(nets: seq<Net>): seq<Net> {
    if |nets| <= MAX_CIDRS then nets else nets[..MAX_CIDRS]
  }

  lemma FirstThreeFull(nets: seq<Net>, more: seq<Net>)
    requires |nets| >= MAX_CIDRS
    ensures FirstThree(nets + more) == FirstThree(nets)
  {
  }

  /** One extract's routes, while there is room. */
  method AppendRoutes(cidrs: seq<Net>, ghost before: seq<Net>, routes: seq<Net>) returns (r: seq<Net>)
    requires cidrs == FirstThree(before)
    ensures r == FirstThree(before + routes)
  {
    r := cidrs;
    for j := 0 to |routes|
      invariant r == FirstThree(before + routes[..j])
    {
      ghost var done := before + routes[..j];
      if |r| >= MAX_CIDRS {
        FirstThreeFull(done, routes[j..]);
        assert before + routes == done + routes[j..];
        return;
      }
      assert before + routes[..j + 1] == done + [routes[j]];
      r := r + [routes[j]];
    }
    assert routes[..|routes|] == routes;
  }

  /** Fills the classifiers of a slot: the first three routes in configuration order. */
  method WriteCidrs(extracts: seq<seq<Net>>) returns (cidrs: seq<Net>)
    ensures cidrs == FirstThree(Flatten(extracts))
  {
    cidrs := [];
    for i := 0 to |extracts|
      invariant cidrs == FirstThree(Flatten(extracts[..i]))
    {
      assert extracts[..i + 1][..i] == extracts[..i];
      cidrs := AppendRoutes(cidrs, Flatten(extracts[..i]), extracts[i]);
    }
    assert extracts[..|extracts|] == extracts;
  }

  /** The data plane's test: both addresses under the mask. */
  predicate Matches(n: Net, ip: u32) {
    n.prefix <= 32 && Masked(ip, n.prefix) == Masked(n.first, n.prefix)
  }

  /** The three unrolled tests. */
  function MatchMgmt(cidrs: seq<Net>, ip: u32): (hit: Option<nat>)
    requires |cidrs| <= MAX_CIDRS
    ensures hit.Some? <==> exists i :: 0 <= i < |cidrs| && Matches(cidrs[i], ip)
    ensures hit.Some? ==>
              && hit.value < |cidrs| && Matches(cidrs[hit.value], ip)
              && forall j :: 0 <= j < hit.value ==> !Matches(cidrs[j], ip)
  {
    if |cidrs| > 0 && Matches(cidrs[0], ip) then Some(0)
    else if |cidrs| > 1 && Matches(cidrs[1], ip) then Some(1)
    else if |cidrs| > 2 && Matches(cidrs[2], ip) then Some(2)
    else None
  }

  lemma MatchIsContains(n: Net, ip: u32)
    requires Aligned(n)
    ensures Matches(n, ip) <==> Contains(n, ip)
  {
    assert Masked(n.first, n.prefix) == n.first;
    if Contains(n, ip) {
      SameBlock(n.first, ip, BlockSize(n));
    }
  }

  lemma SameBlock(first: nat, ip: nat, size: nat)
    requires size > 0 && first % size == 0 && first <= ip < first + size
    ensures BlockStart(ip, size) == first
  {
    var q := first / size;
    assert first == q * size;
    DivIs(ip, size, q);
  }

  lemma {:induction false} FlattenRoutes(extracts: seq<seq<Net>>, ip: u32)
    ensures InRoutes(extracts, ip) <==> Routed(Flatten(extracts), ip)
  {
    if extracts != [] {
      var n := |extracts| - 1;
      var front := extracts[..n];
      FlattenRoutes(front, ip);
      RoutedConcat(Flatten(front), extracts[n], ip);
      if InRoutes(extracts, ip) {
        var i :| 0 <= i <= n && Routed(extracts[i], ip);
        assert i < n ==> Routed(front[i], ip);
      }
      if InRoutes(front, ip) {
        var i :| 0 <= i < n && Routed(front[i], ip);
        assert Routed(extracts[i], ip);
      }
    }
  }

  lemma RoutedConcat(a: seq<Net>, b: seq<Net>, ip: u32)
    ensures Routed(a + b, ip) <==> Routed(a, ip) || Routed(b, ip)
  {
    if Routed(a + b, ip) {
      var i :| 0 <= i < |a + b| && Contains((a + b)[i], ip);
      assert if i < |a| then Contains(a[i], ip) else Contains(b[i - |a|], ip);
    }
    if Routed(a, ip) {
      var i :| 0 <= i < |a| && Contains(a[i], ip);
      assert Contains((a + b)[i], ip);
    }
    if Routed(b, ip) {
      var i :| 0 <= i < |b| && Contains(b[i], ip);
      assert Contains((a + b)[|a| + i], ip);
    }
  }

  ghost predicate AllAligned(nets: seq<Net>) {
    forall i :: 0 <= i < |nets| ==> Aligned(nets[i])
  }

  /** A slot extracts an address exactly if one of the first three routes holds it. */
  lemma ExtractedExact(extracts: seq<seq<Net>>, ip: u32)
    requires AllAligned(Flatten(extracts))
    ensures MatchMgmt(FirstThree(Flatten(extracts)), ip).Some? <==> Routed(FirstThree(Flatten(extracts)), ip)
  {
    var cidrs := FirstThree(Flatten(extracts));
    forall i | 0 <= i < |cidrs| ensures Matches(cidrs[i], ip) <==> Contains(cidrs[i], ip) {
      MatchIsContains(cidrs[i], ip);
    }
  }

  /** With at most three routes in all, traffic to every accepted service is extracted.
      Validation counts the extracts, not the routes, so it does not establish this. */
  lemma AcceptedVipsExtracted(services: seq<Service>, extracts: seq<seq<Net>>, i: nat)
    requires Acceptable(services, extracts) && i < |services|
    requires AllAligned(Flatten(extracts)) && |Flatten(extracts)| <= MAX_CIDRS
    ensures MatchMgmt(Flatten(extracts), services[i].vip).Some?
  {
    FlattenRoutes(extracts, services[i].vip);
    ExtractedExact(extracts, services[i].vip);
  }

  /** An accepted configuration, one extract with four routes, whose only service is
      never extracted. */
  lemma FourthRouteIsLost()
    ensures var routes := [Net(1, 32), Net(2, 32), Net(3, 32), Net(4, 32)];
            && Acceptable([Service(4, 80, 9, 80)], [routes])
            && MatchMgmt(FirstThree(Flatten([routes])), 4).None?
  {
    var routes := [Net(1, 32), Net(2, 32), Net(3, 32), Net(4, 32)];
    assert Pow2(0) == 1;
    assert Contains(routes[3], 4);
    assert Routed([routes][0], 4);
    var none: seq<seq<Net>> := [];
    assert [routes][..0] == none;
    assert Flatten([routes]) == routes;
    assert FirstThree(routes) == routes[..3];
    assert Masked(4, 32) == 4 && Masked(1, 32) == 1 && Masked(2, 32) == 2 && Masked(3, 32) == 3;
  }
}
