/** What the CNI plugin does with the gateways: it completes the result of the address
    assignment, and it puts the gateway's address on the bridge. */
module Bridge {
  import opened Collections
  import opened Gateway
  import Addresses

  datatype Family = V4 | V6

  datatype IPConfig = IPConfig(ip: Bytes, mask: Bytes, gateway: Option<Bytes>, iface: int)

  /** A route to `dst`, or, with no destination, the default route of a family. */
  datatype Destination = Default(family: Family) | Subnet(ip: Bytes, mask: Bytes)

  datatype GwRoute = GwRoute(dst: Destination, gw: Option<Bytes>)

  datatype GwAddr = GwAddr(ip: Option<Bytes>, mask: Bytes)

  datatype GwInfo = GwInfo(gws: seq<GwAddr>, family: Option<Family>, defaultRouteFound: bool)

  // ----- Completing the result

  function FamilyOf(c: IPConfig): Option<Family> {
    if To4(c.ip).Some? then Some(V4) else if |c.ip| == 16 then Some(V6) else None
  }

  predicate IsFamily(f: Family, c: IPConfig) {
    FamilyOf(c) == Some(f)
  }

  /** Four bytes are an IPv4 address, and so are sixteen that begin with ten zeros and two
      full bytes; other addresses of sixteen bytes are IPv6, and nothing else is an address. */
  lemma FamilyIs(c: IPConfig)
    ensures IsFamily(V4, c)
            <==> |c.ip| == 4 || (|c.ip| == 16 && (forall i :: 0 <= i < 10 ==> c.ip[i] == 0) && c.ip[10] == c.ip[11] == 255)
    ensures IsFamily(V6, c) <==> |c.ip| == 16 && !IsFamily(V4, c)
  {
    if |c.ip| == 16 {
      assert c.ip[..12] == V4_PREFIX <==> forall i :: 0 <= i < 12 ==> c.ip[i] == V4_PREFIX[i];
    }
  }

  function Completed(isGW: bool): IPConfig -> IPConfig {
    (c: IPConfig) =>
      c.(iface := 2, gateway := if c.gateway.None? && isGW then Some(PluginGateway(c.ip, c.mask)) else c.gateway)
  }

  function Other(f: Family): Family {
    if f.V4? then V6 else V4
  }

  function AddrOf(isGW: bool): IPConfig -> GwAddr {
    (c: IPConfig) => GwAddr(Completed(isGW)(c).gateway, c.mask)
  }

  function OfFamily(f: Family, ips: seq<IPConfig>): seq<IPConfig> {
    Where(InFamily(f), ips)
  }

  function InFamily(f: Family): IPConfig -> bool {
    (c: IPConfig) => IsFamily(f, c)
  }

  predicate HasFamily(f: Family, ips: seq<IPConfig>) {
    exists c :: c in ips && IsFamily(f, c)
  }

  predicate IsDefault(f: Family, r: GwRoute) {
    r.gw.Some? && r.dst == Default(f)
  }

  predicate HasDefault(f: Family, routes: seq<GwRoute>) {
    exists r :: r in routes && IsDefault(f, r)
  }

  /** The default routes that get added: one for each family whose first address comes
      up while there is none, through that address's gateway. */
  function AddedDefaults(isGW: bool, routes: seq<GwRoute>, ips: seq<IPConfig>): seq<GwRoute> {
    if ips == [] then []
    else
      var init, last := ips[..|ips| - 1], ips[|ips| - 1];
      var added := AddedDefaults(isGW, routes, init);
      match FamilyOf(last)
      case None => added
      case Some(f) =>
        if HasFamily(f, init) || HasDefault(f, routes) then added
        else added + [GwRoute(Default(f), Completed(isGW)(last).gateway)]
  }

  function Info(f: Family, isGW: bool, isDefaultGW: bool, ips: seq<IPConfig>): GwInfo {
    GwInfo(if isGW then Map(AddrOf(isGW), OfFamily(f, ips)) else [],
           if HasFamily(f, ips) then Some(f) else None,
           isDefaultGW && HasFamily(f, ips))
  }

  lemma HasFamilyStep(f: Family, init: seq<IPConfig>, c: IPConfig)
    ensures HasFamily(f, init + [c]) <==> HasFamily(f, init) || IsFamily(f, c)
  {
    assert c in init + [c];
    if d :| d in init && IsFamily(f, d) {
      assert d in init + [c];
    }
  }

  lemma GatewaysStep(f: Family, isGW: bool, init: seq<IPConfig>, c: IPConfig)
    ensures Map(AddrOf(isGW), OfFamily(f, init + [c]))
            == Map(AddrOf(isGW), OfFamily(f, init)) + (if IsFamily(f, c) then [AddrOf(isGW)(c)] else [])
  {
    assert (init + [c])[..|init|] == init;
    var was := OfFamily(f, init);
    assert OfFamily(f, init + [c]) == if IsFamily(f, c) then was + [c] else was;
    assert (was + [c])[..|was|] == was;
  }

  /** What one more address of family `f` changes. */
  function NextInfo(was: GwInfo, f: Family, isGW: bool, isDefaultGW: bool, c: IPConfig): GwInfo {
    GwInfo(was.gws + (if isGW then [AddrOf(isGW)(c)] else []), Some(f), was.defaultRouteFound || isDefaultGW)
  }

  lemma InfoStep(f: Family, isGW: bool, isDefaultGW: bool, init: seq<IPConfig>, c: IPConfig)
    ensures var was := Info(f, isGW, isDefaultGW, init);
            Info(f, isGW, isDefaultGW, init + [c])
            == if IsFamily(f, c) then NextInfo(was, f, isGW, isDefaultGW, c) else was
  {
    HasFamilyStep(f, init, c);
    GatewaysStep(f, isGW, init, c);
  }

  /** Only defaults of families that came up are added. */
  lemma {:induction false} AddedAreOfFamilies(isGW: bool, routes: seq<GwRoute>, ips: seq<IPConfig>, r: GwRoute)
    requires r in AddedDefaults(isGW, routes, ips)
    ensures r.dst.Default? && HasFamily(r.dst.family, ips) && !HasDefault(r.dst.family, routes)
  {
    var init, last := ips[..|ips| - 1], ips[|ips| - 1];
    assert ips == init + [last];
    if r in AddedDefaults(isGW, routes, init) {
      AddedAreOfFamilies(isGW, routes, init, r);
      var c :| c in init && IsFamily(r.dst.family, c);
      assert c in ips;
    } else {
      assert IsFamily(r.dst.family, last);
    }
  }

  lemma DefaultAfter(f: Family, isGW: bool, routes: seq<GwRoute>, ips: seq<IPConfig>)
    requires !HasFamily(f, ips)
    ensures HasDefault(f, routes + AddedDefaults(isGW, routes, ips)) <==> HasDefault(f, routes)
  {
    var all := routes + AddedDefaults(isGW, routes, ips);
    if r :| r in all && IsDefault(f, r) {
      if r in AddedDefaults(isGW, routes, ips) {
        AddedAreOfFamilies(isGW, routes, ips, r);
      }
    }
    if r :| r in routes && IsDefault(f, r) {
      assert r in all;
    }
  }

  /** The default route that is added at address `c`, if any, when `routes` are there already. */
  function NextDefault(found: bool, f: Family, isGW: bool, routes: seq<GwRoute>, c: IPConfig): seq<GwRoute> {
    if found || HasDefault(f, routes) then [] else [GwRoute(Default(f), Completed(isGW)(c).gateway)]
  }

  lemma AddedStep(f: Family, isGW: bool, routes: seq<GwRoute>, init: seq<IPConfig>, c: IPConfig)
    requires IsFamily(f, c)
    ensures var added := AddedDefaults(isGW, routes, init);
            AddedDefaults(isGW, routes, init + [c])
            == added + NextDefault(HasFamily(f, init), f, isGW, routes + added, c)
  {
    assert (init + [c])[..|init|] == init;
    if !HasFamily(f, init) {
      DefaultAfter(f, isGW, routes, init);
    }
  }

  function Defaults(isGW: bool, isDefaultGW: bool, routes: seq<GwRoute>, ips: seq<IPConfig>): seq<GwRoute> {
    if isDefaultGW then AddedDefaults(isGW, routes, ips) else []
  }

  /** The first `i` addresses are done and the others are as they were. */
  predicate CompletedUpTo(isGW: bool, was: seq<IPConfig>, ips: seq<IPConfig>, i: nat)
    requires |ips| == |was|
  {
    && (forall j :: i <= j < |was| ==> ips[j] == was[j])
    && (forall j :: 0 <= j < |was| && j < i ==> ips[j] == Completed(isGW)(was[j]) && FamilyOf(was[j]).Some?)
  }

  lemma NothingYet(isGW: bool, isDefaultGW: bool, routes: seq<GwRoute>)
    ensures Info(V4, isGW, isDefaultGW, []) == Info(V6, isGW, isDefaultGW, []) == GwInfo([], None, false)
    ensures Defaults(isGW, isDefaultGW, routes, []) == []
  {
  }

  lemma CompletedStep(f: Family, isGW: bool, was: seq<IPConfig>, ips: seq<IPConfig>, i: nat)
    requires i < |ips| == |was| && CompletedUpTo(isGW, was, ips, i) && IsFamily(f, was[i])
    ensures CompletedUpTo(isGW, was, ips[i := Completed(isGW)(ips[i])], i + 1)
  {
  }

  lemma AllCompleted(isGW: bool, was: seq<IPConfig>, ips: seq<IPConfig>)
    requires |ips| == |was| && CompletedUpTo(isGW, was, ips, |was|)
    ensures ips == Map(Completed(isGW), was)
    ensures forall c :: c in was ==> FamilyOf(c).Some?
  {
  }

  lemma NextInfos(f: Family, isGW: bool, isDefaultGW: bool, ips: seq<IPConfig>, i: nat)
    requires i < |ips| && IsFamily(f, ips[i])
    ensures Info(f, isGW, isDefaultGW, ips[..i + 1])
            == NextInfo(Info(f, isGW, isDefaultGW, ips[..i]), f, isGW, isDefaultGW, ips[i])
    ensures Info(Other(f), isGW, isDefaultGW, ips[..i + 1]) == Info(Other(f), isGW, isDefaultGW, ips[..i])
  {
    assert ips[..i + 1] == ips[..i] + [ips[i]];
    InfoStep(f, isGW, isDefaultGW, ips[..i], ips[i]);
    InfoStep(Other(f), isGW, isDefaultGW, ips[..i], ips[i]);
  }

  lemma NextRoutes(f: Family, isGW: bool, routes: seq<GwRoute>, ips: seq<IPConfig>, i: nat)
    requires i < |ips| && IsFamily(f, ips[i])
    ensures var before := routes + AddedDefaults(isGW, routes, ips[..i]);
            routes + AddedDefaults(isGW, routes, ips[..i + 1])
            == before + NextDefault(HasFamily(f, ips[..i]), f, isGW, before, ips[i])
  {
    assert ips[..i + 1] == ips[..i] + [ips[i]];
    AddedStep(f, isGW, routes, ips[..i], ips[i]);
  }

  class IPAMResult {
    var ips: seq<IPConfig>
    var routes: seq<GwRoute>

    constructor (ips: seq<IPConfig>, routes: seq<GwRoute>)
      ensures this.ips == ips && this.routes == routes
    {
      this.ips, this.routes := ips, routes;
    }

    /** Is there a default route with a gateway? */
    method FindDefault(f: Family) returns (found: bool)
      ensures found == HasDefault(f, routes)
    {
      found := false;
      for k := 0 to |routes|
        invariant forall j :: 0 <= j < k ==> !IsDefault(f, routes[j])
      {
        if IsDefault(f, routes[k]) {
          return true;
        }
      }
    }

    /** One iteration of the loop, at address `i` of family `f`. */
    method Complete(i: nat, f: Family, isGW: bool, isDefaultGW: bool, gws: GwInfo) returns (r: GwInfo)
      requires i < |ips|
      modifies this
      ensures ips == old(ips)[i := Completed(isGW)(old(ips)[i])]
      ensures routes == old(routes)
                        + if isDefaultGW then NextDefault(gws.defaultRouteFound, f, isGW, old(routes), old(ips)[i])
                          else []
      ensures r == NextInfo(gws, f, isGW, isDefaultGW, old(ips)[i])
    {
      r := gws.(family := Some(f));
      var c := ips[i].(iface := 2);
      if c.gateway.None? && isGW {
        c := c.(gateway := Some(PluginGateway(c.ip, c.mask)));
      }
      ips := ips[i := c];
      if isDefaultGW && !r.defaultRouteFound {
        var found := FindDefault(f);
        if !found {
          routes := routes + [GwRoute(Default(f), c.gateway)];
        }
        r := r.(defaultRouteFound := true);
      }
      if isGW {
        r := r.(gws := r.gws + [GwAddr(c.gateway, c.mask)]);
      }
    }

    /** The iteration in terms of the addresses and routes before the loop. */
    method CompleteNext(i: nat, f: Family, isGW: bool, isDefaultGW: bool, gws: GwInfo,
                        ghost was: seq<IPConfig>, ghost had: seq<GwRoute>) returns (r: GwInfo)
      requires i < |ips| == |was| && CompletedUpTo(isGW, was, ips, i) && IsFamily(f, was[i])
      requires routes == had + Defaults(isGW, isDefaultGW, had, was[..i])
      requires gws == Info(f, isGW, isDefaultGW, was[..i])
      modifies this
      ensures |ips| == |was| && CompletedUpTo(isGW, was, ips, i + 1)
      ensures routes == had + Defaults(isGW, isDefaultGW, had, was[..i + 1])
      ensures r == Info(f, isGW, isDefaultGW, was[..i + 1])
      ensures Info(Other(f), isGW, isDefaultGW, was[..i + 1]) == Info(Other(f), isGW, isDefaultGW, was[..i])
    {
      NextInfos(f, isGW, isDefaultGW, was, i);
      NextRoutes(f, isGW, had, was, i);
      CompletedStep(f, isGW, was, ips, i);
      r := Complete(i, f, isGW, isDefaultGW, gws);
    }

    /** Fails on an address of neither family; otherwise completes every address, adds the
        missing default routes and collects the gateways of each family in order. */
    method CalcGateways(isGW: bool, isDefaultGW: bool) returns (ok: bool, gwsV4: GwInfo, gwsV6: GwInfo)
      modifies this
      ensures ok <==> forall c :: c in old(ips) ==> FamilyOf(c).Some?
      ensures ok ==>
                && ips == Map(Completed(isGW), old(ips))
                && routes == old(routes) + Defaults(isGW, isDefaultGW, old(routes), old(ips))
                && gwsV4 == Info(V4, isGW, isDefaultGW, old(ips))
                && gwsV6 == Info(V6, isGW, isDefaultGW, old(ips))
    {
      gwsV4, gwsV6 := GwInfo([], None, false), GwInfo([], None, false);
      ghost var was, had := ips, routes;
      NothingYet(isGW, isDefaultGW, had);
      assert was[..0] == [];
      for i := 0 to |ips|
        invariant |ips| == |was| && CompletedUpTo(isGW, was, ips, i)
        invariant routes == had + Defaults(isGW, isDefaultGW, had, was[..i])
        invariant gwsV4 == Info(V4, isGW, isDefaultGW, was[..i])
        invariant gwsV6 == Info(V6, isGW, isDefaultGW, was[..i])
      {
        match FamilyOf(ips[i])
        case None =>
          assert was[i] in was;
          return false, gwsV4, gwsV6;
        case Some(V4) =>
          gwsV4 := CompleteNext(i, V4, isGW, isDefaultGW, gwsV4, was, had);
        case Some(V6) =>
          gwsV6 := CompleteNext(i, V6, isGW, isDefaultGW, gwsV6, was, had);
      }
      AllCompleted(isGW, was, ips);
      assert was[..|was|] == was;
      ok := true;
    }
  }

  // ----- What the result promises

  /** Exactly one default route is added for each family that comes up while it has
      none with a gateway, and none is added for any other. */
  lemma {:induction false} DefaultsAreAddedOnce(isGW: bool, routes: seq<GwRoute>, ips: seq<IPConfig>, f: Family)
    ensures |Where(RouteFor(f), AddedDefaults(isGW, routes, ips))|
            == if HasFamily(f, ips) && !(exists r :: r in routes && r.dst == Default(f) && r.gw.Some?) then 1 else 0
  {
    if ips != [] {
      var init, last := ips[..|ips| - 1], ips[|ips| - 1];
      assert ips == init + [last];
      DefaultsAreAddedOnce(isGW, routes, init, f);
      HasFamilyStep(f, init, last);
      var added := AddedDefaults(isGW, routes, init);
      if FamilyOf(last).Some? {
        AddedStep(FamilyOf(last).value, isGW, routes, init, last);
        if r :| AddedDefaults(isGW, routes, ips) == added + [r] {
          assert (added + [r])[..|added|] == added;
        }
      }
    }
  }

  function RouteFor(f: Family): GwRoute -> bool {
    (r: GwRoute) => r.dst == Default(f)
  }

  lemma NoneBefore(f: Family, ips: seq<IPConfig>, i: nat)
    requires i <= |ips| && forall j :: 0 <= j < i ==> !IsFamily(f, ips[j])
    ensures !HasFamily(f, ips[..i])
  {
  }

  /** The added default route of a family goes through the gateway of the family's first address. */
  lemma {:induction false} DefaultGoesThroughFirst(isGW: bool, routes: seq<GwRoute>, ips: seq<IPConfig>, f: Family, i: nat)
    requires i < |ips| && IsFamily(f, ips[i])
    requires forall r :: r in routes && r.dst == Default(f) ==> r.gw.None?
    requires forall j :: 0 <= j < i ==> !IsFamily(f, ips[j])
    ensures GwRoute(Default(f), Map(Completed(isGW), ips)[i].gateway) in AddedDefaults(isGW, routes, ips)
  {
    if i < |ips| - 1 {
      DefaultGoesThroughFirst(isGW, routes, ips[..|ips| - 1], f, i);
    } else {
      NoneBefore(f, ips, i);
    }
  }

  /** Address `i` afterwards: it belongs to the container's interface, a gateway that was
      given is kept, and a missing one is computed if the bridge is a gateway at all. */
  lemma CompletedAt(isGW: bool, ips: seq<IPConfig>, i: nat)
    requires i < |ips|
    ensures var c := Map(Completed(isGW), ips)[i];
            && c.ip == ips[i].ip && c.mask == ips[i].mask && c.iface == 2
            && (ips[i].gateway.Some? ==> c.gateway == ips[i].gateway)
            && (ips[i].gateway.None? ==> c.gateway.Some? == isGW)
  {
  }

  /** A computed gateway is the network address plus one, in either family. */
  lemma ComputedGatewayV4(ips: seq<IPConfig>, i: nat, ip: Addresses.Ip, ones: nat)
    requires i < |ips| && ips[i].gateway.None?
    requires IsForm(ips[i].ip, ip) && ones <= 32 && ips[i].mask == CIDRMask(ones, 4)
    ensures Map(Completed(true), ips)[i].gateway.Some?
    ensures Value(Map(Completed(true), ips)[i].gateway.value) == Cleared(ip, 32 - ones) + 1
  {
    PluginGatewayV4(ips[i].ip, ip, ones);
  }

  lemma ComputedGatewayV6(ips: seq<IPConfig>, i: nat, ones: nat, k: nat)
    requires i < |ips| && ips[i].gateway.None?
    requires FamilyOf(ips[i]) == Some(V6) && ones + k == 128 && ips[i].mask == CIDRMask(ones, |ips[i].ip|)
    ensures Map(Completed(true), ips)[i].gateway.Some?
    ensures Value(Map(Completed(true), ips)[i].gateway.value) == Cleared(Value(ips[i].ip), k) + 1
  {
    PluginGatewayV6(ips[i].ip, ones, k, ips[i].mask);
  }

  /** How many addresses of the family there are. */
  function CountFamily(f: Family, ips: seq<IPConfig>): nat {
    if ips == [] then 0
    else CountFamily(f, ips[..|ips| - 1]) + (if IsFamily(f, ips[|ips| - 1]) then 1 else 0)
  }

  lemma {:induction false} FamilyListLength(f: Family, isGW: bool, isDefaultGW: bool, ips: seq<IPConfig>)
    ensures |Info(f, isGW, isDefaultGW, ips).gws| == if isGW then CountFamily(f, ips) else 0
  {
    if ips != [] {
      var init, last := ips[..|ips| - 1], ips[|ips| - 1];
      assert ips == init + [last];
      FamilyListLength(f, isGW, isDefaultGW, init);
      InfoStep(f, isGW, isDefaultGW, init, last);
    }
  }

  lemma EntryKept(f: Family, isDefaultGW: bool, init: seq<IPConfig>, last: IPConfig)
    ensures Info(f, true, isDefaultGW, init).gws <= Info(f, true, isDefaultGW, init + [last]).gws
    ensures IsFamily(f, last)
            ==> Info(f, true, isDefaultGW, init + [last]).gws
                == Info(f, true, isDefaultGW, init).gws + [AddrOf(true)(last)]
  {
    InfoStep(f, true, isDefaultGW, init, last);
  }

  lemma EarlierEntry(f: Family, isDefaultGW: bool, init: seq<IPConfig>, last: IPConfig, k: nat, x: GwAddr)
    requires k < |Info(f, true, isDefaultGW, init).gws| && Info(f, true, isDefaultGW, init).gws[k] == x
    ensures k < |Info(f, true, isDefaultGW, init + [last]).gws|
    ensures Info(f, true, isDefaultGW, init + [last]).gws[k] == x
  {
    EntryKept(f, isDefaultGW, init, last);
  }

  lemma LastEntry(f: Family, isDefaultGW: bool, init: seq<IPConfig>, last: IPConfig)
    requires IsFamily(f, last)
    ensures CountFamily(f, init) < |Info(f, true, isDefaultGW, init + [last]).gws|
    ensures Info(f, true, isDefaultGW, init + [last]).gws[CountFamily(f, init)] == AddrOf(true)(last)
  {
    EntryKept(f, isDefaultGW, init, last);
    FamilyListLength(f, true, isDefaultGW, init);
  }

  lemma {:induction false} EntryAt(f: Family, isDefaultGW: bool, ips: seq<IPConfig>, i: nat)
    requires i < |ips| && IsFamily(f, ips[i])
    ensures CountFamily(f, ips[..i]) < |Info(f, true, isDefaultGW, ips).gws|
    ensures Info(f, true, isDefaultGW, ips).gws[CountFamily(f, ips[..i])] == AddrOf(true)(ips[i])
  {
    var init, last := ips[..|ips| - 1], ips[|ips| - 1];
    assert ips == init + [last];
    if i < |ips| - 1 {
      EntryAt(f, isDefaultGW, init, i);
      assert init[..i] == ips[..i];
      EarlierEntry(f, isDefaultGW, init, last, CountFamily(f, ips[..i]), AddrOf(true)(ips[i]));
    } else {
      LastEntry(f, isDefaultGW, init, last);
    }
  }

  /** Each family's list has one entry per address of it, in order: the address's gateway
      afterwards, with the address's mask. */
  lemma FamilyListAt(f: Family, isDefaultGW: bool, ips: seq<IPConfig>, i: nat)
    requires i < |ips| && IsFamily(f, ips[i])
    ensures var gws := Info(f, true, isDefaultGW, ips).gws; var k := CountFamily(f, ips[..i]);
            && |gws| == CountFamily(f, ips) && k < |gws|
            && gws[k] == GwAddr(Map(Completed(true), ips)[i].gateway, ips[i].mask)
  {
    FamilyListLength(f, true, isDefaultGW, ips);
    EntryAt(f, isDefaultGW, ips, i);
  }

  // ----- The address of the bridge

  /** An address with the length of its prefix. */
  datatype Net = Net(ip: nat, len: nat) {
    predicate Contains(width: nat, other: nat) {
      len <= width && other / Addresses.Pow2(width - len) == ip / Addresses.Pow2(width - len)
    }
  }

  /** IPv4 allows one address on the bridge; IPv6 addresses must not overlap. */
  predicate Conflict(f: Family, net: Net, a: Net) {
    a != net && (f.V4? || a.Contains(128, net.ip) || net.Contains(128, a.ip))
  }

  lemma ContainsIfOverlap(a: Net, b: Net, x: nat)
    requires a.len <= b.len <= 128 && a.Contains(128, x) && b.Contains(128, x)
    ensures a.Contains(128, b.ip)
  {
    var p, q := Addresses.Pow2(128 - b.len), Addresses.Pow2(b.len - a.len);
    Pow2Sum(128 - b.len, b.len - a.len);
    DivideTwice(x, p, q);
    DivideTwice(b.ip, p, q);
  }

  /** IPv6 addresses conflict exactly when some address is in both of their blocks. */
  lemma ConflictIffOverlap(net: Net, a: Net)
    requires net.len <= 128 && a.len <= 128
    ensures Conflict(V6, net, a) <==> a != net && exists x: nat :: a.Contains(128, x) && net.Contains(128, x)
  {
    if x: nat :| a.Contains(128, x) && net.Contains(128, x) {
      if a.len <= net.len {
        ContainsIfOverlap(a, net, x);
      } else {
        ContainsIfOverlap(net, a, x);
      }
    }
    assert net.Contains(128, net.ip) && a.Contains(128, a.ip);
  }

  /** The addresses listed before `net`. */
  function Before(listed: seq<Net>, net: Net): seq<Net> {
    if listed == [] || listed[0] == net then [] else [listed[0]] + Before(listed[1..], net)
  }

  function Conflicts(f: Family, net: Net, listed: seq<Net>): set<Net> {
    set a | a in Before(listed, net) && Conflict(f, net, a)
  }

  lemma {:induction false} BeforeIs(listed: seq<Net>, net: Net, i: nat)
    requires i <= |listed| && net !in listed[..i] && (i < |listed| ==> listed[i] == net)
    ensures Before(listed, net) == listed[..i]
  {
    if i > 0 {
      assert listed[0] in listed[..i];
      assert listed[..i][1..] == listed[1..][..i - 1];
      BeforeIs(listed[1..], net, i - 1);
    }
  }

  lemma {:induction false} BeforeIsPrefix(listed: seq<Net>, net: Net)
    ensures Before(listed, net) <= listed && net !in Before(listed, net)
    ensures net in listed <==> Before(listed, net) != listed
  {
    if listed != [] && listed[0] != net {
      BeforeIsPrefix(listed[1..], net);
      assert listed == [listed[0]] + listed[1..];
    }
  }

  /** An IPv4 bridge is left with this one address exactly when no other address is
      listed after it. */
  lemma SoleAddressIff(net: Net, listed: seq<Net>, addrs: set<Net>)
    requires forall a :: a in listed <==> a in addrs
    ensures addrs - Conflicts(V4, net, listed) + {net} == {net}
            <==> forall a :: a in listed && a != net ==> a in Before(listed, net)
  {
    var after := addrs - Conflicts(V4, net, listed) + {net};
    if after == {net} {
      forall a | a in listed && a != net ensures a in Before(listed, net) {
        assert a !in after;
      }
    }
  }

  class BridgeDevice {
    var addrs: set<Net>

    constructor (addrs: set<Net>)
      ensures this.addrs == addrs
    {
      this.addrs := addrs;
    }

    /** Puts `net` on the bridge. `listed` are the addresses in the order the kernel
        lists them, and only those listed before `net` are looked at. */
    method EnsureBridgeAddr(f: Family, net: Net, force: bool, listed: seq<Net>) returns (ok: bool)
      requires forall a :: a in listed <==> a in addrs
      modifies this
      ensures ok <==> force || Conflicts(f, net, listed) == {}
      ensures addrs == if ok then old(addrs) - Conflicts(f, net, listed) + {net} else old(addrs)
      ensures ok && f.V4? ==> (addrs == {net} <==> forall a :: a in listed && a != net ==> a in Before(listed, net))
    {
      ghost var was := addrs;
      SoleAddressIff(net, listed, was);
      for i := 0 to |listed|
        invariant net !in listed[..i]
        invariant addrs == was - (set a | a in listed[..i] && Conflict(f, net, a))
        invariant force || forall a :: a in listed[..i] ==> !Conflict(f, net, a)
      {
        var a := listed[i];
        assert listed[..i + 1] == listed[..i] + [a];
        if a == net {
          BeforeIs(listed, net, i);
          return true;
        }
        if f.V4? || a.Contains(128, net.ip) || net.Contains(128, a.ip) {
          if force {
            addrs := addrs - {a};
          } else {
            BeforeIsPrefix(listed, net);
            FoundConflict(f, net, listed, i);
            return false;
          }
        }
      }
      BeforeIs(listed, net, |listed|);
      assert listed[..|listed|] == listed;
      addrs := addrs + {net};
      return true;
    }
  }

  lemma {:induction false} FoundConflict(f: Family, net: Net, listed: seq<Net>, i: nat)
    requires i < |listed| && net !in listed[..i] && Conflict(f, net, listed[i])
    ensures listed[i] in Conflicts(f, net, listed)
  {
    if i > 0 {
      assert listed[0] in listed[..i];
      assert listed[..i] == [listed[0]] + listed[1..][..i - 1];
      FoundConflict(f, net, listed[1..], i - 1);
    }
  }

  /** An address that could be added without force stays, in whichever order the
      addresses are listed later. */
  lemma AddedAddressIsStable(f: Family, net: Net, listed: seq<Net>, relisted: seq<Net>)
    requires net !in listed && Conflicts(f, net, listed) == {}
    requires forall a :: a in relisted <==> a in listed || a == net
    ensures Conflicts(f, net, relisted) == {}
  {
    BeforeIsPrefix(listed, net);
    BeforeIsPrefix(relisted, net);
    forall a | a in Before(relisted, net) ensures !Conflict(f, net, a) {
      if a != net {
        assert a in listed;
        assert a in Before(listed, net);
        assert a !in Conflicts(f, net, listed);
      }
    }
  }
}
