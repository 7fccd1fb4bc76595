/** The gateway's entry in the classification table of a node whose controller
    computed the gateway from the node's pod CIDR. */
module GatewayEntry {
  import opened Collections
  import opened Addresses
  import opened Gateway
  import opened Flows
  import opened Switch
  import opened Cluster
  import opened Compiler
  import opened Routing

  /** What the text of a block covers, and which pod addresses count as local, in numbers. */
  lemma LocalIsRange(cfg: Config, c: Cidr, ip: Ip)
    requires c.Valid() && cfg.podCIDR == CIDRText(c)
    ensures Covers(cfg.podCIDR, ip) <==> NetworkAddress(c) <= ip < NetworkAddress(c) + c.Size()
    ensures IsLocal(cfg, IPText(ip)) <==> NetworkAddress(c) <= ip < NetworkAddress(c) + c.Size()
  {
    ParseCIDRText(c);
    ParseIPText(ip);
    BlockIsRange(c, ip);
  }

  /** How `NewController` sets the gateway. */
  predicate Constructed(cfg: Config) {
    ControllerGateway(cfg.podCIDR) == Some(cfg.gatewayIP)
  }

  function GatewayFlow(cfg: Config): FlowSpec {
    ClassifierFlow(500, cfg.gatewayIP).(local := true)
  }

  function SubnetFlow(cfg: Config): FlowSpec {
    ClassifierFlow(300, cfg.podCIDR).(resubmit := TABLE_L2_REWRITES)
  }

  lemma ConstructedParses(cfg: Config)
    requires Constructed(cfg)
    ensures ParseCIDR(cfg.podCIDR).Some? && cfg.gatewayIP != "" && cfg.podCIDR != ""
  {
    EmptyIsNoAddress();
    if ParseCIDR(cfg.podCIDR).Some? {
      var gw := NextIP(Mask(ParseSubnet(cfg.podCIDR).value.0, ParseSubnet(cfg.podCIDR).value.1));
      if |gw| == 4 {
        JoinIsNotEmpty([Text.NatText(gw[0]), Text.NatText(gw[1]), Text.NatText(gw[2]), Text.NatText(gw[3])], '.');
      }
    }
  }

  lemma JoinIsNotEmpty(parts: seq<string>, sep: char)
    requires |parts| > 1
    ensures Text.Join(parts, sep) != ""
  {
  }

  /** The two address texts, in numbers. */
  lemma TextsCover(cfg: Config, ip: Ip)
    requires Constructed(cfg)
    ensures ParseCIDR(cfg.podCIDR).Some?
    ensures Covers(cfg.gatewayIP, ip) <==> GatewayOf(cfg.podCIDR) == Some(ip)
    ensures Covers(cfg.podCIDR, ip) <==> ParseCIDR(cfg.podCIDR).value.Contains(ip)
  {
    ConstructedParses(cfg);
    GatewayTextDenotes(cfg.podCIDR, ip);
  }

  predicate Compete(cfg: Config, ip: Ip) {
    Covers(cfg.gatewayIP, ip) && Covers(cfg.podCIDR, ip)
  }

  /** Entries compete at the gateway if anywhere. */
  lemma CompeteAtGateway(cfg: Config)
    requires Constructed(cfg)
    ensures (exists ip: Ip :: Compete(cfg, ip))
            <==> GatewayOf(cfg.podCIDR).Some? && Covers(cfg.podCIDR, GatewayOf(cfg.podCIDR).value)
  {
    forall ip: Ip ensures Covers(cfg.gatewayIP, ip) <==> GatewayOf(cfg.podCIDR) == Some(ip) {
      TextsCover(cfg, ip);
    }
    if GatewayOf(cfg.podCIDR).Some? && Covers(cfg.podCIDR, GatewayOf(cfg.podCIDR).value) {
      assert Compete(cfg, GatewayOf(cfg.podCIDR).value);
    }
  }

  /** The gateway entry and the subnet entry compete for some packet exactly when the
      subnet has room for a gateway and the gateway's first octet is not zero. */
  lemma EntriesCompeteIff(cfg: Config)
    requires Constructed(cfg)
    ensures ParseCIDR(cfg.podCIDR).Some?
    ensures var c := ParseCIDR(cfg.podCIDR).value;
            (exists ip: Ip :: Compete(cfg, ip)) <==> c.len <= 31 && NetworkAddress(c) + 1 >= 0x100_0000
  {
    ConstructedParses(cfg);
    CompeteAtGateway(cfg);
    GatewayOfIsInsideIff(cfg.podCIDR);
    if GatewayOf(cfg.podCIDR).Some? {
      TextsCover(cfg, GatewayOf(cfg.podCIDR).value);
    }
  }

  /** In a subnet of more than one address, the gateway text covers nothing outside. */
  lemma GatewayIsInSubnet(cfg: Config, ip: Ip)
    requires Constructed(cfg) && ParseCIDR(cfg.podCIDR).value.len <= 31
    requires Covers(cfg.gatewayIP, ip)
    ensures Covers(cfg.podCIDR, ip)
  {
    TextsCover(cfg, ip);
    GatewayOfIsInside(cfg.podCIDR, ip);
  }

  lemma GatewayWins(cfg: Config, snap: Snapshot, ports: Ports, p: Packet, e: Entry)
    requires p.payload.IPv4? && Compete(cfg, p.payload.dst)
    requires Selects(Compile(cfg, snap, ports), TABLE_CLASSIFICATION, p, e)
    ensures Matches(Plain(GatewayFlow(cfg)), p) && Matches(Plain(SubnetFlow(cfg)), p)
    ensures e.Priority() >= 500 && Act(e, p) == Done(Sent(LocalPort, p))
  {
    Classifiers(cfg, snap, ports, p, e);
    GatewayFloor(cfg, snap, ports, p, e);
  }

  /** And then the gateway entry always shadows the subnet entry: a packet for the
      gateway matches both, and whatever is selected for it has at least the priority
      of the former and hands the packet to the local port. */
  lemma GatewayShadowsSubnet(cfg: Config, snap: Snapshot, ports: Ports, p: Packet, e: Entry)
    requires Constructed(cfg) && ParseCIDR(cfg.podCIDR).value.len <= 31
    requires p.payload.IPv4? && Covers(cfg.gatewayIP, p.payload.dst)
    requires Selects(Compile(cfg, snap, ports), TABLE_CLASSIFICATION, p, e)
    ensures Matches(Plain(GatewayFlow(cfg)), p) && Matches(Plain(SubnetFlow(cfg)), p)
    ensures e.Priority() >= 500 && Act(e, p) == Done(Sent(LocalPort, p))
  {
    GatewayIsInSubnet(cfg, p.payload.dst);
    GatewayWins(cfg, snap, ports, p, e);
  }
}
