/** Clusters of two nodes that meet every assumption on addresses: numeric conditions
    that suffice, and a plan that fulfils them. */
module Example {
  import opened Collections
  import opened Addresses
  import opened Cluster
  import opened Compiler
  import opened Gateway
  import opened GatewayEntry
  import opened Routing
  import opened Overlay
  import opened PolicyMeaning
  import opened Switch

  /** The addresses of a cluster with one pod on each of two nodes. */
  datatype Plan = Plan(cluster: Cidr, subnetA: Cidr, subnetB: Cidr, overlayA: Ip, overlayB: Ip,
                       gatewayA: Ip, gatewayB: Ip, client: Ip, server: Ip)

  ghost predicate Within(a: Cidr, b: Cidr)
    requires a.Valid() && b.Valid()
  {
    forall ip: Ip :: a.Contains(ip) ==> b.Contains(ip)
  }

  ghost predicate Apart(a: Cidr, b: Cidr)
    requires a.Valid() && b.Valid()
  {
    forall ip: Ip :: !(a.Contains(ip) && b.Contains(ip))
  }

  /** The subnet has room for a gateway, and `ip` is it. */
  predicate IsGateway(subnet: Cidr, ip: Ip)
    requires subnet.Valid()
  {
    subnet.len <= 31 && ip == NetworkAddress(subnet) + 1 && ip >= 0x100_0000
  }

  ghost predicate Sound(p: Plan) {
    && p.cluster.Valid() && p.subnetA.Valid() && p.subnetB.Valid()
    && Within(p.subnetA, p.cluster) && Within(p.subnetB, p.cluster) && Apart(p.subnetA, p.subnetB)
    && !p.cluster.Contains(p.overlayA) && !p.cluster.Contains(p.overlayB) && p.overlayA != p.overlayB
    && IsGateway(p.subnetA, p.gatewayA) && IsGateway(p.subnetB, p.gatewayB)
    && p.subnetA.Contains(p.client) && p.subnetB.Contains(p.server)
    && p.client != p.gatewayA && p.server != p.gatewayB
  }

  function ConfigOf(p: Plan, name: string, subnet: Cidr, gateway: Ip): Config {
    Config(name, IPText(gateway), "02:00:00:00:00:01", "02:00:00:00:00:02", CIDRText(subnet), CIDRText(p.cluster), 1, 2)
  }

  function VSwitchOf(p: Plan, name: string, subnet: Cidr, overlay: Ip): VSwitch {
    VSwitch(name, CIDRText(subnet), CIDRText(p.cluster), "", IPText(overlay), "vxlan")
  }

  function VSwitchA(p: Plan): VSwitch {
    VSwitchOf(p, "a", p.subnetA, p.overlayA)
  }

  function VSwitchB(p: Plan): VSwitch {
    VSwitchOf(p, "b", p.subnetB, p.overlayB)
  }

  function PodOf(name: string, ip: Ip): Pod {
    Pod("default", name, map[], IPText(ip))
  }

  /** No policies, so that nothing is denied. */
  function Objects(p: Plan): Snapshot {
    Snapshot([VSwitchA(p), VSwitchB(p)], [PodOf("client", p.client), PodOf("server", p.server)], [], [])
  }

  function NodeA(p: Plan): Node {
    Node(ConfigOf(p, "a", p.subnetA, p.gatewayA), Objects(p), map[PodKey(PodOf("client", p.client)) := 7])
  }

  function NodeB(p: Plan): Node {
    Node(ConfigOf(p, "b", p.subnetB, p.gatewayB), Objects(p), map[PodKey(PodOf("server", p.server)) := 9])
  }

  lemma CoversBlock(c: Cidr, ip: Ip)
    requires c.Valid()
    ensures CIDRText(c) != "" && (Covers(CIDRText(c), ip) <==> c.Contains(ip))
  {
    ParseCIDRText(c);
    EmptyIsNoAddress();
  }

  lemma CoversAddress(a: Ip, ip: Ip)
    ensures IPText(a) != "" && ParseIP(IPText(a)) == Some(a) && (Covers(IPText(a), ip) <==> ip == a)
  {
    ParseIPText(a);
    AddressCovers(IPText(a), ip);
    EmptyIsNoAddress();
  }

  lemma IsWellAddressed(p: Plan, cfg: Config, name: string, subnet: Cidr, overlay: Ip)
    requires p.cluster.Valid() && subnet.Valid() && Within(subnet, p.cluster) && !p.cluster.Contains(overlay)
    requires cfg.clusterCIDR == CIDRText(p.cluster) && (name == cfg.nodeName ==> cfg.podCIDR == CIDRText(subnet))
    ensures WellAddressed(cfg, VSwitchOf(p, name, subnet, overlay))
  {
    CoversBlock(subnet, 0);
    CoversAddress(overlay, 0);
    forall ip: Ip
      ensures Covers(CIDRText(subnet), ip) ==> Covers(cfg.clusterCIDR, ip)
      ensures Covers(IPText(overlay), ip) ==> !Covers(cfg.clusterCIDR, ip)
    {
      CoversBlock(subnet, ip);
      CoversBlock(p.cluster, ip);
      CoversAddress(overlay, ip);
    }
  }

  lemma AreDisjoint(p: Plan, ip: Ip)
    requires Sound(p)
    ensures Disjoint(CIDRText(p.subnetA), CIDRText(p.subnetB), ip) && Disjoint(IPText(p.overlayA), IPText(p.overlayB), ip)
  {
    CoversBlock(p.subnetA, ip);
    CoversBlock(p.subnetB, ip);
    CoversAddress(p.overlayA, ip);
    CoversAddress(p.overlayB, ip);
  }

  lemma VSwitchesAreDisjoint(p: Plan, v: VSwitch, w: VSwitch, ip: Ip)
    requires Sound(p) && v in Objects(p).vswitches && w in Objects(p).vswitches && v != w
    ensures Disjoint(v.podCIDR, w.podCIDR, ip) && Disjoint(v.overlayIP, w.overlayIP, ip)
  {
    AreDisjoint(p, ip);
    assert (v == VSwitchA(p) && w == VSwitchB(p)) || (v == VSwitchB(p) && w == VSwitchA(p));
  }

  lemma PodsAreUnique(p: Plan, cfg: Config, a: Pod, b: Pod)
    requires Sound(p) && a in Objects(p).pods && b in Objects(p).pods && SameLocalIP(cfg, a, b)
    ensures a == b
  {
    CoversAddress(p.client, 0);
    CoversAddress(p.server, 0);
  }

  lemma ConfigIsComplete(p: Plan, cfg: Config)
    requires Sound(p) && (cfg == NodeA(p).cfg || cfg == NodeB(p).cfg)
    ensures cfg.gatewayIP != "" && cfg.podCIDR != "" && cfg.clusterCIDR != ""
  {
    CoversBlock(p.cluster, 0);
    CoversBlock(p.subnetA, 0);
    CoversBlock(p.subnetB, 0);
    CoversAddress(p.gatewayA, 0);
    CoversAddress(p.gatewayB, 0);
  }

  lemma VSwitchIsWellAddressed(p: Plan, cfg: Config, v: VSwitch)
    requires Sound(p) && (cfg == NodeA(p).cfg || cfg == NodeB(p).cfg) && v in Objects(p).vswitches
    ensures WellAddressed(cfg, v)
  {
    IsWellAddressed(p, cfg, "a", p.subnetA, p.overlayA);
    IsWellAddressed(p, cfg, "b", p.subnetB, p.overlayB);
    assert v == VSwitchA(p) || v == VSwitchB(p);
  }

  lemma IsAddressed(p: Plan, cfg: Config)
    requires Sound(p) && (cfg == NodeA(p).cfg || cfg == NodeB(p).cfg)
    ensures Addressed(cfg, Objects(p))
  {
    var snap := Objects(p);
    ConfigIsComplete(p, cfg);
    forall v | v in snap.vswitches ensures WellAddressed(cfg, v) {
      VSwitchIsWellAddressed(p, cfg, v);
    }
    forall v, w, ip: Ip | v in snap.vswitches && w in snap.vswitches && v != w
      ensures Disjoint(v.podCIDR, w.podCIDR, ip) && Disjoint(v.overlayIP, w.overlayIP, ip)
    {
      VSwitchesAreDisjoint(p, v, w, ip);
    }
    forall a, b | a in snap.pods && b in snap.pods && SameLocalIP(cfg, a, b) ensures a == b {
      PodsAreUnique(p, cfg, a, b);
    }
  }

  /** The gateways are those that the controllers compute. */
  lemma IsConstructed(cfg: Config, subnet: Cidr, gateway: Ip)
    requires subnet.Valid() && IsGateway(subnet, gateway)
    requires cfg.podCIDR == CIDRText(subnet) && cfg.gatewayIP == IPText(gateway)
    ensures ParseCIDR(cfg.podCIDR) == Some(subnet) && GatewayOf(cfg.podCIDR) == Some(gateway) && Constructed(cfg)
  {
    ParseCIDRText(subnet);
    assert GatewayIn(subnet) == Some(gateway);
    GatewayTextIs(cfg.podCIDR);
  }

  /** The two nodes of a sound plan are peers, so that the theorems on delivery and on
      loops apply to them. */
  lemma NodesArePeers(p: Plan)
    requires Sound(p)
    ensures ConfiguredPeers(NodeA(p), VSwitchA(p), NodeB(p), VSwitchB(p))
  {
    IsAddressed(p, NodeA(p).cfg);
    IsAddressed(p, NodeB(p).cfg);
    IsConstructed(NodeA(p).cfg, p.subnetA, p.gatewayA);
    IsConstructed(NodeB(p).cfg, p.subnetB, p.gatewayB);
  }

  lemma ServerIsDeliverable(p: Plan)
    requires Sound(p)
    ensures Deliverable(NodeB(p).cfg, NodeB(p).ports, PodOf("server", p.server))
    ensures GatewayOf(NodeB(p).cfg.podCIDR) != Some(p.server) && ParseIP(IPText(p.server)) == Some(p.server)
    ensures ParseIP(IPText(p.overlayB)) == Some(p.overlayB)
  {
    CoversAddress(p.server, 0);
    CoversAddress(p.overlayB, 0);
    IsConstructed(NodeB(p).cfg, p.subnetB, p.gatewayB);
  }

  lemma NothingIsDenied(plan: Plan, cfg: Config, p: Payload)
    requires p.IPv4?
    ensures !Denied(cfg, Objects(plan), p)
  {
  }

  /** In every such cluster a packet for the server goes from node A through the tunnel to
      node B, and out of the server's port there. */
  lemma ServerIsReached(plan: Plan, p: Packet, o: Outcome, delivered: Outcome)
    requires Sound(plan) && p.payload.IPv4? && p.payload.dst == plan.server
    requires MaySend(NodeA(plan), p, o) && MaySend(NodeB(plan), p, delivered)
    ensures o == Sent(Numbered(2), p.(tunDst := Some(plan.overlayB)))
    ensures delivered == Sent(Numbered(9), p.(dlDst := "aa:bb:cc:dd:ee:ff"))
  {
    NodesArePeers(plan);
    ServerIsDeliverable(plan);
    NothingIsDenied(plan, NodeA(plan).cfg, p.payload);
    NothingIsDenied(plan, NodeB(plan).cfg, p.payload);
    ConfiguredDelivery(NodeA(plan), VSwitchA(plan), NodeB(plan), VSwitchB(plan), PodOf("server", plan.server),
                       p, o, p, delivered);
  }

  /** 10.1.0.0/16 and 10.2.0.0/16 in 10.0.0.0/8, over 192.168.0.1 and 192.168.0.2. */
  const TWO_NODES := Plan(Cidr(0x0a00_0000, 8), Cidr(0x0a01_0000, 16), Cidr(0x0a02_0000, 16),
                          0xc0a8_0001, 0xc0a8_0002, 0x0a01_0001, 0x0a02_0001, 0x0a01_0005, 0x0a02_0007)

  lemma BlockGateway(subnet: Cidr)
    requires subnet.len == 16 && subnet.addr % 0x1_0000 == 0 && subnet.addr >= 0x100_0000
    ensures NetworkAddress(subnet) == subnet.addr
  {
    assert Pow2(8) == 0x100 && Pow2(16) == 0x1_0000;
    ClearedIs(subnet.addr, 16);
  }

  /** The assumptions are consistent. */
  lemma TwoNodesAreSound()
    ensures Sound(TWO_NODES)
    ensures ConfiguredPeers(NodeA(TWO_NODES), VSwitchA(TWO_NODES), NodeB(TWO_NODES), VSwitchB(TWO_NODES))
  {
    var p := TWO_NODES;
    assert Pow2(8) == 0x100 && Pow2(16) == 0x1_0000 && Pow2(24) == 0x100_0000;
    assert p.cluster.Size() == 0x100_0000 && p.subnetA.Size() == p.subnetB.Size() == 0x1_0000;
    BlockGateway(p.subnetA);
    BlockGateway(p.subnetB);
    NodesArePeers(p);
  }
}
