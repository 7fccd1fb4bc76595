/** Two nodes that program their switches from the same vswitch configs, and the
    tunnel between them. */
module Overlay {
  import opened Collections
  import opened Addresses
  import opened Flows
  import opened Switch
  import opened Cluster
  import opened Compiler
  import opened Layout
  import opened PolicyMeaning
  import opened PolicyVerdict
  import opened Routing
  import opened Pipeline
  import opened ArpPipeline
  import opened Gateway
  import opened GatewayEntry

  /** What one node's switch is programmed from. */
  datatype Node = Node(cfg: Config, snap: Snapshot, ports: Ports) {
    function Flows(): seq<Entry> {
      Compile(cfg, snap, ports)
    }
  }

  /** Some run of the node's pipeline sends `p` to outcome `o`. */
  ghost predicate MaySend(n: Node, p: Packet, o: Outcome) {
    Yields(n.Flows(), TABLE_ENTRY, p, o)
  }

  /** `v` is the node's own config; no pod and no internal port shares its OpenFlow
      port with the overlay. */
  ghost predicate Placed(n: Node, v: VSwitch) {
    && Addressed(n.cfg, n.snap)
    && v in n.snap.vswitches && v.name == n.cfg.nodeName
    && n.cfg.overlayOFPort != 0 && n.cfg.clusterWideOFPort != n.cfg.overlayOFPort
    && (forall k :: k in n.ports ==> n.ports[k] != n.cfg.overlayOFPort)
  }

  /** Moreover the gateway lies in the node's pod CIDR. */
  ghost predicate Owns(n: Node, v: VSwitch) {
    Placed(n, v) && forall ip: Ip :: Covers(n.cfg.gatewayIP, ip) ==> Covers(n.cfg.podCIDR, ip)
  }

  /** Nodes `a` and `b` see the same configs, `va` and `vb` being their own. */
  ghost predicate Peers(a: Node, va: VSwitch, b: Node, vb: VSwitch) {
    && Owns(a, va) && Owns(b, vb)
    && a.snap.vswitches == b.snap.vswitches && a.cfg.nodeName != b.cfg.nodeName
  }

  /** The packet as it leaves through the tunnel to `v`. */
  function Encapsulated(v: VSwitch, p: Packet): Packet {
    p.(tunDst := ParseIP(v.overlayIP))
  }

  // ----- Delivery

  /** A packet for the other node's subnet is routed to that node's overlay address. */
  lemma RouteToPeer(a: Node, va: VSwitch, b: Node, vb: VSwitch, p: Packet)
    requires Peers(a, va, b, vb) && p.payload.IPv4? && Covers(b.cfg.podCIDR, p.payload.dst)
    ensures Route(a.cfg, a.snap, a.ports, p) == Sent(Numbered(a.cfg.overlayOFPort), Encapsulated(vb, p))
  {
    var d := p.payload.dst;
    assert WellAddressed(a.cfg, va) && WellAddressed(a.cfg, vb) && WellAddressed(b.cfg, vb);
    assert Disjoint(va.podCIDR, vb.podCIDR, d);
    RemoteSubnetIs(a.cfg, a.snap, vb, d);
  }

  lemma RouteAtPeer(b: Node, pod: Pod, p: Packet)
    requires Addressed(b.cfg, b.snap) && p.payload.IPv4?
    requires pod in b.snap.pods && Deliverable(b.cfg, b.ports, pod) && ParseIP(pod.ip) == Some(p.payload.dst)
    requires !Covers(b.cfg.gatewayIP, p.payload.dst)
    ensures Covers(b.cfg.podCIDR, p.payload.dst)
    ensures Route(b.cfg, b.snap, b.ports, p) == Emit(b.ports[PodKey(pod)], p.(dlDst := POD_MAC))
  {
    var found := PodAt(b.cfg, b.snap.pods, b.ports, p.payload.dst);
    assert SameLocalIP(b.cfg, pod, found.value);
  }

  /** Cluster-wide delivery: a packet for a pod of another node, allowed by the
      policies of both nodes, leaves through the tunnel to that node and there,
      however its frame was readdressed on the way, through the pod's port. */
  lemma Delivery(a: Node, va: VSwitch, b: Node, vb: VSwitch, pod: Pod, p: Packet, o: Outcome,
                 arrived: Packet, delivered: Outcome)
    requires Peers(a, va, b, vb) && p.payload.IPv4?
    requires pod in b.snap.pods && Deliverable(b.cfg, b.ports, pod) && ParseIP(pod.ip) == Some(p.payload.dst)
    requires !Covers(b.cfg.gatewayIP, p.payload.dst)
    requires !Denied(a.cfg, a.snap, p.payload) && !Denied(b.cfg, b.snap, p.payload)
    requires arrived.payload == p.payload
    requires MaySend(a, p, o) && MaySend(b, arrived, delivered)
    ensures o == Sent(Numbered(a.cfg.overlayOFPort), Encapsulated(vb, p))
    ensures delivered == Emit(b.ports[PodKey(pod)], arrived.(dlDst := POD_MAC))
  {
    RouteAtPeer(b, pod, arrived);
    RouteToPeer(a, va, b, vb, p);
    var trace :| Runs(a.Flows(), TABLE_ENTRY, p, trace, o);
    Forwarding(a.cfg, a.snap, a.ports, p, trace, o);
    var trace' :| Runs(b.Flows(), TABLE_ENTRY, arrived, trace', delivered);
    Forwarding(b.cfg, b.snap, b.ports, arrived, trace', delivered);
  }

  // ----- No loops

  /** Packets that are not IPv4 are never sent out of a numbered port. */
  lemma OthersStay(n: Node, p: Packet, trace: seq<Entry>, o: Outcome)
    requires !p.payload.IPv4? && Addressed(n.cfg, n.snap)
    requires Runs(n.Flows(), TABLE_ENTRY, p, trace, o)
    ensures o.Sent? ==> !o.port.Numbered?
  {
    if p.payload.ARP? {
      ReachesResponders(n.cfg, n.snap, n.ports, p, trace, o);
      if trace[3..] != [] {
        Responders(n.cfg, n.snap, n.ports, trace[3..][0]);
      }
    } else {
      AfterPolicies(n.cfg, n.snap, n.ports, p, trace, o);
      OthersPass(n.cfg, n.snap, n.ports, p, trace[1]);
      ClassifierNeverMisses(n.cfg, n.snap, n.ports, p);
      OthersAreLocal(n, p, trace[1..][1..][0]);
    }
  }

  lemma OthersAreLocal(n: Node, p: Packet, e: Entry)
    requires p.payload.OtherEther?
    requires Selects(n.Flows(), TABLE_CLASSIFICATION, p, e) && Addressed(n.cfg, n.snap)
    ensures Act(e, p) == Done(Sent(LocalPort, p))
  {
    OtherTables(n.cfg, n.snap, n.ports, e);
    if v :| v in n.snap.vswitches && e in FlowsForVSwitch(n.cfg, v) {
      VSwitchIgnoresOthers(n.cfg, v, p, e);
    }
    DefaultsOfOthers(n.cfg, p, e);
  }

  lemma DefaultsOfOthers(cfg: Config, p: Packet, e: Entry)
    requires p.payload.OtherEther? && Matches(e, p)
    requires e in DefaultFlows(cfg) && e.Table() == TABLE_CLASSIFICATION
    ensures Act(e, p) == Done(Sent(LocalPort, p))
  {
  }

  lemma VSwitchIgnoresOthers(cfg: Config, v: VSwitch, p: Packet, e: Entry)
    requires p.payload.OtherEther? && e in FlowsForVSwitch(cfg, v)
    ensures !Matches(e, p)
  {
  }

  /** What a node sends to the overlay port is addressed to the subnet or the
      overlay address of the node it is tunnelled to. */
  lemma TunnelledTo(a: Node, va: VSwitch, vb: VSwitch, p: Packet, q: Packet)
    requires Owns(a, va) && vb in a.snap.vswitches && ParseIP(vb.overlayIP).Some?
    requires p.payload.IPv4? && Route(a.cfg, a.snap, a.ports, p) == Sent(Numbered(a.cfg.overlayOFPort), q)
    requires q.tunDst == ParseIP(vb.overlayIP)
    ensures q.payload == p.payload
    ensures Covers(vb.podCIDR, p.payload.dst) || Covers(vb.overlayIP, p.payload.dst)
  {
    var d, vs, ip := p.payload.dst, a.snap.vswitches, ParseIP(vb.overlayIP).value;
    AddressCovers(vb.overlayIP, ip);
    var v := if Covers(a.cfg.clusterCIDR, d) then RemoteSubnet(a.cfg, vs, d) else RemoteNode(a.cfg, vs, d);
    assert v.Some? && ParseIP(v.value.overlayIP) == Some(ip);
    AddressCovers(v.value.overlayIP, ip);
    assert v.value != vb ==> Disjoint(v.value.overlayIP, vb.overlayIP, ip);
  }

  /** A packet for the node's own subnet or overlay address stays off the overlay. */
  lemma StaysOff(b: Node, vb: VSwitch, p: Packet)
    requires Owns(b, vb) && p.payload.IPv4?
    requires Covers(vb.podCIDR, p.payload.dst) || Covers(vb.overlayIP, p.payload.dst)
    ensures var o := Route(b.cfg, b.snap, b.ports, p);
            o.Sent? ==> o.port != Numbered(b.cfg.overlayOFPort)
  {
    assert WellAddressed(b.cfg, vb);
    if Covers(vb.overlayIP, p.payload.dst) {
      OwnNodeIs(b.cfg, b.snap, vb, p.payload.dst);
    }
  }

  /** No packet that one node tunnels to another is sent to the overlay again there. */
  lemma NoLoop(a: Node, va: VSwitch, b: Node, vb: VSwitch, p: Packet, q: Packet, arrived: Packet, o: Outcome)
    requires Peers(a, va, b, vb) && ParseIP(vb.overlayIP).Some?
    requires MaySend(a, p, Sent(Numbered(a.cfg.overlayOFPort), q)) && q.tunDst == ParseIP(vb.overlayIP)
    requires arrived.payload == q.payload && MaySend(b, arrived, o)
    ensures o.Sent? ==> o.port != Numbered(b.cfg.overlayOFPort)
  {
    var trace :| Runs(a.Flows(), TABLE_ENTRY, p, trace, Sent(Numbered(a.cfg.overlayOFPort), q));
    if !p.payload.IPv4? {
      OthersStay(a, p, trace, Sent(Numbered(a.cfg.overlayOFPort), q));
    } else {
      Forwarding(a.cfg, a.snap, a.ports, p, trace, Sent(Numbered(a.cfg.overlayOFPort), q));
      TunnelledTo(a, va, vb, p, q);
      StaysOff(b, vb, arrived);
      var trace' :| Runs(b.Flows(), TABLE_ENTRY, arrived, trace', o);
      Forwarding(b.cfg, b.snap, b.ports, arrived, trace', o);
    }
  }

  // ----- Controllers that computed their own gateway

  /** The controller computed the gateway from a pod CIDR that has room for one. */
  ghost predicate Configured(n: Node, v: VSwitch) {
    && Placed(n, v) && Constructed(n.cfg)
    && ParseCIDR(n.cfg.podCIDR).Some? && ParseCIDR(n.cfg.podCIDR).value.len <= 31
  }

  lemma ConfiguredOwns(n: Node, v: VSwitch)
    requires Configured(n, v)
    ensures Owns(n, v)
  {
    forall ip: Ip | Covers(n.cfg.gatewayIP, ip) ensures Covers(n.cfg.podCIDR, ip) {
      GatewayIsInSubnet(n.cfg, ip);
    }
  }

  /** Nodes `a` and `b`, so configured, see the same configs. */
  ghost predicate ConfiguredPeers(a: Node, va: VSwitch, b: Node, vb: VSwitch) {
    && Configured(a, va) && Configured(b, vb)
    && a.snap.vswitches == b.snap.vswitches && a.cfg.nodeName != b.cfg.nodeName
  }

  lemma ConfiguredArePeers(a: Node, va: VSwitch, b: Node, vb: VSwitch)
    requires ConfiguredPeers(a, va, b, vb)
    ensures Peers(a, va, b, vb)
  {
    ConfiguredOwns(a, va);
    ConfiguredOwns(b, vb);
  }

  /** Delivery between such nodes, to any pod that does not have the gateway's address. */
  lemma ConfiguredDelivery(a: Node, va: VSwitch, b: Node, vb: VSwitch, pod: Pod, p: Packet, o: Outcome,
                           arrived: Packet, delivered: Outcome)
    requires ConfiguredPeers(a, va, b, vb) && p.payload.IPv4?
    requires pod in b.snap.pods && Deliverable(b.cfg, b.ports, pod) && ParseIP(pod.ip) == Some(p.payload.dst)
    requires GatewayOf(b.cfg.podCIDR) != Some(p.payload.dst)
    requires !Denied(a.cfg, a.snap, p.payload) && !Denied(b.cfg, b.snap, p.payload)
    requires arrived.payload == p.payload
    requires MaySend(a, p, o) && MaySend(b, arrived, delivered)
    ensures o == Sent(Numbered(a.cfg.overlayOFPort), Encapsulated(vb, p))
    ensures delivered == Emit(b.ports[PodKey(pod)], arrived.(dlDst := POD_MAC))
  {
    ConfiguredArePeers(a, va, b, vb);
    TextsCover(b.cfg, p.payload.dst);
    Delivery(a, va, b, vb, pod, p, o, arrived, delivered);
  }

  /** No loops between such nodes. */
  lemma ConfiguredNoLoop(a: Node, va: VSwitch, b: Node, vb: VSwitch, p: Packet, q: Packet, arrived: Packet, o: Outcome)
    requires ConfiguredPeers(a, va, b, vb) && ParseIP(vb.overlayIP).Some?
    requires MaySend(a, p, Sent(Numbered(a.cfg.overlayOFPort), q)) && q.tunDst == ParseIP(vb.overlayIP)
    requires arrived.payload == q.payload && MaySend(b, arrived, o)
    ensures o.Sent? ==> o.port != Numbered(b.cfg.overlayOFPort)
  {
    ConfiguredArePeers(a, va, b, vb);
    NoLoop(a, va, b, vb, p, q, arrived, o);
  }
}
