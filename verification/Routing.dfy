/** Where an IPv4 packet goes once the policies let it pass: the routing function,
    and the proof that tables 20, 30 and 60 compute it. */
module Routing {
  import opened Collections
  import opened Addresses
  import opened Flows
  import opened Switch
  import opened Cluster
  import opened Compiler
  import opened Layout

  // ----- The routing function

  function Emit(port: int, p: Packet): Outcome {
    if port == 0 then Dropped else Sent(Numbered(port), p)
  }

  function Readdressed(mac: string, p: Packet): Packet {
    if mac == "" then p else p.(dlDst := mac)
  }

  function Tunnel(cfg: Config, v: VSwitch, p: Packet): Outcome {
    Emit(cfg.overlayOFPort, p.(tunDst := ParseIP(v.overlayIP)))
  }

  /** A pod of this node whose OpenFlow port is known. */
  predicate Deliverable(cfg: Config, ports: Ports, pod: Pod) {
    IsLocal(cfg, pod.ip) && PodKey(pod) in ports
  }

  function PodAt(cfg: Config, pods: seq<Pod>, ports: Ports, ip: Ip): Option<Pod> {
    Find((pod: Pod) => Deliverable(cfg, ports, pod) && ParseIP(pod.ip) == Some(ip), pods)
  }

  function RemoteSubnet(cfg: Config, vs: seq<VSwitch>, ip: Ip): Option<VSwitch> {
    Find((v: VSwitch) => v.name != cfg.nodeName && Covers(v.podCIDR, ip), vs)
  }

  function RemoteNode(cfg: Config, vs: seq<VSwitch>, ip: Ip): Option<VSwitch> {
    Find((v: VSwitch) => v.name != cfg.nodeName && Covers(v.overlayIP, ip), vs)
  }

  function OwnNode(cfg: Config, vs: seq<VSwitch>, ip: Ip): Option<VSwitch> {
    Find((v: VSwitch) => v.name == cfg.nodeName && Covers(v.overlayIP, ip), vs)
  }

  function RouteToPod(cfg: Config, snap: Snapshot, ports: Ports, p: Packet): Outcome
    requires p.payload.IPv4?
  {
    match PodAt(cfg, snap.pods, ports, p.payload.dst)
    case None => Dropped
    case Some(pod) => Emit(ports[PodKey(pod)], p.(dlDst := POD_MAC))
  }

  function RouteToSubnet(cfg: Config, snap: Snapshot, p: Packet): Outcome
    requires p.payload.IPv4?
  {
    match RemoteSubnet(cfg, snap.vswitches, p.payload.dst)
    case None => Dropped
    case Some(v) => Tunnel(cfg, v, p)
  }

  function RouteOutside(cfg: Config, snap: Snapshot, p: Packet): Outcome
    requires p.payload.IPv4?
  {
    match OwnNode(cfg, snap.vswitches, p.payload.dst)
    case Some(v) =>
      if Covers(v.podCIDR, p.payload.src) then Sent(LocalPort, Readdressed(cfg.bridgeMAC, p))
      else Emit(cfg.clusterWideOFPort, Readdressed(cfg.clusterWideMAC, p))
    case None =>
      match RemoteNode(cfg, snap.vswitches, p.payload.dst)
      case Some(v) => Tunnel(cfg, v, p)
      case None => Sent(LocalPort, p)
  }

  /** What becomes of an IPv4 packet that the policies let pass. */
  function Route(cfg: Config, snap: Snapshot, ports: Ports, p: Packet): Outcome
    requires p.payload.IPv4?
  {
    if Covers(cfg.gatewayIP, p.payload.dst) then Sent(LocalPort, p)
    else if Covers(cfg.podCIDR, p.payload.dst) then RouteToPod(cfg, snap, ports, p)
    else if Covers(cfg.clusterCIDR, p.payload.dst) then RouteToSubnet(cfg, snap, p)
    else RouteOutside(cfg, snap, p)
  }

  // ----- Assumptions on addresses

  predicate Disjoint(a: string, b: string, ip: Ip) {
    !(Covers(a, ip) && Covers(b, ip))
  }

  predicate SameLocalIP(cfg: Config, a: Pod, b: Pod) {
    IsLocal(cfg, a.ip) && IsLocal(cfg, b.ip) && ParseIP(a.ip) == ParseIP(b.ip)
  }

  /** Pod CIDRs of different nodes are disjoint and lie inside the cluster CIDR;
      overlay addresses are distinct and lie outside it; the node's own config
      carries its pod CIDR; local pods have unique addresses. */
  ghost predicate Addressed(cfg: Config, snap: Snapshot) {
    && cfg.gatewayIP != "" && cfg.podCIDR != "" && cfg.clusterCIDR != ""
    && (forall v :: v in snap.vswitches ==> WellAddressed(cfg, v))
    && (forall v, w, ip: Ip :: v in snap.vswitches && w in snap.vswitches && v != w ==>
          Disjoint(v.podCIDR, w.podCIDR, ip) && Disjoint(v.overlayIP, w.overlayIP, ip))
    && (forall a, b :: a in snap.pods && b in snap.pods && SameLocalIP(cfg, a, b) ==> a == b)
  }

  ghost predicate WellAddressed(cfg: Config, v: VSwitch) {
    && v.podCIDR != "" && v.overlayIP != ""
    && (v.name == cfg.nodeName ==> v.podCIDR == cfg.podCIDR)
    && (forall ip: Ip :: Covers(v.podCIDR, ip) ==> Covers(cfg.clusterCIDR, ip))
    && (forall ip: Ip :: Covers(v.overlayIP, ip) ==> !Covers(cfg.clusterCIDR, ip))
  }

  // ----- The classification table

  /** The verdict of the classification table on an IPv4 packet. */
  function Classification(cfg: Config, snap: Snapshot, p: Packet): Next
    requires p.payload.IPv4?
  {
    var d := p.payload.dst;
    if Covers(cfg.gatewayIP, d) then Done(Sent(LocalPort, p))
    else if Covers(cfg.podCIDR, d) then Goto(TABLE_L2_REWRITES, p)
    else if Covers(cfg.clusterCIDR, d) then Goto(TABLE_L3_FORWARDING, p)
    else if OwnNode(cfg, snap.vswitches, d).None? && RemoteNode(cfg, snap.vswitches, d).Some? then
      Goto(TABLE_L3_FORWARDING, p)
    else Done(RouteOutside(cfg, snap, p))
  }

  /** Entry `e` has this priority and does this to `p`. */
  predicate Is(e: Entry, p: Packet, priority: int, next: Next) {
    e.Priority() == priority && Matches(e, p) && Act(e, p) == next
  }

  predicate IsDefaultClassifier(cfg: Config, e: Entry, p: Packet)
    requires p.payload.IPv4?
  {
    var d := p.payload.dst;
    || Is(e, p, 0, Done(Sent(LocalPort, p)))
    || (AddressMatches(cfg.gatewayIP, d) && Is(e, p, 500, Done(Sent(LocalPort, p))))
    || (AddressMatches(cfg.podCIDR, d) && Is(e, p, 300, Goto(TABLE_L2_REWRITES, p)))
    || (AddressMatches(cfg.clusterCIDR, d) && Is(e, p, 100, Goto(TABLE_L3_FORWARDING, p)))
  }

  lemma DefaultClassifiers(cfg: Config, p: Packet, e: Entry)
    requires p.payload.IPv4?
    requires e in DefaultFlows(cfg) && e.Table() == TABLE_CLASSIFICATION && Matches(e, p)
    ensures IsDefaultClassifier(cfg, e, p)
  {
  }

  predicate IsVSwitchClassifier(cfg: Config, v: VSwitch, e: Entry, p: Packet)
    requires p.payload.IPv4?
  {
    && AddressMatches(v.overlayIP, p.payload.dst)
    && if v.name == cfg.nodeName then
         || (AddressMatches(v.podCIDR, p.payload.src)
             && Is(e, p, 100, Done(Sent(LocalPort, Readdressed(cfg.bridgeMAC, p)))))
         || Is(e, p, 50, Done(Emit(cfg.clusterWideOFPort, Readdressed(cfg.clusterWideMAC, p))))
       else Is(e, p, 50, Goto(TABLE_L3_FORWARDING, p))
  }

  lemma VSwitchClassifiers(cfg: Config, v: VSwitch, p: Packet, e: Entry)
    requires p.payload.IPv4?
    requires e in FlowsForVSwitch(cfg, v) && e.Table() == TABLE_CLASSIFICATION && Matches(e, p)
    ensures IsVSwitchClassifier(cfg, v, e, p)
  {
  }

  /** What the entries of the classification table that match an IPv4 packet do. */
  lemma Classifiers(cfg: Config, snap: Snapshot, ports: Ports, p: Packet, e: Entry)
    requires p.payload.IPv4?
    requires e in Compile(cfg, snap, ports) && e.Table() == TABLE_CLASSIFICATION && Matches(e, p)
    ensures || IsDefaultClassifier(cfg, e, p)
            || exists v :: v in snap.vswitches && IsVSwitchClassifier(cfg, v, e, p)
  {
    OtherTables(cfg, snap, ports, e);
    if e in DefaultFlows(cfg) {
      DefaultClassifiers(cfg, p, e);
    } else if v :| v in snap.vswitches && e in FlowsForVSwitch(cfg, v) {
      VSwitchClassifiers(cfg, v, p, e);
    }
  }

  /** A flow that matches IPv4 packets by their addresses alone. */
  predicate AddressesOnly(f: FlowSpec) {
    && f.protocol == "ip" && f.arpDest == f.arpSrc == ""
    && f.tcpDestPort == f.tcpSrcPort == f.udpDestPort == f.udpSrcPort == 0
  }

  /** The selected entry is at least as urgent as any flow that is present and matches. */
  lemma AtLeast(es: seq<Entry>, p: Packet, e: Entry, f: FlowSpec)
    requires p.payload.IPv4? && Selects(es, f.table, p, e) && Plain(f) in es && AddressesOnly(f)
    requires AddressMatches(f.ipDest, p.payload.dst) && AddressMatches(f.ipSrc, p.payload.src)
    ensures e.Priority() >= f.priority
  {
    assert Matches(Plain(f), p);
  }

  lemma DefaultFlow(cfg: Config, snap: Snapshot, ports: Ports, i: nat)
    requires i < 9
    ensures DefaultFlows(cfg)[i] in Compile(cfg, snap, ports)
  {
    Members(cfg, snap, ports, DefaultFlows(cfg)[i]);
  }

  lemma VSwitchFlow(cfg: Config, snap: Snapshot, ports: Ports, v: VSwitch, i: nat)
    requires v in snap.vswitches && i < 3
    ensures FlowsForVSwitch(cfg, v)[i] in Compile(cfg, snap, ports)
  {
    Members(cfg, snap, ports, FlowsForVSwitch(cfg, v)[i]);
  }

  lemma GatewayFloor(cfg: Config, snap: Snapshot, ports: Ports, p: Packet, e: Entry)
    requires p.payload.IPv4? && AddressMatches(cfg.gatewayIP, p.payload.dst)
    requires Selects(Compile(cfg, snap, ports), TABLE_CLASSIFICATION, p, e)
    ensures e.Priority() >= 500
  {
    DefaultFlow(cfg, snap, ports, 3);
    AtLeast(Compile(cfg, snap, ports), p, e, ClassifierFlow(500, cfg.gatewayIP).(local := true));
  }

  lemma SubnetFloor(cfg: Config, snap: Snapshot, ports: Ports, p: Packet, e: Entry)
    requires p.payload.IPv4? && AddressMatches(cfg.podCIDR, p.payload.dst)
    requires Selects(Compile(cfg, snap, ports), TABLE_CLASSIFICATION, p, e)
    ensures e.Priority() >= 300
  {
    DefaultFlow(cfg, snap, ports, 4);
    AtLeast(Compile(cfg, snap, ports), p, e, ClassifierFlow(300, cfg.podCIDR).(resubmit := TABLE_L2_REWRITES));
  }

  lemma ClusterFloor(cfg: Config, snap: Snapshot, ports: Ports, p: Packet, e: Entry)
    requires p.payload.IPv4? && AddressMatches(cfg.clusterCIDR, p.payload.dst)
    requires Selects(Compile(cfg, snap, ports), TABLE_CLASSIFICATION, p, e)
    ensures e.Priority() >= 100
  {
    DefaultFlow(cfg, snap, ports, 5);
    AtLeast(Compile(cfg, snap, ports), p, e, ClassifierFlow(100, cfg.clusterCIDR).(resubmit := TABLE_L3_FORWARDING));
  }

  lemma OwnSubnetFloor(cfg: Config, snap: Snapshot, ports: Ports, p: Packet, e: Entry, v: VSwitch)
    requires p.payload.IPv4? && v in snap.vswitches && v.name == cfg.nodeName
    requires AddressMatches(v.overlayIP, p.payload.dst) && AddressMatches(v.podCIDR, p.payload.src)
    requires Selects(Compile(cfg, snap, ports), TABLE_CLASSIFICATION, p, e)
    ensures e.Priority() >= 100
  {
    VSwitchFlow(cfg, snap, ports, v, 1);
    AtLeast(Compile(cfg, snap, ports), p, e,
            ClassifierFlow(100, v.overlayIP).(ipSrc := v.podCIDR, modDlDest := cfg.bridgeMAC, local := true));
  }

  lemma NodeFloor(cfg: Config, snap: Snapshot, ports: Ports, p: Packet, e: Entry, v: VSwitch)
    requires p.payload.IPv4? && v in snap.vswitches && AddressMatches(v.overlayIP, p.payload.dst)
    requires Selects(Compile(cfg, snap, ports), TABLE_CLASSIFICATION, p, e)
    ensures e.Priority() >= 50
  {
    if v.name == cfg.nodeName {
      VSwitchFlow(cfg, snap, ports, v, 2);
      AtLeast(Compile(cfg, snap, ports), p, e,
              ClassifierFlow(50, v.overlayIP).(modDlDest := cfg.clusterWideMAC, output := cfg.clusterWideOFPort));
    } else {
      VSwitchFlow(cfg, snap, ports, v, 1);
      AtLeast(Compile(cfg, snap, ports), p, e, ClassifierFlow(50, v.overlayIP).(resubmit := TABLE_L3_FORWARDING));
    }
  }

  lemma OwnNodeIs(cfg: Config, snap: Snapshot, v: VSwitch, ip: Ip)
    requires Addressed(cfg, snap) && v in snap.vswitches && Covers(v.overlayIP, ip)
    ensures v.name == cfg.nodeName ==> OwnNode(cfg, snap.vswitches, ip) == Some(v)
    ensures v.name != cfg.nodeName
            ==> OwnNode(cfg, snap.vswitches, ip).None? && RemoteNode(cfg, snap.vswitches, ip) == Some(v)
  {
    if OwnNode(cfg, snap.vswitches, ip).Some? {
      var w := OwnNode(cfg, snap.vswitches, ip).value;
      assert v != w ==> Disjoint(v.overlayIP, w.overlayIP, ip);
    }
    if RemoteNode(cfg, snap.vswitches, ip).Some? {
      var w := RemoteNode(cfg, snap.vswitches, ip).value;
      assert v != w ==> Disjoint(v.overlayIP, w.overlayIP, ip);
    }
  }

  lemma ClassifyGateway(cfg: Config, snap: Snapshot, ports: Ports, p: Packet, e: Entry)
    requires p.payload.IPv4? && Addressed(cfg, snap) && Covers(cfg.gatewayIP, p.payload.dst)
    requires Selects(Compile(cfg, snap, ports), TABLE_CLASSIFICATION, p, e)
    ensures Act(e, p) == Classification(cfg, snap, p)
  {
    Classifiers(cfg, snap, ports, p, e);
    GatewayFloor(cfg, snap, ports, p, e);
  }

  lemma ClassifySubnet(cfg: Config, snap: Snapshot, ports: Ports, p: Packet, e: Entry)
    requires p.payload.IPv4? && Addressed(cfg, snap)
    requires !Covers(cfg.gatewayIP, p.payload.dst) && Covers(cfg.podCIDR, p.payload.dst)
    requires Selects(Compile(cfg, snap, ports), TABLE_CLASSIFICATION, p, e)
    ensures Act(e, p) == Classification(cfg, snap, p)
  {
    Classifiers(cfg, snap, ports, p, e);
    SubnetFloor(cfg, snap, ports, p, e);
  }

  lemma ClassifyCluster(cfg: Config, snap: Snapshot, ports: Ports, p: Packet, e: Entry)
    requires p.payload.IPv4? && Addressed(cfg, snap)
    requires !Covers(cfg.gatewayIP, p.payload.dst) && !Covers(cfg.podCIDR, p.payload.dst)
    requires Covers(cfg.clusterCIDR, p.payload.dst)
    requires Selects(Compile(cfg, snap, ports), TABLE_CLASSIFICATION, p, e)
    ensures Act(e, p) == Classification(cfg, snap, p)
  {
    Classifiers(cfg, snap, ports, p, e);
    ClusterFloor(cfg, snap, ports, p, e);
  }

  lemma FloorOutside(cfg: Config, snap: Snapshot, ports: Ports, p: Packet, e: Entry)
    requires p.payload.IPv4? && Selects(Compile(cfg, snap, ports), TABLE_CLASSIFICATION, p, e)
    ensures var own, remote := OwnNode(cfg, snap.vswitches, p.payload.dst), RemoteNode(cfg, snap.vswitches, p.payload.dst);
            && (own.Some? || remote.Some? ==> e.Priority() >= 50)
            && (own.Some? && Covers(own.value.podCIDR, p.payload.src) ==> e.Priority() >= 100)
  {
    var d := p.payload.dst;
    var own, remote := OwnNode(cfg, snap.vswitches, d), RemoteNode(cfg, snap.vswitches, d);
    if own.Some? {
      NodeFloor(cfg, snap, ports, p, e, own.value);
      if Covers(own.value.podCIDR, p.payload.src) {
        OwnSubnetFloor(cfg, snap, ports, p, e, own.value);
      }
    } else if remote.Some? {
      NodeFloor(cfg, snap, ports, p, e, remote.value);
    }
  }

  lemma DefaultOutside(cfg: Config, snap: Snapshot, ports: Ports, p: Packet, e: Entry)
    requires p.payload.IPv4? && Addressed(cfg, snap)
    requires !Covers(cfg.gatewayIP, p.payload.dst) && !Covers(cfg.podCIDR, p.payload.dst)
    requires !Covers(cfg.clusterCIDR, p.payload.dst)
    requires Selects(Compile(cfg, snap, ports), TABLE_CLASSIFICATION, p, e) && IsDefaultClassifier(cfg, e, p)
    ensures Act(e, p) == Classification(cfg, snap, p)
  {
    FloorOutside(cfg, snap, ports, p, e);
  }

  lemma VSwitchOutside(cfg: Config, snap: Snapshot, ports: Ports, p: Packet, e: Entry, v: VSwitch)
    requires p.payload.IPv4? && Addressed(cfg, snap)
    requires !Covers(cfg.gatewayIP, p.payload.dst) && !Covers(cfg.podCIDR, p.payload.dst)
    requires !Covers(cfg.clusterCIDR, p.payload.dst)
    requires Selects(Compile(cfg, snap, ports), TABLE_CLASSIFICATION, p, e)
    requires v in snap.vswitches && IsVSwitchClassifier(cfg, v, e, p)
    ensures Act(e, p) == Classification(cfg, snap, p)
  {
    FloorOutside(cfg, snap, ports, p, e);
    assert WellAddressed(cfg, v);
    OwnNodeIs(cfg, snap, v, p.payload.dst);
  }

  lemma ClassifyOutside(cfg: Config, snap: Snapshot, ports: Ports, p: Packet, e: Entry)
    requires p.payload.IPv4? && Addressed(cfg, snap)
    requires !Covers(cfg.gatewayIP, p.payload.dst) && !Covers(cfg.podCIDR, p.payload.dst)
    requires !Covers(cfg.clusterCIDR, p.payload.dst)
    requires Selects(Compile(cfg, snap, ports), TABLE_CLASSIFICATION, p, e)
    ensures Act(e, p) == Classification(cfg, snap, p)
  {
    Classifiers(cfg, snap, ports, p, e);
    if IsDefaultClassifier(cfg, e, p) {
      DefaultOutside(cfg, snap, ports, p, e);
    } else {
      var v :| v in snap.vswitches && IsVSwitchClassifier(cfg, v, e, p);
      VSwitchOutside(cfg, snap, ports, p, e, v);
    }
  }

  /** The classification table, for every way of resolving ties. */
  lemma Classify(cfg: Config, snap: Snapshot, ports: Ports, p: Packet, e: Entry)
    requires p.payload.IPv4? && Addressed(cfg, snap)
    requires Selects(Compile(cfg, snap, ports), TABLE_CLASSIFICATION, p, e)
    ensures Act(e, p) == Classification(cfg, snap, p)
  {
    if Covers(cfg.gatewayIP, p.payload.dst) {
      ClassifyGateway(cfg, snap, ports, p, e);
    } else if Covers(cfg.podCIDR, p.payload.dst) {
      ClassifySubnet(cfg, snap, ports, p, e);
    } else if Covers(cfg.clusterCIDR, p.payload.dst) {
      ClassifyCluster(cfg, snap, ports, p, e);
    } else {
      ClassifyOutside(cfg, snap, ports, p, e);
    }
  }

  lemma ClassifierNeverMisses(cfg: Config, snap: Snapshot, ports: Ports, p: Packet)
    ensures !Misses(Compile(cfg, snap, ports), TABLE_CLASSIFICATION, p)
  {
    var e := Plain(CLASSIFIER_DEFAULT);
    assert DefaultFlows(cfg)[2] == e;
    Members(cfg, snap, ports, e);
    assert Matches(e, p);
  }

  // ----- The forwarding table

  predicate IsForwarder(cfg: Config, v: VSwitch, e: Entry, p: Packet)
    requires p.payload.IPv4?
  {
    var d := p.payload.dst;
    if v.name == cfg.nodeName then AddressMatches(v.podCIDR, d) && Is(e, p, 100, Goto(TABLE_L2_REWRITES, p))
    else
      || (AddressMatches(v.podCIDR, d) && Is(e, p, 150, Done(Tunnel(cfg, v, p))))
      || (AddressMatches(v.overlayIP, d) && Is(e, p, 100, Done(Tunnel(cfg, v, p))))
  }

  lemma VSwitchForwarders(cfg: Config, v: VSwitch, p: Packet, e: Entry)
    requires p.payload.IPv4? && v.overlayIP != ""
    requires e in FlowsForVSwitch(cfg, v) && e.Table() == TABLE_L3_FORWARDING && Matches(e, p)
    ensures IsForwarder(cfg, v, e, p)
  {
  }

  lemma Forwarders(cfg: Config, snap: Snapshot, ports: Ports, p: Packet, e: Entry)
    requires p.payload.IPv4? && Addressed(cfg, snap)
    requires e in Compile(cfg, snap, ports) && e.Table() == TABLE_L3_FORWARDING && Matches(e, p)
    ensures exists v :: v in snap.vswitches && IsForwarder(cfg, v, e, p)
  {
    OtherTables(cfg, snap, ports, e);
    if e in DefaultFlows(cfg) {
      DefaultIsRegular(cfg, e);
    } else {
      var v :| v in snap.vswitches && e in FlowsForVSwitch(cfg, v);
      assert WellAddressed(cfg, v);
      VSwitchForwarders(cfg, v, p, e);
    }
  }

  /** A packet for a remote node or its pods meets an entry of the forwarding table. */
  lemma ForwarderPresent(cfg: Config, snap: Snapshot, ports: Ports, p: Packet, v: VSwitch)
    requires p.payload.IPv4? && v in snap.vswitches && v.name != cfg.nodeName
    requires Covers(v.podCIDR, p.payload.dst) || Covers(v.overlayIP, p.payload.dst)
    ensures !Misses(Compile(cfg, snap, ports), TABLE_L3_FORWARDING, p)
  {
    var f := FlowsForVSwitch(cfg, v);
    Members(cfg, snap, ports, f[0]);
    Members(cfg, snap, ports, f[2]);
    if Covers(v.podCIDR, p.payload.dst) {
      assert Matches(f[0], p);
    } else {
      assert Matches(f[2], p);
    }
  }

  lemma RemoteSubnetIs(cfg: Config, snap: Snapshot, v: VSwitch, ip: Ip)
    requires Addressed(cfg, snap) && v in snap.vswitches && v.name != cfg.nodeName && Covers(v.podCIDR, ip)
    ensures RemoteSubnet(cfg, snap.vswitches, ip) == Some(v)
  {
    var w := RemoteSubnet(cfg, snap.vswitches, ip).value;
    assert v != w ==> Disjoint(v.podCIDR, w.podCIDR, ip);
  }

  /** The forwarding table, for packets that the classification table hands to it. */
  lemma Forward30(cfg: Config, snap: Snapshot, ports: Ports, p: Packet, e: Entry)
    requires p.payload.IPv4? && Addressed(cfg, snap)
    requires Classification(cfg, snap, p) == Goto(TABLE_L3_FORWARDING, p)
    requires Selects(Compile(cfg, snap, ports), TABLE_L3_FORWARDING, p, e)
    ensures Act(e, p) == Done(Route(cfg, snap, ports, p))
  {
    var d := p.payload.dst;
    Forwarders(cfg, snap, ports, p, e);
    var v :| v in snap.vswitches && IsForwarder(cfg, v, e, p);
    assert WellAddressed(cfg, v);
    if Covers(cfg.clusterCIDR, d) {
      RemoteSubnetIs(cfg, snap, v, d);
    } else {
      OwnNodeIs(cfg, snap, v, d);
    }
  }

  lemma Forward30Miss(cfg: Config, snap: Snapshot, ports: Ports, p: Packet)
    requires p.payload.IPv4? && Addressed(cfg, snap)
    requires Classification(cfg, snap, p) == Goto(TABLE_L3_FORWARDING, p)
    requires Misses(Compile(cfg, snap, ports), TABLE_L3_FORWARDING, p)
    ensures Route(cfg, snap, ports, p) == Dropped
  {
    var d := p.payload.dst;
    if RemoteSubnet(cfg, snap.vswitches, d).Some? {
      ForwarderPresent(cfg, snap, ports, p, RemoteSubnet(cfg, snap.vswitches, d).value);
    } else if RemoteNode(cfg, snap.vswitches, d).Some? {
      ForwarderPresent(cfg, snap, ports, p, RemoteNode(cfg, snap.vswitches, d).value);
    }
  }

  // ----- The rewriting table

  lemma PodDeliverers(cfg: Config, ports: Ports, pod: Pod, p: Packet, e: Entry)
    requires p.payload.IPv4?
    requires e in FlowsForPod(cfg, ports, pod) && e.Table() == TABLE_L2_REWRITES && Matches(e, p)
    ensures Deliverable(cfg, ports, pod) && ParseIP(pod.ip) == Some(p.payload.dst)
    ensures Act(e, p) == Done(Emit(ports[PodKey(pod)], p.(dlDst := POD_MAC)))
  {
    AddressCovers(pod.ip, p.payload.dst);
  }

  lemma Deliver60(cfg: Config, snap: Snapshot, ports: Ports, p: Packet, e: Entry)
    requires p.payload.IPv4? && Addressed(cfg, snap)
    requires Selects(Compile(cfg, snap, ports), TABLE_L2_REWRITES, p, e)
    ensures Act(e, p) == Done(RouteToPod(cfg, snap, ports, p))
  {
    OtherTables(cfg, snap, ports, e);
    if e in DefaultFlows(cfg) {
      DefaultIsRegular(cfg, e);
    } else {
      var pod :| pod in snap.pods && e in FlowsForPod(cfg, ports, pod);
      PodDeliverers(cfg, ports, pod, p, e);
      var found := PodAt(cfg, snap.pods, ports, p.payload.dst);
      assert SameLocalIP(cfg, pod, found.value);
    }
  }

  lemma Deliver60Miss(cfg: Config, snap: Snapshot, ports: Ports, p: Packet)
    requires p.payload.IPv4?
    requires Misses(Compile(cfg, snap, ports), TABLE_L2_REWRITES, p)
    ensures RouteToPod(cfg, snap, ports, p) == Dropped
  {
    var found := PodAt(cfg, snap.pods, ports, p.payload.dst);
    if found.Some? {
      var pod := found.value;
      EmptyIsNoAddress();
      AddressCovers(pod.ip, p.payload.dst);
      var e := Plain(DeliveryFlow(pod.ip, ports[PodKey(pod)]));
      assert FlowsForPod(cfg, ports, pod)[0] == e;
      Members(cfg, snap, ports, e);
      assert Matches(e, p);
    }
  }
}
