/** What the pipeline does with ARP packets. */
module ArpPipeline {
  import opened Collections
  import opened Addresses
  import opened Flows
  import opened Switch
  import opened Cluster
  import opened Compiler
  import opened Layout
  import opened PolicyVerdict
  import opened Routing
  import opened Pipeline

  /** A reply in the sense of RFC 826, section "Packet Reception": the answered
      address and its MAC are the sender, the requester is the target, and the
      frame goes back to where the request came from. */
  predicate CorrectReply(request: Packet, reply: Packet, mac: string)
    requires request.payload.ARP?
  {
    && reply.payload.ARP? && reply.payload.op == 2
    && reply.payload.sha == mac && reply.payload.spa == request.payload.tpa
    && reply.payload.tha == request.payload.sha && reply.payload.tpa == request.payload.spa
    && reply.dlSrc == mac && reply.dlDst == request.dlSrc
  }

  /** The reply of the cluster-wide responder: its sender fields are overwritten
      before they are copied to the target fields. */
  function ClusterReply(p: Packet): Packet
    requires p.payload.ARP?
  {
    Packet(POD_MAC, p.dlSrc, p.tunDst, ARP(2, POD_MAC, p.payload.tpa, POD_MAC, p.payload.tpa))
  }

  function ActFour(a: ArpAction, b: ArpAction, c: ArpAction, d: ArpAction, p: Packet): (q: Packet)
    requires p.payload.ARP?
    ensures q.payload.ARP?
  {
    ActArp(d, ActArp(c, ActArp(b, ActArp(a, p))))
  }

  /** The first four of at least four actions. */
  lemma ActAllFour(actions: seq<ArpAction>, p: Packet)
    requires p.payload.ARP? && |actions| >= 4
    ensures ActAll(actions, p)
            == ActAll(actions[4..], ActFour(actions[0], actions[1], actions[2], actions[3], p))
  {
    var a := actions;
    assert a[1..][1..] == a[2..] && a[2..][1..] == a[3..] && a[3..][1..] == a[4..];
    var p1 := ActArp(a[0], p);
    var p2 := ActArp(a[1], p1);
    ActAllTwo(a, p);
    ActAllTwo(a[2..], p2);
    assert a[2..][2..] == a[4..];
  }

  lemma ActAllTwo(actions: seq<ArpAction>, p: Packet)
    requires p.payload.ARP? && |actions| >= 2
    ensures ActAll(actions, p) == ActAll(actions[2..], ActArp(actions[1], ActArp(actions[0], p)))
  {
    assert actions[1..][1..] == actions[2..];
  }

  lemma ActAllEight(actions: seq<ArpAction>, p: Packet)
    requires p.payload.ARP? && |actions| == 8
    ensures ActAll(actions, p)
            == ActFour(actions[4], actions[5], actions[6], actions[7],
                       ActFour(actions[0], actions[1], actions[2], actions[3], p))
  {
    ActAllFour(actions, p);
    ActAllFour(actions[4..], ActFour(actions[0], actions[1], actions[2], actions[3], p));
    assert actions[4..][4..] == [];
  }

  lemma AddressFirstHalf(mac: string, p: Packet)
    requires p.payload.ARP?
    ensures var r := p.payload;
            ActFour(MoveEthSrcToEthDst, ModDlSrc(mac), LoadReplyOp, MoveShaToTha, p)
            == Packet(mac, p.dlSrc, p.tunDst, ARP(2, r.sha, r.spa, r.sha, r.tpa))
  {
  }

  lemma AddressSecondHalf(ip: string, mac: string, p: Packet)
    requires p.payload.ARP? && ParseIP(ip).Some?
    ensures var r := p.payload;
            ActFour(MoveSpaToTpa, SetSha(mac), SetSpa(ip), InPort, p)
            == p.(payload := ARP(r.op, mac, ParseIP(ip).value, r.tha, r.spa))
  {
  }

  /** The eight actions of an address responder, carried out in sequence. */
  lemma AddressResponderActs(ip: string, mac: string, p: Packet)
    requires p.payload.ARP? && ParseIP(ip).Some?
    ensures ActAll(AddressResponder(ip, mac).actions, p)
            == Packet(mac, p.dlSrc, p.tunDst, ARP(2, mac, ParseIP(ip).value, p.payload.sha, p.payload.spa))
  {
    ActAllEight(AddressResponder(ip, mac).actions, p);
    AddressFirstHalf(mac, p);
    AddressSecondHalf(ip, mac, ActFour(MoveEthSrcToEthDst, ModDlSrc(mac), LoadReplyOp, MoveShaToTha, p));
  }

  lemma ClusterResponderActs(cidr: string, p: Packet)
    requires p.payload.ARP?
    ensures ActAll(ClusterResponder(cidr).actions, p) == ClusterReply(p)
  {
    ActAllEight(ClusterResponder(cidr).actions, p);
  }

  /** The cluster-wide responder answers correctly exactly when the requester has
      the pods' MAC and asks for its own address. */
  lemma ClusterReplyCorrectIff(p: Packet)
    requires p.payload.ARP?
    ensures CorrectReply(p, ClusterReply(p), POD_MAC)
            <==> p.payload.sha == POD_MAC && p.payload.spa == p.payload.tpa
  {
  }

  /** A pod asking for the address of a pod on another node is no such requester: the
      reply names the pods' MAC and the asked address as requester and as sender. */
  lemma ClusterReplyForAnother(p: Packet)
    requires p.payload.ARP? && p.payload.spa != p.payload.tpa
    ensures !CorrectReply(p, ClusterReply(p), POD_MAC) && ClusterReply(p).payload.tpa == p.payload.tpa
  {
  }

  // ----- Lookups of ARP packets

  /** ARP packets go from the classification table to the responders. */
  lemma ClassifyArp(cfg: Config, snap: Snapshot, ports: Ports, p: Packet, e: Entry)
    requires p.payload.ARP? && Addressed(cfg, snap)
    requires Selects(Compile(cfg, snap, ports), TABLE_CLASSIFICATION, p, e)
    ensures Act(e, p) == Goto(TABLE_LOCAL_ARP, p)
  {
    var f := BLANK.(table := TABLE_CLASSIFICATION, priority := 100, protocol := "arp", resubmit := TABLE_LOCAL_ARP);
    DefaultFlow(cfg, snap, ports, 6);
    assert DefaultFlows(cfg)[6] == Plain(f);
    assert Matches(Plain(f), p);
    OtherTables(cfg, snap, ports, e);
    if e in DefaultFlows(cfg) {
      DefaultClassifiesArp(cfg, p, e);
    } else {
      var v :| v in snap.vswitches && e in FlowsForVSwitch(cfg, v);
      VSwitchIgnoresArp(cfg, v, p, e);
    }
  }

  lemma DefaultClassifiesArp(cfg: Config, p: Packet, e: Entry)
    requires p.payload.ARP? && cfg.gatewayIP != "" && cfg.podCIDR != "" && cfg.clusterCIDR != ""
    requires e in DefaultFlows(cfg) && e.Table() == TABLE_CLASSIFICATION && Matches(e, p)
    ensures e.Priority() == 0 || Act(e, p) == Goto(TABLE_LOCAL_ARP, p)
  {
  }

  lemma VSwitchIgnoresArp(cfg: Config, v: VSwitch, p: Packet, e: Entry)
    requires p.payload.ARP? && e in FlowsForVSwitch(cfg, v)
    ensures !Matches(e, p)
  {
  }

  /** The responders of the ARP table. */
  predicate IsResponder(cfg: Config, ports: Ports, pods: seq<Pod>, e: Entry) {
    || e == Arp(AddressResponder(cfg.gatewayIP, cfg.bridgeMAC))
    || e == Arp(ClusterResponder(cfg.clusterCIDR))
    || exists pod :: pod in pods && Deliverable(cfg, ports, pod) && e == Arp(AddressResponder(pod.ip, POD_MAC))
  }

  lemma Responders(cfg: Config, snap: Snapshot, ports: Ports, e: Entry)
    requires e in Compile(cfg, snap, ports) && e.Table() == TABLE_LOCAL_ARP
    ensures IsResponder(cfg, ports, snap.pods, e)
  {
    OtherTables(cfg, snap, ports, e);
    if e in DefaultFlows(cfg) {
      DefaultResponders(cfg, e);
    } else {
      var pod :| pod in snap.pods && e in FlowsForPod(cfg, ports, pod);
      PodResponder(cfg, ports, pod, e);
    }
  }

  lemma DefaultResponders(cfg: Config, e: Entry)
    requires e in DefaultFlows(cfg) && e.Table() == TABLE_LOCAL_ARP
    ensures e == Arp(AddressResponder(cfg.gatewayIP, cfg.bridgeMAC)) || e == Arp(ClusterResponder(cfg.clusterCIDR))
  {
  }

  lemma PodResponder(cfg: Config, ports: Ports, pod: Pod, e: Entry)
    requires e in FlowsForPod(cfg, ports, pod) && e.Table() == TABLE_LOCAL_ARP
    ensures Deliverable(cfg, ports, pod) && e == Arp(AddressResponder(pod.ip, POD_MAC))
  {
  }

  lemma GatewayResponds(cfg: Config, snap: Snapshot, ports: Ports, p: Packet)
    requires p.payload.ARP? && Covers(cfg.gatewayIP, p.payload.tpa)
    ensures Arp(AddressResponder(cfg.gatewayIP, cfg.bridgeMAC)) in Compile(cfg, snap, ports)
    ensures Matches(Arp(AddressResponder(cfg.gatewayIP, cfg.bridgeMAC)), p)
  {
    DefaultFlow(cfg, snap, ports, 7);
  }

  lemma ClusterResponds(cfg: Config, snap: Snapshot, ports: Ports, p: Packet)
    requires p.payload.ARP? && Covers(cfg.clusterCIDR, p.payload.tpa)
    ensures Arp(ClusterResponder(cfg.clusterCIDR)) in Compile(cfg, snap, ports)
    ensures Matches(Arp(ClusterResponder(cfg.clusterCIDR)), p)
  {
    DefaultFlow(cfg, snap, ports, 8);
  }

  lemma PodResponds(cfg: Config, snap: Snapshot, ports: Ports, pod: Pod, p: Packet)
    requires p.payload.ARP? && pod in snap.pods && Deliverable(cfg, ports, pod)
    requires ParseIP(pod.ip) == Some(p.payload.tpa)
    ensures Arp(AddressResponder(pod.ip, POD_MAC)) in Compile(cfg, snap, ports)
    ensures Matches(Arp(AddressResponder(pod.ip, POD_MAC)), p)
  {
    EmptyIsNoAddress();
    AddressCovers(pod.ip, p.payload.tpa);
    var e := Arp(AddressResponder(pod.ip, POD_MAC));
    assert FlowsForPod(cfg, ports, pod)[1] == e;
    Members(cfg, snap, ports, e);
  }

  /** The gateway is one address, and no local pod has it. */
  ghost predicate GatewayApart(cfg: Config, snap: Snapshot) {
    && ParseIP(cfg.gatewayIP).Some?
    && forall pod :: pod in snap.pods && IsLocal(cfg, pod.ip) ==> ParseIP(pod.ip) != ParseIP(cfg.gatewayIP)
  }

  lemma ActResponder(ip: string, mac: string, p: Packet)
    requires p.payload.ARP? && ParseIP(ip) == Some(p.payload.tpa) && Matches(Arp(AddressResponder(ip, mac)), p)
    ensures Act(Arp(AddressResponder(ip, mac)), p).Done?
    ensures var o := Act(Arp(AddressResponder(ip, mac)), p).outcome;
            o.Sent? && o.port == IngressPort && CorrectReply(p, o.packet, mac)
  {
    AddressResponderActs(ip, mac, p);
    var a := AddressResponder(ip, mac).actions;
    assert a[7] == InPort;
  }

  lemma ResponderFloor(cfg: Config, snap: Snapshot, ports: Ports, p: Packet, e: Entry, ip: string, mac: string)
    requires p.payload.ARP?
    requires || (ip == cfg.gatewayIP && mac == cfg.bridgeMAC)
             || (mac == POD_MAC && exists pod :: pod in snap.pods && Deliverable(cfg, ports, pod) && pod.ip == ip)
    requires ParseIP(ip) == Some(p.payload.tpa)
    requires Selects(Compile(cfg, snap, ports), TABLE_LOCAL_ARP, p, e)
    ensures e.Priority() >= 500 && Matches(Arp(AddressResponder(ip, mac)), p)
  {
    AddressCovers(ip, p.payload.tpa);
    if ip == cfg.gatewayIP && mac == cfg.bridgeMAC {
      GatewayResponds(cfg, snap, ports, p);
    } else {
      var pod :| pod in snap.pods && Deliverable(cfg, ports, pod) && pod.ip == ip;
      PodResponds(cfg, snap, ports, pod, p);
    }
  }

  /** A request for the gateway, or for a local pod whose port is known, is answered
      out of its input port with a correct reply. */
  lemma AnswerAddress(cfg: Config, snap: Snapshot, ports: Ports, p: Packet, e: Entry, ip: string, mac: string)
    requires p.payload.ARP? && Addressed(cfg, snap) && GatewayApart(cfg, snap)
    requires || (ip == cfg.gatewayIP && mac == cfg.bridgeMAC)
             || (mac == POD_MAC && exists pod :: pod in snap.pods && Deliverable(cfg, ports, pod) && pod.ip == ip)
    requires ParseIP(ip) == Some(p.payload.tpa)
    requires Selects(Compile(cfg, snap, ports), TABLE_LOCAL_ARP, p, e)
    ensures Act(e, p).Done?
    ensures var o := Act(e, p).outcome; o.Sent? && o.port == IngressPort && CorrectReply(p, o.packet, mac)
  {
    Responders(cfg, snap, ports, e);
    ResponderFloor(cfg, snap, ports, p, e, ip, mac);
    OneAnswer(cfg, snap, ports, p, e, ip, mac);
    ActResponder(ip, mac, p);
  }

  /** Addresses being unique, only one responder of priority 500 matches. */
  lemma OneAnswer(cfg: Config, snap: Snapshot, ports: Ports, p: Packet, e: Entry, ip: string, mac: string)
    requires p.payload.ARP? && Addressed(cfg, snap) && GatewayApart(cfg, snap)
    requires || (ip == cfg.gatewayIP && mac == cfg.bridgeMAC)
             || (mac == POD_MAC && exists pod :: pod in snap.pods && Deliverable(cfg, ports, pod) && pod.ip == ip)
    requires ParseIP(ip) == Some(p.payload.tpa)
    requires IsResponder(cfg, ports, snap.pods, e) && Matches(e, p) && e.Priority() >= 500
    ensures e == Arp(AddressResponder(ip, mac))
  {
    AddressCovers(cfg.gatewayIP, p.payload.tpa);
    if e != Arp(AddressResponder(cfg.gatewayIP, cfg.bridgeMAC)) {
      var pod :| pod in snap.pods && Deliverable(cfg, ports, pod) && e == Arp(AddressResponder(pod.ip, POD_MAC));
      AddressCovers(pod.ip, p.payload.tpa);
      if other :| other in snap.pods && Deliverable(cfg, ports, other) && other.ip == ip {
        assert SameLocalIP(cfg, pod, other);
      }
    }
  }

  /** Every other request inside the cluster CIDR gets the cluster-wide reply, and
      requests outside it are dropped. */
  lemma AnswerOther(cfg: Config, snap: Snapshot, ports: Ports, p: Packet, e: Entry)
    requires p.payload.ARP? && Addressed(cfg, snap)
    requires !Covers(cfg.gatewayIP, p.payload.tpa) && PodAt(cfg, snap.pods, ports, p.payload.tpa).None?
    requires Selects(Compile(cfg, snap, ports), TABLE_LOCAL_ARP, p, e)
    ensures Covers(cfg.clusterCIDR, p.payload.tpa)
    ensures Act(e, p) == Done(Sent(IngressPort, ClusterReply(p)))
  {
    Responders(cfg, snap, ports, e);
    if e != Arp(ClusterResponder(cfg.clusterCIDR)) {
      var pod :| pod in snap.pods && Deliverable(cfg, ports, pod) && e == Arp(AddressResponder(pod.ip, POD_MAC));
      AddressCovers(pod.ip, p.payload.tpa);
    }
    ClusterResponderActs(cfg.clusterCIDR, p);
    assert ClusterResponder(cfg.clusterCIDR).actions[7] == InPort;
  }

  // ----- Whole runs

  /** The MAC that answers for an address, if the node answers for it. */
  function AnswerFor(cfg: Config, snap: Snapshot, ports: Ports, ip: Ip): Option<string> {
    if Covers(cfg.gatewayIP, ip) then Some(cfg.bridgeMAC)
    else if PodAt(cfg, snap.pods, ports, ip).Some? then Some(POD_MAC)
    else None
  }

  /** ARP packets pass the policies and reach the responders in every run. */
  lemma ReachesResponders(cfg: Config, snap: Snapshot, ports: Ports, p: Packet, trace: seq<Entry>, o: Outcome)
    requires p.payload.ARP? && Addressed(cfg, snap)
    requires Runs(Compile(cfg, snap, ports), TABLE_ENTRY, p, trace, o)
    ensures |trace| >= 3 && Runs(Compile(cfg, snap, ports), TABLE_LOCAL_ARP, p, trace[3..], o)
  {
    AfterPolicies(cfg, snap, ports, p, trace, o);
    OthersPass(cfg, snap, ports, p, trace[1]);
    ClassifierNeverMisses(cfg, snap, ports, p);
    var rest := trace[1..][1..];
    assert rest == trace[2..];
    ClassifyArp(cfg, snap, ports, p, rest[0]);
    assert rest[1..] == trace[3..];
  }

  /** ARP requests for an address the node answers for are answered correctly, out
      of the port they came from, whatever the policies and the tie-break. */
  lemma ArpAnswered(cfg: Config, snap: Snapshot, ports: Ports, p: Packet, trace: seq<Entry>, o: Outcome)
    requires p.payload.ARP? && Addressed(cfg, snap) && GatewayApart(cfg, snap)
    requires Runs(Compile(cfg, snap, ports), TABLE_ENTRY, p, trace, o)
    requires AnswerFor(cfg, snap, ports, p.payload.tpa).Some?
    ensures o.Sent? && o.port == IngressPort
    ensures CorrectReply(p, o.packet, AnswerFor(cfg, snap, ports, p.payload.tpa).value)
  {
    var ip := p.payload.tpa;
    ReachesResponders(cfg, snap, ports, p, trace, o);
    AddressCovers(cfg.gatewayIP, ip);
    if Covers(cfg.gatewayIP, ip) {
      GatewayResponds(cfg, snap, ports, p);
      AnswerAddress(cfg, snap, ports, p, trace[3..][0], cfg.gatewayIP, cfg.bridgeMAC);
    } else {
      var pod := PodAt(cfg, snap.pods, ports, ip).value;
      PodResponds(cfg, snap, ports, pod, p);
      AnswerAddress(cfg, snap, ports, p, trace[3..][0], pod.ip, POD_MAC);
    }
  }

  /** What becomes of every other ARP packet. */
  lemma ArpElsewhere(cfg: Config, snap: Snapshot, ports: Ports, p: Packet, trace: seq<Entry>, o: Outcome)
    requires p.payload.ARP? && Addressed(cfg, snap)
    requires Runs(Compile(cfg, snap, ports), TABLE_ENTRY, p, trace, o)
    requires AnswerFor(cfg, snap, ports, p.payload.tpa).None?
    ensures o == if Covers(cfg.clusterCIDR, p.payload.tpa) then Sent(IngressPort, ClusterReply(p)) else Dropped
  {
    ReachesResponders(cfg, snap, ports, p, trace, o);
    if trace[3..] == [] {
      if Covers(cfg.clusterCIDR, p.payload.tpa) {
        ClusterResponds(cfg, snap, ports, p);
      }
    } else {
      AnswerOther(cfg, snap, ports, p, trace[3..][0]);
    }
  }
}
