/** The controller's flow synchronisation as it runs: nested loops that append to
    the flows buffer, proved against the compiler's functions. */
module ControllerModel {
  import opened Collections
  import opened Text
  import opened Addresses
  import opened Flows
  import opened Cluster
  import opened Compiler
  import opened PortCacheModel
  import opened SyncModel

  lemma Append2<T>(s: seq<T>, a: T, b: T)
    ensures s + [a] + [b] == s + [a, b]
  {
  }

  lemma Append3<T>(s: seq<T>, a: T, b: T, c: T)
    ensures s + [a] + [b] + [c] == s + [a, b, c]
  {
  }

  lemma Append4<T>(s: seq<T>, a: T, b: T, c: T, d: T)
    ensures s + [a] + [b] + [c] + [d] == s + [a, b, c, d]
  {
  }

  lemma AppendBoth<T>(s: seq<T>, a: seq<T>, b: seq<T>)
    ensures s + a + b == s + (a + b)
  {
  }

  lemma AppendGroups<T>(s: seq<T>, a: seq<T>, b: seq<T>, c: seq<T>)
    ensures s + a + b + c == s + (a + b + c)
  {
  }

  /** One more iteration of a loop that appends `f(s[i])` to what was there before. */
  lemma AppendStep<A, B>(before: seq<B>, f: A -> seq<B>, s: seq<A>, i: nat)
    requires i < |s|
    ensures before + FlatMap(f, s[..i]) + f(s[i]) == before + FlatMap(f, s[..i + 1])
  {
    FlatMapStep(f, s, i);
  }

  lemma PeerStep(before: seq<Entry>, dir: Direction, snap: Snapshot, policy: Policy, locals: seq<string>,
                 ports: seq<PolicyPort>, peers: seq<Peer>, i: nat)
    requires i < |peers|
    ensures before + FlatMap(FlowsForPeerOf(dir, snap, policy, locals, ports), peers[..i])
              + FlowsForPeer(dir, snap, policy, locals, ports, peers[i])
            == before + FlatMap(FlowsForPeerOf(dir, snap, policy, locals, ports), peers[..i + 1])
  {
    AppendStep(before, FlowsForPeerOf(dir, snap, policy, locals, ports), peers, i);
  }

  lemma RuleStep(before: seq<Entry>, dir: Direction, snap: Snapshot, policy: Policy, locals: seq<string>,
                 rules: seq<Rule>, i: nat)
    requires i < |rules|
    ensures before + FlatMap(FlowsForRuleOf(dir, snap, policy, locals), rules[..i])
              + FlowsForRule(dir, snap, policy, locals, rules[i])
            == before + FlatMap(FlowsForRuleOf(dir, snap, policy, locals), rules[..i + 1])
  {
    AppendStep(before, FlowsForRuleOf(dir, snap, policy, locals), rules, i);
  }

  lemma VSwitchStep(before: seq<Entry>, cfg: Config, vswitches: seq<VSwitch>, i: nat)
    requires i < |vswitches|
    ensures before + FlatMap(FlowsForVSwitchOf(cfg), vswitches[..i]) + FlowsForVSwitch(cfg, vswitches[i])
            == before + FlatMap(FlowsForVSwitchOf(cfg), vswitches[..i + 1])
  {
    AppendStep(before, FlowsForVSwitchOf(cfg), vswitches, i);
  }

  lemma PolicyStep(before: seq<Entry>, cfg: Config, snap: Snapshot, policies: seq<Policy>, i: nat)
    requires i < |policies|
    ensures before + FlatMap(FlowsForPolicyOf(cfg, snap), policies[..i]) + FlowsForPolicy(cfg, snap, policies[i])
            == before + FlatMap(FlowsForPolicyOf(cfg, snap), policies[..i + 1])
  {
    AppendStep(before, FlowsForPolicyOf(cfg, snap), policies, i);
  }

  lemma DropsThenRules(before: seq<Entry>, dir: Direction, snap: Snapshot, policy: Policy, locals: seq<string>)
    ensures before + FlatMap(DefaultDrops(dir), locals)
              + FlatMap(FlowsForRuleOf(dir, snap, policy, locals), Rules(dir, policy))
            == before + FlowsForDirection(dir, snap, policy, locals)
  {
    AppendBoth(before, FlatMap(DefaultDrops(dir), locals),
               FlatMap(FlowsForRuleOf(dir, snap, policy, locals), Rules(dir, policy)));
  }

  lemma IngressThenEgress(before: seq<Entry>, cfg: Config, snap: Snapshot, policy: Policy)
    ensures before + FlowsForDirection(Ingress, snap, policy, SelectedIPs(cfg, snap, policy))
              + FlowsForDirection(Egress, snap, policy, SelectedIPs(cfg, snap, policy))
            == before + FlowsForPolicy(cfg, snap, policy)
  {
    AppendBoth(before, FlowsForDirection(Ingress, snap, policy, SelectedIPs(cfg, snap, policy)),
               FlowsForDirection(Egress, snap, policy, SelectedIPs(cfg, snap, policy)));
  }

  lemma ResponderTextIsSet(r: Responder)
    ensures r.Text() != ""
  {
    assert r.Text()[0] == 't';
  }

  /** The lines are those of the entries. */
  ghost predicate Writes(lines: seq<string>, entries: seq<Entry>) {
    |lines| == |entries| && forall i {:trigger lines[i]} :: 0 <= i < |lines| ==> lines[i] == entries[i].Text()
  }

  lemma WrittenLines(lines: seq<string>, entries: seq<Entry>)
    requires Writes(lines, entries)
    ensures lines == Lines(entries)
  {
    assert forall i :: 0 <= i < |lines| ==> Lines(entries)[i] == entries[i].Text();
  }

  class Controller {
    const cfg: Config
    const flows: FlowsBuffer
    const portCache: PortCache
    ghost var emitted: seq<Entry>  // what the buffer holds since the last reset
    var snapshot: Snapshot         // what the listers return
    var db: OVSDB                  // what the OVS database answers
    var installed: string          // the flows last accepted by the switch

    ghost predicate Valid()
      reads this, flows
    {
      flows.Valid() && Writes(flows.lines, emitted)
    }

    constructor (cfg: Config)
      ensures Valid() && fresh(flows) && fresh(portCache) && this.cfg == cfg
      ensures emitted == [] && portCache.store == map[] && installed == ""
    {
      this.cfg := cfg;
      flows := new FlowsBuffer();
      portCache := new PortCache();
      emitted, snapshot, db, installed := [], Snapshot([], [], [], []), OVSDB(map[], map[], map[]), "";
    }

    // ----- Appending one flow

    method AddFlow(flow: Flow, ghost f: FlowSpec)
      requires Valid() && flow.raw == "" && flow.Spec() == f
      modifies flows, this`emitted
      ensures Valid() && emitted == old(emitted) + [Plain(f)]
    {
      flows.AddFlow(flow);
      emitted := emitted + [Plain(f)];
    }

    method AddResponder(r: Responder)
      requires Valid()
      modifies flows, this`emitted
      ensures Valid() && emitted == old(emitted) + [Arp(r)]
    {
      var rawFlow := r.Text();
      var flow := new Flow();
      flow := flow.WithRaw(rawFlow);
      ResponderTextIsSet(r);
      flows.AddFlow(flow);
      emitted := emitted + [Arp(r)];
    }

    // ----- Default flows

    /** A flow of the pipeline's fixed part, without a match on addresses. */
    method NewPipelineFlow(table: int, priority: int) returns (flow: Flow)
      ensures fresh(flow) && flow.raw == "" && flow.Spec() == BLANK.(table := table, priority := priority)
    {
      flow := new Flow();
      flow := flow.WithTable(table);
      flow := flow.WithPriority(priority);
    }

    method NewIPFlow(table: int, priority: int, protocol: string, dst: string) returns (flow: Flow)
      ensures fresh(flow) && flow.raw == ""
      ensures flow.Spec() == BLANK.(table := table, priority := priority, protocol := protocol, ipDest := dst)
    {
      flow := NewPipelineFlow(table, priority);
      flow := flow.WithProtocol(protocol);
      flow := flow.WithIPDest(dst);
    }

    method AddResubmit(table: int, priority: int, next: int)
      requires Valid()
      modifies flows, this`emitted
      ensures Valid()
      ensures emitted == old(emitted) + [Plain(BLANK.(table := table, priority := priority, resubmit := next))]
    {
      var flow := NewPipelineFlow(table, priority);
      flow := flow.WithActionResubmit(next);
      AddFlow(flow, BLANK.(table := table, priority := priority, resubmit := next));
    }

    method AddClassifier(priority: int, dst: string, next: int)
      requires Valid()
      modifies flows, this`emitted
      ensures Valid()
      ensures emitted == old(emitted) + [Plain(ClassifierFlow(priority, dst).(resubmit := next))]
    {
      var flow := NewIPFlow(TABLE_CLASSIFICATION, priority, "ip", dst);
      flow := flow.WithActionResubmit(next);
      AddFlow(flow, ClassifierFlow(priority, dst).(resubmit := next));
    }

    method AddLocalDefaults()
      requires Valid()
      modifies flows, this`emitted
      ensures Valid()
      ensures emitted == old(emitted) + [Plain(CLASSIFIER_DEFAULT)]
                         + [Plain(ClassifierFlow(500, cfg.gatewayIP).(local := true))]
    {
      var flow := NewPipelineFlow(TABLE_CLASSIFICATION, 0);
      flow := flow.WithActionLocal();
      AddFlow(flow, CLASSIFIER_DEFAULT);

      flow := NewIPFlow(TABLE_CLASSIFICATION, 500, "ip", cfg.gatewayIP);
      flow := flow.WithActionLocal();
      AddFlow(flow, ClassifierFlow(500, cfg.gatewayIP).(local := true));
    }

    method AddArpClassifier()
      requires Valid()
      modifies flows, this`emitted
      ensures Valid()
      ensures emitted == old(emitted) + [Plain(BLANK.(table := TABLE_CLASSIFICATION, priority := 100,
                                                      protocol := "arp", resubmit := TABLE_LOCAL_ARP))]
    {
      var flow := NewPipelineFlow(TABLE_CLASSIFICATION, 100);
      flow := flow.WithProtocol("arp");
      flow := flow.WithActionResubmit(TABLE_LOCAL_ARP);
      AddFlow(flow, BLANK.(table := TABLE_CLASSIFICATION, priority := 100, protocol := "arp", resubmit := TABLE_LOCAL_ARP));
    }

    method DefaultFlows()
      requires Valid()
      modifies flows, this`emitted
      ensures Valid() && emitted == old(emitted) + Compiler.DefaultFlows(cfg)
    {
      ghost var e0 := emitted;
      AddFirstDefaults();
      AddClassifiers();
      AddDefaultResponders();
      AppendGroups(e0, FirstDefaults(cfg), ClassifierDefaults(cfg), ResponderDefaults(cfg));
    }

    method AddFirstDefaults()
      requires Valid()
      modifies flows, this`emitted
      ensures Valid() && emitted == old(emitted) + FirstDefaults(cfg)
    {
      ghost var e0 := emitted;
      AddResubmit(TABLE_ENTRY, 1000, TABLE_NETWORK_POLICIES);
      AddResubmit(TABLE_NETWORK_POLICIES, 0, TABLE_CLASSIFICATION);
      AddLocalDefaults();
      Append4(e0, Plain(ENTRY_FLOW), Plain(POLICY_DEFAULT), Plain(CLASSIFIER_DEFAULT),
              Plain(ClassifierFlow(500, cfg.gatewayIP).(local := true)));
    }

    method AddClassifiers()
      requires Valid()
      modifies flows, this`emitted
      ensures Valid() && emitted == old(emitted) + ClassifierDefaults(cfg)
    {
      ghost var e0 := emitted;
      AddClassifier(300, cfg.podCIDR, TABLE_L2_REWRITES);
      AddClassifier(100, cfg.clusterCIDR, TABLE_L3_FORWARDING);
      AddArpClassifier();
      Append3(e0, Plain(ClassifierFlow(300, cfg.podCIDR).(resubmit := TABLE_L2_REWRITES)),
              Plain(ClassifierFlow(100, cfg.clusterCIDR).(resubmit := TABLE_L3_FORWARDING)),
              Plain(BLANK.(table := TABLE_CLASSIFICATION, priority := 100, protocol := "arp", resubmit := TABLE_LOCAL_ARP)));
    }

    method AddDefaultResponders()
      requires Valid()
      modifies flows, this`emitted
      ensures Valid()
      ensures emitted == old(emitted) + ResponderDefaults(cfg)
    {
      ghost var e0 := emitted;
      AddResponder(AddressResponder(cfg.gatewayIP, cfg.bridgeMAC));
      AddResponder(ClusterResponder(cfg.clusterCIDR));
      Append2(e0, Arp(AddressResponder(cfg.gatewayIP, cfg.bridgeMAC)), Arp(ClusterResponder(cfg.clusterCIDR)));
    }

    // ----- Flows per vswitch

    method AddTunnel(priority: int, dst: string, overlayIP: string)
      requires Valid()
      modifies flows, this`emitted
      ensures Valid()
      ensures emitted == old(emitted)
                         + [Plain(ForwardingFlow(priority, dst).(tunDest := overlayIP, output := cfg.overlayOFPort))]
    {
      var flow := NewIPFlow(TABLE_L3_FORWARDING, priority, "ip", dst);
      flow := flow.WithActionTunnelDest(overlayIP);
      flow := flow.WithActionOutputPort(cfg.overlayOFPort);
      AddFlow(flow, ForwardingFlow(priority, dst).(tunDest := overlayIP, output := cfg.overlayOFPort));
    }

    method AddOwnSubnet(podCIDR: string)
      requires Valid()
      modifies flows, this`emitted
      ensures Valid()
      ensures emitted == old(emitted) + [Plain(ForwardingFlow(100, podCIDR).(resubmit := TABLE_L2_REWRITES))]
    {
      var flow := NewIPFlow(TABLE_L3_FORWARDING, 100, "ip", podCIDR);
      flow := flow.WithActionResubmit(TABLE_L2_REWRITES);
      AddFlow(flow, ForwardingFlow(100, podCIDR).(resubmit := TABLE_L2_REWRITES));
    }

    method AddOwnNode(nodeIP: string, podCIDR: string)
      requires Valid()
      modifies flows, this`emitted
      ensures Valid()
      ensures emitted == old(emitted)
        + [Plain(ClassifierFlow(100, nodeIP).(ipSrc := podCIDR, modDlDest := cfg.bridgeMAC, local := true))]
    {
      var flow := NewIPFlow(TABLE_CLASSIFICATION, 100, "ip", nodeIP);
      flow := flow.WithIPSrc(podCIDR);
      flow := flow.WithActionModDlDest(cfg.bridgeMAC);
      flow := flow.WithActionLocal();
      AddFlow(flow, ClassifierFlow(100, nodeIP).(ipSrc := podCIDR, modDlDest := cfg.bridgeMAC, local := true));
    }

    method AddClusterWide(nodeIP: string)
      requires Valid()
      modifies flows, this`emitted
      ensures Valid()
      ensures emitted == old(emitted)
        + [Plain(ClassifierFlow(50, nodeIP).(modDlDest := cfg.clusterWideMAC, output := cfg.clusterWideOFPort))]
    {
      var flow := NewIPFlow(TABLE_CLASSIFICATION, 50, "ip", nodeIP);
      flow := flow.WithActionModDlDest(cfg.clusterWideMAC);
      flow := flow.WithActionOutputPort(cfg.clusterWideOFPort);
      AddFlow(flow, ClassifierFlow(50, nodeIP).(modDlDest := cfg.clusterWideMAC, output := cfg.clusterWideOFPort));
    }

    method FlowsForVSwitch(vswitch: VSwitch)
      requires Valid()
      modifies flows, this`emitted
      ensures Valid() && emitted == old(emitted) + Compiler.FlowsForVSwitch(cfg, vswitch)
    {
      var isCurrentNode := vswitch.name == cfg.nodeName;
      var podCIDR, nodeIP := vswitch.podCIDR, vswitch.overlayIP;
      ghost var e0, own := emitted, Compiler.FlowsForVSwitch(cfg, vswitch);
      Append3(e0, own[0], own[1], own[2]);
      if !isCurrentNode {
        AddTunnel(150, podCIDR, vswitch.overlayIP);
      } else {
        AddOwnSubnet(podCIDR);
      }
      if isCurrentNode {
        AddOwnNode(nodeIP, podCIDR);
        AddClusterWide(nodeIP);
      } else {
        AddClassifier(50, nodeIP, TABLE_L3_FORWARDING);
        AddTunnel(100, nodeIP, nodeIP);
      }
    }

    // ----- Flows per pod

    /** `None` when the controller's own pod CIDR does not parse. */
    method IsLocalIP(ip: string) returns (local: Option<bool>)
      ensures local.None? <==> ParseCIDR(cfg.podCIDR).None?
      ensures local.Some? ==> local.value == IsLocal(cfg, ip)
    {
      var ipnet := ParseCIDR(cfg.podCIDR);
      if ipnet.None? {
        return None;
      }
      var parsed := ParseIP(ip);
      return Some(parsed.Some? && ipnet.value.Contains(parsed.value));
    }

    method AddDelivery(podIP: string, ofport: int)
      requires Valid()
      modifies flows, this`emitted
      ensures Valid() && emitted == old(emitted) + [Plain(DeliveryFlow(podIP, ofport))]
    {
      var flow := NewIPFlow(TABLE_L2_REWRITES, 100, "ip", podIP);
      flow := flow.WithActionModDlDest(POD_MAC);
      flow := flow.WithActionOutputPort(ofport);
      AddFlow(flow, DeliveryFlow(podIP, ofport));
    }

    /** The pod's OpenFlow port, looked up through the cache. */
    method PortOf(pod: Pod, ghost ports: Ports) returns (ofport: Option<int>)
      requires ports == ResolvedPorts(portCache.store, db)
      modifies portCache
      ensures ofport == if PodKey(pod) in ports then Some(ports[PodKey(pod)]) else None
      ensures ports == ResolvedPorts(portCache.store, db)
      ensures portCache.store == Fill(old(portCache.store), db, PodKey(pod))
    {
      FillIsTransparent(portCache.store, db, PodKey(pod));
      ResolvedPortsAt(portCache.store, db, PodKey(pod));
      var podPortInfo := portCache.GetPortInfo(pod, db);
      ofport := if podPortInfo.Some? then Some(podPortInfo.value.ofport) else None;
    }

    method AddPodFlows(podIP: string, ofport: int)
      requires Valid()
      modifies flows, this`emitted
      ensures Valid()
      ensures emitted == old(emitted) + [Plain(DeliveryFlow(podIP, ofport)), Arp(AddressResponder(podIP, POD_MAC))]
    {
      ghost var e0 := emitted;
      AddDelivery(podIP, ofport);
      AddResponder(AddressResponder(podIP, POD_MAC));
      Append2(e0, Plain(DeliveryFlow(podIP, ofport)), Arp(AddressResponder(podIP, POD_MAC)));
    }

    method FlowsForPod(pod: Pod, ghost ports: Ports)
      requires Valid() && ports == ResolvedPorts(portCache.store, db)
      modifies flows, this`emitted, portCache
      ensures Valid() && ports == ResolvedPorts(portCache.store, db)
      ensures emitted == old(emitted) + Compiler.FlowsForPod(cfg, ports, pod)
      ensures portCache.store == if pod.ip != "" && IsLocal(cfg, pod.ip) then Fill(old(portCache.store), db, PodKey(pod))
                                 else old(portCache.store)
    {
      var podIP := pod.ip;
      var local := IsLocalIP(podIP);
      if podIP == "" || local.None? || !local.value {
        assert Compiler.FlowsForPod(cfg, ports, pod) == [];
        return;
      }
      var ofport := PortOf(pod, ports);
      if ofport.None? {
        assert Compiler.FlowsForPod(cfg, ports, pod) == [];
        return;
      }
      AddPodFlows(podIP, ofport.value);
    }

    // ----- Flows per network policy

    method NewPolicyFlow(priority: int, protocol: string, dst: string, src: string) returns (flow: Flow)
      ensures fresh(flow) && flow.raw == ""
      ensures flow.Spec() == PolicyFlow(priority, protocol).(ipDest := dst, ipSrc := src)
    {
      flow := NewIPFlow(TABLE_NETWORK_POLICIES, priority, protocol, dst);
      flow := flow.WithIPSrc(src);
    }

    /** The two directions swap the roles of source and destination. */
    method Ends(dir: Direction, local: string, peer: string) returns (dst: string, src: string)
      ensures forall f :: Between(dir, f, local, peer) == f.(ipDest := dst, ipSrc := src)
    {
      if dir.Ingress? {
        dst, src := local, peer;
      } else {
        dst, src := peer, local;
      }
    }

    method AddDrop(dir: Direction, priority: int, local: string, peer: string)
      requires Valid()
      modifies flows, this`emitted
      ensures Valid()
      ensures emitted == old(emitted) + [Plain(Between(dir, PolicyFlow(priority, "ip").(drop := true), local, peer))]
    {
      var dst, src := Ends(dir, local, peer);
      var flow := NewPolicyFlow(priority, "ip", dst, src);
      flow := flow.WithActionDrop();
      AddFlow(flow, Between(dir, PolicyFlow(priority, "ip").(drop := true), local, peer));
    }

    method AddAllowIP(dir: Direction, local: string, peer: string)
      requires Valid()
      modifies flows, this`emitted
      ensures Valid() && emitted == old(emitted) + [AllowIP(dir, local, peer)]
    {
      var dst, src := Ends(dir, local, peer);
      var flow := NewPolicyFlow(1000, "ip", dst, src);
      flow := flow.WithActionResubmit(TABLE_CLASSIFICATION);
      AddFlow(flow, Between(dir, PolicyFlow(1000, "ip").(resubmit := TABLE_CLASSIFICATION), local, peer));
    }

    method AddAllowPort(dir: Direction, local: string, peer: string, port: PolicyPort)
      requires Valid()
      modifies flows, this`emitted
      ensures Valid() && emitted == old(emitted) + AllowPort(dir, local, peer, port)
    {
      var portNum := port.port.IntValue();
      var protocol := ToLower(port.protocol);
      var dst, src := Ends(dir, local, peer);
      ghost var allow := PolicyFlow(1000, protocol).(resubmit := TABLE_CLASSIFICATION);
      if protocol == "tcp" {
        var flow := NewPolicyFlow(1000, "tcp", dst, src);
        flow := flow.WithTCPDestPort(portNum);
        flow := flow.WithActionResubmit(TABLE_CLASSIFICATION);
        AddFlow(flow, Between(dir, allow.(tcpDestPort := portNum), local, peer));
      } else if protocol == "udp" {
        var flow := NewPolicyFlow(1000, "udp", dst, src);
        flow := flow.WithUDPDestPort(portNum);
        flow := flow.WithActionResubmit(TABLE_CLASSIFICATION);
        AddFlow(flow, Between(dir, allow.(udpDestPort := portNum), local, peer));
      }
    }

    /** The innermost loop: one flow per port, or one for all traffic. */
    method AddAllowPair(dir: Direction, ports: seq<PolicyPort>, local: string, peer: string)
      requires Valid()
      modifies flows, this`emitted
      ensures Valid() && emitted == old(emitted) + AllowPair(dir, ports, local, peer)
    {
      if ports == [] {
        AddAllowIP(dir, local, peer);
        return;
      }
      ghost var e0, f := emitted, AllowPortOf(dir, local, peer);
      for i := 0 to |ports|
        invariant Valid() && emitted == e0 + FlatMap(f, ports[..i])
      {
        AddAllowPort(dir, local, peer, ports[i]);
        AppendStep(e0, f, ports, i);
      }
      FlatMapAll(f, ports);
    }

    method AddAllowLocals(dir: Direction, ports: seq<PolicyPort>, locals: seq<string>, peer: string)
      requires Valid()
      modifies flows, this`emitted
      ensures Valid() && emitted == old(emitted) + FlatMap(AllowLocal(dir, ports, peer), locals)
    {
      ghost var e0, f := emitted, AllowLocal(dir, ports, peer);
      for i := 0 to |locals|
        invariant Valid() && emitted == e0 + FlatMap(f, locals[..i])
      {
        AddAllowPair(dir, ports, locals[i], peer);
        AppendStep(e0, f, locals, i);
      }
      FlatMapAll(f, locals);
    }

    method AddDefaultDrops(dir: Direction, locals: seq<string>)
      requires Valid()
      modifies flows, this`emitted
      ensures Valid() && emitted == old(emitted) + FlatMap(DefaultDrops(dir), locals)
    {
      ghost var e0, f := emitted, DefaultDrops(dir);
      for i := 0 to |locals|
        invariant Valid() && emitted == e0 + FlatMap(f, locals[..i])
      {
        AddDrop(dir, 100, locals[i], "");
        AppendStep(e0, f, locals, i);
      }
      FlatMapAll(f, locals);
    }

    method AddExcept(dir: Direction, locals: seq<string>, cidr: string)
      requires Valid()
      modifies flows, this`emitted
      ensures Valid() && emitted == old(emitted) + FlatMap(DropBlock(dir, cidr), locals)
    {
      ghost var e0, f := emitted, DropBlock(dir, cidr);
      for i := 0 to |locals|
        invariant Valid() && emitted == e0 + FlatMap(f, locals[..i])
      {
        AddDrop(dir, 1100, locals[i], cidr);
        AppendStep(e0, f, locals, i);
      }
      FlatMapAll(f, locals);
    }

    method AddAllowBlock(dir: Direction, locals: seq<string>, cidr: string)
      requires Valid()
      modifies flows, this`emitted
      ensures Valid() && emitted == old(emitted) + FlatMap(AllowBlock(dir, cidr), locals)
    {
      ghost var e0, f := emitted, AllowBlock(dir, cidr);
      for i := 0 to |locals|
        invariant Valid() && emitted == e0 + FlatMap(f, locals[..i])
      {
        AddAllowIP(dir, locals[i], cidr);
        AppendStep(e0, f, locals, i);
      }
      FlatMapAll(f, locals);
    }

    method AddExcepts(dir: Direction, locals: seq<string>, except: seq<string>)
      requires Valid()
      modifies flows, this`emitted
      ensures Valid() && emitted == old(emitted) + FlatMap(DropExcept(dir, locals), except)
    {
      ghost var e0, f := emitted, DropExcept(dir, locals);
      for i := 0 to |except|
        invariant Valid() && emitted == e0 + FlatMap(f, except[..i])
      {
        AddExcept(dir, locals, except[i]);
        AppendStep(e0, f, except, i);
      }
      FlatMapAll(f, except);
    }

    method AddBlock(dir: Direction, locals: seq<string>, block: IPBlock)
      requires Valid()
      modifies flows, this`emitted
      ensures Valid() && emitted == old(emitted) + FlowsForBlock(dir, locals, block)
    {
      AppendBoth(emitted, FlatMap(AllowBlock(dir, block.cidr), locals), FlatMap(DropExcept(dir, locals), block.except));
      AddAllowBlock(dir, locals, block.cidr);
      AddExcepts(dir, locals, block.except);
    }

    method GetPodIPs(pods: seq<Pod>) returns (podIPs: seq<string>)
      ensures podIPs == IPsOf(pods)
    {
      podIPs := [];
      for i := 0 to |pods|
        invariant podIPs == IPsOf(pods[..i])
      {
        assert pods[..i + 1][..i] == pods[..i];
        if pods[i].ip == "" {
          continue;
        }
        podIPs := podIPs + [pods[i].ip];
      }
      assert pods[..|pods|] == pods;
    }

    method AddAllowPeers(dir: Direction, ports: seq<PolicyPort>, local: string, peers: seq<string>)
      requires Valid()
      modifies flows, this`emitted
      ensures Valid() && emitted == old(emitted) + FlatMap(AllowPeer(dir, ports, local), peers)
    {
      ghost var e0, f := emitted, AllowPeer(dir, ports, local);
      for i := 0 to |peers|
        invariant Valid() && emitted == e0 + FlatMap(f, peers[..i])
      {
        AddAllowPair(dir, ports, local, peers[i]);
        AppendStep(e0, f, peers, i);
      }
      FlatMapAll(f, peers);
    }

    method AddPeerPods(dir: Direction, locals: seq<string>, ports: seq<PolicyPort>, peers: seq<string>)
      requires Valid()
      modifies flows, this`emitted
      ensures Valid() && emitted == old(emitted) + FlatMap(AllowPeers(dir, ports, peers), locals)
    {
      ghost var e0, f := emitted, AllowPeers(dir, ports, peers);
      for i := 0 to |locals|
        invariant Valid() && emitted == e0 + FlatMap(f, locals[..i])
      {
        AddAllowPeers(dir, ports, locals[i], peers);
        AppendStep(e0, f, locals, i);
      }
      FlatMapAll(f, locals);
    }

    method AddNamespace(dir: Direction, locals: seq<string>, ports: seq<PolicyPort>, selector: Labels,
                        namespaces: seq<string>, i: nat, ghost before: seq<Entry>)
      requires Valid() && i < |namespaces|
      requires emitted == before + FlatMap(AllowNamespace(dir, snapshot, locals, ports, selector), namespaces[..i])
      modifies flows, this`emitted
      ensures Valid()
      ensures emitted == before + FlatMap(AllowNamespace(dir, snapshot, locals, ports, selector), namespaces[..i + 1])
    {
      AppendStep(before, AllowNamespace(dir, snapshot, locals, ports, selector), namespaces, i);
      var peers := GetPodIPs(PodsIn(snapshot.pods, namespaces[i], selector));
      AddPeerPods(dir, locals, ports, peers);
    }

    /** The policy's own namespace, unless a selector matches some. */
    method NamespacesOf(policy: Policy, peer: Peer) returns (namespaces: seq<string>)
      ensures namespaces == PeerNamespaces(snapshot, policy, peer)
    {
      namespaces := [policy.namespace];
      if peer.namespaceSelector.Some? {
        var nsList := NamespacesFor(snapshot.namespaces, peer.namespaceSelector.value);
        if |nsList| > 0 {
          namespaces := [];
          for i := 0 to |nsList|
            invariant |namespaces| == i
            invariant forall k :: 0 <= k < i ==> namespaces[k] == nsList[k].name
          {
            namespaces := namespaces + [nsList[i].name];
          }
        }
      }
    }

    method AddNamespaces(dir: Direction, locals: seq<string>, ports: seq<PolicyPort>, selector: Labels,
                         namespaces: seq<string>)
      requires Valid()
      modifies flows, this`emitted
      ensures Valid()
      ensures emitted == old(emitted) + FlatMap(AllowNamespace(dir, snapshot, locals, ports, selector), namespaces)
    {
      ghost var e0, f := emitted, AllowNamespace(dir, snapshot, locals, ports, selector);
      for i := 0 to |namespaces|
        invariant Valid() && emitted == e0 + FlatMap(f, namespaces[..i])
      {
        AddNamespace(dir, locals, ports, selector, namespaces, i, e0);
      }
      FlatMapAll(f, namespaces);
    }

    method AddPeer(dir: Direction, policy: Policy, locals: seq<string>, ports: seq<PolicyPort>, peer: Peer)
      requires Valid()
      modifies flows, this`emitted
      ensures Valid()
      ensures emitted == old(emitted) + FlowsForPeer(dir, snapshot, policy, locals, ports, peer)
    {
      if peer.ipBlock.Some? {
        AddBlock(dir, locals, peer.ipBlock.value);
        return;
      }
      if peer.podSelector.None? {
        return;
      }
      var namespaces := NamespacesOf(policy, peer);
      AddNamespaces(dir, locals, ports, peer.podSelector.value, namespaces);
    }

    method AddPeers(dir: Direction, policy: Policy, locals: seq<string>, ports: seq<PolicyPort>, peers: seq<Peer>)
      requires Valid()
      modifies flows, this`emitted
      ensures Valid()
      ensures emitted == old(emitted) + FlatMap(FlowsForPeerOf(dir, snapshot, policy, locals, ports), peers)
    {
      ghost var e0, f := emitted, FlowsForPeerOf(dir, snapshot, policy, locals, ports);
      for i := 0 to |peers|
        invariant Valid() && emitted == e0 + FlatMap(f, peers[..i])
      {
        PeerStep(e0, dir, snapshot, policy, locals, ports, peers, i);
        AddPeer(dir, policy, locals, ports, peers[i]);
      }
      FlatMapAll(f, peers);
    }

    method AddRule(dir: Direction, policy: Policy, locals: seq<string>, rule: Rule)
      requires Valid()
      modifies flows, this`emitted
      ensures Valid() && emitted == old(emitted) + FlowsForRule(dir, snapshot, policy, locals, rule)
    {
      if |rule.peers| == 0 {
        AddAllowLocals(dir, rule.ports, locals, "");
      } else {
        AddPeers(dir, policy, locals, rule.ports, rule.peers);
      }
    }

    method AddRules(dir: Direction, policy: Policy, locals: seq<string>, rules: seq<Rule>)
      requires Valid()
      modifies flows, this`emitted
      ensures Valid() && emitted == old(emitted) + FlatMap(FlowsForRuleOf(dir, snapshot, policy, locals), rules)
    {
      ghost var e0, f := emitted, FlowsForRuleOf(dir, snapshot, policy, locals);
      for i := 0 to |rules|
        invariant Valid() && emitted == e0 + FlatMap(f, rules[..i])
      {
        RuleStep(e0, dir, snapshot, policy, locals, rules, i);
        AddRule(dir, policy, locals, rules[i]);
      }
      FlatMapAll(f, rules);
    }

    /** `flowsForIngressNetworkPolicy` and `flowsForEgressNetworkPolicy`, which are mirror images. */
    method FlowsForDirection(dir: Direction, policy: Policy, locals: seq<string>)
      requires Valid()
      modifies flows, this`emitted
      ensures Valid() && emitted == old(emitted) + Compiler.FlowsForDirection(dir, snapshot, policy, locals)
    {
      ghost var e0, drops := emitted, FlatMap(DefaultDrops(dir), locals);
      ghost var rest := FlatMap(FlowsForRuleOf(dir, snapshot, policy, locals), Rules(dir, policy));
      AddDefaultDrops(dir, locals);
      AddRules(dir, policy, locals, Rules(dir, policy));
      assert emitted == e0 + drops + rest;
      DropsThenRules(e0, dir, snapshot, policy, locals);
    }

    method LocalPodIPs(policy: Policy) returns (localPodIPs: seq<string>)
      ensures localPodIPs == SelectedIPs(cfg, snapshot, policy)
    {
      var pods := PodsIn(snapshot.pods, policy.namespace, policy.podSelector);
      localPodIPs := [];
      for i := 0 to |pods|
        invariant localPodIPs == LocalIPs(cfg, pods[..i])
      {
        assert pods[..i + 1][..i] == pods[..i];
        var podIP := pods[i].ip;
        if podIP == "" {
          continue;
        }
        var local := IsLocalIP(podIP);
        if local.None? || !local.value {
          continue;
        }
        localPodIPs := localPodIPs + [podIP];
      }
      assert pods[..|pods|] == pods;
    }

    method FlowsForNetworkPolicy(policy: Policy)
      requires Valid()
      modifies flows, this`emitted
      ensures Valid() && emitted == old(emitted) + FlowsForPolicy(cfg, snapshot, policy)
    {
      var localPodIPs := LocalPodIPs(policy);
      IngressThenEgress(emitted, cfg, snapshot, policy);
      FlowsForDirection(Ingress, policy, localPodIPs);
      FlowsForDirection(Egress, policy, localPodIPs);
    }

    // ----- Synchronisation

    method AddVSwitch(vswitches: seq<VSwitch>, i: nat, ghost f: VSwitch -> seq<Entry>, ghost before: seq<Entry>)
      requires Valid() && i < |vswitches| && f == FlowsForVSwitchOf(cfg)
      requires emitted == before + FlatMap(f, vswitches[..i])
      modifies flows, this`emitted
      ensures Valid() && emitted == before + FlatMap(f, vswitches[..i + 1])
    {
      VSwitchStep(before, cfg, vswitches, i);
      FlowsForVSwitch(vswitches[i]);
    }

    method AddVSwitchList(vswitches: seq<VSwitch>, ghost f: VSwitch -> seq<Entry>)
      requires Valid() && f == FlowsForVSwitchOf(cfg)
      modifies flows, this`emitted
      ensures Valid() && emitted == old(emitted) + FlatMap(f, vswitches)
    {
      ghost var e0 := emitted;
      for i := 0 to |vswitches|
        invariant Valid() && emitted == e0 + FlatMap(f, vswitches[..i])
      {
        AddVSwitch(vswitches, i, f, e0);
      }
      FlatMapAll(f, vswitches);
    }

    method AddVSwitches()
      requires Valid()
      modifies flows, this`emitted
      ensures Valid() && emitted == old(emitted) + FlatMap(FlowsForVSwitchOf(cfg), snapshot.vswitches)
    {
      AddVSwitchList(snapshot.vswitches, FlowsForVSwitchOf(cfg));
    }

    method AddPods(ghost ports: Ports)
      requires Valid() && ports == ResolvedPorts(portCache.store, db)
      modifies flows, this`emitted, portCache
      ensures Valid() && ports == ResolvedPorts(portCache.store, db)
      ensures emitted == old(emitted) + FlatMap(FlowsForPodOf(cfg, ports), snapshot.pods)
      ensures portCache.store == FilledBy(cfg, old(portCache.store), db, snapshot.pods)
    {
      ghost var e0, f := emitted, FlowsForPodOf(cfg, ports);
      for i := 0 to |snapshot.pods|
        invariant Valid() && ports == ResolvedPorts(portCache.store, db)
        invariant emitted == e0 + FlatMap(f, snapshot.pods[..i])
        invariant portCache.store == FilledBy(cfg, old(portCache.store), db, snapshot.pods[..i])
      {
        FilledByStep(cfg, old(portCache.store), db, snapshot.pods, i);
        FlowsForPod(snapshot.pods[i], ports);
        AppendStep(e0, f, snapshot.pods, i);
      }
      FlatMapAll(f, snapshot.pods);
      assert snapshot.pods[..|snapshot.pods|] == snapshot.pods;
    }

    method AddPolicy(policies: seq<Policy>, i: nat, ghost f: Policy -> seq<Entry>, ghost before: seq<Entry>)
      requires Valid() && i < |policies| && f == FlowsForPolicyOf(cfg, snapshot)
      requires emitted == before + FlatMap(f, policies[..i])
      modifies flows, this`emitted
      ensures Valid() && emitted == before + FlatMap(f, policies[..i + 1])
    {
      PolicyStep(before, cfg, snapshot, policies, i);
      FlowsForNetworkPolicy(policies[i]);
    }

    method AddPolicyList(policies: seq<Policy>, ghost f: Policy -> seq<Entry>)
      requires Valid() && f == FlowsForPolicyOf(cfg, snapshot)
      modifies flows, this`emitted
      ensures Valid() && emitted == old(emitted) + FlatMap(f, policies)
    {
      ghost var e0 := emitted;
      for i := 0 to |policies|
        invariant Valid() && emitted == e0 + FlatMap(f, policies[..i])
      {
        AddPolicy(policies, i, f, e0);
      }
      FlatMapAll(f, policies);
    }

    method AddPolicies()
      requires Valid()
      modifies flows, this`emitted
      ensures Valid() && emitted == old(emitted) + FlatMap(FlowsForPolicyOf(cfg, snapshot), snapshot.policies)
    {
      AddPolicyList(snapshot.policies, FlowsForPolicyOf(cfg, snapshot));
    }

    method ResetFlows()
      modifies flows, this`emitted
      ensures Valid() && emitted == []
    {
      flows.Reset();
      emitted := [];
    }

    /** The abstract `ovs-ofctl replace-flows`: the switch takes the whole buffer or keeps what it has. */
    method ReplaceFlows(accepted: bool) returns (ok: bool)
      requires Valid()
      modifies this`installed
      ensures ok == accepted
      ensures installed == if ok then Unlines(Lines(emitted)) else old(installed)
    {
      ok := accepted;
      if ok {
        WrittenLines(flows.lines, emitted);
        installed := flows.buffer;
      }
    }

    /** The flows of the listed objects, in the order in which they are listed. */
    method EmitObjects(ghost ports: Ports)
      requires Valid() && ports == ResolvedPorts(portCache.store, db)
      modifies flows, this`emitted, portCache
      ensures Valid() && portCache.store == FilledBy(cfg, old(portCache.store), db, snapshot.pods)
      ensures emitted == old(emitted) + FlatMap(FlowsForVSwitchOf(cfg), snapshot.vswitches)
                         + FlatMap(FlowsForPodOf(cfg, ports), snapshot.pods)
                         + FlatMap(FlowsForPolicyOf(cfg, snapshot), snapshot.policies)
    {
      AddVSwitches();
      AddPods(ports);
      AddPolicies();
    }

    method EmitAll(ghost ports: Ports)
      requires Valid() && ports == ResolvedPorts(portCache.store, db) && emitted == []
      modifies flows, this`emitted, portCache
      ensures Valid() && emitted == Compile(cfg, snapshot, ports)
      ensures portCache.store == FilledBy(cfg, old(portCache.store), db, snapshot.pods)
    {
      DefaultFlows();
      assert emitted == Compiler.DefaultFlows(cfg);
      EmitObjects(ports);
    }

    /** One synchronisation. Whatever the buffer held before, a successful replacement
        installs exactly the compiled flows of the snapshot; a failed one changes nothing. */
    method SyncFlows(accepted: bool) returns (ok: bool, ghost ports: Ports)
      requires flows.Valid()
      modifies flows, this`emitted, this`installed, portCache
      ensures Valid() && ok == accepted
      ensures ports == ResolvedPorts(old(portCache.store), db)
      ensures emitted == Compile(cfg, snapshot, ports)
      ensures installed == if ok then Unlines(Lines(emitted)) else old(installed)
      ensures portCache.store == FilledBy(cfg, old(portCache.store), db, snapshot.pods)
    {
      ports := ResolvedPorts(portCache.store, db);
      ResetFlows();
      EmitAll(ports);
      ok := ReplaceFlows(accepted);
    }

    // ----- Watch events

    /** The controller's state as the model of runs sees it. */
    ghost function View(): State
      reads this, portCache
    {
      State(installed, portCache.store, snapshot, db)
    }

    method Synchronise(accepted: bool)
      requires flows.Valid()
      modifies flows, this`emitted, this`installed, portCache
      ensures flows.Valid()
      ensures View() == Synced(cfg, old(View()), accepted)
    {
      ghost var ports;
      var ok;
      ok, ports := SyncFlows(accepted);
    }

    method NeedsUpdate(pod: Pod) returns (needsUpdate: bool)
      ensures needsUpdate == PodNeedsUpdate(cfg, pod)
    {
      if pod.ip == "" {
        return false;
      }
      var local := IsLocalIP(pod.ip);
      return local.Some? && local.value;
    }

    /** `OnAddPod` and `OnUpdatePod`. */
    method OnPod(pod: Pod, accepted: bool)
      requires flows.Valid()
      modifies flows, this`emitted, this`installed, portCache
      ensures flows.Valid()
      ensures View() == if PodNeedsUpdate(cfg, pod) then Synced(cfg, old(View()), accepted) else old(View())
    {
      var needsUpdate := NeedsUpdate(pod);
      if needsUpdate {
        Synchronise(accepted);
      }
    }

    /** `obj` is `None` when it is no pod, such as the tombstone of a delete that was
        missed: then nothing is evicted. */
    method OnDeletePod(obj: Option<Pod>)
      requires flows.Valid()
      modifies portCache
      ensures View() == if obj.None? then old(View())
                        else old(View()).(store := old(portCache.store) - {PodKey(obj.value)})
    {
      if obj.None? {
        return;
      }
      portCache.DelPortInfo(obj.value);
    }

    /** The handlers of pod events. */
    method OnPodEvent(event: Event, accepted: bool)
      requires flows.Valid() && (event.AddPod? || event.UpdatePod? || event.DeletePod? || event.LostPod?)
      modifies flows, this`emitted, this`installed, portCache
      ensures flows.Valid()
      ensures View() == if event.DeletePod? then old(View()).(store := old(portCache.store) - {PodKey(event.pod)})
                        else if Syncs(cfg, event) then Synced(cfg, old(View()), accepted)
                        else old(View())
    {
      match event
      case AddPod(pod) => OnPod(pod, accepted);
      case UpdatePod(pod) => OnPod(pod, accepted);
      case DeletePod(pod) => OnDeletePod(Some(pod));
      case LostPod => OnDeletePod(None);
    }

    /** The handlers of all other events, and the periodic resync. */
    method OnOtherEvent(event: Event, accepted: bool)
      requires flows.Valid() && !event.AddPod? && !event.UpdatePod? && !event.DeletePod? && !event.LostPod?
      modifies flows, this`emitted, this`installed, portCache
      ensures flows.Valid()
      ensures View() == if Syncs(cfg, event) then Synced(cfg, old(View()), accepted) else old(View())
    {
      match event
      case AddVSwitch => Synchronise(accepted);
      case UpdateVSwitch => Synchronise(accepted);
      case DeleteVSwitch =>
      case AddPolicy => Synchronise(accepted);
      case UpdatePolicy => Synchronise(accepted);
      case DeletePolicy => Synchronise(accepted);
      case NamespaceChange =>
      case Resync => Synchronise(accepted);
    }

    /** Delivers one event: the listers and the database have moved on, and the
        handler registered for the event runs. */
    method Deliver(step: Step)
      requires flows.Valid()
      modifies flows, this, portCache
      ensures flows.Valid()
      ensures View() == Handle(cfg, old(View()), step)
    {
      snapshot, db := step.now, step.db;
      if step.event.AddPod? || step.event.UpdatePod? || step.event.DeletePod? || step.event.LostPod? {
        OnPodEvent(step.event, step.accepted);
      } else {
        OnOtherEvent(step.event, step.accepted);
      }
    }
  }
}
