/** Where each compiled entry comes from, and the shape every one of them has. */
module Layout {
  import opened Collections
  import opened Flows
  import opened Switch
  import opened Cluster
  import opened Compiler

  lemma Members(cfg: Config, snap: Snapshot, ports: Ports, e: Entry)
    ensures e in Compile(cfg, snap, ports)
            <==> (|| e in DefaultFlows(cfg)
                  || (exists v :: v in snap.vswitches && e in FlowsForVSwitch(cfg, v))
                  || (exists pod :: pod in snap.pods && e in FlowsForPod(cfg, ports, pod))
                  || (exists policy :: policy in snap.policies && e in FlowsForPolicy(cfg, snap, policy)))
  {
    FlatMapMembers(FlowsForVSwitchOf(cfg), snap.vswitches, e);
    FlatMapMembers(FlowsForPodOf(cfg, ports), snap.pods, e);
    FlatMapMembers(FlowsForPolicyOf(cfg, snap), snap.policies, e);
  }

  /** The three strata of the policy table: each priority carries a single action. */
  predicate InStratum(e: Entry) {
    && e.Plain?
    && e.flow.table == TABLE_NETWORK_POLICIES && e.flow.output == 0 && !e.flow.local
    && e.flow.modDlDest == e.flow.tunDest == "" && e.flow.arpDest == e.flow.arpSrc == ""
    && (e.flow.protocol == "ip" || e.flow.protocol == "tcp" || e.flow.protocol == "udp")
    && (|| (e.flow.priority == 100 && e.flow.drop && e.flow.resubmit == 0)
        || (e.flow.priority == 1000 && !e.flow.drop && e.flow.resubmit == TABLE_CLASSIFICATION)
        || (e.flow.priority == 1100 && e.flow.drop && e.flow.resubmit == 0))
  }

  ghost predicate AllInStrata(es: seq<Entry>) {
    forall e :: e in es ==> InStratum(e)
  }

  lemma StrataOfFlatMap<A(!new)>(f: A -> seq<Entry>, s: seq<A>)
    requires forall a :: AllInStrata(f(a))
    ensures AllInStrata(FlatMap(f, s))
  {
    forall e | e in FlatMap(f, s) ensures InStratum(e) {
      FlatMapMembers(f, s, e);
    }
  }

  lemma PairInStrata(dir: Direction, ports: seq<PolicyPort>, local: string, peer: string)
    ensures AllInStrata(AllowPair(dir, ports, local, peer))
  {
    if ports != [] {
      forall port ensures AllInStrata(AllowPortOf(dir, local, peer)(port)) {
      }
      StrataOfFlatMap(AllowPortOf(dir, local, peer), ports);
    }
  }

  lemma BlockInStrata(dir: Direction, locals: seq<string>, block: IPBlock)
    ensures AllInStrata(FlowsForBlock(dir, locals, block))
  {
    StrataOfFlatMap(AllowBlock(dir, block.cidr), locals);
    forall cidr ensures AllInStrata(DropExcept(dir, locals)(cidr)) {
      StrataOfFlatMap(DropBlock(dir, cidr), locals);
    }
    StrataOfFlatMap(DropExcept(dir, locals), block.except);
  }

  lemma NamespaceInStrata(dir: Direction, snap: Snapshot, locals: seq<string>, ports: seq<PolicyPort>,
                          selector: Labels, namespace: string)
    ensures AllInStrata(AllowNamespace(dir, snap, locals, ports, selector)(namespace))
  {
    var peers := IPsOf(PodsIn(snap.pods, namespace, selector));
    forall local ensures AllInStrata(AllowPeers(dir, ports, peers)(local)) {
      forall peer ensures AllInStrata(AllowPeer(dir, ports, local)(peer)) {
        PairInStrata(dir, ports, local, peer);
      }
      StrataOfFlatMap(AllowPeer(dir, ports, local), peers);
    }
    StrataOfFlatMap(AllowPeers(dir, ports, peers), locals);
  }

  lemma PeerInStrata(dir: Direction, snap: Snapshot, policy: Policy, locals: seq<string>,
                     ports: seq<PolicyPort>, peer: Peer)
    ensures AllInStrata(FlowsForPeer(dir, snap, policy, locals, ports, peer))
  {
    if peer.ipBlock.Some? {
      BlockInStrata(dir, locals, peer.ipBlock.value);
    } else if peer.podSelector.Some? {
      var f := AllowNamespace(dir, snap, locals, ports, peer.podSelector.value);
      forall namespace ensures AllInStrata(f(namespace)) {
        NamespaceInStrata(dir, snap, locals, ports, peer.podSelector.value, namespace);
      }
      StrataOfFlatMap(f, PeerNamespaces(snap, policy, peer));
    }
  }

  lemma RuleInStrata(dir: Direction, snap: Snapshot, policy: Policy, locals: seq<string>, rule: Rule)
    ensures AllInStrata(FlowsForRule(dir, snap, policy, locals, rule))
  {
    if rule.peers == [] {
      forall local ensures AllInStrata(AllowLocal(dir, rule.ports, "")(local)) {
        PairInStrata(dir, rule.ports, local, "");
      }
      StrataOfFlatMap(AllowLocal(dir, rule.ports, ""), locals);
    } else {
      var f := FlowsForPeerOf(dir, snap, policy, locals, rule.ports);
      forall peer ensures AllInStrata(f(peer)) {
        PeerInStrata(dir, snap, policy, locals, rule.ports, peer);
      }
      StrataOfFlatMap(f, rule.peers);
    }
  }

  lemma DirectionInStrata(dir: Direction, snap: Snapshot, policy: Policy, locals: seq<string>)
    ensures AllInStrata(FlowsForDirection(dir, snap, policy, locals))
  {
    StrataOfFlatMap(DefaultDrops(dir), locals);
    var f := FlowsForRuleOf(dir, snap, policy, locals);
    forall rule ensures AllInStrata(f(rule)) {
      RuleInStrata(dir, snap, policy, locals, rule);
    }
    StrataOfFlatMap(f, Rules(dir, policy));
  }

  /** Policies write to their own table only, one action per priority. */
  lemma PolicyInStrata(cfg: Config, snap: Snapshot, policy: Policy)
    ensures AllInStrata(FlowsForPolicy(cfg, snap, policy))
  {
    var locals := SelectedIPs(cfg, snap, policy);
    DirectionInStrata(Ingress, snap, policy, locals);
    DirectionInStrata(Egress, snap, policy, locals);
  }

  /** A well-behaved entry of a table other than the policy table. */
  predicate Regular(e: Entry) {
    && e.Table() in {0, 20, 30, 60, 100}
    && (e.Plain? ==>
          && SingleAction(e.flow)
          && e.flow.table != 100
          && (e.flow.resubmit != 0 ==>
                && e.flow.table < e.flow.resubmit && e.flow.resubmit in {10, 30, 60, 100}
                && (e.flow.resubmit == 100 ==> e.flow.table == 20)
                && e.flow.modDlDest == e.flow.tunDest == ""))
  }

  lemma DefaultIsRegular(cfg: Config, e: Entry)
    requires e in DefaultFlows(cfg)
    ensures e == Plain(POLICY_DEFAULT) || Regular(e)
    ensures e.Table() == TABLE_ENTRY ==> e == Plain(ENTRY_FLOW)
    ensures e.Table() != TABLE_L3_FORWARDING && e.Table() != TABLE_L2_REWRITES
  {
  }

  lemma VSwitchIsRegular(cfg: Config, v: VSwitch, e: Entry)
    requires e in FlowsForVSwitch(cfg, v)
    ensures Regular(e) && e.Plain? && e.Table() in {20, 30}
  {
  }

  lemma PodIsRegular(cfg: Config, ports: Ports, pod: Pod, e: Entry)
    requires e in FlowsForPod(cfg, ports, pod)
    ensures Regular(e) && (if e.Plain? then e.Table() == 60 else e.Table() == 100)
  {
  }

  /** The entries of the policy table are the default and those of the policies. */
  lemma PolicyTable(cfg: Config, snap: Snapshot, ports: Ports, e: Entry)
    requires e in Compile(cfg, snap, ports) && e.Table() == TABLE_NETWORK_POLICIES
    ensures e == Plain(POLICY_DEFAULT)
            || exists policy :: policy in snap.policies && e in FlowsForPolicy(cfg, snap, policy)
  {
    Members(cfg, snap, ports, e);
    if e in DefaultFlows(cfg) {
      DefaultIsRegular(cfg, e);
    } else if v :| v in snap.vswitches && e in FlowsForVSwitch(cfg, v) {
      VSwitchIsRegular(cfg, v, e);
    } else if pod :| pod in snap.pods && e in FlowsForPod(cfg, ports, pod) {
      PodIsRegular(cfg, ports, pod, e);
    }
  }

  /** The entries of every other table come from the defaults, the vswitches and the pods. */
  lemma OtherTables(cfg: Config, snap: Snapshot, ports: Ports, e: Entry)
    requires e in Compile(cfg, snap, ports) && e.Table() != TABLE_NETWORK_POLICIES
    ensures || e in DefaultFlows(cfg)
            || (e.Table() in {20, 30} && exists v :: v in snap.vswitches && e in FlowsForVSwitch(cfg, v))
            || (e.Table() in {60, 100} && exists pod :: pod in snap.pods && e in FlowsForPod(cfg, ports, pod))
    ensures Regular(e)
  {
    Members(cfg, snap, ports, e);
    if e in DefaultFlows(cfg) {
      DefaultIsRegular(cfg, e);
    } else if v :| v in snap.vswitches && e in FlowsForVSwitch(cfg, v) {
      VSwitchIsRegular(cfg, v, e);
    } else if pod :| pod in snap.pods && e in FlowsForPod(cfg, ports, pod) {
      PodIsRegular(cfg, ports, pod, e);
    } else if policy :| policy in snap.policies && e in FlowsForPolicy(cfg, snap, policy) {
      PolicyInStrata(cfg, snap, policy);
    }
  }

  /** Compiled flows never dispose of a packet twice, and hand it only to later
      tables and unchanged. */
  lemma Shape(cfg: Config, snap: Snapshot, ports: Ports, e: Entry)
    requires e in Compile(cfg, snap, ports) && e.Plain?
    ensures SingleAction(e.flow)
    ensures e.flow.table in {0, 10, 20, 30, 60}
    ensures e.flow.resubmit != 0 ==> e.flow.table < e.flow.resubmit && e.flow.resubmit in {10, 20, 30, 60, 100}
    ensures e.flow.resubmit == 100 ==> e.flow.table == 20
    ensures e.flow.resubmit != 0 ==> e.flow.modDlDest == e.flow.tunDest == ""
  {
    if e.Table() == TABLE_NETWORK_POLICIES {
      PolicyTable(cfg, snap, ports, e);
      if policy :| policy in snap.policies && e in FlowsForPolicy(cfg, snap, policy) {
        PolicyInStrata(cfg, snap, policy);
      }
    } else {
      OtherTables(cfg, snap, ports, e);
    }
  }

  /** A lookup that hands the packet on hands it to a later table, unchanged. */
  lemma HandsOn(cfg: Config, snap: Snapshot, ports: Ports, t: int, p: Packet, e: Entry)
    requires Selects(Compile(cfg, snap, ports), t, p, e) && Act(e, p).Goto?
    ensures Act(e, p).packet == p
    ensures t < Act(e, p).table && t in {0, 10, 20, 30, 60} && Act(e, p).table in {10, 20, 30, 60, 100}
    ensures Act(e, p).table == 100 ==> t == 20
  {
    Shape(cfg, snap, ports, e);
  }
}
