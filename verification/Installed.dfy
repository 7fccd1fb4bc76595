/** What is installed is the text of the compiled flows, and for objects whose texts are
    legible that text determines them: the theorems about compiled flows are theorems
    about the installed text. */
module Installed {
  import opened Collections
  import Text
  import opened Flows
  import opened FlowReader
  import opened ScriptReader
  import opened Execution
  import opened Switch
  import opened Cluster
  import opened Compiler
  import opened Layout
  import opened PolicyMeaning
  import opened Routing
  import opened Pipeline
  import opened ArpPipeline
  import opened PortCacheModel
  import opened SyncModel

  // ----- Legible objects

  predicate LegibleBlock(block: IPBlock) {
    Plaintext(block.cidr) && forall c :: c in block.except ==> Plaintext(c)
  }

  predicate LegiblePeer(peer: Peer) {
    peer.ipBlock.Some? ==> LegibleBlock(peer.ipBlock.value)
  }

  predicate LegibleRule(rule: Rule) {
    forall peer :: peer in rule.peers ==> LegiblePeer(peer)
  }

  predicate LegiblePolicy(policy: Policy) {
    && (forall rule :: rule in policy.ingress ==> LegibleRule(rule))
    && (forall rule :: rule in policy.egress ==> LegibleRule(rule))
  }

  predicate LegibleConfig(cfg: Config) {
    && Plaintext(cfg.gatewayIP) && Plaintext(cfg.podCIDR) && Plaintext(cfg.clusterCIDR)
    && Plaintext(cfg.bridgeMAC) && Plaintext(cfg.clusterWideMAC)
  }

  /** No address or MAC contains a blank, a comma or a newline. Names and labels may. */
  predicate Legible(cfg: Config, snap: Snapshot) {
    && LegibleConfig(cfg)
    && (forall v :: v in snap.vswitches ==> Plaintext(v.podCIDR) && Plaintext(v.overlayIP))
    && (forall pod :: pod in snap.pods ==> Plaintext(pod.ip))
    && (forall policy :: policy in snap.policies ==> LegiblePolicy(policy))
  }

  // ----- The compiled flows are legible

  ghost predicate AllLegible(es: seq<Entry>) {
    forall e :: e in es ==> LegibleEntry(e)
  }

  lemma LegibleFlatMap<A(!new)>(f: A -> seq<Entry>, s: seq<A>)
    requires forall a :: a in s ==> AllLegible(f(a))
    ensures AllLegible(FlatMap(f, s))
  {
    forall e | e in FlatMap(f, s) ensures LegibleEntry(e) {
      FlatMapMembers(f, s, e);
    }
  }

  ghost predicate AllPlain(texts: seq<string>) {
    forall t :: t in texts ==> Plaintext(t)
  }

  lemma LegiblePort(dir: Direction, local: string, peer: string, port: PolicyPort)
    requires Plaintext(local) && Plaintext(peer)
    ensures AllLegible(AllowPort(dir, local, peer, port))
  {
  }

  lemma LegiblePair(dir: Direction, ports: seq<PolicyPort>, local: string, peer: string)
    requires Plaintext(local) && Plaintext(peer)
    ensures AllLegible(AllowPair(dir, ports, local, peer))
  {
    if ports != [] {
      forall port ensures AllLegible(AllowPortOf(dir, local, peer)(port)) {
        LegiblePort(dir, local, peer, port);
      }
      LegibleFlatMap(AllowPortOf(dir, local, peer), ports);
    }
  }

  lemma LegibleBlockFlows(dir: Direction, locals: seq<string>, block: IPBlock)
    requires AllPlain(locals) && LegibleBlock(block)
    ensures AllLegible(FlowsForBlock(dir, locals, block))
  {
    LegibleFlatMap(AllowBlock(dir, block.cidr), locals);
    forall cidr | cidr in block.except ensures AllLegible(DropExcept(dir, locals)(cidr)) {
      LegibleFlatMap(DropBlock(dir, cidr), locals);
    }
    LegibleFlatMap(DropExcept(dir, locals), block.except);
  }

  lemma LegibleNamespace(dir: Direction, snap: Snapshot, locals: seq<string>, ports: seq<PolicyPort>,
                         selector: Labels, namespace: string)
    requires AllPlain(locals) && forall pod :: pod in snap.pods ==> Plaintext(pod.ip)
    ensures AllLegible(AllowNamespace(dir, snap, locals, ports, selector)(namespace))
  {
    var peers := IPsOf(PodsIn(snap.pods, namespace, selector));
    forall local | local in locals ensures AllLegible(AllowPeers(dir, ports, peers)(local)) {
      forall peer | peer in peers ensures AllLegible(AllowPeer(dir, ports, local)(peer)) {
        LegiblePair(dir, ports, local, peer);
      }
      LegibleFlatMap(AllowPeer(dir, ports, local), peers);
    }
    LegibleFlatMap(AllowPeers(dir, ports, peers), locals);
  }

  lemma LegiblePeerFlows(dir: Direction, snap: Snapshot, policy: Policy, locals: seq<string>,
                         ports: seq<PolicyPort>, peer: Peer)
    requires AllPlain(locals) && LegiblePeer(peer) && forall pod :: pod in snap.pods ==> Plaintext(pod.ip)
    ensures AllLegible(FlowsForPeer(dir, snap, policy, locals, ports, peer))
  {
    if peer.ipBlock.Some? {
      LegibleBlockFlows(dir, locals, peer.ipBlock.value);
    } else if peer.podSelector.Some? {
      var f := AllowNamespace(dir, snap, locals, ports, peer.podSelector.value);
      forall namespace ensures AllLegible(f(namespace)) {
        LegibleNamespace(dir, snap, locals, ports, peer.podSelector.value, namespace);
      }
      LegibleFlatMap(f, PeerNamespaces(snap, policy, peer));
    }
  }

  lemma LegibleRuleFlows(dir: Direction, snap: Snapshot, policy: Policy, locals: seq<string>, rule: Rule)
    requires AllPlain(locals) && LegibleRule(rule) && forall pod :: pod in snap.pods ==> Plaintext(pod.ip)
    ensures AllLegible(FlowsForRule(dir, snap, policy, locals, rule))
  {
    if rule.peers == [] {
      forall local | local in locals ensures AllLegible(AllowLocal(dir, rule.ports, "")(local)) {
        LegiblePair(dir, rule.ports, local, "");
      }
      LegibleFlatMap(AllowLocal(dir, rule.ports, ""), locals);
    } else {
      var f := FlowsForPeerOf(dir, snap, policy, locals, rule.ports);
      forall peer | peer in rule.peers ensures AllLegible(f(peer)) {
        LegiblePeerFlows(dir, snap, policy, locals, rule.ports, peer);
      }
      LegibleFlatMap(f, rule.peers);
    }
  }

  lemma LegibleDirection(dir: Direction, snap: Snapshot, policy: Policy, locals: seq<string>)
    requires AllPlain(locals) && LegiblePolicy(policy) && forall pod :: pod in snap.pods ==> Plaintext(pod.ip)
    ensures AllLegible(FlowsForDirection(dir, snap, policy, locals))
  {
    LegibleFlatMap(DefaultDrops(dir), locals);
    var f := FlowsForRuleOf(dir, snap, policy, locals);
    forall rule | rule in Rules(dir, policy) ensures AllLegible(f(rule)) {
      LegibleRuleFlows(dir, snap, policy, locals, rule);
    }
    LegibleFlatMap(f, Rules(dir, policy));
  }

  lemma LegiblePolicyFlows(cfg: Config, snap: Snapshot, policy: Policy)
    requires LegiblePolicy(policy) && forall pod :: pod in snap.pods ==> Plaintext(pod.ip)
    ensures AllLegible(FlowsForPolicy(cfg, snap, policy))
  {
    var locals := SelectedIPs(cfg, snap, policy);
    assert AllPlain(locals);
    LegibleDirection(Ingress, snap, policy, locals);
    LegibleDirection(Egress, snap, policy, locals);
  }

  lemma LegibleResponder(ip: string, mac: string)
    requires Plaintext(ip) && Plaintext(mac)
    ensures LegibleEntry(Arp(AddressResponder(ip, mac)))
  {
  }

  lemma LegibleClusterResponder(cidr: string)
    requires Plaintext(cidr)
    ensures LegibleEntry(Arp(ClusterResponder(cidr)))
  {
    LegiblePodMAC();
  }

  lemma LegiblePodMAC()
    ensures Plaintext(POD_MAC)
  {
  }

  lemma LegibleFirst(cfg: Config)
    requires LegibleConfig(cfg)
    ensures AllLegible(FirstDefaults(cfg))
  {
  }

  lemma LegibleClassifiers(cfg: Config)
    requires LegibleConfig(cfg)
    ensures AllLegible(ClassifierDefaults(cfg))
  {
  }

  lemma LegibleDefaults(cfg: Config)
    requires LegibleConfig(cfg)
    ensures AllLegible(DefaultFlows(cfg))
  {
    LegibleFirst(cfg);
    LegibleClassifiers(cfg);
    LegibleResponder(cfg.gatewayIP, cfg.bridgeMAC);
    LegibleClusterResponder(cfg.clusterCIDR);
    LegibleAppend(FirstDefaults(cfg) + ClassifierDefaults(cfg), ResponderDefaults(cfg));
    LegibleAppend(FirstDefaults(cfg), ClassifierDefaults(cfg));
  }

  lemma LegibleAppend(a: seq<Entry>, b: seq<Entry>)
    ensures AllLegible(a) && AllLegible(b) ==> AllLegible(a + b)
  {
  }

  lemma LegibleVSwitch(cfg: Config, v: VSwitch)
    requires LegibleConfig(cfg) && Plaintext(v.podCIDR) && Plaintext(v.overlayIP)
    ensures AllLegible(FlowsForVSwitch(cfg, v))
  {
  }

  lemma LegibleDelivery(ip: string, port: int)
    requires Plaintext(ip)
    ensures LegibleEntry(Plain(DeliveryFlow(ip, port)))
  {
    LegiblePodMAC();
  }

  lemma LegiblePod(cfg: Config, ports: Ports, pod: Pod)
    requires Plaintext(pod.ip)
    ensures AllLegible(FlowsForPod(cfg, ports, pod))
  {
    LegiblePodMAC();
    LegibleResponder(pod.ip, POD_MAC);
    if PodKey(pod) in ports {
      LegibleDelivery(pod.ip, ports[PodKey(pod)]);
    }
  }

  lemma CompiledIsLegible(cfg: Config, snap: Snapshot, ports: Ports)
    requires Legible(cfg, snap)
    ensures AllLegible(Compile(cfg, snap, ports))
  {
    LegibleDefaults(cfg);
    forall v | v in snap.vswitches ensures AllLegible(FlowsForVSwitchOf(cfg)(v)) {
      LegibleVSwitch(cfg, v);
    }
    LegibleFlatMap(FlowsForVSwitchOf(cfg), snap.vswitches);
    forall pod | pod in snap.pods ensures AllLegible(FlowsForPodOf(cfg, ports)(pod)) {
      LegiblePod(cfg, ports, pod);
    }
    LegibleFlatMap(FlowsForPodOf(cfg, ports), snap.pods);
    forall policy | policy in snap.policies ensures AllLegible(FlowsForPolicyOf(cfg, snap)(policy)) {
      LegiblePolicyFlows(cfg, snap, policy);
    }
    LegibleFlatMap(FlowsForPolicyOf(cfg, snap), snap.policies);
  }

  // ----- The installed text

  /** Reading a script gives back the compiled flows. */
  lemma ScriptIsCompiled(cfg: Config, snap: Snapshot, ports: Ports)
    requires Legible(cfg, snap)
    ensures ReadScript(Script(cfg, snap, ports)) == Compile(cfg, snap, ports)
  {
    CompiledIsLegible(cfg, snap, ports);
    ScriptIsReadable(Compile(cfg, snap, ports));
  }

  /** The ports that the synchronisation of step `k` resolved. */
  function PortsOf(cfg: Config, s: State, steps: seq<Step>, k: nat): Ports
    requires k < |steps|
  {
    ResolvedPorts(Run(cfg, s, steps[..k]).store, steps[k].db)
  }

  /** After any run, reading back what is installed gives the flows compiled from the
      snapshot of the last accepted synchronisation. */
  lemma InstalledIsCompiled(cfg: Config, s: State, steps: seq<Step>, k: nat)
    requires LastSync(cfg, steps) == Some(k) && Legible(cfg, steps[k].now)
    ensures ReadScript(Run(cfg, s, steps).installed) == Compile(cfg, steps[k].now, PortsOf(cfg, s, steps, k))
  {
    InstalledIsLastSync(cfg, s, steps);
    ScriptIsCompiled(cfg, steps[k].now, PortsOf(cfg, s, steps, k));
  }

  /** From watch events to packets: after any run of events, failures and resyncs, every
      run of an IPv4 packet through the installed text ends as the policies and the
      routing function say for the snapshot of the last accepted synchronisation. */
  lemma InstalledForwards(cfg: Config, s: State, steps: seq<Step>, k: nat, p: Packet, trace: seq<Entry>, o: Outcome)
    requires LastSync(cfg, steps) == Some(k) && Legible(cfg, steps[k].now) && Addressed(cfg, steps[k].now)
    requires p.payload.IPv4? && Runs(ReadScript(Run(cfg, s, steps).installed), TABLE_ENTRY, p, trace, o)
    ensures o == if Denied(cfg, steps[k].now, p.payload) then Dropped
                 else Route(cfg, steps[k].now, PortsOf(cfg, s, steps, k), p)
  {
    InstalledIsCompiled(cfg, s, steps, k);
    Forwarding(cfg, steps[k].now, PortsOf(cfg, s, steps, k), p, trace, o);
  }

  /** What is installed is what an empty cache would have given exactly when, at the last
      accepted synchronisation, every local pod that was cached still had its cached port. */
  lemma InstalledIsCurrentIff(cfg: Config, s: State, steps: seq<Step>, k: nat)
    requires LastSync(cfg, steps) == Some(k) && Legible(cfg, steps[k].now)
    ensures var store := Run(cfg, s, steps[..k]).store;
            Run(cfg, s, steps).installed == Script(cfg, steps[k].now, ResolvedPorts(map[], steps[k].db))
            <==> forall pod :: pod in steps[k].now.pods && pod.ip != "" && IsLocal(cfg, pod.ip)
                               ==> UpToDate(store, steps[k].db, PodKey(pod))
  {
    var snap, store, db := steps[k].now, Run(cfg, s, steps[..k]).store, steps[k].db;
    InstalledIsLastSync(cfg, s, steps);
    CacheIsInvisibleIff(cfg, snap, store, db);
    ScriptIsCompiled(cfg, snap, ResolvedPorts(store, db));
    ScriptIsCompiled(cfg, snap, ResolvedPorts(map[], db));
  }

  // ----- The installed text, carried out

  /** No address or MAC that an action sets contains an arrow. */
  predicate NoArrows(cfg: Config, snap: Snapshot) {
    && '>' !in cfg.gatewayIP && '>' !in cfg.bridgeMAC
    && (forall v :: v in snap.vswitches ==> '>' !in v.overlayIP)
    && (forall pod :: pod in snap.pods ==> '>' !in pod.ip)
  }

  predicate ArrowlessEntry(e: Entry) {
    match e
    case Plain(f) => '>' !in f.tunDest
    case Arp(r) => EndsInPort(r.actions)
  }

  lemma ArrowlessAddressResponder(ip: string, mac: string)
    requires '>' !in ip && '>' !in mac
    ensures EndsInPort(AddressResponder(ip, mac).actions)
  {
    assert AddressResponder(ip, mac).actions[..7]
           == [MoveEthSrcToEthDst, ModDlSrc(mac), LoadReplyOp, MoveShaToTha, MoveSpaToTpa, SetSha(mac), SetSpa(ip)];
  }

  lemma ArrowlessClusterResponder(cidr: string)
    ensures EndsInPort(ClusterResponder(cidr).actions)
  {
    assert '>' !in POD_MAC;
    assert ClusterResponder(cidr).actions[..7]
           == [MoveEthSrcToEthDst, ModDlSrc(POD_MAC), LoadReplyOp, SetSha(POD_MAC), MoveTpaToSpa, MoveShaToTha, MoveSpaToTpa];
  }

  lemma ArrowlessDefault(cfg: Config, e: Entry)
    requires '>' !in cfg.gatewayIP && '>' !in cfg.bridgeMAC && e in DefaultFlows(cfg)
    ensures ArrowlessEntry(e)
  {
    ArrowlessAddressResponder(cfg.gatewayIP, cfg.bridgeMAC);
    ArrowlessClusterResponder(cfg.clusterCIDR);
    if e in ResponderDefaults(cfg) {
    } else if e in FirstDefaults(cfg) {
    } else {
      assert e in ClassifierDefaults(cfg);
    }
  }

  lemma ArrowlessVSwitch(cfg: Config, v: VSwitch, e: Entry)
    requires '>' !in v.overlayIP && e in FlowsForVSwitch(cfg, v)
    ensures ArrowlessEntry(e)
  {
  }

  lemma ArrowlessPod(cfg: Config, ports: Ports, pod: Pod, e: Entry)
    requires '>' !in pod.ip && e in FlowsForPod(cfg, ports, pod)
    ensures ArrowlessEntry(e)
  {
    assert '>' !in POD_MAC;
    ArrowlessAddressResponder(pod.ip, POD_MAC);
  }

  lemma CompiledIsArrowless(cfg: Config, snap: Snapshot, ports: Ports, e: Entry)
    requires NoArrows(cfg, snap) && e in Compile(cfg, snap, ports)
    ensures ArrowlessEntry(e)
  {
    Members(cfg, snap, ports, e);
    if e in DefaultFlows(cfg) {
      ArrowlessDefault(cfg, e);
    } else if v :| v in snap.vswitches && e in FlowsForVSwitch(cfg, v) {
      ArrowlessVSwitch(cfg, v, e);
    } else if pod :| pod in snap.pods && e in FlowsForPod(cfg, ports, pod) {
      ArrowlessPod(cfg, ports, pod, e);
    } else if policy :| policy in snap.policies && e in FlowsForPolicy(cfg, snap, policy) {
      PolicyInStrata(cfg, snap, policy);
    }
  }

  lemma CompiledIsExecutable(cfg: Config, snap: Snapshot, ports: Ports)
    requires Legible(cfg, snap) && NoArrows(cfg, snap)
    ensures AllExecutable(Compile(cfg, snap, ports))
  {
    CompiledIsLegible(cfg, snap, ports);
    forall e | e in Compile(cfg, snap, ports) ensures Executable(e) {
      CompiledIsArrowless(cfg, snap, ports, e);
      if e.Plain? {
        Shape(cfg, snap, ports, e);
      }
    }
  }

  /** The lines of an installed text. */
  function LinesOf(text: string): seq<string> {
    var lines := Text.Split(text, '\n');
    lines[..|lines| - 1]
  }

  lemma LinesOfScript(cfg: Config, snap: Snapshot, ports: Ports)
    requires Legible(cfg, snap)
    ensures LinesOf(Script(cfg, snap, ports)) == Lines(Compile(cfg, snap, ports))
  {
    CompiledIsLegible(cfg, snap, ports);
    LinesAreFree(Compile(cfg, snap, ports));
    BufferSplits(Lines(Compile(cfg, snap, ports)));
  }

  /** Carrying out the lines of a script is running the compiled flows. */
  lemma ScriptRuns(cfg: Config, snap: Snapshot, ports: Ports, p: Packet, trace: seq<string>, o: Outcome)
    requires Legible(cfg, snap) && NoArrows(cfg, snap)
    requires LineRuns(LinesOf(Script(cfg, snap, ports)), TABLE_ENTRY, p, trace, o)
    ensures Runs(Compile(cfg, snap, ports), TABLE_ENTRY, p, Entries(trace), o)
  {
    LinesOfScript(cfg, snap, ports);
    CompiledIsExecutable(cfg, snap, ports);
    LineRunIsRun(Compile(cfg, snap, ports), TABLE_ENTRY, p, trace, o);
  }

  /** From watch events to packets, through the text: after any run of events, failures and
      resyncs, an IPv4 packet on which the installed lines' actions are carried out one after
      another ends as the policies and the routing function say for the snapshot of the last
      accepted synchronisation. */
  lemma InstalledExecutes(cfg: Config, s: State, steps: seq<Step>, k: nat, p: Packet, trace: seq<string>, o: Outcome)
    requires LastSync(cfg, steps) == Some(k) && Addressed(cfg, steps[k].now)
    requires Legible(cfg, steps[k].now) && NoArrows(cfg, steps[k].now)
    requires p.payload.IPv4? && LineRuns(LinesOf(Run(cfg, s, steps).installed), TABLE_ENTRY, p, trace, o)
    ensures o == if Denied(cfg, steps[k].now, p.payload) then Dropped
                 else Route(cfg, steps[k].now, PortsOf(cfg, s, steps, k), p)
  {
    InstalledIsLastSync(cfg, s, steps);
    ScriptRuns(cfg, steps[k].now, PortsOf(cfg, s, steps, k), p, trace, o);
    Forwarding(cfg, steps[k].now, PortsOf(cfg, s, steps, k), p, Entries(trace), o);
  }

  /** Likewise an ARP request for the gateway or a local pod with a known port gets a correct
      reply out of its input port. */
  lemma InstalledAnswers(cfg: Config, s: State, steps: seq<Step>, k: nat, p: Packet, trace: seq<string>, o: Outcome)
    requires LastSync(cfg, steps) == Some(k) && Addressed(cfg, steps[k].now) && GatewayApart(cfg, steps[k].now)
    requires Legible(cfg, steps[k].now) && NoArrows(cfg, steps[k].now)
    requires p.payload.ARP? && LineRuns(LinesOf(Run(cfg, s, steps).installed), TABLE_ENTRY, p, trace, o)
    requires AnswerFor(cfg, steps[k].now, PortsOf(cfg, s, steps, k), p.payload.tpa).Some?
    ensures o.Sent? && o.port == IngressPort
    ensures CorrectReply(p, o.packet, AnswerFor(cfg, steps[k].now, PortsOf(cfg, s, steps, k), p.payload.tpa).value)
  {
    InstalledIsLastSync(cfg, s, steps);
    ScriptRuns(cfg, steps[k].now, PortsOf(cfg, s, steps, k), p, trace, o);
    ArpAnswered(cfg, steps[k].now, PortsOf(cfg, s, steps, k), p, Entries(trace), o);
  }

  /** And every packet has such a run. */
  lemma InstalledHasRun(cfg: Config, s: State, steps: seq<Step>, k: nat, p: Packet)
    requires LastSync(cfg, steps) == Some(k)
    requires Legible(cfg, steps[k].now) && NoArrows(cfg, steps[k].now)
    ensures exists trace, o :: LineRuns(LinesOf(Run(cfg, s, steps).installed), TABLE_ENTRY, p, trace, o)
  {
    var snap, ports := steps[k].now, PortsOf(cfg, s, steps, k);
    InstalledIsLastSync(cfg, s, steps);
    LinesOfScript(cfg, snap, ports);
    CompiledIsExecutable(cfg, snap, ports);
    SomeRun(cfg, snap, ports, p);
    var trace, o :| Runs(Compile(cfg, snap, ports), TABLE_ENTRY, p, trace, o);
    RunIsLineRun(Compile(cfg, snap, ports), TABLE_ENTRY, p, trace, o);
  }

  // ----- A missed delete

  function PodAlone(pod: Pod): Snapshot {
    Snapshot([], [pod], [], [])
  }

  function PortedAt(pod: Pod, port: int): OVSDB {
    OVSDB(map[PodKey(pod) := "p"], map["p" := "m"], map["p" := port])
  }

  /** The pod is synchronised, its delete arrives as a tombstone only, and it comes back
      under another OpenFlow port. */
  function MissedDelete(pod: Pod, before: int, after: int): seq<Step> {
    [Step(PodAlone(pod), PortedAt(pod, before), Resync, true)]
    + [Step(Snapshot([], [], [], []), PortedAt(pod, after), LostPod, true)]
    + [Step(PodAlone(pod), PortedAt(pod, after), Resync, true)]
  }

  lemma FirstSyncCaches(cfg: Config, pod: Pod, port: int)
    requires pod.ip != "" && IsLocal(cfg, pod.ip)
    ensures FilledBy(cfg, map[], PortedAt(pod, port), [pod]) == map[PodKey(pod) := PortInfo("p", port, "m")]
  {
    assert Query(PortedAt(pod, port), PodKey(pod)) == Some(PortInfo("p", port, "m"));
    assert [pod][..0] == [];
  }

  lemma MissedDeleteKeepsPort(cfg: Config, pod: Pod, before: int, after: int)
    requires pod.ip != "" && IsLocal(cfg, pod.ip)
    ensures var s := State("", map[], PodAlone(pod), PortedAt(pod, before));
            Run(cfg, s, MissedDelete(pod, before, after)[..2]).store == map[PodKey(pod) := PortInfo("p", before, "m")]
  {
    var s := State("", map[], PodAlone(pod), PortedAt(pod, before));
    var steps := MissedDelete(pod, before, after);
    assert steps[..2] == ([] + [steps[0]]) + [steps[1]];
    RunStep(cfg, s, [], steps[0]);
    RunStep(cfg, s, [] + [steps[0]], steps[1]);
    FirstSyncCaches(cfg, pod, before);
  }

  /** Then even the next accepted resync installs a delivery flow to the old port, and not
      what the database calls for: resyncs do not undo a missed delete. */
  lemma MissedDeleteLeavesStalePort(cfg: Config, pod: Pod, before: int, after: int)
    requires Legible(cfg, PodAlone(pod)) && pod.ip != "" && IsLocal(cfg, pod.ip) && before != after
    ensures var s := State("", map[], PodAlone(pod), PortedAt(pod, before));
            var installed := Run(cfg, s, MissedDelete(pod, before, after)).installed;
            && Plain(DeliveryFlow(pod.ip, before)) in ReadScript(installed)
            && installed != Script(cfg, PodAlone(pod), ResolvedPorts(map[], PortedAt(pod, after)))
  {
    var s := State("", map[], PodAlone(pod), PortedAt(pod, before));
    var steps := MissedDelete(pod, before, after);
    MissedDeleteKeepsPort(cfg, pod, before, after);
    assert LastSync(cfg, steps) == Some(2);
    InstalledIsCompiled(cfg, s, steps, 2);
    StaleEntryWithPod(cfg, pod, before, after);
    ScriptIsCompiled(cfg, PodAlone(pod), ResolvedPorts(map[], PortedAt(pod, after)));
  }
}
