/** The flows that one synchronisation emits, as a function of the snapshot.
    Each function below is what one function or one loop of the controller
    appends to the flows buffer, in the same order. */
module Compiler {
  import opened Collections
  import opened Text
  import opened Flows
  import opened Cluster

  const TABLE_ENTRY := 0
  const TABLE_NETWORK_POLICIES := 10
  const TABLE_CLASSIFICATION := 20
  const TABLE_L3_FORWARDING := 30
  const TABLE_L2_REWRITES := 60
  const TABLE_LOCAL_ARP := 100

  const POD_MAC := "aa:bb:cc:dd:ee:ff"

  /** OpenFlow ports by pod key, as far as they can be resolved. */
  type Ports = map<string, int>

  function PodKey(pod: Pod): string {
    pod.namespace + "/" + pod.name
  }

  // ----- Default flows

  /** Answers for one address: requester's addresses become the targets, then the
      address and its MAC become the sender. */
  function AddressResponder(ip: string, mac: string): Responder {
    Responder(TABLE_LOCAL_ARP, 500, ip,
              [MoveEthSrcToEthDst, ModDlSrc(mac), LoadReplyOp, MoveShaToTha, MoveSpaToTpa,
               SetSha(mac), SetSpa(ip), InPort])
  }

  /** Answers for the whole cluster CIDR. */
  function ClusterResponder(cidr: string): Responder {
    Responder(TABLE_LOCAL_ARP, 400, cidr,
              [MoveEthSrcToEthDst, ModDlSrc(POD_MAC), LoadReplyOp, SetSha(POD_MAC), MoveTpaToSpa,
               MoveShaToTha, MoveSpaToTpa, InPort])
  }

  const ENTRY_FLOW := BLANK.(table := TABLE_ENTRY, priority := 1000, resubmit := TABLE_NETWORK_POLICIES)

  const POLICY_DEFAULT := BLANK.(table := TABLE_NETWORK_POLICIES, resubmit := TABLE_CLASSIFICATION)

  const CLASSIFIER_DEFAULT := BLANK.(table := TABLE_CLASSIFICATION, local := true)

  function ClassifierFlow(priority: int, dst: string): FlowSpec {
    BLANK.(table := TABLE_CLASSIFICATION, priority := priority, protocol := "ip", ipDest := dst)
  }

  function FirstDefaults(cfg: Config): seq<Entry> {
    [ Plain(ENTRY_FLOW),
      Plain(POLICY_DEFAULT),
      Plain(CLASSIFIER_DEFAULT),
      Plain(ClassifierFlow(500, cfg.gatewayIP).(local := true)) ]
  }

  function ClassifierDefaults(cfg: Config): seq<Entry> {
    [ Plain(ClassifierFlow(300, cfg.podCIDR).(resubmit := TABLE_L2_REWRITES)),
      Plain(ClassifierFlow(100, cfg.clusterCIDR).(resubmit := TABLE_L3_FORWARDING)),
      Plain(BLANK.(table := TABLE_CLASSIFICATION, priority := 100, protocol := "arp", resubmit := TABLE_LOCAL_ARP)) ]
  }

  function ResponderDefaults(cfg: Config): seq<Entry> {
    [ Arp(AddressResponder(cfg.gatewayIP, cfg.bridgeMAC)), Arp(ClusterResponder(cfg.clusterCIDR)) ]
  }

  function DefaultFlows(cfg: Config): seq<Entry> {
    FirstDefaults(cfg) + ClassifierDefaults(cfg) + ResponderDefaults(cfg)
  }

  // ----- Flows per vswitch

  function ForwardingFlow(priority: int, dst: string): FlowSpec {
    BLANK.(table := TABLE_L3_FORWARDING, priority := priority, protocol := "ip", ipDest := dst)
  }

  function FlowsForVSwitch(cfg: Config, v: VSwitch): seq<Entry> {
    if v.name == cfg.nodeName then
      [ Plain(ForwardingFlow(100, v.podCIDR).(resubmit := TABLE_L2_REWRITES)),
        Plain(ClassifierFlow(100, v.overlayIP).(ipSrc := v.podCIDR, modDlDest := cfg.bridgeMAC, local := true)),
        Plain(ClassifierFlow(50, v.overlayIP).(modDlDest := cfg.clusterWideMAC, output := cfg.clusterWideOFPort)) ]
    else
      [ Plain(ForwardingFlow(150, v.podCIDR).(tunDest := v.overlayIP, output := cfg.overlayOFPort)),
        Plain(ClassifierFlow(50, v.overlayIP).(resubmit := TABLE_L3_FORWARDING)),
        Plain(ForwardingFlow(100, v.overlayIP).(tunDest := v.overlayIP, output := cfg.overlayOFPort)) ]
  }

  // ----- Flows per pod

  function DeliveryFlow(ip: string, port: int): FlowSpec {
    BLANK.(table := TABLE_L2_REWRITES, priority := 100, protocol := "ip", ipDest := ip,
           modDlDest := POD_MAC, output := port)
  }

  /** Nothing for a pod without an address, a remote pod or a pod whose port cannot be resolved. */
  function FlowsForPod(cfg: Config, ports: Ports, pod: Pod): seq<Entry> {
    if pod.ip != "" && IsLocal(cfg, pod.ip) && PodKey(pod) in ports then
      [ Plain(DeliveryFlow(pod.ip, ports[PodKey(pod)])), Arp(AddressResponder(pod.ip, POD_MAC)) ]
    else []
  }

  // ----- Flows per network policy

  /** The two directions are mirror images: the selected pod is the destination of
      ingress and the source of egress traffic, the peer is the other end. */
  datatype Direction = Ingress | Egress

  function Between(dir: Direction, f: FlowSpec, local: string, peer: string): FlowSpec {
    if dir.Ingress? then f.(ipDest := local, ipSrc := peer) else f.(ipSrc := local, ipDest := peer)
  }

  function PolicyFlow(priority: int, protocol: string): FlowSpec {
    BLANK.(table := TABLE_NETWORK_POLICIES, priority := priority, protocol := protocol)
  }

  function DefaultDrop(dir: Direction, local: string): Entry {
    Plain(Between(dir, PolicyFlow(100, "ip").(drop := true), local, ""))
  }

  function AllowIP(dir: Direction, local: string, peer: string): Entry {
    Plain(Between(dir, PolicyFlow(1000, "ip").(resubmit := TABLE_CLASSIFICATION), local, peer))
  }

  function ExceptDrop(dir: Direction, local: string, peer: string): Entry {
    Plain(Between(dir, PolicyFlow(1100, "ip").(drop := true), local, peer))
  }

  function AllowPort(dir: Direction, local: string, peer: string, port: PolicyPort): seq<Entry> {
    var allow := PolicyFlow(1000, ToLower(port.protocol)).(resubmit := TABLE_CLASSIFICATION);
    if ToLower(port.protocol) == "tcp" then
      [Plain(Between(dir, allow.(tcpDestPort := port.port.IntValue()), local, peer))]
    else if ToLower(port.protocol) == "udp" then
      [Plain(Between(dir, allow.(udpDestPort := port.port.IntValue()), local, peer))]
    else []
  }

  function AllowPortOf(dir: Direction, local: string, peer: string): PolicyPort -> seq<Entry> {
    port => AllowPort(dir, local, peer, port)
  }

  /** An empty port list allows all traffic between the two addresses. */
  function AllowPair(dir: Direction, ports: seq<PolicyPort>, local: string, peer: string): seq<Entry> {
    if ports == [] then [AllowIP(dir, local, peer)] else FlatMap(AllowPortOf(dir, local, peer), ports)
  }

  function AllowLocal(dir: Direction, ports: seq<PolicyPort>, peer: string): string -> seq<Entry> {
    local => AllowPair(dir, ports, local, peer)
  }

  function AllowPeer(dir: Direction, ports: seq<PolicyPort>, local: string): string -> seq<Entry> {
    peer => AllowPair(dir, ports, local, peer)
  }

  function AllowPeers(dir: Direction, ports: seq<PolicyPort>, peers: seq<string>): string -> seq<Entry> {
    local => FlatMap(AllowPeer(dir, ports, local), peers)
  }

  function AllowBlock(dir: Direction, cidr: string): string -> seq<Entry> {
    local => [AllowIP(dir, local, cidr)]
  }

  function DropBlock(dir: Direction, cidr: string): string -> seq<Entry> {
    local => [ExceptDrop(dir, local, cidr)]
  }

  function DropExcept(dir: Direction, locals: seq<string>): string -> seq<Entry> {
    cidr => FlatMap(DropBlock(dir, cidr), locals)
  }

  function FlowsForBlock(dir: Direction, locals: seq<string>, block: IPBlock): seq<Entry> {
    FlatMap(AllowBlock(dir, block.cidr), locals) + FlatMap(DropExcept(dir, locals), block.except)
  }

  function IPsOf(pods: seq<Pod>): (r: seq<string>)
    ensures forall ip :: ip in r <==> ip != "" && exists p :: p in pods && p.ip == ip
  {
    if pods == [] then []
    else
      var init, last := pods[..|pods| - 1], pods[|pods| - 1];
      assert pods == init + [last];
      if last.ip == "" then IPsOf(init) else IPsOf(init) + [last.ip]
  }

  /** The namespaces of a peer: those its selector matches, or the policy's own
      when there is no selector or it matches none. */
  function PeerNamespaces(snap: Snapshot, policy: Policy, peer: Peer): seq<string> {
    if peer.namespaceSelector.Some? && NamespacesFor(snap.namespaces, peer.namespaceSelector.value) != []
    then Map((n: Namespace) => n.name, NamespacesFor(snap.namespaces, peer.namespaceSelector.value))
    else [policy.namespace]
  }

  function AllowNamespace(dir: Direction, snap: Snapshot, locals: seq<string>, ports: seq<PolicyPort>,
                          selector: Labels): string -> seq<Entry> {
    namespace => FlatMap(AllowPeers(dir, ports, IPsOf(PodsIn(snap.pods, namespace, selector))), locals)
  }

  /** An IP block ignores the rule's ports; a peer with neither block nor pod selector is skipped. */
  function FlowsForPeer(dir: Direction, snap: Snapshot, policy: Policy, locals: seq<string>,
                        ports: seq<PolicyPort>, peer: Peer): seq<Entry> {
    if peer.ipBlock.Some? then FlowsForBlock(dir, locals, peer.ipBlock.value)
    else if peer.podSelector.None? then []
    else FlatMap(AllowNamespace(dir, snap, locals, ports, peer.podSelector.value),
                 PeerNamespaces(snap, policy, peer))
  }

  function FlowsForPeerOf(dir: Direction, snap: Snapshot, policy: Policy, locals: seq<string>,
                          ports: seq<PolicyPort>): Peer -> seq<Entry> {
    peer => FlowsForPeer(dir, snap, policy, locals, ports, peer)
  }

  function FlowsForRule(dir: Direction, snap: Snapshot, policy: Policy, locals: seq<string>,
                        rule: Rule): seq<Entry> {
    if rule.peers == [] then FlatMap(AllowLocal(dir, rule.ports, ""), locals)
    else FlatMap(FlowsForPeerOf(dir, snap, policy, locals, rule.ports), rule.peers)
  }

  function FlowsForRuleOf(dir: Direction, snap: Snapshot, policy: Policy, locals: seq<string>): Rule -> seq<Entry> {
    rule => FlowsForRule(dir, snap, policy, locals, rule)
  }

  function DefaultDrops(dir: Direction): string -> seq<Entry> {
    local => [DefaultDrop(dir, local)]
  }

  function Rules(dir: Direction, policy: Policy): seq<Rule> {
    if dir.Ingress? then policy.ingress else policy.egress
  }

  function FlowsForDirection(dir: Direction, snap: Snapshot, policy: Policy, locals: seq<string>): seq<Entry> {
    FlatMap(DefaultDrops(dir), locals) + FlatMap(FlowsForRuleOf(dir, snap, policy, locals), Rules(dir, policy))
  }

  /** Addresses of the local pods that the policy selects. */
  function LocalIPs(cfg: Config, pods: seq<Pod>): (r: seq<string>)
    ensures forall ip :: ip in r <==> ip != "" && IsLocal(cfg, ip) && exists p :: p in pods && p.ip == ip
  {
    if pods == [] then []
    else
      var init, last := pods[..|pods| - 1], pods[|pods| - 1];
      assert pods == init + [last];
      if last.ip != "" && IsLocal(cfg, last.ip) then LocalIPs(cfg, init) + [last.ip] else LocalIPs(cfg, init)
  }

  function SelectedIPs(cfg: Config, snap: Snapshot, policy: Policy): seq<string> {
    LocalIPs(cfg, PodsIn(snap.pods, policy.namespace, policy.podSelector))
  }

  function FlowsForPolicy(cfg: Config, snap: Snapshot, policy: Policy): seq<Entry> {
    var locals := SelectedIPs(cfg, snap, policy);
    FlowsForDirection(Ingress, snap, policy, locals) + FlowsForDirection(Egress, snap, policy, locals)
  }

  // ----- Everything

  function FlowsForVSwitchOf(cfg: Config): VSwitch -> seq<Entry> {
    v => FlowsForVSwitch(cfg, v)
  }

  function FlowsForPodOf(cfg: Config, ports: Ports): Pod -> seq<Entry> {
    pod => FlowsForPod(cfg, ports, pod)
  }

  function FlowsForPolicyOf(cfg: Config, snap: Snapshot): Policy -> seq<Entry> {
    policy => FlowsForPolicy(cfg, snap, policy)
  }

  function Compile(cfg: Config, snap: Snapshot, ports: Ports): seq<Entry> {
    DefaultFlows(cfg)
    + FlatMap(FlowsForVSwitchOf(cfg), snap.vswitches)
    + FlatMap(FlowsForPodOf(cfg, ports), snap.pods)
    + FlatMap(FlowsForPolicyOf(cfg, snap), snap.policies)
  }
}
