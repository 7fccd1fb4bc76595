/** What the network policies mean, stated over rules, labels and namespaces, and
    the proof that table 10 of the compiled flows means exactly that. */
module PolicyMeaning {
  import opened Collections
  import opened Addresses
  import opened Text
  import opened Flows
  import opened Switch
  import opened Cluster
  import opened Compiler

  // ----- The declarative meaning

  /** The end of the packet that a policy of this direction protects. */
  function ProtectedEnd(dir: Direction, p: Payload): Ip
    requires p.IPv4?
  {
    if dir.Ingress? then p.dst else p.src
  }

  function PeerEnd(dir: Direction, p: Payload): Ip
    requires p.IPv4?
  {
    if dir.Ingress? then p.src else p.dst
  }

  /** The policy selects a local pod that has address `ip`. */
  ghost predicate Protects(cfg: Config, snap: Snapshot, policy: Policy, ip: Ip) {
    exists pod ::
      && pod in snap.pods && Lists(policy.namespace, policy.podSelector, pod)
      && IsLocal(cfg, pod.ip) && ParseIP(pod.ip) == Some(ip)
  }

  /** Port 0, which is also what a named port counts as, admits every port of its protocol. */
  predicate PortAdmits(port: PolicyPort, t: Transport) {
    var n := port.port.IntValue();
    if ToLower(port.protocol) == "tcp" then t.TCP? && (n == 0 || n == t.dst)
    else ToLower(port.protocol) == "udp" && t.UDP? && (n == 0 || n == t.dst)
  }

  ghost predicate PortsAdmit(ports: seq<PolicyPort>, t: Transport) {
    ports == [] || exists port :: port in ports && PortAdmits(port, t)
  }

  /** `namespace` is one of those the peer's selector designates, or the policy's
      own when there is no selector or it designates none. */
  ghost predicate InPeerNamespaces(snap: Snapshot, policy: Policy, peer: Peer, namespace: string) {
    if peer.namespaceSelector.Some? && exists n :: n in snap.namespaces && LabelsMatch(peer.namespaceSelector.value, n.labels)
    then exists n :: n in snap.namespaces && LabelsMatch(peer.namespaceSelector.value, n.labels) && n.name == namespace
    else namespace == policy.namespace
  }

  /** Some pod that the peer selects has address `ip`. */
  ghost predicate PeerHasPod(snap: Snapshot, policy: Policy, peer: Peer, ip: Ip)
    requires peer.podSelector.Some?
  {
    exists namespace, pod ::
      && InPeerNamespaces(snap, policy, peer, namespace)
      && pod in snap.pods && Lists(namespace, peer.podSelector.value, pod)
      && pod.ip != "" && Covers(pod.ip, ip)
  }

  ghost predicate PeerAllows(dir: Direction, snap: Snapshot, policy: Policy, ports: seq<PolicyPort>,
                             peer: Peer, p: Payload)
    requires p.IPv4?
  {
    if peer.ipBlock.Some? then AddressMatches(peer.ipBlock.value.cidr, PeerEnd(dir, p))
    else
      && peer.podSelector.Some? && PeerHasPod(snap, policy, peer, PeerEnd(dir, p))
      && PortsAdmit(ports, p.transport)
  }

  ghost predicate PeerExcepts(dir: Direction, peer: Peer, p: Payload)
    requires p.IPv4?
  {
    && peer.ipBlock.Some?
    && exists cidr :: cidr in peer.ipBlock.value.except && AddressMatches(cidr, PeerEnd(dir, p))
  }

  ghost predicate RuleAllows(dir: Direction, snap: Snapshot, policy: Policy, rule: Rule, p: Payload)
    requires p.IPv4?
  {
    if rule.peers == [] then PortsAdmit(rule.ports, p.transport)
    else exists peer :: peer in rule.peers && PeerAllows(dir, snap, policy, rule.ports, peer, p)
  }

  ghost predicate RuleExcepts(dir: Direction, rule: Rule, p: Payload)
    requires p.IPv4?
  {
    exists peer :: peer in rule.peers && PeerExcepts(dir, peer, p)
  }

  /** The policy selects an end of the packet and has a rule of that direction that allows it. */
  ghost predicate Allows(dir: Direction, cfg: Config, snap: Snapshot, policy: Policy, p: Payload)
    requires p.IPv4?
  {
    && Protects(cfg, snap, policy, ProtectedEnd(dir, p))
    && exists rule :: rule in Rules(dir, policy) && RuleAllows(dir, snap, policy, rule, p)
  }

  ghost predicate Excepts(dir: Direction, cfg: Config, snap: Snapshot, policy: Policy, p: Payload)
    requires p.IPv4?
  {
    && Protects(cfg, snap, policy, ProtectedEnd(dir, p))
    && exists rule :: rule in Rules(dir, policy) && RuleExcepts(dir, rule, p)
  }

  ghost predicate Concerns(cfg: Config, snap: Snapshot, policy: Policy, p: Payload)
    requires p.IPv4?
  {
    Protects(cfg, snap, policy, p.src) || Protects(cfg, snap, policy, p.dst)
  }

  /** The verdict on an IPv4 packet. One allowing rule of either direction outweighs
      every default; an excepted block outweighs every rule. */
  ghost predicate Denied(cfg: Config, snap: Snapshot, p: Payload)
    requires p.IPv4?
  {
    Excepted(cfg, snap, p) || (Concerned(cfg, snap, p) && !Allowed(cfg, snap, p))
  }

  ghost predicate Excepted(cfg: Config, snap: Snapshot, p: Payload)
    requires p.IPv4?
  {
    exists policy :: policy in snap.policies
      && (Excepts(Ingress, cfg, snap, policy, p) || Excepts(Egress, cfg, snap, policy, p))
  }

  ghost predicate Concerned(cfg: Config, snap: Snapshot, p: Payload)
    requires p.IPv4?
  {
    exists policy :: policy in snap.policies && Concerns(cfg, snap, policy, p)
  }

  ghost predicate Allowed(cfg: Config, snap: Snapshot, p: Payload)
    requires p.IPv4?
  {
    exists policy :: policy in snap.policies
      && (Allows(Ingress, cfg, snap, policy, p) || Allows(Egress, cfg, snap, policy, p))
  }

  /** The two directions, spelt out: ingress rules protect the destination, egress rules the source. */
  lemma DirectionsOfRules(cfg: Config, snap: Snapshot, policy: Policy, p: Payload)
    requires p.IPv4?
    ensures Allows(Ingress, cfg, snap, policy, p)
            <==> && Protects(cfg, snap, policy, p.dst)
                 && exists rule :: rule in policy.ingress && RuleAllows(Ingress, snap, policy, rule, p)
    ensures Allows(Egress, cfg, snap, policy, p)
            <==> && Protects(cfg, snap, policy, p.src)
                 && exists rule :: rule in policy.egress && RuleAllows(Egress, snap, policy, rule, p)
    ensures Excepts(Ingress, cfg, snap, policy, p)
            <==> && Protects(cfg, snap, policy, p.dst)
                 && exists rule :: rule in policy.ingress && RuleExcepts(Ingress, rule, p)
    ensures Excepts(Egress, cfg, snap, policy, p)
            <==> && Protects(cfg, snap, policy, p.src)
                 && exists rule :: rule in policy.egress && RuleExcepts(Egress, rule, p)
  {
  }

  /** The peer of ingress traffic is its source, that of egress traffic its destination. */
  lemma DirectionsOfPeers(snap: Snapshot, policy: Policy, ports: seq<PolicyPort>, peer: Peer, p: Payload)
    requires p.IPv4? && peer.ipBlock.None? && peer.podSelector.Some?
    ensures PeerAllows(Ingress, snap, policy, ports, peer, p)
            <==> PeerHasPod(snap, policy, peer, p.src) && PortsAdmit(ports, p.transport)
    ensures PeerAllows(Egress, snap, policy, ports, peer, p)
            <==> PeerHasPod(snap, policy, peer, p.dst) && PortsAdmit(ports, p.transport)
  {
  }

  // ----- Which compiled entries match

  /** Some entry of this priority matches. */
  ghost predicate Hits(es: seq<Entry>, priority: int, p: Packet) {
    exists e :: e in es && e.Priority() == priority && Matches(e, p)
  }

  lemma HitsAppend(a: seq<Entry>, b: seq<Entry>, priority: int, p: Packet)
    ensures Hits(a + b, priority, p) <==> Hits(a, priority, p) || Hits(b, priority, p)
  {
  }

  lemma {:induction false} HitsFlatMap<A(!new)>(f: A -> seq<Entry>, s: seq<A>, priority: int, p: Packet)
    ensures Hits(FlatMap(f, s), priority, p) <==> exists a :: a in s && Hits(f(a), priority, p)
  {
    if s != [] {
      var init, last := s[..|s| - 1], s[|s| - 1];
      assert s == init + [last];
      HitsFlatMap(f, init, priority, p);
      HitsAppend(FlatMap(f, init), f(last), priority, p);
    }
  }

  /** The protected end of the packet is one of the addresses `locals`. */
  ghost predicate AtLocal(dir: Direction, locals: seq<string>, p: Payload)
    requires p.IPv4?
  {
    exists local :: local in locals && AddressMatches(local, ProtectedEnd(dir, p))
  }

  lemma AllowPortHits(dir: Direction, local: string, peer: string, port: PolicyPort, priority: int, p: Packet)
    requires p.payload.IPv4?
    ensures Hits(AllowPort(dir, local, peer, port), priority, p)
            <==> (&& priority == 1000
                  && AddressMatches(local, ProtectedEnd(dir, p.payload))
                  && AddressMatches(peer, PeerEnd(dir, p.payload))
                  && PortAdmits(port, p.payload.transport))
  {
    var es := AllowPort(dir, local, peer, port);
    if es != [] {
      assert es[0] in es;
    }
  }

  lemma AllowPairHits(dir: Direction, ports: seq<PolicyPort>, local: string, peer: string, priority: int, p: Packet)
    requires p.payload.IPv4?
    ensures Hits(AllowPair(dir, ports, local, peer), priority, p)
            <==> (&& priority == 1000
                  && AddressMatches(local, ProtectedEnd(dir, p.payload))
                  && AddressMatches(peer, PeerEnd(dir, p.payload))
                  && PortsAdmit(ports, p.payload.transport))
  {
    if ports == [] {
      assert AllowIP(dir, local, peer) in AllowPair(dir, ports, local, peer);
    } else {
      HitsFlatMap(AllowPortOf(dir, local, peer), ports, priority, p);
      forall port ensures Hits(AllowPortOf(dir, local, peer)(port), priority, p)
                          == (&& priority == 1000
                              && AddressMatches(local, ProtectedEnd(dir, p.payload))
                              && AddressMatches(peer, PeerEnd(dir, p.payload))
                              && PortAdmits(port, p.payload.transport))
      {
        AllowPortHits(dir, local, peer, port, priority, p);
      }
    }
  }

  lemma AllowLocalsHits(dir: Direction, ports: seq<PolicyPort>, locals: seq<string>, peer: string,
                        priority: int, p: Packet)
    requires p.payload.IPv4?
    ensures Hits(FlatMap(AllowLocal(dir, ports, peer), locals), priority, p)
            <==> (&& priority == 1000 && AtLocal(dir, locals, p.payload)
                  && AddressMatches(peer, PeerEnd(dir, p.payload))
                  && PortsAdmit(ports, p.payload.transport))
  {
    HitsFlatMap(AllowLocal(dir, ports, peer), locals, priority, p);
    forall local ensures Hits(AllowLocal(dir, ports, peer)(local), priority, p)
                         == (&& priority == 1000
                             && AddressMatches(local, ProtectedEnd(dir, p.payload))
                             && AddressMatches(peer, PeerEnd(dir, p.payload))
                             && PortsAdmit(ports, p.payload.transport))
    {
      AllowPairHits(dir, ports, local, peer, priority, p);
    }
  }

  ghost predicate AtPeer(dir: Direction, peers: seq<string>, p: Payload)
    requires p.IPv4?
  {
    exists peer :: peer in peers && AddressMatches(peer, PeerEnd(dir, p))
  }

  lemma AllowPeersHits(dir: Direction, ports: seq<PolicyPort>, locals: seq<string>, peers: seq<string>,
                       priority: int, p: Packet)
    requires p.payload.IPv4?
    ensures Hits(FlatMap(AllowPeers(dir, ports, peers), locals), priority, p)
            <==> (&& priority == 1000 && AtLocal(dir, locals, p.payload) && AtPeer(dir, peers, p.payload)
                  && PortsAdmit(ports, p.payload.transport))
  {
    HitsFlatMap(AllowPeers(dir, ports, peers), locals, priority, p);
    forall local ensures Hits(AllowPeers(dir, ports, peers)(local), priority, p)
                         == (&& priority == 1000
                             && AddressMatches(local, ProtectedEnd(dir, p.payload))
                             && AtPeer(dir, peers, p.payload)
                             && PortsAdmit(ports, p.payload.transport))
    {
      HitsFlatMap(AllowPeer(dir, ports, local), peers, priority, p);
      forall peer ensures Hits(AllowPeer(dir, ports, local)(peer), priority, p)
                          == (&& priority == 1000
                              && AddressMatches(local, ProtectedEnd(dir, p.payload))
                              && AddressMatches(peer, PeerEnd(dir, p.payload))
                              && PortsAdmit(ports, p.payload.transport))
      {
        AllowPairHits(dir, ports, local, peer, priority, p);
      }
    }
  }

  lemma AllowBlockHits(dir: Direction, locals: seq<string>, cidr: string, priority: int, p: Packet)
    requires p.payload.IPv4?
    ensures Hits(FlatMap(AllowBlock(dir, cidr), locals), priority, p)
            <==> (&& priority == 1000 && AtLocal(dir, locals, p.payload)
                  && AddressMatches(cidr, PeerEnd(dir, p.payload)))
  {
    HitsFlatMap(AllowBlock(dir, cidr), locals, priority, p);
    forall local ensures Hits(AllowBlock(dir, cidr)(local), priority, p)
                         == (&& priority == 1000
                             && AddressMatches(local, ProtectedEnd(dir, p.payload))
                             && AddressMatches(cidr, PeerEnd(dir, p.payload)))
    {
      assert AllowIP(dir, local, cidr) in [AllowIP(dir, local, cidr)];
    }
  }

  lemma DropBlockHits(dir: Direction, locals: seq<string>, cidr: string, priority: int, p: Packet)
    requires p.payload.IPv4?
    ensures Hits(FlatMap(DropBlock(dir, cidr), locals), priority, p)
            <==> (&& priority == 1100 && AtLocal(dir, locals, p.payload)
                  && AddressMatches(cidr, PeerEnd(dir, p.payload)))
  {
    HitsFlatMap(DropBlock(dir, cidr), locals, priority, p);
    forall local ensures Hits(DropBlock(dir, cidr)(local), priority, p)
                         == (&& priority == 1100
                             && AddressMatches(local, ProtectedEnd(dir, p.payload))
                             && AddressMatches(cidr, PeerEnd(dir, p.payload)))
    {
      assert ExceptDrop(dir, local, cidr) in [ExceptDrop(dir, local, cidr)];
    }
  }

  lemma DropExceptHits(dir: Direction, locals: seq<string>, except: seq<string>, priority: int, p: Packet)
    requires p.payload.IPv4?
    ensures Hits(FlatMap(DropExcept(dir, locals), except), priority, p)
            <==> (&& priority == 1100 && AtLocal(dir, locals, p.payload)
                  && exists cidr :: cidr in except && AddressMatches(cidr, PeerEnd(dir, p.payload)))
  {
    HitsFlatMap(DropExcept(dir, locals), except, priority, p);
    forall cidr ensures Hits(DropExcept(dir, locals)(cidr), priority, p)
                        == (&& priority == 1100 && AtLocal(dir, locals, p.payload)
                            && AddressMatches(cidr, PeerEnd(dir, p.payload)))
    {
      DropBlockHits(dir, locals, cidr, priority, p);
    }
  }

  lemma NamespacesAgree(snap: Snapshot, policy: Policy, peer: Peer, namespace: string)
    ensures namespace in PeerNamespaces(snap, policy, peer) <==> InPeerNamespaces(snap, policy, peer, namespace)
  {
    if peer.namespaceSelector.Some? {
      var ns := NamespacesFor(snap.namespaces, peer.namespaceSelector.value);
      if ns != [] {
        assert ns[0] in ns;
        if InPeerNamespaces(snap, policy, peer, namespace) {
          var n :| n in snap.namespaces && LabelsMatch(peer.namespaceSelector.value, n.labels) && n.name == namespace;
          assert n in ns;
          var i :| 0 <= i < |ns| && ns[i] == n;
          assert PeerNamespaces(snap, policy, peer)[i] == namespace;
        }
      }
    }
  }

  /** The listed pods with an address at the peer end. */
  lemma AtPeerPods(dir: Direction, pods: seq<Pod>, p: Payload)
    requires p.IPv4?
    ensures AtPeer(dir, IPsOf(pods), p)
            <==> exists pod :: pod in pods && pod.ip != "" && Covers(pod.ip, PeerEnd(dir, p))
  {
    if pod :| pod in pods && pod.ip != "" && Covers(pod.ip, PeerEnd(dir, p)) {
      assert pod.ip in IPsOf(pods);
    }
  }

  lemma NamespaceHits(dir: Direction, snap: Snapshot, locals: seq<string>, ports: seq<PolicyPort>,
                      selector: Labels, namespace: string, priority: int, p: Packet)
    requires p.payload.IPv4?
    ensures Hits(AllowNamespace(dir, snap, locals, ports, selector)(namespace), priority, p)
            <==> (&& priority == 1000 && AtLocal(dir, locals, p.payload)
                  && PortsAdmit(ports, p.payload.transport)
                  && exists pod :: pod in snap.pods && Lists(namespace, selector, pod)
                                   && pod.ip != "" && Covers(pod.ip, PeerEnd(dir, p.payload)))
  {
    var pods := PodsIn(snap.pods, namespace, selector);
    AllowPeersHits(dir, ports, locals, IPsOf(pods), priority, p);
    AtPeerPods(dir, pods, p.payload);
  }

  lemma PeerHits(dir: Direction, snap: Snapshot, policy: Policy, locals: seq<string>, ports: seq<PolicyPort>,
                 peer: Peer, priority: int, p: Packet)
    requires p.payload.IPv4?
    ensures Hits(FlowsForPeer(dir, snap, policy, locals, ports, peer), priority, p)
            <==> (&& AtLocal(dir, locals, p.payload)
                  && (|| (priority == 1000 && PeerAllows(dir, snap, policy, ports, peer, p.payload))
                      || (priority == 1100 && PeerExcepts(dir, peer, p.payload))))
  {
    if peer.ipBlock.Some? {
      var block := peer.ipBlock.value;
      AllowBlockHits(dir, locals, block.cidr, priority, p);
      DropExceptHits(dir, locals, block.except, priority, p);
      HitsAppend(FlatMap(AllowBlock(dir, block.cidr), locals),
                 FlatMap(DropExcept(dir, locals), block.except), priority, p);
    } else if peer.podSelector.Some? {
      var selector := peer.podSelector.value;
      HitsFlatMap(AllowNamespace(dir, snap, locals, ports, selector), PeerNamespaces(snap, policy, peer), priority, p);
      forall namespace
        ensures namespace in PeerNamespaces(snap, policy, peer) <==> InPeerNamespaces(snap, policy, peer, namespace)
        ensures Hits(AllowNamespace(dir, snap, locals, ports, selector)(namespace), priority, p)
            <==> (&& priority == 1000 && AtLocal(dir, locals, p.payload)
                  && PortsAdmit(ports, p.payload.transport)
                  && exists pod :: pod in snap.pods && Lists(namespace, selector, pod)
                                   && pod.ip != "" && Covers(pod.ip, PeerEnd(dir, p.payload)))
      {
        NamespacesAgree(snap, policy, peer, namespace);
        NamespaceHits(dir, snap, locals, ports, selector, namespace, priority, p);
      }
    }
  }

  lemma RuleHits(dir: Direction, snap: Snapshot, policy: Policy, locals: seq<string>, rule: Rule,
                 priority: int, p: Packet)
    requires p.payload.IPv4?
    ensures Hits(FlowsForRule(dir, snap, policy, locals, rule), priority, p)
            <==> (&& AtLocal(dir, locals, p.payload)
                  && (|| (priority == 1000 && RuleAllows(dir, snap, policy, rule, p.payload))
                      || (priority == 1100 && RuleExcepts(dir, rule, p.payload))))
  {
    if rule.peers == [] {
      AllowLocalsHits(dir, rule.ports, locals, "", priority, p);
    } else {
      HitsFlatMap(FlowsForPeerOf(dir, snap, policy, locals, rule.ports), rule.peers, priority, p);
      forall peer
        ensures Hits(FlowsForPeerOf(dir, snap, policy, locals, rule.ports)(peer), priority, p)
            <==> (&& AtLocal(dir, locals, p.payload)
                  && (|| (priority == 1000 && PeerAllows(dir, snap, policy, rule.ports, peer, p.payload))
                      || (priority == 1100 && PeerExcepts(dir, peer, p.payload))))
      {
        PeerHits(dir, snap, policy, locals, rule.ports, peer, priority, p);
      }
    }
  }

  lemma DefaultDropsHit(dir: Direction, locals: seq<string>, priority: int, p: Packet)
    requires p.payload.IPv4?
    ensures Hits(FlatMap(DefaultDrops(dir), locals), priority, p)
            <==> priority == 100 && AtLocal(dir, locals, p.payload)
  {
    HitsFlatMap(DefaultDrops(dir), locals, priority, p);
    forall local ensures Hits(DefaultDrops(dir)(local), priority, p)
                         == (priority == 100 && AddressMatches(local, ProtectedEnd(dir, p.payload)))
    {
      assert DefaultDrop(dir, local) in [DefaultDrop(dir, local)];
    }
  }

  lemma DirectionHits(dir: Direction, snap: Snapshot, policy: Policy, locals: seq<string>, priority: int, p: Packet)
    requires p.payload.IPv4?
    ensures Hits(FlowsForDirection(dir, snap, policy, locals), priority, p)
            <==> (&& AtLocal(dir, locals, p.payload)
                  && (|| priority == 100
                      || (priority == 1000 && exists rule :: rule in Rules(dir, policy)
                                                             && RuleAllows(dir, snap, policy, rule, p.payload))
                      || (priority == 1100 && exists rule :: rule in Rules(dir, policy)
                                                             && RuleExcepts(dir, rule, p.payload))))
  {
    var f := FlowsForRuleOf(dir, snap, policy, locals);
    DefaultDropsHit(dir, locals, priority, p);
    HitsAppend(FlatMap(DefaultDrops(dir), locals), FlatMap(f, Rules(dir, policy)), priority, p);
    HitsFlatMap(f, Rules(dir, policy), priority, p);
    forall rule ensures Hits(f(rule), priority, p)
            <==> (&& AtLocal(dir, locals, p.payload)
                  && (|| (priority == 1000 && RuleAllows(dir, snap, policy, rule, p.payload))
                      || (priority == 1100 && RuleExcepts(dir, rule, p.payload))))
    {
      RuleHits(dir, snap, policy, locals, rule, priority, p);
    }
  }

  lemma SelectedIsProtected(dir: Direction, cfg: Config, snap: Snapshot, policy: Policy, p: Payload)
    requires p.IPv4?
    ensures AtLocal(dir, SelectedIPs(cfg, snap, policy), p)
            <==> Protects(cfg, snap, policy, ProtectedEnd(dir, p))
  {
    var ip := ProtectedEnd(dir, p);
    var pods := PodsIn(snap.pods, policy.namespace, policy.podSelector);
    forall local | local in SelectedIPs(cfg, snap, policy)
      ensures AddressMatches(local, ip) <==> ParseIP(local) == Some(ip)
    {
      AddressCovers(local, ip);
    }
    if Protects(cfg, snap, policy, ip) {
      var pod :| && pod in snap.pods && Lists(policy.namespace, policy.podSelector, pod)
                 && IsLocal(cfg, pod.ip) && ParseIP(pod.ip) == Some(ip);
      EmptyIsNoAddress();
      assert pod in pods && pod.ip != "";
      assert pod.ip in SelectedIPs(cfg, snap, policy);
    }
  }

  lemma OneDirectionHits(dir: Direction, cfg: Config, snap: Snapshot, policy: Policy, priority: int, p: Packet)
    requires p.payload.IPv4?
    ensures Hits(FlowsForDirection(dir, snap, policy, SelectedIPs(cfg, snap, policy)), priority, p)
            <==> (|| (priority == 100 && Protects(cfg, snap, policy, ProtectedEnd(dir, p.payload)))
                  || (priority == 1000 && Allows(dir, cfg, snap, policy, p.payload))
                  || (priority == 1100 && Excepts(dir, cfg, snap, policy, p.payload)))
  {
    DirectionHits(dir, snap, policy, SelectedIPs(cfg, snap, policy), priority, p);
    SelectedIsProtected(dir, cfg, snap, policy, p.payload);
  }

  /** What priority `priority` of one policy's flows stands for. */
  ghost predicate Reaches(priority: int, cfg: Config, snap: Snapshot, policy: Policy, p: Payload)
    requires p.IPv4?
  {
    || (priority == 100 && Concerns(cfg, snap, policy, p))
    || (priority == 1000 && (Allows(Ingress, cfg, snap, policy, p) || Allows(Egress, cfg, snap, policy, p)))
    || (priority == 1100 && (Excepts(Ingress, cfg, snap, policy, p) || Excepts(Egress, cfg, snap, policy, p)))
  }

  /** The strata of one policy: default drops, allowances, exceptions. */
  lemma PolicyHits(cfg: Config, snap: Snapshot, policy: Policy, priority: int, p: Packet)
    requires p.payload.IPv4?
    ensures Hits(FlowsForPolicy(cfg, snap, policy), priority, p)
            <==> Reaches(priority, cfg, snap, policy, p.payload)
  {
    var locals := SelectedIPs(cfg, snap, policy);
    OneDirectionHits(Ingress, cfg, snap, policy, priority, p);
    OneDirectionHits(Egress, cfg, snap, policy, priority, p);
    HitsAppend(FlowsForDirection(Ingress, snap, policy, locals),
               FlowsForDirection(Egress, snap, policy, locals), priority, p);
  }

  lemma PoliciesHit(cfg: Config, snap: Snapshot, priority: int, p: Packet)
    requires p.payload.IPv4?
    ensures Hits(FlatMap(FlowsForPolicyOf(cfg, snap), snap.policies), priority, p)
            <==> exists policy :: policy in snap.policies && Reaches(priority, cfg, snap, policy, p.payload)
  {
    var f := FlowsForPolicyOf(cfg, snap);
    HitsFlatMap(f, snap.policies, priority, p);
    forall policy
      ensures Hits(f(policy), priority, p) <==> Reaches(priority, cfg, snap, policy, p.payload)
    {
      PolicyHits(cfg, snap, policy, priority, p);
    }
  }
}
