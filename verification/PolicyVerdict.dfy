/** The policy table decides exactly as the policies mean, and what follows from it. */
module PolicyVerdict {
  import opened Collections
  import opened Addresses
  import opened Flows
  import opened Switch
  import opened Cluster
  import opened Compiler
  import opened PolicyMeaning
  import opened Layout

  /** Some policy reaches priority `priority`. */
  ghost predicate Reached(priority: int, cfg: Config, snap: Snapshot, p: Payload)
    requires p.IPv4?
  {
    exists policy :: policy in snap.policies && Reaches(priority, cfg, snap, policy, p)
  }

  /** Whatever the policies reach is matched by an entry of the policy table. */
  lemma ReachedIsMatched(cfg: Config, snap: Snapshot, ports: Ports, p: Packet, priority: int) returns (e: Entry)
    requires p.payload.IPv4? && Reached(priority, cfg, snap, p.payload)
    ensures e in Compile(cfg, snap, ports) && e.Table() == TABLE_NETWORK_POLICIES
    ensures e.Priority() == priority && Matches(e, p)
  {
    var f := FlowsForPolicyOf(cfg, snap);
    PoliciesHit(cfg, snap, priority, p);
    e :| e in FlatMap(f, snap.policies) && e.Priority() == priority && Matches(e, p);
    FlatMapMembers(f, snap.policies, e);
    var policy :| policy in snap.policies && e in f(policy);
    PolicyInStrata(cfg, snap, policy);
    Members(cfg, snap, ports, e);
  }

  /** A matching entry of the policy table is the default, or is reached by the policies. */
  lemma MatchedIsReached(cfg: Config, snap: Snapshot, ports: Ports, p: Packet, e: Entry)
    requires p.payload.IPv4?
    requires e in Compile(cfg, snap, ports) && e.Table() == TABLE_NETWORK_POLICIES && Matches(e, p)
    ensures e == Plain(POLICY_DEFAULT) || (InStratum(e) && Reached(e.Priority(), cfg, snap, p.payload))
  {
    PolicyTable(cfg, snap, ports, e);
    if e != Plain(POLICY_DEFAULT) {
      var policy :| policy in snap.policies && e in FlowsForPolicy(cfg, snap, policy);
      PolicyInStrata(cfg, snap, policy);
      PolicyHits(cfg, snap, policy, e.Priority(), p);
    }
  }

  lemma DefaultIsPresent(cfg: Config, snap: Snapshot, ports: Ports, p: Packet)
    ensures Plain(POLICY_DEFAULT) in Compile(cfg, snap, ports)
    ensures Matches(Plain(POLICY_DEFAULT), p)
  {
    assert DefaultFlows(cfg)[1] == Plain(POLICY_DEFAULT);
    Members(cfg, snap, ports, Plain(POLICY_DEFAULT));
  }

  lemma ReachedMeaning(cfg: Config, snap: Snapshot, p: Payload)
    requires p.IPv4?
    ensures Reached(1100, cfg, snap, p) <==> Excepted(cfg, snap, p)
    ensures Reached(1000, cfg, snap, p) <==> Allowed(cfg, snap, p)
    ensures Reached(100, cfg, snap, p) <==> Concerned(cfg, snap, p)
  {
    if Excepted(cfg, snap, p) {
      var policy :| policy in snap.policies
        && (Excepts(Ingress, cfg, snap, policy, p) || Excepts(Egress, cfg, snap, policy, p));
      assert Reaches(1100, cfg, snap, policy, p);
    }
    if Allowed(cfg, snap, p) {
      var policy :| policy in snap.policies
        && (Allows(Ingress, cfg, snap, policy, p) || Allows(Egress, cfg, snap, policy, p));
      assert Reaches(1000, cfg, snap, policy, p);
    }
    if Concerned(cfg, snap, p) {
      var policy :| policy in snap.policies && Concerns(cfg, snap, policy, p);
      assert Reaches(100, cfg, snap, policy, p);
    }
  }

  /** The verdict, for every cluster state, every IPv4 packet and every way the
      switch may choose among entries of equal priority. */
  lemma Verdict(cfg: Config, snap: Snapshot, ports: Ports, p: Packet, e: Entry)
    requires p.payload.IPv4?
    requires Selects(Compile(cfg, snap, ports), TABLE_NETWORK_POLICIES, p, e)
    ensures Act(e, p) == if Denied(cfg, snap, p.payload) then Done(Dropped) else Goto(TABLE_CLASSIFICATION, p)
  {
    MatchedIsReached(cfg, snap, ports, p, e);
    ReachedMeaning(cfg, snap, p.payload);
    if Excepted(cfg, snap, p.payload) {
      var g := ReachedIsMatched(cfg, snap, ports, p, 1100);
    } else if Allowed(cfg, snap, p.payload) {
      var g := ReachedIsMatched(cfg, snap, ports, p, 1000);
    } else if Concerned(cfg, snap, p.payload) {
      var g := ReachedIsMatched(cfg, snap, ports, p, 100);
    }
  }

  /** Every packet that is not IPv4 passes, whatever the policies. */
  lemma OthersPass(cfg: Config, snap: Snapshot, ports: Ports, p: Packet, e: Entry)
    requires !p.payload.IPv4?
    requires Selects(Compile(cfg, snap, ports), TABLE_NETWORK_POLICIES, p, e)
    ensures Act(e, p) == Goto(TABLE_CLASSIFICATION, p)
  {
    PolicyTable(cfg, snap, ports, e);
    if policy :| policy in snap.policies && e in FlowsForPolicy(cfg, snap, policy) {
      PolicyInStrata(cfg, snap, policy);
    }
  }

  /** The policy table always has an answer. */
  lemma NeverMisses(cfg: Config, snap: Snapshot, ports: Ports, p: Packet)
    ensures !Misses(Compile(cfg, snap, ports), TABLE_NETWORK_POLICIES, p)
  {
    DefaultIsPresent(cfg, snap, ports, p);
  }

  // ----- Locality

  /** What one policy means depends on the pods and namespaces, not on the other policies. */
  lemma SameReach(cfg: Config, snap: Snapshot, other: Snapshot, policy: Policy, p: Payload)
    requires p.IPv4? && snap.pods == other.pods && snap.namespaces == other.namespaces
    ensures forall priority :: Reaches(priority, cfg, snap, policy, p) <==> Reaches(priority, cfg, other, policy, p)
  {
  }

  /** `more` has the policies of `snap` and, anywhere among them, `policy`. */
  ghost predicate AddsPolicy(snap: Snapshot, more: Snapshot, policy: Policy) {
    && more.pods == snap.pods && more.namespaces == snap.namespaces
    && forall q :: q in more.policies <==> q in snap.policies || q == policy
  }

  lemma LocalReach(cfg: Config, snap: Snapshot, more: Snapshot, policy: Policy, p: Payload, priority: int)
    requires p.IPv4? && AddsPolicy(snap, more, policy) && !Concerns(cfg, snap, policy, p)
    ensures Reached(priority, cfg, more, p) <==> Reached(priority, cfg, snap, p)
  {
    SameReach(cfg, snap, more, policy, p);
    assert !Reaches(priority, cfg, snap, policy, p);
    if Reached(priority, cfg, more, p) {
      var q :| q in more.policies && Reaches(priority, cfg, more, q, p);
      SameReach(cfg, snap, more, q, p);
    }
    if Reached(priority, cfg, snap, p) {
      var q :| q in snap.policies && Reaches(priority, cfg, snap, q, p);
      SameReach(cfg, snap, more, q, p);
    }
  }

  /** Adding or removing a policy changes the verdict only on IPv4 packets whose
      source or destination is a local pod that the policy selects. */
  lemma Locality(cfg: Config, snap: Snapshot, more: Snapshot, policy: Policy, p: Payload)
    requires p.IPv4? && AddsPolicy(snap, more, policy) && !Concerns(cfg, snap, policy, p)
    ensures Denied(cfg, more, p) <==> Denied(cfg, snap, p)
  {
    ReachedMeaning(cfg, snap, p);
    ReachedMeaning(cfg, more, p);
    LocalReach(cfg, snap, more, policy, p, 100);
    LocalReach(cfg, snap, more, policy, p, 1000);
    LocalReach(cfg, snap, more, policy, p, 1100);
  }

  /** In terms of the table: the same lookup result, however ties are resolved. */
  lemma TableLocality(cfg: Config, snap: Snapshot, more: Snapshot, policy: Policy, ports: Ports, otherPorts: Ports,
                      p: Packet, e: Entry, g: Entry)
    requires AddsPolicy(snap, more, policy) && (p.payload.IPv4? ==> !Concerns(cfg, snap, policy, p.payload))
    requires Selects(Compile(cfg, snap, ports), TABLE_NETWORK_POLICIES, p, e)
    requires Selects(Compile(cfg, more, otherPorts), TABLE_NETWORK_POLICIES, p, g)
    ensures Act(e, p) == Act(g, p)
  {
    if p.payload.IPv4? {
      Locality(cfg, snap, more, policy, p.payload);
      Verdict(cfg, snap, ports, p, e);
      Verdict(cfg, more, otherPorts, p, g);
    } else {
      OthersPass(cfg, snap, ports, p, e);
      OthersPass(cfg, more, otherPorts, p, g);
    }
  }

  // ----- Monotonicity

  predicate ExceptFree(rule: Rule) {
    forall peer :: peer in rule.peers && peer.ipBlock.Some? ==> peer.ipBlock.value.except == []
  }

  /** `bigger` is `policy` with further rules, none of which has an `Except` block. */
  ghost predicate Extends(policy: Policy, bigger: Policy) {
    && bigger.namespace == policy.namespace && bigger.podSelector == policy.podSelector
    && forall dir :: (&& (forall rule :: rule in Rules(dir, policy) ==> rule in Rules(dir, bigger))
                      && (forall rule :: rule in Rules(dir, bigger) && rule !in Rules(dir, policy) ==> ExceptFree(rule)))
  }

  ghost predicate HasExtension(q: Policy, policies: seq<Policy>) {
    exists r :: r in policies && Extends(q, r)
  }

  ghost predicate IsExtension(r: Policy, policies: seq<Policy>) {
    exists q :: q in policies && Extends(q, r)
  }

  /** The policies of `bigger` are those of `snap`, each possibly extended. */
  ghost predicate ExtendsPolicies(snap: Snapshot, bigger: Snapshot) {
    && bigger.pods == snap.pods && bigger.namespaces == snap.namespaces
    && (forall q {:trigger HasExtension(q, bigger.policies)} :: q in snap.policies ==> HasExtension(q, bigger.policies))
    && (forall r {:trigger IsExtension(r, snap.policies)} :: r in bigger.policies ==> IsExtension(r, snap.policies))
  }

  lemma ExtendedAllows(dir: Direction, cfg: Config, snap: Snapshot, bigger: Snapshot, q: Policy, r: Policy, p: Payload)
    requires p.IPv4? && bigger.pods == snap.pods && bigger.namespaces == snap.namespaces && Extends(q, r)
    ensures Allows(dir, cfg, snap, q, p) ==> Allows(dir, cfg, bigger, r, p)
  {
    if Allows(dir, cfg, snap, q, p) {
      var rule :| rule in Rules(dir, q) && RuleAllows(dir, snap, q, rule, p);
      assert rule in Rules(dir, r) && RuleAllows(dir, bigger, r, rule, p);
    }
  }

  lemma ExtendedExcepts(dir: Direction, cfg: Config, snap: Snapshot, bigger: Snapshot, q: Policy, r: Policy, p: Payload)
    requires p.IPv4? && bigger.pods == snap.pods && bigger.namespaces == snap.namespaces && Extends(q, r)
    ensures Excepts(dir, cfg, bigger, r, p) ==> Excepts(dir, cfg, snap, q, p)
  {
    if Excepts(dir, cfg, bigger, r, p) {
      var rule :| rule in Rules(dir, r) && RuleExcepts(dir, rule, p);
      assert !ExceptFree(rule);
    }
  }

  lemma ExtendedReach(cfg: Config, snap: Snapshot, bigger: Snapshot, q: Policy, r: Policy, p: Payload)
    requires p.IPv4? && bigger.pods == snap.pods && bigger.namespaces == snap.namespaces && Extends(q, r)
    ensures Reaches(1000, cfg, snap, q, p) ==> Reaches(1000, cfg, bigger, r, p)
    ensures Reaches(1100, cfg, bigger, r, p) ==> Reaches(1100, cfg, snap, q, p)
    ensures Reaches(100, cfg, bigger, r, p) ==> Reaches(100, cfg, snap, q, p)
  {
    ExtendedAllows(Ingress, cfg, snap, bigger, q, r, p);
    ExtendedAllows(Egress, cfg, snap, bigger, q, r, p);
    ExtendedExcepts(Ingress, cfg, snap, bigger, q, r, p);
    ExtendedExcepts(Egress, cfg, snap, bigger, q, r, p);
  }

  lemma ExtendedReached(cfg: Config, snap: Snapshot, bigger: Snapshot, p: Payload)
    requires p.IPv4? && ExtendsPolicies(snap, bigger)
    ensures Reached(1000, cfg, snap, p) ==> Reached(1000, cfg, bigger, p)
  {
    if Reached(1000, cfg, snap, p) {
      var q :| q in snap.policies && Reaches(1000, cfg, snap, q, p);
      assert HasExtension(q, bigger.policies);
      var r :| r in bigger.policies && Extends(q, r);
      ExtendedReach(cfg, snap, bigger, q, r, p);
    }
  }

  lemma ExtensionReached(cfg: Config, snap: Snapshot, bigger: Snapshot, p: Payload, priority: int)
    requires p.IPv4? && ExtendsPolicies(snap, bigger) && (priority == 1100 || priority == 100)
    ensures Reached(priority, cfg, bigger, p) ==> Reached(priority, cfg, snap, p)
  {
    if Reached(priority, cfg, bigger, p) {
      var r :| r in bigger.policies && Reaches(priority, cfg, bigger, r, p);
      assert IsExtension(r, snap.policies);
      var q :| q in snap.policies && Extends(q, r);
      ExtendedReach(cfg, snap, bigger, q, r, p);
    }
  }

  /** Adding `Except`-free rules never turns an allowed packet into a dropped one. */
  lemma Monotonicity(cfg: Config, snap: Snapshot, bigger: Snapshot, p: Payload)
    requires p.IPv4? && ExtendsPolicies(snap, bigger)
    ensures Denied(cfg, bigger, p) ==> Denied(cfg, snap, p)
  {
    ReachedMeaning(cfg, snap, p);
    ReachedMeaning(cfg, bigger, p);
    ExtendedReached(cfg, snap, bigger, p);
    ExtensionReached(cfg, snap, bigger, p, 1100);
    ExtensionReached(cfg, snap, bigger, p, 100);
  }

  /** In terms of the table: what passed still passes, unchanged. */
  lemma TableMonotonicity(cfg: Config, snap: Snapshot, bigger: Snapshot, ports: Ports, otherPorts: Ports,
                          p: Packet, e: Entry, g: Entry)
    requires ExtendsPolicies(snap, bigger)
    requires Selects(Compile(cfg, snap, ports), TABLE_NETWORK_POLICIES, p, e)
    requires Selects(Compile(cfg, bigger, otherPorts), TABLE_NETWORK_POLICIES, p, g)
    ensures Act(e, p) == Goto(TABLE_CLASSIFICATION, p) ==> Act(g, p) == Goto(TABLE_CLASSIFICATION, p)
  {
    if p.payload.IPv4? {
      Monotonicity(cfg, snap, bigger, p.payload);
      Verdict(cfg, snap, ports, p, e);
      Verdict(cfg, bigger, otherPorts, p, g);
    } else {
      OthersPass(cfg, bigger, otherPorts, p, g);
    }
  }

  // ----- Independence of order

  ghost predicate SameBlock(a: Option<IPBlock>, b: Option<IPBlock>) {
    if a.Some? && b.Some? then
      a.value.cidr == b.value.cidr && (forall c :: c in a.value.except <==> c in b.value.except)
    else a == b
  }

  ghost predicate SamePeer(a: Peer, b: Peer) {
    SameBlock(a.ipBlock, b.ipBlock) && a.podSelector == b.podSelector && a.namespaceSelector == b.namespaceSelector
  }

  ghost predicate HasSamePeer(x: Peer, peers: seq<Peer>) {
    exists y :: y in peers && SamePeer(x, y)
  }

  /** Every peer of `a` is, up to the order of its excepted blocks, one of `b`. */
  ghost predicate PeersWithin(a: seq<Peer>, b: seq<Peer>) {
    forall x {:trigger HasSamePeer(x, b)} :: x in a ==> HasSamePeer(x, b)
  }

  /** The same ports and peers, in any order. */
  ghost predicate SameRule(a: Rule, b: Rule) {
    && (forall port :: port in a.ports <==> port in b.ports)
    && PeersWithin(a.peers, b.peers) && PeersWithin(b.peers, a.peers)
  }

  ghost predicate HasSameRule(x: Rule, rules: seq<Rule>) {
    exists y :: y in rules && SameRule(x, y)
  }

  ghost predicate RulesWithin(a: seq<Rule>, b: seq<Rule>) {
    forall x {:trigger HasSameRule(x, b)} :: x in a ==> HasSameRule(x, b)
  }

  /** The same rules, in any order. */
  ghost predicate SamePolicy(a: Policy, b: Policy) {
    && a.namespace == b.namespace && a.podSelector == b.podSelector
    && RulesWithin(a.ingress, b.ingress) && RulesWithin(b.ingress, a.ingress)
    && RulesWithin(a.egress, b.egress) && RulesWithin(b.egress, a.egress)
  }

  ghost predicate HasSamePolicy(x: Policy, policies: seq<Policy>) {
    exists y :: y in policies && SamePolicy(x, y)
  }

  ghost predicate PoliciesWithin(a: seq<Policy>, b: seq<Policy>) {
    forall x {:trigger HasSamePolicy(x, b)} :: x in a ==> HasSamePolicy(x, b)
  }

  ghost predicate SameObjects(a: Snapshot, b: Snapshot) {
    && (forall pod :: pod in a.pods <==> pod in b.pods)
    && (forall n :: n in a.namespaces <==> n in b.namespaces)
  }

  /** Pods, namespaces and policies permuted, and within every policy its rules,
      their peers, ports and excepted blocks. */
  ghost predicate Reordered(a: Snapshot, b: Snapshot) {
    && SameObjects(a, b)
    && PoliciesWithin(a.policies, b.policies) && PoliciesWithin(b.policies, a.policies)
  }

  lemma SamePorts(ports: seq<PolicyPort>, otherPorts: seq<PolicyPort>, t: Transport)
    requires forall port :: port in ports <==> port in otherPorts
    ensures PortsAdmit(ports, t) <==> PortsAdmit(otherPorts, t)
  {
    assert ports != [] ==> ports[0] in otherPorts;
    assert otherPorts != [] ==> otherPorts[0] in ports;
  }

  lemma ReorderedPods(a: Snapshot, b: Snapshot, policy: Policy, other: Policy, x: Peer, y: Peer, ip: Ip)
    requires SameObjects(a, b) && SamePeer(x, y) && policy.namespace == other.namespace && x.podSelector.Some?
    ensures PeerHasPod(a, policy, x, ip) ==> PeerHasPod(b, other, y, ip)
  {
    if PeerHasPod(a, policy, x, ip) {
      var namespace, pod :|
        && InPeerNamespaces(a, policy, x, namespace)
        && pod in a.pods && Lists(namespace, x.podSelector.value, pod)
        && pod.ip != "" && Covers(pod.ip, ip);
      assert InPeerNamespaces(b, other, y, namespace);
    }
  }

  lemma ReorderedPeer(dir: Direction, a: Snapshot, b: Snapshot, policy: Policy, other: Policy,
                      ports: seq<PolicyPort>, otherPorts: seq<PolicyPort>, x: Peer, y: Peer, p: Payload)
    requires p.IPv4? && SameObjects(a, b) && SamePeer(x, y) && policy.namespace == other.namespace
    requires forall port :: port in ports <==> port in otherPorts
    ensures PeerAllows(dir, a, policy, ports, x, p) ==> PeerAllows(dir, b, other, otherPorts, y, p)
    ensures PeerExcepts(dir, x, p) ==> PeerExcepts(dir, y, p)
  {
    SamePorts(ports, otherPorts, p.transport);
    if x.podSelector.Some? {
      ReorderedPods(a, b, policy, other, x, y, PeerEnd(dir, p));
    }
  }

  lemma ReorderedRuleAllows(dir: Direction, a: Snapshot, b: Snapshot, policy: Policy, other: Policy,
                            x: Rule, y: Rule, p: Payload)
    requires p.IPv4? && SameObjects(a, b) && SameRule(x, y) && policy.namespace == other.namespace
    ensures RuleAllows(dir, a, policy, x, p) ==> RuleAllows(dir, b, other, y, p)
  {
    assert x.peers != [] ==> HasSamePeer(x.peers[0], y.peers);
    assert y.peers != [] ==> HasSamePeer(y.peers[0], x.peers);
    if RuleAllows(dir, a, policy, x, p) {
      if x.peers == [] {
        SamePorts(x.ports, y.ports, p.transport);
      } else {
        var peer :| peer in x.peers && PeerAllows(dir, a, policy, x.ports, peer, p);
        assert HasSamePeer(peer, y.peers);
        var peer' :| peer' in y.peers && SamePeer(peer, peer');
        ReorderedPeer(dir, a, b, policy, other, x.ports, y.ports, peer, peer', p);
      }
    }
  }

  lemma ReorderedRuleExcepts(dir: Direction, x: Rule, y: Rule, p: Payload)
    requires p.IPv4? && SameRule(x, y)
    ensures RuleExcepts(dir, x, p) ==> RuleExcepts(dir, y, p)
  {
    if RuleExcepts(dir, x, p) {
      var peer :| peer in x.peers && PeerExcepts(dir, peer, p);
      assert HasSamePeer(peer, y.peers);
      var peer' :| peer' in y.peers && SamePeer(peer, peer');
      assert PeerExcepts(dir, peer', p);
    }
  }

  lemma ReorderedAllows(dir: Direction, cfg: Config, a: Snapshot, b: Snapshot, x: Policy, y: Policy, p: Payload)
    requires p.IPv4? && SameObjects(a, b) && SamePolicy(x, y)
    ensures Allows(dir, cfg, a, x, p) ==> Allows(dir, cfg, b, y, p)
  {
    if Allows(dir, cfg, a, x, p) {
      var rule :| rule in Rules(dir, x) && RuleAllows(dir, a, x, rule, p);
      assert HasSameRule(rule, Rules(dir, y));
      var rule' :| rule' in Rules(dir, y) && SameRule(rule, rule');
      ReorderedRuleAllows(dir, a, b, x, y, rule, rule', p);
      assert Protects(cfg, b, y, ProtectedEnd(dir, p));
    }
  }

  lemma ReorderedExcepts(dir: Direction, cfg: Config, a: Snapshot, b: Snapshot, x: Policy, y: Policy, p: Payload)
    requires p.IPv4? && SameObjects(a, b) && SamePolicy(x, y)
    ensures Excepts(dir, cfg, a, x, p) ==> Excepts(dir, cfg, b, y, p)
  {
    if Excepts(dir, cfg, a, x, p) {
      var rule :| rule in Rules(dir, x) && RuleExcepts(dir, rule, p);
      assert HasSameRule(rule, Rules(dir, y));
      var rule' :| rule' in Rules(dir, y) && SameRule(rule, rule');
      ReorderedRuleExcepts(dir, rule, rule', p);
      assert Protects(cfg, b, y, ProtectedEnd(dir, p));
    }
  }

  lemma ReorderedConcerns(cfg: Config, a: Snapshot, b: Snapshot, x: Policy, y: Policy, p: Payload)
    requires p.IPv4? && SameObjects(a, b) && SamePolicy(x, y)
    ensures Concerns(cfg, a, x, p) ==> Concerns(cfg, b, y, p)
  {
  }

  lemma ReorderedReach(cfg: Config, a: Snapshot, b: Snapshot, x: Policy, y: Policy, p: Payload, priority: int)
    requires p.IPv4? && SameObjects(a, b) && SamePolicy(x, y)
    ensures Reaches(priority, cfg, a, x, p) ==> Reaches(priority, cfg, b, y, p)
  {
    ReorderedConcerns(cfg, a, b, x, y, p);
    ReorderedAllows(Ingress, cfg, a, b, x, y, p);
    ReorderedAllows(Egress, cfg, a, b, x, y, p);
    ReorderedExcepts(Ingress, cfg, a, b, x, y, p);
    ReorderedExcepts(Egress, cfg, a, b, x, y, p);
  }

  lemma ReorderedReached(priority: int, cfg: Config, a: Snapshot, b: Snapshot, p: Payload)
    requires p.IPv4? && Reordered(a, b)
    ensures Reached(priority, cfg, a, p) ==> Reached(priority, cfg, b, p)
  {
    if Reached(priority, cfg, a, p) {
      var x :| x in a.policies && Reaches(priority, cfg, a, x, p);
      assert HasSamePolicy(x, b.policies);
      var y :| y in b.policies && SamePolicy(x, y);
      ReorderedReach(cfg, a, b, x, y, p, priority);
    }
  }

  /** A permutation of the cluster objects changes no verdict. */
  lemma SameVerdict(cfg: Config, a: Snapshot, b: Snapshot, p: Payload)
    requires p.IPv4? && Reordered(a, b)
    ensures Denied(cfg, a, p) <==> Denied(cfg, b, p)
  {
    ReachedMeaning(cfg, a, p);
    ReachedMeaning(cfg, b, p);
    ReorderedReached(100, cfg, a, b, p);
    ReorderedReached(100, cfg, b, a, p);
    ReorderedReached(1000, cfg, a, b, p);
    ReorderedReached(1000, cfg, b, a, p);
    ReorderedReached(1100, cfg, a, b, p);
    ReorderedReached(1100, cfg, b, a, p);
  }

  /** No permutation of the cluster objects, and no way of resolving ties, changes
      what the policy table does with a packet. */
  lemma OrderIndependence(cfg: Config, a: Snapshot, b: Snapshot, ports: Ports, otherPorts: Ports, p: Packet,
                          e: Entry, g: Entry)
    requires Reordered(a, b)
    requires Selects(Compile(cfg, a, ports), TABLE_NETWORK_POLICIES, p, e)
    requires Selects(Compile(cfg, b, otherPorts), TABLE_NETWORK_POLICIES, p, g)
    ensures Act(e, p) == Act(g, p)
  {
    if p.payload.IPv4? {
      SameVerdict(cfg, a, b, p.payload);
      Verdict(cfg, a, ports, p, e);
      Verdict(cfg, b, otherPorts, p, g);
    } else {
      OthersPass(cfg, a, ports, p, e);
      OthersPass(cfg, b, otherPorts, p, g);
    }
  }
}
