/** Which packets the flow of a policy port matches, in terms of the number or text that
    the policy gives. */
module PolicyPorts {
  import opened Text
  import opened Flows
  import opened Switch
  import opened Cluster
  import opened Compiler
  import opened PolicyMeaning
  import opened PolicyVerdict

  // ----- Names of protocols

  predicate Letter(c: char, lower: char, upper: char) {
    c == lower || c == upper
  }

  /** `tcp` in any mixture of cases. */
  predicate NamesTCP(s: string) {
    |s| == 3 && Letter(s[0], 't', 'T') && Letter(s[1], 'c', 'C') && Letter(s[2], 'p', 'P')
  }

  predicate NamesUDP(s: string) {
    |s| == 3 && Letter(s[0], 'u', 'U') && Letter(s[1], 'd', 'D') && Letter(s[2], 'p', 'P')
  }

  lemma LowerCase(s: string)
    ensures |ToLower(s)| == |s|
    ensures forall i :: 0 <= i < |s| ==>
              ToLower(s)[i] == if 'A' <= s[i] <= 'Z' then ((s[i] as int) + 32) as char else s[i]
  {
  }

  lemma ProtocolsAreNamed(s: string)
    ensures ToLower(s) == "tcp" <==> NamesTCP(s)
    ensures ToLower(s) == "udp" <==> NamesUDP(s)
  {
    LowerCase(s);
    if |s| == 3 {
      var l := ToLower(s);
      assert l == [l[0], l[1], l[2]];
    }
  }

  // ----- Numbers as text

  /** The nearest number that 64 bits hold. */
  function Clamp(n: int): int {
    if n > MAX_INT then MAX_INT else if n < -MAX_INT - 1 then -MAX_INT - 1 else n
  }

  lemma AtoiOfSigned(sign: char, n: nat)
    requires sign == '+' || sign == '-'
    ensures Atoi([sign] + NatText(n)) == Clamp(if sign == '-' then -(n as int) else n)
  {
    ReadNatText(n);
    assert ([sign] + NatText(n))[1..] == NatText(n);
  }

  /** `strconv.Atoi` of a number in digits is that number as far as 64 bits reach; with a
      sign, `AtoiOfSigned`. */
  lemma AtoiOfDigits(n: nat)
    ensures Atoi(NatText(n)) == Clamp(n)
  {
    ReadNatText(n);
    assert NatText(n)[0] in NatText(n);
  }

  /** Position `i` holds what belongs to no number. */
  predicate Breaks(s: string, i: nat)
    requires i < |s|
  {
    !IsDigit(s[i]) && (i == 0 ==> s[i] != '+' && s[i] != '-')
  }

  /** The text of no number: nothing, a mere sign, or something with another character. */
  predicate NoNumber(s: string) {
    s == "" || s == "+" || s == "-" || exists i :: 0 <= i < |s| && Breaks(s, i)
  }

  lemma {:induction false} NonDigitReadsNone(s: string, i: nat)
    requires i < |s| && !IsDigit(s[i])
    ensures ReadNat(s).None?
  {
    if i < |s| - 1 {
      NonDigitReadsNone(s[..|s| - 1], i);
    }
  }

  lemma AtoiOfNoNumber(s: string)
    requires NoNumber(s)
    ensures Atoi(s) == 0
  {
    if i :| 0 <= i < |s| && Breaks(s, i) {
      if s[0] == '+' || s[0] == '-' {
        NonDigitReadsNone(s[1..], i - 1);
      } else {
        NonDigitReadsNone(s, i);
      }
    }
  }

  // ----- The flow of a port

  /** The addresses of the flow match the packet: the pod is the destination of ingress
      and the source of egress traffic. */
  predicate EndsMatch(dir: Direction, local: string, peer: string, p: Payload)
    requires p.IPv4?
  {
    match dir
    case Ingress => AddressMatches(local, p.dst) && AddressMatches(peer, p.src)
    case Egress => AddressMatches(local, p.src) && AddressMatches(peer, p.dst)
  }

  predicate IsTCPTo(t: Transport, n: int) {
    t.TCP? && t.dst == n
  }

  predicate IsUDPTo(t: Transport, n: int) {
    t.UDP? && t.dst == n
  }

  lemma PortHitsIff(dir: Direction, local: string, peer: string, port: PolicyPort, p: Packet)
    requires p.payload.IPv4?
    ensures Hits(AllowPort(dir, local, peer, port), 1000, p)
            <==> EndsMatch(dir, local, peer, p.payload) && PortAdmits(port, p.payload.transport)
  {
    AllowPortHits(dir, local, peer, port, 1000, p);
  }

  /** A port number other than 0, given as a number or as its digits, admits the packets of
      the named protocol to that port and no other. */
  lemma NumberedPort(dir: Direction, local: string, peer: string, protocol: string, n: int, p: Packet)
    requires p.payload.IPv4? && 0 < n <= 65535
    ensures NamesTCP(protocol) ==>
              (Hits(AllowPort(dir, local, peer, PolicyPort(protocol, IntVal(n))), 1000, p)
               <==> EndsMatch(dir, local, peer, p.payload) && IsTCPTo(p.payload.transport, n))
    ensures NamesUDP(protocol) ==>
              (Hits(AllowPort(dir, local, peer, PolicyPort(protocol, IntVal(n))), 1000, p)
               <==> EndsMatch(dir, local, peer, p.payload) && IsUDPTo(p.payload.transport, n))
  {
    ProtocolsAreNamed(protocol);
    PortHitsIff(dir, local, peer, PolicyPort(protocol, IntVal(n)), p);
  }

  lemma DigitsPort(dir: Direction, local: string, peer: string, protocol: string, n: int, p: Packet)
    requires p.payload.IPv4? && 0 < n <= 65535
    ensures NamesTCP(protocol) ==>
              (Hits(AllowPort(dir, local, peer, PolicyPort(protocol, StrVal(NatText(n)))), 1000, p)
               <==> EndsMatch(dir, local, peer, p.payload) && IsTCPTo(p.payload.transport, n))
    ensures NamesUDP(protocol) ==>
              (Hits(AllowPort(dir, local, peer, PolicyPort(protocol, StrVal(NatText(n)))), 1000, p)
               <==> EndsMatch(dir, local, peer, p.payload) && IsUDPTo(p.payload.transport, n))
  {
    ProtocolsAreNamed(protocol);
    AtoiOfDigits(n);
    PortHitsIff(dir, local, peer, PolicyPort(protocol, StrVal(NatText(n))), p);
  }

  /** A port text that is no number, such as a name, admits every port of the protocol. */
  lemma NamedPort(dir: Direction, local: string, peer: string, protocol: string, name: string, p: Packet)
    requires p.payload.IPv4? && NoNumber(name)
    ensures NamesTCP(protocol) ==>
              (Hits(AllowPort(dir, local, peer, PolicyPort(protocol, StrVal(name))), 1000, p)
               <==> EndsMatch(dir, local, peer, p.payload) && p.payload.transport.TCP?)
    ensures NamesUDP(protocol) ==>
              (Hits(AllowPort(dir, local, peer, PolicyPort(protocol, StrVal(name))), 1000, p)
               <==> EndsMatch(dir, local, peer, p.payload) && p.payload.transport.UDP?)
  {
    ProtocolsAreNamed(protocol);
    AtoiOfNoNumber(name);
    PortHitsIff(dir, local, peer, PolicyPort(protocol, StrVal(name)), p);
  }

  /** So does port 0. */
  lemma ZeroPort(dir: Direction, local: string, peer: string, protocol: string, p: Packet)
    requires p.payload.IPv4?
    ensures NamesTCP(protocol) ==>
              (Hits(AllowPort(dir, local, peer, PolicyPort(protocol, IntVal(0))), 1000, p)
               <==> EndsMatch(dir, local, peer, p.payload) && p.payload.transport.TCP?)
    ensures NamesUDP(protocol) ==>
              (Hits(AllowPort(dir, local, peer, PolicyPort(protocol, IntVal(0))), 1000, p)
               <==> EndsMatch(dir, local, peer, p.payload) && p.payload.transport.UDP?)
  {
    ProtocolsAreNamed(protocol);
    PortHitsIff(dir, local, peer, PolicyPort(protocol, IntVal(0)), p);
  }

  /** Every other protocol yields no flow at all. */
  lemma OtherProtocols(dir: Direction, local: string, peer: string, port: PolicyPort)
    ensures AllowPort(dir, local, peer, port) == [] <==> !NamesTCP(port.protocol) && !NamesUDP(port.protocol)
  {
    ProtocolsAreNamed(port.protocol);
  }

  // ----- One port, through the whole table

  /** A policy whose single ingress rule names one port and no peers. */
  function OnePort(namespace: string, selector: Labels, protocol: string, n: int): Policy {
    Policy(namespace, "one-port", selector, [Rule([PolicyPort(protocol, IntVal(n))], [])], [])
  }

  lemma OnePortAllows(cfg: Config, snap: Snapshot, policy: Policy, port: PolicyPort, p: Payload)
    requires p.IPv4? && policy.ingress == [Rule([port], [])] && policy.egress == []
    ensures Allows(Ingress, cfg, snap, policy, p) <==> Protects(cfg, snap, policy, p.dst) && PortAdmits(port, p.transport)
    ensures !Allows(Egress, cfg, snap, policy, p)
    ensures !Excepts(Ingress, cfg, snap, policy, p) && !Excepts(Egress, cfg, snap, policy, p)
  {
    var rule := Rule([port], []);
    assert rule in Rules(Ingress, policy) && port in rule.ports;
    assert RuleAllows(Ingress, snap, policy, rule, p) <==> PortAdmits(port, p.transport);
  }

  lemma OnePortDenies(cfg: Config, snap: Snapshot, policy: Policy, port: PolicyPort, p: Payload)
    requires p.IPv4? && snap.policies == [policy] && policy.ingress == [Rule([port], [])] && policy.egress == []
    requires Protects(cfg, snap, policy, p.dst)
    ensures Denied(cfg, snap, p) <==> !PortAdmits(port, p.transport)
  {
    OnePortAllows(cfg, snap, policy, port, p);
    assert policy in snap.policies && Concerns(cfg, snap, policy, p);
  }

  lemma OnePortAdmits(protocol: string, n: int, t: Transport)
    requires 0 < n <= 65535 && (NamesTCP(protocol) || NamesUDP(protocol))
    ensures PortAdmits(PolicyPort(protocol, IntVal(n)), t)
            <==> if NamesTCP(protocol) then IsTCPTo(t, n) else IsUDPTo(t, n)
  {
    ProtocolsAreNamed(protocol);
  }

  /** With that policy alone, a packet for a pod it selects passes table 10 exactly when it is
      of that protocol and to that port. */
  lemma OnePortVerdict(cfg: Config, snap: Snapshot, ports: Ports, namespace: string, selector: Labels,
                       protocol: string, n: int, p: Packet, e: Entry)
    requires p.payload.IPv4? && 0 < n <= 65535 && (NamesTCP(protocol) || NamesUDP(protocol))
    requires snap.policies == [OnePort(namespace, selector, protocol, n)]
    requires Protects(cfg, snap, snap.policies[0], p.payload.dst)
    requires Selects(Compile(cfg, snap, ports), TABLE_NETWORK_POLICIES, p, e)
    ensures var t := p.payload.transport;
            var passes := if NamesTCP(protocol) then IsTCPTo(t, n) else IsUDPTo(t, n);
            Act(e, p) == if passes then Goto(TABLE_CLASSIFICATION, p) else Done(Dropped)
  {
    OnePortDenies(cfg, snap, snap.policies[0], PolicyPort(protocol, IntVal(n)), p.payload);
    OnePortAdmits(protocol, n, p.payload.transport);
    Verdict(cfg, snap, ports, p, e);
  }
}
