/** What the installed flows do to a packet: OpenFlow Switch Specification 1.3.0,
    sections 5.1 (pipeline), 5.3 (matching) and 5.4 (table miss). */
module Switch {
  import opened Collections
  import opened Addresses
  import opened Flows

  datatype Transport = TCP(src: int, dst: int) | UDP(src: int, dst: int) | OtherTransport

  datatype Payload =
    | IPv4(src: Ip, dst: Ip, transport: Transport)
    | ARP(op: int, sha: string, spa: Ip, tha: string, tpa: Ip)
    | OtherEther

  datatype Packet = Packet(dlSrc: string, dlDst: string, tunDst: Option<Ip>, payload: Payload)

  // ----- Matching

  predicate ProtocolMatches(protocol: string, p: Payload) {
    if protocol == "" then true
    else if protocol == "ip" then p.IPv4?
    else if protocol == "tcp" then p.IPv4? && p.transport.TCP?
    else if protocol == "udp" then p.IPv4? && p.transport.UDP?
    else protocol == "arp" && p.ARP?
  }

  /** An elided address matches everything. */
  predicate AddressMatches(field: string, ip: Ip) {
    field == "" || Covers(field, ip)
  }

  /** An elided port matches everything. */
  predicate PortMatches(field: int, port: int) {
    field == 0 || field == port
  }

  predicate FlowMatches(f: FlowSpec, p: Payload) {
    && ProtocolMatches(f.protocol, p)
    && (if p.IPv4? then AddressMatches(f.ipDest, p.dst) && AddressMatches(f.ipSrc, p.src)
        else f.ipDest == "" && f.ipSrc == "")
    && (if p.ARP? then AddressMatches(f.arpDest, p.tpa) && AddressMatches(f.arpSrc, p.spa)
        else f.arpDest == "" && f.arpSrc == "")
    && (if p.IPv4? && p.transport.TCP?
        then PortMatches(f.tcpDestPort, p.transport.dst) && PortMatches(f.tcpSrcPort, p.transport.src)
        else f.tcpDestPort == 0 && f.tcpSrcPort == 0)
    && (if p.IPv4? && p.transport.UDP?
        then PortMatches(f.udpDestPort, p.transport.dst) && PortMatches(f.udpSrcPort, p.transport.src)
        else f.udpDestPort == 0 && f.udpSrcPort == 0)
  }

  predicate Matches(e: Entry, p: Packet) {
    match e
    case Plain(f) => FlowMatches(f, p.payload)
    case Arp(r) => p.payload.ARP? && Covers(r.target, p.payload.tpa)
  }

  /** Entry `e` may be the one that table `t` selects for `p`: it matches, and no
      matching entry has a higher priority. Among entries of equal priority the
      choice is left open. */
  ghost predicate Selects(es: seq<Entry>, t: int, p: Packet, e: Entry) {
    && e in es && e.Table() == t && Matches(e, p)
    && forall g :: g in es && g.Table() == t && Matches(g, p) ==> g.Priority() <= e.Priority()
  }

  ghost predicate Misses(es: seq<Entry>, t: int, p: Packet) {
    forall e :: e in es && e.Table() == t ==> !Matches(e, p)
  }

  // ----- Actions

  datatype Port = Numbered(n: int) | LocalPort | IngressPort

  datatype Outcome = Dropped | Sent(port: Port, packet: Packet)

  datatype Next = Goto(table: int, packet: Packet) | Done(outcome: Outcome)

  /** No flow both sends a packet and hands it on, or does either twice. */
  predicate SingleAction(f: FlowSpec) {
    && (f.output != 0 ==> f.resubmit == 0 && !f.drop && !f.local)
    && (f.resubmit != 0 ==> !f.drop && !f.local)
    && (f.drop ==> !f.local)
  }

  /** The two rewriting actions, carried out before any output. */
  function Rewrite(f: FlowSpec, p: Packet): Packet {
    var q := if f.modDlDest != "" then p.(dlDst := f.modDlDest) else p;
    if f.tunDest != "" then q.(tunDst := ParseIP(f.tunDest)) else q
  }

  function ActPlain(f: FlowSpec, p: Packet): Next {
    var q := Rewrite(f, p);
    if f.output != 0 then Done(Sent(Numbered(f.output), q))
    else if f.resubmit != 0 then Goto(f.resubmit, q)
    else if f.local then Done(Sent(LocalPort, q))
    else Done(Dropped)
  }

  /** One rewriting action of a responder. */
  function ActArp(a: ArpAction, p: Packet): Packet
    requires p.payload.ARP?
    ensures ActArp(a, p).payload.ARP?
  {
    var r := p.payload;
    match a
    case MoveEthSrcToEthDst => p.(dlDst := p.dlSrc)
    case ModDlSrc(mac) => p.(dlSrc := mac)
    case LoadReplyOp => p.(payload := r.(op := 2))
    case MoveShaToTha => p.(payload := r.(tha := r.sha))
    case MoveSpaToTpa => p.(payload := r.(tpa := r.spa))
    case MoveTpaToSpa => p.(payload := r.(spa := r.tpa))
    case SetSha(mac) => p.(payload := r.(sha := mac))
    case SetSpa(ip) => if ParseIP(ip).Some? then p.(payload := r.(spa := ParseIP(ip).value)) else p
    case InPort => p
  }

  /** The actions in sequence, each seeing what the previous ones left. */
  function ActAll(actions: seq<ArpAction>, p: Packet): (q: Packet)
    requires p.payload.ARP?
    ensures q.payload.ARP?
  {
    if actions == [] then p else ActAll(actions[1..], ActArp(actions[0], p))
  }

  function Act(e: Entry, p: Packet): Next
    requires Matches(e, p)
  {
    match e
    case Plain(f) => ActPlain(f, p)
    case Arp(r) =>
      if ArpAction.InPort in r.actions then Done(Sent(IngressPort, ActAll(r.actions, p))) else Done(Dropped)
  }

  // ----- Runs through the pipeline

  /** `trace` is the sequence of entries selected for `p` from table `t` on, and
      `o` is what becomes of the packet. */
  ghost predicate Runs(es: seq<Entry>, t: int, p: Packet, trace: seq<Entry>, o: Outcome)
    decreases |trace|
  {
    if trace == [] then Misses(es, t, p) && o == Dropped
    else
      && Selects(es, t, p, trace[0])
      && match Act(trace[0], p)
         case Done(o') => |trace| == 1 && o == o'
         case Goto(t', p') => Runs(es, t', p', trace[1..], o)
  }

  /** Some run sends `p` to outcome `o`. */
  ghost predicate Yields(es: seq<Entry>, t: int, p: Packet, o: Outcome) {
    exists trace :: Runs(es, t, p, trace, o)
  }

  /** Every table has a candidate for the packet, or none matches. */
  lemma {:induction false} SomeSelection(es: seq<Entry>, t: int, p: Packet)
    ensures Misses(es, t, p) || exists e :: Selects(es, t, p, e)
  {
    if es != [] {
      var init, last := es[..|es| - 1], es[|es| - 1];
      assert es == init + [last];
      SomeSelection(init, t, p);
      if last.Table() == t && Matches(last, p) {
        if Misses(init, t, p) {
          assert Selects(es, t, p, last);
        } else {
          var e :| Selects(init, t, p, e);
          if e.Priority() <= last.Priority() {
            assert Selects(es, t, p, last);
          } else {
            assert Selects(es, t, p, e);
          }
        }
      } else if !Misses(init, t, p) {
        var e :| Selects(init, t, p, e);
        assert Selects(es, t, p, e);
      }
    }
  }

  /** Flows hand packets only to later tables, up to table `last`. */
  ghost predicate Forward(es: seq<Entry>, last: int) {
    forall e :: e in es && e.Plain? && e.flow.resubmit != 0 ==> e.Table() < e.flow.resubmit <= last
  }

  /** In a forward pipeline every packet has a run. */
  lemma {:induction false} RunsExist(es: seq<Entry>, t: int, p: Packet, last: int)
    requires Forward(es, last) && t <= last
    ensures exists trace, o :: Runs(es, t, p, trace, o)
    decreases last - t
  {
    SomeSelection(es, t, p);
    if Misses(es, t, p) {
      assert Runs(es, t, p, [], Dropped);
    } else {
      var e :| Selects(es, t, p, e);
      match Act(e, p)
      case Done(o) =>
        assert Runs(es, t, p, [e], o);
      case Goto(t', p') =>
        RunsExist(es, t', p', last);
        var trace, o :| Runs(es, t', p', trace, o);
        assert ([e] + trace)[1..] == trace;
        assert Runs(es, t, p, [e] + trace, o);
    }
  }
}
