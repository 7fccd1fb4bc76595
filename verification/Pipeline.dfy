/** Whole runs through the compiled pipeline of one node. */
module Pipeline {
  import opened Flows
  import opened Switch
  import opened Cluster
  import opened Compiler
  import opened Layout
  import opened PolicyMeaning
  import opened PolicyVerdict
  import opened Routing

  // ----- The entry table

  lemma EntryTable(cfg: Config, snap: Snapshot, ports: Ports, e: Entry)
    requires e in Compile(cfg, snap, ports) && e.Table() == TABLE_ENTRY
    ensures e == Plain(ENTRY_FLOW)
  {
    OtherTables(cfg, snap, ports, e);
    DefaultIsRegular(cfg, e);
  }

  lemma EntryNeverMisses(cfg: Config, snap: Snapshot, ports: Ports, p: Packet)
    ensures !Misses(Compile(cfg, snap, ports), TABLE_ENTRY, p)
  {
    DefaultFlow(cfg, snap, ports, 0);
    assert Matches(Plain(ENTRY_FLOW), p);
  }

  // ----- Termination

  /** `trace` is the sequence of the first lookups of some run. */
  ghost predicate Path(es: seq<Entry>, t: int, p: Packet, trace: seq<Entry>)
    decreases |trace|
  {
    trace == [] ||
    (&& Selects(es, t, p, trace[0])
     && match Act(trace[0], p)
        case Done(_) => |trace| == 1
        case Goto(t', p') => Path(es, t', p', trace[1..]))
  }

  /** A complete run is such a sequence. */
  lemma {:induction false} RunIsPath(es: seq<Entry>, t: int, p: Packet, trace: seq<Entry>, o: Outcome)
    requires Runs(es, t, p, trace, o)
    ensures Path(es, t, p, trace)
    decreases |trace|
  {
    if trace != [] {
      var next := Act(trace[0], p);
      if next.Goto? {
        RunIsPath(es, next.table, next.packet, trace[1..], o);
      }
    }
  }

  /** How many lookups can still follow from a table. */
  function Remaining(t: int): nat {
    if t <= 0 then 5 else if t <= 10 then 4 else if t <= 20 then 3 else if t <= 30 then 2 else 1
  }

  /** Every lookup that hands the packet on leaves fewer lookups to follow. */
  ghost predicate Staged(es: seq<Entry>) {
    forall t, p, e :: Selects(es, t, p, e) && Act(e, p).Goto? ==> Remaining(Act(e, p).table) < Remaining(t)
  }

  lemma CompiledIsStaged(cfg: Config, snap: Snapshot, ports: Ports)
    ensures Staged(Compile(cfg, snap, ports))
  {
    forall t, p, e | Selects(Compile(cfg, snap, ports), t, p, e) && Act(e, p).Goto?
      ensures Remaining(Act(e, p).table) < Remaining(t)
    {
      HandsOn(cfg, snap, ports, t, p, e);
    }
  }

  lemma {:induction false} LookupsBounded(es: seq<Entry>, t: int, p: Packet, trace: seq<Entry>)
    requires Staged(es) && Path(es, t, p, trace)
    ensures |trace| <= Remaining(t)
    decreases |trace|
  {
    if |trace| > 1 {
      var next := Act(trace[0], p);
      LookupsBounded(es, next.table, next.packet, trace[1..]);
    }
  }

  /** No packet is looked up more than five times, finished or not. */
  lemma FiveLookups(cfg: Config, snap: Snapshot, ports: Ports, p: Packet, trace: seq<Entry>)
    requires Path(Compile(cfg, snap, ports), TABLE_ENTRY, p, trace)
    ensures |trace| <= 5
  {
    CompiledIsStaged(cfg, snap, ports);
    LookupsBounded(Compile(cfg, snap, ports), TABLE_ENTRY, p, trace);
  }

  lemma SomeRun(cfg: Config, snap: Snapshot, ports: Ports, p: Packet)
    ensures exists trace, o :: Runs(Compile(cfg, snap, ports), TABLE_ENTRY, p, trace, o)
  {
    var es := Compile(cfg, snap, ports);
    forall e | e in es && e.Plain? && e.flow.resubmit != 0 ensures e.Table() < e.flow.resubmit <= 100 {
      Shape(cfg, snap, ports, e);
    }
    RunsExist(es, TABLE_ENTRY, p, 100);
  }

  /** Every run of every packet from the entry table ends within five lookups, and there is one. */
  lemma Termination(cfg: Config, snap: Snapshot, ports: Ports, p: Packet)
    ensures forall trace, o :: Runs(Compile(cfg, snap, ports), TABLE_ENTRY, p, trace, o) ==> |trace| <= 5
    ensures exists trace, o :: Runs(Compile(cfg, snap, ports), TABLE_ENTRY, p, trace, o)
  {
    forall trace, o | Runs(Compile(cfg, snap, ports), TABLE_ENTRY, p, trace, o) ensures |trace| <= 5 {
      RunIsPath(Compile(cfg, snap, ports), TABLE_ENTRY, p, trace, o);
      FiveLookups(cfg, snap, ports, p, trace);
    }
    SomeRun(cfg, snap, ports, p);
  }

  // ----- The dead entry

  /** The flow that the node's own config adds to the forwarding table. */
  function OwnForwarder(cfg: Config): Entry {
    Plain(ForwardingFlow(100, cfg.podCIDR).(resubmit := TABLE_L2_REWRITES))
  }

  /** The classification table never sends the node's own subnet to the forwarding table. */
  lemma OwnSubnetStays(cfg: Config, snap: Snapshot, ports: Ports, p: Packet, e: Entry)
    requires p.payload.IPv4? && AddressMatches(cfg.podCIDR, p.payload.dst)
    requires Selects(Compile(cfg, snap, ports), TABLE_CLASSIFICATION, p, e)
    ensures Act(e, p) != Goto(TABLE_L3_FORWARDING, p)
  {
    Classifiers(cfg, snap, ports, p, e);
    SubnetFloor(cfg, snap, ports, p, e);
  }

  /** The packet may be at this table of a run from the entry table. */
  predicate Plausible(cfg: Config, t: int, p: Packet) {
    t == TABLE_L3_FORWARDING && p.payload.IPv4? ==> !AddressMatches(cfg.podCIDR, p.payload.dst)
  }

  lemma StaysPlausible(cfg: Config, snap: Snapshot, ports: Ports, t: int, p: Packet, e: Entry)
    requires Selects(Compile(cfg, snap, ports), t, p, e) && Act(e, p).Goto?
    ensures Plausible(cfg, Act(e, p).table, Act(e, p).packet)
  {
    HandsOn(cfg, snap, ports, t, p, e);
    if t == TABLE_CLASSIFICATION {
      if p.payload.IPv4? && AddressMatches(cfg.podCIDR, p.payload.dst) {
        OwnSubnetStays(cfg, snap, ports, p, e);
      }
    } else if t == TABLE_NETWORK_POLICIES {
      if p.payload.IPv4? {
        Verdict(cfg, snap, ports, p, e);
      } else {
        OthersPass(cfg, snap, ports, p, e);
      }
    } else if t == TABLE_ENTRY {
      EntryTable(cfg, snap, ports, e);
    }
  }

  lemma {:induction false} NeverSelectedFrom(cfg: Config, snap: Snapshot, ports: Ports, t: int, p: Packet, trace: seq<Entry>)
    requires Path(Compile(cfg, snap, ports), t, p, trace) && Plausible(cfg, t, p)
    ensures OwnForwarder(cfg) !in trace
    decreases |trace|
  {
    if trace != [] {
      NotOwnForwarder(cfg, snap, ports, t, p, trace[0]);
      assert trace == [trace[0]] + trace[1..];
      var next := Act(trace[0], p);
      if next.Goto? {
        StaysPlausible(cfg, snap, ports, t, p, trace[0]);
        NeverSelectedFrom(cfg, snap, ports, next.table, next.packet, trace[1..]);
      }
    }
  }

  lemma NotOwnForwarder(cfg: Config, snap: Snapshot, ports: Ports, t: int, p: Packet, e: Entry)
    requires Selects(Compile(cfg, snap, ports), t, p, e) && Plausible(cfg, t, p)
    ensures e != OwnForwarder(cfg)
  {
  }

  /** The forwarding entry for the controller's own pod CIDR is dead: no run from the
      entry table selects it, whatever the packet and the tie-break. */
  lemma OwnForwarderIsDead(cfg: Config, snap: Snapshot, ports: Ports, p: Packet, trace: seq<Entry>, o: Outcome)
    requires Runs(Compile(cfg, snap, ports), TABLE_ENTRY, p, trace, o)
    ensures OwnForwarder(cfg) !in trace
  {
    RunIsPath(Compile(cfg, snap, ports), TABLE_ENTRY, p, trace, o);
    NeverSelectedFrom(cfg, snap, ports, TABLE_ENTRY, p, trace);
  }

  // ----- Routing, whatever the tie-break

  lemma DeliverRun(cfg: Config, snap: Snapshot, ports: Ports, p: Packet, trace: seq<Entry>, o: Outcome)
    requires p.payload.IPv4? && Addressed(cfg, snap)
    requires Runs(Compile(cfg, snap, ports), TABLE_L2_REWRITES, p, trace, o)
    ensures o == RouteToPod(cfg, snap, ports, p)
  {
    if trace == [] {
      Deliver60Miss(cfg, snap, ports, p);
    } else {
      Deliver60(cfg, snap, ports, p, trace[0]);
    }
  }

  lemma ForwardRun(cfg: Config, snap: Snapshot, ports: Ports, p: Packet, trace: seq<Entry>, o: Outcome)
    requires p.payload.IPv4? && Addressed(cfg, snap)
    requires Classification(cfg, snap, p) == Goto(TABLE_L3_FORWARDING, p)
    requires Runs(Compile(cfg, snap, ports), TABLE_L3_FORWARDING, p, trace, o)
    ensures o == Route(cfg, snap, ports, p)
  {
    if trace == [] {
      Forward30Miss(cfg, snap, ports, p);
    } else {
      Forward30(cfg, snap, ports, p, trace[0]);
    }
  }

  /** Tables 20, 30 and 60 compute the routing function, for every IPv4 packet and
      every way of resolving ties. */
  lemma RoutingRefined(cfg: Config, snap: Snapshot, ports: Ports, p: Packet, trace: seq<Entry>, o: Outcome)
    requires p.payload.IPv4? && Addressed(cfg, snap)
    requires Runs(Compile(cfg, snap, ports), TABLE_CLASSIFICATION, p, trace, o)
    ensures o == Route(cfg, snap, ports, p)
  {
    if trace == [] {
      ClassifierNeverMisses(cfg, snap, ports, p);
      assert false;
    }
    Classify(cfg, snap, ports, p, trace[0]);
    match Act(trace[0], p)
    case Done(_) =>
    case Goto(t', p') =>
      if t' == TABLE_L2_REWRITES {
        DeliverRun(cfg, snap, ports, p, trace[1..], o);
      } else {
        ForwardRun(cfg, snap, ports, p, trace[1..], o);
      }
  }

  lemma AfterPolicies(cfg: Config, snap: Snapshot, ports: Ports, p: Packet, trace: seq<Entry>, o: Outcome)
    requires Runs(Compile(cfg, snap, ports), TABLE_ENTRY, p, trace, o)
    ensures |trace| >= 2
    ensures Selects(Compile(cfg, snap, ports), TABLE_NETWORK_POLICIES, p, trace[1])
    ensures Runs(Compile(cfg, snap, ports), TABLE_NETWORK_POLICIES, p, trace[1..], o)
  {
    var es := Compile(cfg, snap, ports);
    EntryNeverMisses(cfg, snap, ports, p);
    EntryTable(cfg, snap, ports, trace[0]);
    NeverMisses(cfg, snap, ports, p);
  }

  /** The whole pipeline: the policies decide, then the routing function applies. */
  lemma Forwarding(cfg: Config, snap: Snapshot, ports: Ports, p: Packet, trace: seq<Entry>, o: Outcome)
    requires p.payload.IPv4? && Addressed(cfg, snap)
    requires Runs(Compile(cfg, snap, ports), TABLE_ENTRY, p, trace, o)
    ensures o == if Denied(cfg, snap, p.payload) then Dropped else Route(cfg, snap, ports, p)
  {
    AfterPolicies(cfg, snap, ports, p, trace, o);
    Verdict(cfg, snap, ports, p, trace[1]);
    if !Denied(cfg, snap, p.payload) {
      RoutingRefined(cfg, snap, ports, p, trace[1..][1..], o);
    }
  }
}
