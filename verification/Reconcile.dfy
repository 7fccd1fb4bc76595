/** The controller that keeps one vswitch config per node, and what its configs
    guarantee to the flow compiler. */
module Reconcile {
  import opened Collections
  import opened Addresses
  import opened Flows
  import opened FlowReader
  import opened Switch
  import opened Cluster
  import opened Compiler

  datatype AddressType = InternalIP | ExternalIP | OtherAddress

  datatype NodeAddress = NodeAddress(kind: AddressType, address: string)

  datatype Node = Node(name: string, podCIDR: string, addresses: seq<NodeAddress>)

  datatype Result<+T> = Ok(value: T) | Failed

  /** What the controller is started with. */
  datatype Settings = Settings(overlayType: string, clusterCIDR: string, serviceCIDR: string)

  /** The stored configs by name; the lister is taken to be current. */
  type Store = map<string, VSwitch>

  datatype Event = Seen(node: Node) | Deleted(name: string)  // an add or an update, or a delete

  // ----- The config a node should have

  /** The last address of the given kind, empty when there is none. */
  function LastAddress(kind: AddressType, addresses: seq<NodeAddress>): string {
    if addresses == [] then ""
    else if addresses[|addresses| - 1].kind == kind then addresses[|addresses| - 1].address
    else LastAddress(kind, addresses[..|addresses| - 1])
  }

  lemma {:induction false} LastAddressIs(kind: AddressType, addresses: seq<NodeAddress>, i: nat)
    requires i < |addresses| && addresses[i].kind == kind
    requires forall j :: i < j < |addresses| ==> addresses[j].kind != kind
    ensures LastAddress(kind, addresses) == addresses[i].address
  {
    if i < |addresses| - 1 {
      LastAddressIs(kind, addresses[..|addresses| - 1], i);
    }
  }

  /** An internal address is preferred to an external one. */
  function OverlayIP(node: Node): Result<string> {
    var internal, external := LastAddress(InternalIP, node.addresses), LastAddress(ExternalIP, node.addresses);
    if internal != "" then Ok(internal) else if external != "" then Ok(external) else Failed
  }

  function PodCIDR(node: Node): Result<string> {
    if node.podCIDR != "" then Ok(node.podCIDR) else Failed
  }

  predicate ValidNode(node: Node) {
    OverlayIP(node).Ok? && PodCIDR(node).Ok?
  }

  function Desired(s: Settings, node: Node): VSwitch
    requires ValidNode(node)
  {
    VSwitch(node.name, PodCIDR(node).value, s.clusterCIDR, s.serviceCIDR, OverlayIP(node).value, s.overlayType)
  }

  /** Agreement on every field but the service CIDR. */
  predicate Agree(v: VSwitch, w: VSwitch) {
    v == w.(serviceCIDR := v.serviceCIDR)
  }

  // ----- One event

  function Needed(s: Settings, store: Store, node: Node): Result<bool> {
    if node.name !in store then Ok(true)
    else if !ValidNode(node) then Failed
    else Ok(!Agree(store[node.name], Desired(s, node)))
  }

  function Step(s: Settings, store: Store, e: Event): Store {
    match e
    case Deleted(name) => store - {name}
    case Seen(node) =>
      if ValidNode(node) && Needed(s, store, node) == Ok(true) then store[node.name := Desired(s, node)]
      else store
  }

  function Run(s: Settings, store: Store, events: seq<Event>): Store {
    if events == [] then store else Step(s, Run(s, store, events[..|events| - 1]), events[|events| - 1])
  }

  /** Configs are stored under their own names. */
  predicate Named(store: Store) {
    forall n :: n in store ==> store[n].name == n
  }

  class Reconciler {
    const settings: Settings
    var store: Store

    constructor (settings: Settings, store: Store)
      ensures this.settings == settings && this.store == store
    {
      this.settings, this.store := settings, store;
    }

    static method NodeOverlayIP(node: Node) returns (r: Result<string>)
      ensures r == OverlayIP(node)
    {
      var internalIP, externalIP := "", "";
      for i := 0 to |node.addresses|
        invariant internalIP == LastAddress(InternalIP, node.addresses[..i])
        invariant externalIP == LastAddress(ExternalIP, node.addresses[..i])
      {
        assert node.addresses[..i + 1][..i] == node.addresses[..i];
        if node.addresses[i].kind.InternalIP? {
          internalIP := node.addresses[i].address;
        }
        if node.addresses[i].kind.ExternalIP? {
          externalIP := node.addresses[i].address;
        }
      }
      assert node.addresses[..|node.addresses|] == node.addresses;
      if internalIP != "" {
        return Ok(internalIP);
      }
      if externalIP != "" {
        return Ok(externalIP);
      }
      return Failed;
    }

    method NeedsUpdate(node: Node) returns (r: Result<bool>)
      requires Named(store)
      ensures r == Needed(settings, store, node)
    {
      if node.name !in store {
        return Ok(true);
      }
      var current := store[node.name];
      var overlayIP := NodeOverlayIP(node);
      if overlayIP.Failed? {
        return Failed;
      }
      var podCIDR := PodCIDR(node);
      if podCIDR.Failed? {
        return Failed;
      }
      r := Ok(|| current.overlayIP != overlayIP.value
              || current.overlayType != settings.overlayType
              || current.podCIDR != podCIDR.value
              || current.clusterCIDR != settings.clusterCIDR);
    }

    /** Creates or overwrites the config of a valid node, and reports an invalid one. */
    method SyncVSwitchConfig(node: Node) returns (ok: bool)
      requires Named(store)
      modifies this
      ensures ok == ValidNode(node)
      ensures store == if ok then old(store)[node.name := Desired(settings, node)] else old(store)
    {
      var overlayIP := NodeOverlayIP(node);
      if overlayIP.Failed? {
        return false;
      }
      var podCIDR := PodCIDR(node);
      if podCIDR.Failed? {
        return false;
      }
      if node.name !in store {
        store := store[node.name := VSwitch(node.name, podCIDR.value, settings.clusterCIDR, settings.serviceCIDR,
                                            overlayIP.value, settings.overlayType)];
        return true;
      }
      var changed := store[node.name].(overlayIP := overlayIP.value, overlayType := settings.overlayType,
                                       podCIDR := podCIDR.value, clusterCIDR := settings.clusterCIDR,
                                       serviceCIDR := settings.serviceCIDR);
      store := store[node.name := changed];
      return true;
    }

    method Handle(node: Node)
      requires Named(store)
      modifies this
      ensures Named(store) && store == Step(settings, old(store), Seen(node))
    {
      var shouldUpdate := NeedsUpdate(node);
      if shouldUpdate == Ok(true) {
        var ok := SyncVSwitchConfig(node);
      }
    }

    /** The handlers' argument is `None` when the object handed over is no node, such as
        the tombstone of a delete that was missed. Then `OnAdd` returns. */
    method OnAdd(obj: Option<Node>)
      requires Named(store)
      modifies this
      ensures Named(store)
      ensures store == if obj.Some? then Step(settings, old(store), Seen(obj.value)) else old(store)
    {
      if obj.None? {
        return;
      }
      Handle(obj.value);
    }

    /** The old version of the node is ignored. On an object that is no node the handler
        logs and goes on to dereference nil. */
    method OnUpdate(previous: Option<Node>, obj: Option<Node>) returns (panicked: bool)
      requires Named(store)
      modifies this
      ensures Named(store) && panicked == obj.None?
      ensures store == if obj.Some? then Step(settings, old(store), Seen(obj.value)) else old(store)
    {
      if obj.None? {
        return true;
      }
      Handle(obj.value);
      return false;
    }

    /** Deleting a config that does not exist fails and changes nothing. On a tombstone the
        handler logs and goes on to dereference nil. */
    method OnDelete(obj: Option<Node>) returns (panicked: bool)
      requires Named(store)
      modifies this
      ensures Named(store) && panicked == obj.None?
      ensures store == if obj.Some? then Step(settings, old(store), Deleted(obj.value.name)) else old(store)
    {
      if obj.None? {
        return true;
      }
      store := store - {obj.value.name};
      return false;
    }
  }

  lemma {:induction false} RunStaysNamed(s: Settings, store: Store, events: seq<Event>)
    requires Named(store)
    ensures Named(Run(s, store, events))
  {
    if events != [] {
      RunStaysNamed(s, store, events[..|events| - 1]);
    }
  }

  // ----- Whole runs

  predicate ValidVersion(e: Event, name: string) {
    e.Seen? && e.node.name == name && ValidNode(e.node)
  }

  /** The last valid version of the node since its last delete. */
  function LastValid(events: seq<Event>, name: string): (r: Option<Node>)
    ensures r.Some? ==> r.value.name == name && ValidNode(r.value)
  {
    if events == [] then None
    else
      var last := events[|events| - 1];
      if last == Deleted(name) then None
      else if ValidVersion(last, name) then Some(last.node)
      else LastValid(events[..|events| - 1], name)
  }

  /** Starting from nothing, each node has exactly the config that its last valid
      version asks for, and a node without one has no config. */
  lemma {:induction false} RunReflectsNodes(s: Settings, events: seq<Event>, name: string)
    ensures name in Run(s, map[], events) <==> LastValid(events, name).Some?
    ensures name in Run(s, map[], events)
            ==> Run(s, map[], events)[name] == Desired(s, LastValid(events, name).value)
  {
    if events != [] {
      RunReflectsNodes(s, events[..|events| - 1], name);
    }
  }

  /** Whatever was stored at first, a valid version brings all fields but the service
      CIDR up to date, and no further synchronisation is requested until the node changes. */
  lemma {:induction false} RunConverges(s: Settings, store: Store, events: seq<Event>, name: string)
    requires Named(store) && LastValid(events, name).Some?
    ensures var node := LastValid(events, name).value; var final := Run(s, store, events);
            && name in final && Agree(final[name], Desired(s, node))
            && Needed(s, final, node) == Ok(false)
  {
    var init, last := events[..|events| - 1], events[|events| - 1];
    RunStaysNamed(s, store, init);
    if !ValidVersion(last, name) {
      RunConverges(s, store, init, name);
    }
  }

  /** `v` survives `events`: its node is never deleted, and every valid version of it
      asks for what `v` already has, the service CIDR aside. */
  predicate Untouched(s: Settings, v: VSwitch, events: seq<Event>) {
    forall e :: e in events ==>
      e != Deleted(v.name) && (ValidVersion(e, v.name) ==> Agree(v, Desired(s, e.node)))
  }

  lemma {:induction false} UntouchedIsKept(s: Settings, store: Store, events: seq<Event>, name: string)
    requires Named(store) && name in store && Untouched(s, store[name], events)
    ensures name in Run(s, store, events) && Run(s, store, events)[name] == store[name]
  {
    if events != [] {
      var init, last := events[..|events| - 1], events[|events| - 1];
      assert last in events && forall e :: e in init ==> e in events;
      UntouchedIsKept(s, store, init, name);
    }
  }

  /** A config that was touched, or created during the run, is wholly the controller's. */
  lemma {:induction false} TouchedIsRewritten(s: Settings, store: Store, events: seq<Event>, name: string)
    requires Named(store) && name in Run(s, store, events)
    requires name !in store || !Untouched(s, store[name], events)
    ensures Run(s, store, events)[name].serviceCIDR == s.serviceCIDR
  {
    if events != [] {
      var init, last := events[..|events| - 1], events[|events| - 1];
      assert events == init + [last];
      RunStaysNamed(s, store, init);
      if name in Run(s, store, init) {
        if name in store && Untouched(s, store[name], init) {
          UntouchedIsKept(s, store, init, name);
        } else {
          TouchedIsRewritten(s, store, init, name);
        }
      }
    }
  }

  /** The service CIDR is not compared, so a change of it alone is never written: the
      config is as desired except when it was already there with another service CIDR
      and nothing else about it ever changed. */
  lemma ServiceCIDRIsStaleIff(s: Settings, store: Store, events: seq<Event>, name: string)
    requires Named(store) && LastValid(events, name).Some?
    ensures name in Run(s, store, events)
    ensures Run(s, store, events)[name] == Desired(s, LastValid(events, name).value)
            <==> !(&& name in store && Untouched(s, store[name], events)
                   && store[name].serviceCIDR != s.serviceCIDR)
  {
    RunConverges(s, store, events, name);
    if name in store && Untouched(s, store[name], events) {
      UntouchedIsKept(s, store, events, name);
    } else {
      TouchedIsRewritten(s, store, events, name);
    }
  }

  /** For example, a reconciler restarted with another service CIDR never writes it to the
      config of a node that stays as it was. */
  lemma ServiceCIDRStaysStale(node: Node, was: string, now: string)
    requires ValidNode(node) && was != now
    ensures var before, after := Settings("vxlan", "10.0.0.0/8", was), Settings("vxlan", "10.0.0.0/8", now);
            Run(after, map[node.name := Desired(before, node)], [Seen(node)])[node.name].serviceCIDR == was
  {
    var after := Settings("vxlan", "10.0.0.0/8", now);
    var store: Store := map[node.name := Desired(Settings("vxlan", "10.0.0.0/8", was), node)];
    UntouchedIsKept(after, store, [Seen(node)], node.name);
  }

  predicate Effective(e: Event) {
    e.Seen? ==> ValidNode(e.node)
  }

  /** Invalid versions leave no trace in a run: it is the run without them. */
  lemma {:induction false} InvalidVersionsLeaveNoTrace(s: Settings, store: Store, events: seq<Event>)
    ensures Run(s, store, events) == Run(s, store, Where(Effective, events))
  {
    if events != [] {
      var init, last := events[..|events| - 1], events[|events| - 1];
      InvalidVersionsLeaveNoTrace(s, store, init);
      if Effective(last) {
        assert (Where(Effective, init) + [last])[..|Where(Effective, init)|] == Where(Effective, init);
      }
    }
  }

  // ----- The stored config, in terms of the node's own address list

  /** Address `i` is the last one of its kind. */
  predicate IsLast(kind: AddressType, addresses: seq<NodeAddress>, i: int) {
    && 0 <= i < |addresses| && addresses[i].kind == kind
    && forall j :: i < j < |addresses| ==> addresses[j].kind != kind
  }

  /** Address `i` is the one to use: the last internal address, or the last external one if
      the last internal one is empty or there is none. An empty address is never used. */
  ghost predicate Chosen(addresses: seq<NodeAddress>, i: int) {
    && 0 <= i < |addresses| && addresses[i].address != ""
    && (|| IsLast(InternalIP, addresses, i)
        || (&& IsLast(ExternalIP, addresses, i)
            && forall j :: IsLast(InternalIP, addresses, j) ==> addresses[j].address == ""))
  }

  lemma LastOrNone(kind: AddressType, addresses: seq<NodeAddress>) returns (i: int)
    ensures if i < 0 then (forall j :: !IsLast(kind, addresses, j)) && LastAddress(kind, addresses) == ""
            else IsLast(kind, addresses, i) && LastAddress(kind, addresses) == addresses[i].address
  {
    i := |addresses| - 1;
    while i >= 0 && addresses[i].kind != kind
      invariant -1 <= i < |addresses|
      invariant forall j :: i < j < |addresses| ==> addresses[j].kind != kind
    {
      i := i - 1;
    }
    if i >= 0 {
      LastAddressIs(kind, addresses, i);
    } else {
      NoAddress(kind, addresses);
    }
  }

  lemma {:induction false} NoAddress(kind: AddressType, addresses: seq<NodeAddress>)
    requires forall j :: 0 <= j < |addresses| ==> addresses[j].kind != kind
    ensures LastAddress(kind, addresses) == ""
  {
    if addresses != [] {
      NoAddress(kind, addresses[..|addresses| - 1]);
    }
  }

  lemma ChosenIsOverlayIP(node: Node, i: int)
    requires Chosen(node.addresses, i)
    ensures OverlayIP(node) == Ok(node.addresses[i].address)
  {
    var k := LastOrNone(InternalIP, node.addresses);
    if IsLast(InternalIP, node.addresses, i) {
      LastAddressIs(InternalIP, node.addresses, i);
    } else {
      LastAddressIs(ExternalIP, node.addresses, i);
    }
  }

  lemma NoneChosen(node: Node)
    requires forall i :: !Chosen(node.addresses, i)
    ensures OverlayIP(node).Failed?
  {
    var k := LastOrNone(InternalIP, node.addresses);
    var e := LastOrNone(ExternalIP, node.addresses);
    if k >= 0 {
      assert !Chosen(node.addresses, k);
      assert forall j :: IsLast(InternalIP, node.addresses, j) ==> j == k;
    }
    if e >= 0 {
      assert !Chosen(node.addresses, e);
    }
  }

  /** After any run from any store that ends in a version of the node with a pod CIDR and an
      address to use, the stored config has that address, whatever the node's other
      addresses, and its other fields are those of the node and of the settings. */
  lemma StoredConfigIs(s: Settings, store: Store, events: seq<Event>, node: Node, i: int)
    requires Named(store) && node.podCIDR != "" && Chosen(node.addresses, i)
    ensures var final := Run(s, store, events + [Seen(node)]);
            && node.name in final
            && final[node.name].overlayIP == node.addresses[i].address
            && final[node.name].name == node.name && final[node.name].podCIDR == node.podCIDR
            && final[node.name].clusterCIDR == s.clusterCIDR && final[node.name].overlayType == s.overlayType
  {
    ChosenIsOverlayIP(node, i);
    var all := events + [Seen(node)];
    assert all[|all| - 1] == Seen(node);
    RunConverges(s, store, all, node.name);
  }

  /** A new config also has the service CIDR of the settings. */
  lemma CreatedConfigIs(s: Settings, store: Store, events: seq<Event>, node: Node, i: int)
    requires Named(store) && node.podCIDR != "" && Chosen(node.addresses, i)
    requires node.name !in Run(s, store, events)
    ensures var final := Run(s, store, events + [Seen(node)]);
            && node.name in final && final[node.name].serviceCIDR == s.serviceCIDR
  {
    ChosenIsOverlayIP(node, i);
    assert (events + [Seen(node)])[..|events|] == events;
  }

  /** A version without a pod CIDR or an address to use changes nothing. */
  lemma UnusableVersionKeeps(s: Settings, store: Store, events: seq<Event>, node: Node)
    requires node.podCIDR == "" || forall i :: !Chosen(node.addresses, i)
    ensures Run(s, store, events + [Seen(node)]) == Run(s, store, events)
  {
    if node.podCIDR != "" {
      NoneChosen(node);
    }
    assert (events + [Seen(node)])[..|events|] == events;
  }

  // ----- No empty match, end to end

  predicate NonEmpty(v: VSwitch) {
    v.overlayIP != "" && v.podCIDR != ""
  }

  predicate AllNonEmpty(store: Store) {
    forall n :: n in store ==> NonEmpty(store[n])
  }

  lemma StepWritesNonEmpty(s: Settings, store: Store, e: Event)
    requires AllNonEmpty(store)
    ensures AllNonEmpty(Step(s, store, e))
  {
    if e.Seen? && ValidNode(e.node) {
      assert NonEmpty(Desired(s, e.node));
    }
  }

  /** Every config the controller writes has both addresses. */
  lemma {:induction false} WrittenConfigsAreNonEmpty(s: Settings, store: Store, events: seq<Event>)
    requires AllNonEmpty(store)
    ensures AllNonEmpty(Run(s, store, events))
  {
    if events != [] {
      WrittenConfigsAreNonEmpty(s, store, events[..|events| - 1]);
      StepWritesNonEmpty(s, Run(s, store, events[..|events| - 1]), events[|events| - 1]);
    }
  }

  /** The entry writes a destination match, and it restricts what the entry matches. */
  predicate Restricted(e: Entry) {
    && e.Plain? && e.flow.ipDest != ""
    && "nw_dst=" + e.flow.ipDest in LineTokens(e.flow)
  }

  /** The entries of a config all write their `nw_dst` match exactly when neither of
      its two addresses is empty. */
  lemma RestrictedIff(cfg: Config, v: VSwitch)
    ensures NonEmpty(v) <==> forall e :: e in FlowsForVSwitch(cfg, v) ==> Restricted(e)
  {
    var es := FlowsForVSwitch(cfg, v);
    assert es[0] in es && es[1] in es && es[2] in es;
    if NonEmpty(v) {
      forall e | e in es ensures Restricted(e) {
        WritesDestination(e.flow);
      }
    }
  }

  lemma WritesDestination(f: FlowSpec)
    requires f.ipDest != ""
    ensures "nw_dst=" + f.ipDest in LineTokens(f)
  {
    var token := "nw_dst=" + f.ipDest;
    assert token in AddIPTokens(HeadTokens(f), f);
    assert token in AddTCPTokens(AddArpTokens(AddIPTokens(HeadTokens(f), f), f), f);
    assert token in MatchTokens(f);
  }

  /** A restricted entry matches only IPv4 packets whose destination its text covers. */
  lemma RestrictedMatches(e: Entry, p: Packet)
    requires Restricted(e) && Matches(e, p)
    ensures p.payload.IPv4? && Covers(e.flow.ipDest, p.payload.dst)
  {
  }

  lemma Destinations(cfg: Config, v: VSwitch, e: Entry)
    requires e in FlowsForVSwitch(cfg, v)
    ensures e.Plain? && (e.flow.ipDest == v.podCIDR || e.flow.ipDest == v.overlayIP)
  {
  }

  /** From node events to flows: whatever events the reconciler handled, an entry
      compiled from one of its configs matches only IPv4 packets for the subnet or the
      overlay address of that config's node, and so never degenerates into a wildcard. */
  lemma NoWildcards(s: Settings, events: seq<Event>, name: string, cfg: Config, e: Entry, p: Packet)
    requires name in Run(s, map[], events)
    requires e in FlowsForVSwitch(cfg, Run(s, map[], events)[name])
    ensures Restricted(e)
    ensures Matches(e, p) ==>
              && p.payload.IPv4?
              && (|| Covers(Run(s, map[], events)[name].podCIDR, p.payload.dst)
                  || Covers(Run(s, map[], events)[name].overlayIP, p.payload.dst))
  {
    var v := Run(s, map[], events)[name];
    WrittenConfigsAreNonEmpty(s, map[], events);
    assert NonEmpty(v);
    RestrictedIff(cfg, v);
    Destinations(cfg, v, e);
    if Matches(e, p) {
      RestrictedMatches(e, p);
    }
  }
}
