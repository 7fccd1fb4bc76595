/** The read-through cache of OpenFlow ports in front of the OVS database. */
module PortCacheModel {
  import opened Collections
  import opened Text
  import opened Flows
  import opened Cluster
  import opened Compiler

  datatype PortInfo = PortInfo(name: string, ofport: int, mac: string)

  /** What `ovs-vsctl` would answer: the port recorded for a pod, and the MAC and
      OpenFlow port of a port. A missing entry is a failed command. */
  datatype OVSDB = OVSDB(portOf: map<string, string>, macOf: map<string, string>, ofportOf: map<string, int>)

  /** The three lookups behind a cache miss, any of which may fail. */
  function Query(db: OVSDB, key: string): Option<PortInfo> {
    if key !in db.portOf then None
    else
      var port := db.portOf[key];
      if port in db.macOf && port in db.ofportOf then Some(PortInfo(port, db.ofportOf[port], db.macOf[port]))
      else None
  }

  type Store = map<string, PortInfo>

  /** The port information a pod key stands for: a cached entry takes precedence. */
  function Resolve(store: Store, db: OVSDB, key: string): Option<PortInfo> {
    if key in store then Some(store[key]) else Query(db, key)
  }

  /** The OpenFlow ports that one synchronisation can resolve. */
  function ResolvedPorts(store: Store, db: OVSDB): Ports {
    map k | k in store.Keys + db.portOf.Keys && Resolve(store, db, k).Some? :: Resolve(store, db, k).value.ofport
  }

  lemma ResolvedPortsAt(store: Store, db: OVSDB, key: string)
    ensures key in ResolvedPorts(store, db) <==> Resolve(store, db, key).Some?
    ensures key in ResolvedPorts(store, db) ==> ResolvedPorts(store, db)[key] == Resolve(store, db, key).value.ofport
  {
  }

  /** The store after looking a key up. */
  function Fill(store: Store, db: OVSDB, key: string): Store {
    if Resolve(store, db, key).Some? then store[key := Resolve(store, db, key).value] else store
  }

  /** Looking keys up never changes what any key resolves to, so a synchronisation
      sees the same ports throughout. */
  lemma FillIsTransparent(store: Store, db: OVSDB, key: string)
    ensures ResolvedPorts(Fill(store, db, key), db) == ResolvedPorts(store, db)
  {
    var filled := Fill(store, db, key);
    forall k ensures Resolve(filled, db, k) == Resolve(store, db, k) {
    }
    forall k ensures k in ResolvedPorts(filled, db) <==> k in ResolvedPorts(store, db) {
      ResolvedPortsAt(filled, db, k);
      ResolvedPortsAt(store, db, k);
    }
  }

  /** Everything cached is what the database says. */
  predicate Coherent(store: Store, db: OVSDB) {
    forall k :: k in store ==> Query(db, k) == Some(store[k])
  }

  /** A cache that agrees with the database keeps agreeing, and is invisible. */
  lemma CoherentStays(store: Store, db: OVSDB, key: string)
    requires Coherent(store, db)
    ensures Coherent(Fill(store, db, key), db) && Coherent(store - {key}, db)
    ensures ResolvedPorts(store, db) == ResolvedPorts(map[], db)
  {
    forall k ensures k in ResolvedPorts(store, db) <==> k in ResolvedPorts(map[], db) {
      ResolvedPortsAt(store, db, k);
      ResolvedPortsAt(map[], db, k);
    }
  }

  // ----- What a stale cache does to the flows

  /** If the pod is cached, the database still knows it under the cached OpenFlow port. */
  predicate UpToDate(store: Store, db: OVSDB, key: string) {
    key in store ==> Query(db, key).Some? && Query(db, key).value.ofport == store[key].ofport
  }

  lemma PodFlowsAgreeIff(cfg: Config, store: Store, db: OVSDB, pod: Pod)
    ensures var cached, direct := ResolvedPorts(store, db), ResolvedPorts(map[], db);
            && |FlowsForPod(cfg, cached, pod)| >= |FlowsForPod(cfg, direct, pod)|
            && (FlowsForPod(cfg, cached, pod) == FlowsForPod(cfg, direct, pod)
                <==> (pod.ip != "" && IsLocal(cfg, pod.ip) ==> UpToDate(store, db, PodKey(pod))))
  {
    var key, cached, direct := PodKey(pod), ResolvedPorts(store, db), ResolvedPorts(map[], db);
    ResolvedPortsAt(store, db, key);
    ResolvedPortsAt(map[], db, key);
    if pod.ip != "" && IsLocal(cfg, pod.ip) && key in cached {
      assert FlowsForPod(cfg, cached, pod)[0] == Plain(DeliveryFlow(pod.ip, cached[key]));
      if key in direct {
        assert FlowsForPod(cfg, direct, pod)[0] == Plain(DeliveryFlow(pod.ip, direct[key]));
      }
    }
  }

  /** The compiled flows are those of an empty cache exactly when every local pod of the
      snapshot that is cached still has its cached port. */
  lemma CacheIsInvisibleIff(cfg: Config, snap: Snapshot, store: Store, db: OVSDB)
    ensures Compile(cfg, snap, ResolvedPorts(store, db)) == Compile(cfg, snap, ResolvedPorts(map[], db))
            <==> forall pod :: pod in snap.pods && pod.ip != "" && IsLocal(cfg, pod.ip)
                               ==> UpToDate(store, db, PodKey(pod))
  {
    var f, g := FlowsForPodOf(cfg, ResolvedPorts(store, db)), FlowsForPodOf(cfg, ResolvedPorts(map[], db));
    forall pod
      ensures |f(pod)| >= |g(pod)|
      ensures f(pod) == g(pod) <==> (pod.ip != "" && IsLocal(cfg, pod.ip) ==> UpToDate(store, db, PodKey(pod)))
    {
      PodFlowsAgreeIff(cfg, store, db, pod);
    }
    FlatMapsAgreeIff(f, g, snap.pods);
    MiddlesAgreeIff(DefaultFlows(cfg) + FlatMap(FlowsForVSwitchOf(cfg), snap.vswitches),
                    FlatMap(f, snap.pods), FlatMap(g, snap.pods),
                    FlatMap(FlowsForPolicyOf(cfg, snap), snap.policies));
  }

  /** A cache entry that outlives its pod resolves to a port that the database no longer
      knows, and yet changes no flow. */
  lemma StaleEntryWithoutPod(cfg: Config)
    ensures var store: Store := map["a/b" := PortInfo("p", 7, "m")];
            var db, none := OVSDB(map[], map[], map[]), Snapshot([], [], [], []);
            && ResolvedPorts(store, db) != ResolvedPorts(map[], db)
            && Compile(cfg, none, ResolvedPorts(store, db)) == Compile(cfg, none, ResolvedPorts(map[], db))
  {
    var store: Store := map["a/b" := PortInfo("p", 7, "m")];
    var db, none := OVSDB(map[], map[], map[]), Snapshot([], [], [], []);
    ResolvedPortsAt(store, db, "a/b");
    ResolvedPortsAt(map[], db, "a/b");
    CacheIsInvisibleIff(cfg, none, store, db);
  }

  /** For a pod that is still there, it sends the pod's traffic to the old port. */
  lemma StaleEntryWithPod(cfg: Config, pod: Pod, stale: int, current: int)
    requires pod.ip != "" && IsLocal(cfg, pod.ip) && stale != current
    ensures var store: Store := map[PodKey(pod) := PortInfo("p", stale, "m")];
            var db := OVSDB(map[PodKey(pod) := "p"], map["p" := "m"], map["p" := current]);
            var snap := Snapshot([], [pod], [], []);
            && Compile(cfg, snap, ResolvedPorts(store, db)) != Compile(cfg, snap, ResolvedPorts(map[], db))
            && Plain(DeliveryFlow(pod.ip, stale)) in Compile(cfg, snap, ResolvedPorts(store, db))
  {
    var store: Store := map[PodKey(pod) := PortInfo("p", stale, "m")];
    var db := OVSDB(map[PodKey(pod) := "p"], map["p" := "m"], map["p" := current]);
    var snap := Snapshot([], [pod], [], []);
    assert pod in snap.pods && !UpToDate(store, db, PodKey(pod));
    CacheIsInvisibleIff(cfg, snap, store, db);
    var f := FlowsForPodOf(cfg, ResolvedPorts(store, db));
    ResolvedPortsAt(store, db, PodKey(pod));
    assert f(pod)[0] == Plain(DeliveryFlow(pod.ip, stale));
    FlatMapMembers(f, snap.pods, Plain(DeliveryFlow(pod.ip, stale)));
  }

  /** Cache keys tell pods apart, namespaces having no slash. */
  lemma KeysAreUnique(a: Pod, b: Pod)
    requires '/' !in a.namespace && '/' !in b.namespace && PodKey(a) == PodKey(b)
    ensures a.namespace == b.namespace && a.name == b.name
  {
    SplitFirst(a.namespace, '/', a.name);
    SplitFirst(b.namespace, '/', b.name);
    assert Split(PodKey(a), '/')[0] == a.namespace;
    assert PodKey(a)[|a.namespace| + 1..] == a.name;
    assert PodKey(b)[|b.namespace| + 1..] == b.name;
  }

  /** All three commands succeed and give this answer: the pod's port, its OpenFlow port
      and its MAC. */
  predicate Answers(db: OVSDB, key: string, answer: PortInfo) {
    && key in db.portOf && answer.name == db.portOf[key]
    && answer.name in db.ofportOf && answer.ofport == db.ofportOf[answer.name]
    && answer.name in db.macOf && answer.mac == db.macOf[answer.name]
  }

  class PortCache {
    var store: Store

    constructor ()
      ensures store == map[]
    {
      store := map[];
    }

    method GetPortInfo(pod: Pod, db: OVSDB) returns (info: Option<PortInfo>)
      modifies this
      ensures info == Resolve(old(store), db, PodKey(pod))
      ensures store == Fill(old(store), db, PodKey(pod))
      ensures PodKey(pod) in old(store) ==> info == Some(old(store)[PodKey(pod)]) && store == old(store)
      ensures PodKey(pod) !in old(store) && info.Some?
              ==> Answers(db, PodKey(pod), info.value) && store == old(store)[PodKey(pod) := info.value]
      ensures PodKey(pod) !in old(store) && info.None?
              ==> (forall answer :: !Answers(db, PodKey(pod), answer)) && store == old(store)
    {
      var key := PodKey(pod);
      if key in store {
        return Some(store[key]);
      }
      if key !in db.portOf {
        return None;
      }
      var portName := db.portOf[key];
      if portName !in db.macOf {
        return None;
      }
      if portName !in db.ofportOf {
        return None;
      }
      var podPortInfo := PortInfo(portName, db.ofportOf[portName], db.macOf[portName]);
      store := store[key := podPortInfo];
      return Some(podPortInfo);
    }

    method DelPortInfo(pod: Pod)
      modifies this
      ensures store == old(store) - {PodKey(pod)}
    {
      store := store - {PodKey(pod)};
    }
  }
}
