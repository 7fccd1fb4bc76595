/** Synchronisation over whole runs of watch events: what is installed, and which
    state of the cluster it reflects. */
module SyncModel {
  import opened Collections
  import opened Flows
  import opened Cluster
  import opened Compiler
  import opened PortCacheModel

  datatype State = State(installed: string, store: Store, snapshot: Snapshot, db: OVSDB)

  datatype Event =
    | AddVSwitch | UpdateVSwitch | DeleteVSwitch
    | AddPod(pod: Pod) | UpdatePod(pod: Pod) | DeletePod(pod: Pod)
    | LostPod  // a delete of which only a tombstone arrives
    | AddPolicy | UpdatePolicy | DeletePolicy
    | NamespaceChange
    | Resync

  /** One event: what the listers and the OVS database say when it is handled, and
      whether the switch accepts the flows should they be replaced. */
  datatype Step = Step(now: Snapshot, db: OVSDB, event: Event, accepted: bool)

  /** The cache after the flows of these pods were computed. */
  function FilledBy(cfg: Config, store: Store, db: OVSDB, pods: seq<Pod>): Store {
    if pods == [] then store
    else
      var filled, pod := FilledBy(cfg, store, db, pods[..|pods| - 1]), pods[|pods| - 1];
      if pod.ip != "" && IsLocal(cfg, pod.ip) then Fill(filled, db, PodKey(pod)) else filled
  }

  lemma FilledByStep(cfg: Config, store: Store, db: OVSDB, pods: seq<Pod>, i: nat)
    requires i < |pods|
    ensures FilledBy(cfg, store, db, pods[..i + 1])
            == if pods[i].ip != "" && IsLocal(cfg, pods[i].ip)
               then Fill(FilledBy(cfg, store, db, pods[..i]), db, PodKey(pods[i]))
               else FilledBy(cfg, store, db, pods[..i])
  {
    assert pods[..i + 1][..i] == pods[..i];
  }

  /** `podNeedsUpdate`: only pods of this node with an address count. */
  predicate PodNeedsUpdate(cfg: Config, pod: Pod) {
    pod.ip != "" && IsLocal(cfg, pod.ip)
  }

  /** Does the handler of this event synchronise? */
  predicate Syncs(cfg: Config, e: Event) {
    match e
    case AddVSwitch => true
    case UpdateVSwitch => true
    case DeleteVSwitch => false
    case AddPod(pod) => PodNeedsUpdate(cfg, pod)
    case UpdatePod(pod) => PodNeedsUpdate(cfg, pod)
    case DeletePod(_) => false
    case LostPod => false
    case AddPolicy => true
    case UpdatePolicy => true
    case DeletePolicy => true
    case NamespaceChange => false
    case Resync => true
  }

  /** The text that installs the compiled flows. */
  function Script(cfg: Config, snap: Snapshot, ports: Ports): string {
    Unlines(Lines(Compile(cfg, snap, ports)))
  }

  function Synced(cfg: Config, s: State, accepted: bool): State {
    s.(installed := if accepted then Script(cfg, s.snapshot, ResolvedPorts(s.store, s.db)) else s.installed,
       store := FilledBy(cfg, s.store, s.db, s.snapshot.pods))
  }

  function Handle(cfg: Config, s: State, step: Step): State {
    var t := s.(snapshot := step.now, db := step.db);
    if step.event.DeletePod? then t.(store := t.store - {PodKey(step.event.pod)})
    else if Syncs(cfg, step.event) then Synced(cfg, t, step.accepted)
    else t
  }

  function Run(cfg: Config, s: State, steps: seq<Step>): State {
    if steps == [] then s else Handle(cfg, Run(cfg, s, steps[..|steps| - 1]), steps[|steps| - 1])
  }

  lemma RunStep(cfg: Config, s: State, steps: seq<Step>, step: Step)
    ensures Run(cfg, s, steps + [step]) == Handle(cfg, Run(cfg, s, steps), step)
  {
    assert (steps + [step])[..|steps|] == steps;
  }

  /** The step of the last synchronisation that the switch accepted. */
  function LastSync(cfg: Config, steps: seq<Step>): (k: Option<nat>)
    ensures k.Some? ==> k.value < |steps| && Syncs(cfg, steps[k.value].event) && steps[k.value].accepted
    ensures forall i :: (match k case None => 0 case Some(n) => n + 1) <= i < |steps|
                        ==> !(Syncs(cfg, steps[i].event) && steps[i].accepted)
  {
    if steps == [] then None
    else
      var last := steps[|steps| - 1];
      if Syncs(cfg, last.event) && last.accepted then Some(|steps| - 1) else LastSync(cfg, steps[..|steps| - 1])
  }

  lemma HandleInstalls(cfg: Config, s: State, step: Step)
    ensures Handle(cfg, s, step).installed
            == if Syncs(cfg, step.event) && step.accepted then Script(cfg, step.now, ResolvedPorts(s.store, step.db))
               else s.installed
  {
  }

  /** What `InstalledIsLastSync` says is installed. */
  function Expected(cfg: Config, s: State, steps: seq<Step>): string {
    match LastSync(cfg, steps)
    case None => s.installed
    case Some(k) => Script(cfg, steps[k].now, ResolvedPorts(Run(cfg, s, steps[..k]).store, steps[k].db))
  }

  lemma ExpectedStep(cfg: Config, s: State, steps: seq<Step>)
    requires steps != [] && !(Syncs(cfg, steps[|steps| - 1].event) && steps[|steps| - 1].accepted)
    ensures Expected(cfg, s, steps) == Expected(cfg, s, steps[..|steps| - 1])
  {
    var init := steps[..|steps| - 1];
    match LastSync(cfg, init) {
      case None =>
      case Some(k) => assert init[..k] == steps[..k];
    }
  }

  /** Whatever the events and failures, what is installed is what was compiled from
      the snapshot of the last accepted synchronisation. */
  lemma {:induction false} InstalledIsLastSync(cfg: Config, s: State, steps: seq<Step>)
    ensures Run(cfg, s, steps).installed == Expected(cfg, s, steps)
  {
    if steps != [] {
      var init, last := steps[..|steps| - 1], steps[|steps| - 1];
      HandleInstalls(cfg, Run(cfg, s, init), last);
      if !(Syncs(cfg, last.event) && last.accepted) {
        InstalledIsLastSync(cfg, s, init);
        ExpectedStep(cfg, s, steps);
      }
    }
  }

  // ----- Which events reach the switch

  /** Adding or updating a vswitch config, any change of a policy, a resync, and adding or
      updating a pod of this node with an address bring the switch up to date at once. */
  lemma EventInstalls(cfg: Config, s: State, steps: seq<Step>, step: Step)
    requires step.accepted
    requires match step.event
             case AddVSwitch => true
             case UpdateVSwitch => true
             case AddPolicy => true
             case UpdatePolicy => true
             case DeletePolicy => true
             case Resync => true
             case AddPod(pod) => pod.ip != "" && IsLocal(cfg, pod.ip)
             case UpdatePod(pod) => pod.ip != "" && IsLocal(cfg, pod.ip)
             case _ => false
    ensures Run(cfg, s, steps + [step]).installed
            == Script(cfg, step.now, ResolvedPorts(Run(cfg, s, steps).store, step.db))
  {
    assert Syncs(cfg, step.event);
    RunStep(cfg, s, steps, step);
    HandleInstalls(cfg, Run(cfg, s, steps), step);
  }

  /** Every other event, and every replacement that fails, leaves the switch as it was. */
  lemma EventKeeps(cfg: Config, s: State, steps: seq<Step>, step: Step)
    requires !step.accepted
             || match step.event
                case DeleteVSwitch => true
                case NamespaceChange => true
                case DeletePod(_) => true
                case LostPod => true
                case AddPod(pod) => pod.ip == "" || !IsLocal(cfg, pod.ip)
                case UpdatePod(pod) => pod.ip == "" || !IsLocal(cfg, pod.ip)
                case _ => false
    ensures Run(cfg, s, steps + [step]).installed == Run(cfg, s, steps).installed
  {
    assert !(Syncs(cfg, step.event) && step.accepted);
    RunStep(cfg, s, steps, step);
    HandleInstalls(cfg, Run(cfg, s, steps), step);
  }

  /** A delete evicts the pod's cached port at once and touches no other; a tombstone evicts nothing. */
  lemma DeleteEvicts(cfg: Config, s: State, steps: seq<Step>, step: Step)
    requires step.event.DeletePod? || step.event.LostPod?
    ensures Run(cfg, s, steps + [step]).store
            == if step.event.DeletePod? then Run(cfg, s, steps).store - {step.event.pod.namespace + "/" + step.event.pod.name}
               else Run(cfg, s, steps).store
  {
    RunStep(cfg, s, steps, step);
  }

  // ----- Independence of what was cached

  /** The OVS database changes no port that is cached at that moment. */
  ghost predicate Orderly(cfg: Config, s: State, steps: seq<Step>) {
    forall i :: 0 <= i < |steps| ==> CacheUntouched(Run(cfg, s, steps[..i]), steps[i])
  }

  ghost predicate CacheUntouched(s: State, step: Step) {
    forall key :: key in s.store ==> Query(step.db, key) == Query(s.db, key)
  }

  // Which ports can be cached, from the events alone

  /** A synchronisation of this step looks the pod up. */
  ghost predicate LooksUp(cfg: Config, step: Step, key: string) {
    Syncs(cfg, step.event) && exists pod :: pod in step.now.pods && PodNeedsUpdate(cfg, pod) && PodKey(pod) == key
  }

  /** The pod was looked up since its last delete. */
  ghost predicate MayBeCached(cfg: Config, s: State, steps: seq<Step>, key: string) {
    if steps == [] then key in s.store
    else
      var last := steps[|steps| - 1];
      if last.event.DeletePod? && PodKey(last.event.pod) == key then false
      else MayBeCached(cfg, s, steps[..|steps| - 1], key) || LooksUp(cfg, last, key)
  }

  function DatabaseBefore(s: State, steps: seq<Step>): OVSDB {
    if steps == [] then s.db else steps[|steps| - 1].db
  }

  /** A pod's port changes only after the pod was deleted, or before it is looked up. */
  ghost predicate PortsAreStable(cfg: Config, s: State, steps: seq<Step>) {
    forall i, key :: 0 <= i < |steps| && MayBeCached(cfg, s, steps[..i], key)
                     ==> Query(steps[i].db, key) == Query(DatabaseBefore(s, steps[..i]), key)
  }

  lemma {:induction false} FilledIsLookedUp(cfg: Config, store: Store, db: OVSDB, pods: seq<Pod>, key: string)
    requires key in FilledBy(cfg, store, db, pods)
    ensures key in store || exists pod :: pod in pods && PodNeedsUpdate(cfg, pod) && PodKey(pod) == key
  {
    if pods != [] {
      var init, last := pods[..|pods| - 1], pods[|pods| - 1];
      assert pods == init + [last];
      if key in FilledBy(cfg, store, db, init) {
        FilledIsLookedUp(cfg, store, db, init, key);
        if pod :| pod in init && PodNeedsUpdate(cfg, pod) && PodKey(pod) == key {
          assert pod in pods;
        }
      } else {
        assert last in pods && PodNeedsUpdate(cfg, last) && PodKey(last) == key;
      }
    }
  }

  lemma {:induction false} CachedMayBe(cfg: Config, s: State, steps: seq<Step>, key: string)
    requires key in Run(cfg, s, steps).store
    ensures MayBeCached(cfg, s, steps, key)
  {
    if steps != [] {
      var init, last := steps[..|steps| - 1], steps[|steps| - 1];
      var before := Run(cfg, s, init);
      if key in before.store {
        CachedMayBe(cfg, s, init, key);
      } else if Syncs(cfg, last.event) {
        FilledIsLookedUp(cfg, before.store, last.db, last.now.pods, key);
      }
    }
  }

  lemma DatabaseIsLast(cfg: Config, s: State, steps: seq<Step>)
    ensures Run(cfg, s, steps).db == DatabaseBefore(s, steps)
  {
  }

  /** Hence a database in which ports change only after their pod's delete is orderly. */
  lemma StablePortsAreOrderly(cfg: Config, s: State, steps: seq<Step>)
    requires PortsAreStable(cfg, s, steps)
    ensures Orderly(cfg, s, steps)
  {
    forall i | 0 <= i < |steps| ensures CacheUntouched(Run(cfg, s, steps[..i]), steps[i]) {
      var before := Run(cfg, s, steps[..i]);
      DatabaseIsLast(cfg, s, steps[..i]);
      forall key | key in before.store ensures Query(steps[i].db, key) == Query(before.db, key) {
        CachedMayBe(cfg, s, steps[..i], key);
      }
    }
  }

  lemma {:induction false} FilledStaysCoherent(cfg: Config, store: Store, db: OVSDB, pods: seq<Pod>)
    requires Coherent(store, db)
    ensures Coherent(FilledBy(cfg, store, db, pods), db)
  {
    if pods != [] {
      FilledStaysCoherent(cfg, store, db, pods[..|pods| - 1]);
      CoherentStays(FilledBy(cfg, store, db, pods[..|pods| - 1]), db, PodKey(pods[|pods| - 1]));
    }
  }

  lemma HandleStaysCoherent(cfg: Config, s: State, step: Step)
    requires Coherent(s.store, s.db) && CacheUntouched(s, step)
    ensures Coherent(Handle(cfg, s, step).store, Handle(cfg, s, step).db)
  {
    assert Coherent(s.store, step.db);
    if step.event.DeletePod? {
      CoherentStays(s.store, step.db, PodKey(step.event.pod));
    } else if Syncs(cfg, step.event) {
      FilledStaysCoherent(cfg, s.store, step.db, step.now.pods);
    }
  }

  lemma {:induction false} RunStaysCoherent(cfg: Config, s: State, steps: seq<Step>)
    requires Coherent(s.store, s.db) && Orderly(cfg, s, steps)
    ensures Coherent(Run(cfg, s, steps).store, Run(cfg, s, steps).db)
  {
    if steps != [] {
      var init := steps[..|steps| - 1];
      assert forall i :: 0 <= i < |init| ==> init[..i] == steps[..i];
      RunStaysCoherent(cfg, s, init);
      assert CacheUntouched(Run(cfg, s, steps[..|init|]), steps[|init|]);
      HandleStaysCoherent(cfg, Run(cfg, s, init), steps[|init|]);
    }
  }

  lemma CoherentAcrossChange(s: State, step: Step)
    requires Coherent(s.store, s.db) && CacheUntouched(s, step)
    ensures ResolvedPorts(s.store, step.db) == ResolvedPorts(map[], step.db)
  {
    assert Coherent(s.store, step.db);
    CoherentStays(s.store, step.db, "");
  }

  /** At every step of an orderly run the cache is invisible. */
  lemma PortsAtStep(cfg: Config, s: State, steps: seq<Step>, k: nat)
    requires Coherent(s.store, s.db) && Orderly(cfg, s, steps) && k < |steps|
    ensures ResolvedPorts(Run(cfg, s, steps[..k]).store, steps[k].db) == ResolvedPorts(map[], steps[k].db)
  {
    var before := steps[..k];
    assert forall i :: 0 <= i < |before| ==> before[..i] == steps[..i];
    RunStaysCoherent(cfg, s, before);
    CoherentAcrossChange(Run(cfg, s, before), steps[k]);
  }

  /** With an orderly database the history is invisible: what is installed depends on
      the last accepted synchronisation's own snapshot and database alone. */
  lemma InstalledForgetsHistory(cfg: Config, s: State, steps: seq<Step>, k: nat)
    requires Coherent(s.store, s.db) && Orderly(cfg, s, steps) && LastSync(cfg, steps) == Some(k)
    ensures Run(cfg, s, steps).installed == Script(cfg, steps[k].now, ResolvedPorts(map[], steps[k].db))
  {
    InstalledIsLastSync(cfg, s, steps);
    PortsAtStep(cfg, s, steps, k);
  }

  /** With an orderly database, any later accepted resync brings the switch up to date,
      whichever events were handled without synchronising and whichever attempts failed
      before it. */
  lemma ResyncCatchesUp(cfg: Config, s: State, steps: seq<Step>, resync: Step)
    requires resync.event == Resync && resync.accepted
    requires Coherent(s.store, s.db) && Orderly(cfg, s, steps + [resync])
    ensures Run(cfg, s, steps + [resync]).installed
            == Script(cfg, resync.now, ResolvedPorts(map[], resync.db))
  {
    var all := steps + [resync];
    assert all[|all| - 1] == resync;
    InstalledForgetsHistory(cfg, s, all, |steps|);
  }

  /** In particular when pods are deleted before their ports change hands. */
  lemma StableResyncCatchesUp(cfg: Config, s: State, steps: seq<Step>, resync: Step)
    requires resync.event == Resync && resync.accepted
    requires Coherent(s.store, s.db) && PortsAreStable(cfg, s, steps + [resync])
    ensures Run(cfg, s, steps + [resync]).installed
            == Script(cfg, resync.now, ResolvedPorts(map[], resync.db))
  {
    StablePortsAreOrderly(cfg, s, steps + [resync]);
    ResyncCatchesUp(cfg, s, steps, resync);
  }
}
