# A verified model of k-vswitch

k-vswitch programs an Open vSwitch bridge on every Kubernetes node. A controller on the node
compiles the state of the cluster (vswitch configs, pods, namespaces and network policies)
into prioritised flow entries spread over six tables, sends OpenFlow messages through a queue
shared by several threads, and works from vswitch configs that a second controller keeps in
step with the cluster's nodes. This project models those three parts in Dafny and proves what
they mean.

`dafny verify dfyconfig.toml` checks everything.

## The parts

**From cluster state to packets.** `Controller` (module `ControllerModel`) is the imperative
controller: nested loops that build flows and append them to a text buffer. Each of its methods
is proved to append what the functions of `Compiler` say. `Flows` is the builder, its textual
form and the buffer; `FlowReader` and `ScriptReader` read the text back, built flows and raw
ones. `Switch` gives entries a packet
semantics after the OpenFlow Switch Specification 1.3.0, sections 5.1, 5.3 and 5.4: the
matching entry of the highest priority is selected, a tie is resolved arbitrarily, a miss drops.
On top of it:

* `PolicyMeaning` states what the policies mean over rules, labels and namespaces, and
  `PolicyVerdict` proves that table 10 decides exactly that, that policies are local and
  monotone, and that neither the order of the cluster objects nor the tie-break matters;
* `PolicyPorts` says which ports a policy's port, a number or a text, stands for;
* `Routing` and `Pipeline` prove that tables 20, 30 and 60 compute a routing function, that
  every run ends within five lookups, and that one emitted entry is dead;
* `ArpPipeline` proves which ARP requests are answered, and that the answers are correct in
  the sense of RFC 826, section "Packet Reception";
* `Overlay` puts two nodes together: delivery through the tunnel, and no loops.

`PortCacheModel` is the cache of OpenFlow ports that the compiler reads, and `SyncModel`
follows synchronisations over whole runs of watch events, failed replacements and resyncs.
`Installed` closes the chain: the text that any run leaves in the switch reads back as the flows
compiled at the last accepted synchronisation, so that the theorems about packets are theorems
about that text. `Execution` gives the action part of a line a meaning of its own: the pieces
between its commas are performed from left to right, a packet leaves as it is at the moment of
the action that sends it, and fields go by the names that Open vSwitch has for them. Carried
out in this way the installed lines forward and answer as proved (`Installed.InstalledExecutes`,
`Installed.InstalledAnswers`).

**The connection to the switch.** `SendQueue` is the send queue as a concurrent protocol:
any number of senders, one acceptor and one consumer interleave over two mutexes and two
condition variables, at the granularity of the individual lock, wait, broadcast, write and
pop. `Handshake` is the controller's receive loop and its composition with the queue.

**Where the configs come from.** `Reconcile` is the controller of vswitch configs over runs of
node events, and what its configs guarantee to the compiler. `Gateway` is the byte-level
arithmetic by which controller, daemon and CNI plugin each find a subnet's gateway;
`GatewayEntry` says what that means for the compiled flows; `Bridge` is what the CNI plugin
does with the gateways.

`Collections`, `Text`, `Addresses` and `Cluster` hold the vocabulary; `Layout` sorts compiled
entries by origin.

## What the code does, where one might expect something else

The specification is the code's own behaviour.

* Table 10 holds one decision for both directions: a rule of any policy, ingress or egress,
  that allows a packet outweighs every default drop. `Denied` says so; it is not the semantics
  of the Kubernetes NetworkPolicy API, with its separate ingress and egress verdicts.
* An IP block ignores its rule's ports. A port of 0, which is also what a named port that is no
  number counts as, admits every port of the protocol. A namespace selector that matches
  nothing falls back to the policy's own namespace. A peer with neither block nor pod selector
  is skipped.
* Removing a vswitch config, removing a pod and any event of a namespace or of a remote pod do
  not synchronise; the switch catches up at the next accepted synchronisation
  (`SyncModel.ResyncCatchesUp`).
* A cached OpenFlow port is used until its pod is deleted. The compiled flows are those of an
  empty cache exactly when every local pod that is listed and cached still has its cached port
  (`PortCacheModel.CacheIsInvisibleIff`). An entry that outlives its pod changes no flow. When a
  delete arrives as a tombstone the handler returns without evicting anything, and if the pod
  comes back under another port not even a resync repairs its flow
  (`Installed.MissedDeleteLeavesStalePort`).
* The ARP responder for the whole cluster CIDR overwrites the sender fields before it copies
  them to the target fields. Its reply is correct exactly when the requester has the pods' MAC
  and asks for its own address (`ArpPipeline.ClusterReplyCorrectIff`).
* `ip.NextIP` goes through a big integer and loses leading zero bytes. The gateway's text is the
  network address plus one exactly when that has a non-zero first octet and fits in four bytes;
  otherwise it is no address (`Gateway.GatewayTextIs`), as for 0.1.0.0/16 and for
  255.255.255.255/32 (`Gateway.NoGateway`).
* The reconciler does not compare service CIDRs, so a change of that setting alone never
  reaches an existing config (`Reconcile.ServiceCIDRIsStaleIff`).

Assumptions on addresses are gathered in `Routing.Addressed` (pod CIDRs disjoint and inside the
cluster CIDR, overlay addresses distinct and outside it, local pod addresses unique),
`Overlay.Owns`, `Overlay.Peers` and `ArpPipeline.GatewayApart`; the one about the gateway lying
in the pod CIDR follows for controllers that computed their gateway (`Overlay.ConfiguredOwns`),
and delivery and the absence of loops are stated for them too. `Example` reduces them to
numeric conditions for a cluster of two such nodes, gives addresses that meet these, and follows a
packet through every such cluster.

## Model

| member | source | states |
|---|---|---|
| PolicyVerdict.Verdict | controllers/openflow/flows.go:288-677 | for every cluster state, IPv4 packet and tie-break, table 10 drops the packet exactly when an excepted block of a selecting policy matches or an end is a selected local pod and no rule of any policy allows it |
| PolicyMeaning.PolicyHits | controllers/openflow/flows.go:288-331 | the flows of one policy match a packet at priority 100, 1000 or 1100 exactly when the policy selects an end, allows it or excepts it |
| PolicyMeaning.OneDirectionHits | controllers/openflow/flows.go:333-677 | the same for the ingress or the egress half of a policy alone |
| PolicyMeaning.PoliciesHit | controllers/openflow/flows.go:91-103 | the same for the flows of all policies together |
| Cluster.SelectorMatches | vendor/k8s.io/apimachinery/pkg/labels/selector.go:849-866 | the empty selector matches everything, and one more requirement holds exactly when the label is there with that value |
| Cluster.ListedNamespaces | vendor/k8s.io/client-go/tools/cache/listers.go:53-92 | a namespace lists its own pods only, the empty one all |
| PolicyVerdict.OthersPass | controllers/openflow/flows.go:116-124 | packets that are not IPv4 pass table 10 unchanged whatever the policies |
| PolicyVerdict.NeverMisses | controllers/openflow/flows.go:122-124 | table 10 has an answer for every packet |
| PolicyVerdict.Locality | controllers/openflow/flows.go:297-328 | adding or removing a policy changes the verdict only where the policy selects a local pod at an end of the packet |
| PolicyVerdict.TableLocality | controllers/openflow/flows.go:297-328 | and hence what table 10 does with any other packet is the same |
| PolicyVerdict.Monotonicity | controllers/openflow/flows.go:333-505 | rules without excepted blocks added to existing policies never turn an allowed packet into a denied one |
| PolicyVerdict.TableMonotonicity | controllers/openflow/flows.go:507-677 | and what passed table 10 still passes it, whatever the tie-break |
| PolicyVerdict.SameVerdict | controllers/openflow/flows.go:333-677 | permuting policies, rules, peers, namespaces, pods, ports or excepted blocks changes no verdict |
| PolicyVerdict.OrderIndependence | controllers/openflow/flows.go:340-358 | nor what the compiled table does, with any tie-break on either side |
| PolicyPorts.NumberedPort | controllers/openflow/flows.go:476-496 | a port number from 1 to 65535 lets the packets of the named protocol to that port match, and no others, at the ends that the direction gives |
| PolicyPorts.DigitsPort | vendor/k8s.io/apimachinery/pkg/util/intstr/intstr.go:101-107 | likewise a port given as the digits of its number |
| PolicyPorts.NamedPort | vendor/k8s.io/apimachinery/pkg/util/intstr/intstr.go:101-107 | a port text that is no number admits every port of the protocol |
| PolicyPorts.ZeroPort | flows/flows.go:84-90 | and so does port 0 |
| PolicyPorts.OtherProtocols | controllers/openflow/flows.go:360-385 | a protocol is TCP or UDP in any mixture of cases, or yields no flow |
| PolicyPorts.OnePortVerdict | controllers/openflow/flows.go:346-387 | with one ingress rule for one port, table 10 passes a packet for a selected pod exactly when it is of that protocol and to that port, whatever the tie-break |
| PolicyPorts.AtoiOfDigits | vendor/k8s.io/apimachinery/pkg/util/intstr/intstr.go:101-107 | the digits of a number convert to it as far as 64 bits reach |
| PolicyPorts.AtoiOfNoNumber | vendor/k8s.io/apimachinery/pkg/util/intstr/intstr.go:101-107 | every text with a character that belongs to no number, and every text without digits, converts to 0 |
| Text.LeadingDigit | vendor/k8s.io/apimachinery/pkg/util/intstr/intstr.go:101-107 | numbers are read with the most significant digit first, leading zeros included |
| Text.NoLeadingZero | flows/flows.go:60 | and written without leading zeros |
| PolicyMeaning.DirectionsOfRules | controllers/openflow/flows.go:333-677 | ingress rules protect, allow and except by the destination, egress rules by the source |
| PolicyMeaning.DirectionsOfPeers | controllers/openflow/flows.go:333-677 | and their peers are the source and the destination |
| Layout.PolicyInStrata | controllers/openflow/flows.go:333-677 | every flow of a policy lies in one of three priorities of table 10, each with a single action |
| Layout.Members | controllers/openflow/flows.go:54-112 | an entry is compiled exactly when the defaults, some vswitch, some pod or some policy contribute it |
| Layout.Shape | controllers/openflow/flows.go:37-48 | a compiled flow disposes of a packet at most once and resubmits only to later tables, unchanged |
| Routing.Classify | controllers/openflow/flows.go:126-149 | table 20 sends every IPv4 packet where the routing function's first case distinction says, for every tie-break |
| Routing.Forward30 | controllers/openflow/flows.go:184-224 | what any selected entry of table 30 does is the tunnel step of the routing function |
| Routing.Deliver60 | controllers/openflow/flows.go:258-263 | what any selected entry of table 60 does is delivery to the local pod with that address |
| Pipeline.RoutingRefined | controllers/openflow/flows.go:126-227 | every run of an IPv4 packet from table 20 ends as the routing function says |
| Pipeline.Forwarding | controllers/openflow/flows.go:114-272 | every run from table 0 drops the packet if the policies deny it and otherwise ends as the routing function says |
| Pipeline.Termination | controllers/openflow/flows.go:37-48 | every run from table 0 ends within five lookups, and one exists |
| Pipeline.OwnForwarderIsDead | controllers/openflow/flows.go:191-196 | the table 30 entry for the controller's own pod CIDR is selected in no run from table 0 |
| Switch.RunsExist | controllers/openflow/flows.go:37-48 | a packet has a run from every table when resubmits go forward |
| ArpPipeline.ArpAnswered | controllers/openflow/flows.go:151-159 | every run of an ARP packet asking for the gateway or a local pod with a known port ends in a correct reply out of the input port |
| ArpPipeline.AnswerAddress | controllers/openflow/flows.go:265-269 | the responder of an address is the one selected, and its sequential actions yield the correct reply |
| ArpPipeline.ArpElsewhere | controllers/openflow/flows.go:161-165 | any other ARP packet gets the cluster-wide reply inside the cluster CIDR and is dropped outside |
| ArpPipeline.ClusterResponderActs | controllers/openflow/flows.go:161-165 | the exact fields of the cluster-wide reply |
| ArpPipeline.ClusterReplyCorrectIff | controllers/openflow/flows.go:161-165 | that reply is correct exactly when the requester has the pods' MAC and asks for its own address |
| ArpPipeline.ClusterReplyForAnother | controllers/openflow/flows.go:161-165 | hence it is wrong for every request for another's address, such as a pod's on another node |
| Overlay.Delivery | controllers/openflow/flows.go:170-227 | a packet allowed on both nodes for a pod of the other node is tunnelled to that node's overlay address and there output on the pod's port |
| Overlay.NoLoop | controllers/openflow/flows.go:205-224 | no packet tunnelled by one node to another is ever sent to the overlay again there |
| Overlay.ConfiguredOwns | controllers/openflow/controller.go:85-89 | the assumption on the gateway holds for a controller that computed it from a pod CIDR with a prefix of at most 31 bits |
| Overlay.ConfiguredDelivery | controllers/openflow/flows.go:170-227 | delivery between nodes of such controllers, to any pod without the gateway's address |
| Overlay.ConfiguredNoLoop | controllers/openflow/flows.go:205-224 | no loops between such nodes |
| Overlay.TunnelledTo | controllers/openflow/flows.go:205-224 | what goes through the tunnel to a node is addressed to that node's subnet or overlay address |
| Example.ServerIsReached | controllers/openflow/flows.go:170-272 | in every two-node cluster without policies whose blocks and addresses meet numeric conditions, a packet for the pod of the other node is tunnelled there and output on its port |
| Example.TwoNodesAreSound | controllers/openflow/flows.go:114-272 | a plan of addresses that meets these conditions, so the assumptions on addresses are consistent |
| Overlay.OthersStay | controllers/openflow/flows.go:116-165 | packets that are not IPv4 never leave through a numbered port |
| ControllerModel.Controller.DefaultFlows | controllers/openflow/flows.go:114-168 | appends exactly the default entries |
| ControllerModel.Controller.FlowsForVSwitch | controllers/openflow/flows.go:170-227 | appends exactly the three entries of a vswitch, by whether it is the node's own |
| ControllerModel.Controller.IsLocalIP | controllers/openflow/flows.go:229-236 | whether an address is in the node's pod CIDR, and the error when that does not parse |
| ControllerModel.Controller.FlowsForPod | controllers/openflow/flows.go:238-272 | appends delivery and ARP entries for a local pod with a known port and nothing otherwise |
| ControllerModel.Controller.FlowsForNetworkPolicy | controllers/openflow/flows.go:288-331 | appends exactly the entries of a policy, ingress before egress |
| ControllerModel.Controller.LocalPodIPs | controllers/openflow/flows.go:297-318 | the addresses of the local pods that the policy selects, in order |
| ControllerModel.Controller.FlowsForDirection | controllers/openflow/flows.go:333-677 | the default drops and then, rule by rule, the entries of one direction |
| ControllerModel.Controller.AddRule | controllers/openflow/flows.go:346-387 | the entries of one rule, with and without peers |
| ControllerModel.Controller.AddPeer | controllers/openflow/flows.go:391-500 | the entries of one peer: block, skipped, or pods of its namespaces |
| ControllerModel.Controller.AddBlock | controllers/openflow/flows.go:392-415 | allow entries of a block and drop entries of its exceptions |
| ControllerModel.Controller.NamespacesOf | controllers/openflow/flows.go:426-446 | the namespaces of a peer with the fallback to the policy's own |
| ControllerModel.Controller.AddAllowPort | controllers/openflow/flows.go:476-496 | the tcp or udp entry of a port, or none for another protocol |
| ControllerModel.Controller.GetPodIPs | controllers/openflow/flows.go:679-691 | the non-empty addresses of the pods, in order |
| ControllerModel.Controller.SyncFlows | controllers/openflow/flows.go:54-112 | the buffer holds the compiled flows of the snapshot whatever it held before; a successful replacement installs them, a failed one changes nothing |
| ControllerModel.Controller.ReplaceFlows | flows/buffer.go:56-85 | the abstract replacement installs the whole buffer or nothing |
| ControllerModel.Controller.NeedsUpdate | controllers/openflow/flows.go:274-286 | only pods with a local address need an update |
| ControllerModel.Controller.OnPod | controllers/openflow/flows.go:712-754 | adding or updating a pod synchronises exactly when the pod is local |
| ControllerModel.Controller.OnDeletePod | controllers/openflow/flows.go:756-763 | deleting a pod evicts it from the cache and does not synchronise; a tombstone evicts nothing |
| ControllerModel.Controller.Deliver | controllers/openflow/flows.go:693-789 | the handler of any event does what the model of runs says |
| SyncModel.InstalledIsLastSync | controllers/openflow/flows.go:54-112 | after any run of events, failures and resyncs, what is installed is compiled from the snapshot of the last accepted synchronisation |
| SyncModel.InstalledForgetsHistory | controllers/openflow/flows.go:59-60 | and depends on nothing earlier when the OVS database changes no cached port |
| SyncModel.EventInstalls | controllers/openflow/flows.go:693-789 | event by event: an accepted resync, added or updated vswitch config, added, updated or deleted policy, and added or updated local pod with an address install the flows of that very snapshot |
| SyncModel.EventKeeps | controllers/openflow/flows.go:702-763 | every other event, and every replacement that fails, leaves what is installed as it was |
| SyncModel.DeleteEvicts | controllers/openflow/flows.go:756-763 | a delete evicts that pod's cached port and no other, a tombstone none |
| SyncModel.ResyncCatchesUp | controllers/openflow/controller.go:131-140 | if the OVS database changes no cached port, an accepted resync brings the switch up to date whatever was skipped or failed before |
| SyncModel.StablePortsAreOrderly | controllers/openflow/flows.go:756-763 | the database changes no cached port if ports change only after their pod's delete or before the pod is looked up, a condition on the events alone |
| SyncModel.StableResyncCatchesUp | controllers/openflow/controller.go:131-140 | hence in such a run an accepted resync brings the switch up to date |
| Installed.InstalledIsCompiled | flows/buffer.go:56-85 | after any run the installed text reads back as the flows compiled at the last accepted synchronisation, for objects whose texts are legible |
| Installed.InstalledForwards | controllers/openflow/flows.go:54-272 | from watch events to packets: every run of an IPv4 packet through the installed text ends as the policies and the routing function say for that snapshot |
| Installed.InstalledExecutes | flows/flows.go:95-129 | the same with the text carried out: an IPv4 packet on which the actions of the selected installed lines are performed one after another ends as the policies and the routing function say |
| Installed.InstalledAnswers | controllers/openflow/flows.go:151-159 | likewise an ARP request for the gateway or a local pod with a known port gets a correct reply out of its input port |
| Installed.InstalledHasRun | controllers/openflow/flows.go:37-48 | and every packet can be carried through the installed lines |
| Installed.InstalledIsCurrentIff | controllers/openflow/port_cache.go:55-88 | the installed text is what an empty cache would have given exactly when every local pod cached at that synchronisation still had its cached port |
| Installed.MissedDeleteLeavesStalePort | controllers/openflow/flows.go:756-763 | after a delete that arrives as a tombstone only, even an accepted resync installs a flow to the old port |
| SyncModel.RunStaysCoherent | controllers/openflow/port_cache.go:55-96 | in such a run the cache agrees with the database throughout |
| PortCacheModel.PortCache.GetPortInfo | controllers/openflow/port_cache.go:55-88 | a cached entry, or the answer of the three queries, which is cached only if all succeed |
| PortCacheModel.PortCache.DelPortInfo | controllers/openflow/port_cache.go:90-96 | evicts the pod's entry and no other |
| PortCacheModel.FillIsTransparent | controllers/openflow/port_cache.go:55-88 | looking a key up changes what no key resolves to, so that one synchronisation sees the same ports throughout |
| PortCacheModel.CacheIsInvisibleIff | controllers/openflow/port_cache.go:55-88 | the compiled flows are those of an empty cache exactly when every local pod of the snapshot that is cached is still known to the database under its cached port |
| PortCacheModel.PodFlowsAgreeIff | controllers/openflow/flows.go:238-272 | the same for one pod's flows, of which the cache never yields fewer |
| PortCacheModel.StaleEntryWithoutPod | controllers/openflow/port_cache.go:90-96 | a cache entry that outlives its pod changes the resolved ports and no flow |
| PortCacheModel.StaleEntryWithPod | controllers/openflow/port_cache.go:60-64 | for a pod that is still listed it yields a delivery flow to the old port |
| PortCacheModel.CoherentStays | controllers/openflow/port_cache.go:55-96 | a cache that agrees with the database keeps agreeing under lookups and evictions, and is invisible |
| PortCacheModel.KeysAreUnique | controllers/openflow/port_cache.go:51-53 | cache keys tell pods apart |
| Flows.Flow.String | flows/flows.go:55-129 | the line of a flow: its raw text, or its set fields and actions in order |
| Flows.Flow.WithRaw | flows/flows.go:190-193 | sets the raw text and no field |
| Flows.Flow.WithIPDest | flows/flows.go:150-153 | sets that field and no other, and returns the receiver |
| Flows.Flow.WithActionResubmit | flows/flows.go:217-220 | likewise for the resubmit action |
| Flows.FlowsBuffer.AddFlow | flows/buffer.go:43-46 | the buffer is the lines added since the last reset, and one more |
| Flows.FlowsBuffer.Reset | flows/buffer.go:52-54 | forgets them all |
| FlowReader.RenderIsReadable | flows/flows.go:55-129 | a reader recovers every field of a well-formed flow from its line, elided fields and the comma inside `resubmit(,N)` included |
| FlowReader.RenderIsInjective | flows/flows.go:55-129 | different well-formed flows are written differently |
| FlowReader.BufferSplits | flows/buffer.go:43-54 | splitting the buffer at newlines gives back the lines added |
| ScriptReader.EntryIsReadable | controllers/openflow/flows.go:265-268 | a line, of a built flow or of a raw responder, reads back as its entry and has no newline |
| ScriptReader.ScriptIsReadable | flows/buffer.go:43-54 | whatever legible flows were added since the reset, built or raw, are read back from the buffer in order with every field |
| Execution.ExecuteFlow | flows/flows.go:95-129 | performing the actions of a built flow's line in the order they are written sends the packet as rewritten by the flow, so rewrites come before what sends |
| Execution.ExecuteResponder | controllers/openflow/flows.go:265-268 | performing a responder's line, with its registers taken by name, sends the packet with all its actions applied out of the input port |
| Execution.PerformArp | controllers/openflow/flows.go:151-165 | the text of each of a responder's actions moves, loads or sets the fields that it names |
| Execution.ExecuteEntry | controllers/openflow/flows.go:37-48 | carrying out the line of a matching entry does the one thing that the entry does |
| Execution.LineRunIsRun | flows/buffer.go:56-85 | a run through installed lines is a run through their entries |
| Execution.RunIsLineRun | flows/buffer.go:56-85 | and conversely |
| SendQueue.ReachableInv | connection/connection.go:84-139 | the invariant of locks, wakeups, head, connection and conservation holds in every reachable state |
| SendQueue.HeadInRange | connection/connection.go:112-139 | the read of the queue's head is in range, although the waits are guarded by `if` |
| SendQueue.NoLostWakeup | connection/connection.go:84-98 | a consumer asleep on the queue or the connection has nothing to do, or the thread that supplied it wakes it next |
| SendQueue.ConnectionStays | connection/connection.go:92-98 | a connection once set is never unset |
| SendQueue.ConnectionIsLastAccepted | connection/connection.go:92-98 | whenever `SetConnection` is not under way the connection is the one accepted last in the execution, an earlier one being replaced |
| SendQueue.LastAcceptedAt | connection/connection.go:141-152 | that is, the one of the `Accept` after which there is no other |
| SendQueue.WritesGoToLastAccepted | connection/connection.go:100-110 | every write that succeeds from then on goes to it until another is accepted |
| SendQueue.WriteFindsConnection | connection/connection.go:100-110 | the consumer's write never takes the not-established branch, and writes the head of the queue |
| SendQueue.Conservation | connection/connection.go:112-139 | what was written followed by the queue is everything sent, in order, outside the window between write and pop |
| SendQueue.FailedWriteKeepsHead | connection/connection.go:127-137 | a failed write leaves its message at the head |
| SendQueue.NoCyclicWait | connection/connection.go:84-139 | the owner of the connection mutex waits for nothing, the owner of the queue mutex at most for the connection mutex |
| SendQueue.NeverStuck | connection/connection.go:84-139 | with a message queued and a connection set, some thread under way can step |
| SendQueue.EverythingIsDelivered | connection/connection.go:84-139 | every run of the threads under way is finite, and one that cannot be continued has returned from every call of `Send`, and has written everything sent if there is a connection and queued it all otherwise |
| SendQueue.SendNeverBlocks | connection/connection.go:84-90 | while some call of `Send` has not returned some thread can step, connection or not |
| Handshake.Loop.Initialize | controllers/openflow/controller.go:121-129 | sends one hello |
| Handshake.Loop.Run | controllers/openflow/controller.go:142-169 | sends the replies to what is received, in order, and keeps the last datapath ID |
| Handshake.Session | controllers/openflow/controller.go:121-169 | starting up and receiving sends exactly the trace |
| Handshake.TraceCounts | controllers/openflow/controller.go:121-169 | the trace is one hello, one echo reply per echo request and one features request per hello |
| Handshake.DatapathIDIsLast | controllers/openflow/controller.go:163-165 | the datapath ID is that of the last features reply |
| Handshake.WrittenIsPrefixOfTrace | cmd/k-vswitchd/main.go:252-265 | composed with the queue and with messages arriving one by one, what is written is a prefix of the trace of what was received, at every moment of every interleaving |
| Handshake.WrittenExtendsWithReceived | controllers/openflow/controller.go:142-169 | as more is received what is written only grows, within the longer trace |
| Handshake.HelloWaits | cmd/k-vswitchd/main.go:252-265 | the hello sent at start-up stays queued until there is a connection and is the first message written |
| Handshake.TraceIsDelivered | connection/connection.go:112-139 | and all of it once the threads are at rest with a connection |
| Reconcile.Reconciler.NodeOverlayIP | controllers/vswitchcfg/vswitchcfg.go:211-234 | the last internal address, else the last external one, else an error |
| Reconcile.LastAddressIs | controllers/vswitchcfg/vswitchcfg.go:214-223 | which of several addresses of a kind counts |
| Reconcile.Reconciler.NeedsUpdate | controllers/vswitchcfg/vswitchcfg.go:131-159 | a missing config, an error for an invalid node, or a difference in a field other than the service CIDR |
| Reconcile.Reconciler.SyncVSwitchConfig | controllers/vswitchcfg/vswitchcfg.go:161-209 | stores the desired config of a valid node, created or overwritten, and fails without change for an invalid one |
| Reconcile.Reconciler.OnAdd | controllers/vswitchcfg/vswitchcfg.go:74-95 | handles an added node as one step of the model, and returns on an object of another type |
| Reconcile.Reconciler.OnUpdate | controllers/vswitchcfg/vswitchcfg.go:97-117 | handles an updated node as one step of the model, and panics on an object of another type |
| Reconcile.Reconciler.OnDelete | controllers/vswitchcfg/vswitchcfg.go:119-129 | removes the node's config and no other, and panics on a tombstone |
| Reconcile.RunReflectsNodes | controllers/vswitchcfg/vswitchcfg.go:74-193 | from an empty store, after any run, each node has the desired config of its last valid version since its last delete, or none |
| Reconcile.RunConverges | controllers/vswitchcfg/vswitchcfg.go:131-193 | from any store, every field but the service CIDR agrees, and no second synchronisation is requested |
| Reconcile.StoredConfigIs | controllers/vswitchcfg/vswitchcfg.go:161-241 | after any run that ends in a version of a node with a pod CIDR, the stored overlay address is its last internal one if that is not empty, whatever the external ones, else the last external one; name, pod CIDR, cluster CIDR and overlay type are those of node and settings |
| Reconcile.CreatedConfigIs | controllers/vswitchcfg/vswitchcfg.go:173-193 | a new config has the service CIDR of the settings too |
| Reconcile.UnusableVersionKeeps | controllers/vswitchcfg/vswitchcfg.go:225-234 | a version without a pod CIDR or an address to use changes no config |
| Reconcile.ServiceCIDRIsStaleIff | controllers/vswitchcfg/vswitchcfg.go:151-158 | the config is wholly as desired except when it was there from the start with another service CIDR and nothing else about it changed |
| Reconcile.ServiceCIDRStaysStale | controllers/vswitchcfg/vswitchcfg.go:151-158 | an input: another service CIDR alone never reaches the config of an unchanged node |
| Reconcile.InvalidVersionsLeaveNoTrace | controllers/vswitchcfg/vswitchcfg.go:131-171 | a run with invalid versions of nodes is the run without them |
| Reconcile.WrittenConfigsAreNonEmpty | controllers/vswitchcfg/vswitchcfg.go:211-241 | every config the reconciler writes has an overlay address and a pod CIDR |
| Reconcile.RestrictedIff | controllers/openflow/flows.go:184-224 | the entries of a config all write their `nw_dst` match exactly when neither address is empty |
| Reconcile.NoWildcards | flows/flows.go:68-74 | from node events to flows: no entry compiled from a reconciled config matches anything but IPv4 packets for that node's subnet or overlay address |
| Gateway.GatewaysAgree | cmd/k-vswitch-cni/plugin.go:321-324 | for every subnet and every address in it, in four or sixteen bytes, the three computations give the same bytes, whose value is the network address plus one |
| Gateway.SubnetParses | cmd/k-vswitchd/main.go:303-317 | the parsed subnet is the network address, and masking it again changes nothing |
| Gateway.MaskClears | cmd/k-vswitch-cni/plugin.go:321-324 | masking byte by byte clears the host part of the number |
| Gateway.MaskIsNetwork | cmd/k-vswitch-cni/plugin.go:321-324 | every address of a block masks to the block's first address |
| Gateway.NextOfForm | vendor/github.com/containernetworking/plugins/pkg/ip/cidr.go:23-53 | the next address loses its leading zero bytes |
| Gateway.PluginGatewayV4 | cmd/k-vswitch-cni/plugin.go:321-324 | for an IPv4 address in either form the gateway's value is the network address plus one |
| Gateway.PluginGatewayV6 | cmd/k-vswitch-cni/plugin.go:321-324 | so it is for an IPv6 address, over 128 bits |
| Gateway.SixteenStaysSixteen | cmd/k-vswitch-cni/plugin.go:321-324 | masking an IPv6 address never yields the sixteen-byte form of an IPv4 address |
| Gateway.BlockIsRange | controllers/openflow/flows.go:229-236 | a block contains the addresses from its first one up to that plus its size, and no others |
| Gateway.GatewayIsInsideIff | controllers/openflow/controller.go:85-89 | the gateway lies inside the subnet without wrapping around exactly when the prefix length is at most 31 |
| Gateway.GatewayTextIs | controllers/openflow/controller.go:85-89 | the controller's gateway text is that address in dotted form if its first octet is not zero and it fits in four bytes, and otherwise marked as no address |
| Gateway.NoGateway | controllers/openflow/controller.go:85-89 | two inputs: 0.1.0.0/16 and 255.255.255.255/32 have no gateway address |
| Gateway.GatewayTextDenotes | controllers/openflow/controller.go:85-89 | hence the text covers the gateway alone in the first case, and nothing in the second |
| GatewayEntry.EntriesCompeteIff | controllers/openflow/flows.go:134-143 | the entries for the gateway and for the pod CIDR match a common packet exactly when the prefix length is at most 31 and the gateway's first octet is not zero |
| GatewayEntry.GatewayShadowsSubnet | controllers/openflow/flows.go:134-143 | a packet for the gateway matches both and goes to the local port, for every tie-break |
| GatewayEntry.GatewayIsInSubnet | controllers/openflow/controller.go:85-89 | the gateway entry covers no address outside the pod CIDR |
| GatewayEntry.LocalIsRange | controllers/openflow/flows.go:229-236 | in numbers: a pod address is local, and is covered by the text of the pod CIDR, exactly when it lies in the range of that block |
| Addresses.ParseDotted | controllers/openflow/flows.go:229-236 | four numbers up to 255 separated by dots are the address with those bytes, the most significant first |
| Bridge.IPAMResult.CalcGateways | cmd/k-vswitch-cni/plugin.go:258-319 | fails on an address of neither family, otherwise completes every address, adds the missing default routes and collects each family's gateways in order |
| Bridge.FamilyIs | cmd/k-vswitch-cni/plugin.go:268-279 | which byte strings are IPv4, IPv6 or no addresses |
| Bridge.DefaultsAreAddedOnce | cmd/k-vswitch-cni/plugin.go:293-307 | exactly one default route is added for each family that comes up while there is none with a gateway |
| Bridge.DefaultGoesThroughFirst | cmd/k-vswitch-cni/plugin.go:293-307 | the default route of a family goes through the gateway of its first address |
| Bridge.CompletedAt | cmd/k-vswitch-cni/plugin.go:282-289 | every address gets the container's interface, a given gateway is kept and a missing one is filled in exactly when the bridge is a gateway |
| Bridge.ComputedGatewayV4 | cmd/k-vswitch-cni/plugin.go:285-289 | the gateway filled in is the network address plus one |
| Bridge.ComputedGatewayV6 | cmd/k-vswitch-cni/plugin.go:285-289 | for IPv6 too |
| Bridge.FamilyListAt | cmd/k-vswitch-cni/plugin.go:309-316 | for a bridge that is a gateway each family's list has one entry per address of that family, in order, with its gateway and mask |
| Bridge.BridgeDevice.EnsureBridgeAddr | cmd/k-vswitch-cni/plugin.go:600-641 | fails exactly when a conflicting address is listed first and force is off, otherwise replaces those by the wanted address; an IPv4 bridge is left with that address alone exactly when no other is listed after it |
| Bridge.ConflictIffOverlap | cmd/k-vswitch-cni/plugin.go:600-641 | two different IPv6 addresses conflict exactly when their blocks have an address in common |
| Bridge.AddedAddressIsStable | cmd/k-vswitch-cni/plugin.go:600-641 | an address added without force is found again in whichever order addresses are listed later |

## Left out

- ControllerModel.Controller.IsLocalIP: does not model IPv6, whose pod CIDRs and addresses it takes for unreadable, because the whole data path of the model is IPv4.
- IPv6 on the data path, netmask notation and other spellings of addresses: the match semantics read dotted IPv4 addresses and CIDR blocks only, as the controller's flows use.
- Address text that Open vSwitch cannot read, such as a gateway text without an address or an IPv6 block: it is modelled as covering nothing, but `ovs-ofctl replace-flows` rejects the whole file, so such a synchronisation is one with `accepted` false.
- Action text with an arrow inside an address or MAC: the theorems about the text carried out assume none (`Installed.NoArrows`), as they assume texts without blanks, commas and newlines (`Installed.Legible`).
- Actions other than those that the controller writes do nothing in `Execution`; matches and priorities of an installed line are those that the reader of `ScriptReader` finds in it.
- Errors of listers and of the Kubernetes API: the four listers return one snapshot per synchronisation, and creating, updating and deleting a config succeeds. A synchronisation that fails before replacing the flows is the same as a failed replacement.
- What follows a panic: `OnUpdate` and `OnDelete` of the reconciler log an object of another type, such as the tombstone of a missed delete, and then dereference nil; the model reports the panic and stops there.
- Policy ports without a port number or a protocol: the code reads both without a check.
- Label selectors whose keys or values are not valid labels, which the label library turns into selectors for everything.
- `MatchExpressions`, `PolicyTypes`, SCTP and connection tracking, which the code does not look at.
- The two functions for ingress and egress policies are mirror images; `FlowsForDirection` models both with the direction as a parameter.
- `WithArpDest`, `WithArpSrc`, `WithTCPSrcPort` and `WithUDPSrcPort`, which nothing calls, although the fields they set are rendered and read back; `Validate`, which does nothing.
- `ovs-ofctl`, its process and the goroutine that feeds it: replacing the flows is one step that succeeds or fails. `ovs-vsctl` is a database answered by pod key and port name.
- Timing: the period of resyncs, log levels and metrics.
- The switch's own rule that a packet is not output to the port it came in on, unless `in_port` says so.
- Framing of received messages (`handleConn`) and the contents of OpenFlow messages: received messages are an input sequence. Transaction identifiers of echoes are not part of this model.
- Memory model and fairness: each lock, wait, broadcast, write and pop is one atomic step, and delivery is stated for runs that cannot be continued.
- The rest of the CNI plugin (`cmdAdd`, `cmdDel`, veth setup, port lookup) and of the daemon (links, routes, iptables, sysctls); errors of netlink calls; setting the bridge's MAC.
- Generated clients, informers and deep copies under `apis/`.
