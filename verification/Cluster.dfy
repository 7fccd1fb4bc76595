/** The cluster objects the controller watches, and how its listers select them. */
module Cluster {
  import opened Collections
  import opened Text
  import opened Addresses

  type Labels = map<string, string>

  datatype Pod = Pod(namespace: string, name: string, labels: Labels, ip: string)

  datatype Namespace = Namespace(name: string, labels: Labels)

  datatype IntOrString = IntVal(n: int) | StrVal(s: string) {
    /** A named port that is no number counts as 0. */
    function IntValue(): int {
      match this
      case IntVal(n) => n
      case StrVal(s) => Atoi(s)
    }
  }

  datatype PolicyPort = PolicyPort(protocol: string, port: IntOrString)

  datatype IPBlock = IPBlock(cidr: string, except: seq<string>)

  datatype Peer = Peer(ipBlock: Option<IPBlock>, podSelector: Option<Labels>, namespaceSelector: Option<Labels>)

  datatype Rule = Rule(ports: seq<PolicyPort>, peers: seq<Peer>)

  datatype Policy = Policy(namespace: string, name: string, podSelector: Labels,
                           ingress: seq<Rule>, egress: seq<Rule>)

  datatype VSwitch = VSwitch(name: string, podCIDR: string, clusterCIDR: string, serviceCIDR: string,
                             overlayIP: string, overlayType: string)

  /** What the four listers return during one synchronisation. */
  datatype Snapshot = Snapshot(vswitches: seq<VSwitch>, pods: seq<Pod>, namespaces: seq<Namespace>,
                               policies: seq<Policy>)

  /** The fields a controller is constructed with. */
  datatype Config = Config(nodeName: string, gatewayIP: string, bridgeMAC: string, clusterWideMAC: string,
                           podCIDR: string, clusterCIDR: string, clusterWideOFPort: int, overlayOFPort: int)

  /** `labels.Set(selector).AsSelector().Matches(labels)`; the empty selector selects everything. */
  predicate LabelsMatch(selector: Labels, labels: Labels) {
    forall k :: k in selector ==> k in labels && labels[k] == selector[k]
  }

  /** The empty selector matches everything, and one more requirement holds exactly if the
      label is there with that value. */
  lemma SelectorMatches(selector: Labels, key: string, value: string, labels: Labels)
    requires key !in selector
    ensures LabelsMatch(map[], labels)
    ensures LabelsMatch(selector[key := value], labels)
            <==> LabelsMatch(selector, labels) && key in labels && labels[key] == value
  {
    var more := selector[key := value];
    if LabelsMatch(more, labels) {
      assert key in more;
      forall k | k in selector ensures k in labels && labels[k] == selector[k] {
        assert k in more && more[k] == selector[k];
      }
    }
  }

  /** Is `pod` listed by `podLister.Pods(namespace).List(selector)`? The empty namespace means all. */
  predicate Lists(namespace: string, selector: Labels, pod: Pod) {
    (namespace == "" || pod.namespace == namespace) && LabelsMatch(selector, pod.labels)
  }

  /** A namespace lists its own pods only; the empty one stands for all namespaces. */
  lemma ListedNamespaces(namespace: string, selector: Labels, pod: Pod)
    ensures namespace != "" && pod.namespace != namespace ==> !Lists(namespace, selector, pod)
    ensures namespace == "" || pod.namespace == namespace
            ==> (Lists(namespace, selector, pod) <==> LabelsMatch(selector, pod.labels))
    ensures Lists("", map[], pod) && Lists(pod.namespace, map[], pod)
  {
  }

  function PodsIn(pods: seq<Pod>, namespace: string, selector: Labels): (r: seq<Pod>)
    ensures forall p :: p in r <==> p in pods && Lists(namespace, selector, p)
  {
    Where((p: Pod) => Lists(namespace, selector, p), pods)
  }

  function NamespacesFor(namespaces: seq<Namespace>, selector: Labels): (r: seq<Namespace>)
    ensures forall n :: n in r <==> n in namespaces && LabelsMatch(selector, n.labels)
  {
    Where((n: Namespace) => LabelsMatch(selector, n.labels), namespaces)
  }

  /** `isLocalIP` when the node's pod CIDR parses. */
  predicate IsLocal(cfg: Config, ip: string) {
    var net := ParseCIDR(cfg.podCIDR);
    net.Some? && ParseIP(ip).Some? && net.value.Contains(ParseIP(ip).value)
  }
}
