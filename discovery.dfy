/**
 * The node-list computation of `KubernetesDiscoveryService`: the pods listed
 * by the Kubernetes API are filtered (an IP is required, readiness optionally),
 * mapped to `akka.tcp` addresses on one fixed port, the node's own address is
 * appended and duplicates are removed. Also the port fallback of the
 * constructor and the three no-op membership hooks.
 */
module KubernetesDiscovery {
  import opened Wrappers
  import opened Linq
  import opened Pods

  /** An Akka `Address`; host and port may be absent. Equality is field by field. */
  datatype Address = Address(protocol: string, system: string, host: Option<string>, port: Option<int>)

  const TcpProtocol := "akka.tcp"

  /** The values the service fixes at construction and uses when it builds addresses. */
  datatype Service = Service(tcpPort: int, actorSystemName: string)

  /** The discovery base class's record of a tracked node, handed to the hooks. */
  datatype MemberEntry = MemberEntry(address: Address)

  /**
   * The constructor: the port of the provider's default address when it has
   * one, otherwise the configured `akka.remote.dot-netty.tcp.port`; the system
   * name of the default address.
   */
  function NewService(defaultAddress: Address, configuredPort: int): (s: Service)
    ensures defaultAddress.port.Some? ==> s.tcpPort == defaultAddress.port.value
    ensures defaultAddress.port.None? ==> s.tcpPort == configuredPort
    ensures s.actorSystemName == defaultAddress.system
  {
    var port := match defaultAddress.port
      case Some(p) => p
      case None => configuredPort;
    Service(port, defaultAddress.system)
  }

  // ---------------------------------------------------------------------------
  // Reference definitions

  /** `pod?.Status?.PodIP != null`. */
  predicate HasPodIP(pod: Option<Pod>) {
    pod.Some? && pod.value.status.Some? && pod.value.status.value.podIP.Some?
  }

  function PodIP(pod: Option<Pod>): string
    requires HasPodIP(pod)
  {
    pod.value.status.value.podIP.value
  }

  /** The address the service gives a pod at `ip`. */
  function PodAddress(s: Service, ip: string): Address {
    Address(TcpProtocol, s.actorSystemName, Some(ip), Some(s.tcpPort))
  }

  /** The pod passes the filter: it has an IP and, when only live pods are wanted, it is ready. */
  predicate Selected(pod: Option<Pod>, onlyAlive: bool) {
    HasPodIP(pod) && (!onlyAlive || IsReady(pod.value.status.value))
  }

  /** Address `a` is the one a selected pod contributes. */
  predicate Contributes(s: Service, pod: Option<Pod>, onlyAlive: bool, a: Address) {
    Selected(pod, onlyAlive) && a == PodAddress(s, PodIP(pod))
  }

  /** The debug summary of a pod can be written: the pod, its status and its condition list are not null. */
  predicate Summarizable(pod: Option<Pod>) {
    pod.Some? && pod.value.status.Some? && pod.value.status.value.conditions.Some?
  }

  // ---------------------------------------------------------------------------
  // The pipeline

  /**
   * The summary of all pods written to the debug log before filtering. It
   * reads `pod.Status.PodIP`, `pod.Status.Phase` and `pod.Status.Conditions`
   * without null checks, so the first pod that is null, has a null status or
   * has a null condition list raises; the text itself is not modelled.
   */
  function SummaryFault(pods: seq<Option<Pod>>): (r: Option<Fault>)
    ensures r.None? <==> forall i :: 0 <= i < |pods| ==> Summarizable(pods[i])
    decreases |pods|
  {
    if pods == [] then None
    else
      var rest := SummaryFault(pods[1..]);
      assert forall i :: 1 <= i < |pods| ==> pods[i] == pods[1..][i - 1];
      match pods[0]
      case None => Some(NullDereference)
      case Some(p) =>
        match p.status
        case None => Some(NullDereference)
        case Some(st) => if st.conditions.None? then Some(NullArgument) else rest
  }

  /** The `Where` predicate: `pod?.Status?.PodIP != null && (!onlyAlive || (ConditionsOK(...) && StatusOK(...)))`. */
  function Admit(pod: Option<Pod>, onlyAlive: bool): (r: Result<bool, Fault>)
    ensures r == Ok(true) <==> Selected(pod, onlyAlive)
    ensures r.Err? <==> onlyAlive && HasPodIP(pod) && ReadinessThrows(pod.value.status.value)
  {
    if !HasPodIP(pod) then Ok(false)
    else if !onlyAlive then Ok(true)
    else Readiness(pod.value.status.value)
  }

  /** `Where(...).Select(pod => new Address("akka.tcp", actorSystemName, pod.Status.PodIP, tcpPort)).ToList()`. */
  function SelectNodes(s: Service, pods: seq<Option<Pod>>, onlyAlive: bool): (r: Result<seq<Address>, Fault>)
    ensures r.Err? <==> exists i :: 0 <= i < |pods| && Admit(pods[i], onlyAlive).Err?
    ensures r.Ok? ==> |r.value| <= |pods|
    ensures r.Ok? ==> forall a :: a in r.value <==> exists i :: 0 <= i < |pods| && Contributes(s, pods[i], onlyAlive, a)
    decreases |pods|
  {
    if pods == [] then Ok([])
    else
      var rest := SelectNodes(s, pods[1..], onlyAlive);
      assert forall i :: 1 <= i < |pods| ==> pods[i] == pods[1..][i - 1];
      match Admit(pods[0], onlyAlive)
      case Err(e) => Err(e)
      case Ok(keep) =>
        match rest
        case Err(e) => Err(e)
        case Ok(nodes) =>
          if keep then Ok([PodAddress(s, PodIP(pods[0]))] + nodes) else Ok(nodes)
  }

  /**
   * `GetNodesAsync`: a failed listing is passed on; otherwise the pods are
   * summarised, filtered and mapped, the self address is added and duplicates
   * are removed.
   */
  function GetNodes(s: Service, listing: Result<seq<Option<Pod>>, Fault>, self: Address, onlyAlive: bool)
    : (r: Result<seq<Address>, Fault>)
    ensures listing.Err? ==> r == Err(listing.error)
    ensures r.Ok? ==> self in r.value && NoDuplicates(r.value)
    ensures r.Ok? ==> |r.value| <= |listing.value| + 1
  {
    match listing
    case Err(e) => Err(e)
    case Ok(pods) =>
      match SummaryFault(pods)
      case Some(e) => Err(e)
      case None =>
        match SelectNodes(s, pods, onlyAlive)
        case Err(e) => Err(e)
        case Ok(nodes) => Ok(Distinct(nodes + [self]))
  }

  // ---------------------------------------------------------------------------
  // The membership hooks: the Kubernetes API is only read, so they do nothing.

  function RegisterNode(s: Service, node: MemberEntry): (s': Service)
    ensures s' == s
  {
    s
  }

  function DeregisterNode(s: Service, node: MemberEntry): (s': Service)
    ensures s' == s
  {
    s
  }

  function MarkAsAlive(s: Service, node: MemberEntry): (s': Service)
    ensures s' == s
  {
    s
  }
}
