/** What the node list computed by `GetNodes` promises to the discovery base class. */
module DiscoveryProperties {
  import opened Wrappers
  import opened Linq
  import opened Pods
  import opened KubernetesDiscovery

  /** With no pods listed, the node list is the self address alone. */
  lemma EmptyListingYieldsSelf(s: Service, self: Address, onlyAlive: bool)
    ensures GetNodes(s, Ok([]), self, onlyAlive) == Ok([self])
  {
  }

  /** The self address occurs exactly once in every node list. */
  lemma SelfOccursOnce(s: Service, listing: Result<seq<Option<Pod>>, Fault>, self: Address, onlyAlive: bool)
    requires GetNodes(s, listing, self, onlyAlive).Ok?
    ensures multiset(GetNodes(s, listing, self, onlyAlive).value)[self] == 1
  {
    OccursOnce(GetNodes(s, listing, self, onlyAlive).value, self);
  }

  /** The node list is exactly the self address and the addresses of the selected pods. */
  lemma NodesAreSelfAndSelectedPods(
    s: Service, pods: seq<Option<Pod>>, self: Address, onlyAlive: bool, a: Address)
    requires GetNodes(s, Ok(pods), self, onlyAlive).Ok?
    ensures a in GetNodes(s, Ok(pods), self, onlyAlive).value
      <==> a == self || exists i :: 0 <= i < |pods| && Contributes(s, pods[i], onlyAlive, a)
  {
    var nodes := SelectNodes(s, pods, onlyAlive).value;
    var r := Distinct(nodes + [self]);
    if a in r {
      var k :| 0 <= k < |r| && r[k] == a;
      assert a in nodes + [self];
    }
    if a == self || a in nodes {
      assert a in nodes + [self];
      var k :| 0 <= k < |nodes + [self]| && (nodes + [self])[k] == a;
    }
  }

  /**
   * Soundness: every node other than self is an `akka.tcp` address of the
   * local actor system on the service's port, whose host is the IP of a pod.
   */
  lemma NodesComeFromPods(
    s: Service, pods: seq<Option<Pod>>, self: Address, onlyAlive: bool, a: Address)
    requires GetNodes(s, Ok(pods), self, onlyAlive).Ok?
    requires a in GetNodes(s, Ok(pods), self, onlyAlive).value && a != self
    ensures a.protocol == TcpProtocol && a.system == s.actorSystemName && a.port == Some(s.tcpPort)
    ensures exists i :: 0 <= i < |pods| && HasPodIP(pods[i]) && a.host == Some(PodIP(pods[i]))
  {
  }

  /** Without the liveness filter, the poll fails only when the listing fails or a pod cannot be summarised. */
  lemma UnfilteredPollFailsOnlyOnNulls(s: Service, listing: Result<seq<Option<Pod>>, Fault>, self: Address)
    ensures GetNodes(s, listing, self, false).Ok?
      <==> listing.Ok? && forall i :: 0 <= i < |listing.value| ==> Summarizable(listing.value[i])
  {
  }

  /** Completeness: without the liveness filter, every pod with an IP contributes its address. */
  lemma UnfilteredNodesIncludeEveryPodWithIP(
    s: Service, pods: seq<Option<Pod>>, self: Address, i: int)
    requires GetNodes(s, Ok(pods), self, false).Ok?
    requires 0 <= i < |pods| && HasPodIP(pods[i])
    ensures PodAddress(s, PodIP(pods[i])) in GetNodes(s, Ok(pods), self, false).value
  {
    NodesAreSelfAndSelectedPods(s, pods, self, false, PodAddress(s, PodIP(pods[i])));
    assert Contributes(s, pods[i], false, PodAddress(s, PodIP(pods[i])));
  }

  /**
   * The readiness filter: with `onlyAlive`, a pod whose address is neither the
   * self address nor shared with another pod appears in the node list exactly
   * when all its conditions are "True" and its phase is "Running".
   */
  lemma AliveNodesAreReadyPods(
    s: Service, pods: seq<Option<Pod>>, self: Address, i: int)
    requires GetNodes(s, Ok(pods), self, true).Ok?
    requires 0 <= i < |pods| && HasPodIP(pods[i])
    requires PodAddress(s, PodIP(pods[i])) != self
    requires forall j :: 0 <= j < |pods| && j != i && HasPodIP(pods[j]) ==> PodIP(pods[j]) != PodIP(pods[i])
    ensures PodAddress(s, PodIP(pods[i])) in GetNodes(s, Ok(pods), self, true).value
      <==> IsReady(pods[i].value.status.value)
  {
    var a := PodAddress(s, PodIP(pods[i]));
    NodesAreSelfAndSelectedPods(s, pods, self, true, a);
    if j :| 0 <= j < |pods| && Contributes(s, pods[j], true, a) {
      assert PodIP(pods[j]) == PodIP(pods[i]);
      assert j == i;
    }
    if IsReady(pods[i].value.status.value) {
      assert Contributes(s, pods[i], true, a);
    }
  }

  /**
   * Monotonicity: when the filtered poll succeeds, so does the unfiltered one,
   * and every node it reports is reported by the unfiltered one.
   */
  lemma AliveNodesAreAmongAllNodes(s: Service, listing: Result<seq<Option<Pod>>, Fault>, self: Address)
    requires GetNodes(s, listing, self, true).Ok?
    ensures GetNodes(s, listing, self, false).Ok?
    ensures forall a :: a in GetNodes(s, listing, self, true).value ==> a in GetNodes(s, listing, self, false).value
  {
    UnfilteredPollFailsOnlyOnNulls(s, listing, self);
    forall a | a in GetNodes(s, listing, self, true).value
      ensures a in GetNodes(s, listing, self, false).value
    {
      NodesAreSelfAndSelectedPods(s, listing.value, self, true, a);
      NodesAreSelfAndSelectedPods(s, listing.value, self, false, a);
    }
  }

  /**
   * The null checks `pod?.Status?` of the filter never decide anything: a poll
   * that succeeds has seen a pod and a status for every entry.
   */
  lemma SuccessfulPollHasNoNullPods(
    s: Service, pods: seq<Option<Pod>>, self: Address, onlyAlive: bool, i: int)
    requires GetNodes(s, Ok(pods), self, onlyAlive).Ok?
    requires 0 <= i < |pods|
    ensures pods[i].Some? && pods[i].value.status.Some?
  {
  }

  /**
   * When the selected pods give pairwise different addresses, none of them
   * the self address, the node list is those addresses in pod order, with
   * the self address last.
   */
  lemma SelfAppendedWhenFresh(
    s: Service, pods: seq<Option<Pod>>, self: Address, onlyAlive: bool)
    requires GetNodes(s, Ok(pods), self, onlyAlive).Ok?
    requires NoDuplicates(SelectNodes(s, pods, onlyAlive).value)
    requires self !in SelectNodes(s, pods, onlyAlive).value
    ensures GetNodes(s, Ok(pods), self, onlyAlive).value == SelectNodes(s, pods, onlyAlive).value + [self]
  {
    DistinctAppendFresh(SelectNodes(s, pods, onlyAlive).value, self);
  }

  /** Every node other than self carries the port the constructor chose. */
  lemma NodesUseResolvedPort(
    defaultAddress: Address, configuredPort: int, pods: seq<Option<Pod>>, self: Address, onlyAlive: bool, a: Address)
    requires GetNodes(NewService(defaultAddress, configuredPort), Ok(pods), self, onlyAlive).Ok?
    requires a in GetNodes(NewService(defaultAddress, configuredPort), Ok(pods), self, onlyAlive).value && a != self
    ensures a.port == Some(if defaultAddress.port.Some? then defaultAddress.port.value else configuredPort)
    ensures a.system == defaultAddress.system
  {
  }

  /** The hooks are idempotent and leave the node list unchanged. */
  lemma HooksAreIdempotent(s: Service, node: MemberEntry)
    ensures RegisterNode(RegisterNode(s, node), node) == RegisterNode(s, node)
    ensures DeregisterNode(DeregisterNode(s, node), node) == DeregisterNode(s, node)
    ensures MarkAsAlive(MarkAsAlive(s, node), node) == MarkAsAlive(s, node)
  {
  }

  lemma HooksKeepNodeList(
    s: Service, node: MemberEntry, listing: Result<seq<Option<Pod>>, Fault>, self: Address, onlyAlive: bool)
    ensures GetNodes(RegisterNode(s, node), listing, self, onlyAlive) == GetNodes(s, listing, self, onlyAlive)
    ensures GetNodes(DeregisterNode(s, node), listing, self, onlyAlive) == GetNodes(s, listing, self, onlyAlive)
    ensures GetNodes(MarkAsAlive(s, node), listing, self, onlyAlive) == GetNodes(s, listing, self, onlyAlive)
  {
  }
}
