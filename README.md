# Kubernetes node discovery for an Akka.NET cluster — node-list model

This project models the part of `KubernetesDiscoveryService` that computes the cluster's node list. The service is an Akka.NET cluster discovery plugin for Kubernetes. On every poll, `GetNodesAsync(onlyAlive)` takes the pods that the Kubernetes API lists for the configured namespace and label selector and does four things:

1. It keeps the pods that have a pod IP. When `onlyAlive` is set, it also requires every pod condition to have status `"True"` and the pod phase to be `"Running"` (ordinal, case-sensitive comparison; an empty condition list passes).
2. It turns each kept pod into the address `akka.tcp://<system>@<pod IP>:<port>`. The system name and the port are the ones the service fixed at construction.
3. It appends the node's own address (`Cluster.SelfAddress`).
4. It removes duplicate addresses, keeping first occurrences in order.

A failed pod listing is logged and rethrown. The three membership hooks (register, deregister, mark alive) do nothing, because the Kubernetes API is only read.

The model is pure: datatypes, functions and lemmas in four modules.

- `Wrappers` (wrappers.dfy): `Option` stands for a C# reference that may be null. `Result` stands for a value or a thrown exception.
- `Linq` (linq.dfy): `Enumerable.Distinct` and its properties.
- `Pods` (pods.dfy): the pod records (`V1Pod`, `V1PodStatus`, `V1PodCondition`), the exceptions, and the readiness rule of `ConditionsOK` and `StatusOK`.
- `KubernetesDiscovery` (discovery.dfy): the constructor's port fallback, the filter, the pipeline `GetNodes` and the hooks.
- `DiscoveryProperties` (discovery_properties.dfy): what the node list promises. This covers self-inclusion exactly once, no duplicates, soundness, completeness, the readiness filter, monotonicity in `onlyAlive` and the length bound.

Every reference that the code dereferences is nullable in the model. That matters for one reason. The debug line before the filter builds a summary of every pod, and it reads `pod.Status.PodIP`, `pod.Status.Phase` and `pod.Status.Conditions` without null checks. So a null pod, a null status or a null condition list makes the whole poll throw, and the exception is rethrown. The `?.` guards in the filter never get to skip such a pod (lemma `SuccessfulPollHasNoNullPods`). The filter can throw only when `onlyAlive` is set, in two cases:
- a null condition status is reached before any status other than `"True"`;
- all statuses are `"True"` and the phase is null.

## Model

| member | source | states |
|---|---|---|
| `Linq.Distinct` | src/Akka.Cluster.Discovery.KubernetesApi/KubernetesDiscoveryService.cs:92 | the result has no duplicates, holds exactly the elements of the input, and is no longer than the input |
| `Linq.DistinctAppendFresh` | src/Akka.Cluster.Discovery.KubernetesApi/KubernetesDiscoveryService.cs:91-92 | appending an absent element to a duplicate-free list and deduplicating keeps the list and puts the element last |
| `Pods.AllTrue` | src/Akka.Cluster.Discovery.KubernetesApi/KubernetesDiscoveryService.cs:107 | `All(x => x.Status.Equals("True"))` is true iff every status is "True"; it throws iff a null status comes before any other status |
| `Pods.ConditionsOK` | src/Akka.Cluster.Discovery.KubernetesApi/KubernetesDiscoveryService.cs:105-108 | true iff the list is non-null and every status is "True" (so an empty list is OK); throws on a null list or a null status reached first |
| `Pods.StatusOK` | src/Akka.Cluster.Discovery.KubernetesApi/KubernetesDiscoveryService.cs:110-113 | true iff the phase is exactly "Running"; throws iff the phase is null |
| `Pods.Readiness` | src/Akka.Cluster.Discovery.KubernetesApi/KubernetesDiscoveryService.cs:87 | the short-circuit conjunction is true iff the pod is ready (all conditions "True" and phase "Running"); it throws exactly in the cases `ReadinessThrows` lists |
| `KubernetesDiscovery.NewService` | src/Akka.Cluster.Discovery.KubernetesApi/KubernetesDiscoveryService.cs:51-52 | the port is the default address's port when present, else the configured dot-netty port; the system name is the default address's |
| `KubernetesDiscovery.SummaryFault` | src/Akka.Cluster.Discovery.KubernetesApi/KubernetesDiscoveryService.cs:84 | the debug summary of the pods raises nothing iff every pod, its status and its condition list are non-null |
| `KubernetesDiscovery.Admit` | src/Akka.Cluster.Discovery.KubernetesApi/KubernetesDiscoveryService.cs:87 | the filter keeps a pod iff it has an IP and, with `onlyAlive`, is ready; it throws only with `onlyAlive`, on a pod with an IP whose readiness cannot be evaluated |
| `KubernetesDiscovery.SelectNodes` | src/Akka.Cluster.Discovery.KubernetesApi/KubernetesDiscoveryService.cs:86-89 | filtering and mapping fails iff some pod's filter throws; otherwise an address is in the result iff some selected pod maps to it, and the result is no longer than the pod list |
| `KubernetesDiscovery.GetNodes` | src/Akka.Cluster.Discovery.KubernetesApi/KubernetesDiscoveryService.cs:77-103 | a failed listing is passed on unchanged; a node list contains the self address, has no duplicates and is at most one longer than the pod list |
| `KubernetesDiscovery.RegisterNode` | src/Akka.Cluster.Discovery.KubernetesApi/KubernetesDiscoveryService.cs:115 | registering a node leaves the service unchanged |
| `KubernetesDiscovery.DeregisterNode` | src/Akka.Cluster.Discovery.KubernetesApi/KubernetesDiscoveryService.cs:116 | deregistering a node leaves the service unchanged |
| `KubernetesDiscovery.MarkAsAlive` | src/Akka.Cluster.Discovery.KubernetesApi/KubernetesDiscoveryService.cs:117 | marking a node alive leaves the service unchanged |
| `DiscoveryProperties.EmptyListingYieldsSelf` | src/Akka.Cluster.Discovery.KubernetesApi/KubernetesDiscoveryService.cs:86-92 | an empty pod list yields exactly the self address |
| `DiscoveryProperties.SelfOccursOnce` | src/Akka.Cluster.Discovery.KubernetesApi/KubernetesDiscoveryService.cs:91-92 | the self address occurs exactly once in every node list, even when a pod maps to it |
| `DiscoveryProperties.NodesAreSelfAndSelectedPods` | src/Akka.Cluster.Discovery.KubernetesApi/KubernetesDiscoveryService.cs:86-92 | an address is a node iff it is the self address or the address of a pod that passes the filter |
| `DiscoveryProperties.NodesComeFromPods` | src/Akka.Cluster.Discovery.KubernetesApi/KubernetesDiscoveryService.cs:87-88 | every node other than self is an `akka.tcp` address of the local system on the service's port, whose host is some pod's IP |
| `DiscoveryProperties.UnfilteredPollFailsOnlyOnNulls` | src/Akka.Cluster.Discovery.KubernetesApi/KubernetesDiscoveryService.cs:82-89 | without `onlyAlive`, a poll succeeds iff the listing succeeds and no pod, status or condition list is null |
| `DiscoveryProperties.UnfilteredNodesIncludeEveryPodWithIP` | src/Akka.Cluster.Discovery.KubernetesApi/KubernetesDiscoveryService.cs:87-88 | without `onlyAlive`, every pod with an IP contributes its address |
| `DiscoveryProperties.AliveNodesAreReadyPods` | src/Akka.Cluster.Discovery.KubernetesApi/KubernetesDiscoveryService.cs:87 | with `onlyAlive`, a pod whose address is neither self nor shared with another pod is a node iff all its conditions are "True" and its phase is "Running" |
| `DiscoveryProperties.AliveNodesAreAmongAllNodes` | src/Akka.Cluster.Discovery.KubernetesApi/KubernetesDiscoveryService.cs:87 | if the `onlyAlive` poll succeeds, the unfiltered poll of the same listing succeeds and reports every node it reports |
| `DiscoveryProperties.SuccessfulPollHasNoNullPods` | src/Akka.Cluster.Discovery.KubernetesApi/KubernetesDiscoveryService.cs:84-87 | a successful poll has a non-null pod and status for every entry, so the `?.` guards of the filter only ever test the pod IP |
| `DiscoveryProperties.SelfAppendedWhenFresh` | src/Akka.Cluster.Discovery.KubernetesApi/KubernetesDiscoveryService.cs:86-92 | when the selected pods give distinct addresses, none of them self, the node list is those addresses in pod order followed by self |
| `DiscoveryProperties.NodesUseResolvedPort` | src/Akka.Cluster.Discovery.KubernetesApi/KubernetesDiscoveryService.cs:51-52 | every node other than self carries the constructor's port (default-address port, else configured) and system name |
| `DiscoveryProperties.HooksAreIdempotent` | src/Akka.Cluster.Discovery.KubernetesApi/KubernetesDiscoveryService.cs:115-117 | applying any hook twice has the same effect as applying it once |
| `DiscoveryProperties.HooksKeepNodeList` | src/Akka.Cluster.Discovery.KubernetesApi/KubernetesDiscoveryService.cs:115-117 | the hooks do not change the node list a later poll computes |

## Left out

- Kubernetes client creation and the periodic `RestartClient` handler (lines 57-75): in-cluster credentials, disposal and re-creation of the HTTP client. This is I/O in a foreign library.
- The pod listing call (line 82): the model takes its outcome as a parameter, either the pod list or the exception it raised. The namespace and label selector only shape that external query.
- The text of the log messages (lines 79, 84, 94, 100). The model keeps only the exceptions the summary on line 84 can raise.
- Asynchrony: `Task` and `await` are not modelled. `GetNodes` is the value the task completes with, or the exception it faults with.
- `Cluster.SelfAddress` and the provider's default address come from the actor-system runtime. They are parameters.
- The configured port is whatever `Config.GetInt("akka.remote.dot-netty.tcp.port")` returns. HOCON parsing is not part of this model.
- Akka's `Address` type is not part of this model. Its equality is assumed to compare protocol, system, host and port exactly.
- `Enumerable.Distinct` is modelled as keeping first occurrences in input order, which is what the .NET implementation does.
- Null entries inside the condition list: each condition is a non-null record whose `Status` may be null.
- The discovery base class (`LocklessDiscoveryService`) is not part of this model. That covers the periodic reconciler, its timers, the turn-based join coordinator and the `MemberEntry` bookkeeping. `MemberEntry` is reduced to the address the hooks receive.
- `KubernetesSettings` is not modelled: it only reads the namespace (lower-cased) and label selector from configuration.
- The sample application (`Program.cs`, `Worker.cs`, `SampleActor.cs`) is hosting glue and is not modelled.
