# Verified model of the resource topology exporter

The resource topology exporter is a daemon that runs on every node of a cluster. On each event it asks the kubelet
what pods hold, accounts for it per NUMA node, publishes one NodeResourceTopology object to the API server, and
reports pod conditions about its own health. This project models the parts of it that carry state or are hard to get
right, and proves what they guarantee over whole runs.

`dafny verify dfyconfig.toml` checks everything.

## What is modelled

- **Merge patches** (`MergePatch.dfy`, `NrtDocument.dfy`): JSON trees, patch application as in section 2 of RFC 7396, the
  two-way difference, and the three-way form the publisher asks for. The merge patch library is not part of the
  repository; its three-way call is modelled as the additions and changes of one difference merged into the removals of
  the other, refused on conflict. The published object is a record with a marshalled form.
- **The publisher** (`Publisher.dfy`, `PublisherRuns.dfy`, `Annotations.dfy`): the updater as a class with its cache and patch
  counter, calling an API server object. Each request is acknowledged, applied with its reply lost, or rejected; other
  writers edit, delete and recreate the object between any two requests. What happens around the requests of a send is
  its `Env` argument. The API server refuses an update that carries an outdated resource version.
- **Accounting** (`Int64.dfy`, `PodResources.dfy`, `Accounting.dfy`, `NodeUsage.dfy`, `NumaLocality.dfy`, `Topology.dfy`):
  normalising and counting in wrapping 64-bit counters, against a declarative sum. Go map iteration is an arbitrary choice
  of the next key.
- **The monitor** (`ResourceMonitor.dfy`, `MonitorRaces.dfy`, `MonitorRuns.dfy`): the monitor as a class, and the unlocked
  interleaving of its refresh and its scan as a step system in which capacity maps are shared by reference. Without
  interference the interleaved refresh and scan are those of the class.
- **PodResources middleware** (`CpuSets.dfy`, `ContainerIdent.dfy`, `Middleware.dfy`): the three stacked filters, in place.
- **Rate limiter and pipeline** (`RateLimiter.dfy`, `Pipeline.dfy`): goroutines and channels as interleaved steps with logs.
- **Condition injector** (`ConditionInjector.dfy`): the write-skipping cache of pod conditions.

Kubelet and API server replies, memory counters, clocks and glob matching are parameters.

## Where the code does not keep a property

- One acknowledged patch does not always bring the stored zones up to date (`OneAckMayNotHeal`); `OneAckHeals` says exactly
  when it does, and `TwoAcksHeal` that two are always enough.
- A device's published capacity can differ from its allocatable when a refresh runs while a scan is at its node
  (`StaleCapacity`). `StaleIff` gives the exact condition: the capacity map read holds a count of the device, not zero and
  larger than the count in the allocatable map read. Device capacities are written into the map in place, so the larger
  count may be the older one (the device count shrank) or the newer one (it grew).
- A refresh writes to a nil map when a device is reported outside the topology, -1 included (`CrashesOffTopology`). Apart from
  nil maps, the scan reads capacity maps while the refresh writes to them (pkg/resourcemonitor/resourcemonitor.go:334 and
  440), without a lock; the Go runtime may abort the program when it notices. `NeverCrashes` is about nil maps only.
- With timing exposed, the observer writes to the nil map of a failed scan, which ends the process; `CrashIff` says it
  happens then and only then.
- The oneshot `break` leaves the `select`, not the loop: the updater goes on and only skips its condition
  (`OneshotGoesOn`).
- A status update whose reply is lost leaves the injector's cache wrong exactly when the condition type was cached
  (`LostReplyAgreesIff`).
- The comment on owner references promises to keep one Node reference; the code replaces every owner, of whatever kind, by the
  node (pkg/nrtupdater/nrtupdater.go:297-317). A send loses somebody else's owner exactly when the node is known, and the
  object is written in full or was cached with other owners (`OwnerLostIff`); `OwnerLost` shows one owner surviving
  a patch and lost in the next resync.
- Published numbers are in order exactly when the two counters behind them are countable (`ReportOrdered`, `ZoneOrderedIff`).
  They are whenever no memory id reads as negative and the sums fit (`SaneOrdered`); an overflow (`OverflowUnordered`) or
  a negative id (`NegativeIdUnordered`) breaks the order.
- Decimal round trips stop at the largest signed 64-bit number (`ParsePrint`).
- After the source has ended, stopping may deliver up to two events beyond the buffer, one from each goroutine
  (`TwoBeyondBuffer`). It keeps to one beyond the buffer exactly when not both goroutines hold an event (`OneBeyondBufferIff`).

## Model

| member | source | states |
|---|---|---|
| MergePatch.RoundTrip | pkg/nrtupdater/nrtupdater.go:164-183 | patching the old document with the patch made for it gives the new one if and only if every null of the new one sits where the old one has a null, for all JSON objects |
| MergePatch.DiffEmpty | pkg/nrtupdater/nrtupdater_test.go:319-334 | the patch is `{}` exactly when both documents are equal |
| MergePatch.ThreeWayIsTwoWay | pkg/nrtupdater/nrtupdater.go:175 | with one document as both original and current, the three-way patch is the two-way one and is never refused as a conflict |
| MergePatch.FilterSplit | pkg/nrtupdater/nrtupdater.go:175 | splitting any patch into removals and the rest and merging them back loses nothing and never conflicts |
| MergePatch.ApplyIdempotent | pkg/nrtupdater/nrtupdater.go:212 | applying a patch twice is applying it once |
| MergePatch.ApplyAddsNoNulls | pkg/nrtupdater/nrtupdater.go:191-193 | a patch never brings a null into a document |
| NrtDocument.DecodeEncode | pkg/nrtupdater/nrtupdater.go:165-173 | marshalling an object and reading it back gives the object |
| NrtDocument.PatchEffect | pkg/nrtupdater/nrtupdater.go:198-212 | on the wire, the patch from one object to another, applied to any third one, is accepted, merges in the changed annotations, replaces only the lists that differ, and leaves the rest |
| NrtDocument.PatchedSelf | pkg/nrtupdater/nrtupdater.go:194-198 | patching the object a patch was made for gives the object it was made to reach |
| NrtDocument.PatchFrame | pkg/nrtupdater/nrtupdater.go:191-212 | a patch reaches nothing but annotations, owner references, zones and attributes, and holds a null exactly when known zones are replaced by a nil list |
| Annotations.Merge | pkg/k8sannotations/annotations.go:25-33 | the merged map is the union with later maps winning |
| Annotations.MergedLastWins | pkg/k8sannotations/annotations.go:25-33 | no key is lost, and each has the value of the last map holding it |
| Publisher.PatchServed | pkg/nrtupdater/nrtupdater.go:209-212 | a patch made from a cached object is never refused as invalid and has its typed effect on whatever is stored |
| Publisher.InterfereMoves | pkg/nrtupdater/nrtupdater.go:250-279 | other writers leave the object alone, delete it, or give it a later version |
| Publisher.ApiServer.Patch | pkg/nrtupdater/nrtupdater.go:212 | the server, given only the JSON patch, ends in the state the typed merge describes |
| Publisher.ApiServer.Create | pkg/nrtupdater/nrtupdater.go:262 | a create is refused without effect if the object exists; otherwise the object is stored under a new version and told unless the reply is lost |
| Publisher.ApiServer.Update | pkg/nrtupdater/nrtupdater.go:279 | an update is refused without effect if the object is gone or has another version than when it was read; otherwise it is stored, under a new version if anything changes |
| Publisher.MakeNRTPatch | pkg/nrtupdater/nrtupdater.go:164-183 | the patch is the two-way difference of the marshalled objects |
| Publisher.NrtUpdater.constructor | pkg/nrtupdater/nrtupdater.go:89-108 | a new updater has no cached object and no patches counted |
| Publisher.NrtUpdater.UpdateNRTInfo | pkg/nrtupdater/nrtupdater.go:288-295 | annotations are merged, zones replaced, the two topology manager attributes appended, owners untouched |
| Publisher.NrtUpdater.UpdateOwnerReferences | pkg/nrtupdater/nrtupdater.go:301-318 | the owners become the one known node, or stay when the node is unknown |
| Publisher.NrtUpdater.PatchNRT | pkg/nrtupdater/nrtupdater.go:185-221 | without a cached object nothing is sent; otherwise cache, server and reply are those of the typed merge |
| Publisher.NrtUpdater.SendObjectUpdate | pkg/nrtupdater/nrtupdater.go:250-286 | get, then create or update, against any interference and any outcome |
| Publisher.NrtUpdater.SendObjectPatch | pkg/nrtupdater/nrtupdater.go:230-248 | patch unless a resync is due, fall back to the full update, count patches and restart on a full one |
| Publisher.NrtUpdater.Update | pkg/nrtupdater/nrtupdater.go:110-150 | the configured mode is used; with publishing off nothing is sent and the call succeeds |
| PublisherRuns.UpdateServed | pkg/nrtupdater/nrtupdater.go:250-286 | get+update stores the reference publication of what other writers left, or nothing: it never overwrites what it did not read |
| PublisherRuns.SendServed | pkg/nrtupdater/nrtupdater.go:230-248 | from any cache and server, success means the cache is the stored object, failure leaves the cache alone |
| PublisherRuns.SendOutcome | pkg/nrtupdater/nrtupdater.go:230-286 | from any state, whatever becomes of the patch: which requests are sent, when the send succeeds (a patch that does not get through falls back to get+create/update, which succeeds if and only if both requests do), and what is cached and counted |
| PublisherRuns.FullSend | pkg/nrtupdater/nrtupdater.go:250-318 | a send that got through in full leaves exactly the scan's zones, attributes (topology manager attributes last), annotations and reason; a new object holds nothing else |
| PublisherRuns.OwnerReferenceFields | pkg/nrtupdater/nrtupdater.go:310-315 | the owner reference has version v1, kind Node, and the node's name and uid |
| PublisherRuns.RefreshedIdempotent | pkg/nrtupdater/nrtupdater.go:288-318 | bringing an object up to date twice with one scan is the same as once |
| PublisherRuns.QuietRun | pkg/nrtupdater/nrtupdater.go:185-286 | in every run without other writers and with effect-free failures, in either mode, the cache is empty or the stored object, and the server holds the reference publication of exactly the successful scans |
| PublisherRuns.PatchModeRefinesUpdateMode | pkg/nrtupdater/nrtupdater.go:100-106 | such a run in patch mode and one in update mode that publish the same scans leave the same server |
| PublisherRuns.TwoAcksHeal | pkg/nrtupdater/nrtupdater.go:185-248 | from any mismatch, two consecutive successful sends with no other writer after the first leave exactly the second scan's zones, attributes (topology manager attributes last), annotations and update reason, the known node as owner, and a cache equal to the stored object, even if replies were lost on the way |
| PublisherRuns.CoherentSend | pkg/nrtupdater/nrtupdater.go:230-248 | a successful send from an agreeing cache stores the object brought up to date, whichever of its requests failed or lost their reply |
| PublisherRuns.OneAckHeals | pkg/nrtupdater/nrtupdater.go:198-220 | one acknowledged patch leaves the scan's zones if and only if they differ from the cached ones or were stored already |
| PublisherRuns.OneAckMayNotHeal | pkg/nrtupdater/nrtupdater.go:198-220 | in a run from the start, a foreign edit of the zones survives the next acknowledged send |
| PublisherRuns.SentPatchFrame | pkg/nrtupdater/nrtupdater.go:191-212 | every patch sent touches only annotations, owner references, zones and attributes, and is free of nulls exactly when it does not drop known zones |
| PublisherRuns.ForeignFieldsSurvive | pkg/nrtupdater/nrtupdater.go:185-318 | in every run, against the server other writers would have had alone: their object is there, its labels, other metadata and every annotation the daemon does not publish are exactly as they left them, removals included, and so are the owners unless the node is known; no annotation of theirs is removed |
| PublisherRuns.OwnersSent | pkg/nrtupdater/nrtupdater.go:297-318 | after a successful send the owners are the node alone or exactly those other writers left, and which of the two |
| PublisherRuns.OwnerLostIff | pkg/nrtupdater/nrtupdater.go:297-318 | a successful send loses an owner set by somebody else if and only if the node is known, and the object is written in full or was cached with other owners |
| PublisherRuns.OwnerLost | pkg/nrtupdater/nrtupdater.go:297-318 | in a run from the start, a foreign owner survives a patch and is lost in the resync after it |
| PublisherRuns.PatchCountBounded | pkg/nrtupdater/nrtupdater.go:223-248 | the patch counter never passes the resync period, in any run |
| PublisherRuns.ResyncBlocksPatches | pkg/nrtupdater/nrtupdater.go:223-248 | once due no patch is sent, and it stays due exactly until a full update succeeds |
| PublisherRuns.AtMostPatchesInARow | pkg/nrtupdater/nrtupdater.go:223-248 | whatever fails or interferes, one of any R+1 consecutive successful sends is a full one |
| PublisherRuns.ResyncPeriod | pkg/nrtupdater/nrtupdater.go:223-248 | in a failure-free run send i is full exactly when i mod (R+1) = 0; without a period only the first is |
| Int64.WrapAdd | pkg/resourcemonitor/resourcemonitor.go:580-588 | wrapping at each addition is wrapping the sum |
| Int64.ParsePrint | pkg/resourcemonitor/resourcemonitor.go:555-583 | parsing a printed block size gives it back up to the largest signed number, and that number above it |
| Int64.ParseSigned | pkg/resourcemonitor/resourcemonitor.go:583 | a sign is read, down to the smallest signed number |
| Int64.ParseBad | pkg/resourcemonitor/resourcemonitor.go:583 | a text with anything but digits counts for nothing |
| Accounting.SumBlocks | pkg/resourcemonitor/resourcemonitor.go:580-585 | the bytes of a device list, added in a wrapping counter |
| Accounting.CountPerNUMA | pkg/resourcemonitor/resourcemonitor.go:569-595 | there is a counter exactly for each listed node and resource, and it is the wrapped declarative total |
| Accounting.GroupCpus | pkg/resourcemonitor/resourcemonitor.go:521-530 | each node lists, in order, the texts of the CPU ids mapped to it; unmapped ids are dropped |
| Accounting.AppendBlocks | pkg/resourcemonitor/resourcemonitor.go:545-563 | each non-empty block adds its size once per node it names |
| Accounting.NormalizeContainerDevices | pkg/resourcemonitor/resourcemonitor.go:515-567 | in any iteration order the normalised list totals, per node and resource, mapped CPUs plus device ids plus block sizes |
| Accounting.TotalAppend | pkg/resourcemonitor/resourcemonitor.go:569-595 | totals are additive over lists of devices |
| Accounting.UsageAppend | pkg/resourcemonitor/resourcemonitor.go:515-595 | usage is additive over devices, memory blocks and CPUs together |
| Accounting.UsageOfOne | pkg/resourcemonitor/resourcemonitor.go:515-595 | what one CPU, one device and one block count for on a node; with additivity this determines the usage of any lists |
| Accounting.UsesIff | pkg/resourcemonitor/resourcemonitor.go:515-595 | a resource has a counter on a node exactly if a device or non-empty block names the node or a CPU is mapped to it |
| NodeUsage.GetAllContainerDevices | pkg/resourcemonitor/resourcemonitor.go:489-501 | the collected list totals the usage of the watched pods |
| NodeUsage.CountAllocated | pkg/resourcemonitor/resourcemonitor.go:293-294 | every counter is the wrapped usage of the pods, exact whenever that fits |
| NodeUsage.PodsAppend | pkg/resourcemonitor/resourcemonitor.go:489-501 | usage is additive over pods |
| NodeUsage.EveryNamespace | pkg/resourcemonitor/resourcemonitor.go:489-501 | with no namespace given every container of every pod counts |
| NodeUsage.OneNamespace | pkg/resourcemonitor/resourcemonitor.go:489-501 | with one given, exactly those of the pods in it |
| NodeUsage.ContainersTogether | pkg/resourcemonitor/resourcemonitor.go:489-501 | containers hold what one would with all their devices, memory and CPUs |
| NodeUsage.PodOrderIrrelevant | pkg/resourcemonitor/resourcemonitor.go:489-501 | usage does not depend on the order of pods |
| NumaLocality.IsPresent | pkg/podres/filter/numalocality/numalocality.go:83-95 | true exactly when some node id is not negative |
| NumaLocality.Verify | pkg/podres/filter/numalocality/numalocality.go:31-70 | a pod is allowed exactly when a container has locality; the first such container gives identity and reason |
| NumaLocality.LocalIff | pkg/podres/filter/numalocality/numalocality.go:31-95 | a pod has locality exactly if a container holds CPUs, or memory or devices tied to a NUMA node |
| NumaLocality.ReasonMeans | pkg/podres/filter/numalocality/numalocality.go:37-66 | CPUs are named as the reason before memory before devices |
| NumaLocality.LocalOnlyMeans | pkg/podres/filter/numalocality/numalocality.go:31-70 | dropping rejected pods leaves exactly the others, each as often |
| NumaLocality.RejectedPodsIrrelevant | pkg/podres/filter/numalocality/numalocality.go:31-95 | dropping all rejected pods leaves the usage of every NUMA node unchanged |
| Topology.MakeCoreIDToNodeIDMap | pkg/resourcemonitor/resourcemonitor.go:597-607 | every processor is mapped to the last node that lists it |
| Topology.CoreMapSound | pkg/resourcemonitor/resourcemonitor.go:597-607 | a mapped processor belongs to the node it is mapped to |
| Topology.CoreMapComplete | pkg/resourcemonitor/resourcemonitor.go:597-607 | every processor of a node is mapped, to that node if no later one lists it |
| Topology.FlattenMeans | pkg/resourcemonitor/resourcemonitor.go:650-657 | the processors of a node are those of its cores, and as many |
| Topology.FindNodeByID | pkg/resourcemonitor/resourcemonitor.go:631-638 | the first node with the ID is found |
| Topology.CpuCapacity | pkg/resourcemonitor/resourcemonitor.go:650-657 | the number of logical processors of the node |
| Topology.CpusFitNode | pkg/resourcemonitor/resourcemonitor.go:521-530 | of distinct CPU ids no more are mapped to a node than it has logical processors |
| Topology.CpusConserved | pkg/resourcemonitor/resourcemonitor.go:521-530 | over all nodes, the numbers of ids mapped there add up to the number of ids the topology knows |
| ResourceMonitor.ReportOrdered | pkg/resourcemonitor/resourcemonitor.go:334-368 | 0 <= available <= allocatable <= capacity if and only if the allocatable counter is not negative and the used one is not either, or wraps |
| ResourceMonitor.ReportConserves | pkg/resourcemonitor/resourcemonitor.go:334-368 | available plus used is allocatable, or nothing is available; capacity is the larger of allocatable and known capacity |
| ResourceMonitor.ReportResource | pkg/resourcemonitor/resourcemonitor.go:334-368 | the published numbers of one resource |
| ResourceMonitor.ZoneShows | pkg/resourcemonitor/resourcemonitor.go:314-369 | which resources a zone lists, the exclude set and the CPU entry of an empty node included, and their allocatable, available and capacity from the counters of that node |
| ResourceMonitor.CapacitySound | pkg/resourcemonitor/resourcemonitor.go:377-443 | after a refresh, CPU capacity is counted on the topology, memory and huge pages are what the machine reports for that resource and node, devices have their allocatable counter |
| ResourceMonitor.DeviceCapacityIsAllocatable | pkg/resourcemonitor/resourcemonitor.go:433-456 | over every sequence of refreshes, failing ones included, a scan shows every device with capacity equal to allocatable |
| ResourceMonitor.RejectedPodsInvisible | pkg/resourcemonitor/resourcemonitor.go:293-371 | pods the locality filter rejects can be dropped without changing any published zone |
| ResourceMonitor.CpuCountersSound | pkg/resourcemonitor/resourcemonitor.go:433-456 | after a successful refresh with distinct CPU ids and nothing else named cpu, the CPU counters of every node satisfy 0 <= allocatable <= capacity, and the allocatable ones add up to the ids the topology knows |
| ResourceMonitor.ZoneOrderedIff | pkg/resourcemonitor/resourcemonitor.go:293-368 | a published resource is in order if and only if the wrapped sums of the kubelet's two answers are countable |
| ResourceMonitor.SaneOrdered | pkg/resourcemonitor/resourcemonitor.go:293-368 | so it is whenever no memory id reads as negative and both sums fit a counter |
| ResourceMonitor.OverflowUnordered | pkg/resourcemonitor/resourcemonitor.go:580-586 | two memory blocks of the largest size on one node are published out of order, as -2 bytes |
| ResourceMonitor.NegativeIdUnordered | pkg/resourcemonitor/resourcemonitor.go:580-586 | a device named memory with the id -1 is published out of order |
| ResourceMonitor.NewResourceMonitor | pkg/resourcemonitor/resourcemonitor.go:184-216 | a monitor is returned exactly when its first refresh succeeds, with the counters of that refresh |
| ResourceMonitor.Monitor.UpdateNodeCapacity | pkg/resourcemonitor/resourcemonitor.go:377-399 | replaces the capacity of every node with its native resources, or nothing on failure |
| ResourceMonitor.Monitor.UpdateNodeAllocatable | pkg/resourcemonitor/resourcemonitor.go:419-431 | replaces the allocatable counters with what the kubelet's answer amounts to, or nothing on failure |
| ResourceMonitor.Monitor.UpdateDevicesCapacity | pkg/resourcemonitor/resourcemonitor.go:433-443 | device counters are copied over, native ones kept |
| ResourceMonitor.Monitor.UpdateNodeResources | pkg/resourcemonitor/resourcemonitor.go:445-456 | the state after each possible failure point, and that devices keep agreeing |
| ResourceMonitor.Monitor.ResUpdated | pkg/resourcemonitor/resourcemonitor.go:401-417 | only a change of this node's resources refreshes, with the result of the answers it got, and a failed refresh is tolerated |
| ResourceMonitor.Monitor.Scan | pkg/resourcemonitor/resourcemonitor.go:255-375 | one zone per NUMA node, each listing once, in some order, the report of every allocatable resource that is not excluded |
| MonitorRaces.EveryInterleaving | pkg/resourcemonitor/resourcemonitor.go:300-456 | in every interleaving of refresh writes and scan reads each published resource has the allocatable counter of the version read and that less what its own scan found in use on the node, down to zero, is in order exactly when those counters are countable, its capacity is its allocatable exactly when the capacity read is zero or no larger, and a device capacity read is the allocatable counter of the version its map was copied from, the version read if nothing was replaced in between |
| MonitorRaces.StaleIff | pkg/resourcemonitor/resourcemonitor.go:314-352 | in every interleaving a device is published with capacity other than allocatable if and only if its capacity was copied from a version in which it counted something and more than in the version its allocatable comes from |
| MonitorRaces.RefreshedInit | pkg/resourcemonitor/resourcemonitor.go:445-456 | the initial states of the interleavings are those a successful refresh leaves |
| MonitorRuns.RefreshExact | pkg/resourcemonitor/resourcemonitor.go:433-456 | in every interleaving the allocatable maps are the last put in place, and the capacity maps the last begun with, plus the devices copied so far: all once the refresh has ended, none if it failed |
| MonitorRuns.RefreshEnds | pkg/resourcemonitor/resourcemonitor.go:433-443 | a refresh with its devices on the topology can be completed |
| MonitorRuns.UndisturbedScan | pkg/resourcemonitor/resourcemonitor.go:293-375 | a scan no refresh step comes in between of publishes, for each node once, the report of every allocatable resource not excluded, from that node's own counters |
| MonitorRuns.ZoneIsReport | pkg/resourcemonitor/resourcemonitor.go:293-375 | these are the zones the monitor's own scan reports |
| MonitorRuns.ScanEnds | pkg/resourcemonitor/resourcemonitor.go:300-372 | such a scan comes to its end from wherever it is |
| MonitorRaces.AlwaysOrdered | pkg/resourcemonitor/resourcemonitor.go:300-372 | with counters never negative, 0 <= available <= allocatable <= capacity for everything published in every interleaving |
| MonitorRaces.RefreshCompletes | pkg/resourcemonitor/resourcemonitor.go:433-456 | whatever interleaves, a refresh that has worked off its devices has written every device capacity |
| MonitorRaces.NeverCrashes | pkg/resourcemonitor/resourcemonitor.go:433-441 | no interleaving writes to a nil map while devices are reported on nodes of the topology |
| MonitorRaces.CrashesOffTopology | pkg/resourcemonitor/resourcemonitor.go:433-441 | a device outside the topology crashes the refresh |
| MonitorRaces.StaleCapacity | pkg/resourcemonitor/resourcemonitor.go:314-321 | a refresh between the two reads of a scan publishes two devices with a capacity of four |
| ContainerIdent.RoundTrip | pkg/podres/middleware/sharedcpuspool/sharedcpuspool.go:35-89 | parsing the printed identity gives it back, and it survives the command line pass, if and only if it is nil or its parts hold no slash and are trimmed |
| ContainerIdent.FromStringMeans | pkg/podres/middleware/sharedcpuspool/sharedcpuspool.go:75-89 | any text: nothing if empty, an error unless it has two slashes, else the three parts trimmed |
| ContainerIdent.TrimMeans | pkg/podres/middleware/sharedcpuspool/sharedcpuspool.go:83-87 | a trimmed part is the part without the white space around it |
| CpuSets.ListSorted | pkg/podres/middleware/sharedcpuspool/sharedcpuspool.go:185-193 | the list of a CPU set is strictly increasing and holds exactly its elements |
| CpuSets.ListUnique | pkg/podres/middleware/sharedcpuspool/sharedcpuspool.go:185-193 | an increasing list is determined by its elements |
| Middleware.FindSharedPoolCPUs | pkg/podres/middleware/sharedcpuspool/sharedcpuspool.go:164-183 | the CPUs of the first container that matches the reference, none if there is none |
| Middleware.SharedPoolMeaning | pkg/podres/middleware/sharedcpuspool/sharedcpuspool.go:164-183 | the pool is the CPUs of the first container with the reference's namespace, pod and container name; empty without one |
| Middleware.RemoveCPUs | pkg/podres/middleware/sharedcpuspool/sharedcpuspool.go:185-193 | the list of the remaining CPU set |
| Middleware.WithoutCpusMeaning | pkg/podres/middleware/sharedcpuspool/sharedcpuspool.go:185-193 | a container keeps its CPUs outside the pool, each once, in increasing order, and all else it has |
| Middleware.PodsWithoutMeaning | pkg/podres/middleware/sharedcpuspool/sharedcpuspool.go:109-120 | pods keep their names and containers |
| Middleware.SharedPoolClient.FilterListResponse | pkg/podres/middleware/sharedcpuspool/sharedcpuspool.go:103-121 | every container of the response loses the shared pool, in place, and nothing else changes |
| Middleware.SharedPoolIdempotent | pkg/podres/middleware/sharedcpuspool/sharedcpuspool.go:103-121 | filtering a response again changes nothing |
| Middleware.ShouldExclude | pkg/podres/middleware/podexclude/podexclude.go:114-135 | true exactly when some item matches both namespace and name; a bad pattern matches nothing, debugging or not |
| Middleware.ExcludePods | pkg/podres/middleware/podexclude/podexclude.go:60-71 | the ordered subsequence of pods not excluded |
| Middleware.FilterTerminal | pkg/podres/middleware/terminalpods/terminalpods.go:92-111 | the ordered subsequence of pods not terminal |
| Middleware.SurvivorsMeaning | pkg/podres/middleware/podexclude/podexclude.go:60-71 | the survivors sit at increasing positions of the list, exactly those no item matches by namespace and name and which are not terminal |
| Middleware.ListPods | cmd/resource-topology-exporter/main.go:73-85 | through the whole stack: the survivors in order, without the shared pool of the kubelet's full answer, even when the reference pod is excluded |
| Middleware.PoolFilterFirst | cmd/resource-topology-exporter/main.go:73-85 | dropping pods before taking the pool out would give the same answer if and only if the reference pod survives or no survivor holds a pool CPU |
| RateLimiter.NoLostWakeups | pkg/ratelimiter/ratelimiter.go:26-135 | in every run at most five events are buffered, delivered plus in flight is the produced sequence less losses in order, and every loss finds exactly five kept events the sender has not taken |
| RateLimiter.KeptWhileRoom | pkg/ratelimiter/ratelimiter.go:111-115 | in any state the receiver keeps its event exactly while fewer than five are buffered |
| RateLimiter.KeptIff | pkg/ratelimiter/ratelimiter.go:108-135 | in every run an event is kept exactly when fewer than five of those kept before it have not been taken, counted by the sender's own steps |
| RateLimiter.NothingLostOnTheWay | pkg/notification/notification.go:65-113 | every event the source had to send is with the receiver or still with the source, in order |
| RateLimiter.LossesAreFollowed | pkg/ratelimiter/ratelimiter.go:103-135 | once drained, everything kept was delivered and at least five deliveries followed every loss |
| RateLimiter.NeverDeadlocks | pkg/ratelimiter/ratelimiter.go:71-146 | in every reachable state some goroutine can step, or all wait for outside input, or all is finished |
| RateLimiter.StoppingTerminates | pkg/ratelimiter/ratelimiter.go:76-146 | once the source has ended every run is bounded, delivers at most what is pending, and ends with Stop and Wait returned, both goroutines ended and no token left |
| RateLimiter.PendingIsDelivered | pkg/ratelimiter/ratelimiter.go:108-146 | until the sender is told to stop, some run delivers all that is pending |
| RateLimiter.HeldIsDelivered | pkg/ratelimiter/ratelimiter.go:124-146 | a stop that has run its course delivered what the sender was holding |
| RateLimiter.BufferMayBeLeft | pkg/ratelimiter/ratelimiter.go:124-146 | and some stop delivers no more than that, leaving the buffer |
| RateLimiter.OneBeyondBufferIff | pkg/ratelimiter/ratelimiter.go:76-146 | once the source has ended, at most the buffered events and one more are delivered if and only if receiver and sender do not both hold an event |
| RateLimiter.TwoBeyondBuffer | pkg/ratelimiter/ratelimiter.go:76-146 | a run in which two events are delivered after the source has ended with an empty buffer |
| RateLimiter.ReceiverGoneBlocksSource | pkg/ratelimiter/ratelimiter.go:77-79 | with the receiver gone a source about to send stays blocked in every run |
| RateLimiter.AlwaysStopInv | pkg/notification/notification.go:65-113 | source, receiver, sender and their done tokens are in step with the caller of Stop and Wait |
| Pipeline.NeverDeadlocks | pkg/resourcetopologyexporter/resourceobserver.go:48-91 | from any state, every run of observer, updater and injector without a new event is bounded, and one that cannot go on has drained or panicked |
| Pipeline.StepDrains | pkg/nrtupdater/nrtupdater.go:118-141 | no step but a new event can put draining off |
| Pipeline.ExactlyOnce | pkg/resourcetopologyexporter/resourceobserver.go:48-91 | when idle, every event that came gave one PodresourcesFetched condition with what its scan came to, every successful scan one update with its annotations and one NodeTopologyUpdated condition with what the update came to, in order, all told from the actions |
| Pipeline.LogsAreTrue | pkg/resourcetopologyexporter/resourceobserver.go:48-91 | events, scan and update results and the annotations handed over, with the timing if exposed, are those of the actions that took place |
| Pipeline.ReportedWhenDone | pkg/resourcetopologyexporter/resourceobserver.go:74-85 | no success is reported before its scan was handed over or its update took place |
| Pipeline.InjectorTakesAll | pkg/podreadiness/conditioninjector.go:79-91 | no condition is dropped or overtaken on its way to the injector |
| Pipeline.ConditionsInStep | pkg/podreadiness/conditioninjector.go:79-91 | at every moment the two success-side counts differ by at most one |
| Pipeline.CrashIff | pkg/resourcetopologyexporter/resourceobserver.go:65-72 | the process has panicked, on a write to the nil map of a failed scan, if and only if timing is exposed and a scan failed; nothing follows |
| Pipeline.OneshotGoesOn | pkg/nrtupdater/nrtupdater.go:132-135 | a oneshot updater sends every successful scan, reports none, and still takes events |
| ConditionInjector.Injector.Inject | pkg/podreadiness/conditioninjector.go:44-77 | cache, server and result of one call, against interference and every outcome of the update |
| ConditionInjector.WithMeaning | pkg/podreadiness/conditioninjector.go:55-68 | a write replaces the first condition of its type or adds one, and leaves every other type alone |
| ConditionInjector.WithInPlace | pkg/podreadiness/conditioninjector.go:55-68 | the first condition of the type is replaced where it stands, or one is added at the end |
| ConditionInjector.InjectOutcome | pkg/podreadiness/conditioninjector.go:44-77 | a condition equal to the cached one in type, status, reason and message is not written; any other call succeeds if and only if the read does, nobody writes in between and the write is acknowledged |
| ConditionInjector.AgreementAlways | pkg/podreadiness/conditioninjector.go:44-77 | in every run with effect-free failures and writers that spare the injector's types, a call that returns nil leaves the requested condition first of its type on the server, timestamps aside |
| ConditionInjector.UniquenessKept | pkg/podreadiness/conditioninjector.go:55-68 | in every run with writers that spare the injector's types, lost replies included, a type that is unique stays unique |
| ConditionInjector.InjectServed | pkg/podreadiness/conditioninjector.go:50-75 | whoever writes before and after the read, a call leaves what they left, or that with the condition written into it |
| ConditionInjector.OthersUntouched | pkg/podreadiness/conditioninjector.go:50-75 | whoever writes during a call and whatever fails, all conditions of other types end as the other writers left them, in order |
| ConditionInjector.ForeignKindsSurvive | pkg/podreadiness/conditioninjector.go:44-77 | over every run, against any writers, conditions of a type the injector is never asked for are those the other writers would have left alone |
| ConditionInjector.LostReplyAgreesIff | pkg/podreadiness/conditioninjector.go:70-75 | after a lost reply the cache still agrees if and only if the type was not cached |
| ConditionInjector.LostReplyMisleads | pkg/podreadiness/conditioninjector.go:45-48 | otherwise asking for the previous condition again reports success without restoring it |

## Left out

- The kubelet, Kubernetes and gRPC clients, informers and file watching: only their outcomes are modelled, as parameters.
- Fields the API server fills in on creation (uid, creation timestamp, managed fields): they are part of the other metadata, which other writers may set.
- JSON numbers are integers; the text of a document, its size and the size ratio metric are not modelled.
- List items of the published object stay in marshalled form, since a merge patch replaces lists whole.
- The pod fingerprint, costs and distances between zones, sorted zones and zone names: copying and library calls.
- pkg/sysinfo, pkg/kubeconf, pkg/config, metrics, logging, version and the proxy: text extraction, plumbing and wrappers.
- The timing of the rate limit library: taking a slot is one step of the sender.
- The texts of the sleep duration and update interval, clamped at zero and printed, are parameters of the scan's end.
- Stop of the observer and of the updater: nothing in the daemon calls them.
- SetInterval, AddFile and AnyFilter of the event source: easy members; their events arrive as triggers.
- Pod and container pointers shared between responses: a response is an object with a list of values, so aliasing inside it is not modelled.
- Middleware.ListPods: the terminal pods are those the informer knows at the call; the informer's own delay is not modelled.
- RateLimiter.StoppingTerminates: counts from the moment the source has ended, because before that the outside world can go on producing events.
