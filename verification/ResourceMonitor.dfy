/**
 The resource monitor: it keeps per-NUMA capacity and allocatable counters, refreshed in separate steps that can fail,
 and its scan subtracts what pods hold, clamps, and publishes one zone per NUMA node.
 */
module ResourceMonitor {
  import opened Wrappers
  import opened PodResources
  import opened Accounting
  import opened NodeUsage
  import opened Topology
  import NumaLocality
  import Int64

  datatype ResourceInfo = ResourceInfo(name: string, available: int, allocatable: int, capacity: int)
  datatype Zone = Zone(node: int, resources: seq<ResourceInfo>)

  // ---------- one published resource ----------

  /** A missing or zero capacity, or one below the allocatable, reads as the allocatable; availability stops at zero. */
  function Report(name: string, cap: map<string, int>, alloc: int, used: int): ResourceInfo {
    var known := if name in cap && cap[name] != 0 then cap[name] else alloc;
    var avail := Int64.Wrap(alloc - used);
    ResourceInfo(name, if avail < 0 then 0 else avail, alloc, if alloc > known then alloc else known)
  }

  predicate Ordered(info: ResourceInfo) {
    0 <= info.available <= info.allocatable <= info.capacity
  }

  /** When a published resource is in order: a caller can tell from the two counters alone. */
  predicate Countable(alloc: int, used: int) {
    0 <= alloc && (0 <= used || alloc - used > Int64.MAX)
  }

  /** Available, allocatable and capacity are in order exactly when the allocatable counter is not negative and the used
      one is neither, or so far below zero that the subtraction wraps; whatever the capacity says. */
  lemma {:induction false} ReportOrdered(name: string, cap: map<string, int>, alloc: int, used: int)
    requires Int64.MIN <= alloc <= Int64.MAX && Int64.MIN <= used <= Int64.MAX
    ensures Ordered(Report(name, cap, alloc, used)) <==> Countable(alloc, used)
  {
    if alloc >= 0 && alloc - used > Int64.MAX {
      Int64.WrapAdd(alloc - used - Int64.RANGE, Int64.RANGE);
      assert Int64.Wrap(alloc - used) == alloc - used - Int64.RANGE;
    }
  }

  /** With counters that are not negative nothing is lost: what is available and what is used make up the allocatable,
      or nothing is available; and the capacity is the larger of the allocatable and the capacity known. */
  lemma {:induction false} ReportConserves(name: string, cap: map<string, int>, alloc: int, used: int)
    requires 0 <= alloc <= Int64.MAX && 0 <= used <= Int64.MAX
    ensures var info := Report(name, cap, alloc, used);
            && info.name == name && info.allocatable == alloc
            && (used <= alloc ==> info.available + used == info.allocatable)
            && (used > alloc ==> info.available == 0)
            && info.capacity >= alloc && (name in cap ==> info.capacity >= cap[name])
            && (info.capacity == alloc || (name in cap && info.capacity == cap[name]))
  {
    assert Int64.MIN <= alloc - used <= Int64.MAX;
  }

  // ---------- one published zone ----------

  function ZoneCapacity(capacity: Counters, node: int): map<string, int> {
    if node in capacity then capacity[node] else map[]
  }

  /** A node without allocatable resources still shows zero CPUs. */
  function ZoneAllocatable(allocatable: Counters, node: int): map<string, int> {
    if node in allocatable then allocatable[node] else map[CPU := 0]
  }

  predicate InExcludeSet(exclude: map<string, set<string>>, resource: string, nodeName: string) {
    ("*" in exclude && resource in exclude["*"]) || (nodeName in exclude && resource in exclude[nodeName])
  }

  /** The machine as the monitor sees it. */
  datatype Machine = Machine(nodeName: string, namespace: string, topo: seq<NumaNode>)
  datatype Resources = Resources(capacity: Counters, allocatable: Counters)

  function Used(m: Machine, pods: seq<Pod>, node: int, resource: string): int {
    Int64.Wrap(PodsUsage(pods, m.namespace, CoreMap(m.topo), node, resource))
  }

  function ZoneReport(m: Machine, res: Resources, pods: seq<Pod>, exclude: map<string, set<string>>, node: int)
    : map<string, ResourceInfo>
  {
    var cap, alloc := ZoneCapacity(res.capacity, node), ZoneAllocatable(res.allocatable, node);
    map r | r in alloc && !InExcludeSet(exclude, r, m.nodeName) :: Report(r, cap, alloc[r], Used(m, pods, node, r))
  }

  /** The list holds each entry of the map once, in some order. */
  ghost predicate Enumerates(list: seq<ResourceInfo>, entries: map<string, ResourceInfo>) {
    && (forall i :: 0 <= i < |list| ==> list[i].name in entries && entries[list[i].name] == list[i])
    && (forall i, j :: 0 <= i < j < |list| ==> list[i].name != list[j].name)
    && (forall r :: r in entries ==> entries[r] in list)
  }

  /** What a zone shows: the resources allocatable on the node, or no CPUs if there are none, but for those excluded
      for all nodes or for this one; each with its allocatable counter, that less what the pods hold there, down to
      zero, and the capacity known, unless that is missing or smaller. */
  lemma {:induction false} ZoneShows(m: Machine, res: Resources, pods: seq<Pod>, exclude: map<string, set<string>>,
                                     node: int, r: string)
    ensures var zone := ZoneReport(m, res, pods, exclude, node);
            && (r in zone <==>
                && (Has(res.allocatable, node, r) || (node !in res.allocatable && r == "cpu"))
                && !("*" in exclude && r in exclude["*"])
                && !(m.nodeName in exclude && r in exclude[m.nodeName]))
            && (r in zone ==>
                  var alloc, known := Get(res.allocatable, node, r), Get(res.capacity, node, r);
                  var free := Int64.Wrap(alloc - Int64.Wrap(PodsUsage(pods, m.namespace, CoreMap(m.topo), node, r)));
                  && zone[r].name == r && zone[r].allocatable == alloc
                  && zone[r].available == (if free < 0 then 0 else free)
                  && zone[r].capacity == if known == 0 || known < alloc then alloc else known)
  {
  }

  // ---------- refreshing ----------

  /** Capacity is known for native resources only. */
  ghost predicate NativeOnly(c: Counters) {
    forall n, r :: n in c && r in c[n] ==> IsNative(r)
  }

  function Devices(counters: map<string, int>): map<string, int> {
    map r | r in counters && !IsNative(r) :: counters[r]
  }

  /** Devices take their capacity from what is allocatable. */
  function WithDevices(capacity: Counters, allocatable: Counters): Counters {
    map n | n in capacity :: capacity[n] + Devices(if n in allocatable then allocatable[n] else map[])
  }

  /** What one refresh can do: nothing, replace the capacity only, or replace both and copy device capacities. */
  ghost predicate Refreshes(before: Resources, after: Resources) {
    || after == before
    || (NativeOnly(after.capacity) && after.allocatable == before.allocatable)
    || exists base :: NativeOnly(base) && after.capacity == WithDevices(base, after.allocatable)
  }

  /** A device capacity, where there is one, is the allocatable counter. */
  ghost predicate DevicesAgree(capacity: Counters, allocatable: Counters) {
    forall n, r :: Has(capacity, n, r) && Has(allocatable, n, r) && !IsNative(r) ==> capacity[n][r] == allocatable[n][r]
  }

  lemma {:induction false} RefreshKeepsAgreement(before: Resources, after: Resources)
    requires Refreshes(before, after) && DevicesAgree(before.capacity, before.allocatable)
    ensures DevicesAgree(after.capacity, after.allocatable)
  {
  }

  /** Over every sequence of refreshes, failing ones included, a scan shows every device with its capacity equal to its
      allocatable, whatever the pods hold. */
  lemma {:induction false} DeviceCapacityIsAllocatable(m: Machine, states: seq<Resources>, pods: seq<Pod>,
                                                       exclude: map<string, set<string>>, node: int, r: string)
    requires states != [] && DevicesAgree(states[0].capacity, states[0].allocatable)
    requires forall i :: 0 <= i < |states| - 1 ==> Refreshes(states[i], states[i + 1])
    requires r in ZoneReport(m, states[|states| - 1], pods, exclude, node) && !IsNative(r)
    ensures var info := ZoneReport(m, states[|states| - 1], pods, exclude, node)[r];
            info.capacity == info.allocatable
  {
    AgreementLasts(states);
    var last := states[|states| - 1];
    assert Has(last.allocatable, node, r);
    assert r in ZoneCapacity(last.capacity, node) <==> Has(last.capacity, node, r);
  }

  lemma {:induction false} AgreementLasts(states: seq<Resources>)
    requires states != [] && DevicesAgree(states[0].capacity, states[0].allocatable)
    requires forall i :: 0 <= i < |states| - 1 ==> Refreshes(states[i], states[i + 1])
    ensures DevicesAgree(states[|states| - 1].capacity, states[|states| - 1].allocatable)
  {
    if |states| > 1 {
      var k := |states| - 2;
      AgreementLasts(states[..|states| - 1]);
      assert Refreshes(states[k], states[k + 1]);
      RefreshKeepsAgreement(states[k], states[k + 1]);
    }
  }

  /** Pods the NUMA-locality filter rejects can be dropped from the list without changing any published zone. */
  lemma {:induction false} RejectedPodsInvisible(m: Machine, res: Resources, pods: seq<Pod>,
                                                 exclude: map<string, set<string>>, node: int)
    requires 0 <= node < |m.topo|
    ensures ZoneReport(m, res, NumaLocality.LocalOnly(pods), exclude, node) == ZoneReport(m, res, pods, exclude, node)
  {
    var a := ZoneReport(m, res, NumaLocality.LocalOnly(pods), exclude, node);
    var b := ZoneReport(m, res, pods, exclude, node);
    forall r | r in b ensures a[r] == b[r] {
      NumaLocality.RejectedPodsIrrelevant(pods, m.namespace, CoreMap(m.topo), node, r);
    }
    assert a == b;
  }

  // ---------- the monitor ----------

  /** The kubelet's answer about allocatable resources. */
  datatype Allocatable = Allocatable(devices: seq<Device>, memory: seq<MemoryBlock>, cpus: seq<int>)

  const HUGEPAGES_2MI := "hugepages-2Mi"
  const HUGEPAGES_1GI := "hugepages-1Gi"

  function MemoryOf(mem: map<string, map<int, int>>, resource: string, node: int): int {
    if resource in mem && node in mem[resource] then mem[resource][node] else 0
  }

  function NodeCapacity(topo: seq<NumaNode>, mem: map<string, map<int, int>>, node: int): map<string, int>
    requires IndexOf(topo, node) < |topo|
  {
    map[CPU := |Flatten(topo[IndexOf(topo, node)].cores)|]
       [MEMORY := MemoryOf(mem, MEMORY, node)]
       [HUGEPAGES_2MI := MemoryOf(mem, HUGEPAGES_2MI, node)]
       [HUGEPAGES_1GI := MemoryOf(mem, HUGEPAGES_1GI, node)]
  }

  function FreshCapacity(topo: seq<NumaNode>, mem: map<string, map<int, int>>): (c: Counters)
    requires IdsCoverIndices(topo)
    ensures forall n :: n in c <==> 0 <= n < |topo|
  {
    map n | 0 <= n < |topo| :: NodeCapacity(topo, mem, n)
  }

  /** `counters` are what the kubelet's answer amounts to. */
  ghost predicate CountsAllocatable(counters: Counters, a: Allocatable, core: map<int, int>) {
    && (forall n, r :: Has(counters, n, r) <==> Uses(a.devices, a.memory, a.cpus, core, n, r))
    && (forall n, r :: Get(counters, n, r) == Int64.Wrap(Usage(a.devices, a.memory, a.cpus, core, n, r)))
    && (forall n :: n in counters ==> counters[n] != map[])
  }

  /** Every NUMA node that holds an allocatable device is one of the topology: any other would be a write to a nil
      map. */
  ghost predicate DevicesOnTopology(a: Allocatable, m: Machine) {
    forall n, r :: Uses(a.devices, a.memory, a.cpus, CoreMap(m.topo), n, r) && !IsNative(r) ==> 0 <= n < |m.topo|
  }

  method ReportResource(resName: string, resCap: map<string, int>, resAlloc: int, resUsed: int)
    returns (info: ResourceInfo)
    ensures info == Report(resName, resCap, resAlloc, resUsed)
  {
    var resCapacity := if resName in resCap then resCap[resName] else 0;
    if resCapacity == 0 {
      resCapacity := resAlloc;
    }
    if resAlloc > resCapacity {
      resCapacity := resAlloc;
    }
    var resAvail := Int64.Wrap(resAlloc - resUsed);
    if resAvail < 0 {
      resAvail := 0;
    }
    info := ResourceInfo(resName, resAvail, resAlloc, resCapacity);
  }

  class Monitor {
    const machine: Machine
    const core: map<int, int>
    var nodeCapacity: Counters
    var nodeAllocatable: Counters

    ghost predicate Valid()
      reads this
    {
      && IdsCoverIndices(machine.topo) && core == CoreMap(machine.topo)
      && DevicesAgree(nodeCapacity, nodeAllocatable)
    }

    ghost function View(): Resources
      reads this
    {
      Resources(nodeCapacity, nodeAllocatable)
    }

    constructor (machine: Machine)
      requires IdsCoverIndices(machine.topo)
      ensures Valid() && this.machine == machine && View() == Resources(map[], map[])
    {
      this.machine := machine;
      var core := MakeCoreIDToNodeIDMap(machine.topo);
      this.core := core;
      nodeCapacity, nodeAllocatable := map[], map[];
    }

    /** Replaces the capacity counters, unless the memory counters cannot be read. */
    method UpdateNodeCapacity(mem: Option<map<string, map<int, int>>>) returns (ok: bool)
      requires IdsCoverIndices(machine.topo)
      modifies this`nodeCapacity
      ensures ok == mem.Some?
      ensures !ok ==> nodeCapacity == old(nodeCapacity)
      ensures ok ==> nodeCapacity == FreshCapacity(machine.topo, mem.value)
    {
      if mem.None? {
        return false;
      }
      var perNUMA: Counters := map[];
      for nodeID := 0 to |machine.topo|
        invariant forall n :: n in perNUMA <==> 0 <= n < nodeID
        invariant forall n :: n in perNUMA ==> perNUMA[n] == NodeCapacity(machine.topo, mem.value, n)
      {
        var cpus := CpuCapacity(machine.topo, nodeID);
        var counters := map[CPU := cpus];
        counters := counters[MEMORY := MemoryOf(mem.value, MEMORY, nodeID)];
        counters := counters[HUGEPAGES_2MI := MemoryOf(mem.value, HUGEPAGES_2MI, nodeID)];
        counters := counters[HUGEPAGES_1GI := MemoryOf(mem.value, HUGEPAGES_1GI, nodeID)];
        perNUMA := perNUMA[nodeID := counters];
      }
      nodeCapacity := perNUMA;
      ok := true;
    }

    method UpdateNodeAllocatable(a: Option<Allocatable>) returns (ok: bool)
      modifies this`nodeAllocatable
      ensures ok == a.Some?
      ensures !ok ==> nodeAllocatable == old(nodeAllocatable)
      ensures ok ==> CountsAllocatable(nodeAllocatable, a.value, core)
    {
      if a.None? {
        return false;
      }
      var devs := NormalizeContainerDevices(a.value.devices, a.value.memory, a.value.cpus, core);
      nodeAllocatable := CountPerNUMA(devs);
      forall n, r
        ensures Has(nodeAllocatable, n, r) <==> Uses(a.value.devices, a.value.memory, a.value.cpus, core, n, r)
        ensures Get(nodeAllocatable, n, r) ==
                Int64.Wrap(Usage(a.value.devices, a.value.memory, a.value.cpus, core, n, r))
      {
        assert CountsAt(devs, nodeAllocatable, n, r);
      }
      ok := true;
    }

    /** Copies the device counters of one node over, one by one. */
    method CopyDevices(numaId: int)
      requires numaId in nodeAllocatable
      requires forall r :: Has(nodeAllocatable, numaId, r) && !IsNative(r) ==> numaId in nodeCapacity
      modifies this`nodeCapacity
      ensures numaId in old(nodeCapacity) ==>
                nodeCapacity ==
                old(nodeCapacity)[numaId := old(nodeCapacity)[numaId] + Devices(nodeAllocatable[numaId])]
      ensures numaId !in old(nodeCapacity) ==> nodeCapacity == old(nodeCapacity)
    {
      ghost var before := nodeCapacity;
      var counters := nodeAllocatable[numaId];
      var todo := counters.Keys;
      DevicesNone(counters);
      if numaId in before {
        assert before[numaId] + map[] == before[numaId];
      }
      while todo != {}
        invariant todo <= counters.Keys
        invariant numaId in before ==> nodeCapacity == before[numaId := before[numaId] + Devices(counters - todo)]
        invariant numaId !in before ==> nodeCapacity == before
      {
        ghost var some := AnyElement(todo);
        var resName :| resName in todo;
        DevicesStep(counters, todo, resName);
        if !IsNative(resName) {
          assert Has(nodeAllocatable, numaId, resName);
          var capacity := nodeCapacity[numaId];
          capacity := capacity[resName := counters[resName]];
          assert capacity == before[numaId] + Devices(counters - todo)[resName := counters[resName]];
          nodeCapacity := nodeCapacity[numaId := capacity];
        }
        todo := todo - {resName};
      }
      assert counters - {} == counters;
    }

    method UpdateDevicesCapacity()
      requires forall n, r :: Has(nodeAllocatable, n, r) && !IsNative(r) ==> n in nodeCapacity
      modifies this`nodeCapacity
      ensures nodeCapacity == WithDevices(old(nodeCapacity), nodeAllocatable)
    {
      ghost var before := nodeCapacity;
      var nodes := nodeAllocatable.Keys;
      WithDevicesNone(before, nodeAllocatable);
      while nodes != {}
        invariant nodes <= nodeAllocatable.Keys
        invariant nodeCapacity == WithDevices(before, nodeAllocatable - nodes)
      {
        ghost var some := AnyElement(nodes);
        var numaId :| numaId in nodes;
        WithDevicesStep(before, nodeAllocatable, nodes, numaId);
        CopyDevices(numaId);
        nodes := nodes - {numaId};
      }
      assert nodeAllocatable - {} == nodeAllocatable;
    }

    /** One refresh: it may stop before anything, or between the two replacements. */
    method UpdateNodeResources(mem: Option<map<string, map<int, int>>>, a: Option<Allocatable>) returns (ok: bool)
      requires Valid() && (a.Some? ==> DevicesOnTopology(a.value, machine))
      modifies this
      ensures Valid() && Refreshes(old(View()), View())
      ensures ok == (mem.Some? && a.Some?)
      ensures mem.None? ==> View() == old(View())
      ensures mem.Some? && a.None? ==>
                View() == Resources(FreshCapacity(machine.topo, mem.value), old(nodeAllocatable))
      ensures ok ==> CountsAllocatable(nodeAllocatable, a.value, core)
      ensures ok ==> nodeCapacity == WithDevices(FreshCapacity(machine.topo, mem.value), nodeAllocatable)
    {
      ok := UpdateNodeCapacity(mem);
      if !ok {
        return;
      }
      FreshCapacityNative(machine.topo, mem.value);
      ok := UpdateNodeAllocatable(a);
      if ok {
        UpdateDevicesCapacity();
      }
      assert Refreshes(old(View()), View());
      RefreshKeepsAgreement(old(View()), View());
    }

    /** The informer's callback: only a change of this node's own resources counts, and a failed refresh is only
        logged. */
    method ResUpdated(name: string, changed: bool, mem: Option<map<string, map<int, int>>>, a: Option<Allocatable>)
      requires Valid() && (a.Some? ==> DevicesOnTopology(a.value, machine))
      modifies this
      ensures Valid() && Refreshes(old(View()), View())
      ensures name != machine.nodeName || !changed || mem.None? ==> View() == old(View())
      ensures name == machine.nodeName && changed && mem.Some? && a.None? ==>
                View() == Resources(FreshCapacity(machine.topo, mem.value), old(nodeAllocatable))
      ensures name == machine.nodeName && changed && mem.Some? && a.Some? ==>
                && CountsAllocatable(nodeAllocatable, a.value, core)
                && nodeCapacity == WithDevices(FreshCapacity(machine.topo, mem.value), nodeAllocatable)
    {
      if name != machine.nodeName {
        return;
      }
      if changed {
        var ok := UpdateNodeResources(mem, a);
      }
    }

    method ScanZone(node: int, taken: Counters, ghost pods: seq<Pod>, exclude: map<string, set<string>>)
      returns (resources: seq<ResourceInfo>)
      requires forall n, r :: Get(taken, n, r) == Used(machine, pods, n, r)
      ensures Enumerates(resources, ZoneReport(machine, View(), pods, exclude, node))
    {
      var resCap := if node in nodeCapacity then nodeCapacity[node] else map[];
      var counters := if node in nodeAllocatable then nodeAllocatable[node] else map[CPU := 0];
      ghost var entries := ZoneReport(machine, View(), pods, exclude, node);
      resources := [];
      var todo := counters.Keys;
      assert entries - todo == map[];
      while todo != {}
        invariant todo <= counters.Keys
        invariant Enumerates(resources, entries - todo)
      {
        ghost var some := AnyElement(todo);
        var resName :| resName in todo;
        EntriesStep(entries, todo, resName);
        if !InExcludeSet(exclude, resName, machine.nodeName) {
          var info := ReportResource(resName, resCap, counters[resName], Get(taken, node, resName));
          EnumeratesAdd(resources, entries - todo, info);
          resources := resources + [info];
        }
        todo := todo - {resName};
      }
      assert entries - {} == entries;
    }

    /** One zone per NUMA node, each with the report of every resource that is allocatable there and not excluded. */
    method Scan(listed: Option<seq<Pod>>, exclude: map<string, set<string>>) returns (zones: Option<seq<Zone>>)
      requires Valid()
      ensures zones.Some? <==> listed.Some?
      ensures zones.Some? ==> |zones.value| == |machine.topo|
      ensures zones.Some? ==> forall n :: 0 <= n < |machine.topo| ==>
                zones.value[n].node == n &&
                Enumerates(zones.value[n].resources, ZoneReport(machine, View(), listed.value, exclude, n))
    {
      if listed.None? {
        return None;
      }
      var taken := CountAllocated(listed.value, machine.namespace, core);
      var out: seq<Zone> := [];
      for node := 0 to |machine.topo|
        invariant |out| == node
        invariant forall n :: 0 <= n < node ==>
                    out[n].node == n &&
                    Enumerates(out[n].resources, ZoneReport(machine, View(), listed.value, exclude, n))
      {
        var resources := ScanZone(node, taken, listed.value, exclude);
        out := out + [Zone(node, resources)];
      }
      zones := Some(out);
    }
  }

  /** A monitor is handed out only after a first refresh that did not fail. */
  method NewResourceMonitor(machine: Machine, mem: Option<map<string, map<int, int>>>, a: Option<Allocatable>)
    returns (rm: Option<Monitor>)
    requires IdsCoverIndices(machine.topo) && (a.Some? ==> DevicesOnTopology(a.value, machine))
    ensures rm.Some? <==> mem.Some? && a.Some?
    ensures rm.Some? ==>
              && fresh(rm.value) && rm.value.Valid() && rm.value.machine == machine
              && CountsAllocatable(rm.value.nodeAllocatable, a.value, CoreMap(machine.topo))
              && rm.value.nodeCapacity == WithDevices(FreshCapacity(machine.topo, mem.value), rm.value.nodeAllocatable)
  {
    var monitor := new Monitor(machine);
    var ok := monitor.UpdateNodeResources(mem, a);
    rm := if ok then Some(monitor) else None;
  }

  // ---------- the CPU counters of the monitor ----------

  /** Only the CPU ids count as CPUs. */
  predicate CpusByIdOnly(a: Allocatable) {
    && (forall i :: 0 <= i < |a.devices| ==> a.devices[i].resource != CPU)
    && (forall i :: 0 <= i < |a.memory| ==> a.memory[i].kind != CPU)
  }

  lemma {:induction false} TotalOfOther(devs: seq<Device>, n: int, r: string)
    requires forall i :: 0 <= i < |devs| ==> devs[i].resource != r
    ensures Total(devs, n, r) == 0
  {
    if devs != [] { TotalOfOther(devs[..|devs| - 1], n, r); }
  }

  lemma {:induction false} BlocksOfOther(blocks: seq<MemoryBlock>, n: int, r: string)
    requires forall i :: 0 <= i < |blocks| ==> blocks[i].kind != r
    ensures BlocksTotal(blocks, n, r) == 0
  {
    if blocks != [] { BlocksOfOther(blocks[..|blocks| - 1], n, r); }
  }

  lemma {:induction false} CpusOnAtMost(cpus: seq<int>, core: map<int, int>, node: int)
    ensures CpusOn(cpus, core, node) <= |cpus|
  {
    if cpus != [] { CpusOnAtMost(cpus[..|cpus| - 1], core, node); }
  }

  /** The allocatable CPU counter of a node; a list of ids is never longer than the largest counter. */
  lemma {:induction false} CpuCounter(c: Counters, a: Allocatable, core: map<int, int>, n: int)
    requires CountsAllocatable(c, a, core) && CpusByIdOnly(a) && |a.cpus| <= Int64.MAX
    ensures Get(c, n, CPU) == CpusOn(a.cpus, core, n)
  {
    TotalOfOther(a.devices, n, CPU);
    BlocksOfOther(a.memory, n, CPU);
    CpusOnAtMost(a.cpus, core, n);
  }

  function SumCounters(c: Counters, r: string, k: nat): int {
    if k == 0 then 0 else SumCounters(c, r, k - 1) + Get(c, k - 1, r)
  }

  lemma {:induction false} SumCpuCounters(c: Counters, a: Allocatable, core: map<int, int>, k: nat)
    requires CountsAllocatable(c, a, core) && CpusByIdOnly(a) && |a.cpus| <= Int64.MAX
    ensures SumCounters(c, CPU, k) == SumCpus(a.cpus, core, k)
  {
    if k > 0 {
      SumCpuCounters(c, a, core, k - 1);
      CpuCounter(c, a, core, k - 1);
    }
  }

  lemma {:induction false} NodeCapacityAt(topo: seq<NumaNode>, mem: map<string, map<int, int>>, n: int, r: string)
    requires IndexOf(topo, n) < |topo|
    ensures r in NodeCapacity(topo, mem, n) <==> r in {"cpu", "memory", "hugepages-2Mi", "hugepages-1Gi"}
    ensures r in NodeCapacity(topo, mem, n) ==>
              NodeCapacity(topo, mem, n)[r] == if r == "cpu" then |Flatten(topo[IndexOf(topo, n)].cores)|
                                               else if r in mem && n in mem[r] then mem[r][n] else 0
  {
    assert |CPU| == 3 && |MEMORY| == 6 && |HUGEPAGES_2MI| == 13 && |HUGEPAGES_1GI| == 13;
    assert HUGEPAGES_2MI[10] == '2' && HUGEPAGES_1GI[10] == '1';
  }

  lemma {:induction false} WithDevicesAt(capacity: Counters, allocatable: Counters, n: int, r: string)
    ensures Get(WithDevices(capacity, allocatable), n, r) ==
            if n in capacity && !IsNative(r) && Has(allocatable, n, r) then allocatable[n][r] else Get(capacity, n, r)
  {
  }

  /** What a successful refresh makes of the capacities: CPUs are counted on the topology, memory and the two sizes of
      huge pages are what the machine reports for that very resource and node, and every device has its allocatable
      counter. */
  lemma {:induction false} CapacitySound(topo: seq<NumaNode>, mem: map<string, map<int, int>>, alloc: Counters,
                                         n: int, r: string)
    requires IdsCoverIndices(topo)
    ensures var c := WithDevices(FreshCapacity(topo, mem), alloc);
            && (n in c <==> 0 <= n < |topo|)
            && (n in c ==>
                  Get(c, n, r) == if r == "cpu" then |Flatten(topo[IndexOf(topo, n)].cores)|
                                  else if r in {"memory", "hugepages-2Mi", "hugepages-1Gi"}
                                  then if r in mem && n in mem[r] then mem[r][n] else 0
                                  else if InBytes(r) then 0
                                  else Get(alloc, n, r))
  {
    if 0 <= n < |topo| {
      NodeCapacityAt(topo, mem, n, r);
      WithDevicesAt(FreshCapacity(topo, mem), alloc, n, r);
      if r in FreshCapacity(topo, mem)[n] { NodeCapacityNative(topo, mem, n, r); }
      assert InBytes(r) <==> IsMemory(r);
    }
  }

  /** After a successful refresh with distinct CPU ids, no node has more allocatable CPUs than CPU capacity, and over
      all nodes the allocatable counters add up to the ids the topology knows: none is lost, none counted twice. */
  lemma {:induction false} CpuCountersSound(m: Machine, mem: map<string, map<int, int>>, a: Allocatable, res: Resources)
    requires IdsAreIndices(m.topo) && IdsCoverIndices(m.topo) && Distinct(a.cpus) && |a.cpus| <= Int64.MAX
    requires CpusByIdOnly(a) && CountsAllocatable(res.allocatable, a, CoreMap(m.topo))
    requires res.capacity == WithDevices(FreshCapacity(m.topo, mem), res.allocatable)
    ensures forall n :: 0 <= n < |m.topo| ==> 0 <= Get(res.allocatable, n, CPU) <= Get(res.capacity, n, CPU)
    ensures SumCounters(res.allocatable, CPU, |m.topo|) == Mapped(a.cpus, CoreMap(m.topo))
  {
    forall n | 0 <= n < |m.topo| ensures 0 <= Get(res.allocatable, n, CPU) <= Get(res.capacity, n, CPU) {
      CpuCounter(res.allocatable, a, CoreMap(m.topo), n);
      CapacitySound(m.topo, mem, res.allocatable, n, CPU);
      CpusFitNode(m.topo, a.cpus, n);
    }
    SumCpuCounters(res.allocatable, a, CoreMap(m.topo), |m.topo|);
    CpusConserved(m.topo, a.cpus);
  }

  // ---------- counters out of order ----------

  /** What a scan publishes, from the kubelet's two answers: a resource is in order exactly when the wrapped sums of
      what is allocatable and of what the pods hold are countable. */
  lemma {:induction false} ZoneOrderedIff(m: Machine, res: Resources, a: Allocatable, pods: seq<Pod>,
                                          exclude: map<string, set<string>>, node: int, r: string)
    requires CountsAllocatable(res.allocatable, a, CoreMap(m.topo))
    requires r in ZoneReport(m, res, pods, exclude, node)
    ensures var info := ZoneReport(m, res, pods, exclude, node)[r];
            var alloc := Int64.Wrap(Usage(a.devices, a.memory, a.cpus, CoreMap(m.topo), node, r));
            info.allocatable == alloc && (Ordered(info) <==> Countable(alloc, Used(m, pods, node, r)))
  {
    var alloc := ZoneAllocatable(res.allocatable, node)[r];
    assert alloc == Get(res.allocatable, node, r);
    ReportOrdered(r, ZoneCapacity(res.capacity, node), alloc, Used(m, pods, node, r));
  }

  /** No memory id of the device reads as a negative number. */
  predicate SizesSane(d: Device) {
    IsMemory(d.resource) ==> forall i :: 0 <= i < |d.ids| ==> Int64.Parse(d.ids[i]) >= 0
  }

  lemma {:induction false} SumNonNegative(ids: seq<string>)
    requires forall i :: 0 <= i < |ids| ==> Int64.Parse(ids[i]) >= 0
    ensures SumParsed(ids) >= 0
  {
    if ids != [] { SumNonNegative(ids[..|ids| - 1]); }
  }

  lemma {:induction false} ShareNonNegative(d: Device, n: int, r: string)
    requires SizesSane(d)
    ensures Share(d, n, r) >= 0
  {
    if IsMemory(d.resource) { SumNonNegative(d.ids); }
    Int64.MulNonNegative(multiset(d.nodes)[n], Amount(d));
  }

  lemma {:induction false} TotalNonNegative(devs: seq<Device>, n: int, r: string)
    requires forall i :: 0 <= i < |devs| ==> SizesSane(devs[i])
    ensures Total(devs, n, r) >= 0
  {
    if devs != [] {
      TotalNonNegative(devs[..|devs| - 1], n, r);
      ShareNonNegative(devs[|devs| - 1], n, r);
    }
  }

  lemma {:induction false} BlocksNonNegative(blocks: seq<MemoryBlock>, n: int, r: string)
    ensures BlocksTotal(blocks, n, r) >= 0
  {
    if blocks != [] { BlocksNonNegative(blocks[..|blocks| - 1], n, r); }
  }

  /** A container holds, and a node offers, a negative amount only if some memory id says so. */
  lemma {:induction false} UsageNonNegative(devs: seq<Device>, memory: seq<MemoryBlock>, cpus: seq<int>,
                                            core: map<int, int>, n: int, r: string)
    requires forall i :: 0 <= i < |devs| ==> SizesSane(devs[i])
    ensures Usage(devs, memory, cpus, core, n, r) >= 0
  {
    TotalNonNegative(devs, n, r);
    BlocksNonNegative(memory, n, r);
  }

  predicate ContainersSane(cs: seq<Container>) {
    forall i, j :: 0 <= i < |cs| && 0 <= j < |cs[i].devices| ==> SizesSane(cs[i].devices[j])
  }

  lemma {:induction false} ContainersNonNegative(cs: seq<Container>, core: map<int, int>, n: int, r: string)
    requires ContainersSane(cs)
    ensures ContainersUsage(cs, core, n, r) >= 0
  {
    if cs != [] {
      var c := cs[|cs| - 1];
      ContainersNonNegative(cs[..|cs| - 1], core, n, r);
      UsageNonNegative(c.devices, c.memory, c.cpus, core, n, r);
    }
  }

  lemma {:induction false} PodsNonNegative(pods: seq<Pod>, namespace: string, core: map<int, int>, n: int, r: string)
    requires forall i :: 0 <= i < |pods| ==> ContainersSane(pods[i].containers)
    ensures PodsUsage(pods, namespace, core, n, r) >= 0
  {
    if pods != [] {
      PodsNonNegative(pods[..|pods| - 1], namespace, core, n, r);
      ContainersNonNegative(pods[|pods| - 1].containers, core, n, r);
    }
  }

  /** Everything published is in order as long as no memory id reads as negative and both sums fit a counter. */
  lemma {:induction false} SaneOrdered(m: Machine, res: Resources, a: Allocatable, pods: seq<Pod>,
                                       exclude: map<string, set<string>>, node: int, r: string)
    requires CountsAllocatable(res.allocatable, a, CoreMap(m.topo))
    requires r in ZoneReport(m, res, pods, exclude, node)
    requires forall i :: 0 <= i < |a.devices| ==> SizesSane(a.devices[i])
    requires forall i :: 0 <= i < |pods| ==> ContainersSane(pods[i].containers)
    requires Usage(a.devices, a.memory, a.cpus, CoreMap(m.topo), node, r) <= Int64.MAX
    requires PodsUsage(pods, m.namespace, CoreMap(m.topo), node, r) <= Int64.MAX
    ensures Ordered(ZoneReport(m, res, pods, exclude, node)[r])
  {
    UsageNonNegative(a.devices, a.memory, a.cpus, CoreMap(m.topo), node, r);
    PodsNonNegative(pods, m.namespace, CoreMap(m.topo), node, r);
    ZoneOrderedIff(m, res, a, pods, exclude, node, r);
  }

  lemma {:induction false} WrapNegative(x: int)
    requires Int64.MAX < x <= Int64.MAX + Int64.MAX
    ensures Int64.Wrap(x) == x - Int64.RANGE
  {
    Int64.WrapAdd(x - Int64.RANGE, Int64.RANGE);
  }

  lemma {:induction false} TwoBlocks(block: MemoryBlock, core: map<int, int>)
    requires block == MemoryBlock(MEMORY, Int64.MAX, [0])
    ensures Usage([], [block, block], [], core, 0, MEMORY) == Int64.MAX + Int64.MAX
    ensures Uses([], [block, block], [], core, 0, MEMORY)
  {
    assert multiset(block.nodes)[0] == 1 && BlockShare(block, 0, MEMORY) == Int64.MAX;
    BlocksSnoc([], block, 0, MEMORY);
    BlocksSnoc([block], block, 0, MEMORY);
    assert [] + [block] == [block] && [block] + [block] == [block, block];
    assert CPU != MEMORY by { assert |CPU| == 3 && |MEMORY| == 6; }
    assert BlockLists([block, block][0], 0, MEMORY);
  }

  /** An overflow puts it out of order: two memory blocks of the largest size on one node are published as -2 bytes. */
  lemma {:induction false} OverflowUnordered(m: Machine, res: Resources, pods: seq<Pod>,
                                             exclude: map<string, set<string>>)
    requires var block := MemoryBlock(MEMORY, Int64.MAX, [0]);
             CountsAllocatable(res.allocatable, Allocatable([], [block, block], []), CoreMap(m.topo))
    requires !InExcludeSet(exclude, MEMORY, m.nodeName)
    ensures var zone := ZoneReport(m, res, pods, exclude, 0);
            MEMORY in zone && zone[MEMORY].allocatable == -2 && !Ordered(zone[MEMORY])
  {
    var block := MemoryBlock(MEMORY, Int64.MAX, [0]);
    TwoBlocks(block, CoreMap(m.topo));
    WrapNegative(Int64.MAX + Int64.MAX);
    assert Has(res.allocatable, 0, MEMORY);
    ZoneOrderedIff(m, res, Allocatable([], [block, block], []), pods, exclude, 0, MEMORY);
  }

  lemma {:induction false} NegativeDevice(d: Device, core: map<int, int>)
    requires d == Device(MEMORY, ["-1"], [0])
    ensures Usage([d], [], [], core, 0, MEMORY) == -1 && Uses([d], [], [], core, 0, MEMORY)
  {
    TotalSnoc([], d, 0, MEMORY);
    assert [] + [d] == [d];
    assert multiset(d.nodes)[0] == 1;
    assert SumParsed(d.ids) == -1 by {
      assert d.ids[..0] == [] && "-1"[1..] == "1" && "1"[..0] == [];
      assert Int64.ParseDigits("1") == Int64.Value(1);
    }
    assert CPU != MEMORY by { assert |CPU| == 3 && |MEMORY| == 6; }
    assert Lists([d][0], 0, MEMORY);
  }

  /** So does a device that passes itself off as memory with a negative id. */
  lemma {:induction false} NegativeIdUnordered(m: Machine, res: Resources, pods: seq<Pod>,
                                               exclude: map<string, set<string>>)
    requires CountsAllocatable(res.allocatable, Allocatable([Device(MEMORY, ["-1"], [0])], [], []), CoreMap(m.topo))
    requires !InExcludeSet(exclude, MEMORY, m.nodeName)
    ensures var zone := ZoneReport(m, res, pods, exclude, 0);
            MEMORY in zone && zone[MEMORY].allocatable == -1 && !Ordered(zone[MEMORY])
  {
    var d := Device(MEMORY, ["-1"], [0]);
    NegativeDevice(d, CoreMap(m.topo));
    assert Has(res.allocatable, 0, MEMORY);
    ZoneOrderedIff(m, res, Allocatable([d], [], []), pods, exclude, 0, MEMORY);
  }

  lemma {:induction false} EntriesStep(entries: map<string, ResourceInfo>, todo: set<string>, r: string)
    requires r in todo
    ensures entries - (todo - {r}) == if r in entries then (entries - todo)[r := entries[r]] else entries - todo
  {
  }

  lemma {:induction false} EnumeratesAdd(list: seq<ResourceInfo>, entries: map<string, ResourceInfo>,
                                         info: ResourceInfo)
    requires Enumerates(list, entries) && info.name !in entries
    ensures Enumerates(list + [info], entries[info.name := info])
  {
  }

  lemma {:induction false} NodeCapacityNative(topo: seq<NumaNode>, mem: map<string, map<int, int>>,
                                              node: int, r: string)
    requires IndexOf(topo, node) < |topo| && r in NodeCapacity(topo, mem, node)
    ensures IsNative(r)
  {
    assert HUGEPAGES_2MI[..10] == HUGEPAGES_PREFIX == HUGEPAGES_1GI[..10];
  }

  lemma {:induction false} FreshCapacityNative(topo: seq<NumaNode>, mem: map<string, map<int, int>>)
    requires IdsCoverIndices(topo)
    ensures NativeOnly(FreshCapacity(topo, mem))
  {
    var c := FreshCapacity(topo, mem);
    forall n, r | n in c && r in c[n] ensures IsNative(r) {
      NodeCapacityNative(topo, mem, n, r);
    }
  }

  lemma {:induction false} DevicesNone(counters: map<string, int>)
    ensures Devices(counters - counters.Keys) == map[]
  {
  }

  lemma {:induction false} DevicesStep(counters: map<string, int>, todo: set<string>, r: string)
    requires todo <= counters.Keys && r in todo
    ensures Devices(counters - (todo - {r})) ==
            if IsNative(r) then Devices(counters - todo) else Devices(counters - todo)[r := counters[r]]
  {
  }

  lemma {:induction false} WithDevicesNone(capacity: Counters, allocatable: Counters)
    ensures WithDevices(capacity, allocatable - allocatable.Keys) == capacity
  {
    assert forall n :: n in capacity ==> capacity[n] + Devices(map[]) == capacity[n];
  }

  lemma {:induction false} WithDevicesStep(capacity: Counters, allocatable: Counters, todo: set<int>, n: int)
    requires todo <= allocatable.Keys && n in todo
    ensures WithDevices(capacity, allocatable - (todo - {n})) ==
            if n !in capacity then WithDevices(capacity, allocatable - todo)
            else WithDevices(capacity, allocatable - todo)
                   [n := WithDevices(capacity, allocatable - todo)[n] + Devices(allocatable[n])]
  {
    if n in capacity {
      assert Devices(map[]) == map[] && capacity[n] + map[] == capacity[n];
    }
  }
}
