/**
 Per-NUMA accounting: containers are normalised into one list of devices, and the list is counted per NUMA node and
 resource in wrapping 64-bit counters. Both are proved against one declarative sum over the pods.
 */
module Accounting {
  import opened Wrappers
  import opened PodResources
  import Int64

  type Counters = map<int, map<string, int>>

  // ---------- the sum over a list of devices ----------

  function SumParsed(ids: seq<string>): int {
    if ids == [] then 0 else SumParsed(ids[..|ids| - 1]) + Int64.Parse(ids[|ids| - 1])
  }

  /** What a device list counts for on each node it names: its bytes for memory, its pieces otherwise. */
  function Amount(d: Device): int {
    if IsMemory(d.resource) then SumParsed(d.ids) else |d.ids|
  }

  /** A device list counts once for every time it names the node. */
  function Share(d: Device, node: int, resource: string): int {
    if d.resource == resource then multiset(d.nodes)[node] * Amount(d) else 0
  }

  function Total(devs: seq<Device>, node: int, resource: string): int {
    if devs == [] then 0 else Total(devs[..|devs| - 1], node, resource) + Share(devs[|devs| - 1], node, resource)
  }

  predicate Lists(d: Device, node: int, resource: string) {
    d.resource == resource && node in d.nodes
  }

  predicate Listed(devs: seq<Device>, node: int, resource: string) {
    exists i :: 0 <= i < |devs| && Lists(devs[i], node, resource)
  }

  lemma {:induction false} TotalSnoc(devs: seq<Device>, d: Device, node: int, resource: string)
    ensures Total(devs + [d], node, resource) == Total(devs, node, resource) + Share(d, node, resource)
    ensures Listed(devs + [d], node, resource) <==> Listed(devs, node, resource) || Lists(d, node, resource)
  {
    assert (devs + [d])[..|devs|] == devs;
    if Listed(devs, node, resource) {
      var i :| 0 <= i < |devs| && Lists(devs[i], node, resource);
      assert Lists((devs + [d])[i], node, resource);
    }
    if Lists(d, node, resource) {
      assert Lists((devs + [d])[|devs|], node, resource);
    }
  }

  lemma {:induction false} TotalAppend(a: seq<Device>, b: seq<Device>, node: int, resource: string)
    ensures Total(a + b, node, resource) == Total(a, node, resource) + Total(b, node, resource)
    ensures Listed(a + b, node, resource) <==> Listed(a, node, resource) || Listed(b, node, resource)
  {
    if b == [] {
      assert a + b == a;
    } else {
      var front, last := b[..|b| - 1], b[|b| - 1];
      TotalAppend(a, front, node, resource);
      assert a + b == (a + front) + [last] && b == front + [last];
      TotalSnoc(a + front, last, node, resource);
      TotalSnoc(front, last, node, resource);
    }
  }

  // ---------- counting ----------

  /** `rc` has an entry for the pair exactly if it is listed, and the entry is the wrapped total. */
  predicate CountsAt(devs: seq<Device>, rc: Counters, node: int, resource: string) {
    && (Listed(devs, node, resource) <==> Has(rc, node, resource))
    && Get(rc, node, resource) == Int64.Wrap(Total(devs, node, resource))
  }

  ghost predicate Counts(devs: seq<Device>, rc: Counters) {
    forall node, resource :: CountsAt(devs, rc, node, resource)
  }

  predicate Has(rc: Counters, node: int, resource: string) {
    node in rc && resource in rc[node]
  }

  /** Reading a missing entry gives zero. */
  function Get(rc: Counters, node: int, resource: string): int {
    if Has(rc, node, resource) then rc[node][resource] else 0
  }

  /** The bytes of one device list, added up in a wrapping counter. */
  method SumBlocks(ids: seq<string>) returns (size: int)
    ensures size == Int64.Wrap(SumParsed(ids))
  {
    size := 0;
    for i := 0 to |ids|
      invariant size == Int64.Wrap(SumParsed(ids[..i]))
    {
      Int64.WrapAdd(SumParsed(ids[..i]), Int64.Parse(ids[i]));
      assert ids[..i + 1][..i] == ids[..i];
      size := Int64.Wrap(size + Int64.Parse(ids[i]));
    }
    assert ids[..|ids|] == ids;
  }

  /** Naming one more node adds the amount once more there, and nowhere else. */
  lemma {:induction false} ShareSnoc(d: Device, node: int, n: int, r: string)
    ensures Share(d.(nodes := d.nodes + [node]), n, r) ==
            Share(d, n, r) + if n == node && r == d.resource then Amount(d) else 0
    ensures Lists(d.(nodes := d.nodes + [node]), n, r) <==> Lists(d, n, r) || (n == node && r == d.resource)
  {
    NodesSnoc(d.nodes, node, n);
    assert (multiset(d.nodes)[n] + 1) * Amount(d) == multiset(d.nodes)[n] * Amount(d) + Amount(d);
    assert Amount(d.(nodes := d.nodes + [node])) == Amount(d);
  }

  /** Adds to the counter of one node and resource, creating it if missing. */
  function Bump(rc: Counters, node: int, resource: string, amount: int): Counters {
    var nodeRes := if node in rc then rc[node] else map[];
    rc[node := nodeRes[resource := Int64.Wrap(Get(rc, node, resource) + amount)]]
  }

  lemma {:induction false} BumpAt(rc: Counters, node: int, resource: string, amount: int, n: int, r: string)
    ensures var hit := n == node && r == resource;
            && (Has(Bump(rc, node, resource, amount), n, r) <==> hit || Has(rc, n, r))
            && Get(Bump(rc, node, resource, amount), n, r) ==
               if hit then Int64.Wrap(Get(rc, n, r) + amount) else Get(rc, n, r)
  {
  }

  lemma {:induction false} NodeTotal(devs: seq<Device>, d: Device, node: int, n: int, r: string)
    ensures Total(devs + [d.(nodes := d.nodes + [node])], n, r) ==
            Total(devs + [d], n, r) + if n == node && r == d.resource then Amount(d) else 0
    ensures Listed(devs + [d.(nodes := d.nodes + [node])], n, r) <==>
            Listed(devs + [d], n, r) || (n == node && r == d.resource)
  {
    TotalSnoc(devs, d, n, r);
    TotalSnoc(devs, d.(nodes := d.nodes + [node]), n, r);
    ShareSnoc(d, node, n, r);
  }

  lemma {:induction false} CountNodeAt(devs: seq<Device>, d: Device, node: int, rc: Counters, n: int, r: string)
    requires CountsAt(devs + [d], rc, n, r)
    ensures CountsAt(devs + [d.(nodes := d.nodes + [node])], Bump(rc, node, d.resource, Int64.Wrap(Amount(d))), n, r)
  {
    NodeTotal(devs, d, node, n, r);
    BumpAt(rc, node, d.resource, Int64.Wrap(Amount(d)), n, r);
    Int64.WrapAddBoth(Total(devs + [d], n, r), Amount(d));
  }

  lemma {:induction false} CountNode(devs: seq<Device>, d: Device, node: int, rc: Counters)
    requires Counts(devs + [d], rc)
    ensures Counts(devs + [d.(nodes := d.nodes + [node])], Bump(rc, node, d.resource, Int64.Wrap(Amount(d))))
  {
    forall n, r
      ensures CountsAt(devs + [d.(nodes := d.nodes + [node])], Bump(rc, node, d.resource, Int64.Wrap(Amount(d))), n, r)
    {
      assert CountsAt(devs + [d], rc, n, r);
      CountNodeAt(devs, d, node, rc, n, r);
    }
  }

  /** A device list that names no node counts for nothing. */
  lemma {:induction false} CountNoNodes(devs: seq<Device>, d: Device, rc: Counters)
    requires Counts(devs, rc)
    ensures Counts(devs + [d.(nodes := [])], rc)
  {
    forall n, r ensures CountsAt(devs + [d.(nodes := [])], rc, n, r) {
      assert CountsAt(devs, rc, n, r);
      TotalSnoc(devs, d.(nodes := []), n, r);
      assert Share(d.(nodes := []), n, r) == 0;
    }
  }

  /** Adds one device list to the counters, node by node. */
  method CountDevice(ghost devs: seq<Device>, d: Device, counted: Counters) returns (rc: Counters)
    requires Counts(devs, counted) && forall node :: node in counted ==> counted[node] != map[]
    ensures Counts(devs + [d], rc)
    ensures forall node :: node in rc ==> rc[node] != map[]
  {
    rc := counted;
    CountNoNodes(devs, d, rc);
    assert d.nodes[..0] == [];
    for j := 0 to |d.nodes|
      invariant Counts(devs + [d.(nodes := d.nodes[..j])], rc)
      invariant forall node :: node in rc ==> rc[node] != map[]
    {
      var node := d.nodes[j];
      var nodeRes := if node in rc then rc[node] else map[];
      var have := if d.resource in nodeRes then nodeRes[d.resource] else 0;
      if IsMemory(d.resource) {
        var memSize := SumBlocks(d.ids);
        nodeRes := nodeRes[d.resource := Int64.Wrap(have + memSize)];
      } else {
        nodeRes := nodeRes[d.resource := Int64.Wrap(have + Int64.Wrap(|d.ids|))];
      }
      CountNode(devs, d.(nodes := d.nodes[..j]), node, rc);
      assert d.nodes[..j] + [node] == d.nodes[..j + 1];
      assert rc[node := nodeRes] == Bump(rc, node, d.resource, Int64.Wrap(Amount(d)));
      assert d.resource in nodeRes;
      rc := rc[node := nodeRes];
    }
    assert d.nodes[..|d.nodes|] == d.nodes;
  }

  method CountPerNUMA(devices: seq<Device>) returns (rc: Counters)
    ensures Counts(devices, rc)
    ensures forall node :: node in rc ==> rc[node] != map[]
  {
    rc := map[];
    for i := 0 to |devices|
      invariant Counts(devices[..i], rc)
      invariant forall node :: node in rc ==> rc[node] != map[]
    {
      rc := CountDevice(devices[..i], devices[i], rc);
      assert devices[..i] + [devices[i]] == devices[..i + 1];
    }
    assert devices[..|devices|] == devices;
  }

  // ---------- what a container uses, declaratively ----------

  /** How many of the CPU ids are mapped to the node. */
  function CpusOn(cpus: seq<int>, core: map<int, int>, node: int): nat {
    if cpus == [] then 0 else
    var last := cpus[|cpus| - 1];
    CpusOn(cpus[..|cpus| - 1], core, node) + if last in core && core[last] == node then 1 else 0
  }

  function BlockAmount(b: MemoryBlock): nat {
    if IsMemory(b.kind) then Int64.Saturate(b.size) else 1
  }

  /** A non-empty block counts its size, up to the largest counter, once for every time it names the node. */
  function BlockShare(b: MemoryBlock, node: int, resource: string): int {
    if b.kind == resource && b.size != 0
    then multiset(b.nodes)[node] * BlockAmount(b) else 0
  }

  function BlocksTotal(blocks: seq<MemoryBlock>, node: int, resource: string): int {
    if blocks == [] then 0 else
    BlocksTotal(blocks[..|blocks| - 1], node, resource) + BlockShare(blocks[|blocks| - 1], node, resource)
  }

  predicate BlockLists(b: MemoryBlock, node: int, resource: string) {
    b.kind == resource && b.size != 0 && node in b.nodes
  }

  predicate BlocksListed(blocks: seq<MemoryBlock>, node: int, resource: string) {
    exists i :: 0 <= i < |blocks| && BlockLists(blocks[i], node, resource)
  }

  function CpuShare(cpus: seq<int>, core: map<int, int>, node: int, resource: string): nat {
    if resource == CPU then CpusOn(cpus, core, node) else 0
  }

  /** All a container, or the whole node, holds of a resource on a NUMA node. */
  function Usage(devices: seq<Device>, memory: seq<MemoryBlock>, cpus: seq<int>, core: map<int, int>,
                 node: int, resource: string): int {
    Total(devices, node, resource) + CpuShare(cpus, core, node, resource) + BlocksTotal(memory, node, resource)
  }

  predicate Uses(devices: seq<Device>, memory: seq<MemoryBlock>, cpus: seq<int>, core: map<int, int>,
                 node: int, resource: string) {
    || Listed(devices, node, resource)
    || CpuShare(cpus, core, node, resource) > 0
    || BlocksListed(memory, node, resource)
  }

  lemma {:induction false} BlocksSnoc(blocks: seq<MemoryBlock>, b: MemoryBlock, node: int, resource: string)
    ensures BlocksTotal(blocks + [b], node, resource) ==
            BlocksTotal(blocks, node, resource) + BlockShare(b, node, resource)
    ensures BlocksListed(blocks + [b], node, resource) <==>
            BlocksListed(blocks, node, resource) || BlockLists(b, node, resource)
  {
    assert (blocks + [b])[..|blocks|] == blocks;
    if BlocksListed(blocks, node, resource) {
      var i :| 0 <= i < |blocks| && BlockLists(blocks[i], node, resource);
      assert BlockLists((blocks + [b])[i], node, resource);
    }
    if BlockLists(b, node, resource) {
      assert BlockLists((blocks + [b])[|blocks|], node, resource);
    }
  }

  lemma {:induction false} BlocksAppend(a: seq<MemoryBlock>, b: seq<MemoryBlock>, node: int, resource: string)
    ensures BlocksTotal(a + b, node, resource) == BlocksTotal(a, node, resource) + BlocksTotal(b, node, resource)
  {
    if b == [] {
      assert a + b == a;
    } else {
      BlocksAppend(a, b[..|b| - 1], node, resource);
      assert (a + b)[..|a + b| - 1] == a + b[..|b| - 1];
    }
  }

  lemma {:induction false} CpusAppend(a: seq<int>, b: seq<int>, core: map<int, int>, node: int)
    ensures CpusOn(a + b, core, node) == CpusOn(a, core, node) + CpusOn(b, core, node)
  {
    if b == [] {
      assert a + b == a;
    } else {
      CpusAppend(a, b[..|b| - 1], core, node);
      assert (a + b)[..|a + b| - 1] == a + b[..|b| - 1];
    }
  }

  lemma {:induction false} ParsedAppend(a: seq<string>, b: seq<string>)
    ensures SumParsed(a + b) == SumParsed(a) + SumParsed(b)
  {
    if b == [] {
      assert a + b == a;
    } else {
      ParsedAppend(a, b[..|b| - 1]);
      assert (a + b)[..|a + b| - 1] == a + b[..|b| - 1];
    }
  }

  /** Usage is additive: what two lots of devices, blocks and CPUs hold together is what each of them holds. */
  lemma {:induction false} UsageAppend(devices: seq<Device>, memory: seq<MemoryBlock>, cpus: seq<int>,
                                       moreDevices: seq<Device>, moreMemory: seq<MemoryBlock>, moreCpus: seq<int>,
                                       core: map<int, int>, node: int, resource: string)
    ensures Usage(devices + moreDevices, memory + moreMemory, cpus + moreCpus, core, node, resource) ==
            Usage(devices, memory, cpus, core, node, resource) +
            Usage(moreDevices, moreMemory, moreCpus, core, node, resource)
  {
    TotalAppend(devices, moreDevices, node, resource);
    BlocksAppend(memory, moreMemory, node, resource);
    CpusAppend(cpus, moreCpus, core, node);
  }

  /** Memory and huge pages are counted in bytes. */
  predicate InBytes(resource: string) {
    resource == "memory" || (|resource| >= 10 && resource[..10] == "hugepages-")
  }

  /** And this is what one CPU, one device or one block holds: a CPU counts one on the node of its core; a device its
      ids, or the bytes they say, on every node it names; a block its bytes, up to the largest counter, on every node.
      */
  lemma {:induction false} UsageOfOne(cpu: int, d: Device, b: MemoryBlock, core: map<int, int>,
                                      node: int, resource: string)
    ensures Usage([], [], [], core, node, resource) == 0
    ensures Usage([], [], [cpu], core, node, resource) ==
            if resource == "cpu" && cpu in core && core[cpu] == node then 1 else 0
    ensures Usage([d], [], [], core, node, resource) ==
            if resource != d.resource then 0
            else multiset(d.nodes)[node] * if InBytes(resource) then SumParsed(d.ids) else |d.ids|
    ensures Usage([], [b], [], core, node, resource) ==
            if resource != b.kind || b.size == 0 then 0
            else multiset(b.nodes)[node] * if InBytes(resource) then Int64.Saturate(b.size) else 1
    ensures d.ids == [Int64.Print(b.size)] ==> SumParsed(d.ids) == Int64.Saturate(b.size)
  {
    assert [cpu][..0] == [] && [d][..0] == [] && [b][..0] == [];
    assert InBytes(resource) <==> IsMemory(resource);
    if d.ids == [Int64.Print(b.size)] {
      Int64.ParsePrint(b.size);
      assert d.ids[..0] == [];
    }
  }

  lemma {:induction false} CpusOnPositive(cpus: seq<int>, core: map<int, int>, node: int)
    ensures CpusOn(cpus, core, node) > 0 <==> exists i :: 0 <= i < |cpus| && cpus[i] in core && core[cpus[i]] == node
  {
    if cpus != [] {
      var front, last := cpus[..|cpus| - 1], cpus[|cpus| - 1];
      CpusOnPositive(front, core, node);
      if i :| 0 <= i < |cpus| && cpus[i] in core && core[cpus[i]] == node {
        assert i < |front| ==> front[i] == cpus[i];
      }
      if i :| 0 <= i < |front| && front[i] in core && core[front[i]] == node {
        assert cpus[i] == front[i];
      }
    }
  }

  /** A resource is known on a node exactly if a device or a block that is not empty names the node, or, for CPUs, one
      of the ids is mapped to it: even if what they hold there adds up to nothing. */
  lemma {:induction false} UsesIff(devices: seq<Device>, memory: seq<MemoryBlock>, cpus: seq<int>, core: map<int, int>,
                                   node: int, resource: string)
    ensures Uses(devices, memory, cpus, core, node, resource) <==>
            || (exists i :: 0 <= i < |devices| && devices[i].resource == resource && node in devices[i].nodes)
            || (exists i :: 0 <= i < |memory| && memory[i].kind == resource && memory[i].size > 0 &&
                            node in memory[i].nodes)
            || (resource == "cpu" && exists i :: 0 <= i < |cpus| && cpus[i] in core && core[cpus[i]] == node)
  {
    CpusOnPositive(cpus, core, node);
    if i :| 0 <= i < |devices| && devices[i].resource == resource && node in devices[i].nodes {
      assert Lists(devices[i], node, resource);
    }
    if i :| 0 <= i < |memory| && memory[i].kind == resource && memory[i].size > 0 && node in memory[i].nodes {
      assert BlockLists(memory[i], node, resource);
    }
  }

  // ---------- normalising ----------

  /** The CPUs of the nodes in `done` have been added to `base`. */
  predicate CpusAdded(base: seq<Device>, out: seq<Device>, perNuma: map<int, seq<string>>, done: set<int>,
                      node: int, resource: string) {
    var here := resource == CPU && node in done && node in perNuma;
    && Total(out, node, resource) == Total(base, node, resource) + (if here then |perNuma[node]| else 0)
    && (Listed(out, node, resource) <==> Listed(base, node, resource) || here)
  }

  lemma {:induction false} AddCpus(base: seq<Device>, out: seq<Device>, perNuma: map<int, seq<string>>,
                                   done: set<int>, k: int)
    requires forall n, r :: CpusAdded(base, out, perNuma, done, n, r)
    requires k in perNuma && k !in done
    ensures forall n, r :: CpusAdded(base, out + [Device(CPU, perNuma[k], [k])], perNuma, done + {k}, n, r)
  {
    var d := Device(CPU, perNuma[k], [k]);
    forall n, r ensures CpusAdded(base, out + [d], perNuma, done + {k}, n, r) {
      assert CpusAdded(base, out, perNuma, done, n, r);
      TotalSnoc(out, d, n, r);
      assert multiset(d.nodes)[n] == if n == k then 1 else 0;
      assert !IsMemory(CPU) by { assert "cpu"[0] != "hugepages-"[0]; }
    }
  }

  /** The blocks have been added to `base`, one device per block and node. */
  predicate BlocksAdded(base: seq<Device>, out: seq<Device>, blocks: seq<MemoryBlock>, node: int, resource: string) {
    && Total(out, node, resource) == Total(base, node, resource) + BlocksTotal(blocks, node, resource)
    && (Listed(out, node, resource) <==> Listed(base, node, resource) || BlocksListed(blocks, node, resource))
  }

  lemma {:induction false} BlockDeviceAmount(b: MemoryBlock, node: int)
    ensures Amount(Device(b.kind, [Int64.Print(b.size)], [node])) == BlockAmount(b)
  {
    var ids := [Int64.Print(b.size)];
    Int64.ParsePrint(b.size);
    assert SumParsed(ids) == SumParsed([]) + Int64.Parse(ids[0]) by { assert ids[..0] == []; }
  }

  lemma {:induction false} TimesNext(m: nat, one: nat)
    ensures (m + 1) * one == m * one + 1 * one
  {
  }

  lemma {:induction false} NodesSnoc(nodes: seq<int>, node: int, n: int)
    ensures multiset(nodes + [node])[n] == multiset(nodes)[n] + multiset([node])[n]
    ensures multiset([node])[n] == if n == node then 1 else 0
  {
    assert multiset(nodes + [node]) == multiset(nodes) + multiset([node]);
  }

  lemma {:induction false} BlockShareSnoc(b: MemoryBlock, d: Device, node: int, n: int, r: string)
    requires b.size != 0 && d.resource == b.kind && d.nodes == [node] && Amount(d) == BlockAmount(b)
    ensures var b' := b.(nodes := b.nodes + [node]);
            && BlockShare(b', n, r) == BlockShare(b, n, r) + Share(d, n, r)
            && (BlockLists(b', n, r) <==> BlockLists(b, n, r) || Lists(d, n, r))
  {
    NodesSnoc(b.nodes, node, n);
    TimesNext(multiset(b.nodes)[n], BlockAmount(b));
  }

  lemma {:induction false} AddBlock(base: seq<Device>, out: seq<Device>, blocks: seq<MemoryBlock>,
                                    b: MemoryBlock, node: int)
    requires b.size != 0
    requires forall n, r :: BlocksAdded(base, out, blocks + [b], n, r)
    ensures forall n, r :: BlocksAdded(base, out + [Device(b.kind, [Int64.Print(b.size)], [node])],
                                       blocks + [b.(nodes := b.nodes + [node])], n, r)
  {
    var d := Device(b.kind, [Int64.Print(b.size)], [node]);
    var b' := b.(nodes := b.nodes + [node]);
    BlockDeviceAmount(b, node);
    forall n, r ensures BlocksAdded(base, out + [d], blocks + [b'], n, r) {
      assert BlocksAdded(base, out, blocks + [b], n, r);
      TotalSnoc(out, d, n, r);
      BlocksSnoc(blocks, b, n, r);
      BlocksSnoc(blocks, b', n, r);
      BlockShareSnoc(b, d, node, n, r);
    }
  }

  /** A block that is empty or names no node adds nothing. */
  lemma {:induction false} SkipBlock(base: seq<Device>, out: seq<Device>, blocks: seq<MemoryBlock>, b: MemoryBlock)
    requires b.size == 0 || b.nodes == []
    requires forall n, r :: BlocksAdded(base, out, blocks, n, r)
    ensures forall n, r :: BlocksAdded(base, out, blocks + [b], n, r)
  {
    forall n, r ensures BlocksAdded(base, out, blocks + [b], n, r) {
      assert BlocksAdded(base, out, blocks, n, r);
      BlocksSnoc(blocks, b, n, r);
      assert BlockShare(b, n, r) == 0;
    }
  }

  function CpuText(cpu: int): string {
    if cpu < 0 then "-" + Int64.Print(-cpu) else Int64.Print(cpu)
  }

  /** The texts of the CPU ids mapped to the node, in order. */
  function TextsOn(cpus: seq<int>, core: map<int, int>, node: int): seq<string> {
    if cpus == [] then [] else
    var last := cpus[|cpus| - 1];
    TextsOn(cpus[..|cpus| - 1], core, node) + if last in core && core[last] == node then [CpuText(last)] else []
  }

  lemma {:induction false} TextsCount(cpus: seq<int>, core: map<int, int>, node: int)
    ensures |TextsOn(cpus, core, node)| == CpusOn(cpus, core, node)
  {
    if cpus != [] {
      TextsCount(cpus[..|cpus| - 1], core, node);
    }
  }

  /** `perNuma` lists for the node the ids mapped to it, if there are any. */
  predicate Grouped(cpus: seq<int>, core: map<int, int>, perNuma: map<int, seq<string>>, node: int) {
    && (node in perNuma <==> TextsOn(cpus, core, node) != [])
    && (node in perNuma ==> perNuma[node] == TextsOn(cpus, core, node))
  }

  method GroupCpus(cpus: seq<int>, core: map<int, int>) returns (perNuma: map<int, seq<string>>)
    ensures forall node :: Grouped(cpus, core, perNuma, node)
  {
    perNuma := map[];
    for i := 0 to |cpus|
      invariant forall node :: Grouped(cpus[..i], core, perNuma, node)
    {
      ghost var before := perNuma;
      if cpus[i] in core {
        var nodeID := core[cpus[i]];
        var list := if nodeID in perNuma then perNuma[nodeID] else [];
        perNuma := perNuma[nodeID := list + [CpuText(cpus[i])]];
      }
      ghost var seen := cpus[..i + 1];
      assert seen[..i] == cpus[..i] && seen[i] == cpus[i];
      forall node ensures Grouped(seen, core, perNuma, node) {
        assert Grouped(cpus[..i], core, before, node);
      }
    }
    assert cpus[..|cpus|] == cpus;
  }

  /** The normalised list holds, node by node and resource by resource, exactly what the declarative sum says, whatever
      order the per-node groups are walked in: map iteration visits the keys in no particular order. */
  method NormalizeContainerDevices(devices: seq<Device>, memory: seq<MemoryBlock>, cpus: seq<int>, core: map<int, int>)
    returns (out: seq<Device>)
    ensures forall n, r :: Total(out, n, r) == Usage(devices, memory, cpus, core, n, r)
    ensures forall n, r :: Listed(out, n, r) <==> Uses(devices, memory, cpus, core, n, r)
  {
    out := devices;
    var perNuma := GroupCpus(cpus, core);
    var todo := perNuma.Keys;
    while todo != {}
      invariant todo <= perNuma.Keys
      invariant forall n, r :: CpusAdded(devices, out, perNuma, perNuma.Keys - todo, n, r)
    {
      ghost var some := AnyElement(todo);
      var nodeID :| nodeID in todo;
      AddCpus(devices, out, perNuma, perNuma.Keys - todo, nodeID);
      assert perNuma.Keys - todo + {nodeID} == perNuma.Keys - (todo - {nodeID});
      out := out + [Device(CPU, perNuma[nodeID], [nodeID])];
      todo := todo - {nodeID};
    }
    assert perNuma.Keys - {} == perNuma.Keys;
    ghost var withCpus := out;
    out := AppendBlocks(out, memory);
    forall n, r
      ensures Total(out, n, r) == Usage(devices, memory, cpus, core, n, r)
      ensures Listed(out, n, r) <==> Uses(devices, memory, cpus, core, n, r)
    {
      assert CpusAdded(devices, withCpus, perNuma, perNuma.Keys, n, r) && Grouped(cpus, core, perNuma, n);
      TextsCount(cpus, core, n);
      assert BlocksAdded(withCpus, out, memory, n, r);
    }
  }

  method AppendBlocks(base: seq<Device>, memory: seq<MemoryBlock>) returns (out: seq<Device>)
    ensures forall n, r :: BlocksAdded(base, out, memory, n, r)
  {
    out := base;
    for i := 0 to |memory|
      invariant forall n, r :: BlocksAdded(base, out, memory[..i], n, r)
    {
      var block := memory[i];
      assert memory[..i] + [block] == memory[..i + 1];
      if block.size == 0 {
        SkipBlock(base, out, memory[..i], block);
      } else {
        SkipBlock(base, out, memory[..i], block.(nodes := []));
        assert block.nodes[..0] == [];
        for j := 0 to |block.nodes|
          invariant forall n, r :: BlocksAdded(base, out, memory[..i] + [block.(nodes := block.nodes[..j])], n, r)
        {
          AddBlock(base, out, memory[..i], block.(nodes := block.nodes[..j]), block.nodes[j]);
          assert block.nodes[..j] + [block.nodes[j]] == block.nodes[..j + 1];
          out := out + [Device(block.kind, [Int64.Print(block.size)], [block.nodes[j]])];
        }
        assert block.nodes[..|block.nodes|] == block.nodes;
      }
    }
    assert memory[..|memory|] == memory;
  }
}
