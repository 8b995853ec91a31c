/** The machine topology: which NUMA node each logical processor belongs to, and how many a node has. */
module Topology {
  import opened Accounting

  /** `cores` lists the logical processors of each core. */
  datatype NumaNode = NumaNode(id: int, cores: seq<seq<int>>)

  function Flatten(cores: seq<seq<int>>): seq<int> {
    if cores == [] then [] else Flatten(cores[..|cores| - 1]) + cores[|cores| - 1]
  }

  /** The processors of a node are those of its cores, and as many. */
  lemma {:induction false} FlattenMeans(cores: seq<seq<int>>, p: int, width: nat)
    ensures p in Flatten(cores) <==> exists i :: 0 <= i < |cores| && p in cores[i]
    ensures (forall i :: 0 <= i < |cores| ==> |cores[i]| == width) ==> |Flatten(cores)| == |cores| * width
  {
    if cores != [] {
      var front, last := cores[..|cores| - 1], cores[|cores| - 1];
      FlattenMeans(front, p, width);
      assert |front| * width + width == |cores| * width;
      if i :| 0 <= i < |cores| && p in cores[i] { assert i < |front| ==> p in front[i]; }
      if i :| 0 <= i < |front| && p in front[i] { assert p in cores[i]; }
    }
  }

  /** Every processor of the list belongs to the node, overriding what was known before. */
  function Assign(core: map<int, int>, procs: seq<int>, id: int): map<int, int> {
    core + map p | p in procs :: id
  }

  lemma {:induction false} AssignSnoc(core: map<int, int>, procs: seq<int>, p: int, id: int)
    ensures Assign(core, procs + [p], id) == Assign(core, procs, id)[p := id]
    ensures Assign(core, [], id) == core
  {
  }

  function CoreMap(nodes: seq<NumaNode>): map<int, int> {
    if nodes == [] then map[] else
    var last := nodes[|nodes| - 1];
    Assign(CoreMap(nodes[..|nodes| - 1]), Flatten(last.cores), last.id)
  }

  method MakeCoreIDToNodeIDMap(nodes: seq<NumaNode>) returns (core: map<int, int>)
    ensures core == CoreMap(nodes)
  {
    core := map[];
    for i := 0 to |nodes|
      invariant core == CoreMap(nodes[..i])
    {
      var node := nodes[i];
      ghost var before := core;
      AssignSnoc(before, [], 0, node.id);
      for j := 0 to |node.cores|
        invariant core == Assign(before, Flatten(node.cores[..j]), node.id)
      {
        ghost var sofar := Flatten(node.cores[..j]);
        var procs := node.cores[j];
        assert sofar + procs[..0] == sofar;
        for k := 0 to |procs|
          invariant core == Assign(before, sofar + procs[..k], node.id)
        {
          AssignSnoc(before, sofar + procs[..k], procs[k], node.id);
          assert sofar + procs[..k + 1] == sofar + procs[..k] + [procs[k]];
          core := core[procs[k] := node.id];
        }
        assert procs[..|procs|] == procs;
        assert node.cores[..j + 1][..j] == node.cores[..j];
      }
      assert node.cores[..|node.cores|] == node.cores;
      assert nodes[..i + 1][..i] == nodes[..i];
    }
    assert nodes[..|nodes|] == nodes;
  }

  /** The index of the first node with the ID, or the number of nodes. */
  function IndexOf(nodes: seq<NumaNode>, id: int): (i: nat)
    ensures i <= |nodes|
    ensures i < |nodes| ==> nodes[i].id == id
    ensures forall j :: 0 <= j < i ==> nodes[j].id != id
  {
    if nodes == [] then 0 else
    var i := IndexOf(nodes[..|nodes| - 1], id);
    if i == |nodes| - 1 && nodes[i].id != id then |nodes| else i
  }

  method FindNodeByID(nodes: seq<NumaNode>, id: int) returns (i: nat)
    ensures i == IndexOf(nodes, id)
  {
    i := 0;
    while i < |nodes|
      invariant i <= |nodes|
      invariant forall j :: 0 <= j < i ==> nodes[j].id != id
    {
      if nodes[i].id == id {
        return;
      }
      i := i + 1;
    }
  }

  /** Some node has each index as its ID: what reading the capacities takes for granted. */
  predicate IdsCoverIndices(nodes: seq<NumaNode>) {
    forall id :: 0 <= id < |nodes| ==> IndexOf(nodes, id) < |nodes|
  }

  /** The number of logical processors of the node; the node must be there. */
  method CpuCapacity(nodes: seq<NumaNode>, id: int) returns (capacity: nat)
    requires IndexOf(nodes, id) < |nodes|
    ensures capacity == |Flatten(nodes[IndexOf(nodes, id)].cores)|
  {
    var i := FindNodeByID(nodes, id);
    var cores := nodes[i].cores;
    capacity := 0;
    for k := 0 to |cores|
      invariant capacity == |Flatten(cores[..k])|
    {
      assert cores[..k + 1][..k] == cores[..k];
      capacity := capacity + |cores[k]|;
    }
    assert cores[..|cores|] == cores;
  }

  // ---------- allocatable CPUs fit the node ----------

  predicate IdsAreIndices(nodes: seq<NumaNode>) {
    forall i :: 0 <= i < |nodes| ==> nodes[i].id == i
  }

  predicate Distinct(s: seq<int>) {
    forall i, j :: 0 <= i < j < |s| ==> s[i] != s[j]
  }

  lemma {:induction false} CoreMapSound(nodes: seq<NumaNode>, p: int)
    requires IdsAreIndices(nodes) && p in CoreMap(nodes)
    ensures 0 <= CoreMap(nodes)[p] < |nodes| && p in Flatten(nodes[CoreMap(nodes)[p]].cores)
  {
    var last := nodes[|nodes| - 1];
    if p !in Flatten(last.cores) {
      CoreMapSound(nodes[..|nodes| - 1], p);
    }
  }

  /** Every processor is mapped, and to its own node if no later one claims it too. */
  lemma {:induction false} CoreMapComplete(nodes: seq<NumaNode>, i: nat, p: int)
    requires i < |nodes| && p in Flatten(nodes[i].cores)
    ensures p in CoreMap(nodes)
    ensures (forall j :: i < j < |nodes| ==> p !in Flatten(nodes[j].cores)) ==> CoreMap(nodes)[p] == nodes[i].id
  {
    if i < |nodes| - 1 {
      CoreMapComplete(nodes[..|nodes| - 1], i, p);
    }
  }

  lemma {:induction false} SetNoLarger<T>(s: seq<T>, t: set<T>)
    requires forall x :: x in t ==> x in s
    ensures |t| <= |s|
  {
    if s == [] {
      assert t == {};
    } else {
      var front, last := s[..|s| - 1], s[|s| - 1];
      SetNoLarger(front, t - {last});
      assert |t - {last}| >= |t| - 1;
    }
  }

  function OnNode(cpus: seq<int>, core: map<int, int>, node: int): set<int> {
    set c | c in cpus && c in core && core[c] == node
  }

  lemma {:induction false} CpusOnIsSize(cpus: seq<int>, core: map<int, int>, node: int)
    requires Distinct(cpus)
    ensures CpusOn(cpus, core, node) == |OnNode(cpus, core, node)|
  {
    if cpus == [] {
      assert OnNode(cpus, core, node) == {};
    } else {
      var front, last := cpus[..|cpus| - 1], cpus[|cpus| - 1];
      CpusOnIsSize(front, core, node);
      assert last !in front;
      if last in core && core[last] == node {
        assert OnNode(cpus, core, node) == OnNode(front, core, node) + {last};
      } else {
        assert OnNode(cpus, core, node) == OnNode(front, core, node);
      }
    }
  }

  /** No node has more allocatable CPUs than its capacity, the number of its logical processors. */
  lemma {:induction false} CpusFitNode(nodes: seq<NumaNode>, cpus: seq<int>, node: int)
    requires IdsAreIndices(nodes) && Distinct(cpus) && 0 <= node < |nodes|
    ensures IndexOf(nodes, node) == node
    ensures CpusOn(cpus, CoreMap(nodes), node) <= |Flatten(nodes[IndexOf(nodes, node)].cores)|
  {
    assert nodes[node].id == node;
    var here := OnNode(cpus, CoreMap(nodes), node);
    CpusOnIsSize(cpus, CoreMap(nodes), node);
    forall c | c in here ensures c in Flatten(nodes[node].cores) {
      CoreMapSound(nodes, c);
    }
    SetNoLarger(Flatten(nodes[node].cores), here);
  }

  function SumCpus(cpus: seq<int>, core: map<int, int>, k: nat): nat {
    if k == 0 then 0 else SumCpus(cpus, core, k - 1) + CpusOn(cpus, core, k - 1)
  }

  function Mapped(cpus: seq<int>, core: map<int, int>): nat {
    if cpus == [] then 0 else
    Mapped(cpus[..|cpus| - 1], core) + if cpus[|cpus| - 1] in core then 1 else 0
  }

  lemma {:induction false} SumCpusSnoc(cpus: seq<int>, core: map<int, int>, k: nat)
    requires cpus != []
    ensures var last := cpus[|cpus| - 1];
            SumCpus(cpus, core, k) ==
            SumCpus(cpus[..|cpus| - 1], core, k) + if last in core && 0 <= core[last] < k then 1 else 0
  {
    if k > 0 { SumCpusSnoc(cpus, core, k - 1); }
  }

  lemma {:induction false} SumCpusEmpty(core: map<int, int>, k: nat)
    ensures SumCpus([], core, k) == 0
  {
    if k > 0 { SumCpusEmpty(core, k - 1); }
  }

  /** Over all nodes the counters add up to the CPU ids the topology knows: none is lost, none counted twice. */
  lemma {:induction false} CpusConserved(nodes: seq<NumaNode>, cpus: seq<int>)
    requires IdsAreIndices(nodes)
    ensures SumCpus(cpus, CoreMap(nodes), |nodes|) == Mapped(cpus, CoreMap(nodes))
  {
    if cpus == [] {
      SumCpusEmpty(CoreMap(nodes), |nodes|);
    } else {
      var last := cpus[|cpus| - 1];
      CpusConserved(nodes, cpus[..|cpus| - 1]);
      SumCpusSnoc(cpus, CoreMap(nodes), |nodes|);
      if last in CoreMap(nodes) { CoreMapSound(nodes, last); }
    }
  }
}
