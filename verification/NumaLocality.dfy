/** The NUMA-locality filter: which pods hold anything tied to a NUMA node, and why the others do not matter to
    accounting. */
module NumaLocality {
  import opened PodResources
  import opened Accounting
  import opened NodeUsage
  import opened Wrappers

  datatype Result = Result(allow: bool, ident: string, reason: string)

  predicate Present(nodes: seq<int>) {
    exists i :: 0 <= i < |nodes| && nodes[i] >= 0
  }

  predicate DevicePresent(d: Device) {
    d.ids != [] && Present(d.nodes)
  }

  /** Why a container has locality: CPUs first, then memory, then devices; empty if it has none. */
  function Reason(c: Container): string {
    if c.cpus != [] then "cpu"
    else if exists i :: 0 <= i < |c.memory| && Present(c.memory[i].nodes) then "memory"
    else if exists i :: 0 <= i < |c.devices| && DevicePresent(c.devices[i]) then "device"
    else ""
  }

  predicate Local(p: Pod) {
    exists i :: 0 <= i < |p.containers| && Reason(p.containers[i]) != ""
  }

  method IsPresent(nodes: seq<int>) returns (present: bool)
    ensures present <==> Present(nodes)
  {
    for i := 0 to |nodes|
      invariant forall j :: 0 <= j < i ==> nodes[j] < 0
    {
      if nodes[i] >= 0 {
        return true;
      }
    }
    return false;
  }

  /** The first container with locality decides, and names the pod's reason; a missing pod is never allowed. */
  method Verify(pr: Option<Pod>) returns (res: Result)
    ensures res.allow <==> pr.Some? && Local(pr.value)
    ensures !res.allow ==> res.ident == res.reason == ""
    ensures res.allow ==>
              exists i :: 0 <= i < |pr.value.containers| && pr.value.containers[i].name == res.ident &&
                          Reason(pr.value.containers[i]) == res.reason &&
                          forall j :: 0 <= j < i ==> Reason(pr.value.containers[j]) == ""
  {
    res := Result(false, "", "");
    if pr.None? {
      return;
    }
    var containers := pr.value.containers;
    for i := 0 to |containers|
      invariant res == Result(false, "", "")
      invariant forall j :: 0 <= j < i ==> Reason(containers[j]) == ""
    {
      var cr := containers[i];
      if |cr.cpus| > 0 {
        return Result(true, cr.name, "cpu");
      }
      for m := 0 to |cr.memory|
        invariant forall j :: 0 <= j < m ==> !Present(cr.memory[j].nodes)
      {
        var present := IsPresent(cr.memory[m].nodes);
        if present {
          return Result(true, cr.name, "memory");
        }
      }
      for d := 0 to |cr.devices|
        invariant forall j :: 0 <= j < d ==> !DevicePresent(cr.devices[j])
      {
        var present := IsPresent(cr.devices[d].nodes);
        if |cr.devices[d].ids| > 0 && present {
          return Result(true, cr.name, "device");
        }
      }
    }
  }

  predicate SomeNode(nodes: seq<int>) { exists k :: k in nodes && k >= 0 }

  /** A pod has locality exactly if one of its containers holds CPUs, memory tied to a NUMA node, or devices tied to
      one. */
  lemma {:induction false} LocalIff(p: Pod)
    ensures Local(p) <==>
            exists c: Container :: c in p.containers &&
              (|c.cpus| > 0 || (exists b: MemoryBlock :: b in c.memory && SomeNode(b.nodes)) ||
               exists d: Device :: d in c.devices && |d.ids| > 0 && SomeNode(d.nodes))
  {
    forall c: Container
      ensures Reason(c) != "" <==>
              |c.cpus| > 0 || (exists b: MemoryBlock :: b in c.memory && SomeNode(b.nodes)) ||
              exists d: Device :: d in c.devices && |d.ids| > 0 && SomeNode(d.nodes)
    {
      ReasonMeans(c);
    }
  }

  lemma {:induction false} PresentIff(nodes: seq<int>)
    ensures Present(nodes) <==> SomeNode(nodes)
  {
    if k :| k in nodes && k >= 0 {
      var i :| 0 <= i < |nodes| && nodes[i] == k;
    }
    if i :| 0 <= i < |nodes| && nodes[i] >= 0 {
      assert nodes[i] in nodes;
    }
  }

  /** The reason given for a container: its CPUs before its memory before its devices. */
  lemma {:induction false} ReasonMeans(c: Container)
    ensures var memory := exists b: MemoryBlock :: b in c.memory && SomeNode(b.nodes);
            var devices := exists d: Device :: d in c.devices && |d.ids| > 0 && SomeNode(d.nodes);
            Reason(c) == if |c.cpus| > 0 then "cpu" else if memory then "memory" else if devices then "device" else ""
  {
    forall nodes ensures Present(nodes) <==> SomeNode(nodes) { PresentIff(nodes); }
    if b: MemoryBlock :| b in c.memory && SomeNode(b.nodes) {
      var i :| 0 <= i < |c.memory| && c.memory[i] == b;
      assert Present(c.memory[i].nodes);
    }
    if d: Device :| d in c.devices && |d.ids| > 0 && SomeNode(d.nodes) {
      var i :| 0 <= i < |c.devices| && c.devices[i] == d;
      assert DevicePresent(c.devices[i]);
    }
    if i :| 0 <= i < |c.devices| && DevicePresent(c.devices[i]) {
      assert c.devices[i] in c.devices && SomeNode(c.devices[i].nodes);
    }
    if i :| 0 <= i < |c.memory| && Present(c.memory[i].nodes) {
      assert c.memory[i] in c.memory && SomeNode(c.memory[i].nodes);
    }
  }

  // ---------- rejected pods do not count ----------

  lemma {:induction false} AbsentDevices(devs: seq<Device>, n: int, r: string)
    requires n >= 0 && forall i :: 0 <= i < |devs| ==> !DevicePresent(devs[i])
    ensures Total(devs, n, r) == 0
  {
    if devs != [] {
      var d := devs[|devs| - 1];
      AbsentDevices(devs[..|devs| - 1], n, r);
      assert !DevicePresent(d);
      if d.ids == [] {
        assert Amount(d) == 0;
      } else {
        assert n !in d.nodes;
        assert multiset(d.nodes)[n] == 0;
      }
    }
  }

  lemma {:induction false} AbsentBlocks(blocks: seq<MemoryBlock>, n: int, r: string)
    requires n >= 0 && forall i :: 0 <= i < |blocks| ==> !Present(blocks[i].nodes)
    ensures BlocksTotal(blocks, n, r) == 0
  {
    if blocks != [] {
      var b := blocks[|blocks| - 1];
      AbsentBlocks(blocks[..|blocks| - 1], n, r);
      assert n !in b.nodes;
      assert multiset(b.nodes)[n] == 0;
    }
  }

  lemma {:induction false} RejectedContainers(cs: seq<Container>, core: map<int, int>, n: int, r: string)
    requires n >= 0 && forall i :: 0 <= i < |cs| ==> Reason(cs[i]) == ""
    ensures ContainersUsage(cs, core, n, r) == 0
  {
    if cs != [] {
      var c := cs[|cs| - 1];
      RejectedContainers(cs[..|cs| - 1], core, n, r);
      assert Reason(c) == "";
      AbsentDevices(c.devices, n, r);
      AbsentBlocks(c.memory, n, r);
    }
  }

  function LocalOnly(pods: seq<Pod>): seq<Pod> {
    if pods == [] then [] else
    LocalOnly(pods[..|pods| - 1]) + if Local(pods[|pods| - 1]) then [pods[|pods| - 1]] else []
  }

  /** Exactly the pods with locality are left, each as often as before. */
  lemma {:induction false} LocalOnlyMeans(pods: seq<Pod>, p: Pod)
    ensures multiset(LocalOnly(pods))[p] == if Local(p) then multiset(pods)[p] else 0
  {
    if pods != [] {
      var front, last := pods[..|pods| - 1], pods[|pods| - 1];
      LocalOnlyMeans(front, p);
      assert pods == front + [last];
      assert multiset(front + [last]) == multiset(front) + multiset{last};
      assert multiset(LocalOnly(front) + [last]) == multiset(LocalOnly(front)) + multiset{last};
      assert LocalOnly(front) + [] == LocalOnly(front);
    }
  }

  /** Dropping every pod the filter rejects leaves the usage of every NUMA node as it was. */
  lemma {:induction false} RejectedPodsIrrelevant(pods: seq<Pod>, namespace: string, core: map<int, int>,
                                                  n: int, r: string)
    requires n >= 0
    ensures PodsUsage(LocalOnly(pods), namespace, core, n, r) == PodsUsage(pods, namespace, core, n, r)
  {
    if pods != [] {
      var front, last := pods[..|pods| - 1], pods[|pods| - 1];
      RejectedPodsIrrelevant(front, namespace, core, n, r);
      if Local(last) {
        PodsSnoc(LocalOnly(front), last, namespace, core, n, r);
      } else {
        assert LocalOnly(front) + [] == LocalOnly(front);
        RejectedContainers(last.containers, core, n, r);
      }
    }
  }
}
