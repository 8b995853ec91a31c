/** What all pods together hold on a NUMA node: independent of pod order, additive, and blind to pods without
    locality. */
module NodeUsage {
  import opened PodResources
  import opened Accounting
  import Int64

  function ContainersUsage(cs: seq<Container>, core: map<int, int>, node: int, resource: string): int {
    if cs == [] then 0 else
    var c := cs[|cs| - 1];
    ContainersUsage(cs[..|cs| - 1], core, node, resource) + Usage(c.devices, c.memory, c.cpus, core, node, resource)
  }

  predicate Watched(namespace: string, p: Pod) {
    namespace == "" || namespace == p.namespace
  }

  function PodUsage(p: Pod, namespace: string, core: map<int, int>, node: int, resource: string): int {
    if Watched(namespace, p) then ContainersUsage(p.containers, core, node, resource) else 0
  }

  function PodsUsage(pods: seq<Pod>, namespace: string, core: map<int, int>, node: int, resource: string): int {
    if pods == [] then 0 else
    PodsUsage(pods[..|pods| - 1], namespace, core, node, resource) +
    PodUsage(pods[|pods| - 1], namespace, core, node, resource)
  }

  method GetAllContainerDevices(pods: seq<Pod>, namespace: string, core: map<int, int>) returns (all: seq<Device>)
    ensures forall n, r :: Total(all, n, r) == PodsUsage(pods, namespace, core, n, r)
  {
    all := [];
    for i := 0 to |pods|
      invariant forall n, r :: Total(all, n, r) == PodsUsage(pods[..i], namespace, core, n, r)
    {
      var pod := pods[i];
      ghost var before := all;
      if Watched(namespace, pod) {
        for j := 0 to |pod.containers|
          invariant forall n, r ::
                      Total(all, n, r) == Total(before, n, r) + ContainersUsage(pod.containers[..j], core, n, r)
        {
          var c := pod.containers[j];
          var devs := NormalizeContainerDevices(c.devices, c.memory, c.cpus, core);
          ghost var cs := pod.containers[..j + 1];
          assert cs[..j] == pod.containers[..j];
          forall n, r
            ensures Total(all + devs, n, r) == Total(before, n, r) + ContainersUsage(cs, core, n, r)
          {
            TotalAppend(all, devs, n, r);
          }
          all := all + devs;
        }
        assert pod.containers[..|pod.containers|] == pod.containers;
      }
      ghost var seen := pods[..i + 1];
      assert seen[..i] == pods[..i] && seen[i] == pod;
      forall n, r ensures Total(all, n, r) == PodsUsage(seen, namespace, core, n, r) {
        assert PodsUsage(pods[..i], namespace, core, n, r) == Total(before, n, r);
      }
    }
    assert pods[..|pods|] == pods;
  }

  /** Every counter, present or missing, is the wrapped declarative sum, hence exact whenever the sum fits. */
  method CountAllocated(pods: seq<Pod>, namespace: string, core: map<int, int>) returns (rc: Counters)
    ensures forall n, r :: Get(rc, n, r) == Int64.Wrap(PodsUsage(pods, namespace, core, n, r))
    ensures forall n, r :: 0 <= PodsUsage(pods, namespace, core, n, r) <= Int64.MAX ==>
                             Get(rc, n, r) == PodsUsage(pods, namespace, core, n, r)
  {
    var all := GetAllContainerDevices(pods, namespace, core);
    rc := CountPerNUMA(all);
    forall n, r ensures Get(rc, n, r) == Int64.Wrap(PodsUsage(pods, namespace, core, n, r)) {
      assert CountsAt(all, rc, n, r);
      assert Total(all, n, r) == PodsUsage(pods, namespace, core, n, r);
    }
  }

  /** Usage is additive over lists of pods. */
  lemma {:induction false} PodsAppend(a: seq<Pod>, b: seq<Pod>, namespace: string, core: map<int, int>,
                                      n: int, r: string)
    ensures PodsUsage(a + b, namespace, core, n, r) ==
            PodsUsage(a, namespace, core, n, r) + PodsUsage(b, namespace, core, n, r)
  {
    if b == [] {
      assert a + b == a;
    } else {
      var front := b[..|b| - 1];
      PodsAppend(a, front, namespace, core, n, r);
      assert (a + b)[..|a + b| - 1] == a + front;
    }
  }

  lemma {:induction false} PodsSnoc(a: seq<Pod>, p: Pod, namespace: string, core: map<int, int>, n: int, r: string)
    ensures PodsUsage(a + [p], namespace, core, n, r) ==
            PodsUsage(a, namespace, core, n, r) + PodUsage(p, namespace, core, n, r)
  {
    assert (a + [p])[..|a|] == a;
  }

  // ---------- which pods count ----------

  function AllContainers(pods: seq<Pod>): seq<Container> {
    if pods == [] then [] else AllContainers(pods[..|pods| - 1]) + pods[|pods| - 1].containers
  }

  function InNamespace(pods: seq<Pod>, namespace: string): seq<Pod> {
    if pods == [] then [] else
    var last := pods[|pods| - 1];
    InNamespace(pods[..|pods| - 1], namespace) + if last.namespace == namespace then [last] else []
  }

  lemma {:induction false} ContainersAppend(a: seq<Container>, b: seq<Container>, core: map<int, int>,
                                            n: int, r: string)
    ensures ContainersUsage(a + b, core, n, r) == ContainersUsage(a, core, n, r) + ContainersUsage(b, core, n, r)
  {
    if b == [] {
      assert a + b == a;
    } else {
      ContainersAppend(a, b[..|b| - 1], core, n, r);
      assert (a + b)[..|a + b| - 1] == a + b[..|b| - 1];
    }
  }

  /** With no namespace given every container of every pod counts. */
  lemma {:induction false} EveryNamespace(pods: seq<Pod>, core: map<int, int>, n: int, r: string)
    ensures PodsUsage(pods, "", core, n, r) == ContainersUsage(AllContainers(pods), core, n, r)
  {
    if pods != [] {
      EveryNamespace(pods[..|pods| - 1], core, n, r);
      ContainersAppend(AllContainers(pods[..|pods| - 1]), pods[|pods| - 1].containers, core, n, r);
    }
  }

  /** With one given, exactly those of the pods in it. */
  lemma {:induction false} OneNamespace(pods: seq<Pod>, namespace: string, core: map<int, int>, n: int, r: string)
    requires namespace != ""
    ensures PodsUsage(pods, namespace, core, n, r) ==
            ContainersUsage(AllContainers(InNamespace(pods, namespace)), core, n, r)
  {
    if pods != [] {
      var front, last := InNamespace(pods[..|pods| - 1], namespace), pods[|pods| - 1];
      OneNamespace(pods[..|pods| - 1], namespace, core, n, r);
      if last.namespace == namespace {
        assert (front + [last])[..|front|] == front;
        ContainersAppend(AllContainers(front), last.containers, core, n, r);
      } else {
        assert front + [] == front;
      }
    }
  }

  function AllDevices(cs: seq<Container>): seq<Device> {
    if cs == [] then [] else AllDevices(cs[..|cs| - 1]) + cs[|cs| - 1].devices
  }

  function AllMemory(cs: seq<Container>): seq<MemoryBlock> {
    if cs == [] then [] else AllMemory(cs[..|cs| - 1]) + cs[|cs| - 1].memory
  }

  function AllCpus(cs: seq<Container>): seq<int> {
    if cs == [] then [] else AllCpus(cs[..|cs| - 1]) + cs[|cs| - 1].cpus
  }

  /** Containers together hold what one would with all their devices, memory and CPUs. */
  lemma {:induction false} ContainersTogether(cs: seq<Container>, core: map<int, int>, n: int, r: string)
    ensures ContainersUsage(cs, core, n, r) == Usage(AllDevices(cs), AllMemory(cs), AllCpus(cs), core, n, r)
  {
    if cs != [] {
      var front, last := cs[..|cs| - 1], cs[|cs| - 1];
      ContainersTogether(front, core, n, r);
      UsageAppend(AllDevices(front), AllMemory(front), AllCpus(front),
                  last.devices, last.memory, last.cpus, core, n, r);
    }
  }

  // ---------- the order of pods ----------

  lemma {:induction false} DropCommon<T>(f: seq<T>, x: seq<T>, y: seq<T>, p: T)
    requires multiset(f + [p]) == multiset(x + [p] + y)
    ensures multiset(f) == multiset(x + y)
  {
    assert multiset(f + [p]) == multiset(f) + multiset{p};
    assert multiset(x + [p] + y) == multiset(x) + multiset{p} + multiset(y);
    assert multiset(x + y) == multiset(x) + multiset(y);
    assert multiset(f) == multiset(f + [p]) - multiset{p};
    assert multiset(x + y) == multiset(x + [p] + y) - multiset{p};
  }

  /** The order the kubelet lists pods in does not matter. */
  lemma {:induction false} PodOrderIrrelevant(a: seq<Pod>, b: seq<Pod>, namespace: string, core: map<int, int>,
                                              n: int, r: string)
    requires multiset(a) == multiset(b)
    ensures PodsUsage(a, namespace, core, n, r) == PodsUsage(b, namespace, core, n, r)
  {
    if a == [] {
      assert |b| == |multiset(b)| == 0;
    } else {
      var front, p := a[..|a| - 1], a[|a| - 1];
      assert a == front + [p];
      assert p in multiset(b);
      var i :| 0 <= i < |b| && b[i] == p;
      var rest := b[..i] + b[i + 1..];
      assert b == b[..i] + [p] + b[i + 1..];
      DropCommon(front, b[..i], b[i + 1..], p);
      PodOrderIrrelevant(front, rest, namespace, core, n, r);
      PodsAppend(b[..i] + [p], b[i + 1..], namespace, core, n, r);
      PodsSnoc(b[..i], p, namespace, core, n, r);
      PodsAppend(b[..i], b[i + 1..], namespace, core, n, r);
    }
  }
}
