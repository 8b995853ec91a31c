/**
 The filters stacked on the PodResources client. Innermost, the shared-pool filter takes the CPUs of the reference
 container out of every container, in place; then excluded pods and, last, terminal pods are dropped.
 */
module Middleware {
  import opened Wrappers
  import opened PodResources
  import opened CpuSets
  import opened ContainerIdent

  /** The response of a List call, changed in place. */
  class ListResponse {
    var pods: seq<Pod>

    constructor (pods: seq<Pod>)
      ensures this.pods == pods
    {
      this.pods := pods;
    }
  }

  // ---------- the shared CPU pool ----------

  predicate IsReference(ci: ContainerIdent, p: Pod) {
    p.namespace == ci.namespace && p.name == ci.podName
  }

  /** The CPUs of the first container of that name. */
  function PoolInPod(name: string, cs: seq<Container>): Option<set<int>> {
    if cs == [] then None
    else if cs[0].name == name then Some(Elements(cs[0].cpus))
    else PoolInPod(name, cs[1..])
  }

  /** The CPUs of the reference container: the first that matches, in the first pod that has it; none if there is
      none. */
  function SharedPool(ref: Option<ContainerIdent>, pods: seq<Pod>): set<int> {
    if ref.None? || pods == [] then {}
    else if IsReference(ref.value, pods[0]) && PoolInPod(ref.value.containerName, pods[0].containers).Some?
    then PoolInPod(ref.value.containerName, pods[0].containers).value
    else SharedPool(ref, pods[1..])
  }

  ghost function WithoutCpus(c: Container, pool: set<int>): Container {
    c.(cpus := List(Elements(c.cpus) - pool))
  }

  ghost function ContainersWithout(cs: seq<Container>, pool: set<int>): (r: seq<Container>)
    ensures |r| == |cs| && forall i :: 0 <= i < |cs| ==> r[i] == WithoutCpus(cs[i], pool)
  {
    seq(|cs|, i requires 0 <= i < |cs| => WithoutCpus(cs[i], pool))
  }

  ghost function PodWithout(p: Pod, pool: set<int>): Pod {
    p.(containers := ContainersWithout(p.containers, pool))
  }

  ghost function PodsWithout(pods: seq<Pod>, pool: set<int>): (r: seq<Pod>)
    ensures |r| == |pods| && forall i :: 0 <= i < |pods| ==> r[i] == PodWithout(pods[i], pool)
  {
    seq(|pods|, i requires 0 <= i < |pods| => PodWithout(pods[i], pool))
  }

  method FindSharedPoolCPUs(ref: Option<ContainerIdent>, pods: seq<Pod>) returns (pool: set<int>)
    ensures pool == SharedPool(ref, pods)
  {
    if ref.None? {
      return {};
    }
    for i := 0 to |pods|
      invariant SharedPool(ref, pods) == SharedPool(ref, pods[i..])
    {
      var pod := pods[i];
      assert pods[i..][1..] == pods[i + 1..];
      if pod.namespace != ref.value.namespace || pod.name != ref.value.podName {
        continue;
      }
      for j := 0 to |pod.containers|
        invariant PoolInPod(ref.value.containerName, pod.containers) ==
                  PoolInPod(ref.value.containerName, pod.containers[j..])
      {
        var cnt := pod.containers[j];
        assert pod.containers[j..][1..] == pod.containers[j + 1..];
        if cnt.name == ref.value.containerName {
          return Elements(cnt.cpus);
        }
      }
    }
    return {};
  }

  method MaxOf(s: set<int>) returns (m: int)
    requires s != {}
    ensures m == Max(s)
  {
    MaxExists(s);
    m :| m in s && forall x :: x in s ==> x <= m;
  }

  /** What is left of the list as a set, listed again in increasing order. */
  method RemoveCPUs(cpus: seq<int>, toRemove: set<int>) returns (list: seq<int>)
    ensures list == List(Elements(cpus) - toRemove)
  {
    var left := Elements(cpus) - toRemove;
    list := [];
    while left != {}
      invariant left <= Elements(cpus) - toRemove
      invariant List(Elements(cpus) - toRemove) == List(left) + list
      decreases |left|
    {
      var cpu := MaxOf(left);
      list := [cpu] + list;
      left := left - {cpu};
    }
  }

  class SharedPoolClient {
    const refCnt: Option<ContainerIdent>
    var sharedPoolCPUs: set<int>   // only for logging

    constructor (refCnt: Option<ContainerIdent>)
      ensures this.refCnt == refCnt && sharedPoolCPUs == {}
    {
      this.refCnt := refCnt;
      sharedPoolCPUs := {};
    }

    method FilterListResponse(resp: ListResponse)
      modifies this, resp
      ensures resp.pods == PodsWithout(old(resp.pods), SharedPool(refCnt, old(resp.pods)))
      ensures sharedPoolCPUs == SharedPool(refCnt, old(resp.pods))
    {
      ghost var before := resp.pods;
      var pool := FindSharedPoolCPUs(refCnt, resp.pods);
      if sharedPoolCPUs != pool {
        sharedPoolCPUs := pool;
      }
      var n := |resp.pods|;
      for i := 0 to n
        invariant |resp.pods| == n && sharedPoolCPUs == pool
        invariant forall k :: 0 <= k < i ==> resp.pods[k] == PodWithout(before[k], pool)
        invariant forall k :: i <= k < n ==> resp.pods[k] == before[k]
      {
        var pod := resp.pods[i];
        var m := |pod.containers|;
        for j := 0 to m
          modifies {}
          invariant pod == before[i].(containers := pod.containers) && |pod.containers| == m == |before[i].containers|
          invariant forall k :: 0 <= k < j ==> pod.containers[k] == WithoutCpus(before[i].containers[k], pool)
          invariant forall k :: j <= k < m ==> pod.containers[k] == before[i].containers[k]
        {
          var cnt := pod.containers[j];
          var cpus := RemoveCPUs(cnt.cpus, pool);
          pod := pod.(containers := pod.containers[j := cnt.(cpus := cpus)]);
        }
        assert pod.containers == ContainersWithout(before[i].containers, pool);
        resp.pods := resp.pods[i := pod];
      }
      assert resp.pods == PodsWithout(before, pool);
    }
  }

  // ---------- excluded and terminal pods ----------

  datatype Glob = Matched(b: bool) | BadPattern
  datatype Item = Item(namespacePattern: string, namePattern: string)

  /** A bad pattern matches nothing. */
  predicate Matches(glob: (string, string) -> Glob, pattern: string, text: string) {
    glob(pattern, text) == Matched(true)
  }

  predicate Excluded(glob: (string, string) -> Glob, items: seq<Item>, p: Pod) {
    exists i :: 0 <= i < |items| && Matches(glob, items[i].namespacePattern, p.namespace) &&
                Matches(glob, items[i].namePattern, p.name)
  }

  method ShouldExclude(glob: (string, string) -> Glob, items: seq<Item>, namespace: string, name: string, debug: bool)
    returns (exclude: bool)
    ensures exclude <==> exists i :: 0 <= i < |items| && glob(items[i].namespacePattern, namespace) == Matched(true) &&
                                     glob(items[i].namePattern, name) == Matched(true)
  {
    for i := 0 to |items|
      invariant forall k :: 0 <= k < i ==> !(Matches(glob, items[k].namespacePattern, namespace) &&
                                             Matches(glob, items[k].namePattern, name))
    {
      var nsMatch := glob(items[i].namespacePattern, namespace);
      if nsMatch.BadPattern? && debug {
        continue;
      }
      if nsMatch != Matched(true) {
        continue;
      }
      var nMatch := glob(items[i].namePattern, name);
      if nMatch.BadPattern? && debug {
        continue;
      }
      if nMatch != Matched(true) {
        continue;
      }
      return true;
    }
    return false;
  }

  predicate Terminal(terminal: seq<(string, string)>, p: Pod) {
    (p.namespace, p.name) in terminal
  }

  /** The ordered subsequence of the pods that are neither excluded nor terminal. */
  function Survivors(glob: (string, string) -> Glob, items: seq<Item>, terminal: seq<(string, string)>, pods: seq<Pod>)
    : seq<Pod>
  {
    if pods == [] then [] else
    var last := pods[|pods| - 1];
    Survivors(glob, items, terminal, pods[..|pods| - 1]) +
    if Excluded(glob, items, last) || Terminal(terminal, last) then [] else [last]
  }

  method ExcludePods(glob: (string, string) -> Glob, items: seq<Item>, debug: bool, pods: seq<Pod>)
    returns (kept: seq<Pod>)
    ensures kept == Survivors(glob, items, [], pods)
  {
    kept := [];
    for i := 0 to |pods|
      invariant kept == Survivors(glob, items, [], pods[..i])
    {
      var exclude := ShouldExclude(glob, items, pods[i].namespace, pods[i].name, debug);
      assert exclude <==> Excluded(glob, items, pods[i]) by {
        if k :| 0 <= k < |items| && glob(items[k].namespacePattern, pods[i].namespace) == Matched(true) &&
                glob(items[k].namePattern, pods[i].name) == Matched(true) {
          assert Matches(glob, items[k].namespacePattern, pods[i].namespace);
        }
      }
      assert pods[..i + 1][..i] == pods[..i];
      if exclude {
        continue;
      }
      kept := kept + [pods[i]];
    }
    assert pods[..|pods|] == pods;
  }

  method FilterTerminal(resp: ListResponse, terminal: seq<(string, string)>, ghost glob: (string, string) -> Glob)
    modifies resp
    ensures resp.pods == Survivors(glob, [], terminal, old(resp.pods))
  {
    var pods := resp.pods;
    var kept := [];
    for i := 0 to |pods|
      invariant resp.pods == pods && kept == Survivors(glob, [], terminal, pods[..i])
    {
      var pr := pods[i];
      var found := false;
      for j := 0 to |terminal|
        modifies {}
        invariant !found && forall k :: 0 <= k < j ==> terminal[k] != (pr.namespace, pr.name)
      {
        if terminal[j].0 == pr.namespace && terminal[j].1 == pr.name {
          found := true;
          break;
        }
      }
      assert pods[..i + 1][..i] == pods[..i];
      if !found {
        kept := kept + [pr];
      }
    }
    assert pods[..|pods|] == pods;
    resp.pods := kept;
  }

  // ---------- the stack ----------

  /** `at` are the increasing positions in `pods` of the pods kept, and of no others. */
  ghost predicate Positions(at: seq<int>, kept: seq<Pod>, pods: seq<Pod>, dropped: Pod -> bool) {
    && |at| == |kept| && Increasing(at)
    && (forall i :: 0 <= i < |at| ==> 0 <= at[i] < |pods| && kept[i] == pods[at[i]])
    && (forall k :: 0 <= k < |pods| ==> (k in at <==> !dropped(pods[k])))
  }

  lemma {:induction false} PositionsSnoc(at: seq<int>, kept: seq<Pod>, pods: seq<Pod>, dropped: Pod -> bool, p: Pod)
    requires Positions(at, kept, pods, dropped)
    ensures if dropped(p) then Positions(at, kept, pods + [p], dropped)
            else Positions(at + [|pods|], kept + [p], pods + [p], dropped)
  {
    assert |pods| !in at;
    if !dropped(p) {
      var at' := at + [|pods|];
      assert forall k :: k in at' <==> k in at || k in [|pods|];
      assert at'[|at|] == |pods|;
    }
  }

  /** The survivors sit at increasing positions of the list: exactly those whose pod no item matches by namespace and
      name both, and which is not among the terminal ones. */
  lemma {:induction false} SurvivorsMeaning(glob: (string, string) -> Glob, items: seq<Item>,
                                            terminal: seq<(string, string)>, pods: seq<Pod>) returns (at: seq<int>)
    ensures Positions(at, Survivors(glob, items, terminal, pods), pods,
                      (p: Pod) =>
                        (exists i :: 0 <= i < |items| &&
                                     glob(items[i].namespacePattern, p.namespace) == Matched(true) &&
                                     glob(items[i].namePattern, p.name) == Matched(true)) ||
                        (p.namespace, p.name) in terminal)
  {
    var dropped :=
      (p: Pod) =>
        (exists i :: 0 <= i < |items| &&
                     glob(items[i].namespacePattern, p.namespace) == Matched(true) &&
                     glob(items[i].namePattern, p.name) == Matched(true)) ||
        (p.namespace, p.name) in terminal;
    forall p: Pod ensures dropped(p) <==> Dropped(glob, items, terminal, p) {
      if i :| 0 <= i < |items| && glob(items[i].namespacePattern, p.namespace) == Matched(true) &&
              glob(items[i].namePattern, p.name) == Matched(true) {
        assert Matches(glob, items[i].namespacePattern, p.namespace);
      }
    }
    if pods == [] {
      at := [];
    } else {
      var front, last := pods[..|pods| - 1], pods[|pods| - 1];
      at := SurvivorsMeaning(glob, items, terminal, front);
      PositionsSnoc(at, Survivors(glob, items, terminal, front), front, dropped, last);
      assert pods == front + [last];
      if dropped(last) {
        assert Survivors(glob, items, terminal, front) + [] == Survivors(glob, items, terminal, front);
      } else {
        at := at + [|front|];
      }
    }
  }

  /** Dropping the excluded and then the terminal pods drops both at once. */
  lemma {:induction false} SurvivorsCompose(glob: (string, string) -> Glob, items: seq<Item>,
                                            terminal: seq<(string, string)>, pods: seq<Pod>)
    ensures Survivors(glob, [], terminal, Survivors(glob, items, [], pods)) == Survivors(glob, items, terminal, pods)
  {
    if pods != [] {
      var front, last := pods[..|pods| - 1], pods[|pods| - 1];
      var kept := Survivors(glob, items, [], front);
      SurvivorsCompose(glob, items, terminal, front);
      assert kept + [] == kept;
      assert (kept + [last])[..|kept|] == kept;
    }
  }

  lemma {:induction false} PodsWithoutSnoc(pods: seq<Pod>, p: Pod, pool: set<int>)
    ensures PodsWithout(pods + [p], pool) == PodsWithout(pods, pool) + [PodWithout(p, pool)]
  {
  }

  /** Taking CPUs out does not change which pods survive. */
  lemma {:induction false} SurvivorsWithout(glob: (string, string) -> Glob, items: seq<Item>,
                                            terminal: seq<(string, string)>, pods: seq<Pod>, pool: set<int>)
    ensures Survivors(glob, items, terminal, PodsWithout(pods, pool)) ==
            PodsWithout(Survivors(glob, items, terminal, pods), pool)
  {
    if pods != [] {
      var front, last := pods[..|pods| - 1], pods[|pods| - 1];
      SurvivorsWithout(glob, items, terminal, front, pool);
      assert PodsWithout(pods, pool)[..|pods| - 1] == PodsWithout(front, pool);
      var kept := Survivors(glob, items, terminal, front);
      PodsWithoutSnoc(kept, last, pool);
      assert kept + [] == kept && PodsWithout(kept, pool) + [] == PodsWithout(kept, pool);
      assert Excluded(glob, items, PodWithout(last, pool)) <==> Excluded(glob, items, last);
    }
  }

  /** One List call through the whole stack: the survivors, in order, each container without the shared pool, where the
      pool is that of the reference container in the kubelet's full answer, even when its own pod is excluded. */
  method ListPods(pool: SharedPoolClient, glob: (string, string) -> Glob, items: seq<Item>, debug: bool,
                  excludeTerminal: bool, terminal: seq<(string, string)>, resp: ListResponse)
    returns (out: ListResponse)
    modifies pool, resp
    ensures var dropped := if excludeTerminal then terminal else [];
            out.pods == PodsWithout(Survivors(glob, items, dropped, old(resp.pods)),
                                    SharedPool(pool.refCnt, old(resp.pods)))
  {
    ghost var before := resp.pods;
    ghost var taken := SharedPool(pool.refCnt, before);
    pool.FilterListResponse(resp);
    var pods := resp.pods;
    if |items| > 0 {
      pods := ExcludePods(glob, items, debug, pods);
    } else {
      SurvivorsOfNothing(glob, pods);
    }
    assert pods == Survivors(glob, items, [], PodsWithout(before, taken));
    SurvivorsWithout(glob, items, [], before, taken);
    out := new ListResponse(pods);
    if excludeTerminal {
      FilterTerminal(out, terminal, glob);
      SurvivorsCompose(glob, items, terminal, PodsWithout(before, taken));
      SurvivorsWithout(glob, items, terminal, before, taken);
    }
  }

  lemma {:induction false} SurvivorsOfNothing(glob: (string, string) -> Glob, pods: seq<Pod>)
    ensures Survivors(glob, [], [], pods) == pods
  {
    if pods != [] {
      SurvivorsOfNothing(glob, pods[..|pods| - 1]);
      assert pods == pods[..|pods| - 1] + [pods[|pods| - 1]];
    }
  }

  // ---------- the shared-pool filter ----------

  /** What a container keeps: its own CPUs outside the pool, each once, in increasing order, and all else it has. */
  lemma {:induction false} WithoutCpusMeaning(c: Container, pool: set<int>)
    ensures Increasing(WithoutCpus(c, pool).cpus)
    ensures Elements(WithoutCpus(c, pool).cpus) == Elements(c.cpus) - pool
    ensures forall cpu :: cpu in WithoutCpus(c, pool).cpus <==> cpu in c.cpus && cpu !in pool
    ensures WithoutCpus(c, pool) == Container(c.name, c.devices, c.memory, WithoutCpus(c, pool).cpus)
  {
    ListSorted(Elements(c.cpus) - pool);
    forall cpu ensures cpu in WithoutCpus(c, pool).cpus <==> cpu in c.cpus && cpu !in pool {
      assert cpu in Elements(WithoutCpus(c, pool).cpus) <==> cpu in Elements(c.cpus) - pool;
    }
  }

  /** And a pod keeps its name, its namespace and its containers, each without the pool. */
  lemma {:induction false} PodsWithoutMeaning(pods: seq<Pod>, pool: set<int>, i: nat, j: nat)
    requires i < |pods|
    ensures var out := PodsWithout(pods, pool);
            && |out| == |pods| && out[i].namespace == pods[i].namespace && out[i].name == pods[i].name
            && |out[i].containers| == |pods[i].containers|
            && (j < |pods[i].containers| ==> out[i].containers[j] == WithoutCpus(pods[i].containers[j], pool))
  {
  }

  /** The container at these positions is the one referred to. */
  predicate RefersTo(ci: ContainerIdent, pods: seq<Pod>, i: int, j: int) {
    && 0 <= i < |pods| && 0 <= j < |pods[i].containers|
    && pods[i].namespace == ci.namespace && pods[i].name == ci.podName
    && pods[i].containers[j].name == ci.containerName
  }

  lemma {:induction false} PoolInPodMeaning(name: string, cs: seq<Container>)
    ensures PoolInPod(name, cs).None? <==> forall j :: 0 <= j < |cs| ==> cs[j].name != name
    ensures PoolInPod(name, cs).Some? ==>
              exists j :: 0 <= j < |cs| && cs[j].name == name && PoolInPod(name, cs) == Some(set x | x in cs[j].cpus) &&
                          forall k :: 0 <= k < j ==> cs[k].name != name
  {
    if cs != [] && cs[0].name != name {
      PoolInPodMeaning(name, cs[1..]);
      if j :| 0 <= j < |cs[1..]| && cs[1..][j].name == name &&
              PoolInPod(name, cs[1..]) == Some(set x | x in cs[1..][j].cpus) &&
              forall k :: 0 <= k < j ==> cs[1..][k].name != name {
        assert cs[j + 1] == cs[1..][j];
        forall k | 0 <= k < j + 1 ensures cs[k].name != name {
          if k > 0 { assert cs[k] == cs[1..][k - 1]; }
        }
      }
      assert forall j :: 1 <= j < |cs| ==> cs[j] == cs[1..][j - 1];
    }
  }

  /** The pool is that of the reference container, by namespace, pod and container name, the first if there are several;
      it is empty without a reference and when no container bears its name. */
  lemma {:induction false} SharedPoolMeaning(ci: ContainerIdent, pods: seq<Pod>)
    ensures SharedPool(None, pods) == {}
    ensures (forall i, j :: !RefersTo(ci, pods, i, j)) ==> SharedPool(Some(ci), pods) == {}
    ensures (exists i, j :: RefersTo(ci, pods, i, j)) ==>
              exists i, j :: RefersTo(ci, pods, i, j) &&
                             SharedPool(Some(ci), pods) == (set x | x in pods[i].containers[j].cpus) &&
                             forall i', j' :: RefersTo(ci, pods, i', j') ==> i < i' || (i == i' && j <= j')
  {
    if pods != [] {
      var cs := pods[0].containers;
      PoolInPodMeaning(ci.containerName, cs);
      if Found(ci, pods[0]) {
        var j :| 0 <= j < |cs| && cs[j].name == ci.containerName &&
                 PoolInPod(ci.containerName, cs) == Some(set x | x in cs[j].cpus) &&
                 forall k :: 0 <= k < j ==> cs[k].name != ci.containerName;
        assert RefersTo(ci, pods, 0, j);
      } else {
        assert forall j :: !RefersTo(ci, pods, 0, j);
        SharedPoolMeaning(ci, pods[1..]);
        assert forall i, j :: RefersTo(ci, pods[1..], i, j) ==> RefersTo(ci, pods, i + 1, j);
        assert forall i, j :: RefersTo(ci, pods, i, j) ==> RefersTo(ci, pods[1..], i - 1, j);
        if exists i, j :: RefersTo(ci, pods, i, j) {
          var i, j :| RefersTo(ci, pods[1..], i, j) &&
                      SharedPool(Some(ci), pods[1..]) == (set x | x in pods[1..][i].containers[j].cpus) &&
                      forall i', j' :: RefersTo(ci, pods[1..], i', j') ==> i < i' || (i == i' && j <= j');
          assert RefersTo(ci, pods, i + 1, j) && pods[i + 1] == pods[1..][i];
        }
      }
    }
  }

  lemma {:induction false} PoolInPodAfter(name: string, cs: seq<Container>, pool: set<int>)
    requires PoolInPod(name, cs).None? || PoolInPod(name, cs).value <= pool
    ensures PoolInPod(name, ContainersWithout(cs, pool)) == if PoolInPod(name, cs).Some? then Some({}) else None
  {
    if cs != [] {
      WithoutCpusMeaning(cs[0], pool);
      if cs[0].name != name {
        PoolInPodAfter(name, cs[1..], pool);
        assert ContainersWithout(cs, pool)[1..] == ContainersWithout(cs[1..], pool);
      } else {
        assert Elements(cs[0].cpus) - pool == {};
      }
    }
  }

  /** Once the pool is taken out nothing is left in it. */
  lemma {:induction false} PoolAfter(ref: Option<ContainerIdent>, pods: seq<Pod>, pool: set<int>)
    requires SharedPool(ref, pods) <= pool
    ensures SharedPool(ref, PodsWithout(pods, pool)) == {}
  {
    if ref.Some? && pods != [] {
      var after := PodsWithout(pods, pool);
      assert after[0] == PodWithout(pods[0], pool) && after[1..] == PodsWithout(pods[1..], pool);
      if IsReference(ref.value, pods[0]) && PoolInPod(ref.value.containerName, pods[0].containers).Some? {
        PoolInPodAfter(ref.value.containerName, pods[0].containers, pool);
      } else {
        if IsReference(ref.value, pods[0]) {
          PoolInPodAfter(ref.value.containerName, pods[0].containers, pool);
        }
        PoolAfter(ref, pods[1..], pool);
      }
    }
  }

  lemma {:induction false} WithoutNothing(c: Container, pool: set<int>)
    ensures WithoutCpus(WithoutCpus(c, pool), {}) == WithoutCpus(c, pool)
  {
    var d := WithoutCpus(c, pool);
    WithoutCpusMeaning(c, pool);
    ListUnique(d.cpus);
    assert Elements(d.cpus) - {} == Elements(d.cpus);
  }

  /** Filtering a response again changes nothing. */
  lemma {:induction false} SharedPoolIdempotent(ref: Option<ContainerIdent>, pods: seq<Pod>)
    ensures var once := PodsWithout(pods, SharedPool(ref, pods));
            PodsWithout(once, SharedPool(ref, once)) == once
  {
    var pool := SharedPool(ref, pods);
    var once := PodsWithout(pods, pool);
    PoolAfter(ref, pods, pool);
    forall i | 0 <= i < |pods| ensures PodWithout(once[i], {}) == once[i] {
      var cs := once[i].containers;
      assert cs == ContainersWithout(pods[i].containers, pool);
      forall j | 0 <= j < |cs| ensures WithoutCpus(cs[j], {}) == cs[j] {
        WithoutNothing(pods[i].containers[j], pool);
      }
      assert ContainersWithout(cs, {}) == cs;
    }
  }

  // ---------- why the pool filter comes first ----------

  predicate Found(ci: ContainerIdent, p: Pod) {
    IsReference(ci, p) && PoolInPod(ci.containerName, p.containers).Some?
  }

  lemma {:induction false} SharedPoolSnoc(ci: ContainerIdent, pods: seq<Pod>, p: Pod)
    ensures SharedPool(Some(ci), pods + [p]) ==
            if exists i :: 0 <= i < |pods| && Found(ci, pods[i]) then SharedPool(Some(ci), pods)
            else if Found(ci, p) then PoolInPod(ci.containerName, p.containers).value else {}
    ensures !(exists i :: 0 <= i < |pods| && Found(ci, pods[i])) ==> SharedPool(Some(ci), pods) == {}
  {
    if pods == [] {
      assert SharedPool(Some(ci), [p][1..]) == {};
    } else {
      SharedPoolSnoc(ci, pods[1..], p);
      assert (pods + [p])[1..] == pods[1..] + [p];
      if !Found(ci, pods[0]) {
        assert (exists i :: 0 <= i < |pods| && Found(ci, pods[i])) <==>
               (exists i :: 0 <= i < |pods[1..]| && Found(ci, pods[1..][i])) by {
          if i :| 0 <= i < |pods| && Found(ci, pods[i]) { assert pods[1..][i - 1] == pods[i]; }
          if i :| 0 <= i < |pods[1..]| && Found(ci, pods[1..][i]) { assert pods[i + 1] == pods[1..][i]; }
        }
      }
    }
  }

  predicate Dropped(glob: (string, string) -> Glob, items: seq<Item>, terminal: seq<(string, string)>, p: Pod) {
    Excluded(glob, items, p) || Terminal(terminal, p)
  }

  /** Among the survivors the pool is the full one, or empty if the reference pod is dropped. */
  lemma {:induction false} PoolOfSurvivors(ci: ContainerIdent, glob: (string, string) -> Glob, items: seq<Item>,
                                           terminal: seq<(string, string)>, pods: seq<Pod>)
    ensures var kept := Survivors(glob, items, terminal, pods);
            var gone := Dropped(glob, items, terminal, Pod(ci.namespace, ci.podName, []));
            && SharedPool(Some(ci), kept) == (if gone then {} else SharedPool(Some(ci), pods))
            && ((exists i :: 0 <= i < |kept| && Found(ci, kept[i])) <==>
                !gone && exists i :: 0 <= i < |pods| && Found(ci, pods[i]))
  {
    if pods != [] {
      var front, last := pods[..|pods| - 1], pods[|pods| - 1];
      var keptFront, kept := Survivors(glob, items, terminal, front), Survivors(glob, items, terminal, pods);
      PoolOfSurvivors(ci, glob, items, terminal, front);
      SharedPoolSnoc(ci, front, last);
      SharedPoolSnoc(ci, keptFront, last);
      assert pods == front + [last];
      assert IsReference(ci, last) ==> (Dropped(glob, items, terminal, last) <==>
                                        Dropped(glob, items, terminal, Pod(ci.namespace, ci.podName, [])));
      FoundSnoc(ci, front, last);
      FoundSnoc(ci, keptFront, last);
      assert keptFront + [] == keptFront;
    }
  }

  lemma {:induction false} FoundSnoc(ci: ContainerIdent, pods: seq<Pod>, p: Pod)
    ensures (exists i :: 0 <= i < |pods + [p]| && Found(ci, (pods + [p])[i])) <==>
            (exists i :: 0 <= i < |pods| && Found(ci, pods[i])) || Found(ci, p)
  {
    if i :| 0 <= i < |pods| && Found(ci, pods[i]) { assert (pods + [p])[i] == pods[i]; }
    if Found(ci, p) { assert (pods + [p])[|pods|] == p; }
  }

  predicate HoldsNone(p: Pod, pool: set<int>) {
    forall j :: 0 <= j < |p.containers| ==> Elements(p.containers[j].cpus) !! pool
  }

  lemma {:induction false} SamePodIff(p: Pod, pool: set<int>)
    ensures PodWithout(p, {}) == PodWithout(p, pool) <==> HoldsNone(p, pool)
  {
    var a, b := ContainersWithout(p.containers, {}), ContainersWithout(p.containers, pool);
    forall j | 0 <= j < |p.containers| ensures a[j] == b[j] <==> Elements(p.containers[j].cpus) !! pool {
      var cpus := Elements(p.containers[j].cpus);
      WithoutCpusMeaning(p.containers[j], {});
      WithoutCpusMeaning(p.containers[j], pool);
      assert cpus - {} == cpus;
      assert cpus - pool == cpus <==> cpus !! pool;
    }
    if HoldsNone(p, pool) { assert a == b; }
    if a == b { assert forall j :: 0 <= j < |a| ==> a[j] == b[j]; }
  }

  /** Were pods dropped before the pool is taken out, the answer would be the same exactly when the reference pod
      survives, or no surviving container holds a CPU of the pool. */
  lemma {:induction false} PoolFilterFirst(ci: ContainerIdent, glob: (string, string) -> Glob, items: seq<Item>,
                                           terminal: seq<(string, string)>, pods: seq<Pod>)
    ensures var kept := Survivors(glob, items, terminal, pods);
            var pool := SharedPool(Some(ci), pods);
            PodsWithout(kept, SharedPool(Some(ci), kept)) == PodsWithout(kept, pool) <==>
            !Dropped(glob, items, terminal, Pod(ci.namespace, ci.podName, [])) ||
            forall i :: 0 <= i < |kept| ==> HoldsNone(kept[i], pool)
  {
    var kept := Survivors(glob, items, terminal, pods);
    var pool := SharedPool(Some(ci), pods);
    PoolOfSurvivors(ci, glob, items, terminal, pods);
    if Dropped(glob, items, terminal, Pod(ci.namespace, ci.podName, [])) {
      var a, b := PodsWithout(kept, {}), PodsWithout(kept, pool);
      forall i | 0 <= i < |kept| ensures a[i] == b[i] <==> HoldsNone(kept[i], pool) {
        SamePodIff(kept[i], pool);
      }
      if forall i :: 0 <= i < |kept| ==> HoldsNone(kept[i], pool) { assert a == b; }
      if a == b { assert forall i :: 0 <= i < |a| ==> a[i] == b[i]; }
    }
  }
}
