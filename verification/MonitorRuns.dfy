/**
 What the monitor's refreshes and scans amount to when they interleave: refreshes do what they do in one go, and a scan
 that no refresh step comes in between of publishes what the monitor's own scan does.
 */
module MonitorRuns {
  import opened Wrappers
  import opened PodResources
  import opened Accounting
  import opened ResourceMonitor
  import opened MonitorRaces

  // ---------- refreshes, from the actions alone ----------

  lemma {:induction false} RunFirst(cfg: Setup, s: State, act: Action, rest: seq<Action>)
    requires Started(s)
    ensures Run(cfg, s, [act] + rest) == Run(cfg, Step(cfg, s, act), rest)
  {
    if rest == [] {
      assert [act] + rest == [act] && [act][..0] == [] && Run(cfg, s, []) == s;
    } else {
      RunFirst(cfg, s, act, rest[..|rest| - 1]);
      assert ([act] + rest)[..|rest|] == [act] + rest[..|rest| - 1];
    }
  }

  /** A refresh action that comes at its turn. */
  ghost predicate InTurn(cfg: Setup, s: State, act: Action) {
    !s.crashed &&
    match act
    case ReplaceCapacity(c) =>
      s.refresher.Idle? && NativeOnly(c) && forall n :: n in c <==> 0 <= n < cfg.nodes
    case ReplaceAllocatable(a) => s.refresher.CapacityReplaced? && InRange(a)
    case FailAllocatable => s.refresher.CapacityReplaced?
    case EndRefresh => s.refresher == CopyingDevices({})
    case _ => false
  }

  /** The capacity maps a refresh last began with: `base` before any. */
  ghost function LastCapacity(cfg: Setup, s: State, acts: seq<Action>, base: Counters): Counters
    requires Started(s)
  {
    if acts == [] then base else
    var front, act := acts[..|acts| - 1], acts[|acts| - 1];
    if act.ReplaceCapacity? && InTurn(cfg, Run(cfg, s, front), act) then act.capacity
    else LastCapacity(cfg, s, front, base)
  }

  /** The allocatable maps last put in place. */
  ghost function LastAllocatable(cfg: Setup, s: State, acts: seq<Action>): Counters
    requires Started(s)
  {
    if acts == [] then Alloc(s) else
    var front, act := acts[..|acts| - 1], acts[|acts| - 1];
    if act.ReplaceAllocatable? && InTurn(cfg, Run(cfg, s, front), act) then act.allocatable
    else LastAllocatable(cfg, s, front)
  }

  /** Whether the last refresh that ended got no allocatable resources. */
  ghost predicate LastFailed(cfg: Setup, s: State, acts: seq<Action>)
    requires Started(s)
  {
    acts != [] &&
    var front, act := acts[..|acts| - 1], acts[|acts| - 1];
    if !InTurn(cfg, Run(cfg, s, front), act) then LastFailed(cfg, s, front)
    else act.FailAllocatable? || (!act.EndRefresh? && LastFailed(cfg, s, front))
  }

  /** A device counter that has been copied, with these still to come. */
  predicate Copied(allocatable: Counters, todo: set<(int, string)>, n: int, r: string) {
    Has(allocatable, n, r) && !IsNative(r) && (n, r) !in todo
  }

  predicate CopiedAt(c: Counters, base: Counters, allocatable: Counters, todo: set<(int, string)>, n: int, r: string) {
    && (Has(c, n, r) <==> n in base && (r in base[n] || Copied(allocatable, todo, n, r)))
    && (Has(c, n, r) ==> c[n][r] == if Copied(allocatable, todo, n, r) then allocatable[n][r] else base[n][r])
  }

  /** The capacity maps with all device counters copied but these. */
  ghost predicate CopiedBut(c: Counters, base: Counters, allocatable: Counters, todo: set<(int, string)>) {
    c.Keys == base.Keys && forall n, r :: CopiedAt(c, base, allocatable, todo, n, r)
  }

  lemma {:induction false} CopiedNone(base: Counters, allocatable: Counters)
    ensures CopiedBut(base, base, allocatable, DevicePairs(allocatable))
  {
    forall n, r ensures CopiedAt(base, base, allocatable, DevicePairs(allocatable), n, r) {
      if Has(allocatable, n, r) && !IsNative(r) { assert (n, r) in DevicePairs(allocatable); }
    }
  }

  lemma {:induction false} CopiedOne(c: Counters, base: Counters, allocatable: Counters, todo: set<(int, string)>,
                                     n: int, r: string)
    requires CopiedBut(c, base, allocatable, todo)
    requires (n, r) in todo && n in c && Has(allocatable, n, r) && !IsNative(r)
    ensures CopiedBut(c[n := c[n][r := allocatable[n][r]]], base, allocatable, todo - {(n, r)})
  {
    var after := c[n := c[n][r := allocatable[n][r]]];
    assert after.Keys == base.Keys;
    forall n', r' ensures CopiedAt(after, base, allocatable, todo - {(n, r)}, n', r') {
      assert CopiedAt(c, base, allocatable, todo, n', r');
      assert (n', r') in todo - {(n, r)} <==> (n', r') in todo && (n', r') != (n, r);
    }
  }

  lemma {:induction false} CopiedAll(c: Counters, base: Counters, allocatable: Counters)
    requires CopiedBut(c, base, allocatable, {})
    ensures c == WithDevices(base, allocatable)
  {
    forall n | n in base ensures c[n] == WithDevices(base, allocatable)[n] {
      forall r ensures r in c[n] <==> r in WithDevices(base, allocatable)[n] {
        assert CopiedAt(c, base, allocatable, {}, n, r) && (n, r) !in {};
      }
      forall r | r in c[n] ensures c[n][r] == WithDevices(base, allocatable)[n][r] {
        assert CopiedAt(c, base, allocatable, {}, n, r) && (n, r) !in {};
      }
    }
  }

  ghost predicate RefreshedFrom(s: State, base: Counters, failed: bool) {
    Started(s) &&
    match s.refresher
    case CapacityReplaced => Current(s) == base
    case CopyingDevices(todo) => todo <= DevicePairs(Alloc(s)) && CopiedBut(Current(s), base, Alloc(s), todo)
    case Idle => Current(s) == if failed then base else WithDevices(base, Alloc(s))
  }

  lemma {:induction false} StepCopied(cfg: Setup, s: State, act: Action, base: Counters)
    requires RefreshedFrom(s, base, false) && act.CopyDevice? && Step(cfg, s, act) != s && !Step(cfg, s, act).crashed
    ensures RefreshedFrom(Step(cfg, s, act), base, false)
  {
    CopiedOne(Current(s), base, Alloc(s), s.refresher.todo, act.node, act.resource);
  }

  lemma {:induction false} StepRefreshed(cfg: Setup, s: State, act: Action, base: Counters, failed: bool)
    requires RefreshedFrom(s, base, failed)
    ensures var t, on := Step(cfg, s, act), InTurn(cfg, s, act);
            && Alloc(t) == (if act.ReplaceAllocatable? && on then act.allocatable else Alloc(s))
            && RefreshedFrom(t, if act.ReplaceCapacity? && on then act.capacity else base,
                             if !on then failed else act.FailAllocatable? || (!act.EndRefresh? && failed))
  {
    var t := Step(cfg, s, act);
    if t != s {
      if act.CopyDevice? && !t.crashed {
        StepCopied(cfg, s, act, base);
      } else if act.ReplaceAllocatable? {
        CopiedNone(base, act.allocatable);
        assert Current(t) == base && Alloc(t) == act.allocatable;
      } else if act.EndRefresh? {
        CopiedAll(Current(s), base, Alloc(s));
      } else if act.ReplaceCapacity? {
        assert Current(t) == act.capacity;
      } else {
        assert Current(t) == Current(s) && Alloc(t) == Alloc(s);
      }
    }
  }

  /** In every interleaving with scans, refreshes do what they do in one go: the allocatable maps are the last put in
      place, and the capacity maps the last begun with, with the devices copied so far, all of them once the refresh
      has ended, none if it failed. */
  lemma {:induction false} RefreshExact(cfg: Setup, s: State, acts: seq<Action>, base: Counters)
    requires Init(s) && Current(s) == WithDevices(base, Alloc(s))
    ensures var t := Run(cfg, s, acts);
            && Alloc(t) == LastAllocatable(cfg, s, acts)
            && RefreshedFrom(t, LastCapacity(cfg, s, acts, base), LastFailed(cfg, s, acts))
  {
    if acts != [] {
      var front, act := acts[..|acts| - 1], acts[|acts| - 1];
      RefreshExact(cfg, s, front, base);
      StepRefreshed(cfg, Run(cfg, s, front), act, LastCapacity(cfg, s, front, base), LastFailed(cfg, s, front));
    }
  }

  /** And a refresh that has its answers comes to its end, as long as its devices are on the topology. */
  lemma {:induction false} RefreshEnds(cfg: Setup, s: State) returns (acts: seq<Action>)
    requires TopologyInv(cfg, s) && s.refresher.CopyingDevices? && s.refresher.todo <= DevicePairs(Alloc(s))
    ensures forall i :: 0 <= i < |acts| ==> acts[i].CopyDevice? || acts[i].EndRefresh?
    ensures Run(cfg, s, acts).refresher.Idle? && !Run(cfg, s, acts).crashed
    decreases |s.refresher.todo|
  {
    var todo := s.refresher.todo;
    if todo == {} {
      acts := [EndRefresh];
      RunFirst(cfg, s, EndRefresh, []);
      assert [EndRefresh] + [] == acts;
    } else {
      var p := AnyElement(todo);
      assert Has(Alloc(s), p.0, p.1);
      var act := CopyDevice(p.0, p.1);
      var t := Step(cfg, s, act);
      StepTopology(cfg, s, act);
      assert t.refresher == CopyingDevices(todo - {p}) && Alloc(t) == Alloc(s);
      assert |todo - {p}| < |todo|;
      var rest := RefreshEnds(cfg, t);
      acts := [act] + rest;
      RunFirst(cfg, s, act, rest);
    }
  }

  // ---------- a scan that is not disturbed ----------

  /** What a node's zone shows for these counters. */
  function Zone(cfg: Setup, capacity: Counters, allocatable: Counters, used: Counters, n: int)
    : map<string, ResourceInfo>
  {
    var cap, alloc := ZoneCapacity(capacity, n), ZoneAllocatable(allocatable, n);
    map r | r in alloc && !InExcludeSet(cfg.exclude, r, cfg.nodeName) :: Report(r, cap, alloc[r], Get(used, n, r))
  }

  /** It is the zone the monitor's own scan reports. */
  lemma {:induction false} ZoneIsReport(m: Machine, res: Resources, pods: seq<Pod>, exclude: map<string, set<string>>,
                                        used: Counters, n: int)
    requires forall r :: Get(used, n, r) == Used(m, pods, n, r)
    ensures Zone(Setup(|m.topo|, m.nodeName, exclude), res.capacity, res.allocatable, used, n) ==
            ZoneReport(m, res, pods, exclude, n)
  {
  }

  predicate Scans(act: Action) {
    act.ReadCapacity? || act.ReadAllocatable? || act.PublishOne? || act.SkipExcluded? || act.NextNode?
  }

  /** What was published for a node, in order. */
  function Infos(log: seq<Entry>, n: nat): seq<ResourceInfo> {
    if log == [] then [] else
    var last := log[|log| - 1];
    Infos(log[..|log| - 1], n) + if last.node == n then [last.info] else []
  }

  lemma {:induction false} InfosSnoc(log: seq<Entry>, e: Entry, n: nat)
    ensures Infos(log + [e], n) == Infos(log, n) + if e.node == n then [e.info] else []
  {
    assert (log + [e])[..|log|] == log;
  }

  /** The counters a scan works with. */
  datatype Found = Found(capacity: Counters, allocatable: Counters, used: Counters)

  function ZoneOf(cfg: Setup, f: Found, n: int): map<string, ResourceInfo> {
    Zone(cfg, f.capacity, f.allocatable, f.used, n)
  }

  ghost predicate NodesDone(cfg: Setup, f: Found, log: seq<Entry>, k: nat) {
    forall n: nat :: n < k ==> Enumerates(Infos(log, n), ZoneOf(cfg, f, n))
  }

  ghost predicate NoneBeyond(log: seq<Entry>, k: nat) {
    forall n: nat :: n >= k ==> Infos(log, n) == []
  }

  ghost predicate Finds(s: State, f: Found) {
    Started(s) && !s.crashed && Current(s) == f.capacity && Alloc(s) == f.allocatable && InUse(s) == f.used
  }

  /** How far a scan has come that logged `log` since it began. */
  ghost predicate Progress(cfg: Setup, f: Found, s: State, log: seq<Entry>) {
    Finds(s, f) &&
    match s.scanner
    case NotScanning => NodesDone(cfg, f, log, cfg.nodes) && NoneBeyond(log, cfg.nodes)
    case AtNode(k) => k <= cfg.nodes && NodesDone(cfg, f, log, k) && NoneBeyond(log, k)
    case CapacityRead(k, gen, _) =>
      && k < cfg.nodes && NodesDone(cfg, f, log, k) && NoneBeyond(log, k)
      && ZoneCapacity(Held(s, gen).counters, k) == ZoneCapacity(f.capacity, k)
    case Publishing(k, gen, _, _, counters, todo) =>
      && k < cfg.nodes && NodesDone(cfg, f, log, k) && NoneBeyond(log, k + 1)
      && ZoneCapacity(Held(s, gen).counters, k) == ZoneCapacity(f.capacity, k)
      && counters == ZoneAllocatable(f.allocatable, k) && todo <= counters.Keys
      && Enumerates(Infos(log, k), ZoneOf(cfg, f, k) - todo)
  }

  lemma {:induction false} PublishedInfo(cfg: Setup, f: Found, s: State, log: seq<Entry>, r: string)
    requires Progress(cfg, f, s, log) && s.scanner.Publishing? && r in s.scanner.todo
    requires !InExcludeSet(cfg.exclude, r, cfg.nodeName)
    ensures var e, zone := Publish(s, r), ZoneOf(cfg, f, s.scanner.node);
            e.node == s.scanner.node && r in zone && e.info == zone[r] && e.info.name == r
  {
  }

  /** An entry for one node does not touch the others. */
  lemma {:induction false} OthersDone(cfg: Setup, f: Found, log: seq<Entry>, e: Entry)
    requires NodesDone(cfg, f, log, e.node) && NoneBeyond(log, e.node + 1)
    ensures NodesDone(cfg, f, log + [e], e.node) && NoneBeyond(log + [e], e.node + 1)
  {
    forall n: nat | n != e.node ensures Infos(log + [e], n) == Infos(log, n) {
      InfosSnoc(log, e, n);
    }
  }

  lemma {:induction false} ZoneGrows(list: seq<ResourceInfo>, zone: map<string, ResourceInfo>, todo: set<string>,
                                     info: ResourceInfo)
    requires Enumerates(list, zone - todo) && info.name in todo && info.name in zone && zone[info.name] == info
    ensures Enumerates(list + [info], zone - (todo - {info.name}))
  {
    EnumeratesAdd(list, zone - todo, info);
    EntriesStep(zone, todo, info.name);
  }

  lemma {:induction false} PublishProgress(cfg: Setup, f: Found, s: State, log: seq<Entry>, r: string)
    requires Progress(cfg, f, s, log) && Step(cfg, s, PublishOne(r)) != s
    ensures var t := Step(cfg, s, PublishOne(r));
            t.log == s.log + [Publish(s, r)] && Progress(cfg, f, t, log + [Publish(s, r)])
  {
    var e := Publish(s, r);
    PublishedInfo(cfg, f, s, log, r);
    OthersDone(cfg, f, log, e);
    InfosSnoc(log, e, e.node);
    ZoneGrows(Infos(log, e.node), ZoneOf(cfg, f, e.node), s.scanner.todo, e.info);
  }

  /** The end of a node: the resources of the next one are still to come. */
  lemma {:induction false} NodeProgress(cfg: Setup, f: Found, s: State, log: seq<Entry>)
    requires Progress(cfg, f, s, log) && s.scanner.Publishing? && s.scanner.todo == {}
    ensures Progress(cfg, f, Step(cfg, s, NextNode), log)
  {
    var k := s.scanner.node;
    assert ZoneOf(cfg, f, k) - {} == ZoneOf(cfg, f, k);
    assert NodesDone(cfg, f, log, k + 1) by {
      forall n: nat | n < k + 1 ensures Enumerates(Infos(log, n), ZoneOf(cfg, f, n)) {}
    }
  }

  lemma {:induction false} ReadProgress(cfg: Setup, f: Found, s: State, log: seq<Entry>)
    requires Progress(cfg, f, s, log) && s.scanner.CapacityRead?
    ensures Progress(cfg, f, Step(cfg, s, ReadAllocatable), log)
  {
    var k := s.scanner.node;
    assert Infos(log, k) == [];
    assert ZoneOf(cfg, f, k) - ZoneAllocatable(f.allocatable, k).Keys == map[];
  }

  lemma {:induction false} SkipProgress(cfg: Setup, f: Found, s: State, log: seq<Entry>, r: string)
    requires Progress(cfg, f, s, log)
    ensures Progress(cfg, f, Step(cfg, s, SkipExcluded(r)), log)
  {
    if s.scanner.Publishing? && InExcludeSet(cfg.exclude, r, cfg.nodeName) {
      var zone := ZoneOf(cfg, f, s.scanner.node);
      assert r !in zone;
      assert zone - (s.scanner.todo - {r}) == zone - s.scanner.todo;
    }
  }

  lemma {:induction false} StepProgress(cfg: Setup, f: Found, s: State, log: seq<Entry>, act: Action)
    requires Progress(cfg, f, s, log) && Scans(act)
    ensures var t := Step(cfg, s, act);
            |s.log| <= |t.log| && t.log[..|s.log|] == s.log && Progress(cfg, f, t, log + t.log[|s.log|..])
  {
    var t := Step(cfg, s, act);
    if t == s {
      assert log + s.log[|s.log|..] == log;
    } else if act.PublishOne? {
      PublishProgress(cfg, f, s, log, act.resource);
      assert t.log[|s.log|..] == [Publish(s, act.resource)];
    } else {
      assert t.log == s.log && log + t.log[|s.log|..] == log;
      if act.SkipExcluded? {
        SkipProgress(cfg, f, s, log, act.resource);
      } else if act.NextNode? && s.scanner.Publishing? {
        NodeProgress(cfg, f, s, log);
      } else if act.ReadAllocatable? {
        ReadProgress(cfg, f, s, log);
      }
    }
  }

  /** A scan no refresh step comes in between of publishes exactly what the monitor's own scan does: for every node,
      once each and in some order, the report of every resource that is allocatable there and not excluded, from the
      node's own counters. */
  lemma {:induction false} UndisturbedScan(cfg: Setup, s: State, used: Counters, acts: seq<Action>)
    requires Started(s) && !s.crashed && s.scanner.NotScanning? && InRange(used)
    requires forall i :: 0 <= i < |acts| ==> Scans(acts[i])
    ensures var t := Run(cfg, Step(cfg, s, StartScan(used)), acts);
            && |s.log| <= |t.log| && t.log[..|s.log|] == s.log
            && Progress(cfg, Found(Current(s), Alloc(s), used), t, t.log[|s.log|..])
            && (t.scanner.NotScanning? ==>
                  && (forall n: nat :: n < cfg.nodes ==>
                        Enumerates(Infos(t.log[|s.log|..], n), Zone(cfg, Current(s), Alloc(s), used, n)))
                  && (forall n: nat :: n >= cfg.nodes ==> Infos(t.log[|s.log|..], n) == []))
  {
    var f := Found(Current(s), Alloc(s), used);
    var s1 := Step(cfg, s, StartScan(used));
    if acts == [] {
      assert s.log[|s.log|..] == [];
    } else {
      var front, act := acts[..|acts| - 1], acts[|acts| - 1];
      UndisturbedScan(cfg, s, used, front);
      var mid, t := Run(cfg, s1, front), Run(cfg, s1, acts);
      StepProgress(cfg, f, mid, mid.log[|s.log|..], act);
      assert t.log[|s.log|..] == mid.log[|s.log|..] + t.log[|mid.log|..];
    }
    var t := Run(cfg, s1, acts);
    if t.scanner.NotScanning? {
      forall n: nat | n < cfg.nodes
        ensures Enumerates(Infos(t.log[|s.log|..], n), Zone(cfg, Current(s), Alloc(s), used, n))
      {
        assert ZoneOf(cfg, f, n) == Zone(cfg, Current(s), Alloc(s), used, n);
      }
    }
  }

  /** How much a scan has left to do: nodes, reads of the node it is at, and resources. */
  function NodesLeft(cfg: Setup, s: State): nat {
    if s.scanner.NotScanning? || s.scanner.node > cfg.nodes then 0 else 1 + cfg.nodes - s.scanner.node
  }

  function ReadsLeft(s: State): nat {
    if s.scanner.AtNode? then 2 else if s.scanner.CapacityRead? then 1 else 0
  }

  function ResourcesLeft(s: State): nat {
    if s.scanner.Publishing? then |s.scanner.todo| else 0
  }

  predicate Closer(cfg: Setup, t: State, s: State) {
    || NodesLeft(cfg, t) < NodesLeft(cfg, s)
    || (NodesLeft(cfg, t) == NodesLeft(cfg, s) && ReadsLeft(t) < ReadsLeft(s))
    || (NodesLeft(cfg, t) == NodesLeft(cfg, s) && ReadsLeft(t) == ReadsLeft(s) && ResourcesLeft(t) < ResourcesLeft(s))
  }

  lemma {:induction false} ResourceGoesOn(cfg: Setup, s: State) returns (act: Action)
    requires Started(s) && !s.crashed && s.scanner.Publishing? && s.scanner.todo != {}
    requires s.scanner.todo <= s.scanner.counters.Keys
    ensures Scans(act) && Closer(cfg, Step(cfg, s, act), s)
  {
    var todo := s.scanner.todo;
    var r := AnyElement(todo);
    act := if InExcludeSet(cfg.exclude, r, cfg.nodeName) then SkipExcluded(r) else PublishOne(r);
    assert r in s.scanner.counters;
    assert Step(cfg, s, act).scanner == s.scanner.(todo := todo - {r});
    assert |todo - {r}| < |todo|;
  }

  lemma {:induction false} ScanGoesOn(cfg: Setup, s: State) returns (act: Action)
    requires Started(s) && !s.crashed && !s.scanner.NotScanning? && s.scanner.node <= cfg.nodes
    requires s.scanner.Publishing? ==> s.scanner.todo <= s.scanner.counters.Keys && s.scanner.node < cfg.nodes
    ensures Scans(act) && Closer(cfg, Step(cfg, s, act), s)
  {
    if s.scanner.Publishing? && s.scanner.todo != {} {
      act := ResourceGoesOn(cfg, s);
    } else if s.scanner.AtNode? && s.scanner.node < cfg.nodes {
      act := ReadCapacity;
      assert Step(cfg, s, act).scanner.CapacityRead?;
    } else if s.scanner.CapacityRead? {
      act := ReadAllocatable;
      assert Step(cfg, s, act).scanner.Publishing?;
    } else {
      act := NextNode;
    }
  }

  /** And such a scan comes to its end from wherever it is. */
  lemma {:induction false} ScanEnds(cfg: Setup, f: Found, s: State, log: seq<Entry>) returns (acts: seq<Action>)
    requires Progress(cfg, f, s, log)
    ensures forall i :: 0 <= i < |acts| ==> Scans(acts[i])
    ensures Run(cfg, s, acts).scanner.NotScanning?
    decreases NodesLeft(cfg, s), ReadsLeft(s), ResourcesLeft(s)
  {
    if s.scanner.NotScanning? {
      acts := [];
    } else {
      var act := ScanGoesOn(cfg, s);
      var t := Step(cfg, s, act);
      StepProgress(cfg, f, s, log, act);
      var rest := ScanEnds(cfg, f, t, log + t.log[|s.log|..]);
      acts := [act] + rest;
      RunFirst(cfg, s, act, rest);
    }
  }
}
