/**
 The informer's refresh and the scan share the monitor's counters without a lock. Here they interleave field write
 by field write: a refresh replaces the capacity maps, then the allocatable maps, then writes device capacities in
 place, one by one; a scan takes a reference to a node's capacity map, then reads its allocatable map, then
 publishes resources one by one, reading the capacity map, by then perhaps changed, each time.
 */
module MonitorRaces {
  import opened Wrappers
  import opened PodResources
  import opened Accounting
  import opened ResourceMonitor
  import Int64

  /** The machine's number of NUMA nodes, its name, and the resources it does not publish. */
  datatype Setup = Setup(nodes: nat, nodeName: string, exclude: map<string, set<string>>)

  datatype Refresher = Idle | CapacityReplaced | CopyingDevices(todo: set<(int, string)>)

  /** `gen` is the generation of capacity maps a scan holds on to, `since` the allocatable version when it took it,
      `read` the version it took its counters from. */
  datatype Scanner =
    | NotScanning
    | AtNode(node: nat)
    | CapacityRead(node: nat, gen: Option<nat>, since: nat)
    | Publishing(node: nat, gen: Option<nat>, since: nat, read: nat, counters: map<string, int>, todo: set<string>)

  /** One generation of capacity maps, and the allocatable version its device capacities come from. */
  datatype Generation = Generation(counters: Counters, version: nat)

  /** One published resource: the number of the scan, the used and capacity counters it was made from (`held` is zero
      when there was none, `copied` tells), the allocatable versions behind the two maps read, and whether the
      allocatable maps stayed put since the capacity map was taken. */
  datatype Entry = Entry(
    scan: nat, node: nat, info: ResourceInfo, used: int, copied: bool, held: int, origin: nat, read: nat, stable: bool)

  /** `gens` holds every generation of capacity maps, `allocs` every allocatable version and `useds` what the pods
      held at each scan, the current ones last. */
  datatype State = State(
    gens: seq<Generation>, allocs: seq<Counters>, refresher: Refresher,
    scanner: Scanner, useds: seq<Counters>, log: seq<Entry>, crashed: bool)

  datatype Action =
    | ReplaceCapacity(capacity: Counters)
    | ReplaceAllocatable(allocatable: Counters)
    | FailAllocatable
    | CopyDevice(node: int, resource: string)
    | EndRefresh
    | StartScan(used: Counters)
    | ReadCapacity
    | ReadAllocatable
    | PublishOne(resource: string)
    | SkipExcluded(resource: string)
    | NextNode

  ghost predicate InRange(c: Counters) {
    forall n, r :: Int64.MIN <= Get(c, n, r) <= Int64.MAX
  }

  function DevicePairs(a: Counters): set<(int, string)> {
    set n, r | n in a && r in a[n] && !IsNative(r) :: (n, r)
  }

  predicate Started(s: State) { s.gens != [] && s.allocs != [] }

  function Current(s: State): Counters
    requires Started(s)
  {
    s.gens[|s.gens| - 1].counters
  }

  function Alloc(s: State): Counters
    requires Started(s)
  {
    s.allocs[|s.allocs| - 1]
  }

  /** What the pods held when the last scan began. */
  function InUse(s: State): Counters {
    if s.useds == [] then map[] else s.useds[|s.useds| - 1]
  }

  /** The generation a scan holds on to; a node without a capacity map reads as an empty one. */
  function Held(s: State, gen: Option<nat>): Generation {
    if gen.Some? && gen.value < |s.gens| then s.gens[gen.value] else Generation(map[], 0)
  }

  /** What a scan publishes for one resource: it reads the capacity map it holds, as that is by now. */
  function Publish(s: State, r: string): Entry
    requires Started(s) && s.scanner.Publishing? && r in s.scanner.counters
  {
    var node, gen, used := s.scanner.node, Held(s, s.scanner.gen), Get(InUse(s), s.scanner.node, r);
    Entry(|s.useds|, node, Report(r, ZoneCapacity(gen.counters, node), s.scanner.counters[r], used), used,
          Has(gen.counters, node, r), Get(gen.counters, node, r), gen.version, s.scanner.read,
          s.scanner.since == |s.allocs| - 1)
  }

  /** One atomic step; an action that is not enabled changes nothing. A device on a node with no capacity map is a write
      to a nil map, which is the end of the process. */
  ghost function Step(cfg: Setup, s: State, act: Action): (t: State)
    requires Started(s)
    ensures Started(t)
  {
    var last := |s.gens| - 1;
    if s.crashed then s else
    match act
    case ReplaceCapacity(c) =>
      if s.refresher.Idle? && NativeOnly(c) && (forall n :: n in c <==> 0 <= n < cfg.nodes)
      then s.(gens := s.gens + [Generation(c, |s.allocs| - 1)], refresher := CapacityReplaced) else s
    case FailAllocatable =>
      if s.refresher.CapacityReplaced? then s.(refresher := Idle) else s
    case ReplaceAllocatable(a) =>
      if s.refresher.CapacityReplaced? && InRange(a)
      then s.(gens := s.gens[last := Generation(Current(s), |s.allocs|)], allocs := s.allocs + [a],
              refresher := CopyingDevices(DevicePairs(a)))
      else s
    case CopyDevice(n, r) =>
      if !s.refresher.CopyingDevices? || (n, r) !in s.refresher.todo || !Has(Alloc(s), n, r) then s
      else if n !in Current(s) then s.(crashed := true)
      else var written := Current(s)[n := Current(s)[n][r := Alloc(s)[n][r]]];
           s.(gens := s.gens[last := Generation(written, s.gens[last].version)],
              refresher := CopyingDevices(s.refresher.todo - {(n, r)}))
    case EndRefresh =>
      if s.refresher == CopyingDevices({}) then s.(refresher := Idle) else s
    case StartScan(used) =>
      if s.scanner.NotScanning? && InRange(used) then s.(scanner := AtNode(0), useds := s.useds + [used]) else s
    case ReadCapacity =>
      if s.scanner.AtNode? && s.scanner.node < cfg.nodes
      then s.(scanner := CapacityRead(s.scanner.node, if s.scanner.node in Current(s) then Some(last) else None,
                                      |s.allocs| - 1))
      else s
    case ReadAllocatable =>
      if s.scanner.CapacityRead?
      then var counters := ZoneAllocatable(Alloc(s), s.scanner.node);
           s.(scanner := Publishing(s.scanner.node, s.scanner.gen, s.scanner.since, |s.allocs| - 1,
                                    counters, counters.Keys))
      else s
    case PublishOne(r) =>
      if s.scanner.Publishing? && r in s.scanner.todo && r in s.scanner.counters &&
         !InExcludeSet(cfg.exclude, r, cfg.nodeName)
      then s.(scanner := s.scanner.(todo := s.scanner.todo - {r}), log := s.log + [Publish(s, r)])
      else s
    case SkipExcluded(r) =>
      if s.scanner.Publishing? && InExcludeSet(cfg.exclude, r, cfg.nodeName)
      then s.(scanner := s.scanner.(todo := s.scanner.todo - {r})) else s
    case NextNode =>
      if s.scanner.Publishing? && s.scanner.todo == {} then s.(scanner := AtNode(s.scanner.node + 1))
      else if s.scanner.AtNode? && s.scanner.node >= cfg.nodes then s.(scanner := NotScanning)
      else s
  }

  ghost function Run(cfg: Setup, s: State, acts: seq<Action>): (t: State)
    requires Started(s)
    ensures Started(t)
  {
    if acts == [] then s else Step(cfg, Run(cfg, s, acts[..|acts| - 1]), acts[|acts| - 1])
  }

  /** Every device capacity is the allocatable counter. */
  ghost predicate CopiedFrom(capacity: Counters, allocatable: Counters) {
    forall n, r :: Has(capacity, n, r) && !IsNative(r) ==> Get(capacity, n, r) == Get(allocatable, n, r)
  }

  /** A monitor just constructed, its first refresh done, with nothing going on. */
  ghost predicate Init(s: State) {
    && |s.gens| == 1 && |s.allocs| == 1 && s.gens[0].version == 0
    && CopiedFrom(s.gens[0].counters, s.allocs[0]) && InRange(s.allocs[0])
    && s.refresher.Idle? && s.scanner.NotScanning? && s.useds == [] && s.log == [] && !s.crashed
  }

  /** Such is the monitor after a successful refresh. */
  lemma {:induction false} RefreshedInit(base: Counters, allocatable: Counters)
    requires NativeOnly(base) && InRange(allocatable)
    ensures Init(State([Generation(WithDevices(base, allocatable), 0)], [allocatable],
                       Idle, NotScanning, [], [], false))
  {
    var c := WithDevices(base, allocatable);
    forall n, r | Has(c, n, r) && !IsNative(r) ensures Get(c, n, r) == Get(allocatable, n, r) {
      assert r !in base[n];
      assert r in Devices(if n in allocatable then allocatable[n] else map[]);
    }
  }

  // ---------- what every interleaving keeps ----------

  ghost predicate GenerationOk(allocs: seq<Counters>, g: Generation) {
    g.version < |allocs| && CopiedFrom(g.counters, allocs[g.version])
  }

  /** Each generation of capacity maps has the device counters of its allocatable version, the current one of the
      current version. */
  ghost predicate RefreshInv(s: State) {
    && Started(s) && (forall i :: 0 <= i < |s.useds| ==> InRange(s.useds[i]))
    && (forall i :: 0 <= i < |s.allocs| ==> InRange(s.allocs[i]))
    && (forall g :: 0 <= g < |s.gens| ==> GenerationOk(s.allocs, s.gens[g]))
    && s.gens[|s.gens| - 1].version == |s.allocs| - 1
    && (s.refresher.CapacityReplaced? ==> NativeOnly(Current(s)))
  }

  /** A scan holds on to a generation no older than the version it started from. */
  predicate HeldOk(s: State, gen: Option<nat>, since: nat) {
    since < |s.allocs| && (gen.Some? ==> gen.value < |s.gens| && since <= s.gens[gen.value].version)
  }

  ghost predicate ScanInv(s: State) {
    match s.scanner
    case AtNode(_) => s.useds != []
    case CapacityRead(n, gen, since) => HeldOk(s, gen, since) && s.useds != []
    case Publishing(n, gen, since, read, counters, todo) =>
      HeldOk(s, gen, since) && since <= read < |s.allocs| && counters == ZoneAllocatable(s.allocs[read], n) &&
      s.useds != []
    case _ => true
  }

  /** A published resource has the allocatable counter of the version read, and is left with what its own scan found
      in use there taken off, down to zero; it is in order exactly when those two counters are countable. */
  ghost predicate UsageOk(allocs: seq<Counters>, useds: seq<Counters>, e: Entry) {
    && e.read < |allocs| && 0 < e.scan <= |useds|
    && e.info.allocatable == Get(allocs[e.read], e.node, e.info.name)
    && e.used == Get(useds[e.scan - 1], e.node, e.info.name)
    && e.info.available == (if Int64.Wrap(e.info.allocatable - e.used) < 0 then 0
                            else Int64.Wrap(e.info.allocatable - e.used))
    && (Ordered(e.info) <==> Countable(e.info.allocatable, e.used))
  }

  /** Its capacity is its allocatable exactly when the capacity read is missing, zero, or no larger; and for a device
      the capacity read, if any, is the allocatable counter of the version behind the capacity map, which is the
      version read if nothing was replaced in between. */
  ghost predicate CapacityOk(allocs: seq<Counters>, e: Entry) {
    && e.read < |allocs|
    && (e.info.capacity == e.info.allocatable <==> e.held == 0 || e.held <= e.info.allocatable)
    && (!e.copied ==> e.held == 0)
    && (e.copied ==> e.origin < |allocs| && (e.stable ==> e.origin == e.read))
    && (e.copied && !IsNative(e.info.name) ==> e.held == Get(allocs[e.origin], e.node, e.info.name))
  }

  ghost predicate EntryOk(s: State, e: Entry) {
    UsageOk(s.allocs, s.useds, e) && CapacityOk(s.allocs, e)
  }

  ghost predicate LogInv(s: State) {
    forall i :: 0 <= i < |s.log| ==> EntryOk(s, s.log[i])
  }

  lemma {:induction false} CopyKeeps(capacity: Counters, allocatable: Counters, n: int, r: string)
    requires CopiedFrom(capacity, allocatable) && n in capacity && Has(allocatable, n, r)
    ensures CopiedFrom(capacity[n := capacity[n][r := allocatable[n][r]]], allocatable)
  {
    var written := capacity[n := capacity[n][r := allocatable[n][r]]];
    forall n', r' | Has(written, n', r') && !IsNative(r') ensures Get(written, n', r') == Get(allocatable, n', r') {
      assert (n', r') == (n, r) || Has(capacity, n', r');
    }
  }

  lemma {:induction false} NativeCopied(capacity: Counters, allocatable: Counters)
    requires NativeOnly(capacity)
    ensures CopiedFrom(capacity, allocatable)
  {
    forall n, r | Has(capacity, n, r) ensures IsNative(r) {}
  }

  /** The generation a step writes or adds. */
  lemma {:induction false} StepLastGeneration(cfg: Setup, s: State, act: Action)
    requires RefreshInv(s) && Step(cfg, s, act).gens != s.gens
    ensures var t := Step(cfg, s, act);
            GenerationOk(t.allocs, t.gens[|t.gens| - 1]) && t.gens[|t.gens| - 1].version == |t.allocs| - 1
  {
    assert GenerationOk(s.allocs, s.gens[|s.gens| - 1]);
    if act.CopyDevice? {
      CopyKeeps(Current(s), Alloc(s), act.node, act.resource);
    } else if act.ReplaceCapacity? {
      NativeCopied(act.capacity, Alloc(s));
    } else {
      NativeCopied(Current(s), act.allocatable);
    }
  }

  lemma {:induction false} StepRefresh(cfg: Setup, s: State, act: Action)
    requires RefreshInv(s)
    ensures RefreshInv(Step(cfg, s, act))
  {
    var t := Step(cfg, s, act);
    if t.gens == s.gens {
      assert t.allocs == s.allocs;
    } else {
      StepLastGeneration(cfg, s, act);
      forall g | 0 <= g < |t.gens| - 1 ensures GenerationOk(t.allocs, t.gens[g]) {
        assert GenerationOk(s.allocs, s.gens[g]) && t.gens[g] == s.gens[g];
        assert t.allocs[s.gens[g].version] == s.allocs[s.gens[g].version];
      }
    }
  }

  lemma {:induction false} StepScan(cfg: Setup, s: State, act: Action)
    requires RefreshInv(s) && ScanInv(s)
    ensures ScanInv(Step(cfg, s, act))
  {
    if act.ReadCapacity? && s.scanner.AtNode? {
      assert GenerationOk(s.allocs, s.gens[|s.gens| - 1]);
    }
  }

  /** When the capacity published for a resource is its allocatable. */
  lemma {:induction false} ReportCapacity(r: string, cap: map<string, int>, alloc: int, used: int)
    ensures var info := Report(r, cap, alloc, used);
            var held := if r in cap then cap[r] else 0;
            info.capacity == info.allocatable <==> held == 0 || held <= alloc
  {
  }

  lemma {:induction false} PublishOk(s: State, r: string)
    requires RefreshInv(s) && ScanInv(s) && s.scanner.Publishing? && r in s.scanner.counters
    ensures EntryOk(s, Publish(s, r))
  {
    var sc := s.scanner;
    var gen, used := Held(s, sc.gen), Get(InUse(s), sc.node, r);
    var cap := ZoneCapacity(gen.counters, sc.node);
    assert sc.counters[r] == Get(s.allocs[sc.read], sc.node, r);
    assert InRange(s.allocs[sc.read]) && InRange(s.useds[|s.useds| - 1]);
    ReportOrdered(r, cap, sc.counters[r], used);
    ReportCapacity(r, cap, sc.counters[r], used);
    assert (if r in cap then cap[r] else 0) == Get(gen.counters, sc.node, r);
    if sc.gen.Some? { assert GenerationOk(s.allocs, s.gens[sc.gen.value]); }
  }

  lemma {:induction false} StepLog(cfg: Setup, s: State, act: Action)
    requires RefreshInv(s) && ScanInv(s) && LogInv(s)
    ensures LogInv(Step(cfg, s, act))
  {
    var t := Step(cfg, s, act);
    if t.log != s.log {
      PublishOk(s, act.resource);
    }
    forall i | 0 <= i < |s.log| ensures EntryOk(t, t.log[i]) {
      assert EntryOk(s, s.log[i]) && t.log[i] == s.log[i];
    }
  }

  /** What every interleaving of refreshes and scans keeps: of the generations, of the scan under way, and of everything
      published so far. */
  lemma {:induction false} EveryInterleaving(cfg: Setup, s: State, acts: seq<Action>)
    requires Init(s)
    ensures RefreshInv(Run(cfg, s, acts)) && ScanInv(Run(cfg, s, acts)) && LogInv(Run(cfg, s, acts))
  {
    if acts != [] {
      var front, act := acts[..|acts| - 1], acts[|acts| - 1];
      EveryInterleaving(cfg, s, front);
      StepRefresh(cfg, Run(cfg, s, front), act);
      StepScan(cfg, Run(cfg, s, front), act);
      StepLog(cfg, Run(cfg, s, front), act);
    }
  }

  /** In every interleaving a device is published with a capacity other than its allocatable if and only if a capacity
      had been copied for it, from a version in which it counted something, and more than in the version its allocatable
      comes from. Then the allocatable maps were replaced while the scan was at that node. */
  lemma {:induction false} StaleIff(cfg: Setup, s: State, acts: seq<Action>, i: nat)
    requires Init(s) && i < |Run(cfg, s, acts).log| && !IsNative(Run(cfg, s, acts).log[i].info.name)
    ensures var t := Run(cfg, s, acts);
            var e := t.log[i];
            && e.read < |t.allocs| && (e.copied ==> e.origin < |t.allocs|)
            && (e.info.capacity != e.info.allocatable <==>
                && e.copied
                && Get(t.allocs[e.origin], e.node, e.info.name) != 0
                && Get(t.allocs[e.origin], e.node, e.info.name) > Get(t.allocs[e.read], e.node, e.info.name))
            && (e.info.capacity != e.info.allocatable ==> e.origin != e.read && !e.stable)
  {
    EveryInterleaving(cfg, s, acts);
    assert EntryOk(Run(cfg, s, acts), Run(cfg, s, acts).log[i]);
  }

  /** The devices not on the refresher's list any more have their capacity written. */
  ghost predicate CopyInv(s: State) {
    Started(s) &&
    (s.refresher.CopyingDevices? ==>
       forall n, r :: Has(Alloc(s), n, r) && !IsNative(r) && (n, r) !in s.refresher.todo ==>
                        Has(Current(s), n, r) && Current(s)[n][r] == Alloc(s)[n][r])
  }

  lemma {:induction false} StepCopies(cfg: Setup, s: State, act: Action)
    requires CopyInv(s)
    ensures CopyInv(Step(cfg, s, act))
  {
    var t := Step(cfg, s, act);
    if act.ReplaceAllocatable? && t != s {
      forall n, r | Has(Alloc(t), n, r) && !IsNative(r) ensures (n, r) in t.refresher.todo {
        assert n in Alloc(t) && r in Alloc(t)[n];
      }
    } else if act.CopyDevice? && t.gens != s.gens {
      var n, r := act.node, act.resource;
      assert Current(t) == Current(s)[n := Current(s)[n][r := Alloc(s)[n][r]]];
    } else {
      assert t.refresher.CopyingDevices? ==> Current(t) == Current(s) && Alloc(t) == Alloc(s);
    }
  }

  lemma {:induction false} RunCopies(cfg: Setup, s: State, acts: seq<Action>)
    requires Init(s)
    ensures CopyInv(Run(cfg, s, acts))
  {
    if acts != [] {
      RunCopies(cfg, s, acts[..|acts| - 1]);
      StepCopies(cfg, Run(cfg, s, acts[..|acts| - 1]), acts[|acts| - 1]);
    }
  }

  /** Whatever interleaves with it, a refresh that has worked off its devices has done what it does in one go: the
      current capacity maps are complete, copying the devices over again would change nothing. */
  lemma {:induction false} RefreshCompletes(cfg: Setup, s: State, acts: seq<Action>)
    requires Init(s) && Run(cfg, s, acts).refresher == CopyingDevices({})
    ensures var t := Run(cfg, s, acts);
            WithDevices(Current(t), Alloc(t)) == Current(t)
  {
    var t := Run(cfg, s, acts);
    RunCopies(cfg, s, acts);
    forall n | n in Current(t)
      ensures Current(t)[n] + Devices(if n in Alloc(t) then Alloc(t)[n] else map[]) == Current(t)[n]
    {
      if n in Alloc(t) {
        forall r | r in Devices(Alloc(t)[n]) ensures r in Current(t)[n] && Current(t)[n][r] == Alloc(t)[n][r] {
          assert Has(Alloc(t), n, r);
        }
      }
    }
  }

  // ---------- counters that are never negative ----------

  ghost predicate NonNegative(c: Counters) {
    forall n, r :: 0 <= Get(c, n, r)
  }

  ghost predicate Sane(act: Action) {
    && (act.ReplaceAllocatable? ==> NonNegative(act.allocatable))
    && (act.StartScan? ==> NonNegative(act.used))
  }

  ghost predicate SaneInv(s: State) {
    && Started(s) && NonNegative(Alloc(s)) && NonNegative(InUse(s))
    && (s.scanner.Publishing? ==> forall r :: r in s.scanner.counters ==> 0 <= s.scanner.counters[r])
    && (forall i :: 0 <= i < |s.log| ==> 0 <= s.log[i].info.allocatable && 0 <= s.log[i].used)
  }

  lemma {:induction false} StepSane(cfg: Setup, s: State, act: Action)
    requires SaneInv(s) && Sane(act)
    ensures SaneInv(Step(cfg, s, act))
  {
    if act.ReadAllocatable? && s.scanner.CapacityRead? {
      var counters := ZoneAllocatable(Alloc(s), s.scanner.node);
      forall r | r in counters ensures 0 <= counters[r] {
        assert Get(Alloc(s), s.scanner.node, r) == counters[r];
      }
    }
  }

  lemma {:induction false} RunSane(cfg: Setup, s: State, acts: seq<Action>)
    requires SaneInv(s)
    requires forall i :: 0 <= i < |acts| ==> Sane(acts[i])
    ensures SaneInv(Run(cfg, s, acts))
  {
    if acts != [] {
      RunSane(cfg, s, acts[..|acts| - 1]);
      StepSane(cfg, Run(cfg, s, acts[..|acts| - 1]), acts[|acts| - 1]);
    }
  }

  /** With counters that are never negative, as real ones are, 0 <= available <= allocatable <= capacity holds of every
      resource published in every interleaving. */
  lemma {:induction false} AlwaysOrdered(cfg: Setup, s: State, acts: seq<Action>)
    requires Init(s) && SaneInv(s)
    requires forall i :: 0 <= i < |acts| ==> Sane(acts[i])
    ensures forall i :: 0 <= i < |Run(cfg, s, acts).log| ==> Ordered(Run(cfg, s, acts).log[i].info)
  {
    EveryInterleaving(cfg, s, acts);
    RunSane(cfg, s, acts);
    var t := Run(cfg, s, acts);
    forall i | 0 <= i < |t.log| ensures Ordered(t.log[i].info) {
      assert EntryOk(t, t.log[i]);
    }
  }

  // ---------- nil maps ----------

  ghost predicate OnTopology(cfg: Setup, act: Action) {
    act.ReplaceAllocatable? ==> forall n, r :: Has(act.allocatable, n, r) && !IsNative(r) ==> 0 <= n < cfg.nodes
  }

  ghost predicate TopologyInv(cfg: Setup, s: State) {
    && Started(s) && !s.crashed
    && (!s.refresher.Idle? ==> forall n :: n in Current(s) <==> 0 <= n < cfg.nodes)
    && (s.refresher.CopyingDevices? ==> forall p :: p in s.refresher.todo ==> 0 <= p.0 < cfg.nodes)
  }

  lemma {:induction false} StepTopology(cfg: Setup, s: State, act: Action)
    requires TopologyInv(cfg, s) && OnTopology(cfg, act)
    ensures TopologyInv(cfg, Step(cfg, s, act))
  {
    var t := Step(cfg, s, act);
    if act.ReplaceCapacity? && t != s {
      assert Current(t) == act.capacity;
    } else {
      assert Current(t).Keys == Current(s).Keys;
    }
    if act.ReplaceAllocatable? {
      forall p | p in DevicePairs(act.allocatable) ensures 0 <= p.0 < cfg.nodes {
        assert Has(act.allocatable, p.0, p.1);
      }
    }
  }

  /** A refresh never writes to a nil map as long as every device is reported on a node of the topology. */
  lemma {:induction false} NeverCrashes(cfg: Setup, s: State, acts: seq<Action>)
    requires Init(s)
    requires forall i :: 0 <= i < |acts| ==> OnTopology(cfg, acts[i])
    ensures TopologyInv(cfg, Run(cfg, s, acts))
  {
    if acts != [] {
      NeverCrashes(cfg, s, acts[..|acts| - 1]);
      StepTopology(cfg, Run(cfg, s, acts[..|acts| - 1]), acts[|acts| - 1]);
    }
  }

  /** And it always can when one is not: a device on a node outside the topology, -1 included, crashes the refresh. */
  lemma {:induction false} CrashesOffTopology(cfg: Setup, s: State, a: Counters, n: int, r: string)
    requires TopologyInv(cfg, s) && s.refresher.CapacityReplaced? && InRange(a)
    requires Has(a, n, r) && !IsNative(r) && !(0 <= n < cfg.nodes)
    ensures Run(cfg, s, [ReplaceAllocatable(a), CopyDevice(n, r)]).crashed
  {
    var acts := [ReplaceAllocatable(a), CopyDevice(n, r)];
    assert acts[..1] == [acts[0]] && [acts[0]][..0] == [];
    assert (n, r) in DevicePairs(a);
    var mid := Step(cfg, s, acts[0]);
    assert Run(cfg, s, [acts[0]]) == mid by { assert Run(cfg, s, []) == s; }
    assert Current(mid) == Current(s) && Alloc(mid) == a && n !in Current(s);
    assert Run(cfg, s, acts) == Step(cfg, mid, acts[1]);
  }

  // ---------- the race that is there ----------

  ghost predicate Reachable(cfg: Setup, s: State, t: State) {
    exists acts :: Started(s) && Run(cfg, s, acts) == t
  }

  lemma {:induction false} ReachStep(cfg: Setup, s: State, t: State, act: Action)
    requires Started(s) && Started(t) && Reachable(cfg, s, t)
    ensures Reachable(cfg, s, Step(cfg, t, act))
  {
    var acts :| Run(cfg, s, acts) == t;
    assert (acts + [act])[..|acts|] == acts;
    assert Run(cfg, s, acts + [act]) == Step(cfg, t, act);
  }

  const GPU := "gpu"
  const ONE_NODE := Setup(1, "", map[])

  function Gpus(count: int): Counters { map[0 := map[GPU := count]] }

  lemma {:induction false} GpuIsDevice()
    ensures !IsNative(GPU)
  {
    assert GPU[0] != "hugepages-"[0] && GPU[0] != "cpu"[0] && GPU[0] != "memory"[0];
  }

  lemma {:induction false} GpusInRange(count: int)
    requires 0 <= count <= 4
    ensures InRange(Gpus(count))
  {
    forall n, r ensures Int64.MIN <= Get(Gpus(count), n, r) <= Int64.MAX {
      assert Has(Gpus(count), n, r) ==> n == 0 && r == GPU;
    }
  }

  /** One node, with four devices. */
  function FourGpus(): State {
    State([Generation(Gpus(4), 0)], [Gpus(4)], Idle, NotScanning, [], [], false)
  }

  /** The shrinking does happen: two of four devices go away in a refresh between a scan's two reads, and are
      published as capacity. */
  lemma {:induction false} StaleCapacity()
    ensures exists t: State ::
              Init(FourGpus()) && Reachable(ONE_NODE, FourGpus(), t) && |t.log| == 1 &&
              t.log[0].info == ResourceInfo(GPU, 2, 2, 4) && !IsNative(GPU)
  {
    GpuIsDevice();
    GpusInRange(4);
    var s0 := FourGpus();
    assert Init(s0);
    var s2 := s0.(scanner := CapacityRead(0, Some(0), 0), useds := [map[]]);
    FirstRead(s0, s2);
    var s4 := s2.(gens := [Generation(Gpus(4), 0), Generation(map[0 := map[]], 1)], allocs := [Gpus(4), Gpus(2)],
                  refresher := CopyingDevices(DevicePairs(Gpus(2))));
    RefreshBetweenReads(s0, s2, s4);
    var t := s4.(scanner := Publishing(0, Some(0), 0, 1, Gpus(2)[0], {}),
                 log := [Entry(1, 0, ResourceInfo(GPU, 2, 2, 4), 0, true, 4, 0, 1, false)]);
    SecondRead(s0, s4, t);
  }

  lemma {:induction false} NothingInRange()
    ensures InRange(map[])
  {
  }

  lemma {:induction false} FirstRead(s0: State, s2: State)
    requires s0 == FourGpus() && s2 == s0.(scanner := CapacityRead(0, Some(0), 0), useds := [map[]])
    ensures Reachable(ONE_NODE, s0, s2)
  {
    NothingInRange();
    assert Reachable(ONE_NODE, s0, s0) by { assert Run(ONE_NODE, s0, []) == s0; }
    ReachStep(ONE_NODE, s0, s0, StartScan(map[]));
    assert s0.useds + [map[]] == [map[]];
    ReachStep(ONE_NODE, s0, s0.(scanner := AtNode(0), useds := [map[]]), ReadCapacity);
  }

  lemma {:induction false} RefreshBetweenReads(s0: State, s2: State, s4: State)
    requires Started(s0) && Reachable(ONE_NODE, s0, s2) && s2.refresher.Idle? && !s2.crashed
    requires s2.gens == [Generation(Gpus(4), 0)] && s2.allocs == [Gpus(4)]
    requires s4 == s2.(gens := [Generation(Gpus(4), 0), Generation(map[0 := map[]], 1)], allocs := [Gpus(4), Gpus(2)],
                       refresher := CopyingDevices(DevicePairs(Gpus(2))))
    ensures Reachable(ONE_NODE, s0, s4)
  {
    var bare: Counters := map[0 := map[]];
    var s3 := s2.(gens := [Generation(Gpus(4), 0), Generation(bare, 0)], refresher := CapacityReplaced);
    assert s2.gens + [Generation(bare, 0)] == s3.gens;
    assert forall n :: n in bare <==> 0 <= n < 1;
    ReachStep(ONE_NODE, s0, s2, ReplaceCapacity(bare));
    GpusInRange(2);
    assert s3.gens[1 := Generation(bare, 1)] == s4.gens && s3.allocs + [Gpus(2)] == s4.allocs;
    ReachStep(ONE_NODE, s0, s3, ReplaceAllocatable(Gpus(2)));
  }

  lemma {:induction false} SecondRead(s0: State, s4: State, t: State)
    requires Started(s0) && Reachable(ONE_NODE, s0, s4) && s4.log == [] && s4.useds == [map[]] && !s4.crashed
    requires s4.gens == [Generation(Gpus(4), 0), Generation(map[0 := map[]], 1)] && s4.allocs == [Gpus(4), Gpus(2)]
    requires s4.scanner == CapacityRead(0, Some(0), 0)
    requires t == s4.(scanner := Publishing(0, Some(0), 0, 1, Gpus(2)[0], {}),
                      log := [Entry(1, 0, ResourceInfo(GPU, 2, 2, 4), 0, true, 4, 0, 1, false)])
    ensures Reachable(ONE_NODE, s0, t)
  {
    var s5 := s4.(scanner := Publishing(0, Some(0), 0, 1, Gpus(2)[0], {GPU}));
    assert Gpus(2)[0].Keys == {GPU};
    ReachStep(ONE_NODE, s0, s4, ReadAllocatable);
    assert ZoneCapacity(Gpus(4), 0) == Gpus(4)[0];
    assert {GPU} - {GPU} == {};
    ReachStep(ONE_NODE, s0, s5, PublishOne(GPU));
  }
}
