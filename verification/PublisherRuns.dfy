/**
 What the publisher guarantees over whole runs: the cache agrees with the server, patch mode stores what update mode
 would, any disagreement heals after two acknowledged sends, other writers' fields survive, resyncs come on time.
 */
module PublisherRuns {
  import opened Wrappers
  import opened MergePatch
  import opened NrtDocument
  import opened Publisher
  import Annotations

  /** Bringing an object up to date twice with one scan is the same as once. */
  lemma {:induction false} RefreshedIdempotent(cfg: Config, n: Nrt, info: MonitorInfo, version: nat)
    ensures Refreshed(cfg, Refreshed(cfg, n, info).(version := version), info) ==
            Refreshed(cfg, n, info).(version := version)
  {
    var once := Refreshed(cfg, n, info);
    assert Refreshed(cfg, once, info).annotations == once.annotations;
  }

  /** get+update: what it stores, and that nothing is overwritten that was not read. */
  lemma {:induction false} UpdateServed(cfg: Config, c: Client, s: Server, info: MonitorInfo, env: Env)
    requires ValidServer(cfg.host, s)
    ensures var sent := SendUpdate(cfg, c, s, info, env);
            var s' := Interfere(cfg.host, s, sent.foreign);
            && ValidServer(cfg.host, sent.server)
            && (sent.server == s' || sent.server == Published(cfg, s', info))
            && (sent.reply.Some? ==> sent.server == Published(cfg, s', info) && sent.reply == sent.server.stored)
            && PatchVerb !in sent.verbs
  {
    var s1 := Interfere(cfg.host, s, env.beforeGet);
    InterfereMoves(cfg.host, s, env.beforeGet);
    InterfereMoves(cfg.host, s1, env.beforePut);
    InterfereAppend(cfg.host, s, env.beforeGet, env.beforePut);
    if s1.stored.Some? { RefreshedEdits(cfg, s1.stored.value, info); }
  }

  lemma {:induction false} InterfereAppend(host: string, s: Server, a: seq<Foreign>, b: seq<Foreign>)
    ensures Interfere(host, s, a + b) == Interfere(host, Interfere(host, s, a), b)
  {
    if b == [] {
      assert a + b == a;
    } else {
      InterfereAppend(host, s, a, b[..|b| - 1]);
      assert (a + b)[..|a + b| - 1] == a + b[..|b| - 1];
    }
  }

  /** The reference for one publication: read what is stored, or start afresh, and store it brought up to date. */
  function Published(cfg: Config, s: Server, info: MonitorInfo): Server {
    Commit(s, Refreshed(cfg, if s.stored.Some? then s.stored.value else Fresh(cfg.host), info))
  }

  lemma {:induction false} ResyncServed(cfg: Config, c: Client, s: Server, info: MonitorInfo, env: Env)
    requires ValidClient(cfg.host, c) && ValidServer(cfg.host, s)
    ensures var sent := Resync(cfg, c, s, info, env);
            var s' := Interfere(cfg.host, s, sent.foreign);
            && ValidClient(cfg.host, sent.client) && ValidServer(cfg.host, sent.server)
            && (sent.server == s' || sent.server == Published(cfg, s', info))
            && (sent.reply.Some? ==> sent.client == Client(sent.reply, 0) && sent.reply == sent.server.stored &&
                                     sent.server == Published(cfg, s', info))
            && (sent.reply.None? ==> sent.client == c)
            && PatchVerb !in sent.verbs
  {
    UpdateServed(cfg, c, s, info, env);
  }

  /** The server after the patch request of a send. */
  function Merged(cfg: Config, c: Client, s: Server, info: MonitorInfo, env: Env): Served
    requires c.prev.Some?
  {
    ServeMerge(Interfere(cfg.host, s, env.beforePatch), c.prev.value, Refreshed(cfg, c.prev.value, info), env.patch)
  }

  lemma {:induction false} MergedValid(cfg: Config, c: Client, s: Server, info: MonitorInfo, env: Env)
    requires ValidClient(cfg.host, c) && ValidServer(cfg.host, s) && c.prev.Some?
    ensures ValidServer(cfg.host, Merged(cfg, c, s, info, env).server)
  {
    InterfereMoves(cfg.host, s, env.beforePatch);
  }

  /** One send in patch mode, from any cache and any server: a reported success means the cache is the stored object,
      a failure leaves the cache alone. */
  lemma {:induction false} SendServed(cfg: Config, c: Client, s: Server, info: MonitorInfo, env: Env)
    requires ValidClient(cfg.host, c) && ValidServer(cfg.host, s)
    ensures var sent := SendPatch(cfg, c, s, info, env);
            && ValidClient(cfg.host, sent.client) && ValidServer(cfg.host, sent.server)
            && (sent.reply.Some? ==> sent.client.prev == sent.reply == sent.server.stored)
            && (sent.reply.None? ==> sent.client == c)
  {
    if NeedsResync(cfg, c) || c.prev.None? {
      InterfereMoves(cfg.host, s, env.beforePatch);
      ResyncServed(cfg, c, Interfere(cfg.host, s, env.beforePatch), info, env);
    } else {
      MergedValid(cfg, c, s, info, env);
      ResyncServed(cfg, c, Merged(cfg, c, s, info, env).server, info, env);
    }
  }

  // ---------- runs ----------

  datatype Step = Step(info: MonitorInfo, env: Env)
  datatype State = State(client: Client, server: Server)

  function Send(cfg: Config, st: State, step: Step): Sent {
    if cfg.patchMode then SendPatch(cfg, st.client, st.server, step.info, step.env)
    else SendUpdate(cfg, st.client, st.server, step.info, step.env)
  }

  function Next(cfg: Config, st: State, step: Step): State {
    var sent := Send(cfg, st, step);
    State(sent.client, sent.server)
  }

  function After(cfg: Config, st: State, steps: seq<Step>): State {
    if steps == [] then st else Next(cfg, After(cfg, st, steps[..|steps| - 1]), steps[|steps| - 1])
  }

  /** The scans whose send was reported successful. */
  function Successes(cfg: Config, st: State, steps: seq<Step>): seq<MonitorInfo> {
    if steps == [] then [] else
    var front, last := steps[..|steps| - 1], steps[|steps| - 1];
    Successes(cfg, st, front) +
    if Send(cfg, After(cfg, st, front), last).reply.Some? then [last.info] else []
  }

  ghost predicate ValidState(cfg: Config, st: State) {
    ValidClient(cfg.host, st.client) && ValidServer(cfg.host, st.server)
  }

  lemma {:induction false} NextValid(cfg: Config, st: State, step: Step)
    requires ValidState(cfg, st)
    ensures ValidState(cfg, Next(cfg, st, step))
  {
    if cfg.patchMode {
      SendServed(cfg, st.client, st.server, step.info, step.env);
    } else {
      UpdateServed(cfg, st.client, st.server, step.info, step.env);
    }
  }

  lemma {:induction false} AfterValid(cfg: Config, st: State, steps: seq<Step>)
    requires ValidState(cfg, st)
    ensures ValidState(cfg, After(cfg, st, steps))
  {
    if steps != [] {
      AfterValid(cfg, st, steps[..|steps| - 1]);
      NextValid(cfg, After(cfg, st, steps[..|steps| - 1]), steps[|steps| - 1]);
    }
  }

  // ---------- what a send comes to ----------

  /** The send gets through with its patch alone. */
  predicate PatchSuffices(cfg: Config, st: State, env: Env) {
    cfg.patchMode && !NeedsResync(cfg, st.client) && st.client.prev.Some? && env.patch.Acked? &&
    Interfere(cfg.host, st.server, env.beforePatch).stored.Some?
  }

  lemma {:induction false} UpdateOutcome(cfg: Config, c: Client, s: Server, info: MonitorInfo, env: Env)
    ensures var sent := SendUpdate(cfg, c, s, info, env);
            && (sent.reply.Some? ==> env.getOk && env.put.Acked?)
            && (env.beforePut == [] ==> (sent.reply.Some? <==> env.getOk && env.put.Acked?))
            && GetVerb in sent.verbs && PatchVerb !in sent.verbs
            && (CreateVerb in sent.verbs || UpdateVerb in sent.verbs <==> env.getOk)
            && sent.client == c && sent.foreign == env.beforeGet + (if env.getOk then env.beforePut else [])
  {
    var s1 := Interfere(cfg.host, s, env.beforeGet);
    assert Interfere(cfg.host, s1, []) == s1;
    assert env.beforeGet + [] == env.beforeGet;
  }

  /** The patch is tried in patch mode when an object is cached and no resync is due. If it does not get through, the
      object is read and written in full; with nobody writing in between, the send then succeeds if and only if both
      requests do. A success in patch mode caches the reply and counts patches; everything else leaves the cache. */
  predicate ComesTo(cfg: Config, st: State, env: Env, sent: Sent) {
    var patched := PatchSuffices(cfg, st, env);
    && (sent.reply.Some? ==> patched || (env.getOk && env.put.Acked?))
    && (env.beforePut == [] ==> (sent.reply.Some? <==> patched || (env.getOk && env.put.Acked?)))
    && (PatchVerb in sent.verbs <==> cfg.patchMode && st.client.prev.Some? &&
                                     !(0 < cfg.patchResync <= st.client.patchCount))
    && (GetVerb in sent.verbs <==> !patched)
    && (CreateVerb in sent.verbs || UpdateVerb in sent.verbs <==> !patched && env.getOk)
    && sent.client == (if sent.reply.None? || !cfg.patchMode then st.client
                       else Client(sent.reply, if patched then st.client.patchCount + 1 else 0))
    && sent.foreign == (if cfg.patchMode then env.beforePatch else []) +
                       (if patched then [] else env.beforeGet) +
                       (if patched || !env.getOk then [] else env.beforePut)
  }

  lemma {:induction false} ResyncOutcome(cfg: Config, st: State, step: Step)
    requires cfg.patchMode && (st.client.prev.None? || NeedsResync(cfg, st.client))
    ensures ComesTo(cfg, st, step.env, Send(cfg, st, step))
  {
    var s1 := Interfere(cfg.host, st.server, step.env.beforePatch);
    UpdateOutcome(cfg, st.client, s1, step.info, step.env);
  }

  lemma {:induction false} FallbackOutcome(cfg: Config, st: State, step: Step)
    requires cfg.patchMode && st.client.prev.Some? && !NeedsResync(cfg, st.client)
    requires !PatchSuffices(cfg, st, step.env)
    ensures ComesTo(cfg, st, step.env, Send(cfg, st, step))
  {
    var s1 := Merged(cfg, st.client, st.server, step.info, step.env);
    UpdateOutcome(cfg, st.client, s1.server, step.info, step.env);
    assert s1.reply.None?;
  }

  /** What any send comes to, from any state, whatever becomes of its patch (rejected, reply lost, object gone). */
  lemma {:induction false} SendOutcome(cfg: Config, st: State, step: Step)
    ensures ComesTo(cfg, st, step.env, Send(cfg, st, step))
  {
    if !cfg.patchMode {
      UpdateOutcome(cfg, st.client, st.server, step.info, step.env);
    } else if st.client.prev.None? || NeedsResync(cfg, st.client) {
      ResyncOutcome(cfg, st, step);
    } else if !PatchSuffices(cfg, st, step.env) {
      FallbackOutcome(cfg, st, step);
    } else {
      assert step.env.beforePatch + [] + [] == step.env.beforePatch;
    }
  }

  const UPDATE_REASON := "k8stopoawareschedwg/rte-update"

  /** The object shows the scan as it is: its zones, its attributes followed by the two of the topology manager, its
      annotations and its reason. */
  predicate Shows(obj: Nrt, cfg: Config, info: MonitorInfo) {
    && obj.name == cfg.host && obj.zones == info.zones
    && obj.attributes == info.attributes +
         [Object(map["name" := String("topologyManagerScope"), "value" := String(cfg.scope)]),
          Object(map["name" := String("topologyManagerPolicy"), "value" := String(cfg.policy)])]
    && (forall k :: k in info.annotations && k != UPDATE_REASON ==>
          k in obj.annotations && obj.annotations[k] == info.annotations[k])
    && UPDATE_REASON in obj.annotations
    && obj.annotations[UPDATE_REASON] == (if info.timer then "periodic" else "reactive")
  }

  /** The object holds nothing but a scan. */
  predicate Only(obj: Nrt, info: MonitorInfo) {
    obj.annotations.Keys == info.annotations.Keys + {UPDATE_REASON} && obj.meta == obj.rest == map[]
  }

  lemma {:induction false} RefreshedShows(cfg: Config, base: Nrt, info: MonitorInfo, version: nat)
    requires base.name == cfg.host
    ensures Shows(Refreshed(cfg, base, info).(version := version), cfg, info)
    ensures base == Fresh(cfg.host) ==> Only(Refreshed(cfg, base, info).(version := version), info)
  {
  }

  lemma {:induction false} FullUpdate(cfg: Config, c: Client, s: Server, info: MonitorInfo, env: Env)
    requires ValidServer(cfg.host, s) && SendUpdate(cfg, c, s, info, env).reply.Some?
    ensures var sent := SendUpdate(cfg, c, s, info, env);
            && sent.server.stored == sent.reply && Shows(sent.reply.value, cfg, info)
            && (CreateVerb in sent.verbs ==> Only(sent.reply.value, info))
  {
    var s1 := Interfere(cfg.host, s, env.beforeGet);
    InterfereMoves(cfg.host, s, env.beforeGet);
    InterfereMoves(cfg.host, s1, env.beforePut);
    var base := if s1.stored.Some? then s1.stored.value else Fresh(cfg.host);
    var obj := SendUpdate(cfg, c, s, info, env).reply.value;
    assert obj == Refreshed(cfg, base, info).(version := obj.version);
    RefreshedShows(cfg, base, info, obj.version);
  }

  /** A send that got through in full leaves the scan as it is, whatever the server and the cache were like before; a
      new object holds nothing else. */
  lemma {:induction false} FullSend(cfg: Config, st: State, step: Step)
    requires ValidState(cfg, st) && Send(cfg, st, step).reply.Some? && GetVerb in Send(cfg, st, step).verbs
    ensures var sent := Send(cfg, st, step);
            && sent.server.stored == sent.reply && Shows(sent.reply.value, cfg, step.info)
            && (CreateVerb in sent.verbs ==> Only(sent.reply.value, step.info))
  {
    var c, s, info, env := st.client, st.server, step.info, step.env;
    if !cfg.patchMode {
      FullUpdate(cfg, c, s, info, env);
    } else if c.prev.Some? && !NeedsResync(cfg, c) {
      MergedValid(cfg, c, s, info, env);
      FullUpdate(cfg, c, Merged(cfg, c, s, info, env).server, info, env);
    } else {
      InterfereMoves(cfg.host, s, env.beforePatch);
      FullUpdate(cfg, c, Interfere(cfg.host, s, env.beforePatch), info, env);
    }
  }

  /** The owner reference is that of the node: its version, kind, name and uid. */
  lemma {:induction false} OwnerReferenceFields(node: Node)
    ensures var ref := OwnerReference(node);
            && ref.Object? && ref.fields.Keys == {"apiVersion", "kind", "name", "uid"}
            && At(ref, "apiVersion") == String("v1") && At(ref, "kind") == String("Node")
            && At(ref, "name") == String(node.name) && At(ref, "uid") == String(node.uid)
  {
  }

  // ---------- agreement and refinement ----------

  /** Nobody else writes during the send, and a request that fails has no effect. */
  predicate Quiet(env: Env) {
    env.beforePatch == env.beforeGet == env.beforePut == [] && !env.patch.ReplyLost? && !env.put.ReplyLost?
  }

  /** The cache is empty or the stored object; update mode has no cache. */
  predicate Coherent(cfg: Config, st: State) {
    st.client.prev.None? || (cfg.patchMode && st.client.prev == st.server.stored)
  }

  function PublishedAll(cfg: Config, s: Server, infos: seq<MonitorInfo>): Server {
    if infos == [] then s else Published(cfg, PublishedAll(cfg, s, infos[..|infos| - 1]), infos[|infos| - 1])
  }

  lemma {:induction false} QuietSend(cfg: Config, st: State, step: Step)
    requires ValidState(cfg, st) && Coherent(cfg, st) && Quiet(step.env)
    ensures Coherent(cfg, Next(cfg, st, step))
    ensures Next(cfg, st, step).server ==
            if Send(cfg, st, step).reply.Some? then Published(cfg, st.server, step.info) else st.server
  {
    var c, s, info, env := st.client, st.server, step.info, step.env;
    assert Interfere(cfg.host, s, []) == s;
    UpdateServed(cfg, c, s, info, env);
    assert SendUpdate(cfg, c, s, info, env).foreign == [];
    if cfg.patchMode && c.prev.Some? && !env.patch.Rejected? {
      RefreshedEdits(cfg, c.prev.value, info);
      PatchedSelf(c.prev.value, Refreshed(cfg, c.prev.value, info));
    }
  }

  /** In every quiet run, in either mode, the cache is empty or the stored object, and what is stored is the
      reference publication of exactly the scans reported successful, in order. */
  lemma {:induction false} QuietRun(cfg: Config, st: State, steps: seq<Step>)
    requires ValidState(cfg, st) && Coherent(cfg, st)
    requires forall i :: 0 <= i < |steps| ==> Quiet(steps[i].env)
    ensures Coherent(cfg, After(cfg, st, steps))
    ensures After(cfg, st, steps).server == PublishedAll(cfg, st.server, Successes(cfg, st, steps))
  {
    if steps != [] {
      var front := steps[..|steps| - 1];
      QuietRun(cfg, st, front);
      AfterValid(cfg, st, front);
      QuietSend(cfg, After(cfg, st, front), steps[|steps| - 1]);
      var done := Successes(cfg, st, front);
      assert (done + [steps[|steps| - 1].info])[..|done|] == done;
      assert done + [] == done;
    }
  }

  lemma {:induction false} PublishedAllMode(cfg: Config, mode: bool, resync: int, s: Server, infos: seq<MonitorInfo>)
    ensures PublishedAll(cfg.(patchMode := mode, patchResync := resync), s, infos) == PublishedAll(cfg, s, infos)
  {
    if infos != [] {
      PublishedAllMode(cfg, mode, resync, s, infos[..|infos| - 1]);
    }
  }

  /** Patch mode refines update mode: whatever requests fail along the way, a quiet run in patch mode and one in
      update mode that report the same scans as published leave the same object on the server. */
  lemma {:induction false} PatchModeRefinesUpdateMode(cfg: Config, s: Server, inPatch: seq<Step>, inUpdate: seq<Step>)
    requires ValidServer(cfg.host, s)
    requires forall i :: 0 <= i < |inPatch| ==> Quiet(inPatch[i].env)
    requires forall i :: 0 <= i < |inUpdate| ==> Quiet(inUpdate[i].env)
    requires var cold := State(Client(None, 0), s);
             Successes(cfg.(patchMode := true), cold, inPatch) == Successes(cfg.(patchMode := false), cold, inUpdate)
    ensures var cold := State(Client(None, 0), s);
            After(cfg.(patchMode := true), cold, inPatch).server ==
            After(cfg.(patchMode := false), cold, inUpdate).server
  {
    var cold := State(Client(None, 0), s);
    QuietRun(cfg.(patchMode := true), cold, inPatch);
    QuietRun(cfg.(patchMode := false), cold, inUpdate);
    PublishedAllMode(cfg, true, cfg.patchResync, s, Successes(cfg.(patchMode := true), cold, inPatch));
    PublishedAllMode(cfg, false, cfg.patchResync, s, Successes(cfg.(patchMode := false), cold, inUpdate));
  }

  // ---------- healing ----------

  /** The second of two successful sends, with nobody else writing in between: whatever became of its own requests,
      the stored object is the first one's brought up to date with the second scan. */
  lemma {:induction false} CoherentSend(cfg: Config, c: Client, s: Server, info: MonitorInfo, env: Env)
    requires ValidClient(cfg.host, c) && ValidServer(cfg.host, s)
    requires c.prev.Some? && c.prev == s.stored
    requires env.beforePatch == env.beforeGet == env.beforePut == []
    requires SendPatch(cfg, c, s, info, env).reply.Some?
    ensures var after := SendPatch(cfg, c, s, info, env).server;
            && after.stored.Some?
            && after.stored.value == Refreshed(cfg, s.stored.value, info).(version := after.stored.value.version)
  {
    assert Interfere(cfg.host, s, []) == s;
    if NeedsResync(cfg, c) || env.patch.Rejected? {
      ResyncServed(cfg, c, s, info, env);
    } else {
      MergedCoherent(cfg, c, s, info, env);
      var s1 := Merged(cfg, c, s, info, env).server;
      MergedValid(cfg, c, s, info, env);
      ResyncServed(cfg, c, s1, info, env);
      assert Interfere(cfg.host, s1, []) == s1;
      RefreshedIdempotent(cfg, c.prev.value, info, s1.stored.value.version);
    }
  }

  /** Patching the object the cache holds stores that object brought up to date. */
  lemma {:induction false} MergedCoherent(cfg: Config, c: Client, s: Server, info: MonitorInfo, env: Env)
    requires ValidClient(cfg.host, c) && ValidServer(cfg.host, s) && c.prev.Some? && c.prev == s.stored
    requires env.beforePatch == [] && !env.patch.Rejected?
    ensures var after := Merged(cfg, c, s, info, env).server;
            && after.stored.Some?
            && after.stored.value == Refreshed(cfg, s.stored.value, info).(version := after.stored.value.version)
  {
    assert Interfere(cfg.host, s, []) == s;
    RefreshedEdits(cfg, c.prev.value, info);
    PatchedSelf(c.prev.value, Refreshed(cfg, c.prev.value, info));
  }

  /** From any cache and any server (stale after other writers' edits, a delete and recreate, or lost replies), two
      consecutive successful sends with no other writer once the first was answered leave exactly the zones and
      attributes of the second scan, the two topology manager attributes last, its annotations and its reason, the node
      as the owner if it is known, and a cache equal to what is stored. */
  lemma {:induction false} TwoAcksHeal(cfg: Config, st: State, first: Step, second: Step)
    requires ValidState(cfg, st) && cfg.patchMode
    requires second.env.beforePatch == second.env.beforeGet == second.env.beforePut == []
    requires Send(cfg, st, first).reply.Some?
    requires Send(cfg, Next(cfg, st, first), second).reply.Some?
    ensures var end := After(cfg, st, [first, second]);
            && end.server.stored.Some? && end.client.prev == end.server.stored
            && end.server.stored.value.zones == second.info.zones
            && end.server.stored.value.attributes ==
               second.info.attributes + [Attribute("topologyManagerScope", cfg.scope),
                                         Attribute("topologyManagerPolicy", cfg.policy)]
            && (forall k :: k in second.info.annotations && k != Annotations.RTE_UPDATE ==>
                  k in end.server.stored.value.annotations &&
                  end.server.stored.value.annotations[k] == second.info.annotations[k])
            && Annotations.RTE_UPDATE in end.server.stored.value.annotations
            && end.server.stored.value.annotations[Annotations.RTE_UPDATE] ==
               (if second.info.timer then "periodic" else "reactive")
            && (cfg.host in cfg.nodes ==> end.server.stored.value.owners == [OwnerReference(cfg.nodes[cfg.host])])
  {
    var mid := Next(cfg, st, first);
    SendServed(cfg, st.client, st.server, first.info, first.env);
    SendServed(cfg, mid.client, mid.server, second.info, second.env);
    CoherentSend(cfg, mid.client, mid.server, second.info, second.env);
    assert [first, second][..1] == [first] && [first][..0] == [];
    assert After(cfg, st, [first]) == mid;
  }

  /** One acknowledged patch is enough for the zones exactly when they differ from the cached ones, or the server
      already had them. */
  lemma {:induction false} OneAckHeals(cfg: Config, c: Client, s: Server, info: MonitorInfo)
    requires ValidClient(cfg.host, c) && ValidServer(cfg.host, s) && c.prev.Some? && s.stored.Some?
    ensures var served := ServeMerge(s, c.prev.value, Refreshed(cfg, c.prev.value, info), Acked);
            && served.reply.Some?
            && (served.reply.value.zones == info.zones <==>
                c.prev.value.zones != info.zones || s.stored.value.zones == info.zones)
  {
  }

  const COLD := State(Client(None, 0), Server(None, 0))

  /** The object a first send creates. */
  function Created(cfg: Config, info: MonitorInfo): Nrt {
    Refreshed(cfg, Fresh(cfg.host), info).(version := 1)
  }

  /** A send acknowledged at once, after these acts of other writers. */
  function Acknowledged(info: MonitorInfo, acts: seq<Foreign>): Step {
    Step(info, Env(acts, Acked, [], true, [], Acked))
  }

  lemma {:induction false} FirstSend(cfg: Config, info: MonitorInfo)
    requires cfg.patchMode
    ensures var obj := Created(cfg, info);
            && Valid(obj) && Send(cfg, COLD, Acknowledged(info, [])).reply == Some(obj)
            && Next(cfg, COLD, Acknowledged(info, [])) == State(Client(Some(obj), 0), Server(Some(obj), 1))
  {
    assert Interfere(cfg.host, Server(None, 0), []) == Server(None, 0);
  }

  /** An edit made after the first send stays as it is when the same scan is sent again: the patch is empty. */
  lemma {:induction false} SecondSend(cfg: Config, info: MonitorInfo, edit: Nrt)
    requires cfg.patchMode && Valid(edit) && edit.name == cfg.host && edit != Created(cfg, info)
    ensures var mid := Next(cfg, COLD, Acknowledged(info, []));
            var step := Acknowledged(info, [Put(edit)]);
            var edited := edit.(version := 2);
            && Send(cfg, mid, step).reply == Some(edited)
            && Next(cfg, mid, step) == State(Client(Some(edited), 1), Server(Some(edited), 2))
  {
    FirstSend(cfg, info);
    var obj, s := Created(cfg, info), Server(Some(Created(cfg, info)), 1);
    RefreshedIdempotent(cfg, Fresh(cfg.host), info, 1);
    assert Interfere(cfg.host, s, [Put(edit)]) == Server(Some(edit.(version := 2)), 2) by {
      assert [Put(edit)][..0] == [] && Interfere(cfg.host, s, []) == s;
    }
    assert edit.annotations + Changed(obj.annotations, obj.annotations) == edit.annotations;
    assert Patched(obj, obj, edit.(version := 2)) == edit.(version := 2);
  }

  /** One acknowledged send is not enough in general, in a run from the start: the object is created, its zones are
      edited by somebody else, and the edit survives the next acknowledged send. */
  lemma {:induction false} OneAckMayNotHeal()
    ensures exists cfg: Config, info: MonitorInfo, edit: Nrt ::
              var mid := Next(cfg, COLD, Acknowledged(info, []));
              var step := Acknowledged(info, [Put(edit)]);
              && cfg.patchMode && Send(cfg, COLD, Acknowledged(info, [])).reply.Some?
              && Send(cfg, mid, step).reply.Some? && Next(cfg, mid, step).server.stored.value.zones != info.zones
  {
    var cfg := Config("host", false, true, 0, "", "", map[]);
    var info := MonitorInfo(true, Some([]), [], map[]);
    FirstSend(cfg, info);
    var edit := Created(cfg, info).(zones := Some([Null]));
    assert Some([]).value != Some([Null]).value by { assert |[Null]| == 1; }
    SecondSend(cfg, info, edit);
    var end := Next(cfg, Next(cfg, COLD, Acknowledged(info, [])), Acknowledged(info, [Put(edit)]));
    assert end.server.stored.value.zones != info.zones;
  }

  // ---------- other writers ----------

  /** The patch for any scan, made from any cached object, touches only annotations, owner references, zones and
      attributes; it holds no null unless it replaces known zones by a nil list. */
  lemma {:induction false} SentPatchFrame(cfg: Config, prev: Nrt, info: MonitorInfo)
    requires Valid(prev)
    ensures var patch := Diff(Encode(prev), Encode(Refreshed(cfg, prev, info)));
            && patch.fields.Keys <= {"metadata", "zones", "attributes"}
            && Members(At(patch, "metadata")).Keys <= {"annotations", "ownerReferences"}
            && (NullFree(patch) <==> (info.zones.None? ==> prev.zones.None?))
  {
    RefreshedEdits(cfg, prev, info);
    PatchFrame(prev, Refreshed(cfg, prev, info));
  }

  /** Everything other writers own in `f` is in `s` as they left it: the object, its labels and other metadata, its
      kind, the owners if the node is not known, and every annotation but those published (`own`), which only are not
      removed. */
  predicate Intact(cfg: Config, own: set<string>, f: Server, s: Server) {
    f.stored.Some? ==>
      && s.stored.Some?
      && s.stored.value.name == f.stored.value.name
      && s.stored.value.meta == f.stored.value.meta
      && s.stored.value.rest == f.stored.value.rest
      && (cfg.host !in cfg.nodes ==> s.stored.value.owners == f.stored.value.owners)
      && s.stored.value.annotations - own == f.stored.value.annotations - own
      && f.stored.value.annotations.Keys <= s.stored.value.annotations.Keys
  }

  lemma {:induction false} InterfereIntact(cfg: Config, own: set<string>, f: Server, s: Server, acts: seq<Foreign>)
    requires Intact(cfg, own, f, s)
    ensures Intact(cfg, own, Interfere(cfg.host, f, acts), Interfere(cfg.host, s, acts))
  {
    if acts != [] {
      InterfereIntact(cfg, own, f, s, acts[..|acts| - 1]);
    }
  }

  /** The annotations a scan publishes are among these. */
  predicate Publishes(own: set<string>, info: MonitorInfo) {
    info.annotations.Keys <= own && Annotations.RTE_UPDATE in own
  }

  lemma {:induction false} PublishedIntact(cfg: Config, own: set<string>, f: Server, s: Server, info: MonitorInfo)
    requires ValidServer(cfg.host, s) && Intact(cfg, own, f, s) && Publishes(own, info)
    ensures Intact(cfg, own, f, Published(cfg, s, info))
  {
    if f.stored.Some? {
      var old', new' := s.stored.value.annotations, Refreshed(cfg, s.stored.value, info).annotations;
      assert new' - own == old' - own;
    }
  }

  lemma {:induction false} UpdateIntact(cfg: Config, own: set<string>, f: Server, c: Client, s: Server,
                                        info: MonitorInfo, env: Env)
    requires ValidServer(cfg.host, s) && Intact(cfg, own, f, s) && Publishes(own, info)
    ensures var sent := SendUpdate(cfg, c, s, info, env);
            Intact(cfg, own, Interfere(cfg.host, f, sent.foreign), sent.server)
  {
    var acts := SendUpdate(cfg, c, s, info, env).foreign;
    UpdateServed(cfg, c, s, info, env);
    InterfereIntact(cfg, own, f, s, acts);
    InterfereMoves(cfg.host, s, acts);
    PublishedIntact(cfg, own, Interfere(cfg.host, f, acts), Interfere(cfg.host, s, acts), info);
  }

  /** The patch for a scan carries annotations of that scan only. */
  lemma {:induction false} MergedIntact(cfg: Config, own: set<string>, f: Server, c: Client, s: Server,
                                        info: MonitorInfo, env: Env)
    requires ValidClient(cfg.host, c) && c.prev.Some? && Intact(cfg, own, f, s) && Publishes(own, info)
    ensures Intact(cfg, own, Interfere(cfg.host, f, env.beforePatch), Merged(cfg, c, s, info, env).server)
  {
    var s1 := Interfere(cfg.host, s, env.beforePatch);
    InterfereIntact(cfg, own, f, s, env.beforePatch);
    if s1.stored.Some? {
      var carried := Changed(c.prev.value.annotations, Refreshed(cfg, c.prev.value, info).annotations);
      assert carried.Keys <= own;
      assert (s1.stored.value.annotations + carried) - own == s1.stored.value.annotations - own;
    }
  }

  lemma {:induction false} PatchIntact(cfg: Config, own: set<string>, f: Server, c: Client, s: Server,
                                       info: MonitorInfo, env: Env)
    requires ValidClient(cfg.host, c) && ValidServer(cfg.host, s) && Intact(cfg, own, f, s) && Publishes(own, info)
    ensures var sent := SendPatch(cfg, c, s, info, env);
            Intact(cfg, own, Interfere(cfg.host, f, sent.foreign), sent.server)
  {
    var f1, s1 := Interfere(cfg.host, f, env.beforePatch), Interfere(cfg.host, s, env.beforePatch);
    InterfereIntact(cfg, own, f, s, env.beforePatch);
    InterfereMoves(cfg.host, s, env.beforePatch);
    if !NeedsResync(cfg, c) && c.prev.Some? {
      s1 := Merged(cfg, c, s, info, env).server;
      MergedIntact(cfg, own, f, c, s, info, env);
      MergedValid(cfg, c, s, info, env);
    }
    UpdateIntact(cfg, own, f1, c, s1, info, env);
    InterfereAppend(cfg.host, f, env.beforePatch, SendUpdate(cfg, c, s1, info, env).foreign);
  }

  /** All that other writers did during a run, in order. */
  function Acts(cfg: Config, st: State, steps: seq<Step>): seq<Foreign> {
    if steps == [] then [] else
    var front := steps[..|steps| - 1];
    Acts(cfg, st, front) + Send(cfg, After(cfg, st, front), steps[|steps| - 1]).foreign
  }

  /** In every run, in either mode, with other writers acting between any two requests and replies lost at will:
      compared with the server those writers would have had alone, their object is there, its labels and other
      metadata and every annotation not among those published are exactly as they left them, removals included, and so
      are the owners unless the node is known; of the published annotations none is removed. */
  lemma {:induction false} ForeignFieldsSurvive(cfg: Config, own: set<string>, st: State, steps: seq<Step>)
    requires ValidState(cfg, st) && forall i :: 0 <= i < |steps| ==> Publishes(own, steps[i].info)
    ensures Intact(cfg, own, Interfere(cfg.host, st.server, Acts(cfg, st, steps)), After(cfg, st, steps).server)
  {
    if steps != [] {
      var front, last := steps[..|steps| - 1], steps[|steps| - 1];
      ForeignFieldsSurvive(cfg, own, st, front);
      AfterValid(cfg, st, front);
      var mid := After(cfg, st, front);
      var f := Interfere(cfg.host, st.server, Acts(cfg, st, front));
      assert Publishes(own, last.info);
      if cfg.patchMode {
        PatchIntact(cfg, own, f, mid.client, mid.server, last.info, last.env);
      } else {
        UpdateIntact(cfg, own, f, mid.client, mid.server, last.info, last.env);
      }
      InterfereAppend(cfg.host, st.server, Acts(cfg, st, front), Send(cfg, mid, last).foreign);
    }
  }

  // ---------- owners ----------

  function Owners(s: Server): seq<Json> {
    if s.stored.Some? then s.stored.value.owners else []
  }

  /** The send writes the owners: the node is known, and the object is written in full or was cached with other
      owners. */
  predicate WritesOwners(cfg: Config, st: State, env: Env) {
    cfg.host in cfg.nodes &&
    (PatchSuffices(cfg, st, env) ==> st.client.prev.value.owners != [OwnerReference(cfg.nodes[cfg.host])])
  }

  lemma {:induction false} InterfereOwners(host: string, a: Server, b: Server, acts: seq<Foreign>)
    requires Owners(a) == Owners(b)
    ensures Owners(Interfere(host, a, acts)) == Owners(Interfere(host, b, acts))
  {
    if acts != [] {
      InterfereOwners(host, a, b, acts[..|acts| - 1]);
    }
  }

  /** The owners after a full update, from a server whose owners are those of `f`. */
  lemma {:induction false} FullOwners(cfg: Config, f: Server, c: Client, s: Server, info: MonitorInfo, env: Env)
    requires ValidServer(cfg.host, s) && SendUpdate(cfg, c, s, info, env).reply.Some?
    requires cfg.host !in cfg.nodes ==> Owners(f) == Owners(s)
    ensures var sent := SendUpdate(cfg, c, s, info, env);
            Owners(sent.server) == if cfg.host in cfg.nodes then [OwnerReference(cfg.nodes[cfg.host])]
                                   else Owners(Interfere(cfg.host, f, sent.foreign))
  {
    var acts := SendUpdate(cfg, c, s, info, env).foreign;
    UpdateServed(cfg, c, s, info, env);
    InterfereMoves(cfg.host, s, acts);
    if cfg.host !in cfg.nodes { InterfereOwners(cfg.host, f, s, acts); }
  }

  /** The owners after a successful send are the node alone, or exactly those other writers left. */
  lemma {:induction false} OwnersSent(cfg: Config, st: State, step: Step)
    requires ValidState(cfg, st) && Send(cfg, st, step).reply.Some?
    ensures var sent := Send(cfg, st, step);
            Owners(sent.server) ==
            if WritesOwners(cfg, st, step.env) then [OwnerReference(cfg.nodes[cfg.host])]
            else Owners(Interfere(cfg.host, st.server, sent.foreign))
  {
    var c, s, info, env := st.client, st.server, step.info, step.env;
    if !cfg.patchMode {
      FullOwners(cfg, s, c, s, info, env);
    } else if !PatchSuffices(cfg, st, env) {
      var s1 := Interfere(cfg.host, s, env.beforePatch);
      var s2 := if NeedsResync(cfg, c) || c.prev.None? then s1 else Merged(cfg, c, s, info, env).server;
      InterfereMoves(cfg.host, s, env.beforePatch);
      if c.prev.Some? { MergedValid(cfg, c, s, info, env); }
      FullOwners(cfg, s1, c, s2, info, env);
      InterfereAppend(cfg.host, s, env.beforePatch, SendUpdate(cfg, c, s2, info, env).foreign);
    }
  }

  /** A successful send loses an owner somebody else has set if and only if the node is known, and the object is written
      in full or was cached with other owners than the node. */
  lemma {:induction false} OwnerLostIff(cfg: Config, st: State, step: Step, owner: Json)
    requires ValidState(cfg, st) && Send(cfg, st, step).reply.Some?
    requires owner in Owners(Interfere(cfg.host, st.server, Send(cfg, st, step).foreign))
    requires cfg.host in cfg.nodes ==> owner != OwnerReference(cfg.nodes[cfg.host])
    ensures owner !in Owners(Next(cfg, st, step).server) <==> WritesOwners(cfg, st, step.env)
  {
    OwnersSent(cfg, st, step);
  }

  /** Both do happen to one owner in a run from the start: it survives the patch after it was set, and is lost in the
      resync that follows. */
  lemma {:induction false} OwnerLost(owner: Json)
    requires owner != OwnerReference(Node("host", "1"))
    ensures exists cfg: Config, info: MonitorInfo, edit: Nrt ::
              var mid := Next(cfg, COLD, Acknowledged(info, []));
              var kept := Next(cfg, mid, Acknowledged(info, [Put(edit)]));
              var last := Acknowledged(info, []);
              && cfg.patchMode && Send(cfg, COLD, Acknowledged(info, [])).reply.Some?
              && Send(cfg, mid, Acknowledged(info, [Put(edit)])).reply.Some? && owner in Owners(kept.server)
              && Send(cfg, kept, last).reply.Some? && owner !in Owners(Next(cfg, kept, last).server)
  {
    var cfg := Config("host", false, true, 1, "", "", map["host" := Node("host", "1")]);
    var info := MonitorInfo(true, Some([]), [], map[]);
    FirstSend(cfg, info);
    var mid := Next(cfg, COLD, Acknowledged(info, []));
    var obj := Created(cfg, info);
    var edit := obj.(owners := obj.owners + [owner]);
    assert edit.owners[1] == owner;
    SecondSend(cfg, info, edit);
    var kept := Next(cfg, mid, Acknowledged(info, [Put(edit)]));
    var last := Acknowledged(info, []);
    assert kept == State(Client(Some(edit.(version := 2)), 1), Server(Some(edit.(version := 2)), 2));
    OwnerLostInResync(cfg, kept, last, owner);
    assert Send(cfg, kept, last).reply.Some? && owner !in Owners(Next(cfg, kept, last).server);
  }

  lemma {:induction false} OwnerLostInResync(cfg: Config, st: State, step: Step, owner: Json)
    requires ValidState(cfg, st) && cfg.patchMode && NeedsResync(cfg, st.client) && st.server.stored.Some?
    requires step.env == Env([], Acked, [], true, [], Acked) && owner in Owners(st.server)
    requires cfg.host in cfg.nodes && owner != OwnerReference(cfg.nodes[cfg.host])
    ensures Send(cfg, st, step).reply.Some? && owner !in Owners(Next(cfg, st, step).server)
  {
    assert Interfere(cfg.host, st.server, []) == st.server;
    assert Send(cfg, st, step).foreign == [];
    OwnerLostIff(cfg, st, step, owner);
  }

  // ---------- resync ----------

  /** The patch counter never passes the resync period, in any run, whatever fails. */
  lemma {:induction false} PatchCountBounded(cfg: Config, s: Server, steps: seq<Step>)
    requires cfg.patchResync > 0
    ensures After(cfg, State(Client(None, 0), s), steps).client.patchCount <= cfg.patchResync
  {
    if steps != [] {
      PatchCountBounded(cfg, s, steps[..|steps| - 1]);
    }
  }

  /** Once a resync is due no patch is sent, and it stays due until a full update succeeds. */
  lemma {:induction false} ResyncBlocksPatches(cfg: Config, c: Client, s: Server, info: MonitorInfo, env: Env)
    requires ValidClient(cfg.host, c) && ValidServer(cfg.host, s)
    ensures var sent := SendPatch(cfg, c, s, info, env);
            && (NeedsResync(cfg, c) ==> PatchVerb !in sent.verbs)
            && (NeedsResync(cfg, c) ==> (NeedsResync(cfg, sent.client) <==> sent.reply.None?))
            && (sent.reply.Some? && sent.client.patchCount == 0 ==> GetVerb in sent.verbs)
  {
    InterfereMoves(cfg.host, s, env.beforePatch);
    ResyncServed(cfg, c, Interfere(cfg.host, s, env.beforePatch), info, env);
  }

  /** Every send of the run succeeded with a patch alone. */
  predicate AllPatched(cfg: Config, st: State, steps: seq<Step>) {
    steps == [] ||
    var sent := Send(cfg, After(cfg, st, steps[..|steps| - 1]), steps[|steps| - 1]);
    AllPatched(cfg, st, steps[..|steps| - 1]) && sent.reply.Some? && GetVerb !in sent.verbs
  }

  /** Whatever other writers do and whichever requests fail, no more than R patches are ever sent in a row: one of any
      R+1 consecutive successful sends reads the stored object and stores it in full. */
  lemma {:induction false} AtMostPatchesInARow(cfg: Config, st: State, steps: seq<Step>)
    requires cfg.patchMode && cfg.patchResync > 0 && ValidState(cfg, st)
    requires AllPatched(cfg, st, steps)
    ensures After(cfg, st, steps).client.patchCount == st.client.patchCount + |steps|
    ensures steps != [] ==> st.client.patchCount + |steps| <= cfg.patchResync
  {
    if steps != [] {
      var front, last := steps[..|steps| - 1], steps[|steps| - 1];
      AtMostPatchesInARow(cfg, st, front);
      AfterValid(cfg, st, front);
      PatchSendCounts(cfg, After(cfg, st, front), last);
    }
  }

  lemma {:induction false} PatchSendCounts(cfg: Config, st: State, step: Step)
    requires cfg.patchMode && ValidState(cfg, st)
    requires Send(cfg, st, step).reply.Some? && GetVerb !in Send(cfg, st, step).verbs
    ensures !NeedsResync(cfg, st.client) && Next(cfg, st, step).client.patchCount == st.client.patchCount + 1
  {
    var s1 := Interfere(cfg.host, st.server, step.env.beforePatch);
    assert GetVerb in Resync(cfg, st.client, s1, step.info, step.env).verbs;
  }

  /** No request fails: every one is acknowledged, and nobody deletes the object or writes between get and update. */
  predicate FailureFree(env: Env) {
    env.patch.Acked? && env.getOk && env.put.Acked? && env.beforePut == [] &&
    Delete !in env.beforePatch && Delete !in env.beforeGet
  }

  predicate AllFailureFree(steps: seq<Step>) {
    steps == [] || (AllFailureFree(steps[..|steps| - 1]) && FailureFree(steps[|steps| - 1].env))
  }

  lemma {:induction false} InterfereKeeps(host: string, s: Server, acts: seq<Foreign>)
    requires Delete !in acts && s.stored.Some?
    ensures Interfere(host, s, acts).stored.Some?
  {
    if acts != [] {
      InterfereKeeps(host, s, acts[..|acts| - 1]);
    }
  }

  lemma {:induction false} FailureFreeSend(cfg: Config, st: State, step: Step)
    requires cfg.patchMode && ValidState(cfg, st) && FailureFree(step.env)
    requires st.client.prev.Some? ==> st.server.stored.Some?
    ensures var sent := Send(cfg, st, step);
            var full := NeedsResync(cfg, st.client) || st.client.prev.None?;
            && (GetVerb in sent.verbs <==> full) && (PatchVerb in sent.verbs <==> !full)
            && sent.reply.Some? && sent.client.prev.Some? && sent.server.stored.Some?
            && sent.client.patchCount == if full then 0 else st.client.patchCount + 1
  {
    var s1 := Interfere(cfg.host, st.server, step.env.beforePatch);
    if st.client.prev.Some? {
      InterfereKeeps(cfg.host, st.server, step.env.beforePatch);
    }
    var s2 := Interfere(cfg.host, s1, step.env.beforeGet);
    assert Interfere(cfg.host, s2, []) == s2;
  }

  /** How far send `n` of a failure-free run is from the last full one. */
  function Phase(cfg: Config, n: nat): nat {
    if n == 0 then 0
    else if cfg.patchResync > 0 && Phase(cfg, n - 1) >= cfg.patchResync then 0
    else Phase(cfg, n - 1) + 1
  }

  lemma {:induction false} PhaseIsRemainder(cfg: Config, n: nat)
    ensures Phase(cfg, n) == if cfg.patchResync > 0 then n % (cfg.patchResync + 1) else n
  {
    if n > 0 {
      PhaseIsRemainder(cfg, n - 1);
      if cfg.patchResync > 0 { ModNext(n - 1, cfg.patchResync + 1); }
    }
  }

  /** The object is there, cached, and `n` patches have been sent since it was last sent in full. */
  ghost predicate Settled(cfg: Config, st: State, n: nat) {
    ValidState(cfg, st) && st.client.prev.Some? && st.server.stored.Some? && st.client.patchCount == n
  }

  lemma {:induction false} FailureFreeNext(cfg: Config, st: State, step: Step)
    requires cfg.patchMode && ValidState(cfg, st) && FailureFree(step.env)
    requires st.client.prev.Some? ==> st.server.stored.Some?
    ensures Settled(cfg, Next(cfg, st, step),
                    if NeedsResync(cfg, st.client) || st.client.prev.None? then 0 else st.client.patchCount + 1)
  {
    FailureFreeSend(cfg, st, step);
    NextValid(cfg, st, step);
  }

  lemma {:induction false} FailureFreeRun(cfg: Config, s: Server, steps: seq<Step>)
    requires cfg.patchMode && ValidServer(cfg.host, s) && AllFailureFree(steps) && steps != []
    ensures Settled(cfg, After(cfg, State(Client(None, 0), s), steps), Phase(cfg, |steps| - 1))
  {
    var cold := State(Client(None, 0), s);
    var n := |steps| - 1;
    if n == 0 {
      FailureFreeNext(cfg, cold, steps[0]);
      assert After(cfg, cold, steps[..0]) == cold;
    } else {
      FailureFreeRun(cfg, s, steps[..n]);
      FailureFreeNext(cfg, After(cfg, cold, steps[..n]), steps[n]);
    }
  }

  lemma {:induction false} FullWhenInPhase(cfg: Config, s: Server, steps: seq<Step>, last: Step)
    requires cfg.patchMode && ValidServer(cfg.host, s) && FailureFree(last.env)
    requires AllFailureFree(steps)
    ensures var sent := Send(cfg, After(cfg, State(Client(None, 0), s), steps), last);
            && sent.reply.Some?
            && (GetVerb in sent.verbs <==> Phase(cfg, |steps|) == 0)
            && (PatchVerb in sent.verbs <==> GetVerb !in sent.verbs)
  {
    if steps != [] { FailureFreeRun(cfg, s, steps); }
    FailureFreeSend(cfg, After(cfg, State(Client(None, 0), s), steps), last);
  }

  /** In a failure-free run the object is sent in full on every (R+1)-th send, the first included, and patched in all
      others; with no resync period only the first send is full. */
  lemma {:induction false} ResyncPeriod(cfg: Config, s: Server, steps: seq<Step>, last: Step)
    requires cfg.patchMode && ValidServer(cfg.host, s) && FailureFree(last.env)
    requires AllFailureFree(steps)
    ensures var sent := Send(cfg, After(cfg, State(Client(None, 0), s), steps), last);
            && sent.reply.Some?
            && (GetVerb in sent.verbs <==>
                if cfg.patchResync > 0 then |steps| % (cfg.patchResync + 1) == 0 else |steps| == 0)
            && (PatchVerb in sent.verbs <==> GetVerb !in sent.verbs)
  {
    FullWhenInPhase(cfg, s, steps, last);
    PhaseIsRemainder(cfg, |steps|);
  }

  lemma {:induction false} ModNext(n: nat, m: nat)
    requires m > 0
    ensures (n + 1) % m == if n % m == m - 1 then 0 else n % m + 1
  {
    var q, r := n / m, n % m;
    assert n == q * m + r;
    if r == m - 1 {
      assert n + 1 == (q + 1) * m by { assert (q + 1) * m == q * m + m; }
      ModUnique(n + 1, q + 1, m, 0);
    } else {
      ModUnique(n + 1, q, m, r + 1);
    }
  }

  lemma {:induction false} ModUnique(a: nat, q: nat, m: nat, r: nat)
    requires r < m && a == q * m + r
    ensures a % m == r
  {
    var x := a / m - q;
    assert a == (a / m) * m + a % m;
    assert x * m == r - a % m by { assert x * m == (a / m) * m - q * m; }
    MulGe(x, m);
  }

  lemma {:induction false} MulGe(x: int, m: nat)
    ensures x >= 1 ==> x * m >= m
    ensures x <= -1 ==> x * m + m <= 0
  {
    assert x * m == (x - 1) * m + m == (x + 1) * m - m;
    if x >= 1 {
      assert (x - 1) * m >= 0;
    } else if x <= -1 {
      assert (x + 1) * m <= 0;
    }
  }
}
