/**
 The publisher of the NodeResourceTopology object of one node: a client-side cache (`prevNRT`, `patchCount`) that
 sends merge patches and falls back to get+create/update, against an API server other parties write to.
 Every request is acknowledged, applied with its reply lost, or rejected; other writers may act between requests.
 */
module Publisher {
  import opened Wrappers
  import opened MergePatch
  import opened NrtDocument
  import Annotations

  // ---------- what is published ----------

  datatype MonitorInfo = MonitorInfo(
    timer: bool, zones: Option<seq<Json>>, attributes: seq<Json>, annotations: map<string, string>)
  {
    function UpdateReason(): string { if timer then "periodic" else "reactive" }
  }

  datatype Node = Node(name: string, uid: string)

  /** `nodes` is the node getter's cache: empty when adding owners is disabled. */
  datatype Config = Config(
    host: string, noPublish: bool, patchMode: bool, patchResync: int,
    scope: string, policy: string, nodes: map<string, Node>)

  function Attribute(name: string, value: string): Json {
    Object(map["name" := String(name), "value" := String(value)])
  }

  function MakeAttributes(cfg: Config): seq<Json> {
    [Attribute("topologyManagerScope", cfg.scope), Attribute("topologyManagerPolicy", cfg.policy)]
  }

  function OwnerReference(node: Node): Json {
    Object(map["apiVersion" := String("v1"), "kind" := String("Node"),
               "name" := String(node.name), "uid" := String(node.uid)])
  }

  /** An object brought up to date with a scan: annotations are merged, zones and attributes replaced, and the
      owner set when the node is known. */
  function Refreshed(cfg: Config, nrt: Nrt, info: MonitorInfo): Nrt {
    nrt.(annotations := (nrt.annotations + info.annotations)[Annotations.RTE_UPDATE := info.UpdateReason()],
         zones := info.zones,
         attributes := info.attributes + MakeAttributes(cfg),
         owners := if nrt.name in cfg.nodes then [OwnerReference(cfg.nodes[nrt.name])] else nrt.owners)
  }

  function Fresh(host: string): Nrt {
    Nrt(host, 0, map[], [], map[], map[], None, [])
  }

  // ---------- the API server, for the one object named after the host ----------

  datatype Outcome = Acked | ReplyLost | Rejected
  datatype Foreign = Put(doc: Nrt) | Delete
  datatype Server = Server(stored: Option<Nrt>, clock: nat)

  ghost predicate ValidServer(host: string, s: Server) {
    s.stored.Some? ==> Valid(s.stored.value) && s.stored.value.name == host && s.stored.value.version <= s.clock
  }

  /** Storing an object gives it a new resource version, unless nothing changed. */
  function Commit(s: Server, doc: Nrt): Server {
    if s.stored == Some(doc) then s else Server(Some(doc.(version := s.clock + 1)), s.clock + 1)
  }

  function Interfere(host: string, s: Server, acts: seq<Foreign>): Server {
    if acts == [] then s else
    var before := Interfere(host, s, acts[..|acts| - 1]);
    match acts[|acts| - 1]
    case Delete => before.(stored := None)
    case Put(doc) => if Valid(doc) && doc.name == host then Commit(before, doc) else before
  }

  /** A server's new state, and the object the client is told of: none for an error or a lost reply. */
  datatype Served = Served(server: Server, reply: Option<Nrt>)

  function Answer(s: Server, o: Outcome): Served {
    Served(s, if o.Acked? then s.stored else None)
  }

  function ServePatch(s: Server, patch: Json, o: Outcome): Served {
    if o.Rejected? || s.stored.None? then Served(s, None) else
    var doc := Apply(Encode(s.stored.value), patch);
    if WellFormed(doc) then Answer(Commit(s, Decode(doc)), o) else Served(s, None)
  }

  /** The same request in typed terms, for a patch made from `src` to `dst`. */
  function ServeMerge(s: Server, src: Nrt, dst: Nrt, o: Outcome): Served {
    if o.Rejected? || s.stored.None? then Served(s, None)
    else Answer(Commit(s, Patched(src, dst, s.stored.value)), o)
  }

  /** On the wire a patch made from one object, sent against whatever is stored, is never refused as invalid and has
      its typed effect. */
  lemma {:induction false} PatchServed(s: Server, src: Nrt, dst: Nrt, o: Outcome)
    requires Valid(src) && Valid(dst) && Edits(src, dst)
    requires s.stored.Some? ==> Valid(s.stored.value)
    ensures ServePatch(s, Diff(Encode(src), Encode(dst)), o) == ServeMerge(s, src, dst, o)
  {
    if s.stored.Some? {
      PatchEffect(src, dst, s.stored.value);
    }
  }

  function ServeCreate(s: Server, doc: Nrt, o: Outcome): Served {
    if o.Rejected? || s.stored.Some? then Served(s, None) else Answer(Commit(s, doc), o)
  }

  /** An update carries the resource version it was read at, and is refused if the object moved on. */
  function ServeUpdate(s: Server, doc: Nrt, o: Outcome): Served {
    if o.Rejected? || s.stored.None? || s.stored.value.version != doc.version then Served(s, None)
    else Answer(Commit(s, doc), o)
  }

  /** The API server as an object the client calls. */
  class ApiServer {
    const host: string
    var state: Server

    constructor (host: string, state: Server)
      ensures this.host == host && this.state == state
    {
      this.host := host;
      this.state := state;
    }

    ghost predicate Valid()
      reads this
    {
      ValidServer(host, state)
    }

    method Pass(acts: seq<Foreign>)
      requires Valid()
      modifies this
      ensures Valid() && state == Interfere(host, old(state), acts)
    {
      InterfereMoves(host, state, acts);
      state := Interfere(host, state, acts);
    }

    /** The server sees only the patch; `src` and `dst` are the objects it was made from. */
    method Patch(patch: Json, ghost src: Nrt, ghost dst: Nrt, o: Outcome) returns (reply: Option<Nrt>)
      requires Valid() && patch == Diff(Encode(src), Encode(dst))
      requires NrtDocument.Valid(src) && NrtDocument.Valid(dst) && Edits(src, dst)
      modifies this
      ensures Valid() && Served(state, reply) == ServeMerge(old(state), src, dst, o)
    {
      PatchServed(state, src, dst, o);
      var served := ServePatch(state, patch, o);
      state, reply := served.server, served.reply;
    }

    /** Refused, without a trace, if the object is there already; otherwise the object is stored under a version never
        used before, and the client is told of it unless the reply is lost. */
    method Create(doc: Nrt, o: Outcome) returns (reply: Option<Nrt>)
      modifies this
      ensures old(state).stored.Some? || o.Rejected? ==> state == old(state) && reply.None?
      ensures old(state).stored.None? && !o.Rejected? ==>
                && state.clock == old(state).clock + 1
                && state.stored == Some(doc.(version := state.clock))
                && reply == if o.Acked? then state.stored else None
    {
      var served := ServeCreate(state, doc, o);
      state, reply := served.server, served.reply;
    }

    /** Refused, without a trace, if the object is gone or has another version than the one it was read at: what was not
        read is not overwritten. Otherwise the object is stored, under a new version if it changes anything. */
    method Update(doc: Nrt, o: Outcome) returns (reply: Option<Nrt>)
      modifies this
      ensures old(state).stored.None? || o.Rejected? ==> state == old(state) && reply.None?
      ensures old(state).stored.Some? && old(state).stored.value.version != doc.version ==>
                state == old(state) && reply.None?
      ensures old(state).stored.Some? && old(state).stored.value.version == doc.version && !o.Rejected? ==>
                && state.stored.Some? && state.stored.value == doc.(version := state.stored.value.version)
                && (old(state).stored.value == doc ==> state == old(state))
                && (old(state).stored.value != doc ==>
                      state.stored.value.version == state.clock == old(state).clock + 1)
                && reply == if o.Acked? then state.stored else None
    {
      var served := ServeUpdate(state, doc, o);
      state, reply := served.server, served.reply;
    }
  }

  /** Other writers keep the server valid, and leave the object alone or give it a later version. */
  lemma {:induction false} InterfereMoves(host: string, s: Server, acts: seq<Foreign>)
    requires ValidServer(host, s)
    ensures var t := Interfere(host, s, acts);
            && ValidServer(host, t) && s.clock <= t.clock
            && (t.stored == s.stored || t.stored.None? || t.stored.value.version > s.clock)
  {
    if acts != [] {
      InterfereMoves(host, s, acts[..|acts| - 1]);
    }
  }

  lemma {:induction false} RefreshedEdits(cfg: Config, n: Nrt, info: MonitorInfo)
    requires Valid(n)
    ensures Valid(Refreshed(cfg, n, info)) && Edits(n, Refreshed(cfg, n, info))
  {
  }

  // ---------- one send, as the client's and the server's new state ----------

  datatype Client = Client(prev: Option<Nrt>, patchCount: nat)
  datatype Verb = PatchVerb | GetVerb | CreateVerb | UpdateVerb

  /** What happens around the requests of one send. */
  datatype Env = Env(
    beforePatch: seq<Foreign>, patch: Outcome,
    beforeGet: seq<Foreign>, getOk: bool,
    beforePut: seq<Foreign>, put: Outcome)

  /** `verbs` are the requests issued, `foreign` the acts of other writers during the send. */
  datatype Sent = Sent(client: Client, server: Server, reply: Option<Nrt>, verbs: seq<Verb>, foreign: seq<Foreign>)

  ghost predicate ValidClient(host: string, c: Client) {
    c.prev.Some? ==> Valid(c.prev.value) && c.prev.value.name == host
  }

  predicate NeedsResync(cfg: Config, c: Client) {
    cfg.patchResync > 0 && c.patchCount >= cfg.patchResync
  }

  /** get, then create or update. */
  function SendUpdate(cfg: Config, c: Client, s: Server, info: MonitorInfo, env: Env): Sent {
    var s1 := Interfere(cfg.host, s, env.beforeGet);
    if !env.getOk then Sent(c, s1, None, [GetVerb], env.beforeGet) else
    var s2 := Interfere(cfg.host, s1, env.beforePut);
    if s1.stored.None? then
      var served := ServeCreate(s2, Refreshed(cfg, Fresh(cfg.host), info), env.put);
      Sent(c, served.server, served.reply, [GetVerb, CreateVerb], env.beforeGet + env.beforePut)
    else
      var served := ServeUpdate(s2, Refreshed(cfg, s1.stored.value, info), env.put);
      Sent(c, served.server, served.reply, [GetVerb, UpdateVerb], env.beforeGet + env.beforePut)
  }

  /** The fallback of the patch mode: a full update that, once acknowledged, restarts the cache. */
  function Resync(cfg: Config, c: Client, s: Server, info: MonitorInfo, env: Env): Sent {
    var full := SendUpdate(cfg, c, s, info, env);
    if full.reply.Some? then full.(client := Client(full.reply, 0)) else full
  }

  function SendPatch(cfg: Config, c: Client, s: Server, info: MonitorInfo, env: Env): Sent {
    var s1 := Interfere(cfg.host, s, env.beforePatch);
    if NeedsResync(cfg, c) || c.prev.None? then
      var full := Resync(cfg, c, s1, info, env);
      full.(foreign := env.beforePatch + full.foreign)
    else
      var served := ServeMerge(s1, c.prev.value, Refreshed(cfg, c.prev.value, info), env.patch);
      if served.reply.Some? then
        Sent(Client(served.reply, c.patchCount + 1), served.server, served.reply, [PatchVerb], env.beforePatch)
      else
        var full := Resync(cfg, c, served.server, info, env);
        full.(verbs := [PatchVerb] + full.verbs, foreign := env.beforePatch + full.foreign)
  }

  // ---------- the updater ----------

  /** The library is asked for a three-way patch with one document as both base and current. */
  method MakeNRTPatch(nrtOld: Nrt, nrtNew: Nrt) returns (patch: Json)
    ensures patch == Diff(Encode(nrtOld), Encode(nrtNew))
  {
    var oldJSON, newJSON := Encode(nrtOld), Encode(nrtNew);
    ThreeWayIsTwoWay(oldJSON, newJSON);
    patch := ThreeWay(oldJSON, newJSON, oldJSON).value;
  }

  class NrtUpdater {
    const cfg: Config
    var prevNRT: Option<Nrt>
    var patchCount: nat

    ghost predicate Valid()
      reads this
    {
      ValidClient(cfg.host, View())
    }

    ghost function View(): Client
      reads this
    {
      Client(prevNRT, patchCount)
    }

    constructor (cfg: Config)
      ensures this.cfg == cfg && View() == Client(None, 0)
    {
      this.cfg := cfg;
      prevNRT, patchCount := None, 0;
    }

    method UpdateNRTInfo(nrt: Nrt, info: MonitorInfo) returns (out: Nrt)
      ensures out == Refreshed(cfg, nrt, info).(owners := nrt.owners)
    {
      var annotations := Annotations.Merge([nrt.annotations, info.annotations]);
      Annotations.MergedTwo(nrt.annotations, info.annotations);
      annotations := annotations[Annotations.RTE_UPDATE := info.UpdateReason()];
      out := nrt.(annotations := annotations, zones := info.zones, attributes := info.attributes + MakeAttributes(cfg));
    }

    method UpdateOwnerReferences(nrt: Nrt) returns (out: Nrt)
      ensures out == nrt.(owners := out.owners)
      ensures nrt.name in cfg.nodes ==> out.owners == [OwnerReference(cfg.nodes[nrt.name])]
      ensures nrt.name !in cfg.nodes ==> out.owners == nrt.owners
    {
      out := nrt;
      if nrt.name in cfg.nodes {
        out := out.(owners := [OwnerReference(cfg.nodes[nrt.name])]);
      }
    }

    method PatchNRT(cli: ApiServer, info: MonitorInfo, env: Env) returns (reply: Option<Nrt>)
      requires Valid() && cli.Valid() && cli.host == cfg.host
      modifies this`prevNRT, cli
      ensures Valid() && cli.Valid()
      ensures prevNRT == if reply.Some? then reply else old(prevNRT)
      ensures old(prevNRT).None? ==> reply.None? && cli.state == old(cli.state)
      ensures old(prevNRT).Some? ==>
                var src := old(prevNRT).value;
                Served(cli.state, reply) == ServeMerge(old(cli.state), src, Refreshed(cfg, src, info), env.patch)
    {
      if prevNRT.None? {
        return None;
      }
      var nrtNew := UpdateNRTInfo(prevNRT.value, info);
      nrtNew := UpdateOwnerReferences(nrtNew);
      var patch := MakeNRTPatch(prevNRT.value, nrtNew);
      RefreshedEdits(cfg, prevNRT.value, info);
      reply := cli.Patch(patch, prevNRT.value, nrtNew, env.patch);
      if reply.Some? {
        prevNRT := reply;
      }
    }

    method SendObjectUpdate(cli: ApiServer, info: MonitorInfo, env: Env) returns (reply: Option<Nrt>)
      requires Valid() && cli.Valid() && cli.host == cfg.host
      modifies cli
      ensures Valid() && cli.Valid() && (reply.Some? ==> reply == cli.state.stored)
      ensures var sent := SendUpdate(cfg, View(), old(cli.state), info, env);
              cli.state == sent.server && reply == sent.reply
    {
      cli.Pass(env.beforeGet);
      if !env.getOk {
        return None;
      }
      var got := cli.state.stored;
      cli.Pass(env.beforePut);
      if got.None? {
        var nrtNew := UpdateNRTInfo(Fresh(cfg.host), info);
        nrtNew := UpdateOwnerReferences(nrtNew);
        reply := cli.Create(nrtNew, env.put);
      } else {
        RefreshedEdits(cfg, got.value, info);
        var nrtMutated := UpdateNRTInfo(got.value, info);
        nrtMutated := UpdateOwnerReferences(nrtMutated);
        reply := cli.Update(nrtMutated, env.put);
      }
    }

    method SendObjectPatch(cli: ApiServer, info: MonitorInfo, env: Env) returns (reply: Option<Nrt>)
      requires Valid() && cli.Valid() && cli.host == cfg.host
      modifies this, cli
      ensures Valid() && cli.Valid()
      ensures var sent := SendPatch(cfg, old(View()), old(cli.state), info, env);
              View() == sent.client && cli.state == sent.server && reply == sent.reply
    {
      cli.Pass(env.beforePatch);
      if !NeedsResync(cfg, Client(prevNRT, patchCount)) {
        reply := PatchNRT(cli, info, env);
        if reply.Some? {
          patchCount := patchCount + 1;
          return;
        }
      }
      reply := SendObjectUpdate(cli, info, env);
      if reply.Some? {
        prevNRT := reply;
        patchCount := 0;
      }
    }

    /** With `noPublish` nothing is sent and the send counts as a success. */
    method Update(cli: ApiServer, info: MonitorInfo, env: Env) returns (ok: bool)
      requires Valid() && cli.Valid() && cli.host == cfg.host
      modifies this, cli
      ensures Valid() && cli.Valid()
      ensures cfg.noPublish ==> ok && View() == old(View()) && cli.state == old(cli.state)
      ensures !cfg.noPublish ==>
                var send := if cfg.patchMode then SendPatch else SendUpdate;
                var sent := send(cfg, old(View()), old(cli.state), info, env);
                View() == sent.client && cli.state == sent.server && ok == sent.reply.Some?
    {
      if cfg.noPublish {
        return true;
      }
      var reply;
      if cfg.patchMode {
        reply := SendObjectPatch(cli, info, env);
      } else {
        reply := SendObjectUpdate(cli, info, env);
        assert SendUpdate(cfg, View(), old(cli.state), info, env).client == View();
      }
      ok := reply.Some?;
    }
  }
}
