/**
 The condition injector: a cache of the last conditions written lets it skip writes to the pod status. It reads the pod,
 replaces or appends the condition, and writes the pod back; others write the same status in between.
 */
module ConditionInjector {
  import opened Wrappers

  datatype Condition = Condition(kind: string, status: string, reason: string, message: string, transitionTime: int)

  /** Equal but for the timestamps. */
  predicate Equal(a: Condition, b: Condition) {
    a.kind == b.kind && a.status == b.status && a.reason == b.reason && a.message == b.message
  }

  // ---------- the pod status and its server ----------

  /** The index of the first condition of the kind, or the number of conditions. */
  function IndexOf(conditions: seq<Condition>, kind: string): (i: nat)
    ensures i <= |conditions|
    ensures i < |conditions| ==> conditions[i].kind == kind
    ensures forall j :: 0 <= j < i ==> conditions[j].kind != kind
  {
    if conditions == [] then 0 else
    var i := IndexOf(conditions[..|conditions| - 1], kind);
    if i == |conditions| - 1 && conditions[i].kind != kind then |conditions| else i
  }

  function With(conditions: seq<Condition>, c: Condition): seq<Condition> {
    var i := IndexOf(conditions, c.kind);
    if i < |conditions| then conditions[i := c] else conditions + [c]
  }

  /** The conditions of one kind, in order; and all the others, in order. */
  function OfKind(conditions: seq<Condition>, kind: string): seq<Condition> {
    if conditions == [] then [] else
    var last := conditions[|conditions| - 1];
    OfKind(conditions[..|conditions| - 1], kind) + if last.kind == kind then [last] else []
  }

  function Others(conditions: seq<Condition>, kind: string): seq<Condition> {
    if conditions == [] then [] else
    var last := conditions[|conditions| - 1];
    Others(conditions[..|conditions| - 1], kind) + if last.kind == kind then [] else [last]
  }

  datatype Outcome = Acked | ReplyLost | Rejected
  datatype Server = Server(conditions: seq<Condition>, version: nat)

  /** Other writers replace the conditions, each time with a new version. */
  function Interfere(s: Server, acts: seq<seq<Condition>>): Server {
    if acts == [] then s else
    var before := Interfere(s, acts[..|acts| - 1]);
    Server(acts[|acts| - 1], before.version + 1)
  }

  /** A status update carries the version it was read at and is refused if the pod moved on. */
  function UpdateStatus(s: Server, conditions: seq<Condition>, version: nat, o: Outcome): (Server, bool) {
    if o.Rejected? || s.version != version then (s, false)
    else (Server(conditions, s.version + 1), o.Acked?)
  }

  datatype Env = Env(beforeGet: seq<seq<Condition>>, getOk: bool, beforeUpdate: seq<seq<Condition>>, update: Outcome)
  datatype State = State(cache: map<string, Condition>, server: Server)
  datatype Injected = Injected(state: State, ok: bool)

  predicate Cached(cache: map<string, Condition>, c: Condition) {
    c.kind in cache && Equal(cache[c.kind], c)
  }

  /** One call of Inject, as the new cache, the new server and its result. */
  function Injecting(st: State, c: Condition, env: Env): Injected {
    if Cached(st.cache, c) then Injected(st, true) else
    var read := Interfere(st.server, env.beforeGet);
    if !env.getOk then Injected(st.(server := read), false) else
    var moved := Interfere(read, env.beforeUpdate);
    var (after, ok) := UpdateStatus(moved, With(read.conditions, c), read.version, env.update);
    Injected(State(if ok then st.cache[c.kind := c] else st.cache, after), ok)
  }

  class ApiServer {
    var state: Server

    constructor (state: Server)
      ensures this.state == state
    {
      this.state := state;
    }

    method Pass(acts: seq<seq<Condition>>)
      modifies this
      ensures state == Interfere(old(state), acts)
    {
      state := Interfere(state, acts);
    }

    method Update(conditions: seq<Condition>, version: nat, o: Outcome) returns (ok: bool)
      modifies this
      ensures (state, ok) == UpdateStatus(old(state), conditions, version, o)
    {
      var (after, done) := UpdateStatus(state, conditions, version, o);
      state, ok := after, done;
    }
  }

  class Injector {
    var lastUpdate: map<string, Condition>

    constructor ()
      ensures lastUpdate == map[]
    {
      lastUpdate := map[];
    }

    method Inject(cs: ApiServer, cond: Condition, env: Env) returns (ok: bool)
      modifies this, cs
      ensures Injected(State(lastUpdate, cs.state), ok) ==
              Injecting(State(old(lastUpdate), old(cs.state)), cond, env)
    {
      if cond.kind in lastUpdate && Equal(lastUpdate[cond.kind], cond) {
        return true;
      }
      cs.Pass(env.beforeGet);
      if !env.getOk {
        return false;
      }
      var pod := cs.state;
      var conditions := pod.conditions;
      var pos := 0;
      while pos < |conditions| && conditions[pos].kind != cond.kind
        modifies {}
        invariant pos <= |conditions| && forall j :: 0 <= j < pos ==> conditions[j].kind != cond.kind
      {
        pos := pos + 1;
      }
      if pos < |conditions| {
        conditions := conditions[pos := cond];
      } else {
        conditions := conditions + [cond];
      }
      assert conditions == With(pod.conditions, cond);
      cs.Pass(env.beforeUpdate);
      ok := cs.Update(conditions, pod.version, env.update);
      if ok {
        lastUpdate := lastUpdate[cond.kind := cond];
      }
    }
  }

  // ---------- what one write does ----------

  lemma {:induction false} OfKindSnoc(cs: seq<Condition>, c: Condition, kind: string)
    ensures OfKind(cs + [c], kind) == OfKind(cs, kind) + if c.kind == kind then [c] else []
    ensures Others(cs + [c], kind) == Others(cs, kind) + if c.kind == kind then [] else [c]
  {
    assert (cs + [c])[..|cs|] == cs;
  }

  /** Adding at the end does not move the write, unless it is the first of its kind. */
  lemma {:induction false} WithSnoc(front: seq<Condition>, last: Condition, c: Condition)
    ensures With(front + [last], c) ==
            if IndexOf(front, c.kind) < |front| then With(front, c) + [last]
            else if last.kind == c.kind then front + [c] else front + [last] + [c]
  {
    assert (front + [last])[..|front|] == front;
  }

  lemma {:induction false} IndexNone(cs: seq<Condition>, kind: string)
    ensures IndexOf(cs, kind) == |cs| <==> OfKind(cs, kind) == []
  {
    if cs != [] {
      IndexNone(cs[..|cs| - 1], kind);
    }
  }

  /** Conditions of one kind after a write of that kind: the first is replaced, or it is the only one. */
  function Replaced(kin: seq<Condition>, c: Condition): seq<Condition> {
    if kin == [] then [c] else kin[0 := c]
  }

  lemma {:induction false} ReplacedSnoc(kin: seq<Condition>, x: Condition, c: Condition)
    requires kin != []
    ensures Replaced(kin + [x], c) == Replaced(kin, c) + [x]
  {
  }

  /** What a write makes of the conditions of any kind. */
  function Written(kin: seq<Condition>, c: Condition, kind: string): seq<Condition> {
    if kind != c.kind then kin else Replaced(kin, c)
  }

  /** Writing a condition changes the first of its kind, or adds one; every other kind stays as it was. */
  lemma {:induction false} WithMeaning(cs: seq<Condition>, c: Condition, kind: string)
    ensures OfKind(With(cs, c), kind) == Written(OfKind(cs, kind), c, kind)
  {
    if cs == [] {
      assert With(cs, c) == [] + [c];
      OfKindSnoc([], c, kind);
    } else {
      var front, last := cs[..|cs| - 1], cs[|cs| - 1];
      assert cs == front + [last];
      if IndexOf(front, c.kind) < |front| {
        WithMeaning(front, c, kind);
        WithLater(front, last, c, kind);
      } else {
        WithFirst(front, last, c, kind);
      }
    }
  }

  lemma {:induction false} WithLater(front: seq<Condition>, last: Condition, c: Condition, kind: string)
    requires IndexOf(front, c.kind) < |front| && OfKind(With(front, c), kind) == Written(OfKind(front, kind), c, kind)
    ensures OfKind(With(front + [last], c), kind) == Written(OfKind(front + [last], kind), c, kind)
  {
    WithSnoc(front, last, c);
    IndexNone(front, c.kind);
    OfKindSnoc(With(front, c), last, kind);
    OfKindSnoc(front, last, kind);
    if kind == c.kind && last.kind == kind { ReplacedSnoc(OfKind(front, kind), last, c); }
  }

  lemma {:induction false} WithFirst(front: seq<Condition>, last: Condition, c: Condition, kind: string)
    requires IndexOf(front, c.kind) == |front|
    ensures OfKind(With(front + [last], c), kind) == Written(OfKind(front + [last], kind), c, kind)
  {
    WithSnoc(front, last, c);
    IndexNone(front, c.kind);
    OfKindSnoc(front, last, kind);
    OfKindSnoc(front, last, c.kind);
    if last.kind == c.kind {
      OfKindSnoc(front, c, kind);
      assert Replaced([last], c) == [c];
    } else {
      OfKindSnoc(front + [last], c, kind);
    }
  }

  /** Everything of another kind stays as it was, in order. */
  lemma {:induction false} WithOthers(cs: seq<Condition>, c: Condition)
    ensures Others(With(cs, c), c.kind) == Others(cs, c.kind)
  {
    if cs == [] {
      OfKindSnoc([], c, c.kind);
    } else {
      var front, last := cs[..|cs| - 1], cs[|cs| - 1];
      assert cs == front + [last];
      WithSnoc(front, last, c);
      if IndexOf(front, c.kind) < |front| {
        WithOthers(front, c);
        OfKindSnoc(With(front, c), last, c.kind);
      } else {
        OfKindSnoc(front, c, c.kind);
        OfKindSnoc(cs, c, c.kind);
      }
    }
  }

  /** The write is in place: the first condition of the kind is replaced where it stands, or one is added at the end. */
  lemma {:induction false} WithInPlace(cs: seq<Condition>, c: Condition, i: nat)
    ensures (forall j :: 0 <= j < |cs| ==> cs[j].kind != c.kind) ==> With(cs, c) == cs + [c]
    ensures i < |cs| && cs[i].kind == c.kind && (forall j :: 0 <= j < i ==> cs[j].kind != c.kind) ==>
              With(cs, c) == cs[i := c]
  {
    var at := IndexOf(cs, c.kind);
    if at < |cs| { assert cs[at].kind == c.kind; }
  }

  /** What one call comes to. A condition that differs from the one cached for its type in timestamps at most is not
      written, and that is a success. Any other call succeeds if and only if the read does, nobody writes between the
      read and the write, and the write is acknowledged; then, and also when the reply is lost, the condition is on
      the server, and only then in the cache. */
  lemma {:induction false} InjectOutcome(st: State, c: Condition, env: Env)
    ensures var r := Injecting(st, c, env);
            var left := Interfere(st.server, env.beforeGet);
            if c.kind in st.cache && st.cache[c.kind].kind == c.kind && st.cache[c.kind].status == c.status &&
               st.cache[c.kind].reason == c.reason && st.cache[c.kind].message == c.message
            then r == Injected(st, true)
            else && (r.ok <==> env.getOk && env.beforeUpdate == [] && env.update == Acked)
                 && r.state.cache == (if r.ok then st.cache[c.kind := c] else st.cache)
                 && (env.getOk && env.beforeUpdate == [] && env.update != Rejected ==>
                       r.state.server == Server(With(left.conditions, c), left.version + 1))
  {
    var left := Interfere(st.server, env.beforeGet);
    InterfereAppend(left, env.beforeUpdate, []);
    assert Interfere(left, []) == left;
  }

  // ---------- agreement of the cache with the server ----------

  /** For every cached kind, the first condition of that kind on the server is the cached one, timestamps aside. */
  predicate Agrees(st: State) {
    forall k :: k in st.cache ==>
      st.cache[k].kind == k && OfKind(st.server.conditions, k) != [] &&
      Equal(OfKind(st.server.conditions, k)[0], st.cache[k])
  }

  /** The writers keep their hands off these kinds, starting from these conditions. */
  ghost predicate Spares(own: set<string>, conditions: seq<Condition>, acts: seq<seq<Condition>>) {
    forall i, k :: 0 <= i < |acts| && k in own ==> OfKind(acts[i], k) == OfKind(conditions, k)
  }

  lemma {:induction false} InterfereSpares(own: set<string>, s: Server, acts: seq<seq<Condition>>, k: string)
    requires Spares(own, s.conditions, acts) && k in own
    ensures OfKind(Interfere(s, acts).conditions, k) == OfKind(s.conditions, k)
    ensures Interfere(s, acts).version == s.version + |acts|
  {
    if acts != [] {
      InterfereSpares(own, s, acts[..|acts| - 1], k);
      assert OfKind(acts[|acts| - 1], k) == OfKind(s.conditions, k);
    }
  }

  /** The writers during one call leave the injector's own kinds alone. */
  ghost predicate Polite(own: set<string>, st: State, env: Env) {
    && Spares(own, st.server.conditions, env.beforeGet)
    && Spares(own, Interfere(st.server, env.beforeGet).conditions, env.beforeUpdate)
  }

  /** One call, whatever fails, as seen by one of the injector's own kinds. */
  lemma {:induction false} InjectEffect(own: set<string>, st: State, c: Condition, env: Env, k: string)
    requires Polite(own, st, env) && c.kind in own && k in own
    ensures var r := Injecting(st, c, env);
            var had := OfKind(st.server.conditions, k);
            var has := OfKind(r.state.server.conditions, k);
            && (k != c.kind || Cached(st.cache, c) ==> has == had)
            && (k == c.kind && has != had ==> has == Replaced(had, c))
            && (r.ok && k == c.kind && !Cached(st.cache, c) ==>
                  has != [] && has[0] == c && r.state.cache == st.cache[k := c])
            && (!r.ok && !env.update.ReplyLost? ==> has == had)
            && (!r.ok ==> r.state.cache == st.cache)
  {
    var read := Interfere(st.server, env.beforeGet);
    InterfereSpares(own, st.server, env.beforeGet, k);
    InterfereSpares(own, read, env.beforeUpdate, k);
    WithMeaning(read.conditions, c, k);
  }

  datatype Call = Call(c: Condition, env: Env)

  function Run(st: State, calls: seq<Call>): State {
    if calls == [] then st else
    var last := calls[|calls| - 1];
    Injecting(Run(st, calls[..|calls| - 1]), last.c, last.env).state
  }

  /** Calls for the injector's own kinds, with polite writers, whatever becomes of the updates. */
  ghost predicate PoliteRun(own: set<string>, st: State, calls: seq<Call>) {
    calls == [] ||
    var last := calls[|calls| - 1];
    && PoliteRun(own, st, calls[..|calls| - 1])
    && last.c.kind in own && Polite(own, Run(st, calls[..|calls| - 1]), last.env)
  }

  /** Such calls with failures that have no effect. */
  ghost predicate Sound(own: set<string>, st: State, calls: seq<Call>) {
    PoliteRun(own, st, calls) && forall i :: 0 <= i < |calls| ==> !calls[i].env.update.ReplyLost?
  }

  lemma {:induction false} InjectKeeps(own: set<string>, st: State, c: Condition, env: Env)
    requires Agrees(st) && st.cache.Keys <= own && c.kind in own && Polite(own, st, env) && !env.update.ReplyLost?
    ensures var r := Injecting(st, c, env);
            && Agrees(r.state) && r.state.cache.Keys <= own
            && (r.ok ==> OfKind(r.state.server.conditions, c.kind) != [] &&
                         Equal(OfKind(r.state.server.conditions, c.kind)[0], c))
  {
    var r := Injecting(st, c, env);
    InjectEffect(own, st, c, env, c.kind);
    forall k | k in r.state.cache
      ensures r.state.cache[k].kind == k && OfKind(r.state.server.conditions, k) != [] &&
              Equal(OfKind(r.state.server.conditions, k)[0], r.state.cache[k])
    {
      if k in own { InjectEffect(own, st, c, env, k); }
    }
  }

  /** In every sound run from an empty cache the cache agrees with the server, so a call that returns success, even one
      that skipped the write, leaves the condition asked for first of its kind on the server, timestamps aside. */
  lemma {:induction false} AgreementAlways(own: set<string>, s: Server, calls: seq<Call>)
    requires Sound(own, State(map[], s), calls)
    ensures var st := Run(State(map[], s), calls);
            && Agrees(st) && st.cache.Keys <= own
            && (calls != [] ==>
                  var last := calls[|calls| - 1];
                  Injecting(Run(State(map[], s), calls[..|calls| - 1]), last.c, last.env).ok ==>
                    OfKind(st.server.conditions, last.c.kind) != [] &&
                    Equal(OfKind(st.server.conditions, last.c.kind)[0], last.c))
  {
    if calls != [] {
      var last := calls[|calls| - 1];
      AgreementAlways(own, s, calls[..|calls| - 1]);
      InjectKeeps(own, Run(State(map[], s), calls[..|calls| - 1]), last.c, last.env);
    }
  }

  /** A kind that is unique on the server, or not there yet, stays so in every run with polite writers, whatever is in
      the cache and whichever replies are lost. */
  lemma {:induction false} UniquenessKept(own: set<string>, st: State, calls: seq<Call>, k: string)
    requires PoliteRun(own, st, calls) && k in own && |OfKind(st.server.conditions, k)| <= 1
    ensures |OfKind(Run(st, calls).server.conditions, k)| <= 1
  {
    if calls != [] {
      var last := calls[|calls| - 1];
      UniquenessKept(own, st, calls[..|calls| - 1], k);
      InjectEffect(own, Run(st, calls[..|calls| - 1]), last.c, last.env, k);
    }
  }

  // ---------- no update of another writer is lost ----------

  /** What other writers do during one call: a skipped call gives them no time, a failed read ends it early. */
  function Meanwhile(st: State, c: Condition, env: Env): seq<seq<Condition>> {
    if Cached(st.cache, c) then [] else if !env.getOk then env.beforeGet else env.beforeGet + env.beforeUpdate
  }

  lemma {:induction false} InterfereAppend(s: Server, a: seq<seq<Condition>>, b: seq<seq<Condition>>)
    ensures Interfere(s, a + b) == Interfere(Interfere(s, a), b)
    ensures Interfere(s, a).version == s.version + |a|
  {
    if b != [] {
      InterfereAppend(s, a, b[..|b| - 1]);
      assert (a + b)[..|a + b| - 1] == a + b[..|b| - 1];
    } else {
      assert a + b == a;
      if a != [] { InterfereAppend(s, a[..|a| - 1], []); }
    }
  }

  /** One call, against any writers before the read and between the read and the write, and any outcome: the server
      holds what those writers left, or that with the condition written into it. */
  lemma {:induction false} InjectServed(st: State, c: Condition, env: Env)
    ensures var left := Interfere(st.server, Meanwhile(st, c, env));
            var after := Injecting(st, c, env).state.server;
            after == left || after == Server(With(left.conditions, c), left.version + 1)
  {
    var read := Interfere(st.server, env.beforeGet);
    InterfereAppend(st.server, env.beforeGet, env.beforeUpdate);
    InterfereAppend(read, env.beforeUpdate, []);
  }

  /** Whoever writes during a call, whatever they write and whatever fails, all conditions of other kinds end up
      exactly as the other writers left them, in order: reading and writing back loses none of their updates. */
  lemma {:induction false} OthersUntouched(st: State, c: Condition, env: Env)
    ensures Others(Injecting(st, c, env).state.server.conditions, c.kind) ==
            Others(Interfere(st.server, Meanwhile(st, c, env)).conditions, c.kind)
  {
    InjectServed(st, c, env);
    WithOthers(Interfere(st.server, Meanwhile(st, c, env)).conditions, c);
  }

  /** All that other writers did during a run, in order. */
  function Acts(st: State, calls: seq<Call>): seq<seq<Condition>> {
    if calls == [] then [] else
    var front, last := calls[..|calls| - 1], calls[|calls| - 1];
    Acts(st, front) + Meanwhile(Run(st, front), last.c, last.env)
  }

  lemma {:induction false} InterfereSameKind(a: Server, b: Server, acts: seq<seq<Condition>>, k: string)
    requires OfKind(a.conditions, k) == OfKind(b.conditions, k)
    ensures OfKind(Interfere(a, acts).conditions, k) == OfKind(Interfere(b, acts).conditions, k)
  {
  }

  /** Over every run, against any writers: the conditions of a kind the injector is never asked for are those the other
      writers would have left on their own. */
  lemma {:induction false} ForeignKindsSurvive(st: State, calls: seq<Call>, k: string)
    requires forall i :: 0 <= i < |calls| ==> calls[i].c.kind != k
    ensures OfKind(Run(st, calls).server.conditions, k) == OfKind(Interfere(st.server, Acts(st, calls)).conditions, k)
  {
    if calls != [] {
      var front, last := calls[..|calls| - 1], calls[|calls| - 1];
      var mid, done := Run(st, front), Acts(st, front);
      var more := Meanwhile(mid, last.c, last.env);
      ForeignKindsSurvive(st, front, k);
      InterfereSameKind(mid.server, Interfere(st.server, done), more, k);
      InterfereAppend(st.server, done, more);
      InjectServed(mid, last.c, last.env);
      WithMeaning(Interfere(mid.server, more).conditions, last.c, k);
    }
  }

  // ---------- lost replies ----------

  /** A status update that took effect but whose reply was lost keeps the cache in agreement exactly when its kind was
      not cached: the cache then still believes in the previous condition. */
  lemma {:induction false} LostReplyAgreesIff(st: State, c: Condition)
    requires Agrees(st) && !Cached(st.cache, c)
    ensures Agrees(Injecting(st, c, Env([], true, [], ReplyLost)).state) <==> c.kind !in st.cache
  {
    var env := Env([], true, [], ReplyLost);
    var after := Injecting(st, c, env).state;
    assert Interfere(st.server, []) == st.server;
    forall k
      ensures OfKind(after.server.conditions, k) ==
              if k != c.kind then OfKind(st.server.conditions, k)
              else Replaced(OfKind(st.server.conditions, k), c)
    {
      WithMeaning(st.server.conditions, c, k);
    }
    if c.kind in st.cache {
      assert OfKind(after.server.conditions, c.kind)[0] == c;
      assert !Equal(c, st.cache[c.kind]);
    }
  }

  /** And then asking for the previous condition again reports success without restoring it. */
  lemma {:induction false} LostReplyMisleads(st: State, c: Condition, again: Env)
    requires Agrees(st) && c.kind in st.cache && !Cached(st.cache, c)
    ensures var lost := Injecting(st, c, Env([], true, [], ReplyLost)).state;
            var r := Injecting(lost, st.cache[c.kind], again);
            && r.ok && OfKind(r.state.server.conditions, c.kind) != []
            && !Equal(OfKind(r.state.server.conditions, c.kind)[0], st.cache[c.kind])
  {
    assert Interfere(st.server, []) == st.server;
    WithMeaning(st.server.conditions, c, c.kind);
  }
}
