/**
 The daemon's pipeline: the observer scans on every event and hands the result to the updater; both report pod
 conditions to the injector. The three run concurrently over unbuffered channels; here they interleave step by step.
 */
module Pipeline {
  import opened Wrappers

  /** `readiness`: pod conditions are reported at all. */
  datatype Config = Config(readiness: bool, oneshot: bool, exposeTiming: bool)

  /** A pass of the observer, tagged with the event that caused it. */
  datatype Observer =
    | ObserverIdle | Scanning(e: int) | ReportingFailure(e: int)
    | HandingOver(e: int, annotations: map<string, string>) | ReportingSuccess(e: int)
  datatype Updater = UpdaterIdle | Updating(e: int) | ReportingUpdate(e: int, ok: bool)
  datatype Injector = InjectorIdle | Injecting(c: Condition)

  datatype Condition = PodresourcesFetched(status: bool) | NodeTopologyUpdated(status: bool)

  datatype Outcome = Outcome(e: int, ok: bool)

  /** The logs hold, in order, the events taken, the scans and updates finished, the scans handed over and their
      annotations, and the conditions the injector received. */
  datatype State = State(
    observer: Observer, updater: Updater, injector: Injector, panicked: bool,
    events: seq<int>, scans: seq<Outcome>, handed: seq<int>, infos: seq<map<string, string>>,
    updates: seq<Outcome>, conditions: seq<Condition>)

  /** A map of annotations, or a nil map: what a scan comes back with, the latter along with an error. */
  type Annotations = Option<map<string, string>>

  datatype Action =
    | EventArrives(e: int)                                              // from outside
    | ScanEnds(found: Annotations, sleep: string, interval: string)     // observer
    | ReportFailure | HandOver | ReportSuccess
    | UpdateEnds(ok: bool) | ReportUpdated                              // updater
    | InjectEnds                                                        // injector

  const SLEEP_DURATION := "k8stopoawareschedwg/sleep-duration"
  const UPDATE_INTERVAL := "k8stopoawareschedwg/update-interval"

  datatype Written = Panic | Written(annotations: Annotations)

  /** Assigning to an entry of a nil map panics. */
  function Write(m: Annotations, key: string, value: string): Written {
    if m.None? then Panic else Written(Some(m.value[key := value]))
  }

  /** What the observer does to the annotations of a scan, before it looks at the scan's error. */
  function WithTiming(cfg: Config, found: Annotations, sleep: string, interval: string): Written {
    if !cfg.exposeTiming then Written(found) else
    match Write(found, SLEEP_DURATION, sleep)
    case Panic => Panic
    case Written(annotations) => Write(annotations, UPDATE_INTERVAL, interval)
  }

  /** A report is a hand-off to the injector, or nothing when conditions are not reported. */
  predicate CanReport(cfg: Config, s: State) { !cfg.readiness || s.injector.InjectorIdle? }

  /** A panic ends the process: nothing is enabled any more. */
  predicate Enabled(cfg: Config, s: State, act: Action) {
    !s.panicked &&
    match act
    case EventArrives(_) => s.observer.ObserverIdle?
    case ScanEnds(_, _, _) => s.observer.Scanning?
    case ReportFailure => s.observer.ReportingFailure? && CanReport(cfg, s)
    case HandOver => s.observer.HandingOver? && s.updater.UpdaterIdle?
    case ReportSuccess => s.observer.ReportingSuccess? && CanReport(cfg, s)
    case UpdateEnds(_) => s.updater.Updating?
    case ReportUpdated => s.updater.ReportingUpdate? && CanReport(cfg, s)
    case InjectEnds => s.injector.Injecting?
  }

  function Report(cfg: Config, s: State, c: Condition): State {
    if cfg.readiness then s.(injector := Injecting(c), conditions := s.conditions + [c]) else s
  }

  /** A oneshot updater skips its report and goes on. */
  function Step(cfg: Config, s: State, act: Action): State {
    if !Enabled(cfg, s, act) then s else
    match act
    case EventArrives(e) => s.(observer := Scanning(e), events := s.events + [e])
    case ScanEnds(found, sleep, interval) =>
      var e, timed := s.observer.e, WithTiming(cfg, found, sleep, interval);
      s.(observer := if timed.Written? && timed.annotations.Some? && found.Some?
                     then HandingOver(e, timed.annotations.value) else ReportingFailure(e),
         scans := s.scans + [Outcome(e, found.Some?)],
         panicked := timed.Panic?)
    case ReportFailure => Report(cfg, s, PodresourcesFetched(false)).(observer := ObserverIdle)
    case HandOver =>
      s.(observer := ReportingSuccess(s.observer.e), updater := Updating(s.observer.e),
         handed := s.handed + [s.observer.e], infos := s.infos + [s.observer.annotations])
    case ReportSuccess => Report(cfg, s, PodresourcesFetched(true)).(observer := ObserverIdle)
    case UpdateEnds(ok) =>
      s.(updater := if cfg.oneshot then UpdaterIdle else ReportingUpdate(s.updater.e, ok),
         updates := s.updates + [Outcome(s.updater.e, ok)])
    case ReportUpdated => Report(cfg, s, NodeTopologyUpdated(s.updater.ok)).(updater := UpdaterIdle)
    case InjectEnds => s.(injector := InjectorIdle)
  }

  const START := State(ObserverIdle, UpdaterIdle, InjectorIdle, false, [], [], [], [], [], [])

  function Run(cfg: Config, s: State, acts: seq<Action>): State {
    if acts == [] then s else Step(cfg, Run(cfg, s, acts[..|acts| - 1]), acts[|acts| - 1])
  }

  // ---------- projections of the logs ----------

  function Sources(log: seq<Outcome>): seq<int> {
    if log == [] then [] else Sources(log[..|log| - 1]) + [log[|log| - 1].e]
  }

  function Results(log: seq<Outcome>): seq<bool> {
    if log == [] then [] else Results(log[..|log| - 1]) + [log[|log| - 1].ok]
  }

  /** The events whose scan succeeded. */
  function Good(log: seq<Outcome>): seq<int> {
    if log == [] then [] else
    Good(log[..|log| - 1]) + if log[|log| - 1].ok then [log[|log| - 1].e] else []
  }

  function Fetched(conditions: seq<Condition>): seq<bool> {
    if conditions == [] then [] else
    var last := conditions[|conditions| - 1];
    Fetched(conditions[..|conditions| - 1]) + if last.PodresourcesFetched? then [last.status] else []
  }

  function Updated(conditions: seq<Condition>): seq<bool> {
    if conditions == [] then [] else
    var last := conditions[|conditions| - 1];
    Updated(conditions[..|conditions| - 1]) + if last.NodeTopologyUpdated? then [last.status] else []
  }

  function Trues(bs: seq<bool>): nat {
    if bs == [] then 0 else Trues(bs[..|bs| - 1]) + if bs[|bs| - 1] then 1 else 0
  }

  lemma {:induction false} SnocOutcome(log: seq<Outcome>, o: Outcome)
    ensures Sources(log + [o]) == Sources(log) + [o.e]
    ensures Results(log + [o]) == Results(log) + [o.ok]
    ensures Good(log + [o]) == Good(log) + if o.ok then [o.e] else []
  {
    assert (log + [o])[..|log|] == log;
  }

  lemma {:induction false} SnocCondition(cs: seq<Condition>, c: Condition)
    ensures Fetched(cs + [c]) == Fetched(cs) + if c.PodresourcesFetched? then [c.status] else []
    ensures Updated(cs + [c]) == Updated(cs) + if c.NodeTopologyUpdated? then [c.status] else []
  {
    assert (cs + [c])[..|cs|] == cs;
  }

  lemma {:induction false} SnocTrue(bs: seq<bool>, b: bool)
    ensures Trues(bs + [b]) == Trues(bs) + if b then 1 else 0
  {
    assert (bs + [b])[..|bs|] == bs;
  }

  // ---------- what every run keeps ----------

  /** The scan result not yet reported. */
  function UnreportedScan(s: State): seq<bool> {
    if s.observer.ReportingFailure? then [false]
    else if s.observer.HandingOver? || s.observer.ReportingSuccess? then [true] else []
  }

  function UnreportedUpdate(s: State): seq<bool> {
    if s.updater.ReportingUpdate? then [s.updater.ok] else []
  }

  /** Every event is scanned, every good scan handed over, every scan handed over is sent, in order. */
  predicate FlowInv(s: State) {
    ScanFlow(s) && HandFlow(s) && SendFlow(s)
  }

  predicate ScanFlow(s: State) {
    s.events == Sources(s.scans) + if s.observer.Scanning? then [s.observer.e] else []
  }

  predicate HandFlow(s: State) {
    Good(s.scans) == s.handed + if s.observer.HandingOver? then [s.observer.e] else []
  }

  predicate SendFlow(s: State) {
    s.handed == Sources(s.updates) + if s.updater.Updating? then [s.updater.e] else []
  }

  /** Every scan is reported once, in order. */
  predicate ScanReports(cfg: Config, s: State) {
    if cfg.readiness then Results(s.scans) == Fetched(s.conditions) + UnreportedScan(s)
    else s.conditions == []
  }

  /** Every update is reported once, in order; a oneshot updater reports nothing. */
  predicate UpdateReports(cfg: Config, s: State) {
    && (cfg.readiness && !cfg.oneshot ==> Results(s.updates) == Updated(s.conditions) + UnreportedUpdate(s))
    && (cfg.oneshot ==> Updated(s.conditions) == [] && !s.updater.ReportingUpdate?)
  }

  /** The process is gone exactly when timing is exposed and the last scan failed. */
  predicate CrashInv(cfg: Config, s: State) {
    && (s.panicked ==> cfg.exposeTiming && s.scans != [] && !s.scans[|s.scans| - 1].ok && s.observer.ReportingFailure?)
    && (cfg.exposeTiming && !s.panicked ==> forall i :: 0 <= i < |s.scans| ==> s.scans[i].ok)
  }

  lemma {:induction false} StepScanFlow(cfg: Config, s: State, act: Action)
    requires ScanFlow(s)
    ensures ScanFlow(Step(cfg, s, act))
  {
    if act.ScanEnds? && Enabled(cfg, s, act) {
      SnocOutcome(s.scans, Outcome(s.observer.e, act.found.Some?));
    }
  }

  lemma {:induction false} StepHandFlow(cfg: Config, s: State, act: Action)
    requires HandFlow(s)
    ensures HandFlow(Step(cfg, s, act))
  {
    if act.ScanEnds? && Enabled(cfg, s, act) {
      SnocOutcome(s.scans, Outcome(s.observer.e, act.found.Some?));
    }
  }

  lemma {:induction false} StepSendFlow(cfg: Config, s: State, act: Action)
    requires SendFlow(s)
    ensures SendFlow(Step(cfg, s, act))
  {
    if act.UpdateEnds? && Enabled(cfg, s, act) {
      SnocOutcome(s.updates, Outcome(s.updater.e, act.ok));
    }
  }

  lemma {:induction false} ScanEndsReports(cfg: Config, s: State, act: Action)
    requires ScanReports(cfg, s) && act.ScanEnds? && Enabled(cfg, s, act)
    ensures ScanReports(cfg, Step(cfg, s, act))
  {
    SnocOutcome(s.scans, Outcome(s.observer.e, act.found.Some?));
    assert Fetched(s.conditions) + [] == Fetched(s.conditions);
  }

  lemma {:induction false} ReportReports(cfg: Config, s: State, act: Action)
    requires ScanReports(cfg, s) && Enabled(cfg, s, act) && (act.ReportFailure? || act.ReportSuccess?)
    ensures ScanReports(cfg, Step(cfg, s, act))
  {
    var c := PodresourcesFetched(act.ReportSuccess?);
    SnocCondition(s.conditions, c);
    assert UnreportedScan(s) == [c.status];
  }

  lemma {:induction false} StepScanReports(cfg: Config, s: State, act: Action)
    requires ScanReports(cfg, s)
    ensures ScanReports(cfg, Step(cfg, s, act))
  {
    if Enabled(cfg, s, act) {
      if act.ScanEnds? {
        ScanEndsReports(cfg, s, act);
      } else if act.ReportFailure? || act.ReportSuccess? {
        ReportReports(cfg, s, act);
      } else if act.ReportUpdated? {
        UpdatedReports(cfg, s);
      }
    }
  }

  lemma {:induction false} UpdatedReports(cfg: Config, s: State)
    requires ScanReports(cfg, s) && Enabled(cfg, s, ReportUpdated)
    ensures ScanReports(cfg, Step(cfg, s, ReportUpdated))
  {
    SnocCondition(s.conditions, NodeTopologyUpdated(s.updater.ok));
    assert Fetched(s.conditions) + [] == Fetched(s.conditions);
  }

  lemma {:induction false} StepUpdateReports(cfg: Config, s: State, act: Action)
    requires UpdateReports(cfg, s)
    ensures UpdateReports(cfg, Step(cfg, s, act))
  {
    if Enabled(cfg, s, act) {
      if act.UpdateEnds? {
        SnocOutcome(s.updates, Outcome(s.updater.e, act.ok));
      } else if act.ReportFailure? || act.ReportSuccess? {
        SnocCondition(s.conditions, PodresourcesFetched(act.ReportSuccess?));
        assert Updated(s.conditions) + [] == Updated(s.conditions);
      } else if act.ReportUpdated? {
        SnocCondition(s.conditions, NodeTopologyUpdated(s.updater.ok));
      }
    }
  }

  lemma {:induction false} StepCrash(cfg: Config, s: State, act: Action)
    requires CrashInv(cfg, s)
    ensures CrashInv(cfg, Step(cfg, s, act))
  {
  }

  lemma {:induction false} Always(cfg: Config, acts: seq<Action>)
    ensures FlowInv(Run(cfg, START, acts)) && CrashInv(cfg, Run(cfg, START, acts))
    ensures ScanReports(cfg, Run(cfg, START, acts)) && UpdateReports(cfg, Run(cfg, START, acts))
  {
    if acts != [] {
      var s, act := Run(cfg, START, acts[..|acts| - 1]), acts[|acts| - 1];
      Always(cfg, acts[..|acts| - 1]);
      StepScanFlow(cfg, s, act);
      StepHandFlow(cfg, s, act);
      StepSendFlow(cfg, s, act);
      StepScanReports(cfg, s, act);
      StepUpdateReports(cfg, s, act);
      StepCrash(cfg, s, act);
    }
  }

  // ---------- the run, from its actions alone ----------

  /** The events that came when the observer was ready for one. */
  function Arrivals(cfg: Config, acts: seq<Action>): seq<int> {
    if acts == [] then [] else
    var front, act := acts[..|acts| - 1], acts[|acts| - 1];
    Arrivals(cfg, front) + if act.EventArrives? && Enabled(cfg, Run(cfg, START, front), act) then [act.e] else []
  }

  /** What the scans that took place came to. */
  function ScanResults(cfg: Config, acts: seq<Action>): seq<bool> {
    if acts == [] then [] else
    var front, act := acts[..|acts| - 1], acts[|acts| - 1];
    ScanResults(cfg, front) +
    if act.ScanEnds? && Enabled(cfg, Run(cfg, START, front), act) then [act.found.Some?] else []
  }

  /** The annotations found by those that succeeded, with the timing if it is exposed. */
  function Annotated(cfg: Config, acts: seq<Action>): seq<map<string, string>> {
    if acts == [] then [] else
    var front, act := acts[..|acts| - 1], acts[|acts| - 1];
    Annotated(cfg, front) +
    if act.ScanEnds? && act.found.Some? && Enabled(cfg, Run(cfg, START, front), act) then
      [if !cfg.exposeTiming then act.found.value
       else act.found.value["k8stopoawareschedwg/sleep-duration" := act.sleep]
                           ["k8stopoawareschedwg/update-interval" := act.interval]]
    else []
  }

  /** What the updates that took place came to. */
  function UpdateResults(cfg: Config, acts: seq<Action>): seq<bool> {
    if acts == [] then [] else
    var front, act := acts[..|acts| - 1], acts[|acts| - 1];
    UpdateResults(cfg, front) + if act.UpdateEnds? && Enabled(cfg, Run(cfg, START, front), act) then [act.ok] else []
  }

  function Unhanded(s: State): seq<map<string, string>> {
    if s.observer.HandingOver? then [s.observer.annotations] else []
  }

  lemma {:induction false} StepTold(cfg: Config, s: State, act: Action)
    ensures var t, on := Step(cfg, s, act), Enabled(cfg, s, act);
            && t.events == s.events + (if act.EventArrives? && on then [act.e] else [])
            && Results(t.scans) == Results(s.scans) + (if act.ScanEnds? && on then [act.found.Some?] else [])
            && Results(t.updates) == Results(s.updates) + (if act.UpdateEnds? && on then [act.ok] else [])
  {
    if act.ScanEnds? && Enabled(cfg, s, act) {
      SnocOutcome(s.scans, Outcome(s.observer.e, act.found.Some?));
    }
    if act.UpdateEnds? && Enabled(cfg, s, act) {
      SnocOutcome(s.updates, Outcome(s.updater.e, act.ok));
    }
    assert s.events + [] == s.events && Results(s.scans) + [] == Results(s.scans);
    assert Results(s.updates) + [] == Results(s.updates);
  }

  lemma {:induction false} StepAnnotates(cfg: Config, s: State, act: Action)
    ensures var t := Step(cfg, s, act);
            t.infos + Unhanded(t) ==
            s.infos + Unhanded(s) +
            if act.ScanEnds? && act.found.Some? && Enabled(cfg, s, act) then
              [if !cfg.exposeTiming then act.found.value
               else act.found.value["k8stopoawareschedwg/sleep-duration" := act.sleep]
                                   ["k8stopoawareschedwg/update-interval" := act.interval]]
            else []
  {
    assert s.infos + Unhanded(s) + [] == s.infos + Unhanded(s);
    if act.HandOver? && Enabled(cfg, s, act) {
      assert s.infos + [s.observer.annotations] + [] == s.infos + [s.observer.annotations];
    } else if act.ScanEnds? && Enabled(cfg, s, act) {
      assert s.infos + [] == s.infos;
    }
  }

  /** In every run the logs tell what happened: the events that came, what the scans and the updates came to, and the
      annotations handed over. */
  lemma {:induction false} LogsAreTrue(cfg: Config, acts: seq<Action>)
    ensures var s := Run(cfg, START, acts);
            && s.events == Arrivals(cfg, acts)
            && Results(s.scans) == ScanResults(cfg, acts) && Results(s.updates) == UpdateResults(cfg, acts)
            && s.infos + Unhanded(s) == Annotated(cfg, acts)
  {
    if acts != [] {
      var front, act := acts[..|acts| - 1], acts[|acts| - 1];
      LogsAreTrue(cfg, front);
      StepTold(cfg, Run(cfg, START, front), act);
      StepAnnotates(cfg, Run(cfg, START, front), act);
    }
  }

  lemma {:induction false} ResultsAt(log: seq<Outcome>)
    ensures |Results(log)| == |log| && forall i :: 0 <= i < |log| ==> Results(log)[i] == log[i].ok
  {
    if log != [] { ResultsAt(log[..|log| - 1]); }
  }

  /** The process panics in a run exactly when timing is exposed and some scan fails: the timing is written to the nil
      map of the failed scan. Nothing happens after that. */
  lemma {:induction false} CrashIff(cfg: Config, acts: seq<Action>)
    ensures var s := Run(cfg, START, acts);
            && (s.panicked <==> cfg.exposeTiming && false in ScanResults(cfg, acts))
            && (s.panicked ==> forall act :: Step(cfg, s, act) == s)
  {
    Always(cfg, acts);
    LogsAreTrue(cfg, acts);
    var s := Run(cfg, START, acts);
    ResultsAt(s.scans);
    if s.panicked { assert Results(s.scans)[|s.scans| - 1] == false; }
  }

  // ---------- progress ----------

  predicate AllIdle(s: State) {
    s.observer.ObserverIdle? && s.updater.UpdaterIdle? && s.injector.InjectorIdle?
  }

  /** The three wait for an event, or the process is gone. */
  predicate Drained(s: State) { AllIdle(s) || s.panicked }

  /** A step one of the three can take without outside input. */
  function Ready(s: State): Option<Action> {
    if s.panicked then None
    else if s.injector.Injecting? then Some(InjectEnds)
    else match s.updater
      case Updating(_) => Some(UpdateEnds(true))
      case ReportingUpdate(_, _) => Some(ReportUpdated)
      case UpdaterIdle =>
        match s.observer
        case ObserverIdle => None
        case Scanning(_) => Some(ScanEnds(None, "", ""))
        case ReportingFailure(_) => Some(ReportFailure)
        case HandingOver(_, _) => Some(HandOver)
        case ReportingSuccess(_) => Some(ReportSuccess)
  }

  /** Steps left until all is idle, if no event arrives. */
  function Measure(s: State): nat {
    (match s.observer case ObserverIdle => 0 case Scanning(_) => 10 case HandingOver(_, _) => 9
                      case ReportingFailure(_) => 3 case ReportingSuccess(_) => 3)
    + (match s.updater case UpdaterIdle => 0 case Updating(_) => 4 case ReportingUpdate(_, _) => 3)
    + (if s.injector.Injecting? then 1 else 0)
  }

  /** Any step but the arrival of an event brings the pipeline closer to being drained. */
  lemma {:induction false} StepDrains(cfg: Config, s: State, act: Action)
    requires Enabled(cfg, s, act) && !act.EventArrives?
    ensures Measure(Step(cfg, s, act)) < Measure(s)
  {
  }

  /** Every action of the run is enabled when it comes, and none is a new event. */
  predicate OnItsOwn(cfg: Config, s: State, acts: seq<Action>) {
    acts == [] ||
    var front, act := acts[..|acts| - 1], acts[|acts| - 1];
    OnItsOwn(cfg, s, front) && Enabled(cfg, Run(cfg, s, front), act) && !act.EventArrives?
  }

  lemma {:induction false} RunDrains(cfg: Config, s: State, acts: seq<Action>)
    requires OnItsOwn(cfg, s, acts)
    ensures |acts| + Measure(Run(cfg, s, acts)) <= Measure(s)
  {
    if acts != [] {
      RunDrains(cfg, s, acts[..|acts| - 1]);
      StepDrains(cfg, Run(cfg, s, acts[..|acts| - 1]), acts[|acts| - 1]);
    }
  }

  /** The three never deadlock: from any state, reachable or not, whatever scans and updates come to and in whatever
      order the three take turns, every run without a new event is over after a bounded number of steps, and one that
      cannot go on has drained the pipeline, unless the process panicked. */
  lemma {:induction false} NeverDeadlocks(cfg: Config, s: State, acts: seq<Action>)
    requires OnItsOwn(cfg, s, acts)
    ensures var t := Run(cfg, s, acts);
            && |acts| + Measure(t) <= Measure(s)
            && ((forall act :: Enabled(cfg, t, act) ==> act.EventArrives?) ==> Drained(t))
  {
    RunDrains(cfg, s, acts);
    var t := Run(cfg, s, acts);
    if !Drained(t) { assert Enabled(cfg, t, Ready(t).value); }
  }

  // ---------- one condition per event, one update per successful scan ----------

  /** The events at the positions where it says so. */
  function Chosen(events: seq<int>, yes: seq<bool>): seq<int>
    requires |yes| <= |events|
  {
    if yes == [] then [] else
    var k := |yes| - 1;
    Chosen(events, yes[..k]) + if yes[k] then [events[k]] else []
  }

  lemma {:induction false} ChosenPrefix(events: seq<int>, more: seq<int>, yes: seq<bool>)
    requires |yes| <= |events|
    ensures Chosen(events + more, yes) == Chosen(events, yes)
  {
    if yes != [] { ChosenPrefix(events, more, yes[..|yes| - 1]); }
  }

  lemma {:induction false} GoodIsChosen(log: seq<Outcome>)
    ensures |Sources(log)| == |Results(log)| == |log|
    ensures Good(log) == Chosen(Sources(log), Results(log))
  {
    if log != [] {
      var front, last := log[..|log| - 1], log[|log| - 1];
      GoodIsChosen(front);
      assert Results(log)[..|front|] == Results(front);
      ChosenPrefix(Sources(front), [last.e], Results(front));
    }
  }

  lemma {:induction false} IdleFlow(s: State)
    requires FlowInv(s) && AllIdle(s)
    ensures s.events == Sources(s.scans) && Good(s.scans) == Sources(s.updates) && Unhanded(s) == []
  {
    assert Sources(s.scans) + [] == Sources(s.scans) && s.handed + [] == s.handed;
    assert Sources(s.updates) + [] == Sources(s.updates);
  }

  lemma {:induction false} IdleReports(cfg: Config, s: State)
    requires ScanReports(cfg, s) && UpdateReports(cfg, s) && AllIdle(s) && cfg.readiness && !cfg.oneshot
    ensures Results(s.scans) == Fetched(s.conditions) && Results(s.updates) == Updated(s.conditions)
  {
    assert Fetched(s.conditions) + [] == Fetched(s.conditions) && Updated(s.conditions) + [] == Updated(s.conditions);
  }

  /** Whenever all is idle: every event that came gave exactly one scan and one PodresourcesFetched condition with
      what the scan came to; every scan that succeeded exactly one update, with its annotations, and one
      NodeTopologyUpdated condition with what the update came to; all in order. */
  lemma {:induction false} ExactlyOnce(cfg: Config, acts: seq<Action>)
    requires cfg.readiness && !cfg.oneshot && AllIdle(Run(cfg, START, acts))
    ensures var s := Run(cfg, START, acts);
            && |ScanResults(cfg, acts)| == |Arrivals(cfg, acts)|
            && Fetched(s.conditions) == ScanResults(cfg, acts)
            && Sources(s.updates) == Chosen(Arrivals(cfg, acts), ScanResults(cfg, acts))
            && s.infos == Annotated(cfg, acts) && |UpdateResults(cfg, acts)| == |Sources(s.updates)|
            && Updated(s.conditions) == UpdateResults(cfg, acts)
  {
    var s := Run(cfg, START, acts);
    Always(cfg, acts);
    IdleFlow(s);
    IdleReports(cfg, s);
    LogsAreTrue(cfg, acts);
    GoodIsChosen(s.scans);
    GoodIsChosen(s.updates);
    assert s.infos + Unhanded(s) == s.infos;
  }

  /** The conditions the injector has worked off. */
  function WorkedOff(cfg: Config, acts: seq<Action>): seq<Condition> {
    if acts == [] then [] else
    var front, act := acts[..|acts| - 1], acts[|acts| - 1];
    var s := Run(cfg, START, front);
    WorkedOff(cfg, front) + if act.InjectEnds? && Enabled(cfg, s, act) then [s.injector.c] else []
  }

  function AtInjector(s: State): seq<Condition> { if s.injector.Injecting? then [s.injector.c] else [] }

  lemma {:induction false} StepInjects(cfg: Config, s: State, act: Action, done: seq<Condition>)
    requires s.conditions == done + AtInjector(s) && (cfg.readiness || s.injector.InjectorIdle?)
    ensures var t := Step(cfg, s, act);
            && (cfg.readiness || t.injector.InjectorIdle?)
            && t.conditions ==
               done + (if act.InjectEnds? && Enabled(cfg, s, act) then [s.injector.c] else []) + AtInjector(t)
  {
    assert done + [] == done;
    if act.InjectEnds? && Enabled(cfg, s, act) {
      assert done + [s.injector.c] + [] == done + [s.injector.c];
    } else {
      assert s.injector.InjectorIdle? ==> done + AtInjector(s) == done;
    }
  }

  /** No condition is dropped or overtaken on its way to the injector: those received are those worked off, and the
      one it is working on, in order. */
  lemma {:induction false} InjectorTakesAll(cfg: Config, acts: seq<Action>)
    ensures var s := Run(cfg, START, acts);
            s.conditions == WorkedOff(cfg, acts) + AtInjector(s) && (cfg.readiness || s.injector.InjectorIdle?)
  {
    if acts != [] {
      InjectorTakesAll(cfg, acts[..|acts| - 1]);
      StepInjects(cfg, Run(cfg, START, acts[..|acts| - 1]), acts[|acts| - 1], WorkedOff(cfg, acts[..|acts| - 1]));
    }
  }

  lemma {:induction false} GoodCount(log: seq<Outcome>)
    ensures |Good(log)| == Trues(Results(log)) && |Sources(log)| == |Results(log)| == |log|
  {
    if log != [] {
      GoodCount(log[..|log| - 1]);
      SnocTrue(Results(log[..|log| - 1]), log[|log| - 1].ok);
    }
  }

  /** At every moment the successful PodresourcesFetched conditions and the NodeTopologyUpdated ones differ by at
      most one. */
  lemma {:induction false} ConditionsInStep(cfg: Config, acts: seq<Action>)
    requires cfg.readiness && !cfg.oneshot
    ensures var s := Run(cfg, START, acts);
            -1 <= Trues(Fetched(s.conditions)) - |Updated(s.conditions)| <= 1
  {
    var s := Run(cfg, START, acts);
    Always(cfg, acts);
    GoodCount(s.scans);
    GoodCount(s.updates);
    if UnreportedScan(s) != [] {
      SnocTrue(Fetched(s.conditions), UnreportedScan(s)[0]);
      assert UnreportedScan(s) == [UnreportedScan(s)[0]];
    } else {
      assert Fetched(s.conditions) + [] == Fetched(s.conditions);
    }
  }

  /** Nothing is reported before it is done: at every moment there are no more successful PodresourcesFetched conditions
      than scans handed over, and no more NodeTopologyUpdated ones than updates that took place. */
  lemma {:induction false} ReportedWhenDone(cfg: Config, acts: seq<Action>)
    requires cfg.readiness && !cfg.oneshot
    ensures var s := Run(cfg, START, acts);
            && Trues(Fetched(s.conditions)) <= |s.handed|
            && |Updated(s.conditions)| <= |UpdateResults(cfg, acts)|
  {
    var s := Run(cfg, START, acts);
    Always(cfg, acts);
    LogsAreTrue(cfg, acts);
    GoodCount(s.scans);
    if UnreportedScan(s) != [] {
      SnocTrue(Fetched(s.conditions), UnreportedScan(s)[0]);
      assert UnreportedScan(s) == [UnreportedScan(s)[0]];
    } else {
      assert Fetched(s.conditions) + [] == Fetched(s.conditions);
    }
  }

  /** A oneshot updater does not stop after its first update: the loop goes on, every successful scan is sent, and only
      the condition is skipped. */
  lemma {:induction false} OneshotGoesOn(cfg: Config, acts: seq<Action>)
    requires cfg.oneshot
    ensures var s := Run(cfg, START, acts);
            && Updated(s.conditions) == []
            && s.handed == Sources(s.updates) + (if s.updater.Updating? then [s.updater.e] else [])
            && (AllIdle(s) ==>
                  && |ScanResults(cfg, acts)| == |Arrivals(cfg, acts)|
                  && Sources(s.updates) == Chosen(Arrivals(cfg, acts), ScanResults(cfg, acts))
                  && forall e :: Enabled(cfg, s, EventArrives(e)))
  {
    var s := Run(cfg, START, acts);
    Always(cfg, acts);
    LogsAreTrue(cfg, acts);
    GoodIsChosen(s.scans);
    if AllIdle(s) { IdleFlow(s); }
  }
}
