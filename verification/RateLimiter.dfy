/**
 The rate limiter between an event source and its reader, as the interleaved steps of the source, the receiver
 and sender goroutines, and the caller of Stop and Wait. Unbuffered channels are hand-offs, the buffer channel a queue.
 */
module RateLimiter {
  import opened Wrappers

  datatype Event = Event(timestamp: int, timerInterval: int)

  const BUFFER_SIZE: nat := 5

  /** The source sends one initial event, then waits for ticks, files and stop; once stopped it signals and ends. */
  datatype Source = Sending(e: Event) | Selecting | Signalling | SourceEnded
  datatype Receiver = Receiving | Holding(e: Event) | ReceiverSignalling | ReceiverEnded
  datatype Sender = Polling | Limiting(e: Event) | Delivering(e: Event) | SenderSignalling | SenderEnded
  /** Where the caller of Stop and then Wait stands. */
  datatype Stopper =
    | NotStopping | StopSource | AwaitSource | StopReceiver | StopSender | AwaitReceiver | AwaitSender | Stopped

  /** What the receiver did with an event; a lost one records how many had been delivered by then, and how many the
      sender had taken from the buffer. */
  datatype Verdict = Kept(e: Event) | Lost(e: Event, delivered: nat, taken: nat)

  datatype State = State(
    source: Source, receiver: Receiver, sender: Sender, stopper: Stopper,
    buffer: seq<Event>, receiverDone: nat, senderDone: nat,
    produced: seq<Event>, log: seq<Verdict>, delivered: seq<Event>)

  datatype Action =
    | Trigger(e: Event) | CallStop                                       // from outside
    | Handoff | Store | Poll | Take | Deliver                            // events
    | SourceStops | SourceSignals | ReceiverStops | SenderStops          // stopping
    | ReceiverSignals | SenderSignals | ReceiverAwaited | SenderAwaited

  predicate Outside(act: Action) { act.Trigger? || act.CallStop? }

  predicate Enabled(s: State, act: Action) {
    match act
    case Trigger(_) => s.source.Selecting?
    case CallStop => s.stopper.NotStopping?
    case Handoff => s.source.Sending? && s.receiver.Receiving?
    case Store => s.receiver.Holding?
    case Poll => s.sender.Polling? && s.buffer != []
    case Take => s.sender.Limiting?
    case Deliver => s.sender.Delivering?
    case SourceStops => s.stopper.StopSource? && s.source.Selecting?
    case SourceSignals => s.stopper.AwaitSource? && s.source.Signalling?
    case ReceiverStops => s.stopper.StopReceiver? && s.receiver.Receiving?
    case SenderStops => s.stopper.StopSender? && s.sender.Polling?
    case ReceiverSignals => s.receiver.ReceiverSignalling? && s.receiverDone < 1
    case SenderSignals => s.sender.SenderSignalling? && s.senderDone < 1
    case ReceiverAwaited => s.stopper.AwaitReceiver? && s.receiverDone > 0
    case SenderAwaited => s.stopper.AwaitSender? && s.senderDone > 0
  }

  /** An action that is not enabled changes nothing. */
  function Step(s: State, act: Action): State {
    if !Enabled(s, act) then s else
    match act
    case Trigger(e) => s.(source := Sending(e))
    case CallStop => s.(stopper := StopSource)
    case Handoff => s.(source := Selecting, receiver := Holding(s.source.e), produced := s.produced + [s.source.e])
    case Store =>
      if |s.buffer| < BUFFER_SIZE
      then s.(receiver := Receiving, buffer := s.buffer + [s.receiver.e], log := s.log + [Kept(s.receiver.e)])
      else s.(receiver := Receiving,
              log := s.log + [Lost(s.receiver.e, |s.delivered|, |s.delivered| + |InSender(s)|)])
    case Poll => s.(sender := Limiting(s.buffer[0]), buffer := s.buffer[1..])
    case Take => s.(sender := Delivering(s.sender.e))
    case Deliver => s.(sender := Polling, delivered := s.delivered + [s.sender.e])
    case SourceStops => s.(source := Signalling, stopper := AwaitSource)
    case SourceSignals => s.(source := SourceEnded, stopper := StopReceiver)
    case ReceiverStops => s.(receiver := ReceiverSignalling, stopper := StopSender)
    case SenderStops => s.(sender := SenderSignalling, stopper := AwaitReceiver)
    case ReceiverSignals => s.(receiver := ReceiverEnded, receiverDone := s.receiverDone + 1)
    case SenderSignals => s.(sender := SenderEnded, senderDone := s.senderDone + 1)
    case ReceiverAwaited => s.(stopper := AwaitSender, receiverDone := s.receiverDone - 1)
    case SenderAwaited => s.(stopper := Stopped, senderDone := s.senderDone - 1)
  }

  function Run(s: State, acts: seq<Action>): State {
    if acts == [] then s else Step(Run(s, acts[..|acts| - 1]), acts[|acts| - 1])
  }

  /** A limiter just started, its source about to send the initial event. */
  function Start(e: Event): State {
    State(Sending(e), Receiving, Polling, NotStopping, [], 0, 0, [], [], [])
  }

  // ---------- no lost wakeups ----------

  function KeptEvents(log: seq<Verdict>): seq<Event> {
    if log == [] then [] else
    KeptEvents(log[..|log| - 1]) + if log[|log| - 1].Kept? then [log[|log| - 1].e] else []
  }

  function AllEvents(log: seq<Verdict>): seq<Event> {
    if log == [] then [] else AllEvents(log[..|log| - 1]) + [log[|log| - 1].e]
  }

  function InSender(s: State): seq<Event> {
    if s.sender.Limiting? || s.sender.Delivering? then [s.sender.e] else []
  }

  function InReceiver(s: State): seq<Event> {
    if s.receiver.Holding? then [s.receiver.e] else []
  }

  /** An event is lost only with five kept events that the sender has not taken, so five are delivered after it. */
  predicate LossCovered(log: seq<Verdict>, i: nat)
    requires i < |log|
  {
    log[i].Lost? ==> |KeptEvents(log[..i])| == log[i].taken + 5 && log[i].taken >= log[i].delivered
  }

  ghost predicate EventsInv(s: State) {
    && |s.buffer| <= BUFFER_SIZE
    && KeptEvents(s.log) == s.delivered + InSender(s) + s.buffer
    && s.produced == AllEvents(s.log) + InReceiver(s)
    && (forall i :: 0 <= i < |s.log| ==> LossCovered(s.log, i))
    && (forall i :: 0 <= i < |s.log| && s.log[i].Lost? ==> s.log[i].delivered <= |s.delivered|)
  }

  lemma {:induction false} SnocVerdict(log: seq<Verdict>, v: Verdict)
    ensures KeptEvents(log + [v]) == KeptEvents(log) + if v.Kept? then [v.e] else []
    ensures AllEvents(log + [v]) == AllEvents(log) + [v.e]
  {
    assert (log + [v])[..|log|] == log;
  }

  lemma {:induction false} SnocLosses(log: seq<Verdict>, v: Verdict)
    requires forall i :: 0 <= i < |log| ==> LossCovered(log, i)
    requires v.Lost? ==> |KeptEvents(log)| == v.taken + 5 && v.taken >= v.delivered
    ensures forall i :: 0 <= i < |log + [v]| ==> LossCovered(log + [v], i)
  {
    var log' := log + [v];
    forall i | 0 <= i < |log'| ensures LossCovered(log', i) {
      assert log'[..i] == log[..i];
      if i < |log| {
        assert LossCovered(log, i);
      } else {
        assert log[..i] == log;
      }
    }
  }

  lemma {:induction false} StoreKeeps(s: State)
    requires EventsInv(s) && Enabled(s, Store)
    ensures EventsInv(Step(s, Store))
  {
    var e, t := s.receiver.e, Step(s, Store);
    var v := if |s.buffer| < BUFFER_SIZE then Kept(e) else Lost(e, |s.delivered|, |s.delivered| + |InSender(s)|);
    assert t.log == s.log + [v];
    SnocVerdict(s.log, v);
    SnocLosses(s.log, v);
    if v.Kept? {
      assert s.delivered + InSender(s) + (s.buffer + [e]) == s.delivered + InSender(s) + s.buffer + [e];
    } else {
      assert KeptEvents(s.log) + [] == KeptEvents(s.log);
    }
    assert AllEvents(t.log) + [] == AllEvents(s.log) + [e];
  }

  lemma {:induction false} MoveKeeps(s: State, act: Action)
    requires EventsInv(s) && Enabled(s, act) && (act.Poll? || act.Deliver? || act.Handoff? || act.Take?)
    ensures EventsInv(Step(s, act))
  {
    if act.Poll? {
      assert s.delivered + [] + s.buffer == s.delivered + [s.buffer[0]] + s.buffer[1..];
    } else if act.Deliver? {
      assert s.delivered + [s.sender.e] + s.buffer == (s.delivered + [s.sender.e]) + [] + s.buffer;
    } else if act.Handoff? {
      assert AllEvents(s.log) + [] == AllEvents(s.log);
    }
  }

  lemma {:induction false} StepKeepsEvents(s: State, act: Action)
    requires EventsInv(s)
    ensures EventsInv(Step(s, act))
  {
    if Enabled(s, act) {
      if act.Store? {
        StoreKeeps(s);
      } else if act.Poll? || act.Deliver? || act.Handoff? || act.Take? {
        MoveKeeps(s, act);
      } else {
        var t := Step(s, act);
        assert t.log == s.log && t.delivered == s.delivered && t.buffer == s.buffer && t.produced == s.produced;
        assert InSender(t) == InSender(s) && InReceiver(t) == InReceiver(s);
      }
    }
  }

  /** In every run at most five events are buffered; what was delivered, then what the sender holds, then the buffer
      is exactly what was produced, in order, less the losses; and each loss came with five kept events not yet taken
      by the sender, so the reader always wakes up again after it. */
  lemma {:induction false} NoLostWakeups(e: Event, acts: seq<Action>)
    ensures EventsInv(Run(Start(e), acts))
  {
    if acts != [] {
      NoLostWakeups(e, acts[..|acts| - 1]);
      StepKeepsEvents(Run(Start(e), acts[..|acts| - 1]), acts[|acts| - 1]);
    }
  }

  lemma {:induction false} KeptMonotone(log: seq<Verdict>, i: nat)
    requires i <= |log|
    ensures |KeptEvents(log[..i])| <= |KeptEvents(log)|
  {
    if i == |log| {
      assert log[..i] == log;
    } else {
      KeptMonotone(log[..|log| - 1], i);
      assert log[..|log| - 1][..i] == log[..i];
    }
  }

  /** Once everything has drained, at least five deliveries came after every loss, and all that was kept was
      delivered. */
  lemma {:induction false} LossesAreFollowed(e: Event, acts: seq<Action>)
    requires Waiting(Run(Start(e), acts))
    ensures var s := Run(Start(e), acts);
            && s.delivered == KeptEvents(s.log)
            && s.produced == AllEvents(s.log)
            && forall i :: 0 <= i < |s.log| && s.log[i].Lost? ==> |s.delivered| >= s.log[i].delivered + BUFFER_SIZE
  {
    var s := Run(Start(e), acts);
    NoLostWakeups(e, acts);
    assert s.delivered + [] + [] == s.delivered && AllEvents(s.log) + [] == AllEvents(s.log);
    forall i | 0 <= i < |s.log| && s.log[i].Lost? ensures |s.delivered| >= s.log[i].delivered + BUFFER_SIZE {
      assert LossCovered(s.log, i);
      KeptMonotone(s.log, i);
    }
  }

  // ---------- the run, from its actions alone ----------

  /** The receiver keeps the event it holds exactly while fewer than five are buffered, in any state at all. */
  lemma {:induction false} KeptWhileRoom(s: State)
    requires s.receiver.Holding?
    ensures var t := Step(s, Store);
            && AllEvents(t.log) == AllEvents(s.log) + [s.receiver.e] && t.receiver.Receiving?
            && KeptEvents(t.log) == KeptEvents(s.log) + (if |s.buffer| < 5 then [s.receiver.e] else [])
            && t.buffer == s.buffer + (if |s.buffer| < 5 then [s.receiver.e] else [])
  {
    var t := Step(s, Store);
    SnocVerdict(s.log, t.log[|s.log|]);
    assert t.log == s.log + [t.log[|s.log|]];
    assert s.buffer + [] == s.buffer;
  }

  /** The events the source had to send: the initial one and every trigger it was ready for. */
  function Emitted(e: Event, acts: seq<Action>): seq<Event> {
    if acts == [] then [e] else
    var front, act := acts[..|acts| - 1], acts[|acts| - 1];
    Emitted(e, front) + if act.Trigger? && Enabled(Run(Start(e), front), act) then [act.e] else []
  }

  /** How often an action took place. */
  function Times(e: Event, acts: seq<Action>, which: Action): nat {
    if acts == [] then 0 else
    var front, act := acts[..|acts| - 1], acts[|acts| - 1];
    Times(e, front, which) + if act == which && Enabled(Run(Start(e), front), act) then 1 else 0
  }

  function AtSource(s: State): seq<Event> { if s.source.Sending? then [s.source.e] else [] }

  lemma {:induction false} StepEmits(s: State, act: Action)
    ensures Step(s, act).produced + AtSource(Step(s, act)) ==
            s.produced + AtSource(s) + if act.Trigger? && Enabled(s, act) then [act.e] else []
  {
    assert s.produced + AtSource(s) + [] == s.produced + AtSource(s);
    if act.Trigger? && Enabled(s, act) { assert s.produced + [] + [act.e] == s.produced + [act.e]; }
    if act.Handoff? && Enabled(s, act) { assert (s.produced + [s.source.e]) + [] == s.produced + [s.source.e]; }
  }

  /** Every event the source had to send is with the receiver, or still with the source, in order. */
  lemma {:induction false} NothingLostOnTheWay(e: Event, acts: seq<Action>)
    ensures Emitted(e, acts) == Run(Start(e), acts).produced + AtSource(Run(Start(e), acts))
  {
    if acts == [] {
      assert [] + [e] == [e];
    } else {
      NothingLostOnTheWay(e, acts[..|acts| - 1]);
      StepEmits(Run(Start(e), acts[..|acts| - 1]), acts[|acts| - 1]);
    }
  }

  lemma {:induction false} StepCounts(s: State, act: Action)
    ensures var t := Step(s, act);
            && |KeptEvents(t.log)| - |t.buffer| ==
               |KeptEvents(s.log)| - |s.buffer| + (if act == Poll && Enabled(s, act) then 1 else 0)
            && |t.delivered| == |s.delivered| + if act == Deliver && Enabled(s, act) then 1 else 0
  {
    if act.Store? && s.receiver.Holding? { KeptWhileRoom(s); }
  }

  /** What the sender has taken and delivered is counted by its own steps; and an event is kept exactly when fewer
      than five of those kept before it have not been taken. */
  lemma {:induction false} KeptIff(e: Event, acts: seq<Action>)
    ensures var s := Run(Start(e), acts);
            && |KeptEvents(s.log)| == Times(e, acts, Poll) + |s.buffer|
            && |s.delivered| == Times(e, acts, Deliver)
            && (s.receiver.Holding? ==>
                  KeptEvents(Step(s, Store).log) ==
                  KeptEvents(s.log) +
                  if |KeptEvents(s.log)| < Times(e, acts, Poll) + 5 then [s.receiver.e] else [])
  {
    var s := Run(Start(e), acts);
    if s.receiver.Holding? { KeptWhileRoom(s); }
    if acts != [] {
      KeptIff(e, acts[..|acts| - 1]);
      StepCounts(Run(Start(e), acts[..|acts| - 1]), acts[|acts| - 1]);
    }
  }

  // ---------- stopping ----------

  /** How far the caller of Stop and Wait has come. */
  function Phase(p: Stopper): nat {
    match p
    case NotStopping => 0 case StopSource => 1 case AwaitSource => 2 case StopReceiver => 3
    case StopSender => 4 case AwaitReceiver => 5 case AwaitSender => 6 case Stopped => 7
  }

  predicate StopInv(s: State) {
    && (s.source.Signalling? <==> s.stopper.AwaitSource?)
    && (s.source.SourceEnded? <==> Phase(s.stopper) >= 3)
    && (s.receiver.ReceiverSignalling? || s.receiver.ReceiverEnded? <==> Phase(s.stopper) >= 4)
    && (s.sender.SenderSignalling? || s.sender.SenderEnded? <==> Phase(s.stopper) >= 5)
    && s.receiverDone == (if s.receiver.ReceiverEnded? && Phase(s.stopper) <= 5 then 1 else 0)
    && s.senderDone == (if s.sender.SenderEnded? && Phase(s.stopper) <= 6 then 1 else 0)
    && (Phase(s.stopper) >= 6 ==> s.receiver.ReceiverEnded?)
    && (Phase(s.stopper) >= 7 ==> s.sender.SenderEnded?)
  }

  lemma {:induction false} StepKeepsStop(s: State, act: Action)
    requires StopInv(s)
    ensures StopInv(Step(s, act))
  {
  }

  lemma {:induction false} AlwaysStopInv(e: Event, acts: seq<Action>)
    ensures StopInv(Run(Start(e), acts))
  {
    if acts != [] {
      AlwaysStopInv(e, acts[..|acts| - 1]);
      StepKeepsStop(Run(Start(e), acts[..|acts| - 1]), acts[|acts| - 1]);
    }
  }

  /** Nothing to do until an event or a stop comes from outside. */
  predicate Waiting(s: State) {
    s.source.Selecting? && s.receiver.Receiving? && s.sender.Polling? && s.buffer == [] && s.stopper.NotStopping?
  }

  /** Stop and Wait have returned, all goroutines have ended, and no done token is left over. */
  predicate Finished(s: State) {
    s.source.SourceEnded? && s.receiver.ReceiverEnded? && s.sender.SenderEnded? && s.stopper.Stopped? &&
    s.receiverDone == s.senderDone == 0
  }

  /** The step some goroutine can take by itself. */
  function Ready(s: State): Option<Action> {
    if s.receiver.Holding? then Some(Store)
    else if s.sender.Limiting? then Some(Take)
    else if s.sender.Delivering? then Some(Deliver)
    else if s.receiver.ReceiverSignalling? then Some(ReceiverSignals)
    else if s.sender.SenderSignalling? then Some(SenderSignals)
    else if s.source.Sending? then Some(Handoff)
    else match s.stopper
      case NotStopping => if s.buffer != [] then Some(Poll) else None
      case StopSource => Some(SourceStops)
      case AwaitSource => Some(SourceSignals)
      case StopReceiver => Some(ReceiverStops)
      case StopSender => Some(SenderStops)
      case AwaitReceiver => Some(ReceiverAwaited)
      case AwaitSender => Some(SenderAwaited)
      case Stopped => None
  }

  /** With a reader that stays, the goroutines never deadlock: in every reachable state one of them can step on its own,
      or all of them wait for outside input, or all is finished. */
  lemma {:induction false} NeverDeadlocks(e: Event, acts: seq<Action>)
    ensures var s := Run(Start(e), acts);
            if Ready(s).Some? then Enabled(s, Ready(s).value) && !Outside(Ready(s).value)
            else Waiting(s) || Finished(s)
  {
    AlwaysStopInv(e, acts);
  }

  // ---------- how long stopping takes ----------

  predicate AllEnabled(s: State, acts: seq<Action>) {
    acts == [] ||
    (AllEnabled(s, acts[..|acts| - 1]) && Enabled(Run(s, acts[..|acts| - 1]), acts[|acts| - 1]))
  }

  /** Events that may still be delivered. */
  function Pending(s: State): nat {
    |s.buffer| + |InSender(s)| + |InReceiver(s)|
  }

  /** Steps left once the source has ended. */
  function Measure(s: State): nat {
    3 * |s.buffer|
    + (match s.receiver case Receiving => 2 case Holding(_) => 6 case ReceiverSignalling => 1 case ReceiverEnded => 0)
    + (match s.sender case Polling => 2 case Limiting(_) => 4 case Delivering(_) => 3
                      case SenderSignalling => 1 case SenderEnded => 0)
    + (7 - Phase(s.stopper))
  }

  lemma {:induction false} StepShrinks(s: State, act: Action)
    requires StopInv(s) && s.source.SourceEnded? && Enabled(s, act)
    ensures var t := Step(s, act);
            && t.source.SourceEnded? && Measure(t) < Measure(s)
            && |t.delivered| + Pending(t) <= |s.delivered| + Pending(s)
  {
  }

  /** Once the source has ended, every run is over after a bounded number of steps and delivers no more than what was
      pending, at most the buffer and one event in each goroutine; and a run that cannot go on has Stop and Wait
      returned, both goroutines ended and no token left. */
  lemma {:induction false} StoppingTerminates(e: Event, before: seq<Action>, acts: seq<Action>)
    requires Run(Start(e), before).source.SourceEnded? && AllEnabled(Run(Start(e), before), acts)
    ensures var s := Run(Start(e), before);
            var t := Run(s, acts);
            && |acts| + Measure(t) <= Measure(s)
            && |t.delivered| <= |s.delivered| + Pending(s) && Pending(s) <= |s.buffer| + 2
            && ((forall act :: !Enabled(t, act)) ==> Finished(t))
  {
    var s := Run(Start(e), before);
    AlwaysStopInv(e, before);
    StoppingShrinks(s, acts);
    var t := Run(s, acts);
    if forall act :: !Enabled(t, act) {
      if Ready(t).Some? { assert Enabled(t, Ready(t).value); }
    }
  }

  lemma {:induction false} StoppingShrinks(s: State, acts: seq<Action>)
    requires StopInv(s) && s.source.SourceEnded? && AllEnabled(s, acts)
    ensures var t := Run(s, acts);
            && StopInv(t) && t.source.SourceEnded? && |acts| + Measure(t) <= Measure(s)
            && |t.delivered| + Pending(t) <= |s.delivered| + Pending(s)
  {
    if acts != [] {
      StoppingShrinks(s, acts[..|acts| - 1]);
      StepShrinks(Run(s, acts[..|acts| - 1]), acts[|acts| - 1]);
      StepKeepsStop(Run(s, acts[..|acts| - 1]), acts[|acts| - 1]);
    }
  }

  // ---------- how many events stopping delivers ----------

  lemma {:induction false} RunAppend(s: State, a: seq<Action>, b: seq<Action>)
    ensures Run(s, a + b) == Run(Run(s, a), b)
    ensures AllEnabled(s, a + b) <==> AllEnabled(s, a) && AllEnabled(Run(s, a), b)
  {
    if b == [] {
      assert a + b == a;
    } else {
      RunAppend(s, a, b[..|b| - 1]);
      assert (a + b)[..|a + b| - 1] == a + b[..|b| - 1];
    }
  }

  /** The next step on a way that loses nothing: the sender first, so that the receiver always finds room. */
  function Unload(s: State): Option<Action> {
    if s.sender.Limiting? then Some(Take)
    else if s.sender.Delivering? then Some(Deliver)
    else if s.sender.Polling? && s.buffer != [] then Some(Poll)
    else if s.receiver.Holding? then Some(Store)
    else None
  }

  /** The bound of what is pending is reached: until the sender is told to stop, some run delivers all of it. */
  lemma {:induction false} PendingIsDelivered(s: State) returns (acts: seq<Action>)
    requires StopInv(s) && s.source.SourceEnded? && Phase(s.stopper) <= 4
    ensures AllEnabled(s, acts) && |Run(s, acts).delivered| == |s.delivered| + Pending(s)
    decreases Measure(s)
  {
    if Unload(s).None? {
      acts := [];
    } else {
      var act := Unload(s).value;
      StepShrinks(s, act);
      StepKeepsStop(s, act);
      var rest := PendingIsDelivered(Step(s, act));
      acts := [act] + rest;
      assert [act][..0] == [];
      assert Run(s, [act]) == Step(s, act) && AllEnabled(s, [act]) by { assert Run(s, []) == s && AllEnabled(s, []); }
      RunAppend(s, [act], rest);
    }
  }

  /** A run goes on to deliver more than the buffer and one event. */
  ghost predicate Exceeds(s: State) {
    exists acts :: AllEnabled(s, acts) && |Run(s, acts).delivered| > |s.delivered| + |s.buffer| + 1
  }

  /** Once the source has ended, what is still delivered keeps to the buffered events and one more if and only if not
      both goroutines are holding one. */
  lemma {:induction false} OneBeyondBufferIff(e: Event, before: seq<Action>)
    requires Run(Start(e), before).source.SourceEnded?
    ensures var s := Run(Start(e), before);
            !Exceeds(s) <==> InReceiver(s) == [] || InSender(s) == []
  {
    var s := Run(Start(e), before);
    AlwaysStopInv(e, before);
    if InReceiver(s) == [] || InSender(s) == [] {
      forall acts | AllEnabled(s, acts) ensures |Run(s, acts).delivered| <= |s.delivered| + |s.buffer| + 1 {
        StoppingShrinks(s, acts);
      }
    } else {
      var acts := PendingIsDelivered(s);
    }
  }

  lemma {:induction false} StepHolds(s: State, act: Action)
    ensures |Step(s, act).delivered| + |InSender(Step(s, act))| >= |s.delivered| + |InSender(s)|
  {
  }

  /** Whatever the order of steps, a stop that has run its course delivered what the sender was holding. */
  lemma {:induction false} HeldIsDelivered(s: State, acts: seq<Action>)
    ensures var t := Run(s, acts);
            && |t.delivered| + |InSender(t)| >= |s.delivered| + |InSender(s)|
            && (Finished(t) ==> |t.delivered| >= |s.delivered| + |InSender(s)|)
  {
    if acts != [] {
      HeldIsDelivered(s, acts[..|acts| - 1]);
      StepHolds(Run(s, acts[..|acts| - 1]), acts[|acts| - 1]);
    }
  }

  /** And no more than that need be delivered: the sender may see the stop first and leave the buffer as it is. */
  lemma {:induction false} BufferMayBeLeft(s: State) returns (acts: seq<Action>)
    requires StopInv(s) && s.source.SourceEnded?
    ensures AllEnabled(s, acts) && Finished(Run(s, acts))
    ensures |Run(s, acts).delivered| == |s.delivered| + |InSender(s)|
    decreases Measure(s)
  {
    if Ready(s).None? {
      acts := [];
    } else {
      var act := Ready(s).value;
      StepShrinks(s, act);
      StepKeepsStop(s, act);
      var rest := BufferMayBeLeft(Step(s, act));
      acts := [act] + rest;
      assert [act][..0] == [];
      assert Run(s, [act]) == Step(s, act) && AllEnabled(s, [act]) by { assert Run(s, []) == s && AllEnabled(s, []); }
      RunAppend(s, [act], rest);
    }
  }

  /** One more step of a run that is being written down. */
  lemma {:induction false} Chain(s: State, a: seq<Action>, t: State, act: Action, next: State) returns (b: seq<Action>)
    requires AllEnabled(s, a) && Run(s, a) == t && Enabled(t, act) && Step(t, act) == next
    ensures AllEnabled(s, b) && Run(s, b) == next
  {
    b := a + [act];
    assert b[..|a|] == a;
  }

  function SenderHolds(e: Event): State {
    Start(e).(source := Selecting, sender := Limiting(e), produced := [e], log := [Kept(e)])
  }

  lemma {:induction false} SenderCanHold(e: Event) returns (acts: seq<Action>)
    ensures AllEnabled(Start(e), acts) && Run(Start(e), acts) == SenderHolds(e)
  {
    var s0 := Start(e);
    var s1 := s0.(source := Selecting, receiver := Holding(e), produced := [e]);
    var s2 := s1.(receiver := Receiving, buffer := [e], log := [Kept(e)]);
    acts := Chain(s0, [], s0, Handoff, s1);
    acts := Chain(s0, acts, s1, Store, s2);
    acts := Chain(s0, acts, s2, Poll, SenderHolds(e));
  }

  /** Both goroutines can be holding an event when the source ends: two are then delivered with nothing in the buffer.
      */
  lemma {:induction false} TwoBeyondBuffer(e: Event, f: Event) returns (before: seq<Action>, acts: seq<Action>)
    ensures AllEnabled(Start(e), before) && AllEnabled(Run(Start(e), before), acts)
    ensures var s := Run(Start(e), before);
            s.source.SourceEnded? && s.buffer == [] && |Run(s, acts).delivered| == |s.delivered| + 2
  {
    var s0, s3 := Start(e), SenderHolds(e);
    var s4 := s3.(source := Sending(f));
    var s5 := s3.(receiver := Holding(f), produced := [e, f]);
    var s6 := s5.(stopper := StopSource);
    var s7 := s5.(source := Signalling, stopper := AwaitSource);
    before := SenderCanHold(e);
    before := Chain(s0, before, s3, Trigger(f), s4);
    before := Chain(s0, before, s4, Handoff, s5);
    before := Chain(s0, before, s5, CallStop, s6);
    before := Chain(s0, before, s6, SourceStops, s7);
    before := Chain(s0, before, s7, SourceSignals, s5.(source := SourceEnded, stopper := StopReceiver));
    acts := PendingIsDelivered(Run(s0, before));
  }

  /** Why the source is stopped first: with the receiver gone, a source about to send stays blocked in every run. */
  lemma {:induction false} ReceiverGoneBlocksSource(s: State, acts: seq<Action>)
    requires s.source.Sending? && (s.receiver.ReceiverSignalling? || s.receiver.ReceiverEnded?)
    ensures var t := Run(s, acts);
            t.source == s.source && (t.receiver.ReceiverSignalling? || t.receiver.ReceiverEnded?)
  {
    if acts != [] {
      ReceiverGoneBlocksSource(s, acts[..|acts| - 1]);
    }
  }
}
