/** The hotplug debounce protocol: a reader that never blocks, a bounded queue
    that drops on purpose, a trailing-edge debouncer, and a one-slot signal
    (internal/hotplug/hotplug.go, cmd/llmfit-dra/main.go). Every interleaving of
    the goroutines is a sequence of the steps below. */
module Hotplug {
  import opened Prelude

  const RAW_CAPACITY: nat := 16

  datatype Uevent = Uevent(action: string, subsystem: string)

  /** Accelerator subsystems only. */
  predicate Relevant(ev: Uevent) {
    ev.subsystem == "drm" || ev.subsystem == "accel"
  }

  const OVERRUN: Uevent := Uevent("overrun", "drm")

  datatype ReadErr = EINTR | EAGAIN | ENOBUFS | OtherErr

  datatype ReadAction = Retry | Overrun | Fatal

  function ClassifyReadErr(e: ReadErr): ReadAction {
    match e
    case EINTR => Retry
    case EAGAIN => Retry
    case ENOBUFS => Overrun
    case OtherErr => Fatal
  }

  /** The reader is blocked reading, about to offer an event to the queue, or gone. */
  datatype Reader = Reading | Offering(ev: Uevent) | Stopped

  /** The debouncer waits for a burst, drains one while its timer runs, is about
      to signal, or has ended. */
  datatype Phase = Waiting | Draining | Signalling | Ended

  /** `owed` records that an event worth a re-probe was read and none has started
      since; `offered` and `signals` count queue offers and signal attempts. */
  datatype State = State(
    cancelled: bool,
    reader: Reader,
    raw: seq<Uevent>, rawClosed: bool,
    phase: Phase,
    signal: bool, eventsClosed: bool,
    listening: bool,
    owed: bool, offered: nat, signals: nat)

  const INITIAL: State := State(false, Reading, [], false, Waiting, false, false, true, false, 0, 0)

  datatype Step =
    | Cancel
    | ReadMessage(parsed: Option<Uevent>)
    | ReadFails(e: ReadErr)
    | Offer
    | Take
    | DrainOne
    | TimerFires
    | SeeClosed
    | Signal
    | Consume
    | ConsumeClosed
    | Tick

  /** A re-probe starts: whatever was owed is now being served. */
  function Reprobe(s: State): State {
    s.(owed := false)
  }

  /** The state after a step, None where the step is not enabled. */
  function Next(s: State, step: Step): Option<State> {
    match step
    case Cancel => Some(s.(cancelled := true))
    case ReadMessage(parsed) =>
      if !s.reader.Reading? then None
      else if parsed.None? || !Relevant(parsed.value) then Some(s)
      else Some(s.(reader := Offering(parsed.value), owed := true))
    case ReadFails(e) =>
      if !s.reader.Reading? then None
      else if s.cancelled then Some(s.(reader := Stopped, rawClosed := true))
      else
        (match ClassifyReadErr(e)
         case Retry => Some(s)
         case Overrun => Some(s.(reader := Offering(OVERRUN), owed := true))
         case Fatal => Some(s.(reader := Stopped, rawClosed := true)))
    case Offer =>
      if !s.reader.Offering? then None
      else
        var done := s.(reader := Reading, offered := s.offered + 1);
        if |s.raw| < RAW_CAPACITY then Some(done.(raw := s.raw + [s.reader.ev]))
        else Some(done) // dropped: what is queued already leads to a signal
    case Take =>
      if s.phase != Waiting || s.raw == [] then None
      else Some(s.(raw := s.raw[1..], phase := Draining))
    case DrainOne =>
      if s.phase != Draining || s.raw == [] then None
      else Some(s.(raw := s.raw[1..])) // and the timer restarts
    case TimerFires =>
      if s.phase != Draining then None else Some(s.(phase := Signalling))
    case SeeClosed =>
      if s.raw != [] || !s.rawClosed then None
      else if s.phase == Draining then Some(s.(phase := Signalling))
      else if s.phase == Waiting then Some(s.(phase := Ended, eventsClosed := true))
      else None
    case Signal =>
      if s.phase != Signalling then None
      else Some(s.(phase := Waiting, signal := true, signals := s.signals + 1)) // full slot: already pending
    case Consume =>
      if !s.listening || !s.signal then None else Some(Reprobe(s.(signal := false)))
    case ConsumeClosed =>
      if !s.listening || s.signal || !s.eventsClosed then None else Some(s.(listening := false))
    case Tick => Some(Reprobe(s))
  }

  /** Consecutive states joined by the given steps, from `states[0]` on. */
  ghost predicate IsRun(states: seq<State>, steps: seq<Step>) {
    && |states| == |steps| + 1
    && forall i :: 0 <= i < |steps| ==> Next(states[i], steps[i]) == Some(states[i + 1])
  }

  /** Someone still carries the wake-up. */
  predicate Carried(s: State) {
    || s.reader.Offering?
    || s.raw != []
    || s.phase == Draining || s.phase == Signalling
    || s.signal
  }

  /** The queue stays bounded and holds only events worth a re-probe. */
  predicate QueueOK(s: State) {
    && |s.raw| <= 16
    && (forall i :: 0 <= i < |s.raw| ==> Relevant(s.raw[i]))
    && (s.reader.Offering? ==> Relevant(s.reader.ev))
  }

  /** Channels close in order: the queue with the reader, the signal with the debouncer. */
  predicate ClosingOK(s: State) {
    && (s.rawClosed <==> s.reader.Stopped?)
    && (s.eventsClosed <==> s.phase == Ended)
    && (s.phase == Ended ==> s.rawClosed && s.raw == [])
    && (!s.listening ==> s.eventsClosed && !s.signal)
  }

  /** Every signal attempt, past or under way, has an event of its own. */
  predicate BudgetOK(s: State) {
    s.signals + (if s.phase == Draining || s.phase == Signalling then 1 else 0) + |s.raw| <= s.offered
  }

  predicate Inv(s: State) {
    && QueueOK(s)
    && ClosingOK(s)
    && (s.owed ==> Carried(s))
    && BudgetOK(s)
  }

  lemma StepKeepsQueue(s: State, step: Step, s': State)
    requires QueueOK(s) && Next(s, step) == Some(s')
    ensures QueueOK(s')
  {
    assert Relevant(OVERRUN);
  }

  lemma StepKeepsClosing(s: State, step: Step, s': State)
    requires ClosingOK(s) && (s.owed ==> Carried(s)) && Next(s, step) == Some(s')
    ensures ClosingOK(s') && (s'.owed ==> Carried(s'))
  {
    hide Relevant, ClassifyReadErr;
  }

  lemma StepKeepsBudget(s: State, step: Step, s': State)
    requires BudgetOK(s) && Next(s, step) == Some(s')
    ensures BudgetOK(s')
  {
    hide Relevant, ClassifyReadErr;
    if step.Take? || step.DrainOne? {
      assert |s'.raw| == |s.raw| - 1;
    } else if !step.Offer? {
      assert s'.raw == s.raw && s'.offered == s.offered;
    }
  }

  lemma StepKeepsInv(s: State, step: Step, s': State)
    requires Inv(s) && Next(s, step) == Some(s')
    ensures Inv(s')
  {
    hide Next, Carried, QueueOK, ClosingOK, BudgetOK;
    StepKeepsQueue(s, step, s');
    StepKeepsClosing(s, step, s');
    StepKeepsBudget(s, step, s');
  }

  /** No lost wake-up: in every interleaving, whenever a relevant or overrun event
      was read and no re-probe has started since, the wake-up is still under way.
      Nor is one invented: every signal attempt has consumed an event of its own. */
  lemma {:induction false} NoLostWakeup(states: seq<State>, steps: seq<Step>)
    requires IsRun(states, steps) && states[0] == INITIAL
    ensures forall i :: 0 <= i < |states| ==> Inv(states[i])
    ensures forall i :: 0 <= i < |states| && states[i].owed ==> Carried(states[i])
    ensures forall i :: 0 <= i < |states| ==> states[i].signals <= states[i].offered
  {
    if steps != [] {
      var n := |steps| - 1;
      NoLostWakeup(states[..n + 1], steps[..n]);
      assert Inv(states[..n + 1][n]);
      StepKeepsInv(states[n], steps[n], states[n + 1]);
      forall i | 0 <= i < |states|
        ensures Inv(states[i])
      {
        if i <= n {
          assert states[..n + 1][i] == states[i];
        }
      }
    }
  }

  // ---- The same law, without the ledger --------------------------------------------

  /** A step that must lead to a re-probe: an accelerator event is read, or the kernel
      reports that it dropped events, by a reader still at work. */
  predicate MustWake(s: State, step: Step) {
    && s.reader.Reading?
    && match step
       case ReadMessage(parsed) => parsed.Some? && (parsed.value.subsystem == "drm" || parsed.value.subsystem == "accel")
       case ReadFails(e) => e == ENOBUFS && !s.cancelled
       case _ => false
  }

  lemma WakingIsOwed(s: State, step: Step, s': State)
    requires MustWake(s, step) && Next(s, step) == Some(s')
    ensures s'.owed
  {
  }

  lemma OwedPersists(s: State, step: Step, s': State)
    requires s.owed && Next(s, step) == Some(s') && !step.Consume? && !step.Tick?
    ensures s'.owed
  {
    hide Relevant, ClassifyReadErr;
  }

  /** No lost wake-up, on the steps alone: once such a step was taken, and until a
      re-probe starts, the wake-up is in the reader's hand, in the queue, with the
      debouncer or in the signal slot; and where the debouncer rests, not with it. */
  lemma {:induction false} WakeupIsCarried(states: seq<State>, steps: seq<Step>, i: nat, j: nat)
    requires IsRun(states, steps) && states[0] == INITIAL
    requires i < j <= |steps| && MustWake(states[i], steps[i])
    requires forall k :: i < k < j ==> !steps[k].Consume? && !steps[k].Tick?
    ensures states[j].owed
    ensures Carried(states[j])
    ensures Idle(states[j]) ==> states[j].reader.Offering? || states[j].signal
  {
    hide Next, MustWake;
    if j == i + 1 {
      WakingIsOwed(states[i], steps[i], states[j]);
    } else {
      WakeupIsCarried(states, steps, i, j - 1);
      OwedPersists(states[j - 1], steps[j - 1], states[j]);
    }
    NoLostWakeup(states, steps);
    assert Inv(states[j]);
  }

  /** And what every read does: interrupted ones change nothing, other messages change
      nothing, waking ones put an accelerator event into the reader's hand, and anything
      else ends the reader and closes the queue. */
  lemma ReadsDo(s: State, step: Step)
    requires s.reader.Reading? && (step.ReadMessage? || step.ReadFails?)
    ensures Next(s, step).Some?
    ensures var s' := Next(s, step).value;
            var quiet := (step.ReadMessage? && !MustWake(s, step)) || (step.ReadFails? && !s.cancelled && (step.e == EINTR || step.e == EAGAIN));
            && (quiet ==> s' == s)
            && (MustWake(s, step) ==> s'.reader.Offering? && (s'.reader.ev.subsystem == "drm" || s'.reader.ev.subsystem == "accel")
                                      && s' == s.(reader := s'.reader, owed := true))
            && (!quiet && !MustWake(s, step) ==> s' == s.(reader := Stopped, rawClosed := true))
  {
  }

  // ---- Once the reader has stopped, the debouncer must deliver ---------------------

  predicate IsDebouncerStep(step: Step) {
    step.Take? || step.DrainOne? || step.TimerFires? || step.SeeClosed? || step.Signal?
  }

  function PhaseRank(p: Phase): nat {
    match p
    case Ended => 0
    case Waiting => 1
    case Signalling => 2
    case Draining => 3
  }

  /** How many debouncer steps can still happen. */
  function Rank(s: State): nat {
    3 * |s.raw| + PhaseRank(s.phase)
  }

  lemma PopLowersRank(s: State, step: Step, s': State)
    requires step.Take? || step.DrainOne?
    requires Next(s, step) == Some(s')
    ensures Rank(s') < Rank(s) && s'.reader == s.reader
  {
    assert |s'.raw| == |s.raw| - 1;
  }

  /** The debouncer has nothing to do: it has ended, or waits on an empty open queue. */
  predicate Idle(s: State) {
    s.phase == Ended || (s.phase == Waiting && s.raw == [] && !s.rawClosed)
  }

  /** It is stuck exactly when idle; once the reader has stopped, only by having ended. */
  lemma NeverStuck(s: State)
    requires Inv(s)
    ensures (exists step :: IsDebouncerStep(step) && Next(s, step).Some?) <==> !Idle(s)
    ensures s.reader.Stopped? ==> (Idle(s) <==> s.phase == Ended)
  {
    if !Idle(s) {
      var step := if s.phase == Waiting then (if s.raw != [] then Take else SeeClosed)
                  else if s.phase == Draining then TimerFires
                  else Signal;
      assert IsDebouncerStep(step) && Next(s, step).Some?;
    }
  }

  function DebouncerSteps(steps: seq<Step>): nat {
    if steps == [] then 0
    else DebouncerSteps(steps[..|steps| - 1]) + (if IsDebouncerStep(steps[|steps| - 1]) then 1 else 0)
  }

  function Offers(steps: seq<Step>): nat {
    if steps == [] then 0
    else Offers(steps[..|steps| - 1]) + (if steps[|steps| - 1].Offer? then 1 else 0)
  }

  /** What a step may add to the work left: only an offer adds any. */
  lemma StepCost(s: State, step: Step, s': State)
    requires Next(s, step) == Some(s')
    ensures Rank(s') + (if IsDebouncerStep(step) then 1 else 0) <= Rank(s) + (if step.Offer? then 3 else 0)
  {
    hide ClassifyReadErr, Relevant;
    if step.Take? || step.DrainOne? {
      PopLowersRank(s, step, s');
    } else if step.Offer? {
      assert |s'.raw| <= |s.raw| + 1;
    } else {
      assert s'.raw == s.raw;
    }
  }

  /** In every interleaving each offer buys the debouncer at most three steps: nothing
      but further offers can defer the signal. */
  lemma {:induction false} OnlyOffersDefer(states: seq<State>, steps: seq<Step>)
    requires IsRun(states, steps)
    ensures DebouncerSteps(steps) + Rank(states[|steps|]) <= Rank(states[0]) + 3 * Offers(steps)
  {
    if steps != [] {
      var n := |steps| - 1;
      OnlyOffersDefer(states[..n + 1], steps[..n]);
      assert states[..n + 1][n] == states[n];
      StepCost(states[n], steps[n], states[n + 1]);
    }
  }

  lemma {:induction false} RunKeepsInv(states: seq<State>, steps: seq<Step>)
    requires IsRun(states, steps) && Inv(states[0])
    ensures Inv(states[|steps|])
    ensures states[0].reader.Stopped? ==> states[|steps|].reader.Stopped? && Offers(steps) == 0
  {
    hide Inv, Next;
    if steps != [] {
      var n := |steps| - 1;
      RunKeepsInv(states[..n + 1], steps[..n]);
      assert states[..n + 1][n] == states[n];
      StepKeepsInv(states[n], steps[n], states[n + 1]);
      if states[n].reader.Stopped? {
        StoppedStays(states[n], steps[n], states[n + 1]);
      }
    }
  }

  lemma StoppedStays(s: State, step: Step, s': State)
    requires Next(s, step) == Some(s') && s.reader.Stopped?
    ensures s'.reader.Stopped? && !step.Offer?
  {
    hide ClassifyReadErr, Relevant;
    match step
    case Cancel =>
    case ReadMessage(_) =>
    case ReadFails(_) =>
    case Offer =>
    case Take =>
    case DrainOne =>
    case TimerFires =>
    case SeeClosed =>
    case Signal =>
    case Consume =>
    case ConsumeClosed =>
    case Tick =>
  }

  /** And where the debouncer comes to rest, a wake-up still owed is in the reader's
      hand or in the signal slot. */
  lemma RestMeansSignalled(states: seq<State>, steps: seq<Step>)
    requires IsRun(states, steps) && Inv(states[0]) && Idle(states[|steps|])
    ensures states[|steps|].owed ==> states[|steps|].reader.Offering? || states[|steps|].signal
  {
    hide Next;
    RunKeepsInv(states, steps);
  }

  /** After the reader stops, at most Rank more debouncer steps happen, and where
      none is left the channel is closed with the pending burst's signal in it,
      unless a re-probe started meanwhile. */
  lemma StoppedReaderForcesSignal(states: seq<State>, steps: seq<Step>)
    requires IsRun(states, steps) && Inv(states[0]) && states[0].reader.Stopped?
    ensures DebouncerSteps(steps) <= Rank(states[0])
    ensures var last := states[|steps|];
            (forall step :: IsDebouncerStep(step) ==> Next(last, step).None?) ==>
              last.eventsClosed && (last.owed ==> last.signal)
  {
    hide Next, QueueOK, BudgetOK;
    OnlyOffersDefer(states, steps);
    RunKeepsInv(states, steps);
    NeverStuck(states[|steps|]);
  }

  /** Closing never discards a signal: the caller sees the closed channel only
      once the buffered signal has been consumed. */
  lemma ClosedOnlyAfterSignal(s: State, s': State)
    requires Inv(s) && Next(s, ConsumeClosed) == Some(s')
    ensures !s.owed && s.raw == [] && s.reader.Stopped?
  {
  }

  // ---- While the reader runs ------------------------------------------------------

  const HOTPLUG: Uevent := Uevent("add", "drm")

  /** Draining an emptied queue after `n` offers, a wake-up owed and not one signal sent. */
  ghost predicate Deferring(s: State, n: nat) {
    s == INITIAL.(phase := Draining, owed := true, offered := n)
  }

  predicate SignalFree(steps: seq<Step>) {
    forall i :: 0 <= i < |steps| ==> !steps[i].Signal? && !steps[i].Consume? && !steps[i].Tick?
  }

  lemma AppendStep(states: seq<State>, steps: seq<Step>, step: Step, s': State)
    requires IsRun(states, steps) && SignalFree(steps) && Next(states[|steps|], step) == Some(s')
    requires !step.Signal? && !step.Consume? && !step.Tick?
    ensures IsRun(states + [s'], steps + [step]) && SignalFree(steps + [step])
    ensures (states + [s'])[0] == states[0] && (states + [s'])[|steps| + 1] == s'
    ensures Offers(steps + [step]) == Offers(steps) + (if step.Offer? then 1 else 0)
  {
    hide Next;
    var more, run := steps + [step], states + [s'];
    assert more[..|steps|] == steps;
    forall i | 0 <= i < |more|
      ensures Next(run[i], more[i]) == Some(run[i + 1])
    {
      if i < |steps| {
        assert Next(states[i], steps[i]) == Some(states[i + 1]);
      }
    }
  }

  /** There is no bound on the delay itself: for every n some run from the start makes
      n + 1 offers, never signals and never re-probes, and still owes the wake-up. */
  lemma {:induction false} StormDefersSignal(n: nat) returns (states: seq<State>, steps: seq<Step>)
    ensures IsRun(states, steps) && states[0] == INITIAL
    ensures SignalFree(steps) && Offers(steps) == n + 1
    ensures Deferring(states[|steps|], n + 1)
  {
    if n == 0 {
      states, steps := [INITIAL], [];
      NoStepsYet();
    } else {
      states, steps := StormDefersSignal(n - 1);
    }
    hide IsRun, Offers;
    states, steps := AnotherTurn(states, steps, n);
  }

  lemma NoStepsYet()
    ensures IsRun([INITIAL], []) && SignalFree([]) && Offers([]) == 0
  {
  }

  /** One more turn: an event is read, offered, and taken or drained. */
  lemma AnotherTurn(before: seq<State>, begun: seq<Step>, n: nat) returns (states: seq<State>, steps: seq<Step>)
    requires |before| == |begun| + 1 && IsRun(before, begun) && SignalFree(begun) && Offers(begun) == n
    requires if n == 0 then before[|begun|] == INITIAL else Deferring(before[|begun|], n)
    ensures |states| == |steps| + 1 && IsRun(states, steps) && states[0] == before[0]
    ensures SignalFree(steps) && Offers(steps) == n + 1
    ensures Deferring(states[|steps|], n + 1)
  {
    hide IsRun, Offers, SignalFree;
    var last := before[|begun|];
    var read := last.(reader := Offering(HOTPLUG), owed := true);
    var queued := read.(reader := Reading, raw := [HOTPLUG], offered := n + 1);
    var drained := queued.(raw := [], phase := Draining);
    var pop := if n == 0 then Take else DrainOne;
    TurnSteps(last, read, queued, drained, pop, n);
    hide Next;
    AppendStep(before, begun, ReadMessage(Some(HOTPLUG)), read);
    states, steps := before + [read], begun + [ReadMessage(Some(HOTPLUG))];
    AppendStep(states, steps, Offer, queued);
    states, steps := states + [queued], steps + [Offer];
    AppendStep(states, steps, pop, drained);
    states, steps := states + [drained], steps + [pop];
  }

  lemma TurnSteps(last: State, read: State, queued: State, drained: State, pop: Step, n: nat)
    requires if n == 0 then last == INITIAL else Deferring(last, n)
    requires read == last.(reader := Offering(HOTPLUG), owed := true)
    requires queued == read.(reader := Reading, raw := [HOTPLUG], offered := n + 1)
    requires drained == queued.(raw := [], phase := Draining)
    requires pop == if n == 0 then Take else DrainOne
    ensures Next(last, ReadMessage(Some(HOTPLUG))) == Some(read)
    ensures Next(read, Offer) == Some(queued)
    ensures Next(queued, pop) == Some(drained)
    ensures Deferring(drained, n + 1)
  {
    assert read.raw + [HOTPLUG] == [HOTPLUG];
    assert [HOTPLUG][1..] == [];
  }
}
