/** The child-process supervisor of scripts/control-ui-i18n.ts, one run at a time.

    Each run owns the locals of one runProcess call.  Its event handlers are functions from the
    run to a Step: the run afterwards, whether its record leaves the module's shared set, and
    the signal with which the handler asks for the parent to be signalled again, if it asks.
 */
module RunHandlers {
  import opened Prelude
  import opened Utf8
  import opened OutputTail

  datatype Signal = SIGINT | SIGTERM | SIGHUP | SIGKILL

  datatype Exit = Exit(code: Option<int>, signal: Option<Signal>)

  datatype Outcome =
    | Resolved(code: int, stdout: seq<Unit>)
    | TimedOut
    | Failed
    | Truncated
    | SpawnError

  /** The two callbacks a kill timer can hold. */
  datatype KillTimer = Grace | Relay(signal: Signal)

  /** What was done to the child's process group: a signal sent, a signal of the parent passed on,
      or a probe that found the group gone. */
  datatype Act = Sent(signal: Signal) | PassedOn(signal: Signal) | FoundDead

  /** The output limit is at least one. */
  type Limit = n: int | n > 0 witness 1

  datatype Run = Run(
    rejectOnFailure: bool,
    maxOutputChars: Limit,
    stdout: Capture,
    timeoutArmed: bool,
    timedOut: bool,
    outcome: Option<Outcome>,          // settled, and how
    waitingForKillGrace: bool,
    killTimer: Option<KillTimer>,      // the armed kill timer
    childClosedResult: Option<Exit>,
    parentSignalPending: Option<Signal>,
    stateSignal: Option<Signal>,       // the record in the shared set: its signal,
    stateDone: bool,                   //   and whether the run is done with it
    listening: bool,                   // parent signal handlers installed
    sawError: bool,                    // once("error") and once("close") have fired
    sawClose: bool,
    acts: seq<Act>)                    // what was done to the child's group, in order

  datatype Step = Step(run: Run, leaves: bool, reraise: Option<Signal>)

  function NewRun(rejectOnFailure: bool, maxOutputChars: Limit): Run {
    Run(rejectOnFailure, maxOutputChars, NOTHING, true, false, None, false, None, None, None, None, false, true,
        false, false, [])
  }

  predicate Relayed(signal: Signal) {
    signal == SIGINT || signal == SIGTERM || signal == SIGHUP
  }

  function Quiet(r: Run): Step {
    Step(r, false, None)
  }

  function Settle(r: Run, outcome: Outcome): Step {
    if r.outcome.Some? then Quiet(r)
    else
      Step(r.(outcome := Some(outcome),
              timeoutArmed := false,
              killTimer := if r.parentSignalPending.None? then None else r.killTimer,
              listening := false),
           r.parentSignalPending.None?,
           None)
  }

  function CloseOutcome(r: Run, exit: Exit): Outcome {
    var code := if exit.code.Some? then exit.code.value else 1;
    if r.timedOut then TimedOut
    else if code != 0 && r.rejectOnFailure then Failed
    else if code == 0 && r.stdout.truncatedChars > 0 then Truncated
    else Resolved(code, r.stdout.text)
  }

  function FinishClose(r: Run, exit: Exit): Step {
    Settle(r, CloseOutcome(r, exit))
  }

  function MarkDone(r: Run, signal: Signal): Step {
    Step(r.(stateDone := true), false, Some(signal))
  }

  /** The relay handler of one parent signal; alive is what probing the group reports. */
  function OnParentSignal(r: Run, signal: Signal, alive: bool): Step {
    var r := r.(parentSignalPending := Some(signal), stateSignal := Some(signal), acts := r.acts + [PassedOn(signal)],
                listening := false);
    if !alive then MarkDone(r.(acts := r.acts + [FoundDead]), signal)
    else Quiet(r.(waitingForKillGrace := true, killTimer := Some(Relay(signal))))
  }

  function OnKillTimer(r: Run, timer: KillTimer): Step {
    var r := r.(waitingForKillGrace := false, killTimer := None, acts := r.acts + [Sent(SIGKILL)]);
    match timer
    case Relay(signal) => MarkDone(r, signal)
    case Grace => if r.childClosedResult.Some? then FinishClose(r, r.childClosedResult.value) else Quiet(r)
  }

  function ScheduleKill(r: Run): Run {
    if r.waitingForKillGrace then r else r.(waitingForKillGrace := true, killTimer := Some(Grace))
  }

  function OnTimeout(r: Run): Step {
    Quiet(ScheduleKill(r.(timeoutArmed := false, timedOut := true, acts := r.acts + [Sent(SIGTERM)])))
  }

  function OnError(r: Run): Step {
    Settle(r.(sawError := true), SpawnError)
  }

  function OnClose(r: Run, exit: Exit, alive: bool): Step {
    var r := r.(sawClose := true);
    if r.parentSignalPending.Some? then
      if alive then Quiet(r.(childClosedResult := Some(exit)))
      else MarkDone(r.(acts := r.acts + [FoundDead], killTimer := None), r.parentSignalPending.value)
    else if r.waitingForKillGrace then
      if alive then Quiet(r.(childClosedResult := Some(exit)))
      else FinishClose(r.(acts := r.acts + [FoundDead]), exit)
    else FinishClose(r, exit)
  }

  /** A chunk of standard output. */
  function OnData(r: Run, chunk: seq<Byte>): Step {
    Quiet(r.(stdout := AppendBoundedProcessOutput(r.stdout, Decode(chunk), r.maxOutputChars)))
  }

  // What every handler keeps.

  ghost predicate EndsAt(acts: seq<Act>, signal: Signal, i: nat, j: nat) {
    i < j < |acts| && acts[i] == PassedOn(signal) && (acts[j] == Sent(SIGKILL) || acts[j] == FoundDead)
  }

  /** After the signal was passed on, the group was sent SIGKILL or found gone. */
  ghost predicate Ended(acts: seq<Act>, signal: Signal) {
    exists i, j :: EndsAt(acts, signal, i, j)
  }

  /** The parent's signal was passed on, and the group has ended since. */
  ghost predicate Accounted(r: Run) {
    r.parentSignalPending.Some? && Ended(r.acts, r.parentSignalPending.value)
  }

  lemma EndedGrows(acts: seq<Act>, signal: Signal, act: Act)
    requires Ended(acts, signal)
    ensures Ended(acts + [act], signal)
  {
    var i, j :| EndsAt(acts, signal, i, j);
    assert EndsAt(acts + [act], signal, i, j);
  }

  lemma EndedNow(acts: seq<Act>, signal: Signal, act: Act)
    requires PassedOn(signal) in acts && (act == Sent(SIGKILL) || act == FoundDead)
    ensures Ended(acts + [act], signal)
  {
    var i :| 0 <= i < |acts| && acts[i] == PassedOn(signal);
    assert EndsAt(acts + [act], signal, i, |acts|);
  }

  /** A run resolves with what its capture holds, which is all of it if the exit code is zero. */
  predicate Delivers(r: Run, resolved: Outcome)
    requires resolved.Resolved?
  {
    resolved.stdout == r.stdout.text && (resolved.code == 0 ==> r.stdout.truncatedChars == 0)
  }

  ghost predicate RunInv(r: Run) {
    var pending := r.parentSignalPending;
    var signalled := pending.Some? ==>
      && PassedOn(pending.value) in r.acts
      && (!r.stateDone ==> r.killTimer == Some(Relay(pending.value)));
    var done := r.stateDone ==> Accounted(r);
    var timers :=
      && (r.timeoutArmed <==> r.outcome.None? && !r.timedOut)
      && (r.killTimer.Some? ==> r.waitingForKillGrace)
      && (r.killTimer.Some? && r.killTimer.value.Relay? ==> pending == Some(r.killTimer.value.signal) && !r.stateDone);
    var settled := r.outcome.Some? ==>
      && (pending.None? ==> r.killTimer.None?)
      && (r.outcome.value.Resolved? ==> !r.timedOut && r.sawClose && Delivers(r, r.outcome.value));
    && r.stateSignal == pending
    && (r.listening <==> r.outcome.None? && pending.None?)
    && (r.childClosedResult.Some? ==> r.sawClose)
    && signalled && done && timers && settled
  }

  /** A run's record belongs in the shared set. */
  predicate Active(r: Run) {
    r.outcome.None? || r.parentSignalPending.Some?
  }

  ghost predicate StepInv(before: Run, s: Step) {
    var after := s.run;
    var asks :=
      && (s.reraise.Some? ==> after.stateDone)
      && (after.stateDone && !before.stateDone ==> s.reraise.Some?);
    var lasting :=
      && (before.stateDone ==> after.stateDone)
      && (before.timedOut ==> after.timedOut)
      && (before.outcome.Some? ==> after.outcome == before.outcome)
      && (before.parentSignalPending.Some? ==> after.parentSignalPending == before.parentSignalPending)
      && before.acts <= after.acts;
    && RunInv(after)
    && (s.leaves <==> Active(before) && !Active(after))
    && (Active(after) ==> Active(before))
    && asks && lasting
  }

  lemma LiveGroupKeeps(r: Run, signal: Signal)
    requires RunInv(r) && r.listening && Relayed(signal)
    ensures StepInv(r, OnParentSignal(r, signal, true))
  {
    var acts := r.acts + [PassedOn(signal)];
    assert acts[|r.acts|] == PassedOn(signal);
  }

  lemma DeadGroupKeeps(r: Run, signal: Signal)
    requires RunInv(r) && r.listening && Relayed(signal)
    ensures StepInv(r, OnParentSignal(r, signal, false))
  {
    var acts := r.acts + [PassedOn(signal)];
    assert acts[|r.acts|] == PassedOn(signal);
    EndedNow(acts, signal, FoundDead);
    assert r.acts <= acts <= acts + [FoundDead];
  }

  lemma ParentSignalKeeps(r: Run, signal: Signal, alive: bool)
    requires RunInv(r) && r.listening && Relayed(signal)
    ensures StepInv(r, OnParentSignal(r, signal, alive))
    ensures OnParentSignal(r, signal, alive).run.parentSignalPending == Some(signal)
  {
    if alive {
      LiveGroupKeeps(r, signal);
    } else {
      DeadGroupKeeps(r, signal);
    }
  }

  lemma RelayKeeps(r: Run, signal: Signal)
    requires RunInv(r) && r.killTimer == Some(Relay(signal))
    ensures StepInv(r, OnKillTimer(r, Relay(signal)))
    ensures OnKillTimer(r, Relay(signal)).run.stateDone
  {
    EndedNow(r.acts, signal, Sent(SIGKILL));
  }

  /** What is true of a group's end stays true whatever is done to it later. */
  lemma DoneGrows(r: Run, act: Act)
    requires RunInv(r) && r.stateDone
    ensures Ended(r.acts + [act], r.parentSignalPending.value)
  {
    EndedGrows(r.acts, r.parentSignalPending.value, act);
  }

  lemma GraceWaitingKeeps(r: Run)
    requires RunInv(r) && r.killTimer == Some(Grace) && r.childClosedResult.None?
    ensures StepInv(r, OnKillTimer(r, Grace))
  {
    if r.stateDone {
      DoneGrows(r, Sent(SIGKILL));
    }
  }

  lemma GraceClosedKeeps(r: Run)
    requires RunInv(r) && r.killTimer == Some(Grace) && r.childClosedResult.Some?
    ensures StepInv(r, OnKillTimer(r, Grace))
  {
    if r.stateDone {
      DoneGrows(r, Sent(SIGKILL));
    }
  }

  lemma GraceKeeps(r: Run)
    requires RunInv(r) && r.killTimer == Some(Grace)
    ensures StepInv(r, OnKillTimer(r, Grace))
  {
    if r.childClosedResult.None? {
      GraceWaitingKeeps(r);
    } else {
      GraceClosedKeeps(r);
    }
  }

  lemma KillTimerKeeps(r: Run)
    requires RunInv(r) && r.killTimer.Some?
    ensures StepInv(r, OnKillTimer(r, r.killTimer.value))
    ensures r.killTimer.value.Relay? ==> OnKillTimer(r, r.killTimer.value).run.stateDone
  {
    match r.killTimer.value
    case Relay(signal) => RelayKeeps(r, signal);
    case Grace => GraceKeeps(r);
  }

  lemma TimeoutKeeps(r: Run)
    requires RunInv(r) && r.timeoutArmed
    ensures StepInv(r, OnTimeout(r))
  {
    if r.stateDone {
      DoneGrows(r, Sent(SIGTERM));
    }
  }

  lemma ErrorKeeps(r: Run)
    requires RunInv(r)
    ensures StepInv(r, OnError(r))
  {
  }

  lemma SignalledCloseKeeps(r: Run, exit: Exit)
    requires RunInv(r) && r.parentSignalPending.Some?
    ensures StepInv(r, OnClose(r, exit, false))
  {
    EndedNow(r.acts, r.parentSignalPending.value, FoundDead);
  }

  lemma LiveCloseKeeps(r: Run, exit: Exit)
    requires RunInv(r) && r.parentSignalPending.Some?
    ensures StepInv(r, OnClose(r, exit, true))
  {
  }

  lemma PlainCloseKeeps(r: Run, exit: Exit, alive: bool)
    requires RunInv(r) && r.parentSignalPending.None?
    ensures StepInv(r, OnClose(r, exit, alive))
  {
  }

  lemma CloseKeeps(r: Run, exit: Exit, alive: bool)
    requires RunInv(r)
    ensures StepInv(r, OnClose(r, exit, alive))
  {
    if r.parentSignalPending.Some? && alive {
      LiveCloseKeeps(r, exit);
    } else if r.parentSignalPending.Some? {
      SignalledCloseKeeps(r, exit);
    } else {
      PlainCloseKeeps(r, exit, alive);
    }
  }

  lemma DataKeeps(r: Run, chunk: seq<Byte>)
    requires RunInv(r)
    requires !r.sawClose
    ensures StepInv(r, OnData(r, chunk))
  {
  }

  // One event at a run.

  datatype RunEvent =
    | ParentSignal(signal: Signal, alive: bool)
    | KillTimerFires
    | TimeoutFires
    | ChildError
    | ChildClose(exit: Exit, alive: bool)
    | Data(chunk: seq<Byte>)

  /** When the event loop can deliver the event. */
  predicate CanHandle(r: Run, e: RunEvent) {
    match e
    case ParentSignal(signal, _) => r.listening && Relayed(signal)
    case KillTimerFires => r.killTimer.Some?
    case TimeoutFires => r.timeoutArmed
    case ChildError => !r.sawError
    case ChildClose(_, _) => !r.sawClose
    case Data(_) => !r.sawClose
  }

  function Handle(r: Run, e: RunEvent): Step
    requires CanHandle(r, e)
  {
    match e
    case ParentSignal(signal, alive) => OnParentSignal(r, signal, alive)
    case KillTimerFires => OnKillTimer(r, r.killTimer.value)
    case TimeoutFires => OnTimeout(r)
    case ChildError => OnError(r)
    case ChildClose(exit, alive) => OnClose(r, exit, alive)
    case Data(chunk) => OnData(r, chunk)
  }

  /** Every handler, in every state it can run in, keeps the run's invariant and leaves the
      shared set exactly when the run settles without a pending parent signal. */
  lemma HandleKeeps(r: Run, e: RunEvent)
    requires RunInv(r) && CanHandle(r, e)
    ensures StepInv(r, Handle(r, e))
    ensures !e.ParentSignal? ==> Handle(r, e).run.parentSignalPending == r.parentSignalPending
  {
    match e
    case ParentSignal(signal, alive) => ParentSignalKeeps(r, signal, alive);
    case KillTimerFires => KillTimerKeeps(r);
    case TimeoutFires => TimeoutKeeps(r);
    case ChildError => ErrorKeeps(r);
    case ChildClose(exit, alive) => CloseKeeps(r, exit, alive);
    case Data(chunk) => DataKeeps(r, chunk);
  }
}

/** Any number of concurrent runs, the shared set of their records, and the parent's re-raise.

    The handlers of one parent signal run back to back, in the order their runs started; every
    other event reaches one run at a time, in any order.
 */
module Supervision {
  import opened Prelude
  import opened RunHandlers

  /** active is the shared set, by run; reraised are the signals the parent sent itself. */
  datatype World = World(runs: seq<Run>, active: set<nat>, reraised: seq<Signal>)

  datatype Event =
    | Start(rejectOnFailure: bool, maxOutputChars: Limit)
    | Signalled(signal: Signal, alive: set<nat>)
    | At(i: nat, event: RunEvent)

  const EMPTY: World := World([], {}, [])

  predicate DoneIn(runs: seq<Run>, active: set<nat>) {
    forall i :: i in active ==> i < |runs| && runs[i].stateSignal.Some? && runs[i].stateDone
  }

  predicate AllDone(w: World) {
    DoneIn(w.runs, w.active)
  }

  predicate Indexed(w: World) {
    forall i :: i in w.active ==> i < |w.runs|
  }

  /** One handler at run i, ending in maybeReraiseRunProcessParentSignal where it asks for it. */
  function Apply(w: World, i: nat, s: Step): (next: World)
    requires Indexed(w) && i < |w.runs|
    ensures Indexed(next) && |next.runs| == |w.runs|
  {
    var runs, active := w.runs[i := s.run], if s.leaves then w.active - {i} else w.active;
    var reraises := s.reraise.Some? && DoneIn(runs, active);
    World(runs, active, if reraises then w.reraised + [s.reraise.value] else w.reraised)
  }

  /** The relay handler of run k. */
  function Heard(w: World, signal: Signal, alive: set<nat>, k: nat): (mid: World)
    requires Indexed(w) && k < |w.runs|
    ensures Indexed(mid) && |mid.runs| == |w.runs|
  {
    Apply(w, k, OnParentSignal(w.runs[k], signal, k in alive))
  }

  /** The relay handlers of runs k and later. */
  function Deliver(w: World, signal: Signal, alive: set<nat>, k: nat): (next: World)
    requires Indexed(w) && k <= |w.runs|
    ensures Indexed(next) && |next.runs| == |w.runs|
    decreases |w.runs| - k
  {
    if k == |w.runs| then w
    else if !w.runs[k].listening then Deliver(w, signal, alive, k + 1)
    else Deliver(Heard(w, signal, alive, k), signal, alive, k + 1)
  }

  predicate Enabled(w: World, e: Event) {
    && Indexed(w)
    && match e
       case Start(_, _) => true
       case Signalled(signal, _) => Relayed(signal) && exists i :: 0 <= i < |w.runs| && w.runs[i].listening
       case At(i, event) => i < |w.runs| && !event.ParentSignal? && CanHandle(w.runs[i], event)
  }

  function Next(w: World, e: Event): (next: World)
    requires Enabled(w, e)
    ensures Indexed(next)
  {
    match e
    case Start(reject, limit) => w.(runs := w.runs + [NewRun(reject, limit)], active := w.active + {|w.runs|})
    case Signalled(signal, alive) => Deliver(w, signal, alive, 0)
    case At(i, event) => Apply(w, i, Handle(w.runs[i], event))
  }

  predicate Feasible(w: World, events: seq<Event>)
    decreases |events|
  {
    events == [] || (Enabled(w, events[0]) && Feasible(Next(w, events[0]), events[1..]))
  }

  function After(w: World, events: seq<Event>): World
    requires Feasible(w, events)
    decreases |events|
  {
    if events == [] then w else After(Next(w, events[0]), events[1..])
  }

  /** The invariant of every reachable world. */
  ghost predicate Inv(w: World) {
    && Indexed(w)
    && (forall i :: 0 <= i < |w.runs| ==> RunInv(w.runs[i]))
    && (forall i :: 0 <= i < |w.runs| ==> (i in w.active <==> Active(w.runs[i])))
  }

  /** Every run in the shared set was signalled, and then its group was found gone or sent SIGKILL. */
  ghost predicate EveryRunAccounted(w: World) {
    forall i :: i in w.active ==> i < |w.runs| && Accounted(w.runs[i])
  }

  lemma ApplyKeeps(w: World, i: nat, s: Step)
    requires Inv(w) && i < |w.runs| && StepInv(w.runs[i], s)
    ensures Inv(Apply(w, i, s))
    ensures w.reraised <= Apply(w, i, s).reraised
  {
  }

  lemma ApplyReraises(w: World, i: nat, s: Step)
    requires Indexed(w) && i < |w.runs|
    ensures |Apply(w, i, s).reraised| > |w.reraised| <==> s.reraise.Some? && AllDone(Apply(w, i, s))
  {
  }

  lemma {:induction false} DeliverNothing(w: World, signal: Signal, alive: set<nat>, k: nat)
    requires Indexed(w) && k <= |w.runs|
    requires forall j :: k <= j < |w.runs| ==> !w.runs[j].listening
    ensures Deliver(w, signal, alive, k) == w
    decreases |w.runs| - k
  {
    if k != |w.runs| {
      DeliverNothing(w, signal, alive, k + 1);
    }
  }

  lemma HeardKeeps(w: World, signal: Signal, alive: set<nat>, k: nat)
    requires Inv(w) && k < |w.runs| && Relayed(signal) && w.runs[k].listening
    ensures Inv(Heard(w, signal, alive, k))
    ensures w.reraised <= Heard(w, signal, alive, k).reraised
  {
    ParentSignalKeeps(w.runs[k], signal, k in alive);
    ApplyKeeps(w, k, OnParentSignal(w.runs[k], signal, k in alive));
  }

  lemma DoneHere(w: World, i: nat)
    requires AllDone(w) && i in w.active
    ensures i < |w.runs| && w.runs[i].stateDone
  {
  }

  /** The signal was sent to the parent again if that left every run done, and only then. */
  ghost predicate Reraises(w: World, next: World, signal: Signal) {
    next.reraised == w.reraised + if AllDone(next) then [signal] else []
  }

  lemma HeardReraises(w: World, signal: Signal, alive: set<nat>, k: nat)
    requires Indexed(w) && k < |w.runs| && k in w.active && !w.runs[k].stateDone
    ensures var next := Heard(w, signal, alive, k); Reraises(w, next, signal)
  {
    var next := Heard(w, signal, alive, k);
    ApplyReraises(w, k, OnParentSignal(w.runs[k], signal, k in alive));
    if AllDone(next) {
      DoneHere(next, k);
    }
  }

  lemma HeardOnce(w: World, signal: Signal, alive: set<nat>, k: nat)
    requires Indexed(w) && k < |w.runs|
    ensures var mid := Heard(w, signal, alive, k);
      && mid.active == w.active && !mid.runs[k].listening
      && (w.runs[k].timedOut ==> mid.runs[k].timedOut)
      && (forall j :: 0 <= j < |w.runs| && j != k ==> mid.runs[j] == w.runs[j])
  {
  }

  lemma {:induction false} DeliverKeeps(w: World, signal: Signal, alive: set<nat>, k: nat)
    requires Inv(w) && k <= |w.runs| && Relayed(signal)
    requires forall j :: 0 <= j < k ==> !w.runs[j].listening
    ensures var next := Deliver(w, signal, alive, k);
      && Inv(next) && next.active == w.active && w.reraised <= next.reraised
      && (forall j :: 0 <= j < |next.runs| ==> !next.runs[j].listening)
      && (forall j :: 0 <= j < |w.runs| && w.runs[j].timedOut ==> next.runs[j].timedOut)
    decreases |w.runs| - k
  {
    if k == |w.runs| {
    } else if !w.runs[k].listening {
      DeliverKeeps(w, signal, alive, k + 1);
    } else {
      var mid := Heard(w, signal, alive, k);
      HeardKeeps(w, signal, alive, k);
      HeardOnce(w, signal, alive, k);
      DeliverKeeps(mid, signal, alive, k + 1);
    }
  }

  lemma ListenerIsNotDone(w: World)
    requires Inv(w) && exists j :: 0 <= j < |w.runs| && w.runs[j].listening
    ensures !AllDone(w)
  {
    var j :| 0 <= j < |w.runs| && w.runs[j].listening;
    assert RunInv(w.runs[j]) && j in w.active;
  }

  lemma Carries(w: World, mid: World, next: World, signal: Signal)
    requires Reraises(w, mid, signal)
    requires next == mid || (!AllDone(mid) && Reraises(mid, next, signal))
    ensures Reraises(w, next, signal)
  {
  }

  /** One parent signal reaches every run that can still hear it; if that leaves every run in the
      shared set done, the parent is sent that signal again, once, and in no other case. */
  lemma {:induction false} DeliverReraises(w: World, signal: Signal, alive: set<nat>, k: nat)
    requires Inv(w) && k <= |w.runs| && Relayed(signal)
    requires forall j :: 0 <= j < k ==> !w.runs[j].listening
    requires exists j :: 0 <= j < |w.runs| && w.runs[j].listening
    ensures Reraises(w, Deliver(w, signal, alive, k), signal)
    decreases |w.runs| - k, 0
  {
    if k == |w.runs| {
    } else if !w.runs[k].listening {
      DeliverReraises(w, signal, alive, k + 1);
    } else {
      var mid := Heard(w, signal, alive, k);
      HeardKeeps(w, signal, alive, k);
      assert RunInv(w.runs[k]);
      HeardReraises(w, signal, alive, k);
      HeardOnce(w, signal, alive, k);
      DeliverRest(mid, signal, alive, k + 1);
      Carries(w, mid, Deliver(mid, signal, alive, k + 1), signal);
    }
  }

  /** The rest of the handlers, which may find nobody listening any more. */
  lemma {:induction false} DeliverRest(mid: World, signal: Signal, alive: set<nat>, k: nat)
    requires Inv(mid) && k <= |mid.runs| && Relayed(signal)
    requires forall j :: 0 <= j < k ==> !mid.runs[j].listening
    ensures var next := Deliver(mid, signal, alive, k);
      next == mid || (!AllDone(mid) && Reraises(mid, next, signal))
    decreases |mid.runs| - k, 1
  {
    if exists j :: 0 <= j < |mid.runs| && mid.runs[j].listening {
      ListenerIsNotDone(mid);
      DeliverReraises(mid, signal, alive, k);
    } else {
      DeliverNothing(mid, signal, alive, k);
    }
  }

  lemma DoneMeansAccounted(w: World)
    requires Inv(w) && AllDone(w)
    ensures EveryRunAccounted(w)
  {
    forall i | i in w.active ensures i < |w.runs| && Accounted(w.runs[i]) {
      assert RunInv(w.runs[i]);
    }
  }

  /** The whole effect of one event on the system's invariant and on the re-raises. */
  lemma NextKeeps(w: World, e: Event)
    requires Inv(w) && Enabled(w, e)
    ensures Inv(Next(w, e))
    ensures w.reraised <= Next(w, e).reraised
    ensures |Next(w, e).reraised| > |w.reraised| ==> AllDone(Next(w, e))
    ensures |w.runs| <= |Next(w, e).runs|
    ensures forall i :: 0 <= i < |w.runs| && w.runs[i].timedOut ==> Next(w, e).runs[i].timedOut
  {
    match e
    case Start(_, _) =>
    case Signalled(signal, alive) =>
      DeliverKeeps(w, signal, alive, 0);
      DeliverReraises(w, signal, alive, 0);
    case At(i, event) =>
      HandleKeeps(w.runs[i], event);
      ApplyKeeps(w, i, Handle(w.runs[i], event));
      ApplyReraises(w, i, Handle(w.runs[i], event));
  }

  lemma {:induction false} AfterKeeps(w: World, events: seq<Event>)
    requires Inv(w) && Feasible(w, events)
    ensures Inv(After(w, events))
    ensures w.reraised <= After(w, events).reraised
    ensures |w.runs| <= |After(w, events).runs|
    ensures forall i :: 0 <= i < |w.runs| && w.runs[i].timedOut ==> After(w, events).runs[i].timedOut
    decreases |events|
  {
    if events != [] {
      NextKeeps(w, events[0]);
      AfterKeeps(Next(w, events[0]), events[1..]);
    }
  }

  /** In every interleaving of any number of runs: a re-raise happens only when every run still
      in the shared set has passed a parent signal on to its process group, and since then the group
      was found gone or sent SIGKILL. */
  lemma ReraiseIsSafe(events: seq<Event>, e: Event)
    requires Feasible(EMPTY, events) && Enabled(After(EMPTY, events), e)
    requires |Next(After(EMPTY, events), e).reraised| > |After(EMPTY, events).reraised|
    ensures EveryRunAccounted(Next(After(EMPTY, events), e))
  {
    AfterKeeps(EMPTY, events);
    NextKeeps(After(EMPTY, events), e);
    DoneMeansAccounted(Next(After(EMPTY, events), e));
  }

  /** In every reachable world: a run is in the shared set exactly while it is unsettled or has a
      parent signal pending; a signalled run that is not done has its relay kill timer armed. */
  lemma ReachableRuns(events: seq<Event>, i: nat)
    requires Feasible(EMPTY, events) && i < |After(EMPTY, events).runs|
    ensures var w := After(EMPTY, events); var r := w.runs[i];
      && (i in w.active <==> r.outcome.None? || r.parentSignalPending.Some?)
      && (r.parentSignalPending.Some? && !r.stateDone ==> r.killTimer == Some(Relay(r.parentSignalPending.value)))
      && (r.outcome.None? && r.parentSignalPending.None? ==> r.listening)
  {
    AfterKeeps(EMPTY, events);
  }

  /** A run whose timeout fired is never resolved, however the events go on. */
  lemma TimedOutNeverResolves(events: seq<Event>, more: seq<Event>, i: nat)
    requires Feasible(EMPTY, events) && Feasible(After(EMPTY, events), more)
    requires i < |After(EMPTY, events).runs| && After(EMPTY, events).runs[i].timedOut
    ensures var w := After(After(EMPTY, events), more);
      i < |w.runs| && !(w.runs[i].outcome.Some? && w.runs[i].outcome.value.Resolved?)
  {
    AfterKeeps(EMPTY, events);
    AfterKeeps(After(EMPTY, events), more);
    var w := After(After(EMPTY, events), more);
    assert RunInv(w.runs[i]);
  }

  // Whether the last run to become done triggers the re-raise.

  ghost predicate AllSignalled(w: World) {
    forall i :: i in w.active ==> i < |w.runs| && w.runs[i].parentSignalPending.Some?
  }

  /** After a signal, the debt of one re-raise beyond base is paid as soon as every run is done. */
  ghost predicate Owed(w: World, base: nat) {
    && Inv(w) && AllSignalled(w)
    && base <= |w.reraised|
    && (AllDone(w) ==> base < |w.reraised|)
  }

  /** If one handler makes every run done, the run it belongs to was not. */
  lemma UndoneHere(w: World, i: nat, s: Step)
    requires Inv(w) && i < |w.runs| && AllSignalled(w) && !s.leaves
    requires !AllDone(w) && AllDone(Apply(w, i, s))
    ensures i in w.active && !w.runs[i].stateDone
  {
    var j :| j in w.active && !(j < |w.runs| && w.runs[j].stateSignal.Some? && w.runs[j].stateDone);
    assert RunInv(w.runs[j]);
    assert Apply(w, i, s).runs == w.runs[i := s.run];
  }

  lemma NobodyListens(w: World)
    requires Inv(w) && AllSignalled(w)
    ensures forall i :: 0 <= i < |w.runs| ==> !w.runs[i].listening
  {
    forall i | 0 <= i < |w.runs| ensures !w.runs[i].listening {
      assert RunInv(w.runs[i]);
    }
  }

  lemma OwedStep(w: World, e: Event, base: nat)
    requires Owed(w, base) && Enabled(w, e) && !e.Start?
    ensures Owed(Next(w, e), base)
    ensures Next(w, e).active == w.active
  {
    NextKeeps(w, e);
    NobodyListens(w);
    match e
    case Signalled(_, _) =>
      assert false;
    case At(i, event) =>
      var r, s := w.runs[i], Handle(w.runs[i], event);
      HandleKeeps(r, event);
      ApplyKeeps(w, i, s);
      ApplyReraises(w, i, s);
      assert !s.leaves;
      if AllDone(Next(w, e)) && !AllDone(w) {
        UndoneHere(w, i, s);
      }
  }

  lemma {:induction false} OwedAfter(w: World, events: seq<Event>, base: nat)
    requires Owed(w, base) && Feasible(w, events)
    requires forall e :: e in events ==> !e.Start?
    ensures Owed(After(w, events), base)
    ensures After(w, events).active == w.active
    decreases |events|
  {
    if events != [] {
      OwedStep(w, events[0], base);
      OwedAfter(Next(w, events[0]), events[1..], base);
    }
  }

  lemma SignalOwes(w: World, signal: Signal, alive: set<nat>)
    requires Inv(w) && Enabled(w, Signalled(signal, alive))
    ensures Owed(Next(w, Signalled(signal, alive)), |w.reraised|)
    ensures Next(w, Signalled(signal, alive)).active == w.active
  {
    DeliverKeeps(w, signal, alive, 0);
    DeliverReraises(w, signal, alive, 0);
    var next := Next(w, Signalled(signal, alive));
    forall i | i in next.active ensures next.runs[i].parentSignalPending.Some? {
      assert RunInv(next.runs[i]);
    }
  }

  /** If no run starts after a parent signal, then whatever else happens, once every run in the
      shared set is done the parent has been signalled again: the last run to become done does it. */
  lemma LastDoneReraises(events: seq<Event>, signal: Signal, alive: set<nat>, more: seq<Event>)
    requires Feasible(EMPTY, events) && Enabled(After(EMPTY, events), Signalled(signal, alive))
    requires Feasible(Next(After(EMPTY, events), Signalled(signal, alive)), more)
    requires forall e :: e in more ==> !e.Start?
    ensures var w := After(EMPTY, events);
      var end := After(Next(w, Signalled(signal, alive)), more);
      && end.active == w.active
      && (AllDone(end) ==> |end.reraised| > |w.reraised|)
  {
    var w := After(EMPTY, events);
    AfterKeeps(EMPTY, events);
    SignalOwes(w, signal, alive);
    OwedAfter(Next(w, Signalled(signal, alive)), more, |w.reraised|);
  }

  lemma NewRunIsNotDone(w: World, reject: bool, limit: Limit)
    requires Indexed(w)
    ensures !AllDone(Next(w, Start(reject, limit)))
  {
    assert |w.runs| in w.active + {|w.runs|};
  }

  /** The step that leaves every run in the shared set done re-raises exactly when it is a parent
      signal or belongs to a run that has one pending.  Otherwise an unsignalled run has settled and
      left: if that empties the set no re-raise was due, and if it does not, every run still in it
      is accounted for and the re-raise they waited for does not come. */
  lemma ReraiseLostOnlyByLeaving(events: seq<Event>, e: Event)
    requires Feasible(EMPTY, events) && Enabled(After(EMPTY, events), e)
    requires var w := After(EMPTY, events); !AllDone(w) && AllDone(Next(w, e))
    ensures var w, next := After(EMPTY, events), Next(After(EMPTY, events), e);
      && (|next.reraised| > |w.reraised| <==>
            e.Signalled? || (e.At? && w.runs[e.i].parentSignalPending.Some?))
      && (|next.reraised| == |w.reraised| ==>
            e.At? && e.i in w.active && next.active == w.active - {e.i} && EveryRunAccounted(next))
  {
    AfterKeeps(EMPTY, events);
    var w := After(EMPTY, events);
    NextKeeps(w, e);
    DoneMeansAccounted(Next(w, e));
    match e
    case Start(reject, limit) =>
      NewRunIsNotDone(w, reject, limit);
    case Signalled(signal, alive) =>
      DeliverKeeps(w, signal, alive, 0);
      DeliverReraises(w, signal, alive, 0);
    case At(i, event) =>
      var r, s := w.runs[i], Handle(w.runs[i], event);
      HandleKeeps(r, event);
      ApplyReraises(w, i, s);
      DoneByStep(w, i, s);
  }

  /** The step that leaves every run done makes its own run done or takes it out of the set. */
  lemma DoneByStep(w: World, i: nat, s: Step)
    requires Inv(w) && i < |w.runs| && StepInv(w.runs[i], s)
    requires s.run.parentSignalPending == w.runs[i].parentSignalPending
    requires !AllDone(w) && AllDone(Apply(w, i, s))
    ensures i in w.active
    ensures s.reraise.Some? <==> w.runs[i].parentSignalPending.Some?
    ensures s.reraise.None? ==> s.leaves
  {
    var r := w.runs[i];
    assert RunInv(r);
    var j :| j in w.active && !(j < |w.runs| && w.runs[j].stateSignal.Some? && w.runs[j].stateDone);
    assert RunInv(w.runs[j]);
    if j != i {
      assert Apply(w, i, s).runs[j] == w.runs[j];
    }
  }

  // The source gives no such promise once another run starts.

  const PLAIN: Run := NewRun(false, 1)
  const STUBBORN: Run := OnParentSignal(PLAIN, SIGINT, true).run
  const KILLED: Run := OnKillTimer(STUBBORN, Relay(SIGINT)).run
  const FINISHED: Run := OnClose(PLAIN, Exit(Some(0), None), false).run

  lemma SignalReachesOne()
    ensures var w := World([PLAIN], {0}, []);
      Enabled(w, Signalled(SIGINT, {0})) && Next(w, Signalled(SIGINT, {0})) == World([STUBBORN], {0}, [])
  {
    var w := World([PLAIN], {0}, []);
    assert w.runs[0].listening;
    var mid := Heard(w, SIGINT, {0}, 0);
    assert 0 in mid.active && !AllDone(mid);
    assert mid == World([STUBBORN], {0}, []);
    DeliverNothing(mid, SIGINT, {0}, 1);
  }

  lemma KilledWhileAnotherRuns()
    ensures var w := World([STUBBORN, PLAIN], {0, 1}, []);
      Enabled(w, At(0, KillTimerFires)) && Next(w, At(0, KillTimerFires)) == World([KILLED, PLAIN], {0, 1}, [])
  {
    assert 1 in {0, 1} && !AllDone(World([KILLED, PLAIN], {0, 1}, []));
  }

  lemma OtherRunFinishes()
    ensures var w := World([KILLED, PLAIN], {0, 1}, []); var e := At(1, ChildClose(Exit(Some(0), None), false));
      Enabled(w, e) && Next(w, e) == World([KILLED, FINISHED], {0}, []) && AllDone(Next(w, e))
  {
    assert {0, 1} - {1} == {0};
  }

  lemma Chain(w0: World, e: Event, w1: World, rest: seq<Event>, end: World)
    requires Enabled(w0, e) && Next(w0, e) == w1
    requires Feasible(w1, rest) && After(w1, rest) == end
    ensures Feasible(w0, [e] + rest) && After(w0, [e] + rest) == end
  {
    assert ([e] + rest)[1..] == rest;
  }

  /** One run is signalled and outlives its grace period while a second run, started after the
      signal, is still unsignalled; when that one settles and leaves, every run in the shared set
      is done and the parent was never signalled again. */
  lemma LaterStartLosesReraise() returns (events: seq<Event>)
    ensures Feasible(EMPTY, events)
    ensures After(EMPTY, events) == World([KILLED, FINISHED], {0}, []) && AllDone(After(EMPTY, events))
    ensures exists i :: 0 <= i < |events| && events[i].Signalled?
  {
    var w1, w2 := World([PLAIN], {0}, []), World([STUBBORN], {0}, []);
    var w3, w4 := World([STUBBORN, PLAIN], {0, 1}, []), World([KILLED, PLAIN], {0, 1}, []);
    var end := World([KILLED, FINISHED], {0}, []);
    var e3, e4 := At(0, KillTimerFires), At(1, ChildClose(Exit(Some(0), None), false));
    OtherRunFinishes();
    Chain(w4, e4, end, [], end);
    KilledWhileAnotherRuns();
    Chain(w3, e3, w4, [e4] + [], end);
    Chain(w2, Start(false, 1), w3, [e3] + ([e4] + []), end);
    SignalReachesOne();
    Chain(w1, Signalled(SIGINT, {0}), w2, [Start(false, 1)] + ([e3] + ([e4] + [])), end);
    Chain(EMPTY, Start(false, 1), w1, [Signalled(SIGINT, {0})] + ([Start(false, 1)] + ([e3] + ([e4] + []))), end);
    events := [Start(false, 1)] + ([Signalled(SIGINT, {0})] + ([Start(false, 1)] + ([e3] + ([e4] + []))));
    assert events[1].Signalled?;
  }

  // The kill timers always lead to the re-raise.

  function Waiting(w: World): set<nat> {
    set i | i in w.active && i < |w.runs| && !w.runs[i].stateDone
  }

  lemma TimerFires(w: World, base: nat, i: nat)
    requires Owed(w, base) && i in Waiting(w)
    ensures var e := At(i, KillTimerFires);
      Enabled(w, e) && Owed(Next(w, e), base) && Waiting(Next(w, e)) == Waiting(w) - {i}
  {
    var r := w.runs[i];
    var e := At(i, KillTimerFires);
    assert RunInv(r) && r.killTimer.Some?;
    KillTimerKeeps(r);
    OwedStep(w, e, base);
    var next := Next(w, e);
    assert next.runs[i].stateDone;
    assert forall j :: j in w.active && j != i ==> next.runs[j] == w.runs[j];
  }

  /** From a signalled system, letting the armed kill timers fire is possible, starts nothing, and
      ends with every run done and the parent signalled again. */
  lemma {:induction false} TimersFinish(w: World, base: nat) returns (events: seq<Event>)
    requires Owed(w, base)
    ensures Feasible(w, events) && |events| == |Waiting(w)|
    ensures forall e :: e in events ==> e.At? && e.event.KillTimerFires?
    ensures AllDone(After(w, events)) && |After(w, events).reraised| > base
    decreases |Waiting(w)|
  {
    if Waiting(w) == {} {
      forall i | i in w.active ensures i < |w.runs| && w.runs[i].stateSignal.Some? && w.runs[i].stateDone {
        assert RunInv(w.runs[i]);
        assert i !in Waiting(w);
      }
      events := [];
    } else {
      var i :| i in Waiting(w);
      TimerFires(w, base, i);
      var next := Next(w, At(i, KillTimerFires));
      var rest := TimersFinish(next, base);
      Chain(w, At(i, KillTimerFires), next, rest, After(next, rest));
      events := [At(i, KillTimerFires)] + rest;
    }
  }
}
