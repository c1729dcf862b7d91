/** runProcess with its mutable locals and the module's shared set, as objects.

    A ProcessRun holds the locals that the closures of one runProcess call update; a
    ParentSignalState is its record in the shared set.  Every callback is a method, proved to do
    to the run, to the shared set and to the parent exactly what RunHandlers.Handle says.  An
    EventLoop holds the shared set and all runs; it is a World at any time, and what is true of
    every reachable World is true of it.
 */
module RunProcess {
  import opened Prelude
  import opened Utf8
  import opened OutputTail
  import opened RunHandlers

  class ParentSignalState {
    var done: bool
    var signal: Option<Signal>

    constructor ()
      ensures !done && signal == None
    {
      done, signal := false, None;
    }
  }

  /** The module-level set, and the signals the parent process sent itself. */
  class Registry {
    var active: set<ParentSignalState>
    var reraised: seq<Signal>

    constructor ()
      ensures active == {} && reraised == []
    {
      active, reraised := {}, [];
    }

    ghost predicate AllDone()
      reads this, active
    {
      forall s :: s in active ==> s.signal.Some? && s.done
    }

    method MaybeReraise(signal: Signal)
      modifies this`reraised
      ensures reraised == if AllDone() then old(reraised) + [signal] else old(reraised)
    {
      var rest := active;
      while rest != {}
        invariant rest <= active
        invariant forall s :: s in active && s !in rest ==> s.signal.Some? && s.done
        decreases rest
      {
        var state :| state in rest;
        if state.signal.None? || !state.done {
          return;
        }
        rest := rest - {state};
      }
      reraised := reraised + [signal];
    }
  }

  class ProcessRun {
    const rejectOnFailure: bool
    const state: ParentSignalState
    const registry: Registry
    const maxOutputChars: Limit
    var stdout: Capture
    var timeoutArmed: bool
    var timedOut: bool
    var outcome: Option<Outcome>
    var waitingForKillGrace: bool
    var killTimer: Option<KillTimer>
    var childClosedResult: Option<Exit>
    var parentSignalPending: Option<Signal>
    var listening: bool
    var sawError: bool
    var sawClose: bool
    var acts: seq<Act>

    ghost function View(): Run
      reads this, state
    {
      Run(rejectOnFailure, maxOutputChars, stdout, timeoutArmed, timedOut, outcome, waitingForKillGrace, killTimer,
          childClosedResult, parentSignalPending, state.signal, state.done, listening, sawError, sawClose, acts)
    }

    /** The run became step.run, and its record left the set and the parent was signalled as step says. */
    twostate predicate Took(step: Step)
      reads this, state, registry, registry.active
    {
      && View() == step.run
      && registry.active == (if step.leaves then old(registry.active) - {state} else old(registry.active))
      && registry.reraised ==
         if step.reraise.Some? && registry.AllDone() then old(registry.reraised) + [step.reraise.value]
         else old(registry.reraised)
    }

    constructor (rejectOnFailure: bool, maxOutputChars: Limit, registry: Registry)
      modifies registry
      ensures this.registry == registry && fresh(state)
      ensures View() == NewRun(rejectOnFailure, maxOutputChars)
      ensures registry.active == old(registry.active) + {state} && registry.reraised == old(registry.reraised)
    {
      this.rejectOnFailure := rejectOnFailure;
      this.maxOutputChars := maxOutputChars;
      this.registry := registry;
      state := new ParentSignalState();
      stdout, timeoutArmed, timedOut, outcome := NOTHING, true, false, None;
      waitingForKillGrace, killTimer, childClosedResult := false, None, None;
      parentSignalPending, listening := None, true;
      sawError, sawClose, acts := false, false, [];
      new;
      registry.active := registry.active + {state};
    }

    method SignalChild(signal: Signal)
      modifies this`acts
      ensures acts == old(acts) + [Sent(signal)]
    {
      acts := acts + [Sent(signal)];
    }

    method PassOn(signal: Signal)
      modifies this`acts
      ensures acts == old(acts) + [PassedOn(signal)]
    {
      acts := acts + [PassedOn(signal)];
    }

    /** A probe of the group that finds it gone. */
    method FindDead()
      modifies this`acts
      ensures acts == old(acts) + [FoundDead]
    {
      acts := acts + [FoundDead];
    }

    method MarkDone(signal: Signal)
      modifies state`done, registry`reraised
      ensures Took(RunHandlers.MarkDone(old(View()), signal))
    {
      state.done := true;
      registry.MaybeReraise(signal);
    }

    method Settle(result: Outcome)
      modifies this, registry
      ensures Took(RunHandlers.Settle(old(View()), result))
    {
      if outcome.Some? {
        return;
      }
      outcome := Some(result);
      timeoutArmed := false;
      if parentSignalPending.None? {
        killTimer := None;
        registry.active := registry.active - {state};
      }
      listening := false;
    }

    method FinishClose(exit: Exit)
      modifies this, registry
      ensures Took(RunHandlers.FinishClose(old(View()), exit))
    {
      var code := if exit.code.Some? then exit.code.value else 1;
      if timedOut {
        Settle(TimedOut);
      } else if code != 0 && rejectOnFailure {
        Settle(Failed);
      } else if code == 0 && stdout.truncatedChars > 0 {
        Settle(Truncated);
      } else {
        Settle(Resolved(code, stdout.text));
      }
    }

    /** The first half of a relay handler: note the signal, pass it on, stop listening. */
    method NoteParentSignal(signal: Signal)
      modifies this, state`signal
      ensures View() == old(View()).(parentSignalPending := Some(signal), stateSignal := Some(signal),
                                     acts := old(View()).acts + [PassedOn(signal)], listening := false)
    {
      parentSignalPending := Some(signal);
      state.signal := Some(signal);
      PassOn(signal);
      listening := false;
    }

    /** The second half, for a group that is still alive. */
    method ArmRelay(signal: Signal)
      modifies `waitingForKillGrace, `killTimer
      ensures View() == old(View()).(waitingForKillGrace := true, killTimer := Some(Relay(signal)))
    {
      waitingForKillGrace := true;
      killTimer := Some(Relay(signal));
    }

    /** The handler relayParentSignal installs; alive is what processGroupIsAlive reports. */
    method HandleParentSignal(signal: Signal, alive: bool)
      requires listening
      modifies this, state, registry
      ensures Took(OnParentSignal(old(View()), signal, alive))
    {
      NoteParentSignal(signal);
      if alive {
        ArmRelay(signal);
      } else {
        FindDead();
        MarkDone(signal);
      }
    }

    /** The callback of whichever kill timer is armed. */
    method HandleKillTimer()
      requires killTimer.Some?
      modifies this, state, registry
      ensures Took(OnKillTimer(old(View()), old(killTimer).value))
    {
      var timer := killTimer.value;
      waitingForKillGrace := false;
      killTimer := None;
      SignalChild(SIGKILL);
      match timer
      case Relay(signal) =>
        MarkDone(signal);
      case Grace =>
        if childClosedResult.Some? {
          FinishClose(childClosedResult.value);
        }
    }

    method ScheduleKill()
      modifies this
      ensures View() == RunHandlers.ScheduleKill(old(View()))
    {
      if waitingForKillGrace {
        return;
      }
      waitingForKillGrace := true;
      killTimer := Some(Grace);
    }

    method HandleTimeout()
      requires timeoutArmed
      modifies this
      ensures Took(OnTimeout(old(View())))
    {
      timeoutArmed := false;
      timedOut := true;
      SignalChild(SIGTERM);
      ScheduleKill();
    }

    /** The data handler of standard output. */
    method HandleData(chunk: seq<Byte>)
      modifies this`stdout
      ensures Took(OnData(old(View()), chunk))
    {
      stdout := AppendBoundedProcessOutput(stdout, Decode(chunk), maxOutputChars);
    }

    method HandleError()
      requires !sawError
      modifies this, registry
      ensures Took(OnError(old(View())))
    {
      sawError := true;
      Settle(SpawnError);
    }

    /** The first branch of the close handler. */
    method CloseSignalled(exit: Exit, alive: bool)
      requires parentSignalPending.Some?
      modifies this, state, registry
      ensures Took(OnClose(old(View()), exit, alive))
    {
      sawClose := true;
      if alive {
        childClosedResult := Some(exit);
      } else {
        DropRelay();
        MarkDone(parentSignalPending.value);
      }
    }

    /** The group is gone: the relay timer has nothing to kill. */
    method DropRelay()
      modifies `acts, `killTimer
      ensures View() == old(View()).(acts := old(View()).acts + [FoundDead], killTimer := None)
    {
      FindDead();
      killTimer := None;
    }

    /** The child's close handler; alive is what processGroupIsAlive reports where it is asked. */
    method HandleClose(exit: Exit, alive: bool)
      requires !sawClose
      modifies this, state, registry
      ensures Took(OnClose(old(View()), exit, alive))
    {
      if parentSignalPending.Some? {
        CloseSignalled(exit, alive);
        return;
      }
      sawClose := true;
      if waitingForKillGrace {
        if alive {
          childClosedResult := Some(exit);
          return;
        }
        FindDead();
      }
      FinishClose(exit);
    }

    method HandleEvent(e: RunEvent)
      requires CanHandle(View(), e)
      modifies this, state, registry
      ensures Took(Handle(old(View()), e))
    {
      match e
      case ParentSignal(signal, alive) => HandleParentSignal(signal, alive);
      case KillTimerFires => HandleKillTimer();
      case TimeoutFires => HandleTimeout();
      case ChildError => HandleError();
      case ChildClose(exit, alive) => HandleClose(exit, alive);
      case Data(chunk) => HandleData(chunk);
    }
  }
}

/** Any number of ProcessRuns around one shared set are a World of the Supervision module. */
module EventLoops {
  import opened Prelude
  import opened RunHandlers
  import opened Supervision
  import opened RunProcess
  import RunLives

  function States(runs: seq<ProcessRun>): set<ParentSignalState> {
    set run | run in runs :: run.state
  }

  ghost predicate Apart(runs: seq<ProcessRun>) {
    forall i, j :: 0 <= i < j < |runs| ==> runs[i] != runs[j] && runs[i].state != runs[j].state
  }

  /** The records of the runs with these numbers. */
  function Records(active: set<nat>, runs: seq<ProcessRun>): set<ParentSignalState> {
    set i | i in active && i < |runs| :: runs[i].state
  }

  /** The runs and the shared set look like the world. */
  ghost predicate Represents(w: World, runs: seq<ProcessRun>, registry: Registry)
    reads runs, States(runs), registry
  {
    && Indexed(w) && Apart(runs)
    && |runs| == |w.runs|
    && (forall i :: 0 <= i < |runs| ==> runs[i].registry == registry && runs[i].View() == w.runs[i])
    && registry.active == Records(w.active, runs)
    && registry.reraised == w.reraised
  }

  lemma RecordLeaves(active: set<nat>, runs: seq<ProcessRun>, i: nat)
    requires Apart(runs) && i < |runs|
    ensures Records(active - {i}, runs) == Records(active, runs) - {runs[i].state}
  {
  }

  /** The loop over the shared set sees what AllDone says. */
  lemma DoneInObjects(w: World, runs: seq<ProcessRun>, registry: Registry)
    requires Indexed(w) && |runs| == |w.runs| && registry.active == Records(w.active, runs)
    requires forall i :: 0 <= i < |runs| ==> runs[i].View() == w.runs[i]
    ensures registry.AllDone() <==> AllDone(w)
  {
    forall i | i in w.active ensures runs[i].state in registry.active {
    }
    if AllDone(w) {
      forall s | s in registry.active ensures s.signal.Some? && s.done {
        var i :| i in w.active && i < |runs| && runs[i].state == s;
        assert runs[i].View() == w.runs[i];
      }
    }
    if registry.AllDone() {
      forall i | i in w.active ensures w.runs[i].stateSignal.Some? && w.runs[i].stateDone {
        assert runs[i].View() == w.runs[i];
      }
    }
  }

  /** The world was w, and then run i took a step. */
  ghost predicate Stepped(w: World, runs: seq<ProcessRun>, registry: Registry, i: nat, step: Step)
    reads runs, States(runs), registry, registry.active
  {
    && Indexed(w) && Apart(runs) && |runs| == |w.runs| && i < |runs|
    && (forall j :: 0 <= j < |runs| ==>
          runs[j].registry == registry && runs[j].View() == if j == i then step.run else w.runs[j])
    && registry.active == (if step.leaves then Records(w.active, runs) - {runs[i].state} else Records(w.active, runs))
    && registry.reraised ==
       if step.reraise.Some? && registry.AllDone() then w.reraised + [step.reraise.value] else w.reraised
  }

  /** A handler of one run does to the objects what its step does to the world. */
  lemma StepApplies(w: World, runs: seq<ProcessRun>, registry: Registry, i: nat, step: Step)
    requires Stepped(w, runs, registry, i, step)
    ensures Represents(Apply(w, i, step), runs, registry)
  {
    var next := Apply(w, i, step);
    RecordLeaves(w.active, runs, i);
    assert registry.active == Records(next.active, runs);
    forall j | 0 <= j < |runs| ensures runs[j].View() == next.runs[j] {
    }
    DoneInObjects(next, runs, registry);
  }

  lemma NewRunApplies(w: World, runs: seq<ProcessRun>, run: ProcessRun)
    requires Indexed(w) && |runs| == |w.runs|
    ensures Records(w.active + {|runs|}, runs + [run]) == Records(w.active, runs) + {run.state}
  {
    var all := runs + [run];
    assert all[|runs|] == run;
    forall s | s in Records(w.active, runs) + {run.state} ensures s in Records(w.active + {|runs|}, all) {
      if s != run.state {
        var i :| i in w.active && i < |runs| && runs[i].state == s;
        assert all[i].state == s;
      }
    }
  }

  lemma ListenersShow(w: World, runs: seq<ProcessRun>, registry: Registry)
    requires Represents(w, runs, registry)
    requires exists i :: 0 <= i < |runs| && runs[i].listening
    ensures exists i :: 0 <= i < |w.runs| && w.runs[i].listening
  {
    var i :| 0 <= i < |runs| && runs[i].listening;
    assert runs[i].View() == w.runs[i];
  }

  ghost predicate RecordsAccounted(runs: seq<ProcessRun>, registry: Registry)
    reads runs, States(runs), registry
  {
    forall state :: state in registry.active ==>
      exists i :: 0 <= i < |runs| && runs[i].state == state && Accounted(runs[i].View())
  }

  lemma AccountedInObjects(w: World, runs: seq<ProcessRun>, registry: Registry)
    requires Represents(w, runs, registry) && EveryRunAccounted(w)
    ensures RecordsAccounted(runs, registry)
  {
    forall state | state in registry.active
      ensures exists i :: 0 <= i < |runs| && runs[i].state == state && Accounted(runs[i].View())
    {
      var i :| i in w.active && i < |runs| && runs[i].state == state;
      assert runs[i].View() == w.runs[i];
    }
  }

  /** The module's shared set with the runs of all calls, and the events that reached them. */
  class EventLoop {
    const registry: Registry
    var runs: seq<ProcessRun>
    ghost var history: seq<Event>

    ghost function Current(): World
      reads this
      requires Feasible(EMPTY, history)
    {
      After(EMPTY, history)
    }

    ghost predicate Valid()
      reads this, registry, runs, States(runs)
    {
      Feasible(EMPTY, history) && Represents(Current(), runs, registry)
    }

    /** If the parent was signalled again since there were base such signals, every record in the
        shared set belongs to a run whose group has ended since a signal was passed on to it. */
    ghost predicate ReraisedSafely(base: nat)
      reads this, registry, runs, States(runs)
    {
      |registry.reraised| > base ==> RecordsAccounted(runs, registry)
    }

    /** What is proved of every reachable world holds of the objects. */
    lemma ReraiseInObjects(before: seq<Event>, e: Event)
      requires Feasible(EMPTY, before) && Enabled(After(EMPTY, before), e)
      requires Valid() && Current() == Next(After(EMPTY, before), e)
      ensures ReraisedSafely(|After(EMPTY, before).reraised|)
    {
      if |registry.reraised| > |After(EMPTY, before).reraised| {
        ReraiseIsSafe(before, e);
        AccountedInObjects(Current(), runs, registry);
      }
    }

    constructor ()
      ensures Valid() && history == [] && runs == [] && fresh(registry)
    {
      registry := new Registry();
      runs, history := [], [];
    }

    /** The history takes the event too. */
    ghost method Record(e: Event)
      requires Feasible(EMPTY, history) && Enabled(Current(), e) && Represents(Next(Current(), e), runs, registry)
      modifies this`history
      ensures Valid() && history == old(history) + [e]
      ensures ReraisedSafely(|old(Current()).reraised|)
    {
      RunLives.FeasibleSnoc(EMPTY, history, e);
      history := history + [e];
      ReraiseInObjects(old(history), e);
    }

    /** A call of runProcess. */
    method Start(rejectOnFailure: bool, maxOutputChars: Limit)
      requires Valid()
      modifies this`runs, this`history, registry
      ensures Valid() && history == old(history) + [Event.Start(rejectOnFailure, maxOutputChars)]
      ensures |runs| == |old(runs)| + 1 && old(runs) <= runs && registry.reraised == old(registry.reraised)
    {
      ghost var w := Current();
      var run := new ProcessRun(rejectOnFailure, maxOutputChars, registry);
      NewRunApplies(w, runs, run);
      runs := runs + [run];
      Record(Event.Start(rejectOnFailure, maxOutputChars));
    }

    /** The handler of run i alone. */
    method Take(i: nat, e: RunEvent, ghost w: World)
      requires Represents(w, runs, registry) && i < |runs| && CanHandle(runs[i].View(), e)
      modifies registry, runs[i], runs[i].state
      ensures Represents(Apply(w, i, Handle(w.runs[i], e)), runs, registry)
    {
      runs[i].HandleEvent(e);
      StepApplies(w, runs, registry, i, Handle(w.runs[i], e));
    }

    /** Any event that reaches run i, but a parent signal. */
    method Dispatch(i: nat, e: RunEvent)
      requires Valid() && i < |runs| && !e.ParentSignal? && CanHandle(runs[i].View(), e)
      modifies this`history, registry, runs[i], runs[i].state
      ensures Valid() && history == old(history) + [At(i, e)]
      ensures ReraisedSafely(|old(registry.reraised)|)
    {
      Take(i, e, Current());
      Record(At(i, e));
    }

    /** Run k hears the signal if it listens. */
    method Hear(signal: Signal, alive: set<nat>, k: nat, ghost w: World)
      requires Represents(w, runs, registry) && k < |runs| && Relayed(signal)
      modifies registry, runs[k], runs[k].state
      ensures Represents(if w.runs[k].listening then Heard(w, signal, alive, k) else w, runs, registry)
    {
      assert runs[k].View() == w.runs[k];
      if runs[k].listening {
        Take(k, ParentSignal(signal, k in alive), w);
      }
    }

    /** The handlers of one signal, in the order the runs started. */
    method HandleSignal(signal: Signal, alive: set<nat>, ghost w: World)
      requires Represents(w, runs, registry) && Relayed(signal)
      modifies registry, runs, States(runs)
      ensures Represents(Deliver(w, signal, alive, 0), runs, registry)
    {
      ghost var mid := w;
      var k := 0;
      while k < |runs|
        invariant k <= |runs| && Represents(mid, runs, registry)
        invariant Deliver(mid, signal, alive, k) == Deliver(w, signal, alive, 0)
      {
        Hear(signal, alive, k, mid);
        mid := if mid.runs[k].listening then Heard(mid, signal, alive, k) else mid;
        k := k + 1;
      }
    }

    /** A parent signal reaches all runs that listen; the groups of those in alive are found alive. */
    method Emit(signal: Signal, alive: set<nat>)
      requires Valid() && Relayed(signal) && exists i :: 0 <= i < |runs| && runs[i].listening
      modifies this`history, registry, runs, States(runs)
      ensures Valid() && history == old(history) + [Signalled(signal, alive)] && runs == old(runs)
      ensures ReraisedSafely(|old(registry.reraised)|)
    {
      ListenersShow(Current(), runs, registry);
      HandleSignal(signal, alive, Current());
      Record(Signalled(signal, alive));
    }
  }
}
