/** The parent-signal controller of scripts/anthropic-prompt-probe.ts.

    Handlers and attach run to completion; a scheduled stop starts before the next signal can be
    delivered, because it waits in the microtask queue of the turn that scheduled it.
 */
module PromptProbe {
  import opened Prelude

  datatype Signal = SIGHUP | SIGINT | SIGTERM

  /** What the controller does to the outside. */
  datatype Effect = ForceKill(target: nat) | Stop(target: nat) | Exit(code: nat)

  datatype Shutdown = Idle | Scheduled(target: nat, code: nat) | Running(target: nat, code: nat) | Finished

  datatype State = State(
    attachment: Option<nat>,
    forceKillPending: bool,
    receivedSignal: Option<Signal>,
    shutdown: Shutdown,
    installed: bool,
    log: seq<Effect>)

  const ARMED: State := State(None, false, None, Idle, true, [])

  /** 128 plus the signal's number. */
  function SignalExitCode(signal: Signal): nat {
    match signal
    case SIGHUP => 129
    case SIGINT => 130
    case SIGTERM => 143
  }

  datatype Event = Signalled(signal: Signal) | Attached(target: nat) | StopStarts | StopSettles | Disposed

  function StartShutdown(s: State): State {
    if s.attachment.None? || s.receivedSignal.None? || !s.shutdown.Idle? then s
    else
      s.(forceKillPending := false,
         log := if s.forceKillPending then s.log + [ForceKill(s.attachment.value)] else s.log,
         shutdown := Scheduled(s.attachment.value, SignalExitCode(s.receivedSignal.value)))
  }

  function OnSignal(s: State, signal: Signal): State {
    if s.receivedSignal.None? then StartShutdown(s.(receivedSignal := Some(signal)))
    else if s.attachment.Some? then s.(log := s.log + [ForceKill(s.attachment.value)])
    else s.(forceKillPending := true)
  }

  function OnAttach(s: State, target: nat): State {
    StartShutdown(if s.attachment.None? then s.(attachment := Some(target)) else s)
  }

  predicate Enabled(s: State, e: Event) {
    match e
    case Signalled(_) => s.installed && !s.shutdown.Scheduled? && !s.shutdown.Finished?
    case Attached(_) => !s.shutdown.Finished?
    case StopStarts => s.shutdown.Scheduled?
    case StopSettles => s.shutdown.Running?
    case Disposed => !s.shutdown.Finished?
  }

  function Next(s: State, e: Event): State
    requires Enabled(s, e)
  {
    match e
    case Signalled(signal) => OnSignal(s, signal)
    case Attached(target) => OnAttach(s, target)
    case StopStarts => s.(log := s.log + [Stop(s.shutdown.target)], shutdown := Running(s.shutdown.target, s.shutdown.code))
    case StopSettles => s.(installed := false, log := s.log + [Exit(s.shutdown.code)], shutdown := Finished)
    case Disposed => s.(installed := false)
  }

  predicate Feasible(s: State, events: seq<Event>)
    decreases |events|
  {
    events == [] || (Enabled(s, events[0]) && Feasible(Next(s, events[0]), events[1..]))
  }

  function After(s: State, events: seq<Event>): State
    requires Feasible(s, events)
    decreases |events|
  {
    if events == [] then s else After(Next(s, events[0]), events[1..])
  }

  // The same things read off the events alone.

  function FirstSignal(events: seq<Event>): Option<Signal> {
    if events == [] then None
    else if events[0].Signalled? then Some(events[0].signal)
    else FirstSignal(events[1..])
  }

  function FirstTarget(events: seq<Event>): Option<nat> {
    if events == [] then None
    else if events[0].Attached? then Some(events[0].target)
    else FirstTarget(events[1..])
  }

  function Signals(events: seq<Event>): nat {
    if events == [] then 0 else (if events[0].Signalled? then 1 else 0) + Signals(events[1..])
  }

  /** Signals before the first attachment. */
  function Early(events: seq<Event>): nat {
    if events == [] || events[0].Attached? then 0
    else (if events[0].Signalled? then 1 else 0) + Early(events[1..])
  }

  function Kills(target: nat, n: nat): (kills: seq<Effect>)
    ensures |kills| == n && forall i :: 0 <= i < n ==> kills[i] == ForceKill(target)
  {
    seq(n, _ => ForceKill(target))
  }

  /** Signals after the first attachment that find the shutdown under way. */
  function Repeats(early: nat, signals: nat): nat {
    if signals <= early then 0 else if early == 0 then signals - 1 else signals - early
  }

  /** All that has been done after the events: one kill if two signals or more came before the
      first attachment, the stop, one kill for every later signal but the one that started the
      shutdown, and the exit. */
  function Done(early: nat, signals: nat, target: nat, code: nat, stopped: bool, settled: bool): seq<Effect> {
    Kills(target, if early >= 2 then 1 else 0)
    + (if stopped then [Stop(target)] else [])
    + Kills(target, Repeats(early, signals))
    + (if settled then [Exit(code)] else [])
  }

  function DoneAfter(events: seq<Event>): seq<Effect> {
    if FirstSignal(events).None? || FirstTarget(events).None? then []
    else Done(Early(events), Signals(events), FirstTarget(events).value, SignalExitCode(FirstSignal(events).value),
              StopStarts in events, StopSettles in events)
  }

  lemma {:induction false} Grow(events: seq<Event>, e: Event)
    ensures FirstSignal(events + [e]) ==
      if FirstSignal(events).Some? then FirstSignal(events) else if e.Signalled? then Some(e.signal) else None
    ensures FirstTarget(events + [e]) ==
      if FirstTarget(events).Some? then FirstTarget(events) else if e.Attached? then Some(e.target) else None
    ensures Signals(events + [e]) == Signals(events) + if e.Signalled? then 1 else 0
    ensures Early(events + [e]) == Early(events) + if e.Signalled? && FirstTarget(events).None? then 1 else 0
  {
    if events == [] {
      assert [e][1..] == [];
    } else {
      assert (events + [e])[1..] == events[1..] + [e];
      Grow(events[1..], e);
    }
  }

  lemma {:induction false} Bounds(events: seq<Event>)
    ensures Early(events) <= Signals(events)
    ensures FirstSignal(events).Some? <==> Signals(events) > 0
    ensures FirstTarget(events).None? ==> Early(events) == Signals(events)
  {
    if events != [] {
      Bounds(events[1..]);
    }
  }

  /** The phase of the shutdown, read off the events. */
  ghost predicate InPhase(shutdown: Shutdown, events: seq<Event>) {
    var signal, target := FirstSignal(events), FirstTarget(events);
    if signal.None? || target.None? then shutdown.Idle? && StopStarts !in events && StopSettles !in events
    else
      var t, code := target.value, SignalExitCode(signal.value);
      if StopSettles in events then shutdown.Finished? && StopStarts in events
      else if StopStarts in events then shutdown == Running(t, code)
      else shutdown == Scheduled(t, code) && Repeats(Early(events), Signals(events)) == 0
  }

  /** The whole state, read off the events. */
  ghost predicate Tracks(s: State, events: seq<Event>) {
    && s.receivedSignal == FirstSignal(events) && s.attachment == FirstTarget(events)
    && (s.forceKillPending <==> s.attachment.None? && Early(events) >= 2)
    && InPhase(s.shutdown, events)
    && s.log == DoneAfter(events)
  }

  lemma SignalTracks(s: State, events: seq<Event>, signal: Signal)
    requires Tracks(s, events) && Enabled(s, Signalled(signal))
    ensures Tracks(Next(s, Signalled(signal)), events + [Signalled(signal)])
  {
    if s.receivedSignal.Some? && s.attachment.Some? {
      LateSignalTracks(s, events, signal);
    } else {
      EarlySignalTracks(s, events, signal);
    }
  }

  /** A signal that has no attachment to act on yet, or is the first. */
  lemma EarlySignalTracks(s: State, events: seq<Event>, signal: Signal)
    requires Tracks(s, events) && Enabled(s, Signalled(signal))
    requires s.receivedSignal.None? || s.attachment.None?
    ensures Tracks(Next(s, Signalled(signal)), events + [Signalled(signal)])
  {
    Grow(events, Signalled(signal));
    Bounds(events);
  }

  lemma LateSignalTracks(s: State, events: seq<Event>, signal: Signal)
    requires Tracks(s, events) && Enabled(s, Signalled(signal))
    requires s.receivedSignal.Some? && s.attachment.Some?
    ensures Tracks(Next(s, Signalled(signal)), events + [Signalled(signal)])
  {
    Grow(events, Signalled(signal));
    Bounds(events);
    var early, signals, t := Early(events), Signals(events), s.attachment.value;
    assert Repeats(early, signals + 1) == Repeats(early, signals) + 1;
    assert Kills(t, Repeats(early, signals + 1)) == Kills(t, Repeats(early, signals)) + [ForceKill(t)];
  }

  lemma AttachTracks(s: State, events: seq<Event>, target: nat)
    requires Tracks(s, events) && Enabled(s, Attached(target))
    ensures Tracks(Next(s, Attached(target)), events + [Attached(target)])
  {
    Grow(events, Attached(target));
    Bounds(events);
  }

  lemma StartTracks(s: State, events: seq<Event>)
    requires Tracks(s, events) && Enabled(s, StopStarts)
    ensures Tracks(Next(s, StopStarts), events + [StopStarts])
  {
    Grow(events, StopStarts);
    Bounds(events);
  }

  lemma SettleTracks(s: State, events: seq<Event>)
    requires Tracks(s, events) && Enabled(s, StopSettles)
    ensures Tracks(Next(s, StopSettles), events + [StopSettles])
  {
    Grow(events, StopSettles);
    Bounds(events);
  }

  lemma DisposeTracks(s: State, events: seq<Event>)
    requires Tracks(s, events) && Enabled(s, Disposed)
    ensures Tracks(Next(s, Disposed), events + [Disposed])
  {
    Grow(events, Disposed);
    Bounds(events);
  }

  lemma {:induction false} AfterTracks(s: State, past: seq<Event>, events: seq<Event>)
    requires Tracks(s, past) && Feasible(s, events)
    ensures Tracks(After(s, events), past + events)
    decreases |events|
  {
    if events == [] {
      assert past + events == past;
    } else {
      var e := events[0];
      match e {
        case Signalled(signal) => SignalTracks(s, past, signal);
        case Attached(target) => AttachTracks(s, past, target);
        case StopStarts => StartTracks(s, past);
        case StopSettles => SettleTracks(s, past);
        case Disposed => DisposeTracks(s, past);
      }
      AfterTracks(Next(s, e), past + [e], events[1..]);
      assert past + [e] + events[1..] == past + events;
    }
  }

  /** Over every run: the effects are exactly the ones the events call for, in that order. */
  lemma EffectsAreDetermined(events: seq<Event>)
    requires Feasible(ARMED, events)
    ensures After(ARMED, events).log == DoneAfter(events)
  {
    AfterTracks(ARMED, [], events);
    assert [] + events == events;
  }

  /** Where in the log the stop belongs: behind the one kill that early repeats cause. */
  function StopIndex(events: seq<Event>): nat {
    if Early(events) >= 2 then 1 else 0
  }

  /** The signals' numbers. */
  function NumberOf(signal: Signal): nat {
    if signal.SIGHUP? then 1 else if signal.SIGINT? then 2 else 15
  }

  /** What a log must look like, whatever the run. */
  ghost predicate Promises(log: seq<Effect>, k: nat, target: Option<nat>, signal: Option<Signal>) {
    forall i :: 0 <= i < |log| ==>
      && (i < k ==> target.Some? && log[i] == ForceKill(target.value))
      && (log[i].Stop? ==> i == k && target == Some(log[i].target))
      && (log[i].Exit? ==> i == |log| - 1 && signal.Some? && log[i].code == 128 + NumberOf(signal.value))
  }

  /** Over every run: stop is started at most once, on the first attachment, behind exactly one
      force-kill if two or more signals came before it and behind none otherwise; and the exit,
      if it comes, comes last, with the code of the first signal. */
  lemma StopOnceExitWithFirst(events: seq<Event>)
    requires Feasible(ARMED, events)
    ensures Promises(After(ARMED, events).log, StopIndex(events), FirstTarget(events), FirstSignal(events))
  {
    EffectsAreDetermined(events);
  }

  function CountKills(log: seq<Effect>): nat {
    if log == [] then 0 else CountKills(log[..|log| - 1]) + if log[|log| - 1].ForceKill? then 1 else 0
  }

  lemma {:induction false} CountBoth(a: seq<Effect>, b: seq<Effect>)
    ensures CountKills(a + b) == CountKills(a) + CountKills(b)
    decreases |b|
  {
    if b == [] {
      assert a + b == a;
    } else {
      assert (a + b)[..|a + b| - 1] == a + b[..|b| - 1];
      CountBoth(a, b[..|b| - 1]);
    }
  }

  lemma {:induction false} CountOfKills(kills: seq<Effect>)
    requires forall e :: e in kills ==> e.ForceKill?
    ensures CountKills(kills) == |kills|
  {
    if kills != [] {
      CountOfKills(kills[..|kills| - 1]);
    }
  }

  /** Over every run: two or more signals before the attachment are one kill, and every signal after
      it another, but for the one that starts the shutdown. */
  lemma SignalsEscalate(events: seq<Event>)
    requires Feasible(ARMED, events) && FirstSignal(events).Some? && FirstTarget(events).Some?
    ensures var early, all := Early(events), Signals(events);
      CountKills(After(ARMED, events).log) == (if early >= 2 then 1 else 0) + if early == 0 then all - 1 else all - early
  {
    EffectsAreDetermined(events);
    Bounds(events);
    var t, early, all := FirstTarget(events).value, Early(events), Signals(events);
    var first, later := Kills(t, if early >= 2 then 1 else 0), Kills(t, Repeats(early, all));
    var stop := if StopStarts in events then [Stop(t)] else [];
    var exit := if StopSettles in events then [Exit(SignalExitCode(FirstSignal(events).value))] else [];
    CountOfKills(first);
    CountOfKills(later);
    CountBoth(first, stop);
    CountBoth(first + stop, later);
    CountBoth(first + stop + later, exit);
    NoKillsIn(stop);
    NoKillsIn(exit);
  }

  lemma NoKillsIn(effects: seq<Effect>)
    requires effects == [] || (|effects| == 1 && !effects[0].ForceKill?)
    ensures CountKills(effects) == 0
  {
    if effects != [] {
      assert effects[..0] == [];
    }
  }

  /** Over every run: once there has been a signal and an attachment, in either order, and the
      turn that brought them together is over, the first attachment has been stopped. */
  lemma EarlySignalIsNotLost(events: seq<Event>)
    requires Feasible(ARMED, events) && !After(ARMED, events).shutdown.Scheduled?
    requires FirstSignal(events).Some? && FirstTarget(events).Some?
    ensures var log := After(ARMED, events).log;
      StopIndex(events) < |log| && log[StopIndex(events)] == Stop(FirstTarget(events).value)
  {
    AfterTracks(ARMED, [], events);
    assert [] + events == events;
    EffectsAreDetermined(events);
  }

  // The controller with its mutable locals.

  class Controller {
    var attachment: Option<nat>
    var forceKillPending: bool
    var receivedSignal: Option<Signal>
    var shutdown: Shutdown
    var installed: bool
    var log: seq<Effect>

    ghost function View(): State
      reads this
    {
      State(attachment, forceKillPending, receivedSignal, shutdown, installed, log)
    }

    constructor ()
      ensures View() == ARMED
    {
      attachment, forceKillPending, receivedSignal, shutdown, installed, log := None, false, None, Idle, true, [];
    }

    method ForceKillAttached()
      modifies this`log
      ensures log == if attachment.Some? then old(log) + [ForceKill(attachment.value)] else old(log)
    {
      if attachment.Some? {
        log := log + [ForceKill(attachment.value)];
      }
    }

    method BeginShutdown()
      modifies this
      ensures View() == StartShutdown(old(View()))
    {
      if attachment.None? || receivedSignal.None? || !shutdown.Idle? {
        return;
      }
      var exitCode := SignalExitCode(receivedSignal.value);
      if forceKillPending {
        forceKillPending := false;
        ForceKillAttached();
      }
      shutdown := Scheduled(attachment.value, exitCode);
    }

    method HandleSignal(signal: Signal)
      requires Enabled(View(), Signalled(signal))
      modifies this
      ensures View() == Next(old(View()), Signalled(signal))
    {
      if receivedSignal.Some? {
        if attachment.Some? {
          ForceKillAttached();
        } else {
          forceKillPending := true;
        }
        return;
      }
      receivedSignal := Some(signal);
      BeginShutdown();
    }

    method Attach(nextAttachment: nat)
      requires Enabled(View(), Attached(nextAttachment))
      modifies this
      ensures View() == Next(old(View()), Attached(nextAttachment))
    {
      if attachment.None? {
        attachment := Some(nextAttachment);
      }
      BeginShutdown();
    }

    method Dispose()
      requires Enabled(View(), Disposed)
      modifies this
      ensures View() == Next(old(View()), Disposed)
    {
      installed := false;
    }

    /** The microtask that calls stop on the attachment. */
    method RunStop()
      requires Enabled(View(), StopStarts)
      modifies this
      ensures View() == Next(old(View()), StopStarts)
    {
      log := log + [Stop(shutdown.target)];
      shutdown := Running(shutdown.target, shutdown.code);
    }

    /** stop has settled, either way: dispose and exit. */
    method Finish()
      requires Enabled(View(), StopSettles)
      modifies this
      ensures View() == Next(old(View()), StopSettles)
    {
      installed := false;
      log := log + [Exit(shutdown.code)];
      shutdown := Finished;
    }
  }
}
