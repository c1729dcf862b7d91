/** What becomes of a run, read off the events that reach it. */
module RunOutcomes {
  import opened Prelude
  import opened Utf8
  import opened OutputTail
  import opened RunHandlers
  import opened Supervision
  import opened RunLives

  predicate IsNew(r: Run) {
    r == NewRun(r.rejectOnFailure, r.maxOutputChars)
  }

  /** The chunks of standard output, in order. */
  function Received(es: seq<RunEvent>): seq<seq<Byte>> {
    if es == [] then []
    else Received(Init(es)) + if Last(es).Data? then [Last(es).chunk] else []
  }

  /** The exit the child closed with. */
  function CloseOf(es: seq<RunEvent>): Option<Exit> {
    if es == [] then None
    else if Last(es).ChildClose? then Some(Last(es).exit)
    else CloseOf(Init(es))
  }

  // What every life keeps.

  lemma {:induction false} LifeKeeps(r: Run, es: seq<RunEvent>)
    requires IsNew(r) && Possible(r, es)
    ensures RunInv(Life(r, es))
  {
    if es != [] {
      LifeKeeps(r, Init(es));
      if CanHandle(Life(r, Init(es)), Last(es)) {
        HandleKeeps(Life(r, Init(es)), Last(es));
      }
    }
  }

  /** What a step notes down about its event, and what it leaves alone. */
  predicate Notes(r: Run, e: RunEvent, after: Run) {
    var noted :=
      && after.rejectOnFailure == r.rejectOnFailure && after.maxOutputChars == r.maxOutputChars
      && after.sawClose == (r.sawClose || e.ChildClose?)
      && after.sawError == (r.sawError || e.ChildError?)
      && after.timedOut == (r.timedOut || e.TimeoutFires?)
      && after.stdout ==
         if e.Data? then AppendBoundedProcessOutput(r.stdout, Decode(e.chunk), r.maxOutputChars) else r.stdout;
    noted
  }

  predicate SameNotes(r: Run, q: Run) {
    var same :=
      && r.rejectOnFailure == q.rejectOnFailure && r.maxOutputChars == q.maxOutputChars
      && r.sawClose == q.sawClose && r.sawError == q.sawError && r.timedOut == q.timedOut && r.stdout == q.stdout;
    same
  }

  lemma SettleNotes(r: Run, outcome: Outcome)
    ensures SameNotes(RunHandlers.Settle(r, outcome).run, r)
  {
  }

  lemma KillTimerNotes(r: Run)
    requires r.killTimer.Some?
    ensures SameNotes(OnKillTimer(r, r.killTimer.value).run, r)
  {
    var waited := r.(waitingForKillGrace := false, killTimer := None, acts := r.acts + [Sent(SIGKILL)]);
    if r.killTimer.value.Grace? && r.childClosedResult.Some? {
      SettleNotes(waited, CloseOutcome(waited, r.childClosedResult.value));
    }
  }

  lemma CloseNotes(r: Run, exit: Exit, alive: bool)
    ensures SameNotes(OnClose(r, exit, alive).run, r.(sawClose := true))
  {
    var closed := r.(sawClose := true);
    var probed := closed.(acts := r.acts + [FoundDead]);
    SettleNotes(closed, CloseOutcome(closed, exit));
    SettleNotes(probed, CloseOutcome(probed, exit));
  }

  /** From fields that stay to what the event changes. */
  lemma NotesOf(r: Run, e: RunEvent, noted: Run, after: Run)
    requires SameNotes(after, noted) && Notes(r, e, noted)
    ensures Notes(r, e, after)
  {
  }

  lemma SignalNotes(r: Run, signal: Signal, alive: bool)
    ensures SameNotes(OnParentSignal(r, signal, alive).run, r)
  {
  }

  lemma TimeoutNotes(r: Run)
    ensures SameNotes(OnTimeout(r).run, r.(timedOut := true))
  {
  }

  lemma SignalIsNoted(r: Run, signal: Signal, alive: bool)
    ensures Notes(r, ParentSignal(signal, alive), r)
    ensures Notes(r, ParentSignal(signal, alive), OnParentSignal(r, signal, alive).run)
  {
    SignalNotes(r, signal, alive);
    NotesOf(r, ParentSignal(signal, alive), r, OnParentSignal(r, signal, alive).run);
  }

  lemma KillTimerIsNoted(r: Run)
    requires r.killTimer.Some?
    ensures Notes(r, KillTimerFires, OnKillTimer(r, r.killTimer.value).run)
  {
    KillTimerNotes(r);
    NotesOf(r, KillTimerFires, r, OnKillTimer(r, r.killTimer.value).run);
  }

  lemma TimeoutIsNoted(r: Run)
    ensures Notes(r, TimeoutFires, OnTimeout(r).run)
  {
    TimeoutNotes(r);
    NotesOf(r, TimeoutFires, r.(timedOut := true), OnTimeout(r).run);
  }

  lemma ErrorIsNoted(r: Run)
    ensures Notes(r, ChildError, OnError(r).run)
  {
    SettleNotes(r.(sawError := true), SpawnError);
    NotesOf(r, ChildError, r.(sawError := true), OnError(r).run);
  }

  lemma CloseIsNoted(r: Run, exit: Exit, alive: bool)
    ensures Notes(r, ChildClose(exit, alive), OnClose(r, exit, alive).run)
  {
    CloseNotes(r, exit, alive);
    NotesOf(r, ChildClose(exit, alive), r.(sawClose := true), OnClose(r, exit, alive).run);
  }

  lemma LiveNotes(r: Run, e: RunEvent)
    requires CanHandle(r, e) || e.ParentSignal?
    ensures Notes(r, e, Live(r, e))
  {
    match e
    case ParentSignal(signal, alive) => SignalIsNoted(r, signal, alive);
    case KillTimerFires => KillTimerIsNoted(r);
    case TimeoutFires => TimeoutIsNoted(r);
    case ChildError => ErrorIsNoted(r);
    case ChildClose(exit, alive) => CloseIsNoted(r, exit, alive);
    case Data(_) =>
  }

  ghost predicate Marked(start: Run, r: Run, es: seq<RunEvent>) {
    var marked :=
      && r.rejectOnFailure == start.rejectOnFailure && r.maxOutputChars == start.maxOutputChars
      && (r.sawClose <==> CloseOf(es).Some?)
      && (r.sawError <==> ChildError in es)
      && (r.timedOut <==> TimeoutFires in es)
      && r.stdout == CaptureAll(Received(es), r.maxOutputChars);
    marked
  }

  lemma ReceivedMore(es: seq<RunEvent>, maxOutputChars: Limit)
    requires es != []
    ensures var e, capture := Last(es), CaptureAll(Received(Init(es)), maxOutputChars);
      CaptureAll(Received(es), maxOutputChars)
        == if e.Data? then AppendBoundedProcessOutput(capture, Decode(e.chunk), maxOutputChars) else capture
  {
    var before := Received(Init(es));
    if Last(es).Data? {
      assert Init(before + [Last(es).chunk]) == before && Last(before + [Last(es).chunk]) == Last(es).chunk;
    } else {
      assert Received(es) == before;
    }
  }

  lemma SeenMore(es: seq<RunEvent>, x: RunEvent)
    requires es != []
    ensures x in es <==> x in Init(es) || x == Last(es)
  {
    assert es == Init(es) + [Last(es)];
  }

  lemma MarkedNext(start: Run, r: Run, es: seq<RunEvent>, after: Run)
    requires es != [] && Marked(start, r, Init(es)) && Notes(r, Last(es), after)
    ensures Marked(start, after, es)
  {
    ReceivedMore(es, r.maxOutputChars);
    SeenMore(es, ChildError);
    SeenMore(es, TimeoutFires);
  }

  /** A run remembers its close, its error and its timeout, and captures its output. */
  lemma {:induction false} LifeIsMarked(r: Run, es: seq<RunEvent>)
    requires IsNew(r) && Possible(r, es)
    ensures Marked(r, Life(r, es), es)
  {
    if es != [] {
      LifeIsMarked(r, Init(es));
      LiveNotes(Life(r, Init(es)), Last(es));
      MarkedNext(r, Life(r, Init(es)), es, Life(r, es));
    }
  }

  // How a run settles.

  /** The outcome of a close: what the exit, the timeout, the output and the caller's wish to be
      told of failures make of it. */
  predicate Concludes(o: Outcome, reject: bool, late: bool, exit: Exit, capture: Capture) {
    match o
    case TimedOut => late
    case Failed => !late && reject && exit.code != Some(0)
    case Truncated => !late && exit.code == Some(0) && capture.truncatedChars > 0
    case Resolved(code, text) =>
      && !late && text == capture.text
      && (exit.code == Some(code) || (exit.code.None? && code == 1))
      && (if code == 0 then capture.truncatedChars == 0 else !reject)
    case SpawnError => false
  }

  /** A settled run was settled by its close, unless by an error. */
  ghost predicate Settled(r: Run, es: seq<RunEvent>) {
    var settled :=
      && (r.childClosedResult.Some? ==> r.childClosedResult == CloseOf(es))
      && (r.sawError ==> r.outcome.Some?)
      && (r.outcome == Some(SpawnError) ==> r.sawError)
      && (r.outcome.Some? && !r.outcome.value.SpawnError? ==>
            && CloseOf(es).Some?
            && Concludes(r.outcome.value, r.rejectOnFailure, r.timedOut, CloseOf(es).value, r.stdout));
    settled
  }

  lemma CloseConcludes(r: Run, exit: Exit)
    ensures Concludes(CloseOutcome(r, exit), r.rejectOnFailure, r.timedOut, exit, r.stdout)
  {
  }

  lemma FinishSettles(r: Run, es: seq<RunEvent>, exit: Exit)
    requires Settled(r, es) && CloseOf(es) == Some(exit)
    ensures Settled(RunHandlers.FinishClose(r, exit).run, es)
  {
    CloseConcludes(r, exit);
  }

  lemma WaitedSettles(r: Run, es: seq<RunEvent>, waited: Run)
    requires Settled(r, es)
    requires waited == r.(waitingForKillGrace := false, killTimer := None, acts := waited.acts, stateDone := waited.stateDone)
    ensures Settled(waited, es)
  {
  }

  lemma KillTimerSettles(r: Run, es: seq<RunEvent>)
    requires Settled(r, es) && r.killTimer.Some?
    ensures Settled(OnKillTimer(r, r.killTimer.value).run, es)
  {
    var waited := r.(waitingForKillGrace := false, killTimer := None, acts := r.acts + [Sent(SIGKILL)]);
    WaitedSettles(r, es, waited);
    if r.killTimer.value.Relay? {
      WaitedSettles(r, es, waited.(stateDone := true));
    } else if r.childClosedResult.Some? {
      FinishSettles(waited, es, r.childClosedResult.value);
    }
  }

  lemma CloseSettles(r: Run, es: seq<RunEvent>, exit: Exit, alive: bool)
    requires es != [] && Last(es) == ChildClose(exit, alive)
    requires RunInv(r) && Settled(r, Init(es)) && !r.sawClose && CloseOf(Init(es)).None?
    ensures Settled(OnClose(r, exit, alive).run, es)
  {
    var closed := r.(sawClose := true);
    if r.parentSignalPending.None? {
      FinishSettles(closed, es, exit);
      FinishSettles(closed.(acts := r.acts + [FoundDead]), es, exit);
    }
  }

  /** Nothing that concerns the outcome has changed. */
  lemma SameSettles(r: Run, q: Run, es: seq<RunEvent>)
    requires es != [] && CloseOf(es) == CloseOf(Init(es)) && Settled(r, Init(es))
    requires q.childClosedResult == r.childClosedResult && q.outcome == r.outcome && SameNotes(q, r)
    ensures Settled(q, es)
  {
  }

  lemma SignalSettles(r: Run, es: seq<RunEvent>, signal: Signal, alive: bool)
    requires es != [] && Last(es) == ParentSignal(signal, alive) && Settled(r, Init(es))
    ensures Settled(OnParentSignal(r, signal, alive).run, es)
  {
    SignalNotes(r, signal, alive);
    SameSettles(r, OnParentSignal(r, signal, alive).run, es);
  }

  /** A timeout can only fire on an unsettled run, and output only come before the close. */
  lemma OpenSettles(r: Run, es: seq<RunEvent>, q: Run)
    requires es != [] && CloseOf(es) == CloseOf(Init(es)) && Settled(r, Init(es)) && r.outcome.None?
    requires q.childClosedResult == r.childClosedResult && q.outcome == None && q.sawError == r.sawError
    ensures Settled(q, es)
  {
  }

  lemma TimeoutSettles(r: Run, es: seq<RunEvent>)
    requires es != [] && Last(es) == TimeoutFires && Settled(r, Init(es)) && r.outcome.None?
    ensures Settled(OnTimeout(r).run, es)
  {
    OpenSettles(r, es, OnTimeout(r).run);
  }

  lemma ErrorSettles(r: Run, es: seq<RunEvent>)
    requires es != [] && Last(es) == ChildError && Settled(r, Init(es))
    ensures Settled(OnError(r).run, es)
  {
  }

  lemma DataSettles(r: Run, es: seq<RunEvent>, chunk: seq<Byte>)
    requires es != [] && Last(es) == Data(chunk) && Settled(r, Init(es))
    requires CloseOf(Init(es)).None?
    ensures Settled(OnData(r, chunk).run, es)
  {
  }

  lemma OtherSettles(r: Run, es: seq<RunEvent>)
    requires es != [] && !Last(es).ChildClose? && !Last(es).KillTimerFires?
    requires RunInv(r) && Settled(r, Init(es)) && CanHandle(r, Last(es))
    requires r.sawClose <==> CloseOf(Init(es)).Some?
    ensures Settled(Handle(r, Last(es)).run, es)
  {
    match Last(es)
    case ParentSignal(signal, alive) => SignalSettles(r, es, signal, alive);
    case TimeoutFires => TimeoutSettles(r, es);
    case ChildError => ErrorSettles(r, es);
    case Data(chunk) => DataSettles(r, es, chunk);
  }

  lemma {:induction false} LifeIsSettled(r: Run, es: seq<RunEvent>)
    requires IsNew(r) && Possible(r, es)
    ensures Settled(Life(r, es), es)
  {
    if es != [] {
      var before := Life(r, Init(es));
      LifeIsSettled(r, Init(es));
      LifeKeeps(r, Init(es));
      LifeIsMarked(r, Init(es));
      match Last(es)
      case ChildClose(exit, alive) => CloseSettles(before, es, exit, alive);
      case KillTimerFires => KillTimerSettles(before, es);
      case _ =>
        if CanHandle(before, Last(es)) {
          OtherSettles(before, es);
        }
    }
  }

  // Nothing hangs, and a timeout is carried through.

  /** A closed run waits for nothing but its grace timer; a timed-out run was sent SIGTERM, waits for
      SIGKILL or was sent it, and settles as timed out only once its group has ended. */
  ghost predicate Pressed(r: Run) {
    var open := r.outcome.None? && r.parentSignalPending.None?;
    var pressed :=
      && (open && r.sawClose ==> r.killTimer == Some(Grace) && r.childClosedResult.Some?)
      && (open && r.waitingForKillGrace ==> r.killTimer == Some(Grace))
      && (r.killTimer == Some(Grace) ==> r.timedOut)
      && (r.timedOut ==> Sent(SIGTERM) in r.acts)
      && (open && r.timedOut ==> r.killTimer == Some(Grace) || Sent(SIGKILL) in r.acts)
      && (r.outcome == Some(TimedOut) ==> Sent(SIGKILL) in r.acts || FoundDead in r.acts);
    pressed
  }

  lemma KillTimerPresses(r: Run)
    requires RunInv(r) && r.killTimer.Some? && Pressed(r)
    ensures Pressed(OnKillTimer(r, r.killTimer.value).run)
  {
  }

  lemma ClosePresses(r: Run, exit: Exit, alive: bool)
    requires RunInv(r) && Pressed(r)
    ensures Pressed(OnClose(r, exit, alive).run)
  {
  }

  lemma SignalPresses(r: Run, signal: Signal, alive: bool)
    requires RunInv(r) && Pressed(r)
    ensures Pressed(OnParentSignal(r, signal, alive).run)
  {
  }

  lemma HandlePresses(r: Run, e: RunEvent)
    requires RunInv(r) && Pressed(r) && CanHandle(r, e)
    ensures Pressed(Handle(r, e).run)
  {
    match e
    case ParentSignal(signal, alive) => SignalPresses(r, signal, alive);
    case KillTimerFires => KillTimerPresses(r);
    case TimeoutFires =>
    case ChildError =>
    case ChildClose(exit, alive) => ClosePresses(r, exit, alive);
    case Data(_) =>
  }

  lemma {:induction false} LifeIsPressed(r: Run, es: seq<RunEvent>)
    requires IsNew(r) && Possible(r, es)
    ensures Pressed(Life(r, es))
  {
    if es != [] {
      LifeIsPressed(r, Init(es));
      LifeKeeps(r, Init(es));
      if CanHandle(Life(r, Init(es)), Last(es)) {
        HandlePresses(Life(r, Init(es)), Last(es));
      }
    }
  }

  // What is done to the group, and why.

  /** The first signal of the parent. */
  function SignalOf(es: seq<RunEvent>): Option<Signal> {
    if es == [] then None
    else if SignalOf(Init(es)).Some? then SignalOf(Init(es))
    else if Last(es).ParentSignal? then Some(Last(es).signal)
    else None
  }

  /** The event shows the group gone, or kills it. */
  predicate Ends(e: RunEvent) {
    e.KillTimerFires? || ((e.ParentSignal? || e.ChildClose?) && !e.alive)
  }

  /** The group was gone at the parent's first signal, or has been found gone or killed since. */
  predicate EndedIn(es: seq<RunEvent>) {
    es != [] &&
    (EndedIn(Init(es)) || (Ends(Last(es)) && if Last(es).ParentSignal? then SignalOf(Init(es)).None? else SignalOf(Init(es)).Some?))
  }

  predicate Finds(e: RunEvent) {
    (e.ParentSignal? || e.ChildClose?) && !e.alive
  }

  /** Every act has its event, and every signal sent was due. */
  ghost predicate Acted(r: Run, es: seq<RunEvent>) {
    var acted :=
      && (Sent(SIGKILL) in r.acts <==> KillTimerFires in es)
      && (Sent(SIGTERM) in r.acts <==> TimeoutFires in es)
      && (forall s :: Sent(s) in r.acts ==> s == SIGKILL || s == SIGTERM)
      && (forall s :: PassedOn(s) in r.acts <==> r.parentSignalPending == Some(s))
      && (FoundDead in r.acts ==> exists k :: 0 <= k < |es| && Finds(es[k]));
    acted
  }

  /** What the events add to the acts. */
  function ActsOf(r: Run, e: RunEvent): seq<Act> {
    match e
    case ParentSignal(signal, alive) => [PassedOn(signal)] + if alive then [] else [FoundDead]
    case KillTimerFires => [Sent(SIGKILL)]
    case TimeoutFires => [Sent(SIGTERM)]
    case ChildError => []
    case ChildClose(_, alive) => if !alive && (r.parentSignalPending.Some? || r.waitingForKillGrace) then [FoundDead] else []
    case Data(_) => []
  }

  /** What was done to the group, the signal that is pending, and whether the run is done with it. */
  predicate HasDone(r: Run, acts: seq<Act>, pending: Option<Signal>, done: bool) {
    var has := r.acts == acts && r.parentSignalPending == pending && r.stateDone == done;
    has
  }

  lemma SettleDeeds(r: Run, outcome: Outcome)
    ensures HasDone(RunHandlers.Settle(r, outcome).run, r.acts, r.parentSignalPending, r.stateDone)
  {
  }

  lemma KillTimerDeeds(r: Run)
    requires RunInv(r) && r.killTimer.Some?
    ensures HasDone(OnKillTimer(r, r.killTimer.value).run, r.acts + [Sent(SIGKILL)], r.parentSignalPending,
                    r.stateDone || r.parentSignalPending.Some?)
  {
    var waited := r.(waitingForKillGrace := false, killTimer := None, acts := r.acts + [Sent(SIGKILL)]);
    if r.killTimer.value.Grace? && r.childClosedResult.Some? {
      SettleDeeds(waited, CloseOutcome(waited, r.childClosedResult.value));
    }
  }

  lemma CloseDeeds(r: Run, exit: Exit, alive: bool)
    ensures HasDone(OnClose(r, exit, alive).run, r.acts + ActsOf(r, ChildClose(exit, alive)), r.parentSignalPending,
                    r.stateDone || (!alive && r.parentSignalPending.Some?))
  {
    var closed := r.(sawClose := true);
    var probed := closed.(acts := r.acts + [FoundDead]);
    SettleDeeds(closed, CloseOutcome(closed, exit));
    SettleDeeds(probed, CloseOutcome(probed, exit));
  }

  lemma LiveSignalDeeds(r: Run, signal: Signal)
    ensures HasDone(OnParentSignal(r, signal, true).run, r.acts + [PassedOn(signal)], Some(signal), r.stateDone)
  {
  }

  lemma DeadSignalDeeds(r: Run, signal: Signal)
    ensures HasDone(OnParentSignal(r, signal, false).run, r.acts + [PassedOn(signal)] + [FoundDead], Some(signal), true)
  {
  }

  lemma SignalDeeds(r: Run, signal: Signal, alive: bool)
    ensures HasDone(OnParentSignal(r, signal, alive).run, r.acts + ActsOf(r, ParentSignal(signal, alive)), Some(signal),
                    r.stateDone || !alive)
  {
    if alive {
      LiveSignalDeeds(r, signal);
    } else {
      DeadSignalDeeds(r, signal);
      assert r.acts + ([PassedOn(signal)] + [FoundDead]) == r.acts + [PassedOn(signal)] + [FoundDead];
    }
  }

  lemma TimeoutDeeds(r: Run)
    ensures HasDone(OnTimeout(r).run, r.acts + [Sent(SIGTERM)], r.parentSignalPending, r.stateDone)
  {
  }

  /** The event was answered as it calls for. */
  predicate Answers(r: Run, e: RunEvent, after: Run) {
    HasDone(after, r.acts + ActsOf(r, e), if e.ParentSignal? then Some(e.signal) else r.parentSignalPending,
            r.stateDone || (Ends(e) && (e.ParentSignal? || r.parentSignalPending.Some?)))
  }

  lemma SignalAnswers(r: Run, signal: Signal, alive: bool)
    ensures Answers(r, ParentSignal(signal, alive), OnParentSignal(r, signal, alive).run)
  {
    SignalDeeds(r, signal, alive);
  }

  lemma KillTimerAnswers(r: Run)
    requires RunInv(r) && r.killTimer.Some?
    ensures Answers(r, KillTimerFires, OnKillTimer(r, r.killTimer.value).run)
  {
    KillTimerDeeds(r);
  }

  lemma TimeoutAnswers(r: Run)
    ensures Answers(r, TimeoutFires, OnTimeout(r).run)
  {
    TimeoutDeeds(r);
  }

  lemma ErrorAnswers(r: Run)
    ensures Answers(r, ChildError, OnError(r).run)
  {
    SettleDeeds(r.(sawError := true), SpawnError);
    assert r.acts + [] == r.acts;
  }

  lemma CloseAnswers(r: Run, exit: Exit, alive: bool)
    ensures Answers(r, ChildClose(exit, alive), OnClose(r, exit, alive).run)
  {
    CloseDeeds(r, exit, alive);
  }

  lemma DataAnswers(r: Run, chunk: seq<Byte>)
    ensures Answers(r, Data(chunk), OnData(r, chunk).run)
  {
    assert r.acts + [] == r.acts;
  }

  /** What one event does to the group, and whether the run is done with the signal behind it. */
  lemma HandleDeeds(r: Run, e: RunEvent)
    requires RunInv(r) && CanHandle(r, e)
    ensures Answers(r, e, Handle(r, e).run)
  {
    match e
    case ParentSignal(signal, alive) => SignalAnswers(r, signal, alive);
    case KillTimerFires => KillTimerAnswers(r);
    case TimeoutFires => TimeoutAnswers(r);
    case ChildError => ErrorAnswers(r);
    case ChildClose(exit, alive) => CloseAnswers(r, exit, alive);
    case Data(chunk) => DataAnswers(r, chunk);
  }

  lemma SentNext(acts: seq<Act>, more: seq<Act>, es: seq<RunEvent>, e: RunEvent, act: Act, cause: RunEvent)
    requires (act in acts <==> cause in es) && (act in more <==> e == cause)
    ensures act in acts + more <==> cause in es + [e]
  {
  }

  lemma FoundNext(r: Run, es: seq<RunEvent>, e: RunEvent)
    requires FoundDead in r.acts ==> exists k :: 0 <= k < |es| && Finds(es[k])
    ensures FoundDead in r.acts + ActsOf(r, e) ==> exists k :: 0 <= k < |es + [e]| && Finds((es + [e])[k])
  {
    if FoundDead in r.acts {
      var k :| 0 <= k < |es| && Finds(es[k]);
      assert Finds((es + [e])[k]);
    } else if FoundDead in ActsOf(r, e) {
      assert Finds((es + [e])[|es|]);
    }
  }

  lemma ActedNext(r: Run, es: seq<RunEvent>)
    requires es != [] && RunInv(r) && CanHandle(r, Last(es)) && Acted(r, Init(es))
    ensures Acted(Handle(r, Last(es)).run, es)
  {
    var e := Last(es);
    assert es == Init(es) + [e];
    HandleDeeds(r, e);
    SentNext(r.acts, ActsOf(r, e), Init(es), e, Sent(SIGKILL), KillTimerFires);
    SentNext(r.acts, ActsOf(r, e), Init(es), e, Sent(SIGTERM), TimeoutFires);
    FoundNext(r, Init(es), e);
    OtherActs(r, e);
  }

  lemma OtherActs(r: Run, e: RunEvent)
    requires CanHandle(r, e)
    ensures forall s :: Sent(s) in ActsOf(r, e) ==> s == SIGKILL || s == SIGTERM
    ensures forall s :: PassedOn(s) in ActsOf(r, e) <==> e.ParentSignal? && e.signal == s
  {
  }

  lemma ActedLonger(r: Run, es: seq<RunEvent>)
    requires es != [] && Acted(r, Init(es)) && Last(es).ParentSignal?
    ensures Acted(r, es)
  {
    assert es == Init(es) + [Last(es)];
    if FoundDead in r.acts {
      var k :| 0 <= k < |Init(es)| && Finds(Init(es)[k]);
      assert Finds(es[k]);
    }
  }

  lemma {:induction false} LifeIsActed(r: Run, es: seq<RunEvent>)
    requires IsNew(r) && Possible(r, es)
    ensures Acted(Life(r, es), es)
  {
    if es != [] {
      var before := Life(r, Init(es));
      LifeIsActed(r, Init(es));
      LifeKeeps(r, Init(es));
      if CanHandle(before, Last(es)) {
        ActedNext(before, es);
      } else {
        ActedLonger(before, es);
      }
    }
  }

  /** A run has heard the first signal unless it was settled by then; it is done with it exactly
      when its group has ended since. */
  ghost predicate Followed(r: Run, es: seq<RunEvent>) {
    var followed :=
      && (r.parentSignalPending.Some? ==> SignalOf(es) == r.parentSignalPending && (r.stateDone <==> EndedIn(es)))
      && (r.parentSignalPending.None? && SignalOf(es).Some? ==> r.outcome.Some?);
    followed
  }

  lemma {:induction false} EndsAfterSignal(es: seq<RunEvent>)
    ensures EndedIn(es) ==> SignalOf(es).Some?
  {
    if es != [] {
      EndsAfterSignal(Init(es));
    }
  }

  lemma FollowedNext(r: Run, es: seq<RunEvent>)
    requires es != [] && RunInv(r) && CanHandle(r, Last(es)) && Followed(r, Init(es))
    ensures Followed(Handle(r, Last(es)).run, es)
  {
    HandleDeeds(r, Last(es));
    HandleKeeps(r, Last(es));
    EndsAfterSignal(Init(es));
  }

  lemma {:induction false} LifeIsFollowed(r: Run, es: seq<RunEvent>)
    requires IsNew(r) && Possible(r, es)
    ensures Followed(Life(r, es), es)
  {
    if es != [] {
      var before := Life(r, Init(es));
      LifeIsFollowed(r, Init(es));
      LifeKeeps(r, Init(es));
      if CanHandle(before, Last(es)) {
        FollowedNext(before, es);
      }
    }
  }

  // Any number of runs.

  lemma {:induction false} StartsAreNew(events: seq<Event>, i: nat)
    requires i < |Starts(events)|
    ensures IsNew(Starts(events)[i])
  {
    if events != [] && i < |Starts(Init(events))| {
      StartsAreNew(Init(events), i);
    }
  }

  /** A run of a reachable world, as a life of its own. */
  lemma LifeOf(events: seq<Event>, i: nat)
    requires Feasible(EMPTY, events) && i < |After(EMPTY, events).runs|
    ensures i < |Starts(events)| && IsNew(Starts(events)[i]) && Possible(Starts(events)[i], HistoryOf(events, i))
    ensures After(EMPTY, events).runs[i] == Life(Starts(events)[i], HistoryOf(events, i))
  {
    RunsAreIndependent(events);
    StartsAreNew(events, i);
  }

  /** In every interleaving: a run settled otherwise than by an error has closed.  It timed out if
      its timeout fired; else it failed if it asked for failures to be reported and its exit code is
      missing or not zero; else it is truncated if its code is zero and its output outgrew the limit;
      else it resolves with its exit code, or with one if there is none. */
  lemma CloseDecides(events: seq<Event>, i: nat)
    requires Feasible(EMPTY, events) && i < |After(EMPTY, events).runs|
    requires var o := After(EMPTY, events).runs[i].outcome; o.Some? && o != Some(SpawnError)
    ensures i < |Starts(events)| && CloseOf(HistoryOf(events, i)).Some?
    ensures var o, start, es := After(EMPTY, events).runs[i].outcome.value, Starts(events)[i], HistoryOf(events, i);
      var code, late, capture := CloseOf(es).value.code, TimeoutFires in es, CaptureAll(Received(es), start.maxOutputChars);
      && (o == TimedOut <==> late)
      && (o == Failed <==> !late && start.rejectOnFailure && code != Some(0))
      && (o == Truncated <==> !late && code == Some(0) && capture.truncatedChars > 0)
      && (forall c, text :: o == Resolved(c, text) <==>
            && !late && text == capture.text && c == (if code.Some? then code.value else 1)
            && (if c == 0 then capture.truncatedChars == 0 else !start.rejectOnFailure))
  {
    LifeOf(events, i);
    var start, es := Starts(events)[i], HistoryOf(events, i);
    LifeIsMarked(start, es);
    LifeIsSettled(start, es);
  }

  lemma CloseIsNoError(r: Run, exit: Exit, alive: bool)
    requires r.outcome.None?
    ensures OnClose(r, exit, alive).run.outcome != Some(SpawnError)
  {
  }

  lemma KillTimerIsNoError(r: Run)
    requires r.outcome.None? && r.killTimer.Some?
    ensures OnKillTimer(r, r.killTimer.value).run.outcome != Some(SpawnError)
  {
  }

  lemma OnlyErrorsAreErrors(r: Run, e: RunEvent)
    requires CanHandle(r, e) && r.outcome.None?
    ensures Handle(r, e).run.outcome == Some(SpawnError) <==> e == ChildError
  {
    match e
    case ParentSignal(_, _) =>
    case KillTimerFires => KillTimerIsNoError(r);
    case TimeoutFires =>
    case ChildError =>
    case ChildClose(exit, alive) => CloseIsNoError(r, exit, alive);
    case Data(_) =>
  }

  /** The first step that settles a run decides its outcome. */
  lemma ErrorFoundNext(r: Run, e: RunEvent)
    requires RunInv(r) && (CanHandle(r, e) || e.ParentSignal?)
    ensures r.outcome.Some? ==> Live(r, e).outcome == r.outcome
    ensures r.outcome.None? ==> (Live(r, e).outcome == Some(SpawnError) <==> e == ChildError)
  {
    if CanHandle(r, e) {
      HandleKeeps(r, e);
      if r.outcome.None? {
        OnlyErrorsAreErrors(r, e);
      }
    }
  }

  /** The k-th event is an error event that finds the run unsettled. */
  predicate ErrorAt(r: Run, es: seq<RunEvent>, k: nat) {
    k < |es| && es[k] == ChildError && Life(r, es[..k]).outcome.None?
  }

  lemma ErrorFoundLater(r: Run, es: seq<RunEvent>)
    requires es != []
    ensures (exists k :: ErrorAt(r, es, k)) <==>
      (exists k :: ErrorAt(r, Init(es), k)) || (Last(es) == ChildError && Life(r, Init(es)).outcome.None?)
  {
    var n := |es| - 1;
    assert es[..n] == Init(es);
    forall k: nat | k < n ensures ErrorAt(r, es, k) <==> ErrorAt(r, Init(es), k) {
      assert Init(es)[..k] == es[..k];
    }
    forall k: nat | ErrorAt(r, es, k) && k >= n ensures k == n {
    }
    if Last(es) == ChildError && Life(r, Init(es)).outcome.None? {
      assert ErrorAt(r, es, n);
    }
  }

  lemma {:induction false} ErrorFound(r: Run, es: seq<RunEvent>)
    requires IsNew(r) && Possible(r, es)
    ensures Life(r, es).outcome == Some(SpawnError) <==> exists k :: ErrorAt(r, es, k)
  {
    if es != [] {
      ErrorFound(r, Init(es));
      LifeKeeps(r, Init(es));
      ErrorFoundNext(Life(r, Init(es)), Last(es));
      SettledStays(r, es);
      ErrorFoundLater(r, es);
    }
  }

  lemma {:induction false} SettledStays(r: Run, es: seq<RunEvent>)
    requires IsNew(r) && Possible(r, es)
    ensures forall k :: 0 <= k <= |es| && Life(r, es).outcome.None? ==> Life(r, es[..k]).outcome.None?
  {
    assert es[..|es|] == es;
    if es != [] {
      var short := Init(es);
      SettledStays(r, short);
      LifeKeeps(r, short);
      ErrorFoundNext(Life(r, short), Last(es));
      assert forall k :: 0 <= k < |es| ==> short[..k] == es[..k];
    }
  }

  /** A run settles with the spawn error exactly if an error event finds it unsettled. */
  lemma ErrorDecides(events: seq<Event>, i: nat)
    requires Feasible(EMPTY, events) && i < |After(EMPTY, events).runs|
    ensures i < |Starts(events)|
    ensures var es := HistoryOf(events, i);
      After(EMPTY, events).runs[i].outcome == Some(SpawnError) <==>
        exists k :: ErrorAt(Starts(events)[i], es, k)
    ensures ChildError in HistoryOf(events, i) ==> After(EMPTY, events).runs[i].outcome.Some?
  {
    LifeOf(events, i);
    var start, es := Starts(events)[i], HistoryOf(events, i);
    ErrorFound(start, es);
    LifeIsMarked(start, es);
    LifeIsSettled(start, es);
  }

  /** What every act at a group had for its cause: each SIGKILL a kill timer, each SIGTERM the
      timeout, each signal passed on the parent's, and a group found gone a probe that said so. */
  lemma ActsHaveCauses(events: seq<Event>, i: nat)
    requires Feasible(EMPTY, events) && i < |After(EMPTY, events).runs|
    ensures Acted(After(EMPTY, events).runs[i], HistoryOf(events, i))
  {
    LifeOf(events, i);
    LifeIsActed(Starts(events)[i], HistoryOf(events, i));
  }

  /** A run that has closed and never heard a signal is settled, or waits for the grace timer of
      its timeout; and when that fires, it is settled. */
  lemma ClosedRunsSettle(events: seq<Event>, i: nat)
    requires Feasible(EMPTY, events) && i < |After(EMPTY, events).runs|
    requires CloseOf(HistoryOf(events, i)).Some? && SignalOf(HistoryOf(events, i)).None?
    ensures var r := After(EMPTY, events).runs[i];
      r.outcome.None? ==>
        && TimeoutFires in HistoryOf(events, i) && r.killTimer == Some(Grace)
        && Handle(r, KillTimerFires).run.outcome == Some(TimedOut)
  {
    LifeOf(events, i);
    var start, es := Starts(events)[i], HistoryOf(events, i);
    LifeIsMarked(start, es);
    LifeIsPressed(start, es);
    LifeIsFollowed(start, es);
  }

  /** A timed-out run was sent SIGTERM, and its caller hears of it only when its group was found
      gone or was sent SIGKILL. */
  lemma TimedOutIsEnforced(events: seq<Event>, i: nat)
    requires Feasible(EMPTY, events) && i < |After(EMPTY, events).runs|
    ensures var r := After(EMPTY, events).runs[i];
      && (TimeoutFires in HistoryOf(events, i) ==> Sent(SIGTERM) in r.acts)
      && (r.outcome == Some(TimedOut) ==> Sent(SIGKILL) in r.acts || FoundDead in r.acts)
  {
    LifeOf(events, i);
    var start, es := Starts(events)[i], HistoryOf(events, i);
    LifeIsMarked(start, es);
    LifeIsPressed(start, es);
  }

  /** In every interleaving, a run resolves with the tail of what its chunks decode to.  With exit
      code zero that is all of it, and it is the text of the whole output exactly if no boundary
      between the chunks cuts a UTF-8 sequence. */
  lemma ResolvedOutput(events: seq<Event>, i: nat)
    requires Feasible(EMPTY, events) && i < |After(EMPTY, events).runs|
    requires var r := After(EMPTY, events).runs[i]; r.outcome.Some? && r.outcome.value.Resolved?
    ensures var r, chunks := After(EMPTY, events).runs[i], Received(HistoryOf(events, i));
      && r.outcome.value.stdout == Tail(DecodedApart(chunks), r.maxOutputChars).text
      && (r.outcome.value.code == 0 ==>
            && r.outcome.value.stdout == DecodedApart(chunks)
            && (r.outcome.value.stdout == Decode(Stream(chunks)) <==> Whole(chunks)))
  {
    LifeOf(events, i);
    var start, es := Starts(events)[i], HistoryOf(events, i);
    LifeIsMarked(start, es);
    LifeIsSettled(start, es);
    CaptureIsOneCut(Received(es), start.maxOutputChars);
    WholeChunksDoNotShow(Received(es), start.maxOutputChars);
  }

  /** All runs in the shared set are done exactly if each has got a signal and its group was gone
      then, or has been found gone or killed since. */
  lemma DoneByEvents(events: seq<Event>)
    requires Feasible(EMPTY, events)
    ensures AllDone(After(EMPTY, events)) <==> forall i :: i in After(EMPTY, events).active ==> EndedIn(HistoryOf(events, i))
  {
    var w := After(EMPTY, events);
    AfterKeeps(EMPTY, events);
    forall i | i in w.active
      ensures w.runs[i].stateSignal.Some? && w.runs[i].stateDone <==> EndedIn(HistoryOf(events, i))
    {
      LifeOf(events, i);
      LifeIsFollowed(Starts(events)[i], HistoryOf(events, i));
      EndsAfterSignal(HistoryOf(events, i));
      assert RunInv(w.runs[i]);
    }
  }

  /** In every interleaving, the parent is signalled again only when every run in the shared set got
      a signal, and its group was gone then, or has been found gone or killed since. */
  lemma ReraiseHasCauses(events: seq<Event>, e: Event)
    requires Feasible(EMPTY, events) && Enabled(After(EMPTY, events), e)
    requires |Next(After(EMPTY, events), e).reraised| > |After(EMPTY, events).reraised|
    ensures forall i :: i in Next(After(EMPTY, events), e).active ==> EndedIn(HistoryOf(events + [e], i))
  {
    AfterKeeps(EMPTY, events);
    NextKeeps(After(EMPTY, events), e);
    FeasibleSnoc(EMPTY, events, e);
    DoneByEvents(events + [e]);
  }

  /** The signal the parent is sent again: the one just delivered, or the one that is pending at the
      run whose group has just ended; once, and only if that leaves every run done. */
  lemma ReraisedSignal(events: seq<Event>, e: Event)
    requires Feasible(EMPTY, events) && Enabled(After(EMPTY, events), e)
    ensures var w, next := After(EMPTY, events), Next(After(EMPTY, events), e);
      match e
      case Start(_, _) => next.reraised == w.reraised
      case Signalled(signal, _) => next.reraised == w.reraised + if AllDone(next) then [signal] else []
      case At(i, event) =>
        var r := w.runs[i];
        var ends := r.parentSignalPending.Some? && Ends(event) && (event.KillTimerFires? ==> !r.stateDone);
        next.reraised == w.reraised + if ends && AllDone(next) then [r.parentSignalPending.value] else []
  {
    var w := After(EMPTY, events);
    AfterKeeps(EMPTY, events);
    match e
    case Start(_, _) =>
    case Signalled(signal, alive) => DeliverReraises(w, signal, alive, 0);
    case At(i, event) => HandleAsks(w.runs[i], event);
  }

  /** When a handler asks for the parent to be signalled again, and with which signal. */
  lemma HandleAsks(r: Run, e: RunEvent)
    requires RunInv(r) && CanHandle(r, e) && !e.ParentSignal?
    ensures Handle(r, e).reraise ==
      if Ends(e) && (e.KillTimerFires? ==> !r.stateDone) then r.parentSignalPending else None
  {
    match e
    case KillTimerFires =>
    case TimeoutFires =>
    case ChildError =>
    case ChildClose(_, _) =>
    case Data(_) =>
  }
}
