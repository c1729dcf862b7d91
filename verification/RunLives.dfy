/** Every run has a life of its own: what it does depends on the events that reach it, and on
    nothing else in the system. */
module RunLives {
  import opened Prelude
  import opened OutputTail
  import opened RunHandlers
  import opened Supervision

  /** One event; a parent signal that the run does not listen to passes it by. */
  function Live(r: Run, e: RunEvent): Run {
    if CanHandle(r, e) then Handle(r, e).run else r
  }

  function Life(r: Run, es: seq<RunEvent>): Run {
    if es == [] then r else Live(Life(r, Init(es)), Last(es))
  }

  /** Only parent signals pass a run by. */
  predicate Possible(r: Run, es: seq<RunEvent>) {
    es == [] ||
    (Possible(r, Init(es)) &&
     if Last(es).ParentSignal? then Relayed(Last(es).signal) else CanHandle(Life(r, Init(es)), Last(es)))
  }

  /** The runs that are started. */
  function Starts(events: seq<Event>): seq<Run> {
    if events == [] then []
    else
      match Last(events)
      case Start(reject, limit) => Starts(Init(events)) + [NewRun(reject, limit)]
      case _ => Starts(Init(events))
  }

  /** What reaches run i, in order: its own events, and the parent's signals once it has started. */
  function HistoryOf(events: seq<Event>, i: nat): seq<RunEvent> {
    if events == [] then []
    else
      var before := HistoryOf(Init(events), i);
      match Last(events)
      case Start(_, _) => before
      case Signalled(signal, alive) =>
        if i < |Starts(Init(events))| then before + [ParentSignal(signal, i in alive)] else before
      case At(j, e) => if j == i then before + [e] else before
  }

  lemma {:induction false} FeasibleSnoc(w: World, events: seq<Event>, e: Event)
    requires Feasible(w, events) && Enabled(After(w, events), e)
    ensures Feasible(w, events + [e]) && After(w, events + [e]) == Next(After(w, events), e)
    decreases |events|
  {
    if events == [] {
      assert [e][1..] == [];
    } else {
      assert (events + [e])[1..] == events[1..] + [e];
      FeasibleSnoc(Next(w, events[0]), events[1..], e);
    }
  }

  lemma {:induction false} FeasibleInit(w: World, events: seq<Event>)
    requires Feasible(w, events) && events != []
    ensures Feasible(w, Init(events)) && Enabled(After(w, Init(events)), Last(events))
    ensures After(w, events) == Next(After(w, Init(events)), Last(events))
    decreases |events|
  {
    if |events| > 1 {
      assert Init(events)[1..] == Init(events[1..]);
      FeasibleInit(Next(w, events[0]), events[1..]);
    } else {
      assert events[1..] == [];
    }
  }

  lemma {:induction false} DeliverLives(w: World, signal: Signal, alive: set<nat>, k: nat)
    requires Indexed(w) && k <= |w.runs| && Relayed(signal)
    ensures var next := Deliver(w, signal, alive, k);
      forall j :: 0 <= j < |w.runs| ==>
        next.runs[j] == if j < k then w.runs[j] else Live(w.runs[j], ParentSignal(signal, j in alive))
    decreases |w.runs| - k
  {
    if k < |w.runs| {
      var mid := if w.runs[k].listening then Heard(w, signal, alive, k) else w;
      assert mid.runs[k] == Live(w.runs[k], ParentSignal(signal, k in alive));
      assert forall j :: 0 <= j < |w.runs| && j != k ==> mid.runs[j] == w.runs[j];
      DeliverLives(mid, signal, alive, k + 1);
    }
  }

  lemma LifeSnoc(r: Run, es: seq<RunEvent>, e: RunEvent)
    ensures Life(r, es + [e]) == Live(Life(r, es), e)
    ensures Possible(r, es + [e]) <==>
      Possible(r, es) && if e.ParentSignal? then Relayed(e.signal) else CanHandle(Life(r, es), e)
  {
    assert Init(es + [e]) == es;
  }

  /** The runs of a world are what their histories make of the started runs. */
  ghost predicate Independent(w: World, events: seq<Event>) {
    && |w.runs| == |Starts(events)|
    && (forall i :: 0 <= i < |w.runs| ==>
          Possible(Starts(events)[i], HistoryOf(events, i)) && w.runs[i] == Life(Starts(events)[i], HistoryOf(events, i)))
    && (forall i :: |w.runs| <= i ==> HistoryOf(events, i) == [])
  }

  lemma IndependentNext(w: World, events: seq<Event>)
    requires events != [] && Independent(w, Init(events)) && Enabled(w, Last(events))
    ensures Independent(Next(w, Last(events)), events)
  {
    var next, starts := Next(w, Last(events)), Starts(Init(events));
    match Last(events)
    case Start(_, _) =>
    case Signalled(signal, alive) =>
      DeliverLives(w, signal, alive, 0);
      forall i: nat | i < |w.runs|
        ensures Possible(starts[i], HistoryOf(events, i)) && next.runs[i] == Life(starts[i], HistoryOf(events, i))
      {
        LifeSnoc(starts[i], HistoryOf(Init(events), i), ParentSignal(signal, i in alive));
      }
    case At(i, e) =>
      LifeSnoc(starts[i], HistoryOf(Init(events), i), e);
  }

  /** Runs do not interfere: in every interleaving each run is what the events that reach it make
      of a new run. */
  lemma {:induction false} RunsAreIndependent(events: seq<Event>)
    requires Feasible(EMPTY, events)
    ensures Independent(After(EMPTY, events), events)
    decreases |events|
  {
    if events != [] {
      FeasibleInit(EMPTY, events);
      RunsAreIndependent(Init(events));
      IndependentNext(After(EMPTY, Init(events)), events);
    }
  }
}
