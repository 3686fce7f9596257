/**
 A start of the Ant node that is queued for good: when the log pipe throws after `spawn`, the child is on record without
 its handlers, so nothing happens when it closes, and a node that was being stopped stays so.
 */
module AntWedge {
  import opened AntLifecycle
  import opened AntSafety

  /** Nothing under way can change the status: the node is stopping, the child on record has no handlers attached, so
      that its close goes unheard, and no attempt is suspended. */
  ghost predicate Wedged(s: State) {
    && s.core.status == Stopping && s.mode !in {Reused, External, Disabled}
    && s.core.process.Some? && s.core.process.value in s.core.children
    && !s.core.children[s.core.process.value].wired
    && s.core.process.value !in s.core.polls
    && s.core.waits == map[]
  }

  /** What has happened since: nothing began, nothing was spawned, nothing was marked running. */
  ghost predicate OnlyStops(before: seq<Happening>, after: seq<Happening>) {
    before <= after && forall i :: |before| <= i < |after| ==> after[i] == StopAsked
  }

  lemma WedgedCall(s: State, e: Event)
    requires Wedged(s) && Enabled(s, e) && (e.Start? || e.QueuedStart? || e.Stop?)
    ensures Wedged(Next(s, e)) && OnlyStops(s.core.log, Next(s, e).core.log)
  {
    match e
    case Start(_, _) =>
    case QueuedStart(_, _) =>
    case Stop =>
  }

  lemma WedgedCloseHandled(s: State, child: Child)
    requires Wedged(s) && Enabled(s, OfChild(child, Closed))
    ensures Wedged(CloseHandled(s, child)) && CloseHandled(s, child).core.log == s.core.log
  {
  }

  lemma WedgedClose(s: State, child: Child)
    requires Wedged(s) && Enabled(s, OfChild(child, Closed))
    ensures Wedged(ClosedNow(s, child)) && ClosedNow(s, child).core.log == s.core.log
  {
    WedgedCloseHandled(s, child);
  }

  lemma WedgedError(s: State, child: Child)
    requires Wedged(s) && Enabled(s, OfChild(child, Errored))
    ensures Wedged(s.(core := ErroredNow(s.core, child))) && ErroredNow(s.core, child).log == s.core.log
  {
  }

  lemma WedgedPoll(s: State, child: Child, healthy: bool)
    requires Wedged(s)
    ensures Enabled(s, OfChild(child, PollTick)) ==>
      Wedged(s.(core := TickNow(s.core, child))) && TickNow(s.core, child).log == s.core.log
    ensures Enabled(s, OfChild(child, PollAnswered(healthy))) ==>
      Wedged(AnsweredNow(s, child, healthy)) && AnsweredNow(s, child, healthy).core.log == s.core.log
  {
  }

  lemma WedgedChild(s: State, child: Child, what: ChildEvent)
    requires Wedged(s) && Enabled(s, OfChild(child, what))
    ensures Wedged(Next(s, OfChild(child, what))) && OnlyStops(s.core.log, Next(s, OfChild(child, what)).core.log)
  {
    match what
    case Closed => WedgedClose(s, child);
    case Errored => WedgedError(s, child);
    case PollTick => WedgedPoll(s, child, true);
    case PollAnswered(healthy) => WedgedPoll(s, child, healthy);
  }

  /** No event leads out of the wedge. */
  lemma WedgedStep(s: State, e: Event)
    requires Wedged(s) && Enabled(s, e)
    ensures Wedged(Next(s, e)) && OnlyStops(s.core.log, Next(s, e).core.log)
  {
    match e
    case Start(_, _) => WedgedCall(s, e);
    case QueuedStart(_, _) => WedgedCall(s, e);
    case Stop => WedgedCall(s, e);
    case Resumed(_, _) =>
    case OfChild(child, what) => WedgedChild(s, child, what);
    case HealthAnswered(_) =>
    case KillTimerFired =>
  }

  /** A node that is wedged stays so in every continuation: it never starts again, whatever is asked of it. */
  lemma {:induction false} WedgedForGood(events: seq<Event>, more: seq<Event>)
    requires Run(events).Some? && Wedged(Run(events).value) && Run(events + more).Some?
    ensures Wedged(Run(events + more).value)
    ensures OnlyStops(Run(events).value.core.log, Run(events + more).value.core.log)
    decreases |more|
  {
    if more == [] {
      assert events + more == events;
    } else {
      var before, e := more[..|more| - 1], more[|more| - 1];
      assert (events + more)[..|events + more| - 1] == events + before;
      WedgedForGood(events, before);
      WedgedStep(Run(events + before).value, e);
    }
  }

  // ---------------------------------------------------------------- it happens

  /** A start whose log pipe throws, a stop, and a start asked for before the child has gone. */
  function WedgingRun(): seq<Event> {
    [Start(Legacy, true), Resumed(1, Detected(false, false, true, true)), Resumed(1, BridgeOpened(0, LogPipeThrows(0))),
     Resumed(1, SpawnFailureReported), Stop, Start(Legacy, true)]
  }

  lemma RunMore(events: seq<Event>, e: Event, s: State)
    requires Run(events) == Some(s) && Enabled(s, e)
    ensures Run(events + [e]) == Some(Next(s, e))
  {
    assert (events + [e])[..|events|] == events;
  }

  function Spawned0(): Core {
    Core(Starting, false, 1, [Began(1), Spawned(1, 0)], map[1 := AtSpawnFailed], map[], Some(0),
         map[0 := Process(0, false, false)], None, {}, {0})
  }

  function Stopped0(): Core {
    Core(Stopping, false, 2, [Began(1), Spawned(1, 0), StopAsked], map[], map[], Some(0),
         map[0 := Process(0, false, false)], None, {}, {0})
  }

  /** The state after the log pipe has thrown. */
  lemma FirstSteps()
    ensures Run(WedgingRun()[..3]) == Some(State(Spawned0(), Bundled, false, false, 0, {}))
  {
    var s1 := Next(Initial, Start(Legacy, true));
    RunMore([], Start(Legacy, true), Initial);
    var e1 := [Start(Legacy, true)];
    assert [] + [Start(Legacy, true)] == e1;
    var a := Resumed(1, Detected(false, false, true, true));
    assert s1.core.waits == map[1 := AtDetect];
    RunMore(e1, a, s1);
    var s2 := Next(s1, a);
    assert s2.core.waits == map[1 := AtBridge];
    var b := Resumed(1, BridgeOpened(0, LogPipeThrows(0)));
    RunMore(e1 + [a], b, s2);
    assert WedgingRun()[..3] == e1 + [a] + [b];
    assert Next(s2, b).core == Spawned0();
  }

  lemma FourthStep()
    ensures Run(WedgingRun()[..4])
         == Some(State(Spawned0().(waits := map[], status := Failed), Bundled, false, false, 0, {}))
  {
    FirstSteps();
    var s3 := State(Spawned0(), Bundled, false, false, 0, {});
    RunMore(WedgingRun()[..3], Resumed(1, SpawnFailureReported), s3);
    assert WedgingRun()[..4] == WedgingRun()[..3] + [Resumed(1, SpawnFailureReported)];
    assert Next(s3, Resumed(1, SpawnFailureReported)).core == Spawned0().(waits := map[], status := Failed);
  }

  lemma StopStep(s: State)
    requires s == State(Spawned0().(waits := map[], status := Failed), Bundled, false, false, 0, {})
    ensures StopNow(s) == State(Stopped0(), Bundled, false, true, 0, {0})
  {
  }

  lemma FifthStep()
    ensures Run(WedgingRun()[..5]) == Some(State(Stopped0(), Bundled, false, true, 0, {0}))
  {
    FourthStep();
    var s4 := State(Spawned0().(waits := map[], status := Failed), Bundled, false, false, 0, {});
    StopStep(s4);
    RunMore(WedgingRun()[..4], Stop, s4);
    assert WedgingRun()[..5] == WedgingRun()[..4] + [Stop];
  }

  lemma SixthStep(s: State)
    requires s == State(Stopped0(), Bundled, false, true, 0, {0})
    ensures StartNow(s, Legacy, true) == s.(core := Stopped0().(pendingStart := true))
    ensures Wedged(s.(core := Stopped0().(pendingStart := true)))
  {
  }

  /** The run ends wedged, with the second start queued; whether the child ever closes makes no difference. */
  lemma WedgeHappens()
    ensures Run(WedgingRun()).Some? && Wedged(Run(WedgingRun()).value)
    ensures Run(WedgingRun()).value.core.pendingStart && Run(WedgingRun()).value.queued == 0
  {
    FifthStep();
    var s5 := State(Stopped0(), Bundled, false, true, 0, {0});
    SixthStep(s5);
    RunMore(WedgingRun()[..5], Start(Legacy, true), s5);
    assert WedgingRun() == WedgingRun()[..5] + [Start(Legacy, true)];
  }
}
