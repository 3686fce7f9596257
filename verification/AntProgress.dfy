/**
 What comes of starting and stopping the Ant node: where an attempt goes from each place where it waits, when the node
 counts as running, as failed and as stopped, and that starts succeed.
 */
module AntProgress {
  import opened AntLifecycle
  import opened AntSafety

  // ---------------------------------------------------------------- one attempt

  /** What comes of an answer: the attempt waits elsewhere, the node is up, or down, or a child has been launched. */
  datatype Fate = On(at: Wait) | Up(mode: Mode) | Down | Launched(child: Child)

  function OnIf(ok: bool, at: Wait): Fate {
    if ok then On(at) else Down
  }

  /** The way of an attempt that nothing overtakes. */
  function FateOf(at: Wait, a: Answer): Fate {
    match a
    case ExternalProbed(valid) => if valid then Up(External) else Down
    case Detected(found, conflict, ready, configOk) =>
      if found then Up(Reused)
      else if ready && conflict then On(AtApiSearch(false))
      else OnIf(ready && configOk, AtBridge)
    case ApiProbed(busy) => On(if busy then AtApiSearch(true) else AtP2pProbe(false))
    case ApiFound(found, configOk) =>
      if found && at == AtApiSearch(true) then On(AtP2pProbe(true)) else OnIf(found && configOk, AtBridge)
    case P2pProbed(busy, configOk) =>
      if busy then On(AtP2pSearch) else if at == AtP2pProbe(true) then On(AtPersist) else OnIf(configOk, AtBridge)
    case P2pFound(found) => OnIf(found, AtPersist)
    case Persisted(saved, configOk) => OnIf(saved && configOk, AtBridge)
    case BridgeOpened(_, SpawnOk(child)) => Launched(child)
    case BridgeOpened(_, _) => On(AtSpawnFailed)
    case BridgeFailed => Down
    case SpawnFailureReported => Down
  }

  /** The attempt `g` is suspended, and nothing has begun or stopped since it began. */
  predicate Current(s: State, g: nat) {
    g in s.core.waits && g == s.core.generation
  }

  /** From `s` to `t` the attempt `g` has come to `fate`. */
  predicate Comes(s: State, t: State, g: nat, fate: Fate) {
    match fate
    case On(at) => t.core.waits == s.core.waits[g := at] && t.core.status == s.core.status
    case Up(mode) =>
      && t.core.waits == s.core.waits - {g} && t.core.status == Running && t.mode == mode && t.healthTimer
      && (mode == Reused ==> t.core.log == s.core.log + [MarkedRunning(g, Reused)])
    case Down => t.core.waits == s.core.waits - {g} && t.core.status == Failed
    case Launched(child) =>
      && t.core.waits == s.core.waits - {g} && t.core.status == s.core.status
      && t.core.log == s.core.log + [Spawned(g, child)] && t.core.process == Some(child)
      && child in t.core.children && t.core.children[child].wired && !t.core.children[child].closed
      && t.core.bridge == Some(t.core.children[child].bridge) && t.core.children[child].bridge in t.core.open
      && child in t.core.polls && t.core.polls[child] == Poll(g, true, 0, 0)
  }

  lemma PutBack(waits: map<nat, Wait>, g: nat, at: Wait)
    ensures (waits - {g})[g := at] == waits[g := at]
  {
  }

  lemma ProbeGoesOn(s: State, g: nat, a: Answer)
    requires Current(s, g) && Enabled(s, Resumed(g, a)) && (a.ExternalProbed? || a.Detected? || a.ApiProbed?)
    ensures Comes(s, Next(s, Resumed(g, a)), g, FateOf(s.core.waits[g], a))
  {
    var fate := FateOf(s.core.waits[g], a);
    if fate.On? {
      PutBack(s.core.waits, g, fate.at);
    }
  }

  lemma ApiGoesOn(s: State, g: nat, a: Answer)
    requires Current(s, g) && Enabled(s, Resumed(g, a)) && a.ApiFound?
    ensures Comes(s, Next(s, Resumed(g, a)), g, FateOf(s.core.waits[g], a))
  {
    var fate := FateOf(s.core.waits[g], a);
    if fate.On? {
      PutBack(s.core.waits, g, fate.at);
    }
  }

  lemma PortGoesOn(s: State, g: nat, a: Answer)
    requires Current(s, g) && Enabled(s, Resumed(g, a)) && (a.P2pProbed? || a.P2pFound? || a.Persisted?)
    ensures Comes(s, Next(s, Resumed(g, a)), g, FateOf(s.core.waits[g], a))
  {
    var fate := FateOf(s.core.waits[g], a);
    if fate.On? {
      PutBack(s.core.waits, g, fate.at);
    }
  }

  lemma BridgeGoesOn(s: State, g: nat, a: Answer)
    requires Current(s, g) && Enabled(s, Resumed(g, a)) && a.BridgeOpened?
    ensures Comes(s, Next(s, Resumed(g, a)), g, FateOf(s.core.waits[g], a))
  {
    if !a.spawn.SpawnOk? {
      PutBack(s.core.waits, g, AtSpawnFailed);
    }
  }

  /** Wherever it waits, an attempt that nothing has overtaken goes where its answer takes it. */
  lemma AttemptGoesOn(s: State, g: nat, a: Answer)
    requires Current(s, g) && Enabled(s, Resumed(g, a))
    ensures Comes(s, Next(s, Resumed(g, a)), g, FateOf(s.core.waits[g], a))
  {
    if a.ExternalProbed? || a.Detected? || a.ApiProbed? {
      ProbeGoesOn(s, g, a);
    } else if a.BridgeOpened? {
      BridgeGoesOn(s, g, a);
    } else if a.ApiFound? {
      ApiGoesOn(s, g, a);
    } else if !a.BridgeFailed? && !a.SpawnFailureReported? {
      PortGoesOn(s, g, a);
    }
  }

  /** Process, children, bridges and generation are as they were. */
  predicate NothingLaunched(c: Core, d: Core) {
    && d.process == c.process && d.children == c.children && d.seen == c.seen && d.generation == c.generation
    && d.open == c.open && d.bridge == c.bridge
  }

  lemma PortsLaunchNothing(s: State, g: nat, ok: bool)
    ensures NothingLaunched(s.core, PortsSettled(s, g, ok).core)
  {
  }

  lemma ProbeLaunchesNothing(s: State, g: nat, a: Answer)
    requires a.Detected? || a.Persisted?
    ensures a.Detected? ==> NothingLaunched(s.core, DetectedNow(s, g, a).core)
    ensures a.Persisted? ==> NothingLaunched(s.core, PersistedNow(s, g, a).core)
  {
    PortsLaunchNothing(s, g, a.configOk);
  }

  lemma ApiLaunchesNothing(s: State, g: nat, managed: bool, a: Answer)
    requires a.ApiFound?
    ensures NothingLaunched(s.core, ApiFoundNow(s, g, managed, a).core)
  {
    PortsLaunchNothing(s, g, a.configOk);
  }

  lemma P2pLaunchesNothing(s: State, g: nat, changed: bool, a: Answer)
    requires a.P2pProbed?
    ensures NothingLaunched(s.core, P2pProbedNow(s, g, changed, a).core)
  {
    PortsLaunchNothing(s, g, a.configOk);
  }

  /** Only the answer that the bridge is open launches a child; a port that is taken leads to a search for another. */
  lemma OnlyTheBridgeLaunches(s: State, g: nat, a: Answer)
    requires Enabled(s, Resumed(g, a)) && !a.BridgeOpened?
    ensures NothingLaunched(s.core, Next(s, Resumed(g, a)).core)
  {
    var r := s.(core := Resume(s.core, g));
    if a.Detected? || a.Persisted? {
      ProbeLaunchesNothing(r, g, a);
    } else if a.ApiFound? {
      ApiLaunchesNothing(r, g, s.core.waits[g].managed, a);
    } else if a.P2pProbed? {
      P2pLaunchesNothing(r, g, s.core.waits[g].changed, a);
    } else {
      AnswerLaunchesNothing(r, g, s.core.waits[g], a);
    }
  }

  lemma AnswerLaunchesNothing(r: State, g: nat, at: Wait, a: Answer)
    requires Answers(r.core, at, a) && !a.BridgeOpened?
    requires !a.Detected? && !a.Persisted? && !a.ApiFound? && !a.P2pProbed?
    ensures NothingLaunched(r.core, Continue(r, g, at, a).core)
  {
  }

  /** The ports are settled, or a spawn is prepared, for the bundled node. */
  lemma BundledFromHere(s: State, g: nat, a: Answer)
    requires Current(s, g) && Enabled(s, Resumed(g, a)) && FateOf(s.core.waits[g], a) == On(AtBridge)
    ensures Next(s, Resumed(g, a)).mode == Bundled
  {
  }

  /** A spawn that throws leaves no child and no bridge. */
  lemma ThrownSpawn(s: State, g: nat, b: Bridge)
    requires Current(s, g) && Enabled(s, Resumed(g, BridgeOpened(b, SpawnThrows)))
    ensures var t := Next(s, Resumed(g, BridgeOpened(b, SpawnThrows)));
      && t.core.children == s.core.children && t.core.process == s.core.process && t.core.log == s.core.log
      && t.core.open == s.core.open && t.core.bridge.None? && t.core.polls == s.core.polls
  {
  }

  /** One that throws once the child is there leaves the child on record, with nothing listening to it and no bridge. */
  lemma UnwiredSpawn(s: State, g: nat, b: Bridge, child: Child)
    requires Current(s, g) && Enabled(s, Resumed(g, BridgeOpened(b, LogPipeThrows(child))))
    ensures var t := Next(s, Resumed(g, BridgeOpened(b, LogPipeThrows(child))));
      && t.core.process == Some(child) && t.core.log == s.core.log + [Spawned(g, child)]
      && child in t.core.children && !t.core.children[child].wired && !t.core.children[child].closed
      && t.core.open == s.core.open && t.core.bridge.None? && t.core.polls == s.core.polls
  {
  }

  /** And an attempt that has been overtaken closes the bridge it was given, and spawns nothing. */
  lemma OvertakenSpawn(s: State, g: nat, b: Bridge, spawn: Spawn)
    requires g != s.core.generation && Enabled(s, Resumed(g, BridgeOpened(b, spawn)))
    ensures Next(s, Resumed(g, BridgeOpened(b, spawn)))
      == s.(core := s.core.(waits := s.core.waits - {g}, seen := s.core.seen + {b}))
  {
  }

  // ---------------------------------------------------------------- calls

  /** Where an accepted start begins. */
  function FirstWait(profile: Profile, ready: bool): Option<Wait> {
    match profile
    case Legacy => Some(AtDetect)
    case Managed => if ready then Some(AtApiProbe) else None
    case ExternalNode => if ready then Some(AtExternalProbe) else None
    case _ => None
  }

  /** A start of a node that is stopped or has failed begins an attempt of its own, or settles the status at once. */
  lemma StartBegins(s: State, profile: Profile, ready: bool)
    requires s.core.status == Stopped || s.core.status == Failed
    ensures var t := Next(s, Start(profile, ready)); var g := s.core.generation + 1;
      && t.core.generation == g && t.core.log == s.core.log + [Began(g)] && !t.core.pendingStart
      && match FirstWait(profile, ready)
         case Some(at) => t.core.status == Starting && t.core.waits == s.core.waits[g := at]
         case None =>
           && t.core.waits == s.core.waits
           && t.core.status == (if profile == DisabledNode then Stopped else Failed)
           && (profile == DisabledNode ==> t.mode == Disabled)
  {
  }

  /** A start asked for twice is one start, and one asked for while the node stops is kept for later. */
  lemma StartElsewhere(s: State, profile: Profile, ready: bool)
    ensures s.core.status == Running || s.core.status == Starting ==> Next(s, Start(profile, ready)) == s
    ensures s.core.status == Stopping ==>
      Next(s, Start(profile, ready)) == s.(core := s.core.(pendingStart := true))
  {
  }

  /** A stop supersedes every attempt, */
  lemma StopSupersedes(s: State)
    ensures Next(s, Stop).core.generation == s.core.generation + 1
    ensures Next(s, Stop).core.log == s.core.log + [StopAsked]
  {
  }

  /** and forgets a start that was queued. */
  lemma StopForgets(s: State)
    ensures !Next(s, Stop).healthTimer && !Next(s, Stop).core.pendingStart
    ensures Next(s, Stop).core.process == s.core.process
  {
  }

  /** It closes the bridge on record, and no other. */
  lemma StopClosesBridge(s: State)
    ensures Next(s, Stop).core.bridge.None?
    ensures Next(s, Stop).core.open == s.core.open - if s.core.bridge.Some? then {s.core.bridge.value} else {}
  {
  }

  /** A stop of a bundled node waits for its child; any other node counts as stopped at once. */
  lemma StopSettles(s: State)
    ensures var t := Next(s, Stop);
      if s.core.process.Some? && s.mode in {NoMode, Bundled}
      then t.core.status == Stopping && t.killTimer && s.core.process.value in t.exitListeners && t.mode == s.mode
      else t.core.status == Stopped && (s.mode in {Reused, External, Disabled} ==> t.mode == NoMode)
  {
  }

  // ---------------------------------------------------------------- the child

  /** The poll of `child` is that of the current attempt, whose child it is. */
  predicate PolledNow(s: State, child: Child) {
    && child in s.core.polls && s.core.polls[child].gen == s.core.generation && s.core.process == Some(child)
  }

  /** A healthy answer marks the node as running and ends the poll. */
  lemma HealthyMarksRunning(s: State, child: Child)
    requires PolledNow(s, child) && s.core.polls[child].inFlight > 0
    ensures var t := Next(s, OfChild(child, PollAnswered(true)));
      && t.core.status == Running && t.healthTimer && !t.core.polls[child].active
      && t.core.log == s.core.log + [MarkedRunning(s.core.generation, Bundled)]
  {
  }

  /** Fifty-nine unhealthy answers are borne ... */
  lemma UnhealthyIsCounted(s: State, child: Child)
    requires PolledNow(s, child) && s.core.polls[child].inFlight > 0 && s.core.polls[child].attempts + 1 < 60
    ensures var t := Next(s, OfChild(child, PollAnswered(false))); var p := s.core.polls[child];
      t == s.(core := s.core.(polls :=
        s.core.polls[child := p.(inFlight := p.inFlight - 1, attempts := p.attempts + 1)]))
  {
  }

  /** The poll has counted the sixtieth failure, and has ended. */
  function PollOver(s: State, child: Child): State
    requires child in s.core.polls && s.core.polls[child].inFlight > 0
  {
    var p := s.core.polls[child];
    s.(core := s.core.(polls := s.core.polls[child := Poll(p.gen, false, p.inFlight - 1, p.attempts + 1)]))
  }

  /** ... the sixtieth stops the node, as a stop does, and reports the failure. */
  lemma SixtiethStops(s: State, child: Child)
    requires PolledNow(s, child) && s.core.polls[child].inFlight > 0 && s.core.polls[child].attempts + 1 >= 60
    ensures var t := Next(PollOver(s, child), Stop);
      Next(s, OfChild(child, PollAnswered(false))) == t.(core := t.core.(status := Failed))
  {
    var p := s.core.polls[child].(inFlight := s.core.polls[child].inFlight - 1);
    assert s.(core := CountFailure(s.core, child, p)) == PollOver(s, child);
  }

  /** A tick checks the health of the current child, unless the node has stopped or failed, which ends the poll. */
  lemma TickChecks(s: State, child: Child)
    requires PolledNow(s, child) && s.core.polls[child].active
    ensures var t := Next(s, OfChild(child, PollTick)); var p := s.core.polls[child];
      child in t.core.polls
      && t.core.polls[child] == if s.core.status in {Stopped, Failed} then p.(active := false)
                                else p.(inFlight := p.inFlight + 1)
  {
  }

  lemma HandledStops(s: State, child: Child)
    requires Enabled(s, OfChild(child, Closed)) && s.core.process == Some(child) && s.core.children[child].wired
    ensures var t := CloseHandled(s, child);
      && t.core.status == Stopped && t.core.process.None? && !t.killTimer && !t.healthTimer && !t.core.pendingStart
      && s.core.children[child].bridge !in t.core.open && t.queued == s.queued + (if s.core.pendingStart then 1 else 0)
      && t.core.bridge == (if s.core.bridge == Some(s.core.children[child].bridge) then None else s.core.bridge)
  {
  }

  /** When the child on record closes the node is stopped, and a start that was queued is put in line. */
  lemma CloseStops(s: State, child: Child)
    requires Enabled(s, OfChild(child, Closed)) && s.core.process == Some(child) && s.core.children[child].wired
    ensures var t := Next(s, OfChild(child, Closed));
      && t.core.status == Stopped && t.core.process.None? && !t.killTimer && !t.healthTimer && !t.core.pendingStart
      && s.core.children[child].bridge !in t.core.open && t.queued == s.queued + (if s.core.pendingStart then 1 else 0)
      && t.core.bridge == (if s.core.bridge == Some(s.core.children[child].bridge) then None else s.core.bridge)
  {
    HandledStops(s, child);
  }

  /** The listener that a stop has added for a child is gone when that child has closed, and both timers with it. */
  lemma CloseEndsTheWait(s: State, child: Child)
    requires Enabled(s, OfChild(child, Closed)) && child in s.exitListeners
    ensures var t := Next(s, OfChild(child, Closed));
      !t.killTimer && !t.healthTimer && t.exitListeners == s.exitListeners - {child}
      && child in t.core.children && t.core.children[child].closed
  {
  }

  /** Any other child that closes takes its own bridge with it, if its handlers were attached, and nothing else. */
  lemma CloseElsewhere(s: State, child: Child)
    requires Enabled(s, OfChild(child, Closed)) && child !in s.exitListeners
    requires s.core.process != Some(child) || !s.core.children[child].wired
    ensures var t := Next(s, OfChild(child, Closed)); var p := s.core.children[child];
      && t == s.(core := t.core) && t.core.children == s.core.children[child := p.(closed := true)]
      && t.core.open == s.core.open - (if p.wired then {p.bridge} else {})
      && t.core.bridge == (if p.wired && s.core.bridge == Some(p.bridge) then None else s.core.bridge)
      && t.core == s.core.(children := t.core.children, open := t.core.open, bridge := t.core.bridge)
  {
  }

  /** A poll that is not of the latest attempt and its child ends at its next tick or answer, and does nothing else. */
  lemma StalePollEnds(s: State, child: Child, healthy: bool)
    requires child in s.core.polls && !PolledNow(s, child)
    ensures var p := s.core.polls[child]; var ended := p.(active := false);
      && (p.active ==>
            Next(s, OfChild(child, PollTick)) == s.(core := s.core.(polls := s.core.polls[child := ended])))
      && (p.inFlight > 0 ==>
            Next(s, OfChild(child, PollAnswered(healthy)))
              == s.(core := s.core.(polls := s.core.polls[child := ended.(inFlight := p.inFlight - 1)])))
  {
  }

  /** An error of the child on record is a failure of the node. */
  lemma ErrorFails(s: State, child: Child)
    requires Enabled(s, OfChild(child, Errored))
    ensures var t := Next(s, OfChild(child, Errored));
      && s.core.children[child].bridge !in t.core.open
      && t.core.status == if s.core.process == Some(child) then Failed else s.core.status
  {
  }

  /** The health check of a running node reports its failures and its recoveries. */
  lemma HealthIsFollowed(s: State, healthy: bool)
    ensures var t := Next(s, HealthAnswered(healthy));
      t == s.(core := s.core.(status :=
        if s.core.status == Running && !healthy then Failed
        else if s.core.status == Failed && healthy then Running else s.core.status))
  {
  }

  // ---------------------------------------------------------------- starts succeed

  /** In every run: a healthy answer for the child of the latest attempt marks the node as running. */
  lemma HealthyNodeRuns(events: seq<Event>, child: Child)
    requires Run(events).Some? && PolledNow(Run(events).value, child)
    requires Run(events).value.core.polls[child].inFlight > 0
    ensures var all := events + [OfChild(child, PollAnswered(true))];
      && Run(all).Some? && Run(all).value.core.status == Running && Run(all).value.healthTimer
      && Run(all).value.core.log
           == Run(events).value.core.log + [MarkedRunning(Run(events).value.core.generation, Bundled)]
  {
    RunMore(events, OfChild(child, PollAnswered(true)));
    HealthyMarksRunning(Run(events).value, child);
  }

  /** In every run: a daemon that the latest attempt finds is reused. */
  lemma FoundNodeRuns(events: seq<Event>, g: nat, a: Answer)
    requires Run(events).Some? && Current(Run(events).value, g) && Run(events).value.core.waits[g] == AtDetect
    requires a.Detected? && a.found
    ensures var all := events + [Resumed(g, a)];
      && Run(all).Some? && Run(all).value.core.status == Running && Run(all).value.healthTimer
      && Run(all).value.mode == Reused
      && Run(all).value.core.log == Run(events).value.core.log + [MarkedRunning(g, Reused)]
  {
    RunMore(events, Resumed(g, a));
    AttemptGoesOn(Run(events).value, g, a);
  }

  lemma RunMore(events: seq<Event>, e: Event)
    requires Run(events).Some? && Enabled(Run(events).value, e)
    ensures Run(events + [e]) == Some(Next(Run(events).value, e))
  {
    assert (events + [e])[..|events|] == events;
  }

  /** The events of a start that goes well: no port is taken, a bridge, a child and a healthy answer. */
  function GoodStart(managed: bool, g: nat, b: Bridge, child: Child): seq<Event> {
    Lead(managed, g) + Healthy(g, b, child)
  }

  function Lead(managed: bool, g: nat): seq<Event> {
    if managed then [Start(Managed, true), Resumed(g, ApiProbed(false)), Resumed(g, P2pProbed(false, true))]
    else [Start(Legacy, true), Resumed(g, Detected(false, false, true, true))]
  }

  function Healthy(g: nat, b: Bridge, child: Child): seq<Event> {
    [Resumed(g, BridgeOpened(b, SpawnOk(child))), OfChild(child, PollTick), OfChild(child, PollAnswered(true))]
  }

  lemma LaunchSucceeds(events: seq<Event>, g: nat, b: Bridge, child: Child)
    requires Run(events).Some? && WaitsAt(Run(events).value, g, AtBridge)
    requires b !in Run(events).value.core.seen && child !in Run(events).value.core.children
    ensures Succeeds(events + Healthy(g, b, child), b, child)
  {
    var s := Run(events).value;
    var bridged := Resumed(g, BridgeOpened(b, SpawnOk(child)));
    AttemptGoesOn(s, g, BridgeOpened(b, SpawnOk(child)));
    RunMore(events, bridged);
    var s1 := Next(s, bridged);
    SpawnedCore(s, g, b, child);
    TickChecks(s1, child);
    RunMore(events + [bridged], OfChild(child, PollTick));
    var s2 := Next(s1, OfChild(child, PollTick));
    TickLeaves(s1, child);
    HealthyNodeRuns(events + [bridged] + [OfChild(child, PollTick)], child);
    HealthyLeaves(s2, child);
    RunMore(events + [bridged] + [OfChild(child, PollTick)], OfChild(child, PollAnswered(true)));
    assert events + [bridged] + [OfChild(child, PollTick)] + [OfChild(child, PollAnswered(true))]
      == events + Healthy(g, b, child);
  }

  lemma SpawnedCore(s: State, g: nat, b: Bridge, child: Child)
    requires Current(s, g) && Enabled(s, Resumed(g, BridgeOpened(b, SpawnOk(child))))
    ensures var t := Next(s, Resumed(g, BridgeOpened(b, SpawnOk(child))));
      t.core.generation == s.core.generation && t.core.bridge == Some(b) && child in t.core.children
      && t.core.children[child].bridge == b
  {
  }

  lemma TickLeaves(s: State, child: Child)
    requires Enabled(s, OfChild(child, PollTick))
    ensures var t := Next(s, OfChild(child, PollTick));
      t.core.(polls := s.core.polls) == s.core && t.(core := s.core) == s
  {
  }

  lemma HealthyLeaves(s: State, child: Child)
    requires PolledNow(s, child) && s.core.polls[child].inFlight > 0
    ensures var t := Next(s, OfChild(child, PollAnswered(true)));
      t.core.process == s.core.process && t.core.bridge == s.core.bridge && t.core.children == s.core.children
  {
  }

  ghost predicate Succeeds(events: seq<Event>, b: Bridge, child: Child) {
    && Run(events).Some? && Run(events).value.core.status == Running && Run(events).value.core.process == Some(child)
    && Run(events).value.core.bridge == Some(b) && Run(events).value.healthTimer
  }

  lemma FromLead(events: seq<Event>, lead: seq<Event>, g: nat, b: Bridge, child: Child)
    requires Led(events, lead, g, AtBridge)
    requires b !in Run(events).value.core.seen && child !in Run(events).value.core.children
    ensures Succeeds(events + (lead + Healthy(g, b, child)), b, child)
  {
    LaunchSucceeds(events + lead, g, b, child);
    assert events + lead + Healthy(g, b, child) == events + (lead + Healthy(g, b, child));
  }

  lemma GoodLead(events: seq<Event>, managed: bool, g: nat)
    requires Run(events).Some? && Run(events).value.core.status in {Stopped, Failed}
    requires g == Run(events).value.core.generation + 1
    ensures Led(events, Lead(managed, g), g, AtBridge)
  {
    if managed {
      StartLeads(events, Managed, AtApiProbe);
      ManagedProbe(events, g);
      ManagedLead(events, [Start(Managed, true), Resumed(g, ApiProbed(false))], g);
    } else {
      StartLeads(events, Legacy, AtDetect);
      LegacyLead(events, g);
    }
  }

  /** From every run that leaves the node stopped or failed, a start whose answers are all good brings it up, with its
      child on record and its bridge open. */
  lemma GoodStartSucceeds(events: seq<Event>, managed: bool, b: Bridge, child: Child)
    requires Run(events).Some? && Run(events).value.core.status in {Stopped, Failed}
    requires b !in Run(events).value.core.seen && child !in Run(events).value.core.children
    ensures Succeeds(events + GoodStart(managed, Run(events).value.core.generation + 1, b, child), b, child)
  {
    var g := Run(events).value.core.generation + 1;
    GoodLead(events, managed, g);
    FromLead(events, Lead(managed, g), g, b, child);
  }

  /** After `lead` the attempt waits at `at`, and no bridge and no child has been returned since. */
  ghost predicate Led(events: seq<Event>, lead: seq<Event>, g: nat, at: Wait) {
    && Run(events).Some? && Run(events + lead).Some?
    && WaitsAt(Run(events + lead).value, g, at) && SameBefore(Run(events).value, Run(events + lead).value)
  }

  predicate SameBefore(s: State, t: State) {
    t.core.seen == s.core.seen && t.core.children == s.core.children
  }

  predicate WaitsAt(s: State, g: nat, at: Wait) {
    Current(s, g) && s.core.waits[g] == at && s.core.status == Starting
  }

  lemma StartLeads(events: seq<Event>, profile: Profile, at: Wait)
    requires Run(events).Some? && Run(events).value.core.status in {Stopped, Failed}
    requires FirstWait(profile, true) == Some(at)
    ensures Led(events, [Start(profile, true)], Run(events).value.core.generation + 1, at)
  {
    RunMore(events, Start(profile, true));
    StartBegins(Run(events).value, profile, true);
  }

  lemma AnswerLeads(events: seq<Event>, lead: seq<Event>, g: nat, at: Wait, a: Answer, next: Wait)
    requires Led(events, lead, g, at) && Answers(Run(events + lead).value.core, at, a)
    requires FateOf(at, a) == On(next) && !a.BridgeOpened?
    ensures Led(events, lead + [Resumed(g, a)], g, next)
  {
    RunMore(events + lead, Resumed(g, a));
    AttemptGoesOn(Run(events + lead).value, g, a);
    OnlyTheBridgeLaunches(Run(events + lead).value, g, a);
    assert events + (lead + [Resumed(g, a)]) == events + lead + [Resumed(g, a)];
  }

  lemma LegacyLead(events: seq<Event>, g: nat)
    requires Led(events, [Start(Legacy, true)], g, AtDetect)
    ensures Led(events, Lead(false, g), g, AtBridge)
  {
    AnswerLeads(events, [Start(Legacy, true)], g, AtDetect, Detected(false, false, true, true), AtBridge);
    assert [Start(Legacy, true)] + [Resumed(g, Detected(false, false, true, true))] == Lead(false, g);
  }

  lemma ManagedProbe(events: seq<Event>, g: nat)
    requires Led(events, [Start(Managed, true)], g, AtApiProbe)
    ensures Led(events, [Start(Managed, true), Resumed(g, ApiProbed(false))], g, AtP2pProbe(false))
  {
    AnswerLeads(events, [Start(Managed, true)], g, AtApiProbe, ApiProbed(false), AtP2pProbe(false));
    assert [Start(Managed, true)] + [Resumed(g, ApiProbed(false))]
      == [Start(Managed, true), Resumed(g, ApiProbed(false))];
  }

  lemma ManagedLead(events: seq<Event>, lead: seq<Event>, g: nat)
    requires lead == [Start(Managed, true), Resumed(g, ApiProbed(false))] && Led(events, lead, g, AtP2pProbe(false))
    ensures Led(events, Lead(true, g), g, AtBridge)
  {
    AnswerLeads(events, lead, g, AtP2pProbe(false), P2pProbed(false, true), AtBridge);
    assert lead + [Resumed(g, P2pProbed(false, true))] == Lead(true, g);
  }
}
