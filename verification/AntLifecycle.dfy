/**
 The Ant node lifecycle of src/main/ant-manager.js as a state machine. One step is what runs
 between two `await`s: a call from outside, a suspended `startAnt` resuming, a child-process
 event, a timer. A suspended start is known by its generation, which no other start shares.
 */
module AntLifecycle {
  datatype Option<+T> = None | Some(value: T)

  datatype Status = Stopped | Starting | Running | Stopping | Failed
  datatype Mode = NoMode | Bundled | Reused | External | Disabled
  datatype Profile = Legacy | Managed | ExternalNode | DisabledNode | UnknownMode

  /** Where a start attempt is suspended. `changed`: a port differs from the profile's. */
  datatype Wait =
    | AtExternalProbe
    | AtDetect
    | AtApiProbe
    | AtApiSearch(managed: bool)
    | AtP2pProbe(changed: bool)
    | AtP2pSearch
    | AtPersist
    | AtBridge
    | AtSpawnFailed

  type Child = nat
  type Bridge = nat

  /** `wired`: the close and error handlers of `startAnt` are attached. */
  datatype Process = Process(bridge: Bridge, wired: bool, closed: bool)

  /** The health poll of one child: checks started and not answered yet, unhealthy answers so far. */
  datatype Poll = Poll(gen: nat, active: bool, inFlight: nat, attempts: nat)

  /** What the outside can see happen. */
  datatype Happening =
    | Began(gen: nat)
    | StopAsked
    | Spawned(gen: nat, child: Child)
    | MarkedRunning(gen: nat, mode: Mode)

  const MAX_POLLS := 60

  /** The part of the state the protocol turns on. `seen` and `open`: the bridges returned so far, and those not
      closed. */
  datatype Core = Core(
    status: Status,
    pendingStart: bool,
    generation: nat,
    log: seq<Happening>,
    waits: map<nat, Wait>,
    polls: map<Child, Poll>,
    process: Option<Child>,
    children: map<Child, Process>,
    bridge: Option<Bridge>,
    open: set<Bridge>,
    seen: set<Bridge>)

  /** `queued`: starts handed to a timer; `exitListeners`: children a `stopAnt` waits for. */
  datatype State = State(
    core: Core,
    mode: Mode,
    healthTimer: bool,
    killTimer: bool,
    queued: nat,
    exitListeners: set<Child>)

  const Initial :=
    State(Core(Stopped, false, 0, [], map[], map[], None, map[], None, {}, {}), NoMode, false, false, 0, {})

  datatype Spawn = SpawnOk(child: Child) | SpawnThrows | LogPipeThrows(child: Child)

  /** What a suspended attempt can be resumed with. `ready`: the migration is done, the binary is there and the
      identity injected if one is needed. */
  datatype Answer =
    | ExternalProbed(valid: bool)
    | Detected(found: bool, conflict: bool, ready: bool, configOk: bool)
    | ApiProbed(busy: bool)
    | ApiFound(found: bool, configOk: bool)
    | P2pProbed(busy: bool, configOk: bool)
    | P2pFound(found: bool)
    | Persisted(saved: bool, configOk: bool)
    | BridgeOpened(bridge: Bridge, spawn: Spawn)
    | BridgeFailed
    | SpawnFailureReported

  datatype ChildEvent = Closed | Errored | PollTick | PollAnswered(healthy: bool)

  datatype Event =
    | Start(profile: Profile, ready: bool)
    | QueuedStart(profile: Profile, ready: bool)
    | Stop
    | Resumed(gen: nat, answer: Answer)
    | OfChild(child: Child, what: ChildEvent)
    | HealthAnswered(healthy: bool)
    | KillTimerFired

  // ---------------------------------------------------------------- small changes

  function SetStatus(c: Core, status: Status): Core {
    c.(status := status)
  }

  function Suspend(c: Core, gen: nat, at: Wait): Core {
    c.(waits := c.waits[gen := at])
  }

  function Resume(c: Core, gen: nat): Core {
    c.(waits := c.waits - {gen})
  }

  /** `++startGeneration`, which every accepted start and every stop does. Both forget a queued start. */
  function Raise(c: Core, h: Happening): Core {
    c.(generation := c.generation + 1, log := c.log + [h], pendingStart := false)
  }

  function CloseBridge(c: Core, b: Bridge): Core {
    c.(open := c.open - {b}, bridge := if c.bridge == Some(b) then None else c.bridge)
  }

  /** `closeChainBridge()` with no argument: the bridge on record, if any. */
  function CloseCurrentBridge(c: Core): Core {
    if c.bridge.None? then c else CloseBridge(c, c.bridge.value)
  }

  function MarkRunning(c: Core, gen: nat, mode: Mode): Core {
    c.(status := Running, log := c.log + [MarkedRunning(gen, mode)])
  }

  function SetPoll(c: Core, child: Child, p: Poll): Core {
    c.(polls := c.polls[child := p])
  }

  /** A bridge that was returned but is closed at once; it is, or was, the bridge on record when `recorded`. */
  function SeeBridge(c: Core, b: Bridge, recorded: bool): Core {
    c.(seen := c.seen + {b}, bridge := if recorded then None else c.bridge)
  }

  function AddChild(c: Core, gen: nat, child: Child, b: Bridge): Core {
    c.(open := c.open + {b}, seen := c.seen + {b}, bridge := Some(b), process := Some(child),
       children := c.children[child := Process(b, true, false)],
       polls := c.polls[child := Poll(gen, true, 0, 0)],
       log := c.log + [Spawned(gen, child)])
  }

  /** A child whose handlers were never attached: its bridge is closed already. */
  function AddUnwiredChild(c: Core, gen: nat, child: Child, b: Bridge): Core {
    c.(seen := c.seen + {b}, bridge := None, process := Some(child),
       children := c.children[child := Process(b, false, false)],
       log := c.log + [Spawned(gen, child)])
  }

  function MarkClosed(c: Core, child: Child): Core
    requires child in c.children
  {
    c.(children := c.children[child := c.children[child].(closed := true)])
  }

  function ForgetProcess(c: Core): Core {
    c.(process := None, status := Stopped, pendingStart := false)
  }

  // ---------------------------------------------------------------- the steps

  /** `stopAnt` */
  function StopNow(s: State): State {
    var c := Raise(CloseCurrentBridge(s.core), StopAsked);
    if s.mode == Reused || s.mode == External || s.mode == Disabled then
      s.(core := SetStatus(c, Stopped), healthTimer := false, mode := NoMode)
    else if c.process.None? then
      s.(core := SetStatus(c, Stopped), healthTimer := false)
    else
      s.(core := SetStatus(c, Stopping), healthTimer := false, killTimer := true,
         exitListeners := s.exitListeners + {c.process.value})
  }

  /** `startAnt` up to its first `await`; for an external node `ready` says that its address is configured. */
  function StartNow(s: State, profile: Profile, ready: bool): State {
    if s.core.status == Running || s.core.status == Starting then s
    else if s.core.status == Stopping then s.(core := s.core.(pendingStart := true))
    else
      var g := s.core.generation + 1;
      var c := SetStatus(Raise(s.core, Began(g)), Starting);
      match profile
      case UnknownMode => s.(core := SetStatus(c, Failed))
      case DisabledNode => s.(core := SetStatus(c, Stopped), mode := Disabled)
      case ExternalNode => s.(core := if ready then Suspend(c, g, AtExternalProbe) else SetStatus(c, Failed))
      case Legacy => s.(core := Suspend(c, g, AtDetect))
      case Managed => s.(core := if ready then Suspend(c, g, AtApiProbe) else SetStatus(c, Failed))
  }

  /** The ports are settled: check the generation, take over the mode, write the config, open the bridge. */
  function PortsSettled(s: State, gen: nat, configOk: bool): State {
    if gen != s.core.generation then s
    else s.(core := if configOk then Suspend(s.core, gen, AtBridge) else SetStatus(s.core, Failed), mode := Bundled)
  }

  /** The bridge is open: spawn, unless the attempt has been superseded meanwhile. */
  function SpawnNow(c: Core, gen: nat, b: Bridge, spawn: Spawn): Core {
    if gen != c.generation then SeeBridge(c, b, false)
    else
      match spawn
      case SpawnOk(child) => AddChild(c, gen, child, b)
      case SpawnThrows => Suspend(SeeBridge(c, b, true), gen, AtSpawnFailed)
      case LogPipeThrows(child) => Suspend(AddUnwiredChild(c, gen, child, b), gen, AtSpawnFailed)
  }

  function DetectedNow(s: State, g: nat, a: Answer): State
    requires a.Detected?
  {
    if g != s.core.generation then s
    else if a.found then s.(core := MarkRunning(s.core, g, Reused), mode := Reused, healthTimer := true)
    else if !a.ready then s.(core := SetStatus(s.core, Failed))
    else if a.conflict then s.(core := Suspend(s.core, g, AtApiSearch(false)))
    else PortsSettled(s, g, a.configOk)
  }

  function ApiFoundNow(s: State, g: nat, managed: bool, a: Answer): State
    requires a.ApiFound?
  {
    if !a.found then s.(core := SetStatus(s.core, Failed))
    else if managed then s.(core := Suspend(s.core, g, AtP2pProbe(true)))
    else PortsSettled(s, g, a.configOk)
  }

  function P2pProbedNow(s: State, g: nat, changed: bool, a: Answer): State
    requires a.P2pProbed?
  {
    if a.busy then s.(core := Suspend(s.core, g, AtP2pSearch))
    else if changed then s.(core := Suspend(s.core, g, AtPersist))
    else PortsSettled(s, g, a.configOk)
  }

  function PersistedNow(s: State, g: nat, a: Answer): State
    requires a.Persisted?
  {
    if a.saved then PortsSettled(s, g, a.configOk)
    else if g != s.core.generation then s
    else s.(core := SetStatus(s.core, Failed))
  }

  /** Whether an attempt suspended at `at` can be resumed with `a`; no bridge and no child is ever returned twice. */
  predicate Answers(c: Core, at: Wait, a: Answer) {
    match a
    case ExternalProbed(_) => at == AtExternalProbe
    case Detected(_, _, _, _) => at == AtDetect
    case ApiProbed(_) => at == AtApiProbe
    case ApiFound(_, _) => at.AtApiSearch?
    case P2pProbed(_, _) => at.AtP2pProbe?
    case P2pFound(_) => at == AtP2pSearch
    case Persisted(_, _) => at == AtPersist
    case BridgeOpened(b, spawn) =>
      at == AtBridge && b !in c.seen && (!spawn.SpawnThrows? ==> spawn.child !in c.children)
    case BridgeFailed => at == AtBridge
    case SpawnFailureReported => at == AtSpawnFailed
  }

  /** An attempt goes on; `s` no longer holds it among the suspended ones. */
  function Continue(s: State, g: nat, at: Wait, a: Answer): State
    requires Answers(s.core, at, a)
  {
    match a
    case ExternalProbed(valid) =>
      if valid then s.(core := SetStatus(s.core, Running), mode := External, healthTimer := true)
      else s.(core := SetStatus(s.core, Failed))
    case Detected(_, _, _, _) => DetectedNow(s, g, a)
    case ApiProbed(busy) => s.(core := Suspend(s.core, g, if busy then AtApiSearch(true) else AtP2pProbe(false)))
    case ApiFound(_, _) => ApiFoundNow(s, g, at.managed, a)
    case P2pProbed(_, _) => P2pProbedNow(s, g, at.changed, a)
    case P2pFound(found) => s.(core := if found then Suspend(s.core, g, AtPersist) else SetStatus(s.core, Failed))
    case Persisted(_, _) => PersistedNow(s, g, a)
    case BridgeOpened(b, spawn) => s.(core := SpawnNow(s.core, g, b, spawn))
    case BridgeFailed => if g != s.core.generation then s else s.(core := SetStatus(s.core, Failed))
    case SpawnFailureReported => s.(core := SetStatus(s.core, Failed))
  }

  /** The `close` handler of `startAnt`. */
  function CloseHandled(s: State, child: Child): State
    requires child in s.core.children
  {
    var p := s.core.children[child];
    if !p.wired then s.(core := MarkClosed(s.core, child))
    else
      var c := MarkClosed(CloseBridge(s.core, p.bridge), child);
      if c.process != Some(child) then s.(core := c)
      else s.(core := ForgetProcess(c), killTimer := false, healthTimer := false,
              queued := s.queued + if c.pendingStart then 1 else 0)
  }

  /** The child's `close` event: that handler, then the listener a `stopAnt` may have added. */
  function ClosedNow(s: State, child: Child): State
    requires child in s.core.children
  {
    var u := CloseHandled(s, child);
    if child in s.exitListeners then
      u.(healthTimer := false, killTimer := false, exitListeners := s.exitListeners - {child})
    else u
  }

  function ErroredNow(c: Core, child: Child): Core
    requires child in c.children
  {
    var d := CloseBridge(c, c.children[child].bridge);
    if c.process == Some(child) then SetStatus(d, Failed) else d
  }

  function TickNow(c: Core, child: Child): Core
    requires child in c.polls
  {
    var p := c.polls[child];
    if p.gen != c.generation || c.process != Some(child) || c.status == Stopped || c.status == Failed
    then SetPoll(c, child, p.(active := false))
    else SetPoll(c, child, p.(inFlight := p.inFlight + 1))
  }

  /** The last unhealthy answer: stop, then report the failure. */
  function TimedOut(s: State): State {
    var t := StopNow(s);
    t.(core := SetStatus(t.core, Failed))
  }

  function CountFailure(c: Core, child: Child, p: Poll): Core {
    SetPoll(c, child, p.(active := p.active && p.attempts + 1 < MAX_POLLS, attempts := p.attempts + 1))
  }

  function UnhealthyNow(s: State, child: Child, p: Poll): State {
    var t := s.(core := CountFailure(s.core, child, p));
    if p.attempts + 1 >= MAX_POLLS then TimedOut(t) else t
  }

  function AnsweredNow(s: State, child: Child, healthy: bool): State
    requires child in s.core.polls && s.core.polls[child].inFlight > 0
  {
    var c := s.core;
    var p := c.polls[child].(inFlight := c.polls[child].inFlight - 1);
    if p.gen != c.generation || c.process != Some(child) then
      s.(core := SetPoll(c, child, p.(active := false)))
    else if healthy then
      s.(core := MarkRunning(SetPoll(c, child, p.(active := false)), p.gen, Bundled), healthTimer := true)
    else UnhealthyNow(s, child, p)
  }

  predicate ChildEnabled(c: Core, child: Child, what: ChildEvent) {
    match what
    case Closed => child in c.children && !c.children[child].closed
    case Errored => child in c.children && c.children[child].wired
    case PollTick => child in c.polls && c.polls[child].active
    case PollAnswered(_) => child in c.polls && c.polls[child].inFlight > 0
  }

  function ChildNext(s: State, child: Child, what: ChildEvent): State
    requires ChildEnabled(s.core, child, what)
  {
    match what
    case Closed => ClosedNow(s, child)
    case Errored => s.(core := ErroredNow(s.core, child))
    case PollTick => s.(core := TickNow(s.core, child))
    case PollAnswered(healthy) => AnsweredNow(s, child, healthy)
  }

  function HealthNext(c: Core, healthy: bool): Core {
    if !healthy && c.status == Running then SetStatus(c, Failed)
    else if healthy && c.status == Failed then SetStatus(c, Running)
    else c
  }

  /** Which events can happen: a resumption needs its suspended attempt, an event its process or timer. */
  predicate Enabled(s: State, e: Event) {
    match e
    case Start(_, _) => true
    case QueuedStart(_, _) => s.queued > 0
    case Stop => true
    case Resumed(g, a) => g in s.core.waits && Answers(s.core, s.core.waits[g], a)
    case OfChild(c, what) => ChildEnabled(s.core, c, what)
    case HealthAnswered(_) => true
    case KillTimerFired => s.killTimer
  }

  function Next(s: State, e: Event): State
    requires Enabled(s, e)
  {
    match e
    case Start(profile, ready) => StartNow(s, profile, ready)
    case QueuedStart(profile, ready) => StartNow(s.(queued := s.queued - 1), profile, ready)
    case Stop => StopNow(s)
    case Resumed(g, a) => Continue(s.(core := Resume(s.core, g)), g, s.core.waits[g], a)
    case OfChild(c, what) => ChildNext(s, c, what)
    case HealthAnswered(healthy) => s.(core := HealthNext(s.core, healthy))
    case KillTimerFired => s.(killTimer := false)
  }

  /** The state after a whole run. */
  function Run(events: seq<Event>): Option<State> {
    if events == [] then Some(Initial)
    else
      var before := Run(events[..|events| - 1]);
      if before.Some? && Enabled(before.value, events[|events| - 1])
      then Some(Next(before.value, events[|events| - 1]))
      else None
  }
}
