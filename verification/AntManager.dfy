/** The module-level state of src/main/ant-manager.js and the code that changes it, step by step. */
module AntManager {
  import opened AntLifecycle
  import opened AntSafety

  // ---------------------------------------------------------------- what some of the steps promise

  ghost predicate AllOlder(waits: map<nat, Wait>, generation: nat) {
    forall g :: g in waits ==> g < generation
  }

  lemma StopGives(s: State)
    requires Inv(s.core)
    ensures var t := StopNow(s).core;
      t.bridge.None? && !t.pendingStart && AllOlder(t.waits, t.generation)
      && (t.status == Stopped || t.status == Stopping)
  {
  }

  /** What is left of a child after its close event. */
  ghost predicate Buried(s: State, child: Child, t: State)
    requires child in s.core.children
  {
    var p := s.core.children[child];
    && child in t.core.children && t.core.children[child] == p.(closed := true)
    && (p.wired ==> p.bridge !in t.core.open)
    && (if s.core.process == Some(child) && p.wired
        then t.core.process.None? && t.core.status == Stopped
             && t.queued == s.queued + if s.core.pendingStart then 1 else 0
        else t.core.process == s.core.process && t.core.status == s.core.status && t.queued == s.queued)
  }

  lemma CloseHandledGives(s: State, child: Child)
    requires child in s.core.children
    ensures Buried(s, child, CloseHandled(s, child))
  {
  }

  lemma ClosedGives(s: State, child: Child)
    requires child in s.core.children
    ensures Buried(s, child, ClosedNow(s, child))
  {
    CloseHandledGives(s, child);
  }

  predicate Belongs(s: State, child: Child) {
    child in s.core.polls && s.core.polls[child].gen == s.core.generation && s.core.process == Some(child)
  }

  predicate Same(s: State, t: State) {
    && t.core.process == s.core.process && t.core.bridge == s.core.bridge
    && t.core.status == s.core.status && t.mode == s.mode
  }

  lemma AnsweredGives(s: State, child: Child, healthy: bool)
    requires child in s.core.polls && s.core.polls[child].inFlight > 0
    ensures !Belongs(s, child) ==> Same(s, AnsweredNow(s, child, healthy))
    ensures !healthy && s.core.status != Running ==> AnsweredNow(s, child, healthy).core.status != Running
  {
  }

  class Manager {
    var currentState: Status
    var currentMode: Mode
    var startGeneration: nat
    var pendingStart: bool
    var antProcess: Option<Child>
    var chainBridge: Option<Bridge>
    var healthCheckTimer: bool
    var forceKillTimer: bool
    // What is under way: suspended starts, timers that will call `startAnt`, children, polls, listeners of `stopAnt`.
    var waits: map<nat, Wait>
    var queued: nat
    var children: map<Child, Process>
    var polls: map<Child, Poll>
    var exitListeners: set<Child>
    // What has happened.
    ghost var log: seq<Happening>
    ghost var open: set<Bridge>
    ghost var seen: set<Bridge>

    ghost function View(): State
      reads this
    {
      State(Core(currentState, pendingStart, startGeneration, log, waits, polls, antProcess, children, chainBridge,
                 open, seen),
            currentMode, healthCheckTimer, forceKillTimer, queued, exitListeners)
    }

    /** The log fits, suspended attempts and polls have begun, no attempt spawns twice, open bridges have a child that
        has not closed, and a queued start has a process to wait for. */
    ghost predicate Valid()
      reads this
    {
      Inv(View().core)
    }

    /** Process, bridge on record, state and mode are as they were in `s`. */
    ghost predicate LeftAlone(s: State)
      reads this
    {
      Same(s, View())
    }

    lemma Step(e: Event)
      requires Valid() && Enabled(View(), e)
      ensures Inv(Next(View(), e).core)
    {
      StepInv(View(), e);
    }

    /** A resumption that looks at the generation, and finds itself superseded. */
    lemma TooLate(g: nat, a: Answer)
      requires Enabled(View(), Resumed(g, a)) && !Unguarded(a)
      ensures g != startGeneration ==> Same(View(), Next(View(), Resumed(g, a)))
    {
      if g != startGeneration {
        SupersededAttemptsTouchLittle(View(), g, a);
      }
    }

    constructor ()
      ensures Valid() && View() == Initial
    {
      currentState, currentMode, startGeneration, pendingStart := Stopped, NoMode, 0, false;
      antProcess, chainBridge, healthCheckTimer, forceKillTimer := None, None, false, false;
      waits, queued, children, polls, exitListeners := map[], 0, map[], map[], {};
      log, open, seen := [], {}, {};
      new;
      InitialInv();
    }

    /** `closeChainBridge(bridge)`; closing twice is closing once. */
    method CloseChainBridge(bridge: Bridge)
      modifies this`chainBridge, this`open
      ensures View() == old(View()).(core := CloseBridge(old(View()).core, bridge))
    {
      if chainBridge == Some(bridge) {
        chainBridge := None;
      }
      open := open - {bridge};
    }

    /** `updateState` */
    method UpdateState(status: Status)
      modifies this`currentState
      ensures View() == old(View()).(core := SetStatus(old(View()).core, status))
    {
      currentState := status;
    }

    /** `++startGeneration` and `pendingStart = false`, which a start and a stop both do. */
    method Supersede(h: Happening)
      modifies this`startGeneration, this`pendingStart, this`log
      ensures View() == old(View()).(core := Raise(old(View()).core, h))
    {
      pendingStart := false;
      startGeneration := startGeneration + 1;
      log := log + [h];
    }

    method TakeMode(mode: Mode)
      modifies this`currentMode
      ensures View() == old(View()).(mode := mode)
    {
      currentMode := mode;
    }

    method SetHealthTimer(on: bool)
      modifies this`healthCheckTimer
      ensures View() == old(View()).(healthTimer := on)
    {
      healthCheckTimer := on;
    }

    method SetKillTimer(on: bool)
      modifies this`forceKillTimer
      ensures View() == old(View()).(killTimer := on)
    {
      forceKillTimer := on;
    }

    /** An `await` in `startAnt`. */
    method Await(generation: nat, at: Wait)
      modifies this`waits
      ensures View() == old(View()).(core := Suspend(old(View()).core, generation, at))
    {
      waits := waits[generation := at];
    }

    /** That `await` is over. */
    method Wake(generation: nat)
      modifies this`waits
      ensures View() == old(View()).(core := Resume(old(View()).core, generation))
    {
      waits := waits - {generation};
    }

    method NoteRunning(generation: nat, mode: Mode)
      modifies this`currentState, this`log
      ensures View() == old(View()).(core := MarkRunning(old(View()).core, generation, mode))
    {
      currentState := Running;
      log := log + [MarkedRunning(generation, mode)];
    }

    /** `antProcess = spawn(...)` */
    method NoteChild(generation: nat, child: Child, bridge: Bridge, wired: bool)
      modifies this`antProcess, this`children, this`log
      ensures View() == old(View()).(core := old(View()).core.(process := Some(child),
        children := old(children)[child := Process(bridge, wired, false)],
        log := old(log) + [Spawned(generation, child)]))
    {
      antProcess := Some(child);
      children := children[child := Process(bridge, wired, false)];
      log := log + [Spawned(generation, child)];
    }

    /** A bridge comes back from `startAntChainBridge`; it is recorded, unless it is closed at once. */
    method NoteBridge(bridge: Bridge, kept: bool, recorded: bool)
      modifies this`chainBridge, this`open, this`seen
      ensures View() == old(View()).(core := old(View()).core.(seen := old(seen) + {bridge},
        open := if kept then old(open) + {bridge} else old(open),
        bridge := if !recorded then old(chainBridge) else if kept then Some(bridge) else None))
    {
      seen := seen + {bridge};
      if kept {
        open := open + {bridge};
      }
      if recorded {
        chainBridge := if kept then Some(bridge) else None;
      }
    }

    method KeepPoll(child: Child, p: Poll)
      modifies this`polls
      ensures View() == old(View()).(core := SetPoll(old(View()).core, child, p))
    {
      polls := polls[child := p];
    }

    /** The `close` event has fired. */
    method NoteClosed(child: Child)
      requires child in children
      modifies this`children
      ensures View() == old(View()).(core := MarkClosed(old(View()).core, child))
    {
      children := children[child := children[child].(closed := true)];
    }

    /** `antProcess = null`, the state it leaves, and the queued start, if there is one. */
    method DropProcess()
      modifies this`antProcess, this`currentState, this`pendingStart, this`queued
      ensures View() == old(View()).(core := ForgetProcess(old(View()).core),
        queued := old(queued) + if old(pendingStart) then 1 else 0)
    {
      antProcess := None;
      currentState := Stopped;
      if pendingStart {
        pendingStart := false;
        queued := queued + 1;
      }
    }

    method SetExitListeners(listeners: set<Child>)
      modifies this`exitListeners
      ensures View() == old(View()).(exitListeners := listeners)
    {
      exitListeners := listeners;
    }

    /** A start that is accepted raises the generation over every suspended attempt; one that comes while a node stops
        is queued, and there is a process whose end it waits for. */
    method StartAnt(profile: Profile, ready: bool)
      requires Valid()
      modifies this
      ensures Valid() && View() == Next(old(View()), Start(profile, ready))
      ensures old(currentState) in {Running, Starting} ==> View() == old(View())
      ensures old(currentState) == Stopping ==>
        View() == old(View()).(core := old(View()).core.(pendingStart := true)) && antProcess.Some?
      ensures old(currentState) in {Stopped, Failed} ==>
        startGeneration == old(startGeneration) + 1
        && forall g :: g in waits ==> g < startGeneration || g !in old(waits)
    {
      Step(Start(profile, ready));
      BeginStart(profile, ready);
    }

    method BeginStart(profile: Profile, ready: bool)
      modifies this
      ensures View() == StartNow(old(View()), profile, ready)
    {
      if currentState == Running || currentState == Starting {
        return;
      }
      if currentState == Stopping {
        pendingStart := true;
        return;
      }
      var generation := startGeneration + 1;
      Supersede(Began(generation));
      UpdateState(Starting);
      match profile
      case UnknownMode =>
        UpdateState(Failed);
      case DisabledNode =>
        TakeMode(Disabled);
        UpdateState(Stopped);
      case ExternalNode =>
        if ready { Await(generation, AtExternalProbe); } else { UpdateState(Failed); }
      case Legacy =>
        Await(generation, AtDetect);
      case Managed =>
        if ready { Await(generation, AtApiProbe); } else { UpdateState(Failed); }
    }

    /** The timer set by the close handler. */
    method RunQueuedStart(profile: Profile, ready: bool)
      requires Valid() && queued > 0
      modifies this
      ensures Valid() && View() == StartNow(old(View()).(queued := old(queued) - 1), profile, ready)
    {
      StartInv(View().(queued := queued - 1), profile, ready);
      BeginQueued(profile, ready);
    }

    method BeginQueued(profile: Profile, ready: bool)
      requires queued > 0
      modifies this
      ensures View() == StartNow(old(View()).(queued := old(queued) - 1), profile, ready)
    {
      TakeFromQueue();
      BeginStart(profile, ready);
    }

    method TakeFromQueue()
      requires queued > 0
      modifies this`queued
      ensures View() == old(View()).(queued := old(queued) - 1)
    {
      queued := queued - 1;
    }

    /** After a stop no bridge is on record, no start is queued, and no attempt under way can spawn any more. */
    method StopAnt()
      requires Valid()
      modifies this
      ensures Valid() && View() == Next(old(View()), Stop)
      ensures chainBridge.None? && !pendingStart && AllOlder(waits, startGeneration)
      ensures currentState == Stopped || currentState == Stopping
    {
      Step(Stop);
      StopGives(View());
      Halt();
    }

    method Halt()
      modifies this
      ensures View() == StopNow(old(View()))
    {
      if chainBridge.Some? {
        CloseChainBridge(chainBridge.value);
      }
      Supersede(StopAsked);
      SetHealthTimer(false);
      if currentMode == Reused || currentMode == External || currentMode == Disabled {
        UpdateState(Stopped);
        TakeMode(NoMode);
      } else if antProcess.None? {
        UpdateState(Stopped);
      } else {
        SetExitListeners(exitListeners + {antProcess.value});
        UpdateState(Stopping);
        SetKillTimer(true);
      }
    }

    /** The tail of the port stage that every path through it shares. */
    method SettlePorts(generation: nat, configOk: bool)
      modifies this
      ensures View() == PortsSettled(old(View()), generation, configOk)
    {
      if generation != startGeneration {
        return;
      }
      TakeMode(Bundled);
      if !configOk {
        UpdateState(Failed);
        return;
      }
      Await(generation, AtBridge);
    }

    method AfterDetect(generation: nat, found: bool, conflict: bool, ready: bool, configOk: bool)
      requires Valid() && generation in waits && waits[generation] == AtDetect
      modifies this
      ensures Valid() && View() == Next(old(View()), Resumed(generation, Detected(found, conflict, ready, configOk)))
      ensures generation != old(startGeneration) ==> LeftAlone(old(View()))
    {
      Step(Resumed(generation, Detected(found, conflict, ready, configOk)));
      TooLate(generation, Detected(found, conflict, ready, configOk));
      Wake(generation);
      if generation != startGeneration {
        return;
      }
      if found {
        TakeMode(Reused);
        NoteRunning(generation, Reused);
        SetHealthTimer(true);
      } else if !ready {
        UpdateState(Failed);
      } else if conflict {
        Await(generation, AtApiSearch(false));
      } else {
        SettlePorts(generation, configOk);
      }
    }

    method AfterExternalProbe(generation: nat, valid: bool)
      requires Valid() && generation in waits && waits[generation] == AtExternalProbe
      modifies this
      ensures Valid() && View() == Next(old(View()), Resumed(generation, ExternalProbed(valid)))
    {
      Step(Resumed(generation, ExternalProbed(valid)));
      Wake(generation);
      if !valid {
        UpdateState(Failed);
        return;
      }
      TakeMode(External);
      UpdateState(Running);
      SetHealthTimer(true);
    }

    method AfterApiProbe(generation: nat, busy: bool)
      requires Valid() && generation in waits && waits[generation] == AtApiProbe
      modifies this
      ensures Valid() && View() == Next(old(View()), Resumed(generation, ApiProbed(busy)))
      ensures generation != old(startGeneration) ==> LeftAlone(old(View()))
    {
      Step(Resumed(generation, ApiProbed(busy)));
      TooLate(generation, ApiProbed(busy));
      Wake(generation);
      Await(generation, if busy then AtApiSearch(true) else AtP2pProbe(false));
    }

    method AfterApiSearch(generation: nat, found: bool, configOk: bool)
      requires Valid() && generation in waits && waits[generation].AtApiSearch?
      modifies this
      ensures Valid() && View() == Next(old(View()), Resumed(generation, ApiFound(found, configOk)))
    {
      Step(Resumed(generation, ApiFound(found, configOk)));
      var managed := waits[generation].managed;
      Wake(generation);
      if !found {
        UpdateState(Failed);
      } else if managed {
        Await(generation, AtP2pProbe(true));
      } else {
        SettlePorts(generation, configOk);
      }
    }

    method AfterP2pProbe(generation: nat, busy: bool, configOk: bool)
      requires Valid() && generation in waits && waits[generation].AtP2pProbe?
      modifies this
      ensures Valid() && View() == Next(old(View()), Resumed(generation, P2pProbed(busy, configOk)))
      ensures generation != old(startGeneration) ==> LeftAlone(old(View()))
    {
      Step(Resumed(generation, P2pProbed(busy, configOk)));
      TooLate(generation, P2pProbed(busy, configOk));
      var changed := waits[generation].changed;
      Wake(generation);
      if busy {
        Await(generation, AtP2pSearch);
      } else if changed {
        Await(generation, AtPersist);
      } else {
        SettlePorts(generation, configOk);
      }
    }

    method AfterP2pSearch(generation: nat, found: bool)
      requires Valid() && generation in waits && waits[generation] == AtP2pSearch
      modifies this
      ensures Valid() && View() == Next(old(View()), Resumed(generation, P2pFound(found)))
    {
      Step(Resumed(generation, P2pFound(found)));
      Wake(generation);
      if found {
        Await(generation, AtPersist);
      } else {
        UpdateState(Failed);
      }
    }

    method AfterPersist(generation: nat, saved: bool, configOk: bool)
      requires Valid() && generation in waits && waits[generation] == AtPersist
      modifies this
      ensures Valid() && View() == Next(old(View()), Resumed(generation, Persisted(saved, configOk)))
      ensures generation != old(startGeneration) ==> LeftAlone(old(View()))
    {
      Step(Resumed(generation, Persisted(saved, configOk)));
      TooLate(generation, Persisted(saved, configOk));
      Wake(generation);
      if saved {
        SettlePorts(generation, configOk);
      } else if generation == startGeneration {
        UpdateState(Failed);
      }
    }

    /** The bridge is there: refuse a superseded attempt, else record it, spawn, attach the handlers, start the poll. */
    method AfterBridge(generation: nat, bridge: Bridge, spawn: Spawn)
      requires Valid() && Enabled(View(), Resumed(generation, BridgeOpened(bridge, spawn)))
      modifies this
      ensures Valid() && View() == Next(old(View()), Resumed(generation, BridgeOpened(bridge, spawn)))
      ensures generation != old(startGeneration) ==> LeftAlone(old(View()))
      ensures generation != old(startGeneration) || !spawn.SpawnOk? ==> bridge !in open
      ensures generation == old(startGeneration) && spawn.SpawnOk? ==>
        chainBridge == Some(bridge) && Holds(children, bridge, spawn.child)
    {
      Step(Resumed(generation, BridgeOpened(bridge, spawn)));
      TooLate(generation, BridgeOpened(bridge, spawn));
      Wake(generation);
      if generation != startGeneration {
        NoteBridge(bridge, false, false);
        return;
      }
      match spawn
      case SpawnOk(child) =>
        NoteBridge(bridge, true, true);
        NoteChild(generation, child, bridge, true);
        KeepPoll(child, Poll(generation, true, 0, 0));
      case SpawnThrows =>
        NoteBridge(bridge, false, true);
        Await(generation, AtSpawnFailed);
      case LogPipeThrows(child) =>
        NoteChild(generation, child, bridge, false);
        NoteBridge(bridge, false, true);
        Await(generation, AtSpawnFailed);
    }

    method AfterBridgeFailed(generation: nat)
      requires Valid() && generation in waits && waits[generation] == AtBridge
      modifies this
      ensures Valid() && View() == Next(old(View()), Resumed(generation, BridgeFailed))
      ensures generation != old(startGeneration) ==> LeftAlone(old(View()))
    {
      Step(Resumed(generation, BridgeFailed));
      TooLate(generation, BridgeFailed);
      Wake(generation);
      if generation == startGeneration {
        UpdateState(Failed);
      }
    }

    method AfterSpawnFailure(generation: nat)
      requires Valid() && generation in waits && waits[generation] == AtSpawnFailed
      modifies this
      ensures Valid() && View() == Next(old(View()), Resumed(generation, SpawnFailureReported))
    {
      Step(Resumed(generation, SpawnFailureReported));
      Wake(generation);
      UpdateState(Failed);
    }

    /** The child's `close` event. Its bridge is closed then, if its handlers were attached; and only if it is the
        process on record, with its handlers attached, is the node stopped and does a queued start get its turn. */
    method OnClose(child: Child)
      requires Valid() && child in children && !children[child].closed
      modifies this
      ensures Valid() && View() == Next(old(View()), OfChild(child, Closed))
      ensures Buried(old(View()), child, View())
    {
      Step(OfChild(child, Closed));
      ClosedGives(View(), child);
      CloseAndListen(child);
    }

    /** The handler of `startAnt`, then the listener of `stopAnt`, if any. */
    method CloseAndListen(child: Child)
      requires child in children
      modifies this
      ensures View() == ClosedNow(old(View()), child)
    {
      HandleClose(child);
      if child in exitListeners {
        SetHealthTimer(false);
        SetKillTimer(false);
        SetExitListeners(exitListeners - {child});
      }
    }

    method HandleClose(child: Child)
      requires child in children
      modifies this
      ensures View() == CloseHandled(old(View()), child)
      ensures exitListeners == old(exitListeners)
    {
      var p := children[child];
      if !p.wired {
        NoteClosed(child);
        return;
      }
      CloseChainBridge(p.bridge);
      NoteClosed(child);
      if antProcess != Some(child) {
        return;
      }
      DropProcess();
      SetKillTimer(false);
      SetHealthTimer(false);
    }

    method OnError(child: Child)
      requires Valid() && child in children && children[child].wired
      modifies this
      ensures Valid() && View() == Next(old(View()), OfChild(child, Errored))
      ensures old(children)[child].bridge !in open && antProcess == old(antProcess)
    {
      Step(OfChild(child, Errored));
      CloseChainBridge(children[child].bridge);
      if antProcess == Some(child) {
        UpdateState(Failed);
      }
    }

    method OnPollTick(child: Child)
      requires Valid() && child in polls && polls[child].active
      modifies this
      ensures Valid() && View() == Next(old(View()), OfChild(child, PollTick)) && LeftAlone(old(View()))
      ensures polls[child].gen != startGeneration || antProcess != Some(child) ==> !polls[child].active
    {
      Step(OfChild(child, PollTick));
      var p := polls[child];
      if p.gen != startGeneration || antProcess != Some(child) || currentState == Stopped || currentState == Failed {
        KeepPoll(child, p.(active := false));
      } else {
        KeepPoll(child, p.(inFlight := p.inFlight + 1));
      }
    }

    /** Startup timed out. */
    method GiveUp()
      modifies this
      ensures View() == TimedOut(old(View()))
    {
      Halt();
      UpdateState(Failed);
    }

    /** `attempts++` */
    method NoteFailure(child: Child, p: Poll)
      modifies this`polls
      ensures View() == old(View()).(core := CountFailure(old(View()).core, child, p))
    {
      var attempts := p.attempts + 1;
      KeepPoll(child, p.(active := p.active && attempts < MAX_POLLS, attempts := attempts));
    }

    method OnUnhealthy(child: Child, p: Poll)
      modifies this
      ensures View() == UnhealthyNow(old(View()), child, p)
    {
      NoteFailure(child, p);
      if p.attempts + 1 >= MAX_POLLS {
        GiveUp();
      }
    }

    /** An answer for a child that is not this generation's process changes nothing but the poll, and only a healthy one
        can turn the status to running. */
    method OnPollAnswer(child: Child, healthy: bool)
      requires Valid() && child in polls && polls[child].inFlight > 0
      modifies this
      ensures Valid() && View() == Next(old(View()), OfChild(child, PollAnswered(healthy)))
      ensures !Belongs(old(View()), child) ==> LeftAlone(old(View()))
      ensures !healthy && old(currentState) != Running ==> currentState != Running
    {
      Step(OfChild(child, PollAnswered(healthy)));
      AnsweredGives(View(), child, healthy);
      TakeAnswer(child, healthy);
    }

    method TakeAnswer(child: Child, healthy: bool)
      requires child in polls && polls[child].inFlight > 0
      modifies this
      ensures View() == AnsweredNow(old(View()), child, healthy)
    {
      var p := polls[child].(inFlight := polls[child].inFlight - 1);
      if p.gen != startGeneration || antProcess != Some(child) {
        KeepPoll(child, p.(active := false));
      } else if healthy {
        KeepPoll(child, p.(active := false));
        NoteRunning(p.gen, Bundled);
        SetHealthTimer(true);
      } else {
        OnUnhealthy(child, p);
      }
    }

    method OnHealthAnswer(healthy: bool)
      requires Valid()
      modifies this`currentState
      ensures Valid() && View() == Next(old(View()), HealthAnswered(healthy))
    {
      Step(HealthAnswered(healthy));
      if !healthy && currentState == Running {
        UpdateState(Failed);
      } else if healthy && currentState == Failed {
        UpdateState(Running);
      }
    }

    method OnKillTimer()
      requires Valid() && forceKillTimer
      modifies this`forceKillTimer
      ensures Valid() && View() == Next(old(View()), KillTimerFired)
    {
      Step(KillTimerFired);
      SetKillTimer(false);
    }
  }
}
