/** What every step of the Ant lifecycle keeps, and what follows for whole runs. */
module AntSafety {
  import opened AntLifecycle

  // ---------------------------------------------------------------- the invariant

  predicate Raises(h: Happening) {
    h.Began? || h.StopAsked?
  }

  /** How often the generation had been raised in this log. */
  function Raised(log: seq<Happening>): nat {
    if log == [] then 0 else Raised(log[..|log| - 1]) + if Raises(log[|log| - 1]) then 1 else 0
  }

  ghost predicate HasBegun(log: seq<Happening>, gen: nat) {
    Began(gen) in log
  }

  /** What an entry says about the log before it: it stands at the generation it names. */
  ghost predicate Fits(log: seq<Happening>, h: Happening) {
    match h
    case Began(g) => Raised(log) + 1 == g
    case StopAsked => true
    case Spawned(g, _) => Raised(log) == g && HasBegun(log, g)
    case MarkedRunning(g, _) => Raised(log) == g && HasBegun(log, g)
  }

  ghost predicate FitsAt(log: seq<Happening>, i: nat)
    requires i < |log|
  {
    Fits(log[..i], log[i])
  }

  ghost predicate LogOk(generation: nat, log: seq<Happening>) {
    generation == Raised(log) && forall i :: 0 <= i < |log| ==> FitsAt(log, i)
  }

  /** Suspended attempts have begun and are not newer than the current generation. */
  ghost predicate WaitsOk(waits: map<nat, Wait>, generation: nat, log: seq<Happening>) {
    forall g :: g in waits ==> g <= generation && HasBegun(log, g)
  }

  ghost predicate PollsOk(polls: map<Child, Poll>, generation: nat, log: seq<Happening>) {
    forall c :: c in polls ==> polls[c].gen <= generation && HasBegun(log, polls[c].gen)
  }

  ghost predicate HasSpawned(log: seq<Happening>, gen: nat) {
    exists i :: 0 <= i < |log| && log[i].Spawned? && log[i].gen == gen
  }

  /** No attempt has spawned twice, and one that has spawned cannot come to it again. */
  ghost predicate OneSpawn(waits: map<nat, Wait>, generation: nat, log: seq<Happening>) {
    && SpawnsApart(log)
    && (forall g :: g in waits && HasSpawned(log, g) ==> waits[g] == AtSpawnFailed)
    && (forall g: nat :: HasSpawned(log, g) ==> g <= generation)
  }

  ghost predicate SpawnsApart(log: seq<Happening>) {
    forall i, j :: 0 <= i < j < |log| && log[i].Spawned? && log[j].Spawned? ==> log[i].gen != log[j].gen
  }

  ghost predicate Holds(children: map<Child, Process>, b: Bridge, c: Child) {
    c in children && children[c].bridge == b && children[c].wired && !children[c].closed
  }

  ghost predicate Held(children: map<Child, Process>, b: Bridge) {
    exists c :: Holds(children, b, c)
  }

  /** Every open bridge belongs to a child whose close handler is attached and has not run. */
  ghost predicate NoLeak(open: set<Bridge>, bridge: Option<Bridge>, children: map<Child, Process>) {
    && (forall b :: b in open ==> Held(children, b))
    && (bridge.Some? ==> bridge.value in open)
  }

  /** Its close event, if anyone handles it, is still to come. */
  ghost predicate Live(children: map<Child, Process>, c: Child) {
    c in children && (children[c].wired ==> !children[c].closed)
  }

  /** A queued start waits for a child that has not closed; a stopping node always has one. */
  ghost predicate QueueServed(
      status: Status, pendingStart: bool, process: Option<Child>, children: map<Child, Process>) {
    && (process.Some? ==> Live(children, process.value))
    && (status == Stopping ==> process.Some?)
    && (pendingStart ==> process.Some?)
  }

  ghost predicate Inv(c: Core) {
    && LogOk(c.generation, c.log)
    && WaitsOk(c.waits, c.generation, c.log)
    && PollsOk(c.polls, c.generation, c.log)
    && OneSpawn(c.waits, c.generation, c.log)
    && NoLeak(c.open, c.bridge, c.children)
    && c.open <= c.seen
    && QueueServed(c.status, c.pendingStart, c.process, c.children)
  }

  // ---------------------------------------------------------------- the log

  lemma RaisedSnoc(log: seq<Happening>, h: Happening)
    ensures Raised(log + [h]) == Raised(log) + if Raises(h) then 1 else 0
  {
    assert (log + [h])[..|log|] == log;
  }

  lemma RaisedTo(log: seq<Happening>, k: nat)
    requires k < |log|
    ensures Raised(log[..k + 1]) == Raised(log[..k]) + if Raises(log[k]) then 1 else 0
  {
    assert log[..k] + [log[k]] == log[..k + 1];
    RaisedSnoc(log[..k], log[k]);
  }

  lemma {:induction false} RaisedGrows(log: seq<Happening>, a: nat, b: nat)
    requires a <= b <= |log|
    ensures Raised(log[..a]) <= Raised(log[..b])
    decreases b
  {
    if a < b {
      RaisedGrows(log, a, b - 1);
      RaisedTo(log, b - 1);
    }
  }

  lemma LogAppend(generation: nat, log: seq<Happening>, h: Happening)
    requires LogOk(generation, log) && Fits(log, h)
    ensures LogOk(if Raises(h) then generation + 1 else generation, log + [h])
  {
    RaisedSnoc(log, h);
    var all := log + [h];
    forall i | 0 <= i < |all|
      ensures FitsAt(all, i)
    {
      assert all[..i] == log[..i];
      if i < |log| {
        assert FitsAt(log, i);
      } else {
        assert log[..i] == log;
      }
    }
  }

  lemma BegunAppend(waits: map<nat, Wait>, polls: map<Child, Poll>, generation: nat, log: seq<Happening>, h: Happening)
    requires WaitsOk(waits, generation, log) && PollsOk(polls, generation, log)
    ensures WaitsOk(waits, generation, log + [h]) && PollsOk(polls, generation, log + [h])
    ensures WaitsOk(waits, generation + 1, log + [h]) && PollsOk(polls, generation + 1, log + [h])
  {
    assert forall g :: HasBegun(log, g) ==> HasBegun(log + [h], g);
  }

  lemma SpawnedAppend(log: seq<Happening>, h: Happening, gen: nat)
    ensures HasSpawned(log + [h], gen) <==> HasSpawned(log, gen) || (h.Spawned? && h.gen == gen)
  {
    var all := log + [h];
    if HasSpawned(log, gen) {
      var i :| 0 <= i < |log| && log[i].Spawned? && log[i].gen == gen;
      assert all[i] == log[i];
    }
    if h.Spawned? && h.gen == gen {
      assert all[|log|] == h;
    }
  }

  lemma OneSpawnAppend(waits: map<nat, Wait>, generation: nat, log: seq<Happening>, h: Happening)
    requires OneSpawn(waits, generation, log) && !h.Spawned?
    ensures OneSpawn(waits, generation, log + [h]) && OneSpawn(waits, generation + 1, log + [h])
  {
    forall g ensures HasSpawned(log + [h], g) <==> HasSpawned(log, g) {
      SpawnedAppend(log, h, g);
    }
  }

  /** An attempt that has not spawned. */
  ghost predicate Unspent(generation: nat, log: seq<Happening>, gen: nat) {
    gen <= generation && HasBegun(log, gen) && !HasSpawned(log, gen)
  }

  lemma OneSpawnMore(waits: map<nat, Wait>, generation: nat, log: seq<Happening>, gen: nat, child: Child)
    requires OneSpawn(waits, generation, log) && Unspent(generation, log, gen)
    requires gen in waits ==> waits[gen] == AtSpawnFailed
    ensures OneSpawn(waits, generation, log + [Spawned(gen, child)])
  {
    var all := log + [Spawned(gen, child)];
    forall g ensures HasSpawned(all, g) <==> HasSpawned(log, g) || g == gen {
      SpawnedAppend(log, Spawned(gen, child), g);
    }
    forall i, j | 0 <= i < j < |all| && all[i].Spawned? && all[j].Spawned?
      ensures all[i].gen != all[j].gen
    {
      assert all[i] == log[i];
      assert HasSpawned(log, log[i].gen);
    }
  }

  // ---------------------------------------------------------------- small changes keep it

  lemma SetStatusInv(c: Core, status: Status)
    requires Inv(c) && (status == Stopping ==> c.process.Some?)
    ensures Inv(SetStatus(c, status))
  {
  }

  lemma SuspendInv(c: Core, gen: nat, at: Wait)
    requires Inv(c) && gen <= c.generation && HasBegun(c.log, gen) && (HasSpawned(c.log, gen) ==> at == AtSpawnFailed)
    ensures Inv(Suspend(c, gen, at))
  {
  }

  lemma ResumeInv(c: Core, gen: nat)
    requires Inv(c) && gen in c.waits
    ensures Inv(Resume(c, gen))
    ensures c.waits[gen] != AtSpawnFailed ==> Unspent(c.generation, c.log, gen)
  {
  }

  lemma CloseBridgeInv(c: Core, b: Bridge)
    requires Inv(c)
    ensures Inv(CloseBridge(c, b))
  {
  }

  lemma RaiseInv(c: Core, h: Happening)
    requires Inv(c) && Raises(h) && Fits(c.log, h)
    ensures Inv(Raise(c, h))
  {
    LogAppend(c.generation, c.log, h);
    BegunAppend(c.waits, c.polls, c.generation, c.log, h);
    OneSpawnAppend(c.waits, c.generation, c.log, h);
  }

  lemma MarkRunningInv(c: Core, gen: nat, mode: Mode)
    requires Inv(c) && gen == c.generation && HasBegun(c.log, gen)
    ensures Inv(MarkRunning(c, gen, mode))
  {
    LogAppend(c.generation, c.log, MarkedRunning(gen, mode));
    BegunAppend(c.waits, c.polls, c.generation, c.log, MarkedRunning(gen, mode));
    OneSpawnAppend(c.waits, c.generation, c.log, MarkedRunning(gen, mode));
  }

  lemma SetPollInv(c: Core, child: Child, p: Poll)
    requires Inv(c) && child in c.polls && p.gen == c.polls[child].gen
    ensures Inv(SetPoll(c, child, p))
  {
  }

  lemma SeeBridgeInv(c: Core, b: Bridge, recorded: bool)
    requires Inv(c)
    ensures Inv(SeeBridge(c, b, recorded))
  {
  }

  lemma MoreChildren(open: set<Bridge>, children: map<Child, Process>, child: Child, p: Process)
    requires (forall b :: b in open ==> Held(children, b)) && child !in children
    ensures forall b :: b in open ==> Held(children[child := p], b)
    ensures p.wired && !p.closed ==> Held(children[child := p], p.bridge)
  {
    var more := children[child := p];
    forall b | b in open ensures Held(more, b) {
      var c :| Holds(children, b, c);
      assert Holds(more, b, c);
    }
    assert p.wired && !p.closed ==> Holds(more, p.bridge, child);
  }

  lemma AddChildInv(c: Core, gen: nat, child: Child, b: Bridge)
    requires Inv(c) && gen == c.generation && gen !in c.waits && Unspent(c.generation, c.log, gen)
    requires child !in c.children
    ensures Inv(AddChild(c, gen, child, b))
  {
    MoreChildren(c.open, c.children, child, Process(b, true, false));
    LogAppend(c.generation, c.log, Spawned(gen, child));
    BegunAppend(c.waits, c.polls[child := Poll(gen, true, 0, 0)], c.generation, c.log, Spawned(gen, child));
    OneSpawnMore(c.waits, c.generation, c.log, gen, child);
  }

  lemma AddUnwiredChildInv(c: Core, gen: nat, child: Child, b: Bridge)
    requires Inv(c) && gen == c.generation && gen !in c.waits && Unspent(c.generation, c.log, gen)
    requires child !in c.children
    ensures Inv(AddUnwiredChild(c, gen, child, b)) && HasBegun(AddUnwiredChild(c, gen, child, b).log, gen)
  {
    MoreChildren(c.open, c.children, child, Process(b, false, false));
    LogAppend(c.generation, c.log, Spawned(gen, child));
    BegunAppend(c.waits, c.polls, c.generation, c.log, Spawned(gen, child));
    OneSpawnMore(c.waits, c.generation, c.log, gen, child);
  }

  lemma MarkClosedLeak(c: Core, child: Child)
    requires NoLeak(c.open, c.bridge, c.children) && child in c.children
    requires c.children[child].wired ==> c.children[child].bridge !in c.open
    ensures NoLeak(c.open, c.bridge, MarkClosed(c, child).children)
  {
    forall b | b in c.open ensures Held(MarkClosed(c, child).children, b) {
      var x :| Holds(c.children, b, x);
      assert Holds(MarkClosed(c, child).children, b, x);
    }
  }

  lemma MarkClosedInv(c: Core, child: Child)
    requires Inv(c) && child in c.children
    requires c.children[child].wired ==> c.children[child].bridge !in c.open && c.process != Some(child)
    ensures Inv(MarkClosed(c, child))
  {
    MarkClosedLeak(c, child);
  }

  lemma ForgetProcessInv(c: Core, child: Child)
    requires Inv(c) && child in c.children && c.children[child].wired && c.children[child].bridge !in c.open
    ensures Inv(ForgetProcess(MarkClosed(c, child)))
  {
    MarkClosedLeak(c, child);
  }

  // ---------------------------------------------------------------- the steps keep it

  lemma StopInv(s: State)
    requires Inv(s.core)
    ensures Inv(StopNow(s).core)
  {
    var c := CloseCurrentBridge(s.core);
    if s.core.bridge.Some? {
      CloseBridgeInv(s.core, s.core.bridge.value);
    }
    RaiseInv(c, StopAsked);
    SetStatusInv(Raise(c, StopAsked), if StopNow(s).core.status == Stopping then Stopping else Stopped);
  }

  lemma BeganUnspent(c: Core, g: nat)
    requires Inv(c) && g == c.generation + 1
    ensures Fits(c.log, Began(g)) && Unspent(g, Raise(c, Began(g)).log, g)
  {
    SpawnedAppend(c.log, Began(g), g);
    assert (c.log + [Began(g)])[|c.log|] == Began(g);
  }

  lemma BeginInv(c: Core, g: nat)
    requires Inv(c) && g == c.generation + 1
    ensures var b := SetStatus(Raise(c, Began(g)), Starting);
      Inv(b) && b.generation == g && Unspent(g, b.log, g)
  {
    BeganUnspent(c, g);
    RaiseInv(c, Began(g));
    SetStatusInv(Raise(c, Began(g)), Starting);
  }

  /** A start that has begun goes on to one of these. */
  lemma BegunInv(c: Core, g: nat)
    requires Inv(c) && c.generation == g && Unspent(g, c.log, g)
    ensures Inv(SetStatus(c, Failed)) && Inv(SetStatus(c, Stopped))
    ensures Inv(Suspend(c, g, AtExternalProbe)) && Inv(Suspend(c, g, AtDetect)) && Inv(Suspend(c, g, AtApiProbe))
  {
    SetStatusInv(c, Failed);
    SetStatusInv(c, Stopped);
    SuspendInv(c, g, AtExternalProbe);
    SuspendInv(c, g, AtDetect);
    SuspendInv(c, g, AtApiProbe);
  }

  lemma StartIs(s: State, profile: Profile, ready: bool, g: nat, c: Core)
    requires s.core.status != Running && s.core.status != Starting && s.core.status != Stopping
    requires g == s.core.generation + 1 && c == SetStatus(Raise(s.core, Began(g)), Starting)
    ensures var r := StartNow(s, profile, ready).core;
      || r == SetStatus(c, Failed) || r == SetStatus(c, Stopped)
      || r == Suspend(c, g, AtExternalProbe) || r == Suspend(c, g, AtDetect) || r == Suspend(c, g, AtApiProbe)
  {
  }

  lemma QueueInv(s: State, profile: Profile, ready: bool)
    requires Inv(s.core) && (s.core.status == Running || s.core.status == Starting || s.core.status == Stopping)
    ensures Inv(StartNow(s, profile, ready).core)
  {
  }

  lemma StartInv(s: State, profile: Profile, ready: bool)
    requires Inv(s.core)
    ensures Inv(StartNow(s, profile, ready).core)
  {
    var st := s.core.status;
    if st == Running || st == Starting || st == Stopping {
      QueueInv(s, profile, ready);
    } else {
      var g := s.core.generation + 1;
      var c := SetStatus(Raise(s.core, Began(g)), Starting);
      StartIs(s, profile, ready, g, c);
      BeginInv(s.core, g);
      BegunInv(c, g);
    }
  }

  lemma PortsInv(s: State, gen: nat, configOk: bool)
    requires Inv(s.core) && Unspent(s.core.generation, s.core.log, gen)
    ensures Inv(PortsSettled(s, gen, configOk).core)
  {
    SuspendInv(s.core, gen, AtBridge);
    SetStatusInv(s.core, Failed);
  }

  lemma SpawnInv(c: Core, gen: nat, b: Bridge, spawn: Spawn)
    requires Inv(c) && Unspent(c.generation, c.log, gen) && gen !in c.waits
    requires !spawn.SpawnThrows? ==> spawn.child !in c.children
    ensures Inv(SpawnNow(c, gen, b, spawn))
  {
    if gen != c.generation {
      SeeBridgeInv(c, b, false);
    } else if spawn.SpawnOk? {
      AddChildInv(c, gen, spawn.child, b);
    } else if spawn.SpawnThrows? {
      SeeBridgeInv(c, b, true);
      SuspendInv(SeeBridge(c, b, true), gen, AtSpawnFailed);
    } else {
      AddUnwiredChildInv(c, gen, spawn.child, b);
      SuspendInv(AddUnwiredChild(c, gen, spawn.child, b), gen, AtSpawnFailed);
    }
  }

  lemma DetectedInv(s: State, g: nat, a: Answer)
    requires Inv(s.core) && Unspent(s.core.generation, s.core.log, g) && a.Detected?
    ensures Inv(DetectedNow(s, g, a).core)
  {
    if g == s.core.generation {
      MarkRunningInv(s.core, g, Reused);
    }
    SetStatusInv(s.core, Failed);
    SuspendInv(s.core, g, AtApiSearch(false));
    PortsInv(s, g, a.configOk);
  }

  /** A bridge that was already asked for, a port search, a save: what the other answers lead to. */
  lemma {:induction false} ContinueInv(s: State, g: nat, at: Wait, a: Answer)
    requires Inv(s.core) && Answers(s.core, at, a) && g !in s.core.waits
    requires at != AtSpawnFailed ==> Unspent(s.core.generation, s.core.log, g)
    ensures Inv(Continue(s, g, at, a).core)
  {
    SetStatusInv(s.core, Failed);
    SetStatusInv(s.core, Running);
    match a
    case ExternalProbed(_) =>
    case Detected(_, _, _, _) => DetectedInv(s, g, a);
    case ApiProbed(busy) => SuspendInv(s.core, g, if busy then AtApiSearch(true) else AtP2pProbe(false));
    case ApiFound(_, _) => SuspendInv(s.core, g, AtP2pProbe(true)); PortsInv(s, g, a.configOk);
    case P2pProbed(_, _) =>
      SuspendInv(s.core, g, AtP2pSearch);
      SuspendInv(s.core, g, AtPersist);
      PortsInv(s, g, a.configOk);
    case P2pFound(_) => SuspendInv(s.core, g, AtPersist);
    case Persisted(_, _) => PortsInv(s, g, a.configOk);
    case BridgeOpened(b, spawn) => SpawnInv(s.core, g, b, spawn);
    case BridgeFailed =>
    case SpawnFailureReported =>
  }

  lemma ClosedInv(s: State, child: Child)
    requires Inv(s.core) && child in s.core.children && !s.core.children[child].closed
    ensures Inv(ClosedNow(s, child).core)
  {
    var p := s.core.children[child];
    if !p.wired {
      MarkClosedInv(s.core, child);
    } else {
      var c := CloseBridge(s.core, p.bridge);
      CloseBridgeInv(s.core, p.bridge);
      if s.core.process == Some(child) {
        ForgetProcessInv(c, child);
      } else {
        MarkClosedInv(c, child);
      }
    }
  }

  lemma TimedOutInv(s: State)
    requires Inv(s.core)
    ensures Inv(TimedOut(s).core)
  {
    StopInv(s);
    SetStatusInv(StopNow(s).core, Failed);
  }

  lemma HealthyInv(c: Core, child: Child, p: Poll)
    requires Inv(c) && child in c.polls && p.gen == c.polls[child].gen == c.generation
    ensures Inv(MarkRunning(SetPoll(c, child, p), p.gen, Bundled))
  {
    SetPollInv(c, child, p);
    MarkRunningInv(SetPoll(c, child, p), p.gen, Bundled);
  }

  lemma UnhealthyInv(s: State, child: Child, p: Poll)
    requires Inv(s.core) && child in s.core.polls && p.gen == s.core.polls[child].gen
    ensures Inv(UnhealthyNow(s, child, p).core)
  {
    SetPollInv(s.core, child, p.(active := p.active && p.attempts + 1 < MAX_POLLS, attempts := p.attempts + 1));
    TimedOutInv(s.(core := CountFailure(s.core, child, p)));
  }

  lemma AnsweredInv(s: State, child: Child, healthy: bool)
    requires Inv(s.core) && child in s.core.polls && s.core.polls[child].inFlight > 0
    ensures Inv(AnsweredNow(s, child, healthy).core)
  {
    var c := s.core;
    var p := c.polls[child].(inFlight := c.polls[child].inFlight - 1);
    if p.gen != c.generation || c.process != Some(child) {
      SetPollInv(c, child, p.(active := false));
    } else if healthy {
      HealthyInv(c, child, p.(active := false));
    } else {
      UnhealthyInv(s, child, p);
    }
  }

  lemma ErroredInv(c: Core, child: Child)
    requires Inv(c) && child in c.children
    ensures Inv(ErroredNow(c, child))
  {
    CloseBridgeInv(c, c.children[child].bridge);
    SetStatusInv(CloseBridge(c, c.children[child].bridge), Failed);
  }

  lemma ChildInv(s: State, child: Child, what: ChildEvent)
    requires Inv(s.core) && ChildEnabled(s.core, child, what)
    ensures Inv(ChildNext(s, child, what).core)
  {
    match what
    case Closed => ClosedInv(s, child);
    case Errored => ErroredInv(s.core, child);
    case PollTick =>
      SetPollInv(s.core, child, s.core.polls[child].(active := false));
      SetPollInv(s.core, child, s.core.polls[child].(inFlight := s.core.polls[child].inFlight + 1));
    case PollAnswered(healthy) => AnsweredInv(s, child, healthy);
  }

  lemma {:induction false} ResumedInv(s: State, g: nat, a: Answer)
    requires Inv(s.core) && Enabled(s, Resumed(g, a))
    ensures Inv(Next(s, Resumed(g, a)).core)
  {
    ResumeInv(s.core, g);
    ContinueInv(s.(core := Resume(s.core, g)), g, s.core.waits[g], a);
  }

  lemma HealthInv(c: Core, healthy: bool)
    requires Inv(c)
    ensures Inv(HealthNext(c, healthy))
  {
    SetStatusInv(c, Failed);
    SetStatusInv(c, Running);
  }

  lemma ChildEventInv(s: State, child: Child, what: ChildEvent)
    requires Inv(s.core) && Enabled(s, OfChild(child, what))
    ensures Inv(Next(s, OfChild(child, what)).core)
  {
    ChildInv(s, child, what);
  }

  lemma {:induction false} StartEventInv(s: State, profile: Profile, ready: bool)
    requires Inv(s.core)
    ensures Inv(Next(s, Start(profile, ready)).core)
  {
    StartInv(s, profile, ready);
  }

  lemma {:induction false} QueuedEventInv(s: State, profile: Profile, ready: bool)
    requires Inv(s.core) && s.queued > 0
    ensures Inv(Next(s, QueuedStart(profile, ready)).core)
  {
    StartInv(s.(queued := s.queued - 1), profile, ready);
  }

  lemma {:induction false} StopEventInv(s: State)
    requires Inv(s.core)
    ensures Inv(Next(s, Stop).core)
  {
    StopInv(s);
  }

  lemma TimerEventInv(s: State, healthy: bool)
    requires Inv(s.core)
    ensures Inv(Next(s, HealthAnswered(healthy)).core)
    ensures s.killTimer ==> Inv(Next(s, KillTimerFired).core)
  {
    HealthInv(s.core, healthy);
  }

  /** Every step keeps the invariant. */
  lemma StepInv(s: State, e: Event)
    requires Inv(s.core) && Enabled(s, e)
    ensures Inv(Next(s, e).core)
  {
    match e
    case Start(profile, ready) => StartEventInv(s, profile, ready);
    case QueuedStart(profile, ready) => QueuedEventInv(s, profile, ready);
    case Stop => StopEventInv(s);
    case Resumed(g, a) => ResumedInv(s, g, a);
    case OfChild(child, what) => ChildEventInv(s, child, what);
    case HealthAnswered(healthy) => TimerEventInv(s, healthy);
    case KillTimerFired => TimerEventInv(s, true);
  }

  lemma InitialInv()
    ensures Inv(Initial.core)
  {
  }

  lemma {:induction false} RunInv(events: seq<Event>)
    requires Run(events).Some?
    ensures Inv(Run(events).value.core)
  {
    if events != [] {
      RunInv(events[..|events| - 1]);
      StepInv(Run(events[..|events| - 1]).value, events[|events| - 1]);
    }
  }

  // ---------------------------------------------------------------- over whole runs

  ghost predicate Undisturbed(log: seq<Happening>, i: nat, j: nat) {
    forall k :: i < k < j && k < |log| ==> !Raises(log[k])
  }

  /** Between its own beginning and entry `j`, an attempt has been overtaken by no start and no stop. */
  ghost predicate NotSuperseded(log: seq<Happening>, gen: nat, j: nat) {
    exists i :: 0 <= i < j && i < |log| && log[i] == Began(gen) && Undisturbed(log, i, j)
  }

  lemma UndisturbedSince(log: seq<Happening>, gen: nat, i: nat, j: nat)
    requires LogOk(Raised(log), log) && i < j < |log| && log[i] == Began(gen) && Raised(log[..j]) == gen
    ensures Undisturbed(log, i, j)
  {
    assert FitsAt(log, i);
    RaisedTo(log, i);
    forall k | i < k < j
      ensures !Raises(log[k])
    {
      RaisedGrows(log, i + 1, k);
      RaisedTo(log, k);
      RaisedGrows(log, k + 1, j);
    }
  }

  /** In every run, an attempt that spawns antd, or marks the bundled or a reused node running, is still the latest
      word: no later start has begun and no stop has been asked for since it began. */
  lemma {:induction false} OnlyTheLatestAttemptActs(events: seq<Event>, j: nat)
    requires Run(events).Some? && j < |Run(events).value.core.log|
    ensures var log := Run(events).value.core.log;
      log[j].Spawned? || log[j].MarkedRunning? ==> NotSuperseded(log, log[j].gen, j)
  {
    RunInv(events);
    var log := Run(events).value.core.log;
    assert FitsAt(log, j);
    if log[j].Spawned? || log[j].MarkedRunning? {
      var i :| 0 <= i < j && log[..j][i] == Began(log[j].gen);
      UndisturbedSince(log, log[j].gen, i, j);
    }
  }

  ghost predicate SpawnTold(before: Core, after: Core) {
    after.process.Some? && after.process != before.process ==>
      after.log == before.log + [Spawned(after.generation, after.process.value)]
  }

  ghost predicate RunningTold(before: Core, after: Core) {
    after.status == Running && before.status != Running ==>
      || after.log == before.log + [MarkedRunning(after.generation, Bundled)]
      || after.log == before.log + [MarkedRunning(after.generation, Reused)]
  }

  ghost predicate RaiseTold(before: Core, after: Core) {
    after.generation != before.generation ==>
      && after.generation == before.generation + 1
      && (after.log == before.log + [StopAsked] || after.log == before.log + [Began(after.generation)])
  }

  ghost predicate Told(before: Core, after: Core) {
    SpawnTold(before, after) && RunningTold(before, after) && RaiseTold(before, after)
  }

  lemma TimedOutTold(s: State)
    ensures Told(s.core, TimedOut(s).core)
  {
    StopTold(s);
  }

  lemma UnhealthyTold(s: State, child: Child, p: Poll)
    ensures Told(s.core, UnhealthyNow(s, child, p).core)
  {
    TimedOutTold(s.(core := CountFailure(s.core, child, p)));
  }

  lemma AnswerTold(s: State, child: Child, healthy: bool)
    requires child in s.core.polls && s.core.polls[child].inFlight > 0
    ensures Told(s.core, AnsweredNow(s, child, healthy).core)
  {
    UnhealthyTold(s, child, s.core.polls[child].(inFlight := s.core.polls[child].inFlight - 1));
  }

  lemma {:induction false} ChildTold(s: State, child: Child, what: ChildEvent)
    requires ChildEnabled(s.core, child, what)
    ensures Told(s.core, ChildNext(s, child, what).core)
  {
    match what
    case Closed =>
    case Errored =>
    case PollTick =>
    case PollAnswered(healthy) => AnswerTold(s, child, healthy);
  }

  lemma StartTold(s: State, profile: Profile, ready: bool)
    ensures Told(s.core, StartNow(s, profile, ready).core)
  {
  }

  lemma StopTold(s: State)
    ensures Told(s.core, StopNow(s).core)
  {
  }

  lemma PortsTold(s: State, g: nat, configOk: bool)
    ensures Told(s.core, PortsSettled(s, g, configOk).core)
  {
  }

  lemma DetectedTold(s: State, g: nat, a: Answer)
    requires a.Detected?
    ensures Told(s.core, DetectedNow(s, g, a).core)
  {
    PortsTold(s, g, a.configOk);
  }

  lemma BridgeTold(c: Core, g: nat, b: Bridge, spawn: Spawn)
    ensures Told(c, SpawnNow(c, g, b, spawn))
  {
  }

  lemma ContinueTold(s: State, g: nat, at: Wait, a: Answer)
    requires Answers(s.core, at, a) && a != ExternalProbed(true)
    ensures Told(s.core, Continue(s, g, at, a).core)
  {
    match a
    case ExternalProbed(_) =>
    case Detected(_, _, _, _) => DetectedTold(s, g, a);
    case ApiProbed(_) =>
    case ApiFound(_, _) => PortsTold(s, g, a.configOk);
    case P2pProbed(_, _) => PortsTold(s, g, a.configOk);
    case P2pFound(_) =>
    case Persisted(_, _) => PortsTold(s, g, a.configOk);
    case BridgeOpened(b, spawn) => BridgeTold(s.core, g, b, spawn);
    case BridgeFailed =>
    case SpawnFailureReported =>
  }

  lemma {:induction false} ResumedTold(s: State, g: nat, a: Answer)
    requires Enabled(s, Resumed(g, a)) && a != ExternalProbed(true)
    ensures Told(s.core, Next(s, Resumed(g, a)).core)
  {
    ContinueTold(s.(core := Resume(s.core, g)), g, s.core.waits[g], a);
  }

  lemma ExternalTold(s: State, g: nat)
    requires Enabled(s, Resumed(g, ExternalProbed(true)))
    ensures SpawnTold(s.core, Next(s, Resumed(g, ExternalProbed(true))).core)
    ensures RaiseTold(s.core, Next(s, Resumed(g, ExternalProbed(true))).core)
  {
  }

  lemma {:induction false} StartEventTold(s: State, profile: Profile, ready: bool)
    ensures Told(s.core, Next(s, Start(profile, ready)).core)
  {
    StartTold(s, profile, ready);
  }

  lemma {:induction false} QueuedEventTold(s: State, profile: Profile, ready: bool)
    requires s.queued > 0
    ensures Told(s.core, Next(s, QueuedStart(profile, ready)).core)
  {
    StartTold(s.(queued := s.queued - 1), profile, ready);
  }

  lemma {:induction false} StopEventTold(s: State)
    ensures Told(s.core, Next(s, Stop).core)
  {
    StopTold(s);
  }

  lemma {:induction false} ChildEventTold(s: State, child: Child, what: ChildEvent)
    requires Enabled(s, OfChild(child, what))
    ensures Told(s.core, Next(s, OfChild(child, what)).core)
  {
    ChildTold(s, child, what);
  }

  lemma {:induction false} TimerEventTold(s: State, healthy: bool)
    ensures SpawnTold(s.core, Next(s, HealthAnswered(healthy)).core)
    ensures RaiseTold(s.core, Next(s, HealthAnswered(healthy)).core)
    ensures !healthy ==> RunningTold(s.core, Next(s, HealthAnswered(healthy)).core)
    ensures s.killTimer ==> Told(s.core, Next(s, KillTimerFired).core)
  {
  }

  /** The log leaves nothing out: no step puts a child on record, turns the status to running or raises the generation
      without an entry that says so, except that an external node or a health check may turn the status to running. */
  lemma {:induction false} LogTellsAll(s: State, e: Event)
    requires Enabled(s, e)
    ensures SpawnTold(s.core, Next(s, e).core) && RaiseTold(s.core, Next(s, e).core)
    ensures !(e.Resumed? && e.answer == ExternalProbed(true)) && e != HealthAnswered(true) ==>
      RunningTold(s.core, Next(s, e).core)
  {
    match e
    case Start(profile, ready) => StartEventTold(s, profile, ready);
    case QueuedStart(profile, ready) => QueuedEventTold(s, profile, ready);
    case Stop => StopEventTold(s);
    case Resumed(g, a) => if a == ExternalProbed(true) { ExternalTold(s, g); } else { ResumedTold(s, g, a); }
    case OfChild(child, what) => ChildEventTold(s, child, what);
    case HealthAnswered(healthy) => TimerEventTold(s, healthy);
    case KillTimerFired => TimerEventTold(s, true);
  }

  /** No attempt spawns twice. */
  lemma {:induction false} OneSpawnPerAttempt(events: seq<Event>, i: nat, j: nat)
    requires Run(events).Some? && i < j < |Run(events).value.core.log|
    requires Run(events).value.core.log[i].Spawned? && Run(events).value.core.log[j].Spawned?
    ensures Run(events).value.core.log[i].gen != Run(events).value.core.log[j].gen
  {
    RunInv(events);
  }

  /** At every step boundary of every run, a bridge that is still open belongs to a child whose close event is to
      come: none leaks through a superseded start, a failed spawn, a replaced child or a repeated stop. */
  lemma BridgesNeverLeak(events: seq<Event>, b: Bridge)
    requires Run(events).Some? && b in Run(events).value.core.open
    ensures exists c :: Holds(Run(events).value.core.children, b, c)
  {
    RunInv(events);
  }

  /** Once every child has closed, every bridge has. */
  lemma AllClosedNoBridge(events: seq<Event>)
    requires Run(events).Some?
    requires forall c :: c in Run(events).value.core.children ==> Run(events).value.core.children[c].closed
    ensures Run(events).value.core.open == {}
  {
    RunInv(events);
    var c := Run(events).value.core;
    assert forall b, x :: !Holds(c.children, b, x);
  }

  /** The child on record has its handlers attached: its attempt's log pipe did not throw after `spawn`. */
  predicate OnRecordWired(c: Core) {
    c.process.Some? && c.process.value in c.children && c.children[c.process.value].wired
  }

  /** The close event of the child on record is still to come, and it puts the queued start in line. */
  predicate CloseServesQueue(s: State) {
    s.core.process.Some? &&
    var close := OfChild(s.core.process.value, Closed);
    Enabled(s, close) && Next(s, close).queued == s.queued + 1 && Next(s, close).core.status == Stopped
  }

  lemma WiredServes(s: State, child: Child)
    requires s.core.process == Some(child) && child in s.core.children && !s.core.children[child].closed
    requires s.core.children[child].wired && s.core.pendingStart
    ensures CloseServesQueue(s)
  {
  }

  lemma UnwiredDoesNotServe(s: State, child: Child)
    requires s.core.process == Some(child) && child in s.core.children && !s.core.children[child].wired
    ensures !CloseServesQueue(s)
  {
  }

  /** A queued start always waits for a child on record, and that child's close event will put it in line exactly when
      the child has its handlers attached. */
  lemma QueuedStartServedIffWired(events: seq<Event>)
    requires Run(events).Some? && Run(events).value.core.pendingStart
    ensures Run(events).value.core.process.Some?
    ensures CloseServesQueue(Run(events).value) <==> OnRecordWired(Run(events).value.core)
  {
    RunInv(events);
    var s := Run(events).value;
    var child := s.core.process.value;
    assert Live(s.core.children, child);
    if s.core.children[child].wired {
      WiredServes(s, child);
    } else {
      UnwiredDoesNotServe(s, child);
    }
  }

  /** The answers an attempt acts on without looking at the generation. */
  predicate Unguarded(a: Answer) {
    a.ExternalProbed? || (a.ApiFound? && !a.found) || (a.P2pFound? && !a.found) || a.SpawnFailureReported?
  }

  /** Exactly where a superseded attempt can still touch the status: an external probe, a port search that found
      nothing, or a spawn failure reported late. Any other answer leaves status, process and bridge on record alone. */
  lemma {:induction false} SupersededAttemptsTouchLittle(s: State, g: nat, a: Answer)
    requires Enabled(s, Resumed(g, a)) && g != s.core.generation
    ensures var t := Next(s, Resumed(g, a));
      && t.core.process == s.core.process && t.core.bridge == s.core.bridge && t.core.generation == s.core.generation
      && (!Unguarded(a) ==> t.core.status == s.core.status && t.mode == s.mode)
      && (Unguarded(a) ==> t.core.status == if a.ExternalProbed? && a.valid then Running else Failed)
  {
    match a
    case ExternalProbed(_) =>
    case Detected(_, _, _, _) =>
    case ApiProbed(_) =>
    case ApiFound(_, _) =>
    case P2pProbed(_, _) =>
    case P2pFound(_) =>
    case Persisted(_, _) =>
    case BridgeOpened(_, _) =>
    case BridgeFailed =>
    case SpawnFailureReported =>
  }
}
