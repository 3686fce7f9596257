/** The module-level maps and sets of src/main/browsing-transport.js and the functions that change them. */
module BrowsingTransport {
  import opened Sessions

  class Transport {
    const world: World
    var retiredSessions: set<Session>
    var retirementListeners: seq<Listener>
    var retirementControllers: map<Session, bool>
    var sessionKeys: map<Session, nat>
    var nextSessionKey: nat
    ghost var calls: seq<(Listener, Session)>
    ghost var heard: map<Session, seq<Listener>>

    ghost function View(): State
      reads this
    {
      State(retiredSessions, retirementListeners, retirementControllers, sessionKeys, nextSessionKey, calls, heard)
    }

    /** Only private sessions have retired, a signal is aborted exactly when its session has, and no two sessions
        share a key. This holds at every call, from inside a listener as well. */
    ghost predicate Valid()
      reads this
    {
      Inv(world, View())
    }

    constructor (world: World)
      ensures Valid() && this.world == world && View() == Initial
    {
      this.world := world;
      retiredSessions, retirementListeners, retirementControllers := {}, [], map[];
      sessionKeys, nextSessionKey, calls, heard := map[], 1, [], map[];
    }

    /** The number in the key, or none for the default session and for no session object. It is the key the session
        had if it had one, and it is no other session's. */
    method SessionKey(target: Session) returns (key: Option<nat>)
      requires Valid()
      modifies this`sessionKeys, this`nextSessionKey
      ensures Valid() && View() == KeyNow(world, old(View()), target) && key == KeyOf(world, View(), target)
      ensures key.Some? <==> Private(world, target)
      ensures target in old(sessionKeys) ==> key == Some(old(sessionKeys)[target])
      ensures forall t :: t in sessionKeys && key == Some(sessionKeys[t]) ==> t == target
    {
      PlainInv(world, View(), AskKey(target));
      if !Private(world, target) {
        return None;
      }
      if target !in sessionKeys {
        sessionKeys := sessionKeys[target := nextSessionKey];
        nextSessionKey := nextSessionKey + 1;
      }
      return Some(sessionKeys[target]);
    }

    /** Whether the signal handed out is aborted already; none for the default session. */
    method RetirementSignal(target: Session) returns (aborted: Option<bool>)
      requires Valid()
      modifies this`retirementControllers
      ensures Valid() && View() == SignalNow(world, old(View()), target)
      ensures aborted == if Private(world, target) then Some(target in retiredSessions) else None
      ensures Private(world, target) ==> target in retirementControllers
    {
      PlainInv(world, View(), AskSignal(target));
      if !Private(world, target) {
        return None;
      }
      if target !in retirementControllers {
        retirementControllers := retirementControllers[target := target in retiredSessions];
      }
      return Some(retirementControllers[target]);
    }

    method OnRetired(listener: Listener)
      modifies this`retirementListeners
      ensures View() == SubscribeNow(old(View()), listener)
    {
      if listener !in retirementListeners {
        retirementListeners := retirementListeners + [listener];
      }
    }

    /** What the returned function does. */
    method Forget(listener: Listener)
      modifies this`retirementListeners
      ensures View() == UnsubscribeNow(old(View()), listener)
    {
      retirementListeners := Without(retirementListeners, listener);
    }

    /** Never a retired session: the context's, or the default one outside private contexts, or a refusal. */
    method RequireSession(context: Option<Session>, privateLog: bool) returns (r: Answer)
      requires Valid()
      ensures r.Use? ==> r.session !in retiredSessions
      ensures r.Use? ==> r.session == if context.Some? then context.value else world.standard
      ensures r.Unavailable? <==> if context.Some? then context.value in retiredSessions else privateLog
    {
      if context.Some? {
        if context.value in retiredSessions {
          return Unavailable;
        }
        return Use(context.value);
      }
      if privateLog {
        return Unavailable;
      }
      return Use(world.standard);
    }

    method Mark(target: Session)
      modifies this`retiredSessions, this`retirementControllers
      ensures View() == MarkRetired(old(View()), target)
    {
      retiredSessions := retiredSessions + {target};
      if target in retirementControllers {
        retirementControllers := retirementControllers[target := true];
      }
    }

    ghost method Copy(target: Session)
      modifies this`heard
      requires Valid()
      ensures Valid() && View() == CopyListeners(old(View()), target)
    {
      heard := heard[target := retirementListeners];
    }

    method Call(listener: Listener, target: Session)
      modifies this
      ensures View() == old(View()).(calls := old(calls) + [(listener, target)])
    {
      calls := calls + [(listener, target)];
    }

    /** A session that retires is marked, and its signal aborts; then its listeners are called. */
    method RetireSession(target: Session)
      requires Valid()
      modifies this
      ensures Valid() && View() == RetireNow(world, old(View()), target)
      ensures old(retiredSessions) <= retiredSessions && (Private(world, target) ==> target in retiredSessions)
      decreases world.sessions - retiredSessions, 0, 1
    {
      if Private(world, target) && target !in retiredSessions {
        Abort(target);
        Copy(target);
        NotifyAll(retirementListeners, target);
      }
    }

    method Abort(target: Session)
      requires Valid() && Private(world, target) && target !in retiredSessions
      modifies this
      ensures Valid() && View() == Aborted(world, old(View()), target)
      decreases world.sessions - retiredSessions, 0, 0
    {
      MarkInv(world, View(), target);
      var signalled := target in retirementControllers;
      Mark(target);
      if signalled {
        Perform(world.onAbort(target));
      }
    }

    /** The loop over a copy of the listeners. */
    method NotifyAll(listeners: seq<Listener>, target: Session)
      requires Valid()
      modifies this
      ensures Valid() && View() == Notify(world, old(View()), listeners, target)
      decreases world.sessions - retiredSessions, 2, 0
    {
      ghost var start := View();
      for i := 0 to |listeners|
        invariant Valid() && start.retired <= retiredSessions
        invariant Notify(world, View(), listeners[i..], target) == Notify(world, start, listeners, target)
      {
        assert listeners[i..][0] == listeners[i] && listeners[i..][1..] == listeners[i + 1..];
        Call(listeners[i], target);
        Perform(world.onRetired(listeners[i], target));
      }
    }

    /** What a listener or an abort handler does when it is called. */
    method Perform(acts: seq<Action>)
      requires Valid()
      modifies this
      ensures Valid() && View() == Do(world, old(View()), acts)
      decreases world.sessions - retiredSessions, 1, |acts|
    {
      if acts == [] {
        return;
      }
      PerformOne(acts[0]);
      Perform(acts[1..]);
    }

    method PerformOne(a: Action)
      requires Valid()
      modifies this
      ensures Valid() && View() == Apply(world, old(View()), a)
      decreases world.sessions - retiredSessions, 0, 2
    {
      match a
      case Retire(s) => RetireSession(s);
      case Subscribe(l) => OnRetired(l);
      case Unsubscribe(l) => Forget(l);
      case AskSignal(s) => var _ := RetirementSignal(s);
      case AskKey(s) => var _ := SessionKey(s);
    }
  }
}
