/**
 Session keys, retirement and its listeners, as src/main/browsing-transport.js keeps them. What listeners and abort
 handlers do when they are called is in `World`; it may be anything that calls back in, retirement included.
 */
module Sessions {
  datatype Option<+T> = None | Some(value: T)

  type Session = nat
  type Listener = nat

  datatype Action =
    | Retire(session: Session)
    | Subscribe(listener: Listener)
    | Unsubscribe(listener: Listener)
    | AskSignal(session: Session)
    | AskKey(session: Session)

  /** `sessions`: the Session objects there are; anything else passed in is no session object. */
  datatype World = World(
    standard: Session,
    sessions: set<Session>,
    onAbort: Session -> seq<Action>,
    onRetired: (Listener, Session) -> seq<Action>)

  /**
   `signals`: the sessions that have a controller, and whether it is aborted. Two histories: `calls`, the listener calls
   so far; `heard`, the listeners that were subscribed when a session's retirement came to call them.
   */
  datatype State = State(
    retired: set<Session>,
    listeners: seq<Listener>,
    signals: map<Session, bool>,
    keys: map<Session, nat>,
    nextKey: nat,
    calls: seq<(Listener, Session)>,
    heard: map<Session, seq<Listener>>)

  const Initial := State({}, [], map[], map[], 1, [], map[])

  predicate Private(w: World, s: Session) {
    s in w.sessions && s != w.standard
  }

  function Without(ls: seq<Listener>, l: Listener): seq<Listener> {
    if ls == [] then []
    else Without(ls[..|ls| - 1], l) + if ls[|ls| - 1] == l then [] else [ls[|ls| - 1]]
  }

  // ---------------------------------------------------------------- the calls that do not call back

  function SubscribeNow(st: State, l: Listener): State {
    if l in st.listeners then st else st.(listeners := st.listeners + [l])
  }

  function UnsubscribeNow(st: State, l: Listener): State {
    st.(listeners := Without(st.listeners, l))
  }

  /** `browsingSessionRetirementSignal` */
  function SignalNow(w: World, st: State, s: Session): State {
    if !Private(w, s) || s in st.signals then st else st.(signals := st.signals[s := s in st.retired])
  }

  /** `sessionKey` */
  function KeyNow(w: World, st: State, s: Session): State {
    if !Private(w, s) || s in st.keys then st
    else st.(keys := st.keys[s := st.nextKey], nextKey := st.nextKey + 1)
  }

  /** The key that a session has: none of its own for the default session. */
  function KeyOf(w: World, st: State, s: Session): Option<nat> {
    if Private(w, s) && s in st.keys then Some(st.keys[s]) else None
  }

  datatype Answer = Use(session: Session) | Unavailable

  /** `requireBrowsingSession`, in a context with that session or none. */
  function Require(w: World, st: State, context: Option<Session>, privateLog: bool): Answer {
    if context.Some? then (if context.value in st.retired then Unavailable else Use(context.value))
    else if privateLog then Unavailable
    else Use(w.standard)
  }

  // ---------------------------------------------------------------- retirement

  function MarkRetired(st: State, s: Session): State {
    st.(retired := st.retired + {s}, signals := if s in st.signals then st.signals[s := true] else st.signals)
  }

  /** `retireBrowsingSession` */
  function RetireNow(w: World, st: State, s: Session): (r: State)
    ensures st.retired <= r.retired
    decreases w.sessions - st.retired, 0, 1
  {
    if !Private(w, s) || s in st.retired then st
    else
      var aborted := Aborted(w, st, s);
      Notify(w, CopyListeners(aborted, s), aborted.listeners, s)
  }

  /** `[...retirementListeners]` */
  function CopyListeners(st: State, s: Session): State {
    st.(heard := st.heard[s := st.listeners])
  }

  /** The session is marked and its controller, if it has one, aborts; then the listeners are looked at. */
  function Aborted(w: World, st: State, s: Session): (r: State)
    requires Private(w, s) && s !in st.retired
    ensures st.retired + {s} <= r.retired
    decreases w.sessions - st.retired, 0, 0
  {
    if s in st.signals then Do(w, MarkRetired(st, s), w.onAbort(s)) else MarkRetired(st, s)
  }

  function Notify(w: World, st: State, ls: seq<Listener>, s: Session): (r: State)
    ensures st.retired <= r.retired
    decreases w.sessions - st.retired, 2, |ls|
  {
    if ls == [] then st
    else Notify(w, Do(w, st.(calls := st.calls + [(ls[0], s)]), w.onRetired(ls[0], s)), ls[1..], s)
  }

  function Do(w: World, st: State, acts: seq<Action>): (r: State)
    ensures st.retired <= r.retired
    decreases w.sessions - st.retired, 1, |acts|
  {
    if acts == [] then st else Do(w, Apply(w, st, acts[0]), acts[1..])
  }

  function Apply(w: World, st: State, a: Action): (r: State)
    ensures st.retired <= r.retired
    decreases w.sessions - st.retired, 0, 2
  {
    match a
    case Retire(s) => RetireNow(w, st, s)
    case Subscribe(l) => SubscribeNow(st, l)
    case Unsubscribe(l) => UnsubscribeNow(st, l)
    case AskSignal(s) => SignalNow(w, st, s)
    case AskKey(s) => KeyNow(w, st, s)
  }

  // ---------------------------------------------------------------- what every call keeps

  ghost predicate RetiredOk(w: World, st: State) {
    forall s :: s in st.retired ==> Private(w, s)
  }

  ghost predicate SignalsOk(w: World, st: State) {
    forall s :: s in st.signals ==> Private(w, s) && (st.signals[s] <==> s in st.retired)
  }

  ghost predicate KeysOk(w: World, st: State) {
    && (forall s :: s in st.keys ==> Private(w, s) && 1 <= st.keys[s] < st.nextKey)
    && (forall s, t :: s in st.keys && t in st.keys && st.keys[s] == st.keys[t] ==> s == t)
    && st.nextKey >= 1
  }

  ghost predicate DistinctListeners(ls: seq<Listener>) {
    forall i, j :: 0 <= i < j < |ls| ==> ls[i] != ls[j]
  }

  /** The listeners called for `s`, in order. */
  function CalledFor(calls: seq<(Listener, Session)>, s: Session): seq<Listener> {
    if calls == [] then []
    else CalledFor(calls[..|calls| - 1], s) + if calls[|calls| - 1].1 == s then [calls[|calls| - 1].0] else []
  }

  ghost predicate CallsOk(st: State) {
    && DistinctListeners(st.listeners)
    && (forall s :: s !in st.retired ==> CalledFor(st.calls, s) == [])
    && (forall s :: DistinctListeners(CalledFor(st.calls, s)))
  }

  ghost predicate Inv(w: World, st: State) {
    RetiredOk(w, st) && SignalsOk(w, st) && KeysOk(w, st)
  }

  lemma MarkInv(w: World, st: State, s: Session)
    requires Inv(w, st) && Private(w, s)
    ensures Inv(w, MarkRetired(st, s))
  {
  }

  lemma PlainInv(w: World, st: State, a: Action)
    requires Inv(w, st) && !a.Retire?
    ensures Inv(w, Apply(w, st, a))
  {
  }

  lemma {:induction false} RetireInv(w: World, st: State, s: Session)
    requires Inv(w, st)
    ensures Inv(w, RetireNow(w, st, s))
    decreases w.sessions - st.retired, 0, 0
  {
    if Private(w, s) && s !in st.retired {
      MarkInv(w, st, s);
      if s in st.signals {
        DoInv(w, MarkRetired(st, s), w.onAbort(s));
      }
      var aborted := Aborted(w, st, s);
      NotifyInv(w, CopyListeners(aborted, s), aborted.listeners, s);
    }
  }

  lemma {:induction false} NotifyInv(w: World, st: State, ls: seq<Listener>, s: Session)
    requires Inv(w, st)
    ensures Inv(w, Notify(w, st, ls, s))
    decreases w.sessions - st.retired, 2, |ls|
  {
    if ls != [] {
      var called := st.(calls := st.calls + [(ls[0], s)]);
      DoInv(w, called, w.onRetired(ls[0], s));
      NotifyInv(w, Do(w, called, w.onRetired(ls[0], s)), ls[1..], s);
    }
  }

  lemma {:induction false} DoInv(w: World, st: State, acts: seq<Action>)
    requires Inv(w, st)
    ensures Inv(w, Do(w, st, acts))
    decreases w.sessions - st.retired, 1, |acts|
  {
    if acts != [] {
      if acts[0].Retire? {
        RetireInv(w, st, acts[0].session);
      } else {
        PlainInv(w, st, acts[0]);
      }
      DoInv(w, Apply(w, st, acts[0]), acts[1..]);
    }
  }

  // ---------------------------------------------------------------- keys and signals stay

  ghost predicate KeysStay(st: State, r: State) {
    && (forall s :: s in st.keys ==> s in r.keys && r.keys[s] == st.keys[s])
    && (forall s :: s in st.signals ==> s in r.signals)
  }

  lemma {:induction false} RetireKeys(w: World, st: State, s: Session)
    ensures KeysStay(st, RetireNow(w, st, s))
    decreases w.sessions - st.retired, 0, 0
  {
    if Private(w, s) && s !in st.retired {
      if s in st.signals {
        DoKeys(w, MarkRetired(st, s), w.onAbort(s));
      }
      var aborted := Aborted(w, st, s);
      NotifyKeys(w, CopyListeners(aborted, s), aborted.listeners, s);
    }
  }

  lemma {:induction false} NotifyKeys(w: World, st: State, ls: seq<Listener>, s: Session)
    ensures KeysStay(st, Notify(w, st, ls, s))
    decreases w.sessions - st.retired, 2, |ls|
  {
    if ls != [] {
      var called := st.(calls := st.calls + [(ls[0], s)]);
      DoKeys(w, called, w.onRetired(ls[0], s));
      NotifyKeys(w, Do(w, called, w.onRetired(ls[0], s)), ls[1..], s);
    }
  }

  lemma {:induction false} DoKeys(w: World, st: State, acts: seq<Action>)
    ensures KeysStay(st, Do(w, st, acts))
    decreases w.sessions - st.retired, 1, |acts|
  {
    if acts != [] {
      if acts[0].Retire? {
        RetireKeys(w, st, acts[0].session);
      }
      DoKeys(w, Apply(w, st, acts[0]), acts[1..]);
    }
  }

  // ---------------------------------------------------------------- listener calls

  lemma {:induction false} WithoutMeans(ls: seq<Listener>, l: Listener)
    ensures forall x :: x in Without(ls, l) <==> x in ls && x != l
    ensures DistinctListeners(ls) ==> DistinctListeners(Without(ls, l))
  {
    if ls != [] {
      var before, last := ls[..|ls| - 1], ls[|ls| - 1];
      assert ls == before + [last];
      WithoutMeans(before, l);
      if DistinctListeners(ls) {
        forall k | 0 <= k < |Without(before, l)| ensures Without(before, l)[k] != last {
          assert Without(before, l)[k] in before;
        }
      }
    }
  }

  lemma CalledMore(calls: seq<(Listener, Session)>, l: Listener, s: Session, x: Session)
    ensures CalledFor(calls + [(l, s)], x) == CalledFor(calls, x) + if x == s then [l] else []
  {
    assert (calls + [(l, s)])[..|calls|] == calls;
  }

  /** Sessions that had retired before hear of no further calls. */
  ghost predicate CallsStay(st: State, r: State) {
    forall x :: x in st.retired ==> CalledFor(r.calls, x) == CalledFor(st.calls, x)
  }

  ghost predicate CallsStayBut(st: State, r: State, s: Session) {
    forall x :: x in st.retired && x != s ==> CalledFor(r.calls, x) == CalledFor(st.calls, x)
  }

  lemma PlainCalls(w: World, st: State, a: Action)
    requires CallsOk(st) && !a.Retire?
    ensures CallsOk(Apply(w, st, a)) && CallsStay(st, Apply(w, st, a))
  {
    if a.Unsubscribe? {
      WithoutMeans(st.listeners, a.listener);
    }
  }

  lemma OneCall(st: State, l: Listener, s: Session)
    requires CallsOk(st) && s in st.retired && DistinctListeners(CalledFor(st.calls, s) + [l])
    ensures CallsOk(st.(calls := st.calls + [(l, s)]))
    ensures CalledFor(st.calls + [(l, s)], s) == CalledFor(st.calls, s) + [l]
    ensures CallsStayBut(st, st.(calls := st.calls + [(l, s)]), s)
  {
    forall x ensures CalledFor(st.calls + [(l, s)], x) == CalledFor(st.calls, x) + if x == s then [l] else [] {
      CalledMore(st.calls, l, s, x);
    }
  }

  lemma {:induction false} RetireCalls(w: World, st: State, s: Session)
    requires CallsOk(st)
    ensures CallsOk(RetireNow(w, st, s)) && CallsStay(st, RetireNow(w, st, s))
    ensures Private(w, s) && s !in st.retired ==> CalledFor(RetireNow(w, st, s).calls, s) == Aborted(w, st, s).listeners
    decreases w.sessions - st.retired, 0, 0
  {
    if Private(w, s) && s !in st.retired {
      var marked := MarkRetired(st, s);
      assert CallsOk(marked);
      if s in st.signals {
        DoCalls(w, marked, w.onAbort(s));
      }
      var aborted := Aborted(w, st, s);
      assert CallsOk(aborted) && CallsStay(marked, aborted) && CalledFor(aborted.calls, s) == [];
      assert [] + aborted.listeners == aborted.listeners;
      var copied := CopyListeners(aborted, s);
      NotifyCalls(w, copied, aborted.listeners, s);
      Joined(marked, copied, Notify(w, copied, aborted.listeners, s), s);
    }
  }

  lemma Joined(a: State, b: State, c: State, s: Session)
    requires a.retired <= b.retired && CallsStay(a, b) && CallsStayBut(b, c, s)
    ensures CallsStayBut(a, c, s)
  {
  }

  lemma {:induction false} NotifyCalls(w: World, st: State, ls: seq<Listener>, s: Session)
    requires CallsOk(st) && s in st.retired && DistinctListeners(CalledFor(st.calls, s) + ls)
    ensures CallsOk(Notify(w, st, ls, s)) && CallsStayBut(st, Notify(w, st, ls, s), s)
    ensures CalledFor(Notify(w, st, ls, s).calls, s) == CalledFor(st.calls, s) + ls
    decreases w.sessions - st.retired, 2, |ls|
  {
    if ls == [] {
      assert CalledFor(st.calls, s) + ls == CalledFor(st.calls, s);
    } else {
      var before := CalledFor(st.calls, s);
      assert before + ls == before + [ls[0]] + ls[1..];
      assert forall k :: 0 <= k <= |before| ==> (before + [ls[0]])[k] == (before + ls)[k];
      OneCall(st, ls[0], s);
      var called := st.(calls := st.calls + [(ls[0], s)]);
      DoCalls(w, called, w.onRetired(ls[0], s));
      var done := Do(w, called, w.onRetired(ls[0], s));
      NotifyCalls(w, done, ls[1..], s);
      Joined(called, done, Notify(w, done, ls[1..], s), s);
    }
  }

  lemma {:induction false} DoCalls(w: World, st: State, acts: seq<Action>)
    requires CallsOk(st)
    ensures CallsOk(Do(w, st, acts)) && CallsStay(st, Do(w, st, acts))
    decreases w.sessions - st.retired, 1, |acts|
  {
    if acts != [] {
      if acts[0].Retire? {
        RetireCalls(w, st, acts[0].session);
      } else {
        PlainCalls(w, st, acts[0]);
      }
      DoCalls(w, Apply(w, st, acts[0]), acts[1..]);
    }
  }

  // ---------------------------------------------------------------- every retirement, nested ones included

  /** What was heard at a retirement stays on record. */
  ghost predicate HeardStays(st: State, r: State) {
    forall x :: x in st.retired ==> (x in st.heard <==> x in r.heard) && (x in st.heard ==> r.heard[x] == st.heard[x])
  }

  lemma HeardJoined(a: State, b: State, c: State)
    requires a.retired <= b.retired && HeardStays(a, b) && HeardStays(b, c)
    ensures HeardStays(a, c)
  {
  }

  /** Every retired session but those whose retirement is still going on has had its listeners called, all of them. */
  ghost predicate AllHeard(st: State, busy: set<Session>) {
    forall x :: x in st.retired && x !in busy ==> x in st.heard && CalledFor(st.calls, x) == st.heard[x]
  }

  lemma PlainHeard(w: World, st: State, a: Action, busy: set<Session>)
    requires AllHeard(st, busy) && !a.Retire?
    ensures AllHeard(Apply(w, st, a), busy) && HeardStays(st, Apply(w, st, a))
  {
  }

  lemma OneCallHeard(st: State, l: Listener, s: Session, busy: set<Session>)
    requires AllHeard(st, busy) && s in busy
    ensures AllHeard(st.(calls := st.calls + [(l, s)]), busy)
  {
    forall x | x in st.retired && x !in busy
      ensures x in st.heard && CalledFor(st.calls + [(l, s)], x) == st.heard[x]
    {
      CalledMore(st.calls, l, s, x);
    }
  }

  lemma {:induction false} RetireHeard(w: World, st: State, s: Session, busy: set<Session>)
    requires CallsOk(st) && AllHeard(st, busy)
    ensures AllHeard(RetireNow(w, st, s), busy) && HeardStays(st, RetireNow(w, st, s))
    decreases w.sessions - st.retired, 0, 0
  {
    if Private(w, s) && s !in st.retired {
      var marked := MarkRetired(st, s);
      assert AllHeard(marked, busy + {s}) && HeardStays(st, marked) && CallsOk(marked);
      if s in st.signals {
        DoHeard(w, marked, w.onAbort(s), busy + {s});
        DoCalls(w, marked, w.onAbort(s));
      }
      var aborted := Aborted(w, st, s);
      var copied := CopyListeners(aborted, s);
      var r := Notify(w, copied, aborted.listeners, s);
      assert CallsOk(copied) && CalledFor(copied.calls, s) == [] && [] + aborted.listeners == aborted.listeners;
      assert AllHeard(copied, busy + {s}) && HeardStays(st, copied);
      NotifyHeard(w, copied, aborted.listeners, s, busy + {s});
      NotifyCalls(w, copied, aborted.listeners, s);
      HeardJoined(st, copied, r);
      assert s in copied.retired && r.heard[s] == aborted.listeners;
    }
  }

  lemma {:induction false} NotifyHeard(w: World, st: State, ls: seq<Listener>, s: Session, busy: set<Session>)
    requires CallsOk(st) && AllHeard(st, busy) && s in busy && s in st.retired
    requires DistinctListeners(CalledFor(st.calls, s) + ls)
    ensures AllHeard(Notify(w, st, ls, s), busy) && HeardStays(st, Notify(w, st, ls, s))
    decreases w.sessions - st.retired, 2, |ls|
  {
    if ls != [] {
      var before := CalledFor(st.calls, s);
      assert before + ls == before + [ls[0]] + ls[1..];
      assert forall k :: 0 <= k <= |before| ==> (before + [ls[0]])[k] == (before + ls)[k];
      OneCall(st, ls[0], s);
      OneCallHeard(st, ls[0], s, busy);
      var called := st.(calls := st.calls + [(ls[0], s)]);
      DoHeard(w, called, w.onRetired(ls[0], s), busy);
      DoCalls(w, called, w.onRetired(ls[0], s));
      var done := Do(w, called, w.onRetired(ls[0], s));
      NotifyHeard(w, done, ls[1..], s, busy);
      HeardJoined(called, done, Notify(w, done, ls[1..], s));
    }
  }

  lemma {:induction false} DoHeard(w: World, st: State, acts: seq<Action>, busy: set<Session>)
    requires CallsOk(st) && AllHeard(st, busy)
    ensures AllHeard(Do(w, st, acts), busy) && HeardStays(st, Do(w, st, acts))
    decreases w.sessions - st.retired, 1, |acts|
  {
    if acts != [] {
      var next := Apply(w, st, acts[0]);
      if acts[0].Retire? {
        RetireHeard(w, st, acts[0].session, busy);
        RetireCalls(w, st, acts[0].session);
      } else {
        PlainHeard(w, st, acts[0], busy);
        PlainCalls(w, st, acts[0]);
      }
      DoHeard(w, next, acts[1..], busy);
      HeardJoined(st, next, Do(w, next, acts[1..]));
    }
  }

  // ---------------------------------------------------------------- the main results

  /** The state after any sequence of calls. */
  function After(w: World, acts: seq<Action>): State {
    Do(w, Initial, acts)
  }

  lemma AfterInv(w: World, acts: seq<Action>)
    ensures Inv(w, After(w, acts)) && CallsOk(After(w, acts))
  {
    assert DistinctListeners([]) && forall s :: CalledFor([], s) == [];
    DoInv(w, Initial, acts);
    DoCalls(w, Initial, acts);
  }

  lemma {:induction false} DoSplits(w: World, st: State, first: seq<Action>, more: seq<Action>)
    ensures Do(w, st, first + more) == Do(w, Do(w, st, first), more)
    decreases |first|
  {
    if first == [] {
      assert first + more == more;
    } else {
      assert (first + more)[0] == first[0] && (first + more)[1..] == first[1..] + more;
      DoSplits(w, Apply(w, st, first[0]), first[1..], more);
    }
  }

  /** Retirement is for good and never hits the default session; a key, once minted, stays with its one session. */
  lemma RetirementAndKeysLast(w: World, acts: seq<Action>, more: seq<Action>, s: Session, t: Session)
    ensures var st, r := After(w, acts), After(w, acts + more);
      && st.retired <= r.retired && w.standard !in r.retired
      && (KeyOf(w, st, s).Some? ==> KeyOf(w, r, s) == KeyOf(w, st, s))
      && (s in st.signals ==> s in r.signals)
      && (KeyOf(w, r, s).Some? && KeyOf(w, r, s) == KeyOf(w, r, t) ==> s == t)
      && KeyOf(w, r, w.standard).None?
  {
    DoSplits(w, Initial, acts, more);
    DoKeys(w, After(w, acts), more);
    AfterInv(w, acts + more);
  }

  /** A signal is aborted exactly when its session has retired, whichever came first. */
  lemma SignalAbortedIffRetired(w: World, acts: seq<Action>, s: Session)
    requires s in After(w, acts).signals
    ensures After(w, acts).signals[s] <==> s in After(w, acts).retired
  {
    AfterInv(w, acts);
  }

  /** Asking for a key or a signal gives a private session one. */
  lemma AskingGives(w: World, acts: seq<Action>, s: Session)
    requires Private(w, s)
    ensures KeyOf(w, After(w, acts + [AskKey(s)]), s).Some?
    ensures s in After(w, acts + [AskSignal(s)]).signals
  {
    DoSplits(w, Initial, acts, [AskKey(s)]);
    DoSplits(w, Initial, acts, [AskSignal(s)]);
    var st := After(w, acts);
    assert Do(w, st, [AskKey(s)]) == Do(w, KeyNow(w, st, s), []);
    assert Do(w, st, [AskSignal(s)]) == Do(w, SignalNow(w, st, s), []);
  }

  ghost predicate HeardOnce(calls: seq<(Listener, Session)>, s: Session, listeners: seq<Listener>) {
    CalledFor(calls, s) == listeners && DistinctListeners(listeners)
  }

  /** Over any calls, for every session, wherever it was retired from (a caller, a listener that hears of another
      retirement, an abort handler): once it has retired, every listener that was subscribed when its listeners came
      to be called has been called for it exactly once, in order; before that, none. */
  lemma EachListenerOnce(w: World, acts: seq<Action>, s: Session)
    ensures var st := After(w, acts);
      && (s !in st.retired ==> CalledFor(st.calls, s) == [])
      && (s in st.retired ==> s in st.heard && HeardOnce(st.calls, s, st.heard[s]))
  {
    AfterInv(w, acts);
    DoHeard(w, Initial, acts, {});
  }

  /** Nothing that comes later adds a call for a session that has retired. */
  lemma NoLaterCall(w: World, acts: seq<Action>, more: seq<Action>, s: Session)
    requires s in After(w, acts).retired
    ensures CalledFor(After(w, acts + more).calls, s) == CalledFor(After(w, acts).calls, s)
    ensures s in After(w, acts).heard && s in After(w, acts + more).heard
    ensures After(w, acts + more).heard[s] == After(w, acts).heard[s]
  {
    AfterInv(w, acts);
    DoHeard(w, Initial, acts, {});
    DoSplits(w, Initial, acts, more);
    DoCalls(w, After(w, acts), more);
    DoHeard(w, After(w, acts), more, {});
  }

  /** What is on record as heard is who was subscribed: for a session that retires now, the listeners of this moment, if
      it has no signal whose handlers could change them first. */
  lemma HeardIsSubscribed(w: World, acts: seq<Action>, s: Session)
    requires Private(w, s) && s !in After(w, acts).retired
    ensures var r := After(w, acts + [Retire(s)]);
      && s in r.retired && s in r.heard && r.heard[s] == Aborted(w, After(w, acts), s).listeners
      && (s !in After(w, acts).signals ==> r.heard[s] == After(w, acts).listeners)
  {
    var st := After(w, acts);
    var r := RetireNow(w, st, s);
    AfterInv(w, acts);
    DoHeard(w, Initial, acts, {});
    RetireCalls(w, st, s);
    RetireHeard(w, st, s, {});
    RetiredIn(w, st, s);
    DoSplits(w, Initial, acts, [Retire(s)]);
    assert Do(w, st, [Retire(s)]) == Do(w, r, []);
  }

  /** The listeners are those subscribed and not taken back since, in the order of subscription. */
  lemma SubscriptionsFollow(w: World, acts: seq<Action>, l: Listener, before: seq<Listener>, after: seq<Listener>)
    ensures var ls := After(w, acts).listeners;
      && DistinctListeners(ls)
      && (l in ls ==> After(w, acts + [Subscribe(l)]).listeners == ls)
      && (l !in ls ==> After(w, acts + [Subscribe(l)]).listeners == ls + [l])
      && (l !in ls ==> After(w, acts + [Unsubscribe(l)]).listeners == ls)
      && (ls == before + [l] + after ==> After(w, acts + [Unsubscribe(l)]).listeners == before + after)
  {
    var st := After(w, acts);
    AfterInv(w, acts);
    DoSplits(w, Initial, acts, [Subscribe(l)]);
    DoSplits(w, Initial, acts, [Unsubscribe(l)]);
    assert Do(w, st, [Subscribe(l)]) == Do(w, SubscribeNow(st, l), []);
    assert Do(w, st, [Unsubscribe(l)]) == Do(w, UnsubscribeNow(st, l), []);
    if l !in st.listeners {
      WithoutNone(st.listeners, l);
    }
    if st.listeners == before + [l] + after {
      assert forall k :: 0 <= k < |before| ==> st.listeners[k] == before[k];
      assert forall k :: 0 <= k < |after| ==> st.listeners[|before| + 1 + k] == after[k];
      assert st.listeners[|before|] == l;
      WithoutOne(before, l, after);
    }
  }

  lemma {:induction false} WithoutNone(ls: seq<Listener>, l: Listener)
    requires l !in ls
    ensures Without(ls, l) == ls
  {
    if ls != [] {
      WithoutNone(ls[..|ls| - 1], l);
      assert ls == ls[..|ls| - 1] + [ls[|ls| - 1]];
    }
  }

  lemma {:induction false} WithoutOne(before: seq<Listener>, l: Listener, after: seq<Listener>)
    requires l !in before && l !in after
    ensures Without(before + [l] + after, l) == before + after
    decreases |after|
  {
    var ls := before + [l] + after;
    if after == [] {
      assert ls[..|ls| - 1] == before && before + after == before;
      WithoutNone(before, l);
    } else {
      var most := after[..|after| - 1];
      assert ls[..|ls| - 1] == before + [l] + most && ls[|ls| - 1] == after[|after| - 1];
      assert before + most + [after[|after| - 1]] == before + after;
      WithoutOne(before, l, most);
    }
  }

  /** What a call brings about, and nothing undoes. */
  ghost predicate Happened(w: World, st: State, a: Action) {
    match a
    case Retire(s) => Private(w, s) ==> s in st.retired
    case AskKey(s) => Private(w, s) ==> s in st.keys
    case AskSignal(s) => Private(w, s) ==> s in st.signals
    case Subscribe(_) => true
    case Unsubscribe(_) => true
  }

  lemma HappenedStays(w: World, st: State, r: State, a: Action)
    requires Happened(w, st, a) && st.retired <= r.retired && KeysStay(st, r)
    ensures Happened(w, r, a)
  {
  }

  lemma ApplyHappens(w: World, st: State, a: Action)
    ensures Happened(w, Apply(w, st, a), a)
  {
    if a.Retire? && Private(w, a.session) && a.session !in st.retired {
      RetiredIn(w, st, a.session);
    }
  }

  lemma {:induction false} DoHappens(w: World, st: State, acts: seq<Action>, a: Action)
    requires a in acts
    ensures Happened(w, Do(w, st, acts), a)
    decreases |acts|
  {
    var next := Apply(w, st, acts[0]);
    if a == acts[0] {
      ApplyHappens(w, st, a);
      DoKeys(w, next, acts[1..]);
      HappenedStays(w, next, Do(w, next, acts[1..]), a);
    } else {
      DoHappens(w, next, acts[1..], a);
    }
  }

  lemma {:induction false} NotifyHappens(
      w: World, st: State, ls: seq<Listener>, s: Session, l: Listener, a: Action)
    requires l in ls && a in w.onRetired(l, s)
    ensures Happened(w, Notify(w, st, ls, s), a)
    decreases |ls|
  {
    var called := st.(calls := st.calls + [(ls[0], s)]);
    var done := Do(w, called, w.onRetired(ls[0], s));
    if l == ls[0] {
      DoHappens(w, called, w.onRetired(l, s), a);
      NotifyKeys(w, done, ls[1..], s);
      HappenedStays(w, done, Notify(w, done, ls[1..], s), a);
    } else {
      NotifyHappens(w, done, ls[1..], s, l, a);
    }
  }

  /** A retirement runs the handlers of the session's signal, and then every listener on record, to the end: what one of
      them retires, however deep, has retired when the call returns, and the keys and signals it asks for are there. */
  lemma CallbacksHappen(w: World, acts: seq<Action>, s: Session, l: Listener, a: Action)
    requires Private(w, s) && s !in After(w, acts).retired
    ensures var st, r := After(w, acts), After(w, acts + [Retire(s)]);
      && (s in st.signals && a in w.onAbort(s) ==> Happened(w, r, a))
      && (s in r.heard && l in r.heard[s] && a in w.onRetired(l, s) ==> Happened(w, r, a))
  {
    var st := After(w, acts);
    var aborted := Aborted(w, st, s);
    var copied := CopyListeners(aborted, s);
    var r := Notify(w, copied, aborted.listeners, s);
    HeardIsSubscribed(w, acts, s);
    DoSplits(w, Initial, acts, [Retire(s)]);
    assert RetireNow(w, st, s) == r;
    assert Do(w, st, [Retire(s)]) == Do(w, r, []) == r;
    if s in st.signals && a in w.onAbort(s) {
      DoHappens(w, MarkRetired(st, s), w.onAbort(s), a);
      NotifyKeys(w, copied, aborted.listeners, s);
      HappenedStays(w, copied, r, a);
    }
    if l in aborted.listeners && a in w.onRetired(l, s) {
      NotifyHappens(w, copied, aborted.listeners, s, l, a);
    }
  }

  lemma RetiredIn(w: World, st: State, s: Session)
    requires Private(w, s) && s !in st.retired
    ensures s in RetireNow(w, st, s).retired
  {
  }

  /** The session to dial on is never a retired one; it is refused exactly when the context's session has retired, or
      when a private log context has none. */
  lemma RequireNeverRetired(w: World, acts: seq<Action>, context: Option<Session>, privateLog: bool)
    ensures var st := After(w, acts);
      match Require(w, st, context, privateLog)
      case Use(s) => s !in st.retired && (if context.Some? then s == context.value else s == w.standard)
      case Unavailable => if context.Some? then context.value in st.retired else privateLog
  {
    AfterInv(w, acts);
  }
}
