/**
 One download attempt of scripts/lib/fetch-with-retry.js (`runAttempt` and `performRequest`) as a state machine over
 the events of its redirect hops.
 */
module Transfer {
  datatype Option<+T> = None | Some(value: T)

  type Bytes = seq<nat>

  /** What an error carries to the retry loop. */
  datatype Failure = Failure(retryable: bool, retryAfterMs: Option<int>)

  datatype Outcome = Delivered(body: Bytes) | Rejected(failure: Failure)

  /** A request: waiting for its response, taking in a 200 body, closing the file behind it, or done with. */
  datatype Phase = Waiting | Streaming(received: Bytes) | Closing(received: Bytes) | Over

  datatype Hop = Hop(settled: bool, destroyed: bool, phase: Phase)

  datatype Temp = NoFile | Partial | Whole(body: Bytes)

  /** `toFile`: the body goes to a temp file; `maxBytes`: 0 for no limit. */
  datatype Config = Config(toFile: bool, maxRedirects: nat, maxBytes: nat)

  /**
   `opening`: the write stream has not opened its file yet; `unlinked`: the unlink has been carried out, or has failed,
   which makes no difference to the code. Two marks say what came of the file: `failed`, the unlink left a file that was
   there; `late`, the file was opened after the unlink.
   */
  datatype TempFile = TempFile(opening: bool, unlinked: bool, failed: bool, late: bool, temp: Temp)

  /**
   `requests`: how often `https.get` was called; `abort`: the hop that a deadline aborts; `cleanup`: an `unlink` asked
   for and the error to reject with when it calls back.
   */
  datatype State = State(
    hops: seq<Hop>,
    redirects: nat,
    requests: nat,
    abort: Option<nat>,
    cleanup: Option<Failure>,
    outcome: Option<Outcome>,
    file: TempFile)

  datatype Location = NoLocation | BadLocation | NotHttps | Https

  datatype Response = Redirect(location: Location) | Body | Status(retryable: bool, retryAfterMs: Option<int>)

  datatype Event =
    | Responded(hop: nat, response: Response)
    | Data(hop: nat, chunk: Bytes)
    | Finished(hop: nat, complete: bool)
    | Closed(hop: nat, ok: bool)
    | Broke(hop: nat, failure: Failure)
    | Idle(hop: nat)
    | Deadline
    | Opened
    | Unlinked(ok: bool)
    | Reported

  const Fresh := Hop(false, false, Waiting)

  const NoTempFile := TempFile(false, false, false, false, NoFile)

  /** `https.get` has been called for the first address, which is a good one. */
  const Initial := State([Fresh], 0, 1, Some(0), None, None, NoTempFile)

  /** A first address that cannot be used is refused at once. */
  const Refused := State([], 0, 0, None, None, Some(Rejected(Failure(false, None))), NoTempFile)

  // ---------------------------------------------------------------- small changes

  function SetHop(s: State, h: nat, hop: Hop): State
    requires h < |s.hops|
  {
    s.(hops := s.hops[h := hop])
  }

  function SetPhase(s: State, h: nat, phase: Phase): State
    requires h < |s.hops|
  {
    SetHop(s, h, s.hops[h].(phase := phase))
  }

  function Settle(s: State, h: nat): State
    requires h < |s.hops|
  {
    SetHop(s, h, s.hops[h].(settled := true)).(abort := None)
  }

  /** `fail`: the first to come settles the hop; the rejection waits for the unlink to call back. */
  function Fail(c: Config, s: State, h: nat, f: Failure): State
    requires h < |s.hops|
  {
    if s.hops[h].settled then s
    else if c.toFile then Settle(s, h).(cleanup := Some(f))
    else Settle(s, h).(outcome := Some(Rejected(f)))
  }

  /** `succeed` */
  function Succeed(s: State, h: nat, body: Bytes): State
    requires h < |s.hops|
  {
    if s.hops[h].settled then s else Settle(s, h).(outcome := Some(Delivered(body)))
  }

  /** The next hop takes over. */
  function Follow(s: State, h: nat): State
    requires h < |s.hops|
  {
    var t := Settle(SetPhase(s, h, Over), h);
    t.(hops := t.hops + [Fresh], redirects := s.redirects + 1, requests := s.requests + 1, abort := Some(|t.hops|))
  }

  // ---------------------------------------------------------------- the steps

  function RespondedNow(c: Config, s: State, h: nat, r: Response): State
    requires h < |s.hops|
  {
    match r
    case Redirect(location) =>
      if location == NoLocation || s.redirects >= c.maxRedirects || location != Https
      then Fail(c, SetPhase(s, h, Over), h, Failure(false, None))
      else Follow(s, h)
    case Status(retryable, retryAfterMs) => Fail(c, SetPhase(s, h, Over), h, Failure(retryable, retryAfterMs))
    case Body => SetPhase(s, h, Streaming([])).(file := s.file.(opening := c.toFile))
  }

  function DataNow(c: Config, s: State, h: nat, chunk: Bytes): State
    requires h < |s.hops| && s.hops[h].phase.Streaming?
  {
    var received := s.hops[h].phase.received + chunk;
    var t := SetPhase(s, h, Streaming(received));
    if c.maxBytes > 0 && |received| > c.maxBytes then Fail(c, t, h, Failure(false, None)) else t
  }

  /** `finish` of the file, or `end` of the response when the body is buffered. */
  function FinishedNow(c: Config, s: State, h: nat, complete: bool): State
    requires h < |s.hops| && s.hops[h].phase.Streaming?
  {
    var received := s.hops[h].phase.received;
    if s.hops[h].settled then SetPhase(s, h, Over)
    else if !complete then Fail(c, SetPhase(s, h, Over), h, Failure(true, None))
    else if c.toFile then SetPhase(s, h, Closing(received)).(file := s.file.(temp := Whole(received)))
    else Succeed(SetPhase(s, h, Over), h, received)
  }

  function ClosedNow(c: Config, s: State, h: nat, ok: bool): State
    requires h < |s.hops| && s.hops[h].phase.Closing?
  {
    var received := s.hops[h].phase.received;
    if ok then Succeed(SetPhase(s, h, Over), h, received)
    else Fail(c, SetPhase(s, h, Over), h, Failure(false, None))
  }

  function DeadlineNow(c: Config, s: State): State {
    if s.abort.Some? && s.abort.value < |s.hops| then
      var h := s.abort.value;
      Fail(c, SetHop(s, h, s.hops[h].(destroyed := true)), h, Failure(true, None))
    else if s.hops != [] then
      SetHop(s, |s.hops| - 1, s.hops[|s.hops| - 1].(destroyed := true))
    else s
  }

  /** `fs.unlink` is carried out, or fails. */
  function UnlinkedNow(s: State, ok: bool): State {
    s.(file := s.file.(
      unlinked := true, failed := !ok && s.file.temp != NoFile, temp := if ok then NoFile else s.file.temp))
  }

  /** Its callback, which takes no notice of an error. */
  function ReportedNow(s: State): State
    requires s.cleanup.Some?
  {
    s.(cleanup := None, outcome := Some(Rejected(s.cleanup.value)))
  }

  function OpenedNow(s: State): State {
    s.(file := s.file.(opening := false, temp := Partial, late := s.file.unlinked))
  }

  /**
   Which events can happen. A request that was destroyed or has failed gives no response; a file is finished only once
   it is open; there is one unlink, and it can only succeed on a file that is there; errors, stalls and the deadline can
   come at any time, also for hops that are long done with.
   */
  predicate Enabled(c: Config, s: State, e: Event) {
    match e
    case Responded(h, _) => h < |s.hops| && s.hops[h].phase.Waiting? && !s.hops[h].settled && !s.hops[h].destroyed
    case Data(h, _) => h < |s.hops| && s.hops[h].phase.Streaming?
    case Finished(h, _) => h < |s.hops| && s.hops[h].phase.Streaming? && !s.file.opening
    case Closed(h, _) => h < |s.hops| && s.hops[h].phase.Closing?
    case Broke(h, _) => h < |s.hops|
    case Idle(h) => h < |s.hops|
    case Deadline => true
    case Opened => s.file.opening
    case Unlinked(ok) => s.cleanup.Some? && !s.file.unlinked && (ok ==> s.file.temp != NoFile)
    case Reported => s.cleanup.Some? && s.file.unlinked
  }

  function Next(c: Config, s: State, e: Event): State
    requires Enabled(c, s, e)
  {
    match e
    case Responded(h, r) => RespondedNow(c, s, h, r)
    case Data(h, chunk) => DataNow(c, s, h, chunk)
    case Finished(h, complete) => FinishedNow(c, s, h, complete)
    case Closed(h, ok) => ClosedNow(c, s, h, ok)
    case Broke(h, f) => Fail(c, s, h, f)
    case Idle(h) => SetHop(s, h, s.hops[h].(destroyed := true))
    case Deadline => DeadlineNow(c, s)
    case Opened => OpenedNow(s)
    case Unlinked(ok) => UnlinkedNow(s, ok)
    case Reported => ReportedNow(s)
  }

  /** The state after a whole run. */
  function Run(c: Config, events: seq<Event>): Option<State> {
    if events == [] then Some(Initial)
    else
      var before := Run(c, events[..|events| - 1]);
      if before.Some? && Enabled(c, before.value, events[|events| - 1])
      then Some(Next(c, before.value, events[|events| - 1]))
      else None
  }

  // ---------------------------------------------------------------- what every step keeps

  /** Only the last hop can be unsettled, and there is one more hop than redirects. */
  ghost predicate HopsOk(c: Config, hops: seq<Hop>, redirects: nat, requests: nat) {
    && |hops| == redirects + 1 && requests == |hops| && redirects <= c.maxRedirects
    && forall h :: 0 <= h < |hops| - 1 ==> hops[h].settled && hops[h].phase == Over
  }

  function Last(s: State): Hop
    requires s.hops != []
  {
    s.hops[|s.hops| - 1]
  }

  /** Exactly one of: the last hop still runs and owns the deadline, an unlink is under way, the attempt has settled. */
  ghost predicate ExactlyOne(s: State)
    requires s.hops != []
  {
    if Last(s).settled then s.abort.None? && (s.cleanup.Some? <==> s.outcome.None?)
    else s.abort == Some(|s.hops| - 1) && s.cleanup.None? && s.outcome.None?
  }

  /** The temp file: there once it has been opened, and whole when it is about to be delivered. */
  ghost predicate TempOk(c: Config, hop: Hop, s: State) {
    && (!c.toFile ==>
          s.file.temp == NoFile && !s.file.opening && s.cleanup.None? && !hop.phase.Closing? && !s.file.unlinked)
    && (s.file.opening ==> hop.phase.Streaming? || hop.settled)
    && (hop.phase.Closing? && !hop.settled ==> s.file.temp == Whole(hop.phase.received) && !s.file.opening)
    && (hop.phase.Waiting? && !hop.settled ==> s.file.temp == NoFile && !s.file.opening)
    && (c.toFile && hop.phase.Streaming? && !hop.settled ==> (s.file.temp == NoFile <==> s.file.opening))
  }

  /** Once the unlink has been carried out, a file is there only if that failed or the file was opened after it. */
  ghost predicate UnlinkOk(s: State) {
    && (s.file.unlinked ==> (s.file.temp != NoFile <==> s.file.late || s.file.failed))
    && (!s.file.unlinked ==> !s.file.late && !s.file.failed)
    && (s.file.unlinked ==> s.cleanup.Some? || (s.outcome.Some? && s.outcome.value.Rejected?))
    && (s.file.late ==> !s.file.opening)
  }

  ghost predicate EndOk(c: Config, s: State) {
    s.outcome.Some? ==>
      match s.outcome.value
      case Delivered(body) => !s.file.opening && (c.toFile ==> s.file.temp == Whole(body))
      case Rejected(_) => c.toFile ==> s.file.unlinked
  }

  ghost predicate Inv(c: Config, s: State) {
    && HopsOk(c, s.hops, s.redirects, s.requests) && ExactlyOne(s)
    && TempOk(c, Last(s), s) && UnlinkOk(s) && EndOk(c, s)
  }

  lemma FailInv(c: Config, s: State, h: nat, f: Failure)
    requires Inv(c, s) && h < |s.hops| && (c.toFile || s.file.temp == NoFile)
    ensures Inv(c, Fail(c, s, h, f))
  {
  }

  /** Nothing more is expected of the running hop. */
  lemma OverInv(c: Config, s: State, h: nat)
    requires Inv(c, s) && h == |s.hops| - 1 && !s.file.opening
    ensures Inv(c, SetPhase(s, h, Over))
  {
  }

  lemma FollowInv(c: Config, s: State, h: nat)
    requires Inv(c, s) && h == |s.hops| - 1 && !Last(s).settled && s.redirects < c.maxRedirects
    requires s.file.temp == NoFile && !s.file.opening
    ensures Inv(c, Follow(s, h))
  {
  }

  lemma DestroyInv(c: Config, s: State, h: nat)
    requires Inv(c, s) && h < |s.hops|
    ensures Inv(c, SetHop(s, h, s.hops[h].(destroyed := true)))
  {
  }

  lemma SucceedInv(c: Config, s: State, h: nat, body: Bytes)
    requires Inv(c, s) && h == |s.hops| - 1 && !s.file.opening
    requires c.toFile && !Last(s).settled ==> s.file.temp == Whole(body)
    ensures Inv(c, Succeed(s, h, body))
  {
  }

  lemma RespondedInv(c: Config, s: State, h: nat, r: Response)
    requires Inv(c, s) && Enabled(c, s, Responded(h, r))
    ensures Inv(c, RespondedNow(c, s, h, r))
  {
    if !r.Body? {
      OverInv(c, s, h);
      if r.Status? {
        FailInv(c, SetPhase(s, h, Over), h, Failure(r.retryable, r.retryAfterMs));
      } else if r.location == Https && s.redirects < c.maxRedirects {
        FollowInv(c, s, h);
      } else {
        FailInv(c, SetPhase(s, h, Over), h, Failure(false, None));
      }
    }
  }

  lemma DataInv(c: Config, s: State, h: nat, chunk: Bytes)
    requires Inv(c, s) && Enabled(c, s, Data(h, chunk))
    ensures Inv(c, DataNow(c, s, h, chunk))
  {
    var t := SetPhase(s, h, Streaming(s.hops[h].phase.received + chunk));
    assert Inv(c, t);
    FailInv(c, t, h, Failure(false, None));
  }

  lemma ClosingInv(c: Config, s: State, h: nat, received: Bytes)
    requires Inv(c, s) && h == |s.hops| - 1 && !Last(s).settled && !s.file.opening && c.toFile
    ensures Inv(c, SetPhase(s, h, Closing(received)).(file := s.file.(temp := Whole(received))))
  {
  }

  lemma FinishedInv(c: Config, s: State, h: nat, complete: bool)
    requires Inv(c, s) && Enabled(c, s, Finished(h, complete))
    ensures Inv(c, FinishedNow(c, s, h, complete))
  {
    var received := s.hops[h].phase.received;
    OverInv(c, s, h);
    if !s.hops[h].settled {
      if !complete {
        FailInv(c, SetPhase(s, h, Over), h, Failure(true, None));
      } else if c.toFile {
        ClosingInv(c, s, h, received);
      } else {
        SucceedInv(c, SetPhase(s, h, Over), h, received);
      }
    }
  }

  lemma ClosedInv(c: Config, s: State, h: nat, ok: bool)
    requires Inv(c, s) && Enabled(c, s, Closed(h, ok))
    ensures Inv(c, ClosedNow(c, s, h, ok))
  {
    var t := SetPhase(s, h, Over);
    if s.file.opening {
      assert Inv(c, t);
      assert Succeed(t, h, s.hops[h].phase.received) == t;
    } else {
      OverInv(c, s, h);
      SucceedInv(c, t, h, s.hops[h].phase.received);
    }
    FailInv(c, t, h, Failure(false, None));
  }

  lemma DeadlineInv(c: Config, s: State)
    requires Inv(c, s)
    ensures Inv(c, DeadlineNow(c, s))
  {
    var h := |s.hops| - 1;
    var t := SetHop(s, h, s.hops[h].(destroyed := true));
    DestroyInv(c, s, h);
    FailInv(c, t, h, Failure(true, None));
  }

  lemma FileInv(c: Config, s: State)
    requires Inv(c, s)
    ensures s.file.opening ==> Inv(c, OpenedNow(s))
    ensures forall ok :: Enabled(c, s, Unlinked(ok)) ==> Inv(c, UnlinkedNow(s, ok))
    ensures Enabled(c, s, Reported) ==> Inv(c, ReportedNow(s))
  {
  }

  /** Every step keeps all of it. */
  lemma {:induction false} StepInv(c: Config, s: State, e: Event)
    requires Inv(c, s) && Enabled(c, s, e)
    ensures Inv(c, Next(c, s, e))
  {
    match e
    case Responded(h, r) => RespondedInv(c, s, h, r);
    case Data(h, chunk) => DataInv(c, s, h, chunk);
    case Finished(h, complete) => FinishedInv(c, s, h, complete);
    case Closed(h, ok) => ClosedInv(c, s, h, ok);
    case Broke(h, f) => FailInv(c, s, h, f);
    case Idle(h) => DestroyInv(c, s, h);
    case Deadline => DeadlineInv(c, s);
    case Opened => FileInv(c, s);
    case Unlinked(_) => FileInv(c, s);
    case Reported => FileInv(c, s);
  }

  lemma {:induction false} RunInv(c: Config, events: seq<Event>)
    requires Run(c, events).Some?
    ensures Inv(c, Run(c, events).value)
  {
    if events != [] {
      RunInv(c, events[..|events| - 1]);
      StepInv(c, Run(c, events[..|events| - 1]).value, events[|events| - 1]);
    }
  }

  // ---------------------------------------------------------------- settling

  /** Over any redirects and errors, an attempt makes at most one request more than it may follow redirects. */
  lemma RequestsBounded(c: Config, events: seq<Event>)
    requires Run(c, events).Some?
    ensures Run(c, events).value.requests <= c.maxRedirects + 1
  {
    RunInv(c, events);
  }

  lemma OutcomeStays(c: Config, s: State, e: Event)
    requires Inv(c, s) && Enabled(c, s, e) && s.outcome.Some?
    ensures Next(c, s, e).outcome == s.outcome
  {
  }

  lemma RunPrefix(c: Config, events: seq<Event>, i: nat)
    requires i < |events| && Run(c, events).Some?
    ensures Run(c, events[..|events| - 1]).Some? && events[..|events| - 1][..i] == events[..i]
  {
  }

  /** An attempt settles once: what it has settled with stays, whatever happens after that. */
  lemma {:induction false} SettlesOnce(c: Config, events: seq<Event>, i: nat)
    requires i <= |events| && Run(c, events).Some?
    ensures Run(c, events[..i]).Some?
    ensures Run(c, events[..i]).value.outcome.Some? ==>
      Run(c, events).value.outcome == Run(c, events[..i]).value.outcome
  {
    if i == |events| {
      assert events[..i] == events;
    } else {
      var before := events[..|events| - 1];
      RunPrefix(c, events, i);
      SettlesOnce(c, before, i);
      RunInv(c, before);
      if Run(c, before).value.outcome.Some? {
        OutcomeStays(c, Run(c, before).value, events[|events| - 1]);
      }
    }
  }

  /** What is left to happen once a hop has failed: the unlink, however it goes, and its callback. */
  function CleanedUp(c: Config, s: State): State
    requires s.cleanup.Some?
  {
    ReportedNow(if s.file.unlinked then s else UnlinkedNow(s, s.file.temp != NoFile))
  }

  /** It does settle: at any point of any run the deadline leaves it settled, or with nothing to come but its unlink and
      the callback of that. */
  lemma {:induction false} DeadlineSettles(c: Config, events: seq<Event>)
    requires Run(c, events).Some?
    ensures var t := Next(c, Run(c, events).value, Deadline);
      t.outcome.Some? || (t.cleanup.Some? && CleanedUp(c, t).outcome.Some?)
  {
    RunInv(c, events);
    StepInv(c, Run(c, events).value, Deadline);
  }

  // ---------------------------------------------------------------- the temp file of a rejected attempt

  predicate HasUnlink(events: seq<Event>) {
    Unlinked(true) in events || Unlinked(false) in events
  }

  predicate UnlinkFailsAt(events: seq<Event>, j: nat) {
    j < |events| && events[j] == Unlinked(false) && Opened in events[..j]
  }

  predicate OpensLateAt(events: seq<Event>, j: nat) {
    j < |events| && events[j] == Opened && HasUnlink(events[..j])
  }

  /** The unlink failed although the file had been opened. */
  ghost predicate UnlinkFails(events: seq<Event>) {
    exists j: nat :: UnlinkFailsAt(events, j)
  }

  /** The file was opened after the unlink. */
  ghost predicate OpensLate(events: seq<Event>) {
    exists j: nat :: OpensLateAt(events, j)
  }

  lemma UnlinkFailsMore(events: seq<Event>, e: Event)
    ensures UnlinkFails(events + [e]) <==> UnlinkFails(events) || (e == Unlinked(false) && Opened in events)
  {
    var all := events + [e];
    forall j: nat | j < |events| ensures UnlinkFailsAt(all, j) <==> UnlinkFailsAt(events, j) {
      assert all[..j] == events[..j];
    }
    assert all[..|events|] == events;
    assert UnlinkFailsAt(all, |events|) <==> e == Unlinked(false) && Opened in events;
  }

  lemma OpensLateMore(events: seq<Event>, e: Event)
    ensures OpensLate(events + [e]) <==> OpensLate(events) || (e == Opened && HasUnlink(events))
  {
    var all := events + [e];
    forall j: nat | j < |events| ensures OpensLateAt(all, j) <==> OpensLateAt(events, j) {
      assert all[..j] == events[..j];
    }
    assert all[..|events|] == events;
    assert OpensLateAt(all, |events|) <==> e == Opened && HasUnlink(events);
  }

  /** What the state knows of the file, in terms of what has happened. */
  ghost predicate FileTraced(events: seq<Event>, file: TempFile) {
    && (file.unlinked <==> HasUnlink(events))
    && (!file.unlinked ==> (file.temp != NoFile <==> Opened in events))
    && (file.failed <==> UnlinkFails(events))
    && (file.late <==> OpensLate(events))
  }

  /** What an event does to the file and its marks. */
  predicate FileStep(f: TempFile, e: Event, g: TempFile) {
    match e
    case Opened => !f.late && g == f.(opening := false, temp := Partial, late := f.unlinked)
    case Unlinked(ok) =>
      && !f.unlinked && !f.failed
      && g == f.(unlinked := true, failed := !ok && f.temp != NoFile, temp := if ok then NoFile else f.temp)
    case _ => (g.temp == NoFile <==> f.temp == NoFile) && g == f.(opening := g.opening, temp := g.temp)
  }

  lemma BodyFile(c: Config, s: State, e: Event)
    requires Inv(c, s) && Enabled(c, s, e) && (e.Data? || e.Finished? || e.Closed?)
    ensures FileStep(s.file, e, Next(c, s, e).file)
  {
    match e
    case Data(h, _) =>
    case Finished(h, _) =>
    case Closed(h, _) =>
  }

  lemma OtherFile(c: Config, s: State, e: Event)
    requires Inv(c, s) && Enabled(c, s, e) && !(e.Data? || e.Finished? || e.Closed?)
    ensures FileStep(s.file, e, Next(c, s, e).file)
  {
  }

  lemma FileMore(events: seq<Event>, f: TempFile, e: Event, g: TempFile)
    requires FileTraced(events, f) && FileStep(f, e, g)
    ensures FileTraced(events + [e], g)
  {
    UnlinkFailsMore(events, e);
    OpensLateMore(events, e);
  }

  lemma {:induction false} RunFile(c: Config, events: seq<Event>)
    requires Run(c, events).Some?
    ensures FileTraced(events, Run(c, events).value.file)
  {
    if events != [] {
      var before, e := events[..|events| - 1], events[|events| - 1];
      RunInv(c, before);
      RunFile(c, before);
      if e.Data? || e.Finished? || e.Closed? {
        BodyFile(c, Run(c, before).value, e);
      } else {
        OtherFile(c, Run(c, before).value, e);
      }
      FileMore(before, Run(c, before).value.file, e, Run(c, events).value.file);
      assert before + [e] == events;
    }
  }

  predicate IsRejected(s: State) {
    s.outcome.Some? && s.outcome.value.Rejected?
  }

  /** A download to a file is rejected only after its unlink has been carried out or has failed, and exactly then is a
      temp file left: the unlink failed although the file had been opened, or the file was opened after the unlink. */
  lemma TempLeftExactlyWhen(c: Config, events: seq<Event>)
    requires c.toFile && Run(c, events).Some? && IsRejected(Run(c, events).value)
    ensures HasUnlink(events)
    ensures Run(c, events).value.file.temp != NoFile <==> UnlinkFails(events) || OpensLate(events)
  {
    RunInv(c, events);
    RunFile(c, events);
  }

  lemma RunMore(c: Config, events: seq<Event>, e: Event, s: State)
    requires Run(c, events) == Some(s) && Enabled(c, s, e)
    ensures Run(c, events + [e]) == Some(Next(c, s, e))
  {
    assert (events + [e])[..|events|] == events;
  }

  /** A deadline during the download of a 200 body, with the file open or not when it is unlinked. */
  function StoppedRun(openedFirst: bool, ok: bool): seq<Event> {
    if openedFirst then [Responded(0, Body), Opened, Deadline, Unlinked(ok), Reported]
    else [Responded(0, Body), Deadline, Unlinked(ok), Opened, Reported]
  }

  /** Both ways of leaving a file happen: an unlink that fails, and a file opened after its unlink. */
  lemma TempFileIsLeft(c: Config)
    requires c.toFile
    ensures Run(c, StoppedRun(true, false)).Some? && IsRejected(Run(c, StoppedRun(true, false)).value)
    ensures Run(c, StoppedRun(true, false)).value.file.temp != NoFile && !OpensLate(StoppedRun(true, false))
    ensures Run(c, StoppedRun(false, false)).Some? && IsRejected(Run(c, StoppedRun(false, false)).value)
    ensures Run(c, StoppedRun(false, false)).value.file.temp != NoFile && !UnlinkFails(StoppedRun(false, false))
  {
    UnlinkIsRefused(c);
    OpenComesLate(c);
  }

  lemma UnlinkIsRefused(c: Config)
    requires c.toFile
    ensures Run(c, StoppedRun(true, false)).Some? && IsRejected(Run(c, StoppedRun(true, false)).value)
    ensures Run(c, StoppedRun(true, false)).value.file.temp != NoFile && !OpensLate(StoppedRun(true, false))
  {
    var s0 := Initial;
    var s1 := Next(c, s0, Responded(0, Body));
    var s2 := Next(c, s1, Opened);
    var s3 := Next(c, s2, Deadline);
    var s4 := Next(c, s3, Unlinked(false));
    var e := [Responded(0, Body)];
    RunMore(c, [], Responded(0, Body), s0);
    assert [] + [Responded(0, Body)] == e;
    RunMore(c, e, Opened, s1);
    RunMore(c, e + [Opened], Deadline, s2);
    RunMore(c, e + [Opened] + [Deadline], Unlinked(false), s3);
    RunMore(c, e + [Opened] + [Deadline] + [Unlinked(false)], Reported, s4);
    assert e + [Opened] + [Deadline] + [Unlinked(false)] + [Reported] == StoppedRun(true, false);
    RunFile(c, StoppedRun(true, false));
  }

  lemma OpenComesLate(c: Config)
    requires c.toFile
    ensures Run(c, StoppedRun(false, false)).Some? && IsRejected(Run(c, StoppedRun(false, false)).value)
    ensures Run(c, StoppedRun(false, false)).value.file.temp != NoFile && !UnlinkFails(StoppedRun(false, false))
  {
    var s0 := Initial;
    var s1 := Next(c, s0, Responded(0, Body));
    var s2 := Next(c, s1, Deadline);
    var s3 := Next(c, s2, Unlinked(false));
    var s4 := Next(c, s3, Opened);
    var e := [Responded(0, Body)];
    RunMore(c, [], Responded(0, Body), s0);
    assert [] + [Responded(0, Body)] == e;
    RunMore(c, e, Deadline, s1);
    RunMore(c, e + [Deadline], Unlinked(false), s2);
    RunMore(c, e + [Deadline] + [Unlinked(false)], Opened, s3);
    RunMore(c, e + [Deadline] + [Unlinked(false)] + [Opened], Reported, s4);
    assert e + [Deadline] + [Unlinked(false)] + [Opened] + [Reported] == StoppedRun(false, false);
    RunFile(c, StoppedRun(false, false));
  }

  // ---------------------------------------------------------------- what is delivered

  /** The chunks that hop `h` has received, put together. */
  function BodyOf(events: seq<Event>, h: nat): Bytes {
    if events == [] then []
    else
      var before, e := BodyOf(events[..|events| - 1], h), events[|events| - 1];
      if e.Data? && e.hop == h then before + e.chunk else before
  }

  ghost predicate Received(events: seq<Event>, h: nat, body: Bytes) {
    Responded(h, Body) in events && BodyOf(events, h) == body
  }

  /** Hop `h` answered 200, and what it sent until it finished, complete, is `body`. */
  ghost predicate Complete200(events: seq<Event>, h: nat, body: Bytes) {
    Received(events, h, body) && Finished(h, true) in events
  }

  ghost predicate HopTraced(events: seq<Event>, h: nat, phase: Phase) {
    match phase
    case Waiting => BodyOf(events, h) == []
    case Streaming(received) => Received(events, h, received)
    case Closing(received) => Complete200(events, h, received)
    case Over => true
  }

  /** ... and in a download to a file, the file was closed without an error. */
  ghost predicate Taken200(c: Config, events: seq<Event>, h: nat, body: Bytes) {
    Complete200(events, h, body) && (c.toFile ==> Closed(h, true) in events)
  }

  ghost predicate DeliveredTraced(c: Config, events: seq<Event>, hops: seq<Hop>, body: Bytes) {
    exists h :: 0 <= h < |hops| && hops[h].phase.Over? && Taken200(c, events, h, body)
  }

  ghost predicate Traced(c: Config, events: seq<Event>, s: State) {
    && HopsTraced(events, s.hops)
    && (s.outcome.Some? && s.outcome.value.Delivered? ==> DeliveredTraced(c, events, s.hops, s.outcome.value.body))
  }

  lemma BodyAppend(events: seq<Event>, e: Event, h: nat)
    ensures BodyOf(events + [e], h) == BodyOf(events, h) + if e.Data? && e.hop == h then e.chunk else []
  {
    assert (events + [e])[..|events|] == events;
  }

  /** How an event can move a hop from one phase to the next. */
  predicate Moves(p: Phase, e: Event, h: nat, q: Phase) {
    || (q == p && (e.Data? && e.hop == h ==> !p.Streaming?))
    || (p.Waiting? && e == Responded(h, Body) && q == Streaming([]))
    || (p.Streaming? && e.Data? && e.hop == h && q == Streaming(p.received + e.chunk))
    || (p.Streaming? && e == Finished(h, true) && q == Closing(p.received))
    || q.Over?
  }

  lemma RespondedMoves(c: Config, s: State, h: nat, r: Response, k: nat)
    requires Enabled(c, s, Responded(h, r)) && k < |s.hops|
    ensures |s.hops| <= |RespondedNow(c, s, h, r).hops| <= |s.hops| + 1
    ensures Moves(s.hops[k].phase, Responded(h, r), k, RespondedNow(c, s, h, r).hops[k].phase)
    ensures |RespondedNow(c, s, h, r).hops| == |s.hops| + 1 ==> RespondedNow(c, s, h, r).hops[|s.hops|] == Fresh
  {
  }

  lemma BodyMoves(c: Config, s: State, e: Event, k: nat)
    requires Enabled(c, s, e) && (e.Data? || e.Finished? || e.Closed?) && k < |s.hops|
    ensures |Next(c, s, e).hops| == |s.hops| && Moves(s.hops[k].phase, e, k, Next(c, s, e).hops[k].phase)
  {
    match e
    case Data(h, chunk) =>
    case Finished(h, complete) =>
    case Closed(h, ok) =>
  }

  lemma OtherMoves(c: Config, s: State, e: Event, k: nat)
    requires Enabled(c, s, e) && k < |s.hops|
    requires e.Broke? || e.Idle? || e.Deadline? || e.Opened? || e.Unlinked? || e.Reported?
    ensures |Next(c, s, e).hops| == |s.hops| && Moves(s.hops[k].phase, e, k, Next(c, s, e).hops[k].phase)
  {
  }

  lemma {:induction false} StepMoves(c: Config, s: State, e: Event, t: State, k: nat)
    requires Enabled(c, s, e) && t == Next(c, s, e) && k < |s.hops|
    ensures |s.hops| <= |t.hops| <= |s.hops| + 1
    ensures Moves(s.hops[k].phase, e, k, t.hops[k].phase)
    ensures |t.hops| == |s.hops| + 1 ==> t.hops[|s.hops|] == Fresh
  {
    match e
    case Responded(h, r) => RespondedMoves(c, s, h, r, k);
    case Data(_, _) => BodyMoves(c, s, e, k);
    case Finished(_, _) => BodyMoves(c, s, e, k);
    case Closed(_, _) => BodyMoves(c, s, e, k);
    case _ => OtherMoves(c, s, e, k);
  }

  lemma MovesTraced(events: seq<Event>, e: Event, h: nat, p: Phase, q: Phase)
    requires HopTraced(events, h, p) && Moves(p, e, h, q) && (p.Waiting? && e.Data? ==> e.hop != h)
    requires p.Closing? && e.Data? ==> e.hop != h
    ensures HopTraced(events + [e], h, q)
  {
    BodyAppend(events, e, h);
  }

  ghost predicate HopsTraced(events: seq<Event>, hops: seq<Hop>) {
    && (forall h :: 0 <= h < |hops| ==> HopTraced(events, h, hops[h].phase))
    && (forall h :: h >= |hops| ==> BodyOf(events, h) == [])
  }

  predicate DataFits(hops: seq<Hop>, e: Event) {
    e.Data? ==> e.hop < |hops| && hops[e.hop].phase.Streaming?
  }

  predicate MovesAt(p: seq<Hop>, e: Event, q: seq<Hop>, k: nat) {
    k < |p| && k < |q| && Moves(p[k].phase, e, k, q[k].phase)
  }

  lemma HopMovesTraced(events: seq<Event>, e: Event, p: seq<Hop>, q: seq<Hop>, h: nat)
    requires HopsTraced(events, p) && DataFits(p, e) && h < |q|
    requires h < |p| ==> MovesAt(p, e, q, h)
    requires h >= |p| ==> q[h] == Fresh
    ensures HopTraced(events + [e], h, q[h].phase)
  {
    if h < |p| {
      MovesTraced(events, e, h, p[h].phase, q[h].phase);
    } else {
      BodyAppend(events, e, h);
    }
  }

  lemma NoHopNoBody(events: seq<Event>, e: Event, p: seq<Hop>, h: nat)
    requires HopsTraced(events, p) && DataFits(p, e) && h >= |p|
    ensures BodyOf(events + [e], h) == []
  {
    BodyAppend(events, e, h);
  }

  lemma AllMovesTraced(events: seq<Event>, e: Event, p: seq<Hop>, q: seq<Hop>)
    requires HopsTraced(events, p) && DataFits(p, e) && |p| <= |q| <= |p| + 1
    requires forall k :: 0 <= k < |p| ==> MovesAt(p, e, q, k)
    requires |q| == |p| + 1 ==> q[|p|] == Fresh
    ensures HopsTraced(events + [e], q)
  {
    forall h | 0 <= h < |q| ensures HopTraced(events + [e], h, q[h].phase) {
      HopMovesTraced(events, e, p, q, h);
    }
    forall h | h >= |q| ensures BodyOf(events + [e], h) == [] {
      NoHopNoBody(events, e, p, h);
    }
  }

  lemma {:induction false} StepMovesAll(c: Config, s: State, e: Event, t: State)
    requires s.hops != [] && Enabled(c, s, e) && t == Next(c, s, e)
    ensures DataFits(s.hops, e) && |s.hops| <= |t.hops| <= |s.hops| + 1
    ensures forall k :: 0 <= k < |s.hops| ==> MovesAt(s.hops, e, t.hops, k)
    ensures |t.hops| == |s.hops| + 1 ==> t.hops[|s.hops|] == Fresh
  {
    StepMoves(c, s, e, t, 0);
    forall k | 0 <= k < |s.hops| ensures MovesAt(s.hops, e, t.hops, k) {
      StepMoves(c, s, e, t, k);
    }
  }

  predicate NoDelivery(before: Option<Outcome>, after: Option<Outcome>) {
    after == before || (after.Some? && after.value.Rejected?)
  }

  lemma FailDelivers(c: Config, s: State, h: nat, f: Failure)
    requires h < |s.hops|
    ensures NoDelivery(s.outcome, Fail(c, s, h, f).outcome)
  {
  }

  lemma RespondedDelivers(c: Config, s: State, h: nat, r: Response)
    requires h < |s.hops|
    ensures NoDelivery(s.outcome, RespondedNow(c, s, h, r).outcome)
  {
  }

  lemma DataDelivers(c: Config, s: State, h: nat, chunk: Bytes)
    requires h < |s.hops| && s.hops[h].phase.Streaming?
    ensures NoDelivery(s.outcome, DataNow(c, s, h, chunk).outcome)
  {
  }

  lemma DeadlineDelivers(c: Config, s: State)
    ensures NoDelivery(s.outcome, DeadlineNow(c, s).outcome)
  {
  }

  ghost predicate DeliversOver(t: State, h: nat, body: Bytes) {
    t.outcome == Some(Delivered(body)) && h < |t.hops| && t.hops[h].phase.Over?
  }

  lemma FinishedDelivers(c: Config, s: State, h: nat, complete: bool)
    requires h < |s.hops| && s.hops[h].phase.Streaming?
    ensures var t := FinishedNow(c, s, h, complete);
      || NoDelivery(s.outcome, t.outcome)
      || (complete && !c.toFile && DeliversOver(t, h, s.hops[h].phase.received))
  {
  }

  lemma ClosedDelivers(c: Config, s: State, h: nat, ok: bool)
    requires h < |s.hops| && s.hops[h].phase.Closing?
    ensures var t := ClosedNow(c, s, h, ok);
      NoDelivery(s.outcome, t.outcome) || (ok && DeliversOver(t, h, s.hops[h].phase.received))
  {
  }

  /** What a step delivers, it delivers for the hop it is about. */
  lemma DeliversFor(c: Config, s: State, e: Event, t: State)
    requires Enabled(c, s, e) && t == Next(c, s, e) && !NoDelivery(s.outcome, t.outcome)
    ensures (e.Finished? && e.complete && !c.toFile) || (e.Closed? && e.ok)
    ensures e.Finished? ==> DeliversOver(t, e.hop, s.hops[e.hop].phase.received)
    ensures e.Closed? ==> DeliversOver(t, e.hop, s.hops[e.hop].phase.received)
  {
    match e
    case Responded(h, r) => RespondedDelivers(c, s, h, r);
    case Data(h, chunk) => DataDelivers(c, s, h, chunk);
    case Finished(h, complete) => FinishedDelivers(c, s, h, complete);
    case Closed(h, ok) => ClosedDelivers(c, s, h, ok);
    case Broke(h, f) => FailDelivers(c, s, h, f);
    case Idle(h) =>
    case Deadline => DeadlineDelivers(c, s);
    case Opened =>
    case Unlinked(_) =>
    case Reported =>
  }

  lemma DeliveredStays(c: Config, events: seq<Event>, s: State, e: Event, t: State, body: Bytes)
    requires Enabled(c, s, e) && t == Next(c, s, e) && DeliveredTraced(c, events, s.hops, body)
    ensures DeliveredTraced(c, events + [e], t.hops, body)
  {
    var h :| 0 <= h < |s.hops| && s.hops[h].phase.Over? && Taken200(c, events, h, body);
    StepMoves(c, s, e, t, h);
    assert DataFits(s.hops, e);
    BodyAppend(events, e, h);
    assert Taken200(c, events + [e], h, body);
  }

  lemma NewlyDelivered(c: Config, events: seq<Event>, s: State, e: Event, t: State)
    requires HopsTraced(events, s.hops)
    requires (e.Finished? && e.complete && !c.toFile) || (e.Closed? && e.ok)
    requires e.hop < |s.hops|
    requires if e.Finished? then s.hops[e.hop].phase.Streaming? else s.hops[e.hop].phase.Closing?
    requires DeliversOver(t, e.hop, s.hops[e.hop].phase.received)
    ensures DeliveredTraced(c, events + [e], t.hops, t.outcome.value.body)
  {
    assert HopTraced(events, e.hop, s.hops[e.hop].phase);
    BodyAppend(events, e, e.hop);
    assert Taken200(c, events + [e], e.hop, t.outcome.value.body);
  }

  lemma StepTraced(c: Config, events: seq<Event>, s: State, e: Event, t: State)
    requires Inv(c, s) && Traced(c, events, s) && Enabled(c, s, e) && t == Next(c, s, e)
    ensures Traced(c, events + [e], t)
  {
    StepMovesAll(c, s, e, t);
    AllMovesTraced(events, e, s.hops, t.hops);
    if t.outcome.Some? && t.outcome.value.Delivered? {
      if NoDelivery(s.outcome, t.outcome) {
        DeliveredStays(c, events, s, e, t, t.outcome.value.body);
      } else {
        DeliversFor(c, s, e, t);
        NewlyDelivered(c, events, s, e, t);
      }
    }
  }

  lemma {:induction false} RunTraced(c: Config, events: seq<Event>)
    requires Run(c, events).Some?
    ensures Traced(c, events, Run(c, events).value)
  {
    if events != [] {
      var before, e := events[..|events| - 1], events[|events| - 1];
      RunInv(c, before);
      RunTraced(c, before);
      StepTraced(c, before, Run(c, before).value, e, Run(c, events).value);
      assert before + [e] == events;
    }
  }

  /** An attempt that delivers has delivered one complete body of a 200 response, byte for byte as it came in; in a
      download to a file the temp file holds it, and was closed without an error. */
  lemma DeliversWhole200(c: Config, events: seq<Event>, body: Bytes)
    requires Run(c, events).Some? && Run(c, events).value.outcome == Some(Delivered(body))
    ensures exists h :: Taken200(c, events, h, body)
    ensures c.toFile ==> Run(c, events).value.file.temp == Whole(body)
  {
    RunInv(c, events);
    RunTraced(c, events);
  }

  // ---------------------------------------------------------------- the destination of a retried download

  /** One attempt of `downloadToFile`: what happened, and whether the rename that follows a delivery worked. */
  datatype Try = Try(events: seq<Event>, renamed: bool)

  predicate Possible(c: Config, t: Try) {
    Run(c, t.events).Some? && Run(c, t.events).value.outcome.Some?
  }

  predicate Lands(c: Config, t: Try) {
    Possible(c, t) && Run(c, t.events).value.file.temp.Whole?
    && Run(c, t.events).value.outcome.value.Delivered? && t.renamed
  }

  /** `renameSync(tempPath, destination)` after a delivery; the loop stops at the first attempt that lands. */
  function Destination(c: Config, tries: seq<Try>, dest: Option<Bytes>): Option<Bytes> {
    if tries == [] then dest
    else if Lands(c, tries[0]) then Some(Run(c, tries[0].events).value.file.temp.body)
    else Destination(c, tries[1..], dest)
  }

  ghost predicate WholeBodyOf(c: Config, t: Try, body: Bytes) {
    Lands(c, t) && exists h :: Taken200(c, t.events, h, body)
  }

  /** Over a whole retried download the destination is what it was, if no attempt landed, or one complete 200 body. */
  lemma {:induction false} DestinationWholeOrUntouched(c: Config, tries: seq<Try>, dest: Option<Bytes>)
    requires c.toFile && forall i :: 0 <= i < |tries| ==> Possible(c, tries[i])
    ensures (forall i :: 0 <= i < |tries| ==> !Lands(c, tries[i])) ==> Destination(c, tries, dest) == dest
    ensures (exists i :: 0 <= i < |tries| && Lands(c, tries[i])) ==>
      Destination(c, tries, dest).Some?
      && exists i :: 0 <= i < |tries| && WholeBodyOf(c, tries[i], Destination(c, tries, dest).value)
  {
    if tries != [] {
      if Lands(c, tries[0]) {
        var body := Run(c, tries[0].events).value.outcome.value.body;
        DeliversWhole200(c, tries[0].events, body);
        assert WholeBodyOf(c, tries[0], body);
      } else {
        var rest := tries[1..];
        DestinationWholeOrUntouched(c, rest, dest);
        forall i | 0 < i < |tries| ensures tries[i] == rest[i - 1] {
        }
        if exists i :: 0 <= i < |tries| && Lands(c, tries[i]) {
          var i :| 0 <= i < |tries| && Lands(c, tries[i]);
          assert Lands(c, rest[i - 1]);
          var j :| 0 <= j < |rest| && WholeBodyOf(c, rest[j], Destination(c, rest, dest).value);
          assert WholeBodyOf(c, tries[j + 1], Destination(c, tries, dest).value);
        }
      }
    }
  }
}
