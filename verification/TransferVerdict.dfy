/**
 What becomes of a download attempt, told from its events alone: the first decisive event of the request that is running
 decides, and nothing else does.
 */
module TransferVerdict {
  import opened Transfer

  /** Request `hop` is running, or the attempt has been decided. */
  datatype Verdict = Going(hop: nat) | Done(outcome: Outcome)

  function Refuse(retryable: bool): Verdict {
    Done(Rejected(Failure(retryable, None)))
  }

  /** What `e` decides while request `h` is running, which is also the number of redirects followed. */
  function Decide(c: Config, before: seq<Event>, h: nat, e: Event): Verdict {
    match e
    case Responded(_, Redirect(location)) =>
      if location == Https && h < c.maxRedirects then Going(h + 1) else Refuse(false)
    case Responded(_, Status(retryable, retryAfterMs)) => Done(Rejected(Failure(retryable, retryAfterMs)))
    case Responded(_, Body) => Going(h)
    case Data(_, chunk) => if 0 < c.maxBytes < |BodyOf(before, h)| + |chunk| then Refuse(false) else Going(h)
    case Finished(_, complete) =>
      if !complete then Refuse(true) else if c.toFile then Going(h) else Done(Delivered(BodyOf(before, h)))
    case Closed(_, ok) => if ok then Done(Delivered(BodyOf(before, h))) else Refuse(false)
    case Broke(_, failure) => Done(Rejected(failure))
    case Deadline => Refuse(true)
    case _ => Going(h)
  }

  /** Events of other requests decide nothing. */
  predicate Concerns(e: Event, h: nat) {
    match e
    case Responded(k, _) => k == h
    case Data(k, _) => k == h
    case Finished(k, _) => k == h
    case Closed(k, _) => k == h
    case Broke(k, _) => k == h
    case _ => true
  }

  function Judge(c: Config, events: seq<Event>): Verdict {
    if events == [] then Going(0)
    else
      var before, e := events[..|events| - 1], events[|events| - 1];
      var v := Judge(c, before);
      if v.Going? && Concerns(e, v.hop) then Decide(c, before, v.hop, e) else v
  }

  /** The state agrees with the verdict; a rejected download to a file waits for the unlink to call back. */
  ghost predicate Agrees(c: Config, s: State, v: Verdict, reported: bool)
    requires s.hops != []
  {
    match v
    case Going(h) =>
      h == |s.hops| - 1 && h == s.redirects && !Last(s).settled && s.outcome.None? && s.cleanup.None? && !reported
    case Done(Delivered(body)) => Last(s).settled && s.outcome == Some(Delivered(body)) && s.cleanup.None? && !reported
    case Done(Rejected(f)) =>
      Last(s).settled && if c.toFile && !reported then s.outcome.None? && s.cleanup == Some(f)
                         else s.outcome == Some(Rejected(f)) && s.cleanup.None?
  }

  lemma DoneAgrees(c: Config, s: State, e: Event, v: Verdict, reported: bool)
    requires Inv(c, s) && Enabled(c, s, e) && v.Done? && Agrees(c, s, v, reported)
    ensures Next(c, s, e).hops != [] && Agrees(c, Next(c, s, e), v, reported || e == Reported)
  {
  }

  lemma OtherAgrees(c: Config, s: State, e: Event, v: Verdict)
    requires Inv(c, s) && Enabled(c, s, e) && v.Going? && !Concerns(e, v.hop) && Agrees(c, s, v, false)
    ensures Next(c, s, e).hops != [] && Agrees(c, Next(c, s, e), v, false)
  {
  }

  lemma ResponseAgrees(c: Config, events: seq<Event>, s: State, h: nat, r: Response)
    requires Inv(c, s) && Enabled(c, s, Responded(h, r)) && Agrees(c, s, Going(h), false)
    ensures var t := RespondedNow(c, s, h, r);
      t.hops != [] && Agrees(c, t, Decide(c, events, h, Responded(h, r)), false)
  {
  }

  lemma BodyAgrees(c: Config, events: seq<Event>, s: State, h: nat, e: Event)
    requires Inv(c, s) && Traced(c, events, s) && Enabled(c, s, e) && Agrees(c, s, Going(h), false)
    requires (e.Data? || e.Finished? || e.Closed?) && e.hop == h
    ensures Next(c, s, e).hops != [] && Agrees(c, Next(c, s, e), Decide(c, events, h, e), false)
  {
    assert HopTraced(events, h, s.hops[h].phase);
    match e
    case Data(_, _) =>
    case Finished(_, _) =>
    case Closed(_, _) =>
  }

  lemma RestAgrees(c: Config, events: seq<Event>, s: State, h: nat, e: Event)
    requires Inv(c, s) && Enabled(c, s, e) && Concerns(e, h) && Agrees(c, s, Going(h), false)
    requires !e.Responded? && !e.Data? && !e.Finished? && !e.Closed?
    ensures e != Reported && Next(c, s, e).hops != [] && Agrees(c, Next(c, s, e), Decide(c, events, h, e), false)
  {
  }

  lemma StepAgrees(c: Config, events: seq<Event>, s: State, e: Event, v: Verdict, reported: bool)
    requires Inv(c, s) && Traced(c, events, s) && Enabled(c, s, e) && Agrees(c, s, v, reported)
    ensures Next(c, s, e).hops != []
    ensures Agrees(c, Next(c, s, e), if v.Going? && Concerns(e, v.hop) then Decide(c, events, v.hop, e) else v,
      reported || e == Reported)
  {
    if v.Done? {
      DoneAgrees(c, s, e, v, reported);
    } else if !Concerns(e, v.hop) {
      OtherAgrees(c, s, e, v);
    } else if e.Responded? {
      ResponseAgrees(c, events, s, v.hop, e.response);
    } else if e.Data? || e.Finished? || e.Closed? {
      BodyAgrees(c, events, s, v.hop, e);
    } else {
      RestAgrees(c, events, s, v.hop, e);
    }
  }

  /** In every run, the first decisive event of the running request decides how the attempt ends. */
  lemma {:induction false} RunIsJudged(c: Config, events: seq<Event>)
    requires Run(c, events).Some?
    ensures Run(c, events).value.hops != []
    ensures Agrees(c, Run(c, events).value, Judge(c, events), Reported in events)
  {
    if events != [] {
      var before, e := events[..|events| - 1], events[|events| - 1];
      RunInv(c, before);
      RunTraced(c, before);
      RunIsJudged(c, before);
      StepAgrees(c, before, Run(c, before).value, e, Judge(c, before), Reported in before);
      assert events == before + [e];
    }
  }

  // ---------------------------------------------------------------- how attempts end

  lemma JudgeMore(c: Config, events: seq<Event>, e: Event)
    ensures Judge(c, events + [e])
      == var v := Judge(c, events); if v.Going? && Concerns(e, v.hop) then Decide(c, events, v.hop, e) else v
  {
    assert (events + [e])[..|events|] == events;
  }

  lemma {:induction false} JudgedStays(c: Config, events: seq<Event>, more: seq<Event>)
    requires Judge(c, events).Done?
    ensures Judge(c, events + more) == Judge(c, events)
    decreases |more|
  {
    if more == [] {
      assert events + more == events;
    } else {
      JudgedStays(c, events, more[..|more| - 1]);
      assert (events + more)[..|events + more| - 1] == events + more[..|more| - 1];
    }
  }

  lemma Extends(c: Config, events: seq<Event>, e: Event)
    requires Run(c, events).Some? && Enabled(c, Run(c, events).value, e)
    ensures Run(c, events + [e]).Some? && (Reported in events + [e] <==> Reported in events || e == Reported)
    ensures Run(c, events + [e]).value.hops != []
    ensures Agrees(c, Run(c, events + [e]).value, Judge(c, events + [e]), Reported in events + [e])
  {
    RunMore(c, events, e, Run(c, events).value);
    RunIsJudged(c, events + [e]);
  }

  /** Request `h` has not been settled, and waits for its file to close, or takes in a body to buffer. */
  ghost predicate About(c: Config, s: State, h: nat) {
    h < |s.hops| && !s.hops[h].settled && if c.toFile then s.hops[h].phase.Closing? else s.hops[h].phase.Streaming?
  }

  /** The event that ends a body well: the file is closed, or the response has ended complete. */
  function Ending(c: Config, h: nat, ok: bool): Event {
    if c.toFile then Closed(h, ok) else Finished(h, ok)
  }

  lemma AboutIsLast(c: Config, events: seq<Event>, h: nat)
    requires Run(c, events).Some? && About(c, Run(c, events).value, h)
    ensures Judge(c, events) == Going(h) && Reported !in events
    ensures forall ok :: Enabled(c, Run(c, events).value, Ending(c, h, ok))
  {
    RunInv(c, events);
    RunIsJudged(c, events);
  }

  /** A body that ends well is delivered, as it came in; one that does not is rejected for good. */
  lemma GoodEndDelivers(c: Config, events: seq<Event>, h: nat, more: seq<Event>)
    requires Run(c, events).Some? && About(c, Run(c, events).value, h)
    ensures Run(c, events + [Ending(c, h, true)]).Some?
    ensures Run(c, events + [Ending(c, h, true)]).value.outcome == Some(Delivered(BodyOf(events, h)))
    ensures Run(c, events + [Ending(c, h, false)]).Some?
    ensures Run(c, events + [Ending(c, h, false)] + more).Some? ==>
      var o := Run(c, events + [Ending(c, h, false)] + more).value.outcome; o.Some? ==> o.value.Rejected?
  {
    AboutIsLast(c, events, h);
    JudgeMore(c, events, Ending(c, h, true));
    Extends(c, events, Ending(c, h, true));
    JudgeMore(c, events, Ending(c, h, false));
    Extends(c, events, Ending(c, h, false));
    if Run(c, events + [Ending(c, h, false)] + more).Some? {
      JudgedStays(c, events + [Ending(c, h, false)], more);
      RunIsJudged(c, events + [Ending(c, h, false)] + more);
    }
  }

  /** An https redirect within the limit is followed: one more request, and nothing is settled. */
  lemma RedirectIsFollowed(c: Config, events: seq<Event>, h: nat)
    requires Run(c, events).Some? && Enabled(c, Run(c, events).value, Responded(h, Redirect(Https)))
    requires h < c.maxRedirects
    ensures var all := events + [Responded(h, Redirect(Https))];
      && Run(c, all).Some? && Run(c, all).value.requests == Run(c, events).value.requests + 1
      && Run(c, all).value.outcome.None? && Run(c, all).value.cleanup.None? && Judge(c, all) == Going(h + 1)
  {
    RunInv(c, events);
    RunIsJudged(c, events);
    JudgeMore(c, events, Responded(h, Redirect(Https)));
    Extends(c, events, Responded(h, Redirect(Https)));
    RunInv(c, events + [Responded(h, Redirect(Https))]);
  }

  // ---------------------------------------------------------------- a good download

  function Datas(chunks: seq<Bytes>): seq<Event> {
    if chunks == [] then [] else Datas(chunks[..|chunks| - 1]) + [Data(0, chunks[|chunks| - 1])]
  }

  function Concat(chunks: seq<Bytes>): Bytes {
    if chunks == [] then [] else Concat(chunks[..|chunks| - 1]) + chunks[|chunks| - 1]
  }

  /** A 200 response, the file opened if there is one, and chunks. */
  function Coming(c: Config, chunks: seq<Bytes>): seq<Event> {
    (if c.toFile then [Responded(0, Body), Opened] else [Responded(0, Body)]) + Datas(chunks)
  }

  lemma {:induction false} ChunksCome(c: Config, chunks: seq<Bytes>)
    requires c.maxBytes == 0 || |Concat(chunks)| <= c.maxBytes
    ensures Run(c, Coming(c, chunks)).Some? && BodyOf(Coming(c, chunks), 0) == Concat(chunks)
    ensures var s := Run(c, Coming(c, chunks)).value;
      |s.hops| == 1 && !s.hops[0].settled && s.hops[0].phase == Streaming(Concat(chunks)) && !s.file.opening
  {
    if chunks == [] {
      var start := [Responded(0, Body)];
      var s := Next(c, Initial, Responded(0, Body));
      assert start[..0] == [] && Run(c, []) == Some(Initial);
      assert Run(c, start) == Some(s);
      assert [Responded(0, Body), Opened][..1] == start;
      assert Coming(c, chunks) == if c.toFile then [Responded(0, Body), Opened] else start;
    } else {
      var before, chunk := chunks[..|chunks| - 1], chunks[|chunks| - 1];
      ChunksCome(c, before);
      assert Coming(c, chunks) == Coming(c, before) + [Data(0, chunk)];
      BodyAppend(Coming(c, before), Data(0, chunk), 0);
      RunMore(c, Coming(c, before), Data(0, chunk), Run(c, Coming(c, before)).value);
    }
  }

  /** A 200 body within the limit, complete, and closed without an error when it goes to a file, is delivered. */
  lemma GoodDownload(c: Config, chunks: seq<Bytes>)
    requires c.maxBytes == 0 || |Concat(chunks)| <= c.maxBytes
    ensures
      var end := if c.toFile then [Finished(0, true), Closed(0, true)] else [Finished(0, true)];
      var all := Coming(c, chunks) + end;
      Run(c, all).Some? && Run(c, all).value.outcome == Some(Delivered(Concat(chunks)))
  {
    ChunksCome(c, chunks);
    var events := Coming(c, chunks);
    if c.toFile {
      RunMore(c, events, Finished(0, true), Run(c, events).value);
      BodyAppend(events, Finished(0, true), 0);
      GoodEndDelivers(c, events + [Finished(0, true)], 0, []);
      assert events + [Finished(0, true)] + [Closed(0, true)] == events + [Finished(0, true), Closed(0, true)];
    } else {
      GoodEndDelivers(c, events, 0, []);
    }
  }

  // ---------------------------------------------------------------- aborted requests

  /** A request that has stalled is destroyed, and gives no response any more. */
  lemma {:induction false} StalledIsDestroyed(c: Config, events: seq<Event>, h: nat, r: Response)
    requires Run(c, events).Some? && Idle(h) in events
    ensures h < |Run(c, events).value.hops| && Run(c, events).value.hops[h].destroyed
    ensures !Enabled(c, Run(c, events).value, Responded(h, r))
  {
    var before, e := events[..|events| - 1], events[|events| - 1];
    if Idle(h) in before {
      StalledIsDestroyed(c, before, h, r);
      DestroyedStays(c, Run(c, before).value, e, h);
    } else {
      assert events == before + [e];
      assert e == Idle(h);
    }
  }

  lemma DestroyedStays(c: Config, s: State, e: Event, h: nat)
    requires Enabled(c, s, e) && h < |s.hops| && s.hops[h].destroyed
    ensures h < |Next(c, s, e).hops| && Next(c, s, e).hops[h].destroyed
  {
  }

  /** The deadline destroys the last request, whether it is still running or not. */
  lemma DeadlineDestroys(c: Config, events: seq<Event>)
    requires Run(c, events).Some?
    ensures var s := Next(c, Run(c, events).value, Deadline); s.hops != [] && Last(s).destroyed
  {
    RunInv(c, events);
  }

  // ---------------------------------------------------------------- the destination

  predicate Misses(c: Config, t: Try) {
    Possible(c, t) && (IsRejected(Run(c, t.events).value) || !t.renamed)
  }

  predicate Hits(c: Config, t: Try, body: Bytes) {
    Possible(c, t) && Run(c, t.events).value.outcome == Some(Delivered(body)) && t.renamed
  }

  lemma HitsLand(c: Config, t: Try, body: Bytes)
    requires c.toFile && Hits(c, t, body)
    ensures Lands(c, t) && Run(c, t.events).value.file.temp == Whole(body)
  {
    DeliversWhole200(c, t.events, body);
  }

  /** The destination of a retried download is the body of the first attempt that was delivered and renamed. */
  lemma {:induction false} FirstLanded(c: Config, tries: seq<Try>, dest: Option<Bytes>, i: nat, body: Bytes)
    requires c.toFile && i < |tries| && Hits(c, tries[i], body)
    requires forall j :: 0 <= j < i ==> Misses(c, tries[j])
    ensures Destination(c, tries, dest) == Some(body)
  {
    if i == 0 {
      HitsLand(c, tries[0], body);
    } else {
      assert Misses(c, tries[0]);
      FirstLanded(c, tries[1..], dest, i - 1, body);
    }
  }
}
