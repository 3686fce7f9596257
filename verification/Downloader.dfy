/** The closures of `performRequest` and `runAttempt` in scripts/lib/fetch-with-retry.js, over the state they share. */
module Downloader {
  import opened Transfer

  class Attempt {
    const config: Config
    var hops: seq<Hop>
    var redirects: nat
    var requests: nat
    var abort: Option<nat>
    var cleanup: Option<Failure>
    var outcome: Option<Outcome>
    var opening: bool
    var unlinked: bool
    var temp: Temp
    ghost var failed: bool
    ghost var late: bool

    ghost function View(): State
      reads this
    {
      State(hops, redirects, requests, abort, cleanup, outcome, TempFile(opening, unlinked, failed, late, temp))
    }

    /** The last hop runs and owns the deadline, or an unlink is under way, or the attempt has settled; redirects are
        bounded, and the temp file is in the state that goes with it. */
    ghost predicate Valid()
      reads this
    {
      View() == Refused || Inv(config, View())
    }

    /** `performRequest` for the first address; `usable`: it parses and is https. */
    constructor (config: Config, usable: bool)
      ensures this.config == config
      ensures Valid() && View() == if usable then Initial else Refused
    {
      this.config := config;
      hops := if usable then [Fresh] else [];
      redirects := 0;
      requests := if usable then 1 else 0;
      abort := if usable then Some(0) else None;
      cleanup := None;
      outcome := if usable then None else Some(Rejected(Failure(false, None)));
      opening, unlinked, failed, late, temp := false, false, false, false, NoFile;
    }

    method SetHopPhase(h: nat, phase: Phase)
      requires h < |hops|
      modifies this`hops
      ensures View() == SetPhase(old(View()), h, phase)
    {
      hops := hops[h := hops[h].(phase := phase)];
    }

    /** `settled = true; state.abort = null` */
    method SettleHop(h: nat)
      requires h < |hops|
      modifies this`hops, this`abort
      ensures View() == Settle(old(View()), h)
    {
      hops := hops[h := hops[h].(settled := true)];
      abort := None;
    }

    /** `fail(error)` */
    method FailHop(h: nat, f: Failure)
      requires h < |hops|
      modifies this
      ensures View() == Fail(config, old(View()), h, f)
    {
      if hops[h].settled {
        return;
      }
      SettleHop(h);
      if config.toFile {
        cleanup := Some(f);
      } else {
        outcome := Some(Rejected(f));
      }
    }

    /** `succeed(value)` */
    method SucceedHop(h: nat, body: Bytes)
      requires h < |hops|
      modifies this
      ensures View() == Succeed(old(View()), h, body)
    {
      if hops[h].settled {
        return;
      }
      SettleHop(h);
      outcome := Some(Delivered(body));
    }

    /** The redirect branch: this hop is done with, the next one starts. */
    method FollowRedirect(h: nat)
      requires h < |hops|
      modifies this
      ensures View() == Follow(old(View()), h)
    {
      SetHopPhase(h, Over);
      SettleHop(h);
      StartHop();
    }

    /** `performRequest` for the address of a redirect. */
    method StartHop()
      modifies this`hops, this`redirects, this`requests, this`abort
      ensures View() == old(View()).(hops := old(hops) + [Fresh], redirects := old(redirects) + 1,
        requests := old(requests) + 1, abort := Some(|old(hops)|))
    {
      redirects := redirects + 1;
      requests := requests + 1;
      hops := hops + [Fresh];
      abort := Some(|hops| - 1);
    }

    /** A response settles its hop or hands over to one more, but never to more than may follow. */
    method OnResponse(h: nat, r: Response)
      requires Valid() && Enabled(config, View(), Responded(h, r))
      modifies this
      ensures View() == Next(config, old(View()), Responded(h, r))
      ensures Valid() && Kept(old(outcome)) && requests <= config.maxRedirects + 1
      ensures !r.Body? ==> hops[h].settled
    {
      Step(Responded(h, r));
      match r
      case Redirect(location) =>
        if location == NoLocation || redirects >= config.maxRedirects || location != Https {
          SetHopPhase(h, Over);
          FailHop(h, Failure(false, None));
        } else {
          FollowRedirect(h);
        }
      case Status(retryable, retryAfterMs) =>
        SetHopPhase(h, Over);
        FailHop(h, Failure(retryable, retryAfterMs));
      case Body =>
        StartBody(h);
    }

    method StartBody(h: nat)
      requires h < |hops|
      modifies this`hops, this`opening
      ensures View() == RespondedNow(config, old(View()), h, Body)
    {
      SetHopPhase(h, Streaming([]));
      opening := config.toFile;
    }

    /** A body over the limit settles its hop. */
    method OnData(h: nat, chunk: Bytes)
      requires Valid() && Enabled(config, View(), Data(h, chunk))
      modifies this
      ensures View() == Next(config, old(View()), Data(h, chunk))
      ensures Valid() && Kept(old(outcome))
      ensures config.maxBytes > 0 && |old(hops)[h].phase.received| + |chunk| > config.maxBytes ==> hops[h].settled
    {
      Step(Data(h, chunk));
      var received := hops[h].phase.received + chunk;
      SetHopPhase(h, Streaming(received));
      if config.maxBytes > 0 && |received| > config.maxBytes {
        FailHop(h, Failure(false, None));
      }
    }

    /** Only a complete body is delivered, and none that an earlier failure has settled. */
    method OnFinish(h: nat, complete: bool)
      requires Valid() && Enabled(config, View(), Finished(h, complete))
      modifies this
      ensures View() == Next(config, old(View()), Finished(h, complete))
      ensures Valid() && Kept(old(outcome))
      ensures outcome != old(outcome) && outcome.value.Delivered? ==>
        complete && !old(hops)[h].settled && outcome.value.body == old(hops)[h].phase.received
    {
      Step(Finished(h, complete));
      var received := hops[h].phase.received;
      if hops[h].settled {
        SetHopPhase(h, Over);
      } else if !complete {
        SetHopPhase(h, Over);
        FailHop(h, Failure(true, None));
      } else if config.toFile {
        StartClosing(h, received);
      } else {
        SetHopPhase(h, Over);
        SucceedHop(h, received);
      }
    }

    method StartClosing(h: nat, received: Bytes)
      requires h < |hops|
      modifies this`hops, this`temp
      ensures View() == old(SetPhase(View(), h, Closing(received))).(file := old(View()).file.(temp := Whole(received)))
    {
      SetHopPhase(h, Closing(received));
      temp := Whole(received);
    }

    /** The callback of `file.close`: the file that is delivered is whole. */
    method OnClosed(h: nat, ok: bool)
      requires Valid() && Enabled(config, View(), Closed(h, ok))
      modifies this
      ensures View() == Next(config, old(View()), Closed(h, ok))
      ensures Valid() && Kept(old(outcome))
      ensures config.toFile && outcome.Some? && outcome.value.Delivered? ==> temp == Whole(outcome.value.body)
    {
      Step(Closed(h, ok));
      var received := hops[h].phase.received;
      SetHopPhase(h, Over);
      if ok {
        SucceedHop(h, received);
      } else {
        FailHop(h, Failure(false, None));
      }
    }

    /** An error of the request, the response or the file. */
    method OnError(h: nat, f: Failure)
      requires Valid() && Enabled(config, View(), Broke(h, f))
      modifies this
      ensures View() == Next(config, old(View()), Broke(h, f))
      ensures Valid() && Kept(old(outcome)) && hops[h].settled
    {
      Step(Broke(h, f));
      FailHop(h, f);
    }

    /** `request.destroy` */
    method Destroy(h: nat)
      requires h < |hops|
      modifies this`hops
      ensures View() == SetHop(old(View()), h, old(hops)[h].(destroyed := true))
    {
      hops := hops[h := hops[h].(destroyed := true)];
    }

    /** The socket's idle timer, which only destroys the request: what follows is up to its `error` event. */
    method OnIdle(h: nat)
      requires Valid() && Enabled(config, View(), Idle(h))
      modifies this`hops
      ensures View() == Next(config, old(View()), Idle(h))
      ensures Valid() && Kept(old(outcome))
    {
      Step(Idle(h));
      Destroy(h);
    }

    /** The timer of `runAttempt` leaves the attempt settled, or with nothing to come but its unlink. */
    method OnDeadline()
      requires Valid()
      modifies this
      ensures View() == Next(config, old(View()), Deadline)
      ensures Valid() && Kept(old(outcome))
      ensures outcome.Some? || cleanup.Some?
    {
      Step(Deadline);
      if abort.Some? && abort.value < |hops| {
        var h := abort.value;
        Destroy(h);
        FailHop(h, Failure(true, None));
      } else if hops != [] {
        Destroy(|hops| - 1);
      }
    }

    /** `fs.unlink` is carried out, or fails. */
    method OnUnlinked(ok: bool)
      requires Valid() && Enabled(config, View(), Unlinked(ok))
      modifies this`temp, this`unlinked, this`failed
      ensures View() == Next(config, old(View()), Unlinked(ok))
      ensures Valid() && Kept(old(outcome)) && outcome.None?
    {
      Step(Unlinked(ok));
      failed := !ok && temp != NoFile;
      unlinked := true;
      if ok {
        temp := NoFile;
      }
    }

    /** The callback of `fs.unlink`: the attempt is rejected, and a file is left only if the unlink failed or came
        early. */
    method OnReported()
      requires Valid() && Enabled(config, View(), Reported)
      modifies this`cleanup, this`outcome
      ensures View() == Next(config, old(View()), Reported)
      ensures Valid() && outcome == Some(Rejected(old(cleanup).value))
      ensures temp != NoFile <==> late || failed
    {
      Step(Reported);
      outcome := Some(Rejected(cleanup.value));
      cleanup := None;
    }

    /** The write stream has created its file. */
    method OnOpened()
      requires Valid() && Enabled(config, View(), Opened)
      modifies this`temp, this`opening, this`late
      ensures View() == Next(config, old(View()), Opened)
      ensures Valid() && Kept(old(outcome))
    {
      Step(Opened);
      late := unlinked;
      opening := false;
      temp := Partial;
    }

    /** What an attempt has settled with is what it stays settled with. */
    ghost predicate Kept(before: Option<Outcome>)
      reads this
    {
      before.Some? ==> outcome == before
    }

    lemma Step(e: Event)
      requires Valid() && Enabled(config, View(), e)
      ensures View() == Refused ==> Next(config, View(), e) == Refused
      ensures View() != Refused ==> Inv(config, Next(config, View(), e))
      ensures outcome.Some? ==> Next(config, View(), e).outcome == outcome
    {
      if View() != Refused {
        StepInv(config, View(), e);
        if outcome.Some? {
          OutcomeStays(config, View(), e);
        }
      }
    }
  }
}
