/**
 Polling and cancelling a launched job, and whole runs of a client
 (internal/app_platform_runner.go, JobStatus and CancelJob).
 */
module JobPolling {
  import opened AppModel
  import opened AppServer
  import opened JobCleanup
  import opened JobDigest
  import opened JobHandle
  import opened JobLookup
  import opened JobRunner
  import opened Wrappers

  datatype JobState = StatePending | StateRunning | StateSucceeded | StateFailed | StateCancelled

  predicate Terminal(s: JobState) {
    s == StateSucceeded || s == StateFailed || s == StateCancelled
  }

  function StateOf(phase: InvocationPhase): JobState {
    match phase
    case Succeeded => StateSucceeded
    case Failed => StateFailed
    case Skipped => StateFailed
    case Canceled => StateCancelled
    case Running => StateRunning
    case _ => StatePending
  }

  /** The state read off an invocation, else off the deployment, else off the app after a lost launch. */
  ghost predicate Observed(m: Metadata, i: Option<Invocation>, ev: seq<Event>, state: JobState) {
    if i.Some? then state == StateOf(i.value.phase) && ev == []
    else if m.deploymentID != "" then
      && |ev| == 1 && ev[0].DeploymentSeen? && Binds(m, Some(ev[0].deployment))
      && state == (if ev[0].deployment.phase == Errored then StateFailed
                   else if ev[0].deployment.phase == DeployCanceled then StateCancelled else StatePending)
    else if m.launchFailed then
      |ev| == 1 && ev[0].AppRead? &&
      state == (if ComponentExists(ev[0].spec, m.component) then StatePending else StateFailed)
    else state == StatePending && ev == []
  }

  method ObserveState(server: Server, h: Handle, i: Option<Invocation>)
    returns (err: Option<Error>, state: JobState, ghost ev: seq<Event>)
    requires i.Some? ==> h.m.jobID == i.value.id != "" && i.value.jobName == h.m.component
    modifies server, h
    ensures Learned(server, h, ev)
    ensures err.None? ==> Observed(old(h.m), i, ev, state)
    ensures err.Some? ==> state == StatePending
    ensures Terminal(state) ==>
              IsEnded(i, h.m) || SawEnd(ev, h.m) || (i.None? && h.m.launchFailed && SawAbsent(ev, h.m))
  {
    ev, state, err := [], StatePending, None;
    if i.Some? {
      return None, StateOf(i.value.phase), ev;
    }
    if h.m.deploymentID != "" {
      var phase;
      err, phase, ev := ObserveDeployment(server, h);
      if err.None? && phase == Errored {
        state := StateFailed;
      }
      if err.None? && phase == DeployCanceled {
        state := StateCancelled;
      }
    } else if h.m.launchFailed {
      var app;
      app, ev := server.Get(h.m.appID);
      if app.Lost? {
        return Some(Failure), state, ev;
      }
      if app.value.None? || app.value.value.spec.None? {
        return Some(Validation), state, ev;
      }
      if !ComponentExists(app.value.value.spec.value, h.m.component) {
        state := StateFailed;
        assert ev[0] in ev;
      }
    }
  }

  /** Evidence in a trace that the job is over, or that a launch whose answer was lost left nothing. */
  ghost predicate Evidence(ev: seq<Event>, m: Metadata) {
    SawEnd(ev, m) || (m.launchFailed && SawAbsent(ev, m))
  }

  lemma EvidenceGrows(a: seq<Event>, b: seq<Event>, m: Metadata, n: Metadata)
    requires Extends(m, n)
    ensures Evidence(a, m) || Evidence(b, m) ==> Evidence(a + b, n)
  {
    SawEndGrows(a, b, m, n);
    if SawAbsent(a, m) || SawAbsent(b, m) {
      var e :| (e in a || e in b) && e.AppRead? && !ComponentExists(e.spec, m.component);
      assert e in a + b;
    }
  }

  lemma EndedWasSeen(ev: seq<Event>, m: Metadata, i: Option<Invocation>, n: Metadata)
    requires LookedUp(ev, m, i) && Extends(m, n) && IsEnded(i, n)
    ensures SawEnd(ev, n)
  {
    var e :| e in ev && e.InvocationsSeen? && i in e.items;
    assert ShowsEnd(e, n);
  }

  /** A finished lookup for m, and the state observed from it. */
  ghost predicate Poll(m: Metadata, n: Metadata, i: Option<Invocation>, looked: seq<Event>, saw: seq<Event>,
                       state: JobState) {
    Extends(m, n) && LookedUp(looked, m, i) && Observed(m, i, saw, state)
  }

  /** Looks the job up and reads its state. */
  method LookAndObserve(server: Server, h: Handle)
    returns (err: Option<Error>, i: Option<Invocation>, state: JobState, reply: Metadata,
             ghost looked: seq<Event>, ghost saw: seq<Event>)
    modifies server, h
    ensures Learned(server, h, looked + saw)
    ensures Extends(old(h.m), reply) && Extends(reply, h.m)
    ensures Sound(old(h.m), server.specOf) ==> Sound(reply, server.specOf)
    ensures err.None? ==> Poll(reply, h.m, i, looked, saw, state)
    ensures err.Some? ==> state == StatePending
    ensures Terminal(state) ==> Evidence(looked + saw, h.m)
  {
    hide Sound, Observed;
    saw, state := [], StatePending;
    err, i, looked := AppJobInvocation(server, h);
    reply := h.m;
    assert looked + [] == looked;
    if err.Some? {
      return;
    }
    err, state, saw := ObserveState(server, h, i);
    ExtendsTransitive(old(h.m), reply, h.m);
    if Terminal(state) {
      if IsEnded(i, h.m) {
        EndedWasSeen(looked, reply, i, h.m);
      }
      EvidenceGrows(looked, saw, h.m, h.m);
    }
  }

  /** A job that has not ended by its deadline is cancelled; nil means the cancellation was seen to end it. */
  method PassDeadline(server: Server, h: Handle, i: Option<Invocation>, start: JobState, now: int,
                      ghost m: Metadata, ghost looked: seq<Event>, ghost before: seq<Event>)
    returns (err: Option<Error>, state: JobState, ghost rest: seq<Event>)
    requires Extends(m, h.m) && LookedUp(looked, m, i) && looked <= before
    requires Terminal(start) ==> Evidence(before, h.m)
    modifies server, h
    ensures Learned(server, h, rest)
    ensures err.None? ==> state == if !Terminal(start) && now >= h.m.deadline then StateCancelled else start
    ensures Terminal(state) ==> err.None? && Evidence(before + rest, h.m)
    ensures Terminal(start) ==> err.None?
  {
    rest, state, err := [], start, None;
    assert before + [] == before;
    if !Terminal(start) && now >= h.m.deadline {
      ghost var n := h.m;
      err, rest := CancelInvocation(server, h, i);
      if err.Some? {
        return;
      }
      state := StateCancelled;
      ExtendsTransitive(m, n, h.m);
      if IsEnded(i, h.m) {
        EndedWasSeen(looked, m, i, h.m);
        SawEndGrows(looked, before[|looked|..], h.m, h.m);
        assert before == looked + before[|looked|..];
      }
      SawEndGrows(before, rest, h.m, h.m);
    }
  }

  /** What one poll saw: the lookup's handle, the invocation found, and the trace of both steps. */
  datatype Sight = Sight(m: Metadata, found: Option<Invocation>, state: JobState, looked: seq<Event>, saw: seq<Event>)

  ghost predicate Seen(sight: Sight, n: Metadata) {
    Poll(sight.m, n, sight.found, sight.looked, sight.saw, sight.state)
  }

  lemma SeenLater(sight: Sight, n: Metadata, last: Metadata)
    requires Seen(sight, n) && Extends(n, last)
    ensures Seen(sight, last)
  {
    ExtendsTransitive(sight.m, n, last);
  }

  /** The lookups of one poll, the state they give, and the cancellation a passed deadline causes. */
  method Settle(server: Server, h: Handle, now: int)
    returns (err: Option<Error>, state: JobState, reply: Metadata, ghost sight: Sight, ghost ev: seq<Event>)
    modifies server, h
    ensures Learned(server, h, ev)
    ensures Extends(old(h.m), reply) && Extends(reply, h.m)
    ensures Sound(old(h.m), server.specOf) ==> Sound(reply, server.specOf)
    ensures err.None? ==>
              reply == h.m &&
              state == if !Terminal(sight.state) && now >= h.m.deadline then StateCancelled else sight.state
    ensures Extends(old(h.m), sight.m)
    ensures err.None? ==> Seen(sight, h.m) && sight.looked + sight.saw <= ev
    ensures Terminal(state) ==> err.None? && Evidence(ev, h.m)
  {
    hide Evidence, Sound, OwnedJob, Binds, Owns, ComponentExists;
    var i;
    ghost var looked, saw, rest;
    err, i, state, reply, looked, saw := LookAndObserve(server, h);
    sight, ev := Sight(reply, i, state, looked, saw), looked + saw;
    if err.Some? {
      return;
    }
    ghost var n := h.m;
    err, state, rest := PassDeadline(server, h, i, state, now, reply, looked, ev);
    ExtendsTransitive(old(h.m), n, h.m);
    ExtendsTransitive(reply, n, h.m);
    SeenLater(sight, n, h.m);
    ev := ev + rest;
    if err.None? {
      reply := h.m;
    }
  }

  // ----- the calls -----

  /** In the trace, the component never shows up again once it was read as absent. */
  ghost predicate StaysAbsent(ev: seq<Event>, component: string) {
    forall i, j :: 0 <= i < j < |ev| && ev[i].AppRead? && ev[j].AppRead? && !ComponentExists(ev[i].spec, component) ==>
      !ComponentExists(ev[j].spec, component)
  }

  /** When an absent component does not reappear by itself, what is written rests on an observed end. */
  lemma WritesRestOnEnd(before: seq<Event>, after: seq<Event>, m: Metadata)
    requires Evidence(before, m) && CleanupTrace(after, m) && StaysAbsent(before + after, m.component)
    requires !NoWrites(after)
    ensures SawEnd(before, m)
  {
    hide ShowsEnd, Marked;
    assert after[0].AppRead? && HasJob(after[0].spec.jobs, m.component);
    assert ComponentExists(after[0].spec, m.component);
    var all := before + after;
    assert all[|before|] == after[0];
    forall e | e in before && e.AppRead? ensures ComponentExists(e.spec, m.component) {
      var i :| 0 <= i < |before| && before[i] == e;
      assert all[i] == e;
    }
  }

  /**
   One poll. `before` is everything up to the cleanup, `after` the cleanup. A write happens only after
   this same call has seen the job end, or after a lost launch whose job was seen to be absent; when an
   absent job does not reappear by itself, only after the end was seen.
   */
  method JobStatus(server: Server, m0: Metadata, now: int)
    returns (err: Option<Error>, state: JobState, exitCode: int, reply: Metadata,
             ghost last: Metadata, ghost sight: Sight, ghost before: seq<Event>, ghost after: seq<Event>)
    modifies server
    ensures server.log == old(server.log) + before + after && Lookups(before) && CleanupTrace(after, last)
    ensures Extends(m0, reply) && Extends(reply, last) && Extends(m0, sight.m)
    ensures Sound(m0, server.specOf) ==> Sound(reply, server.specOf) && Sound(last, server.specOf)
    ensures exitCode == if state == StateSucceeded then 0 else -1
    ensures !WellFormedHandle(m0) ==> err == Some(Validation) && before == after == []
    ensures err.None? ==>
      && reply == last && Seen(sight, last) && sight.looked + sight.saw <= before
      && state == if !Terminal(sight.state) && now >= last.deadline then StateCancelled else sight.state
    ensures Terminal(state) ==> Evidence(before, last)
    ensures after != [] ==> Terminal(state)
    ensures !NoWrites(after) && StaysAbsent(before + after, last.component) ==> SawEnd(before, last)
    ensures err.None? && Terminal(state) ==>
              after != [] && after[|after| - 1].AppRead? && Restored(after[|after| - 1].spec, last)
    ensures server.quiet ==> server.live == old(server.live) || (Terminal(state) && OfSpec(server.live) == last.prior)
    ensures server.quiet && after != [] && after[0].AppRead? ==> after[0] == AppRead(old(server.live))
    ensures server.quiet && err.None? && Terminal(state) ==> Restored(server.live, last)
    ensures server.quiet && |after| == 4 ==> after[2].live == server.live
    ensures Terminal(state) && server.quiet && server.reliable && last.appID == server.appID &&
            Cleanable(old(server.live), last) ==>
              err.None?
  {
    hide Seen, Evidence, SawEnd, StaysAbsent, Sound, WellFormedHandle, Removable, Restored, Cleanable;
    before, after, state, exitCode, reply, last := [], [], StatePending, -1, m0, m0;
    sight := Sight(m0, None, StatePending, [], []);
    if !WellFormedHandle(m0) {
      return Some(Validation), state, exitCode, reply, last, sight, before, after;
    }
    var h := new Handle(m0);
    err, state, reply, sight, before := Settle(server, h, now);
    last := h.m;
    ExtendsTransitive(m0, reply, last);
    if state == StateSucceeded {
      exitCode := 0;
    }
    if err.None? && Terminal(state) {
      err, after := Cleanup(server, h.m);
      if !NoWrites(after) && StaysAbsent(before + after, last.component) {
        WritesRestOnEnd(before, after, last);
      }
    }
  }

  /** Looks the job up and cancels it; nil only when it was seen to have ended. */
  method LookAndCancel(server: Server, h: Handle) returns (err: Option<Error>, ghost ev: seq<Event>)
    modifies server, h
    ensures Learned(server, h, ev)
    ensures err.None? ==> SawEnd(ev, h.m)
  {
    var i;
    err, i, ev := AppJobInvocation(server, h);
    if err.Some? {
      return;
    }
    ghost var m, looked, more := h.m, ev, [];
    err, more := CancelInvocation(server, h, i);
    ev := looked + more;
    ExtendsTransitive(old(h.m), m, h.m);
    if err.None? {
      if IsEnded(i, h.m) {
        EndedWasSeen(looked, m, i, h.m);
      }
      SawEndGrows(looked, more, h.m, h.m);
    }
  }

  /** Cancelling. Nil means that the job was seen to have ended and that the prior spec was read back. */
  method CancelJob(server: Server, m0: Metadata)
    returns (err: Option<Error>, ghost last: Metadata, ghost before: seq<Event>, ghost after: seq<Event>)
    modifies server
    ensures server.log == old(server.log) + before + after && Lookups(before) && CleanupTrace(after, last)
    ensures Extends(m0, last)
    ensures Sound(m0, server.specOf) ==> Sound(last, server.specOf)
    ensures !WellFormedHandle(m0) ==> err == Some(Validation) && before == after == []
    ensures after != [] ==> SawEnd(before, last)
    ensures err.None? ==>
              SawEnd(before, last) && after != [] && after[|after| - 1].AppRead? &&
              Restored(after[|after| - 1].spec, last)
    ensures server.quiet ==> server.live == old(server.live) || OfSpec(server.live) == last.prior
    ensures server.quiet && after != [] && after[0].AppRead? ==> after[0] == AppRead(old(server.live))
    ensures server.quiet && err.None? ==> Restored(server.live, last)
    ensures server.quiet && |after| == 4 ==> after[2].live == server.live
    ensures after != [] && server.quiet && server.reliable && last.appID == server.appID &&
            Cleanable(old(server.live), last) ==>
              err.None?
  {
    before, after, last := [], [], m0;
    if !WellFormedHandle(m0) {
      return Some(Validation), last, before, after;
    }
    var h := new Handle(m0);
    err, before := LookAndCancel(server, h);
    last := h.m;
    if err.None? {
      err, after := Cleanup(server, h.m);
    }
  }

  /** A cleanup sends nothing but the prior spec, and nothing once the prior spec is back. */
  lemma CleanupSendsPrior(m: Metadata, prior: AppSpec, job: Job, after: seq<Event>)
    requires Launched(m, prior, job) && CleanupTrace(after, m)
    ensures forall e :: e in after ==>
              !e.CallEnded? && (e.SpecSent? ==> e.spec == prior) &&
              (e.UpdateAnswered? ==> |after| == 4 && e == after[2])
    ensures (after != [] && after[0].AppRead? ==> after[0] == AppRead(prior)) ==> Lookups(after)
  {
    hide ComponentExists, Marked, Rest;
    NoneMarked(prior, m.component);
  }

  lemma NoneMarked(prior: AppSpec, component: string)
    requires !ComponentExists(prior, component)
    ensures Marked(prior.jobs, component) == []
  {
  }

  /** What one call of the client adds to the trace: no write but of the prior spec, then the end of the call. */
  ghost predicate OneCall(ev: seq<Event>, prior: AppSpec, over: bool, before: AppSpec, live: AppSpec) {
    && ev != [] && ev[|ev| - 1] == CallEnded(over, live)
    && (forall e :: e in ev[..|ev| - 1] ==>
          !e.CallEnded? && (e.SpecSent? ==> e.spec == prior) &&
          (e.UpdateAnswered? ==> e.live == before || e.live == prior))
    && (live == before || live == prior)
    && (over ==> live == prior)
    && (before == prior ==> NoWrites(ev))
  }

  /** The lookups of a call, then its cleanup, then its end. */
  lemma CallShown(m: Metadata, prior: AppSpec, job: Job, lookups: seq<Event>, after: seq<Event>, over: bool,
                  before: AppSpec, live: AppSpec)
    requires Launched(m, prior, job) && Lookups(lookups) && CleanupTrace(after, m)
    requires live == before || OfSpec(live) == m.prior
    requires over ==> OfSpec(live) == m.prior
    requires after != [] && after[0].AppRead? ==> after[0] == AppRead(before)
    requires |after| == 4 ==> after[2].live == live
    ensures OneCall(lookups + after + [CallEnded(over, live)], prior, over, before, live)
  {
    CleanupSendsPrior(m, prior, job, after);
    if OfSpec(live) == m.prior {
      PriorRead(m, prior, job, live);
    }
    hide Launched, CleanupTrace;
    var ev := lookups + after + [CallEnded(over, live)];
    assert ev[..|ev| - 1] == lookups + after;
  }

  lemma PriorRead(m: Metadata, prior: AppSpec, job: Job, live: AppSpec)
    requires Launched(m, prior, job) && OfSpec(live) == m.prior
    ensures live == prior
  {
  }

  method ClientPoll(server: Server, now: int, m0: Metadata, ghost prior: AppSpec, ghost job: Job)
    returns (m: Metadata, err: Option<Error>, state: JobState, ghost ev: seq<Event>)
    requires server.quiet && Launched(m0, prior, job) && Sound(m0, server.specOf)
    modifies server
    ensures server.log == old(server.log) + ev
    ensures Extends(m0, m) && Sound(m, server.specOf)
    ensures OneCall(ev, prior, err.None? && Terminal(state), old(server.live), server.live)
  {
    hide Seen, Evidence, SawEnd, Sound, CleanupTrace, Extends, WellFormedHandle, Removable, ComponentExists,
         StaysAbsent, OneCall, Launched, ShowsLive;
    var code;
    ghost var last, sight, before, after;
    err, state, code, m, last, sight, before, after := JobStatus(server, m0, now);
    ExtendsTransitive(m0, m, last);
    LearnedStaysLaunched(m0, last, prior, job);
    CallShown(last, prior, job, before, after, err.None? && Terminal(state), old(server.live), server.live);
    server.EndCall(err.None? && Terminal(state));
    ev := before + after + [CallEnded(err.None? && Terminal(state), server.live)];
  }

  method ClientCancel(server: Server, m0: Metadata, ghost prior: AppSpec, ghost job: Job)
    returns (err: Option<Error>, ghost ev: seq<Event>)
    requires server.quiet && Launched(m0, prior, job)
    modifies server
    ensures server.log == old(server.log) + ev
    ensures OneCall(ev, prior, err.None?, old(server.live), server.live)
  {
    hide SawEnd, Sound, CleanupTrace, Extends, WellFormedHandle, Removable, ComponentExists, OneCall, Launched,
         ShowsLive;
    ghost var last, before, after;
    err, last, before, after := CancelJob(server, m0);
    LearnedStaysLaunched(m0, last, prior, job);
    CallShown(last, prior, job, before, after, err.None?, old(server.live), server.live);
    server.EndCall(err.None?);
    ev := before + after + [CallEnded(err.None?, server.live)];
  }

  // ----- whole runs with nobody else editing -----

  /** The calls that ended in a trace, each with whether it ended without error in a terminal state. */
  ghost function Ends(ev: seq<Event>): seq<bool> {
    if ev == [] then []
    else
      var e := ev[|ev| - 1];
      Ends(ev[..|ev| - 1]) + if e.CallEnded? then [e.over] else []
  }

  /** The live spec as an event shows it, at a write or at the end of a call; nothing else changes it. */
  predicate ShowsLive(e: Event) {
    e.UpdateAnswered? || e.CallEnded?
  }

  /**
   A trace of calls: only the prior spec is ever sent; throughout, the live spec is the prior one or the
   prior one plus the launched job; and from the first call that was over on it is the prior spec and
   nothing is written any more.
   */
  ghost predicate SafeRun(ev: seq<Event>, prior: AppSpec, job: Job) {
    && (forall e :: e in ev && e.SpecSent? ==> e.spec == prior)
    && (forall e :: e in ev && ShowsLive(e) ==> PriorOrOneMore(e.live, prior, job))
    && forall k, j :: 0 <= k <= j < |ev| && ev[k].CallEnded? && ev[k].over ==>
         !ev[j].SpecSent? && (ShowsLive(ev[j]) ==> ev[j].live == prior)
  }

  /** Some call of the trace ended without error in a terminal state. */
  ghost predicate AnyOver(ev: seq<Event>) {
    exists e :: e in ev && e.CallEnded? && e.over
  }

  lemma {:induction false} EndsConcat(a: seq<Event>, b: seq<Event>)
    ensures Ends(a + b) == Ends(a) + Ends(b)
  {
    if b == [] {
      assert a + b == a;
    } else {
      assert (a + b)[..|a + b| - 1] == a + b[..|b| - 1];
      EndsConcat(a, b[..|b| - 1]);
    }
  }

  lemma {:induction false} NoEnds(ev: seq<Event>)
    requires forall e :: e in ev ==> !e.CallEnded?
    ensures Ends(ev) == []
  {
    if ev != [] {
      var n := |ev| - 1;
      assert ev == ev[..n] + [ev[n]];
      NoEnds(ev[..n]);
    }
  }

  /** One more call keeps a run safe. */
  lemma SafeCall(run: seq<Event>, ev: seq<Event>, prior: AppSpec, job: Job, over: bool, before: AppSpec, live: AppSpec)
    requires SafeRun(run, prior, job) && OneCall(ev, prior, over, before, live)
    requires PriorOrOneMore(before, prior, job) && (AnyOver(run) ==> before == prior)
    ensures SafeRun(run + ev, prior, job) && Ends(run + ev) == Ends(run) + [over]
    ensures PriorOrOneMore(live, prior, job) && (AnyOver(run + ev) ==> live == prior)
  {
    hide PriorOrOneMore, Ends;
    EndsConcat(run, ev);
    EndsOfCall(ev, prior, over, before, live);
    var n, all := |ev| - 1, run + ev;
    assert ev == ev[..n] + [ev[n]];
    assert forall i :: 0 <= i < n ==> ev[..n][i] in ev[..n] && !ev[i].CallEnded?;
    PriorIsFine(prior, job);
    forall e | e in ev && ShowsLive(e)
      ensures (e.live == before || e.live == prior) && PriorOrOneMore(e.live, prior, job) {
      if e in ev[..n] {
        assert e.UpdateAnswered?;
      }
    }
    forall k, j | 0 <= k <= j < |all| && all[k].CallEnded? && all[k].over
      ensures !all[j].SpecSent? && (ShowsLive(all[j]) ==> all[j].live == prior)
    {
      if j >= |run| {
        assert all[j] == ev[j - |run|] && all[j] in ev;
        if k < |run| {
          assert run[k] in run && before == prior;
        } else {
          assert all[k] == ev[k - |run|];
        }
      }
    }
  }

  lemma PriorIsFine(prior: AppSpec, job: Job)
    ensures PriorOrOneMore(prior, prior, job)
  {
  }

  lemma EndsOfCall(ev: seq<Event>, prior: AppSpec, over: bool, before: AppSpec, live: AppSpec)
    requires OneCall(ev, prior, over, before, live)
    ensures Ends(ev) == [over]
  {
    NoEnds(ev[..|ev| - 1]);
  }

  datatype Call = PollAt(now: int) | CancelNow

  /** What a call returned: its error, and the state when it was a poll. */
  datatype CallResult = CallResult(err: Option<Error>, state: Option<JobState>)

  /** The call ended without error, a poll in a terminal state. */
  predicate IsOver(r: CallResult) {
    r.err.None? && (r.state.Some? ==> Terminal(r.state.value))
  }

  function Overs(results: seq<CallResult>): seq<bool> {
    if results == [] then [] else Overs(results[..|results| - 1]) + [IsOver(results[|results| - 1])]
  }

  /** One call of the client. */
  method OneMoreCall(server: Server, m0: Metadata, call: Call, ghost prior: AppSpec, ghost job: Job)
    returns (m: Metadata, result: CallResult, ghost ev: seq<Event>)
    requires server.quiet && Launched(m0, prior, job) && Sound(m0, server.specOf)
    modifies server
    ensures server.log == old(server.log) + ev
    ensures Launched(m, prior, job) && Sound(m, server.specOf)
    ensures OneCall(ev, prior, IsOver(result), old(server.live), server.live)
  {
    hide Launched, Sound, Extends, OneCall;
    m := m0;
    match call {
      case PollAt(now) =>
        var err, state;
        m, err, state, ev := ClientPoll(server, now, m0, prior, job);
        LearnedStaysLaunched(m0, m, prior, job);
        result := CallResult(err, Some(state));
      case CancelNow =>
        var err;
        err, ev := ClientCancel(server, m0, prior, job);
        result := CallResult(err, None);
    }
  }

  /** Any sequence of polls and cancels, with what each of them returned. */
  method RunCalls(server: Server, m0: Metadata, calls: seq<Call>, ghost prior: AppSpec, ghost job: Job)
    returns (results: seq<CallResult>, ghost run: seq<Event>)
    requires server.quiet && Launched(m0, prior, job) && Sound(m0, server.specOf)
    requires PriorOrOneMore(server.live, prior, job)
    modifies server
    ensures server.log == old(server.log) + run && SafeRun(run, prior, job)
    ensures |results| == |calls| && Ends(run) == Overs(results)
    ensures PriorOrOneMore(server.live, prior, job) && (true in Overs(results) ==> server.live == prior)
    ensures old(server.live) == prior ==> server.live == prior && NoWrites(run)
  {
    hide PriorOrOneMore, Launched, Sound, Extends, SafeRun, OneCall, Ends, IsOver;
    var m := m0;
    results, run := [], [];
    NothingRun(prior, job);
    for i := 0 to |calls|
      invariant Launched(m, prior, job) && Sound(m, server.specOf)
      invariant server.log == old(server.log) + run && SafeRun(run, prior, job)
      invariant |results| == i && Ends(run) == Overs(results)
      invariant PriorOrOneMore(server.live, prior, job) && (AnyOver(run) ==> server.live == prior)
      invariant old(server.live) == prior ==> server.live == prior && NoWrites(run)
    {
      var result;
      ghost var ev, before := [], server.live;
      m, result, ev := OneMoreCall(server, m, calls[i], prior, job);
      SafeCall(run, ev, prior, job, IsOver(result), before, server.live);
      CallStays(ev, prior, IsOver(result), before, server.live);
      assert (results + [result])[..i] == results;
      results, run := results + [result], run + ev;
    }
    OversShown(run);
  }

  lemma NothingRun(prior: AppSpec, job: Job)
    ensures SafeRun([], prior, job) && Ends([]) == []
  {
  }

  lemma CallStays(ev: seq<Event>, prior: AppSpec, over: bool, before: AppSpec, live: AppSpec)
    requires OneCall(ev, prior, over, before, live)
    ensures before == prior ==> live == prior && NoWrites(ev)
  {
  }

  lemma {:induction false} OversShown(ev: seq<Event>)
    ensures true in Ends(ev) <==> AnyOver(ev)
  {
    if ev != [] {
      var n := |ev| - 1;
      assert ev == ev[..n] + [ev[n]];
      OversShown(ev[..n]);
    }
  }

  /**
   A whole run: one launch, then any sequence of polls and cancels, every answer lost or not. The prior
   spec plus the one marked job is sent once, then only the prior spec. Throughout, the live spec is the
   prior spec or the prior spec plus that job, and from the first call that ends without error in a terminal
   state on it is the prior spec and nothing is written any more.
   */
  method ClientRun(server: Server, req: Request, token: Option<string>, start: int, calls: seq<Call>)
    returns (launched: bool, results: seq<CallResult>, ghost job: Job, ghost before: seq<Event>, ghost run: seq<Event>)
    requires server.quiet && (token.Some? ==> IsToken(token.value))
    modifies server
    ensures !launched ==> server.live == old(server.live) && server.log == old(server.log) + before && Lookups(before)
    ensures server.reliable && Launchable(req, token, server.appID, old(server.live)) ==> launched
    ensures launched ==>
      && server.log == old(server.log) + before + [SpecSent(PriorPlus(old(server.live), job))] + run && Lookups(before)
      && token.Some? && JobFor(req, MARKER + token.value, job) && !ComponentExists(old(server.live), job.name)
      && SafeRun(run, old(server.live), job)
      && |results| == |calls| && Ends(run) == Overs(results)
      && PriorOrOneMore(server.live, old(server.live), job)
      && (true in Overs(results) ==> server.live == old(server.live))
  {
    hide SafeRun, PriorOrOneMore, Launched, Sound, Ends, Overs, JobFor, ComponentExists, WellFormedHandle, RequestOk,
         Launchable;
    results := [];
    var err, m;
    ghost var prior, answer, after, more;
    err, m, prior, job, before, answer, after := RunJob(server, req, token, start);
    launched, run := err.None?, after;
    if !launched {
      return;
    }
    assert !ComponentExists(prior, job.name) by { LaunchedFresh(m, prior, job); }
    assert [SpecSent(PriorPlus(prior, job)), answer] + after == [SpecSent(PriorPlus(prior, job))] + ([answer] + after);
    results, more := RunCalls(server, m, calls, prior, job);
    LookupsFirst(answer, after, more, prior, job);
    run := [answer] + after + more;
  }

  lemma LaunchedFresh(m: Metadata, prior: AppSpec, job: Job)
    requires Launched(m, prior, job)
    ensures !ComponentExists(prior, job.name)
  {
  }

  /** The answer to the launch, and the lookups of the launch, in front of a run. */
  lemma LookupsFirst(answer: Event, after: seq<Event>, run: seq<Event>, prior: AppSpec, job: Job)
    requires answer.UpdateAnswered? && PriorOrOneMore(answer.live, prior, job)
    requires Lookups(after) && SafeRun(run, prior, job)
    ensures var all := [answer] + after + run; SafeRun(all, prior, job) && Ends(all) == Ends(run)
  {
    hide PriorOrOneMore, Ends;
    var first := [answer] + after;
    EndsConcat(first, run);
    NoEnds(first);
    var all := first + run;
    assert forall k :: 0 <= k < |first| ==> first[k] in first && all[k] == first[k];
    assert forall k :: |first| <= k < |all| ==> all[k] == run[k - |first|];
  }
}
