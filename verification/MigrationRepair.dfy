/**
 Repairing a dirty migration with a temporary job (internal/drivers/app_platform_migration_repair.go):
 add the job to the live spec, wait for its invocation, take it out again.
 */
module MigrationRepair {
  import opened AppModel
  import opened AppServer
  import opened ImageRef
  import opened Text
  import opened Wrappers

  const NAME_PREFIX := "wfctl-mig-repair-"
  const NAME_TRIES: nat := 32
  const UPDATE_TRIES: nat := 3

  /** `valid` is what req.Validate says; `command` is the command line built from the request. */
  datatype Request = Request(valid: bool, image: string, command: string, env: map<string, string>, timeoutSeconds: int)

  datatype Result = Refused | Report(succeeded: bool, jobID: string, failed: bool)

  // ----- what may be written -----

  /** The variables of the request, each once, all secret. */
  ghost predicate SecretEnvs(envs: seq<Option<EnvVar>>, env: map<string, string>) {
    && |envs| == |env|
    && forall e :: e in envs <==>
         e.Some? && e.value.key in env && e.value == EnvVar(e.value.key, env[e.value.key], Secret, "RUN_TIME")
  }

  function RepairTimeout(seconds: int): Timeout {
    if seconds <= 0 then Timeout("", None) else Timeout(Decimal(seconds) + "s", Some(seconds * 1_000_000_000))
  }

  /** The temporary job of a request. */
  ghost predicate JobOf(req: Request, name: string, job: Job) {
    && job.name == name && job.kind == "PRE_DEPLOY"
    && job.image.Some? && job.image == ParseImageRef(req.image)
    && job.runCommand == req.command && SecretEnvs(job.envs, req.env)
    && job.timeout == RepairTimeout(req.timeoutSeconds) && job.instanceCount == 0 && job.rest == ""
  }

  /** The spec just read, plus the request's job under a name that no component of any kind has. */
  ghost predicate Adds(before: AppSpec, after: AppSpec, name: string, req: Request) {
    !ComponentExists(before, name) && exists job: Job :: JobOf(req, name, job) && after == PriorPlus(before, job)
  }

  /** The spec just read, minus the jobs of the name. */
  ghost predicate Removes(before: AppSpec, after: AppSpec, name: string) {
    HasJob(before.jobs, name) && after == before.(jobs := Without(before.jobs, name))
  }

  ghost predicate Step(before: Event, after: Event, req: Request) {
    before.AppRead? && after.SpecSent? &&
    exists name ::
      NAME_PREFIX <= name && (Adds(before.spec, after.spec, name, req) || Removes(before.spec, after.spec, name))
  }

  /** Every write follows directly on the read of the spec that it adds to or removes from. */
  ghost predicate Justified(ev: seq<Event>, req: Request) {
    forall i :: 0 <= i < |ev| && ev[i].SpecSent? ==> i > 0 && Step(ev[i - 1], ev[i], req)
  }

  predicate Answers(e: Event, outcome: WriteOutcome) {
    e.UpdateAnswered? && e.outcome == outcome
  }

  ghost predicate AddsSome(before: AppSpec, after: AppSpec, req: Request) {
    exists name :: Adds(before, after, name, req)
  }

  /** A write of a new job whose answer was not the refusal that says nothing was written. */
  ghost predicate MayHaveLanded(ev: seq<Event>, k: int, req: Request) {
    && 0 < k < |ev| && ev[k - 1].AppRead? && ev[k].SpecSent?
    && AddsSome(ev[k - 1].spec, ev[k].spec, req)
    && !(k + 1 < |ev| && Answers(ev[k + 1], NameConflict))
  }

  ghost predicate NoneLanded(ev: seq<Event>, req: Request) {
    forall k :: !MayHaveLanded(ev, k, req)
  }

  /** The trace ends with the job read as absent, or with its removal answered as stored. */
  ghost predicate RestoreShown(ev: seq<Event>, name: string) {
    var n := |ev|;
    || (n > 0 && ev[n - 1].AppRead? && !HasJob(ev[n - 1].spec.jobs, name))
    || (n > 2 && ev[n - 3].AppRead? && ev[n - 2].SpecSent? && Removes(ev[n - 3].spec, ev[n - 2].spec, name)
        && Answers(ev[n - 1], Stored))
  }

  /**
   The trace ends with an attempt to restore: a read that failed, one that shows the job as absent, or the
   removal of the job from the spec just read, however that was answered.
   */
  ghost predicate RestoreTried(ev: seq<Event>, name: string) {
    var n := |ev|;
    || (n > 0 && ev[n - 1].ReadFailed?)
    || (n > 0 && ev[n - 1].AppRead? && !HasJob(ev[n - 1].spec.jobs, name))
    || (n > 2 && ev[n - 3].AppRead? && ev[n - 2].SpecSent? && Removes(ev[n - 3].spec, ev[n - 2].spec, name)
        && ev[n - 1].UpdateAnswered?)
  }

  /** Landing is judged within a segment that neither ends nor starts in the middle of a write. */
  lemma LandedApart(a: seq<Event>, b: seq<Event>, req: Request)
    requires a != [] ==> !a[|a| - 1].SpecSent?
    requires b != [] ==> !b[0].SpecSent? && !b[0].UpdateAnswered?
    ensures forall k :: MayHaveLanded(a + b, k, req) <==> MayHaveLanded(a, k, req) || MayHaveLanded(b, k - |a|, req)
  {
    hide Adds;
    var all := a + b;
    forall k ensures MayHaveLanded(all, k, req) <==> MayHaveLanded(a, k, req) || MayHaveLanded(b, k - |a|, req) {
      if |a| < k < |all| {
        assert all[k] == b[k - |a|] && all[k - 1] == b[k - 1 - |a|];
        assert k + 1 < |all| ==> all[k + 1] == b[k + 1 - |a|];
      }
    }
  }

  lemma LookupsLandNothing(ev: seq<Event>, req: Request)
    requires Lookups(ev)
    ensures NoneLanded(ev, req)
  {
    hide Adds;
    assert forall k :: 0 <= k < |ev| ==> ev[k] in ev;
  }

  function Writes(ev: seq<Event>): nat {
    if ev == [] then 0 else Writes(ev[..|ev| - 1]) + if ev[|ev| - 1].SpecSent? then 1 else 0
  }

  lemma {:induction false} WritesConcat(a: seq<Event>, b: seq<Event>)
    ensures Writes(a + b) == Writes(a) + Writes(b)
  {
    if b == [] {
      assert a + b == a;
    } else {
      assert (a + b)[..|a + b| - 1] == a + b[..|b| - 1];
      WritesConcat(a, b[..|b| - 1]);
    }
  }

  lemma Chain(a: seq<Event>, b: seq<Event>, req: Request)
    requires Justified(a, req) && Justified(b, req)
    ensures Justified(a + b, req) && Writes(a + b) == Writes(a) + Writes(b)
  {
    hide Step;
    WritesConcat(a, b);
    forall i | 0 <= i < |a + b| && (a + b)[i].SpecSent? ensures i > 0 && Step((a + b)[i - 1], (a + b)[i], req) {
      if i >= |a| {
        assert b[i - |a|].SpecSent?;
      }
    }
  }

  lemma {:induction false} LookupsJustified(ev: seq<Event>, req: Request)
    requires Lookups(ev)
    ensures Justified(ev, req) && Writes(ev) == 0
  {
    if ev != [] {
      var n := |ev| - 1;
      forall e | e in ev[..n] ensures !e.SpecSent? {
        assert e in ev;
      }
      LookupsJustified(ev[..n], req);
      assert ev[n] in ev;
      assert forall i :: 0 <= i < |ev| ==> ev[i] in ev;
    }
  }

  /** What the repair may leave behind while it runs: at most the one job, under a fresh name. */
  ghost predicate Residue(live: AppSpec, orig: AppSpec, name: string) {
    !ComponentExists(orig, name) &&
    (live == orig || exists j: Job :: j.name == name && live == PriorPlus(orig, j))
  }

  // ----- the temporary job -----

  /** Names until one is free in every list of components, at most 32 of them. */
  method AbsentName(spec: AppSpec) returns (name: Option<string>)
    ensures name.Some? ==> NAME_PREFIX <= name.value && !ComponentExists(spec, name.value)
  {
    for i := 0 to NAME_TRIES {
      var token: string := *;
      name := Some(NAME_PREFIX + token);
      if !ComponentExists(spec, name.value) {
        return;
      }
    }
    name := None;
  }

  /** The variables of the request, in any order, all secret. */
  method RepairEnvs(env: map<string, string>) returns (envs: seq<Option<EnvVar>>)
    ensures SecretEnvs(envs, env)
  {
    envs := [];
    var rest := env.Keys;
    assert |env.Keys| == |env|;
    while rest != {}
      invariant rest <= env.Keys && |envs| + |rest| == |env.Keys|
      invariant forall e :: e in envs <==>
                  e.Some? && e.value.key in env.Keys - rest &&
                  e.value == EnvVar(e.value.key, env[e.value.key], Secret, "RUN_TIME")
    {
      var k :| k in rest;
      envs := envs + [Some(EnvVar(k, env[k], Secret, "RUN_TIME"))];
      rest := rest - {k};
    }
  }

  method RepairJob(name: string, req: Request) returns (job: Option<Job>)
    ensures job.Some? <==> ParseImageRef(req.image).Some?
    ensures job.Some? ==> JobOf(req, name, job.value)
  {
    var image := ParseImageRef(req.image);
    if image.None? {
      return None;
    }
    var envs := RepairEnvs(req.env);
    job := Some(Job(name, "PRE_DEPLOY", image, req.command, RepairTimeout(req.timeoutSeconds), envs, 0, ""));
  }

  // ----- launch -----

  method PrepareRepairSpec(server: Server, appID: string, req: Request)
    returns (r: Option<(AppSpec, string)>, ghost ev: seq<Event>)
    modifies server
    ensures server.log == old(server.log) + ev && Lookups(ev) && |ev| == 1 && IsRead(ev[0])
    ensures server.quiet ==> server.live == old(server.live)
    ensures r.Some? ==> NAME_PREFIX <= r.value.1 && ev[0].AppRead? && Adds(ev[0].spec, r.value.0, r.value.1, req)
    ensures r.Some? && server.quiet ==> ev[0].spec == server.live
  {
    var app;
    app, ev := server.Get(appID);
    if app.Lost? || app.value.None? || app.value.value.spec.None? {
      return None, ev;
    }
    var spec := app.value.value.spec.value;
    var name := AbsentName(spec);
    if name.None? {
      return None, ev;
    }
    var job := RepairJob(name.value, req);
    if job.None? {
      return None, ev;
    }
    r := Some((PriorPlus(spec, job.value), name.value));
    assert Adds(spec, r.value.0, name.value, req);
  }

  datatype Launch = Unprepared | Conflicted | MaybeWritten(name: string) | Written(name: string)

  /** One try: the write, whose failure may still have taken effect unless it is a name conflict. */
  method TryUpdate(server: Server, appID: string, spec: AppSpec, name: string, ghost read: AppSpec, ghost req: Request)
    returns (written: bool, conflict: bool, ghost ev: seq<Event>)
    requires Adds(read, spec, name, req) && (server.quiet ==> server.live == read)
    modifies server
    ensures server.log == old(server.log) + ev && (server.reliable ==> written)
    ensures |ev| == 2 && ev[0] == SpecSent(spec) && Answers(ev[1], OutcomeOf(written, conflict)) &&
            !(written && conflict)
    ensures server.quiet ==>
              if conflict then server.live == old(server.live) else Residue(server.live, old(server.live), name)
  {
    hide ComponentExists;
    ghost var before := server.live;
    var reply;
    reply, conflict, ev := server.Update(appID, spec);
    written := reply.Answered?;
    if server.quiet && server.live != before {
      ghost var job: Job :| job.name == name && spec == PriorPlus(before, job);
      LaunchStored(before, job, server.live);
    }
  }

  /** The trace of the last try, whose write may have landed under the name. */
  ghost predicate LandedAs(ev: seq<Event>, name: string, req: Request) {
    var n := |ev|;
    && n >= 3 && ev[n - 3].AppRead? && ev[n - 2].SpecSent? && Adds(ev[n - 3].spec, ev[n - 2].spec, name, req)
    && ev[n - 1].UpdateAnswered? && ev[n - 1].outcome != NameConflict
  }

  /** Up to three tries, each on a spec read anew under a fresh name. */
  method LaunchRepair(server: Server, appID: string, req: Request) returns (r: Launch, ghost ev: seq<Event>)
    modifies server
    ensures server.log == old(server.log) + ev && Justified(ev, req) && Writes(ev) <= UPDATE_TRIES
    ensures ev != [] ==> !ev[|ev| - 1].SpecSent? && !ev[0].SpecSent? && !ev[0].UpdateAnswered?
    ensures r.Unprepared? || r.Conflicted? ==> NoneLanded(ev, req) && (server.quiet ==> server.live == old(server.live))
    ensures server.reliable ==> r.Unprepared? || r.Written?
    ensures r.MaybeWritten? || r.Written? ==>
              NAME_PREFIX <= r.name && LandedAs(ev, r.name, req) &&
              (server.quiet ==> Residue(server.live, old(server.live), r.name))
  {
    hide Residue, Adds, Justified, Writes, Step, JobOf, NoneLanded, LandedAs;
    ev := [];
    LookupsJustified(ev, req);
    LookupsLandNothing(ev, req);
    for attempt := 0 to UPDATE_TRIES
      invariant server.log == old(server.log) + ev && Justified(ev, req) && Writes(ev) <= attempt
      invariant server.reliable ==> attempt == 0
      invariant ev != [] ==> !ev[|ev| - 1].SpecSent? && !ev[0].SpecSent? && !ev[0].UpdateAnswered?
      invariant NoneLanded(ev, req)
      invariant server.quiet ==> server.live == old(server.live)
    {
      var prepared;
      ghost var reading, sending, before := [], [], ev;
      prepared, reading := PrepareRepairSpec(server, appID, req);
      if prepared.None? {
        LookupsJustified(reading, req);
        Chain(ev, reading, req);
        NotPrepared(ev, reading, req);
        return Unprepared, ev + reading;
      }
      var (spec, name) := prepared.value;
      var written, conflict;
      written, conflict, sending := TryUpdate(server, appID, spec, name, reading[0].spec, req);
      OneWrite(reading[0], sending, name, req);
      assert [reading[0]] + sending == reading + sending;
      Chain(ev, reading + sending, req);
      OneTry(before, reading[0], sending, name, written, conflict, req);
      assert ev + reading + sending == ev + (reading + sending);
      ev := ev + (reading + sending);
      if written {
        return Written(name), ev;
      }
      if !conflict {
        return MaybeWritten(name), ev;
      }
    }
    r := Conflicted;
  }

  lemma NotPrepared(ev: seq<Event>, reading: seq<Event>, req: Request)
    requires NoneLanded(ev, req) && Lookups(reading) && |reading| == 1 && IsRead(reading[0])
    requires ev != [] ==> !ev[|ev| - 1].SpecSent?
    ensures NoneLanded(ev + reading, req)
  {
    hide MayHaveLanded;
    LookupsLandNothing(reading, req);
    LandedApart(ev, reading, req);
  }

  /** A try adds nothing that may have landed when it is refused for the name. */
  lemma OneTry(before: seq<Event>, read: Event, sending: seq<Event>, name: string, written: bool, conflict: bool,
               req: Request)
    requires NoneLanded(before, req) && (before != [] ==> !before[|before| - 1].SpecSent?)
    requires read.AppRead? && |sending| == 2 && sending[0].SpecSent? && Adds(read.spec, sending[0].spec, name, req)
    requires Answers(sending[1], OutcomeOf(written, conflict)) && !(written && conflict)
    ensures var ev := before + ([read] + sending); if conflict then NoneLanded(ev, req) else LandedAs(ev, name, req)
  {
    hide Adds;
    var step := [read] + sending;
    LandedApart(before, step, req);
    var ev := before + step;
    if conflict {
      forall k ensures !MayHaveLanded(ev, k, req) {
        assert k - |before| == 1 ==> Answers(step[2], NameConflict);
      }
    } else {
      assert ev[|ev| - 3] == read && ev[|ev| - 2] == sending[0] && ev[|ev| - 1] == sending[1];
    }
  }

  lemma OneWrite(read: Event, sending: seq<Event>, name: string, req: Request)
    requires read.AppRead? && |sending| == 2 && sending[0].SpecSent? && sending[1].UpdateAnswered? &&
             NAME_PREFIX <= name
    requires Adds(read.spec, sending[0].spec, name, req) || Removes(read.spec, sending[0].spec, name)
    ensures Justified([read] + sending, req) && Writes([read] + sending) == 1
  {
    hide Adds, Removes;
    assert Step(read, sending[0], req);
    assert [read] + sending == [read] + [sending[0]] + [sending[1]];
    WritesConcat([read] + [sending[0]], [sending[1]]);
    WritesConcat([read], [sending[0]]);
    assert Writes([read]) == 0 && Writes([sending[0]]) == 1 && Writes([sending[1]]) == 0;
  }

  // ----- restore -----

  /** Removes the generated job from the spec just read; one already gone needs no write. */
  method Restore(server: Server, appID: string, name: string, ghost orig: AppSpec, ghost req: Request)
    returns (ok: bool, ghost ev: seq<Event>)
    requires NAME_PREFIX <= name && (server.quiet ==> Residue(server.live, orig, name))
    modifies server
    ensures server.log == old(server.log) + ev && Justified(ev, req) && Writes(ev) <= 1
    ensures (|ev| == 1 || |ev| == 3) && IsRead(ev[0]) && NoneLanded(ev, req)
    ensures RestoreTried(ev, name) && (ok <==> RestoreShown(ev, name))
    ensures server.quiet ==> Residue(server.live, orig, name) && (ok ==> server.live == orig)
    ensures server.reliable && appID == server.appID ==> ok
  {
    hide ComponentExists, HasJob, Without, Justified, Writes, NoneLanded, Adds, Removes, RestoreShown, RestoreTried,
         Residue;
    var app;
    app, ev := server.Get(appID);
    LookupsJustified(ev, req);
    LookupsLandNothing(ev, req);
    ShownByRead(ev[0], name);
    if app.Lost? || app.value.None? || app.value.value.spec.None? {
      return false, ev;
    }
    var live := app.value.value.spec.value;
    var jobs := RemoveJobs(live.jobs, name);
    WithoutShortens(live.jobs, name);
    if server.quiet {
      ResidueRemoved(live, orig, name);
    }
    if |jobs| == |live.jobs| {
      return true, ev;
    }
    ghost var more;
    RemovalShows(live, name);
    ok, more := SendRemoval(server, appID, live, live.(jobs := jobs), name);
    OneWrite(ev[0], more, name, req);
    RemovalLandsNothing(ev[0], more, name, req);
    ShownByRemoval(ev[0], more, name);
    assert ev + more == [ev[0]] + more;
    ev := ev + more;
  }

  lemma ShownByRead(read: Event, name: string)
    ensures RestoreShown([read], name) <==> read.AppRead? && !HasJob(read.spec.jobs, name)
    ensures RestoreTried([read], name) <==> read.ReadFailed? || (read.AppRead? && !HasJob(read.spec.jobs, name))
  {
  }

  lemma ShownByRemoval(read: Event, sending: seq<Event>, name: string)
    requires read.AppRead? && |sending| == 2 && sending[0].SpecSent? && sending[1].UpdateAnswered?
    requires Removes(read.spec, sending[0].spec, name)
    ensures RestoreTried([read] + sending, name)
    ensures RestoreShown([read] + sending, name) <==> sending[1].outcome == Stored
  {
    hide Removes, HasJob;
  }

  lemma RemovalShows(live: AppSpec, name: string)
    ensures HasJob(live.jobs, name) ==> Removes(live, live.(jobs := Without(live.jobs, name)), name)
  {
  }

  /** The write of a spec without the job, all of whose jobs the API holds. */
  method SendRemoval(server: Server, appID: string, ghost live: AppSpec, restored: AppSpec, name: string)
    returns (ok: bool, ghost ev: seq<Event>)
    requires Removes(live, restored, name) && (server.quiet ==> server.live == live)
    requires forall j :: j in restored.jobs ==> j in live.jobs
    modifies server
    ensures server.log == old(server.log) + ev
    ensures |ev| == 2 && ev[0] == SpecSent(restored) && ev[1].UpdateAnswered? && (ok <==> ev[1].outcome == Stored)
    ensures server.quiet ==> server.live == old(server.live) || server.live == restored
    ensures server.quiet && ok ==> server.live == restored
    ensures server.reliable ==> ok
  {
    ghost var before := server.live;
    var reply, conflict;
    reply, conflict, ev := server.Update(appID, restored);
    if server.quiet && server.live != before {
      KnownJobsStoredAsSent(before, restored, server.live);
    }
    if server.quiet && reply.Answered? {
      KnownJobsStoredAsSent(before, restored, server.live);
    }
    ok := reply.Answered?;
  }

  /** A removal adds no job. */
  lemma RemovalLandsNothing(read: Event, sending: seq<Event>, name: string, req: Request)
    requires read.AppRead? && |sending| == 2 && sending[0].SpecSent? && sending[1].UpdateAnswered?
    requires Removes(read.spec, sending[0].spec, name)
    ensures NoneLanded([read] + sending, req)
  {
    hide ComponentExists, JobOf;
    WithoutShortens(read.spec.jobs, name);
    assert |sending[0].spec.jobs| <= |read.spec.jobs|;
  }

  /** Taking the generated job out of what is left gives the original back, job order included. */
  lemma ResidueRemoved(live: AppSpec, orig: AppSpec, name: string)
    requires Residue(live, orig, name)
    ensures live.(jobs := Without(live.jobs, name)) == orig && Residue(orig, orig, name)
    ensures |Without(live.jobs, name)| == |live.jobs| ==> live == orig
    ensures forall j :: j in Without(live.jobs, name) ==> j in live.jobs
  {
    if live == orig {
      WithoutAbsent(orig.jobs, name);
    } else {
      var j: Job :| j.name == name && live == PriorPlus(orig, j);
      AppendThenRemove(orig.jobs, j);
    }
  }

  // ----- waiting for the invocation -----

  predicate Ended(i: Option<Invocation>, name: string) {
    i.Some? && i.value.jobName == name && i.value.phase in {Succeeded, Failed, Canceled, Skipped}
  }

  ghost predicate SawEnd(ev: seq<Event>, i: Invocation, name: string) {
    Ended(Some(i), name) && exists k :: 0 <= k < |ev| && ev[k].InvocationsSeen? && Some(i) in ev[k].items
  }

  method ListInvocations(server: Server, appID: string)
    returns (r: Option<seq<Option<Invocation>>>, ghost ev: seq<Event>)
    modifies server
    ensures server.log == old(server.log) + ev && Lookups(ev) && forall e :: e in ev ==> e.InvocationsSeen?
    ensures server.quiet ==> server.live == old(server.live)
    ensures r.Some? ==>
              forall i :: i in r.value ==> exists k :: 0 <= k < |ev| && ev[k].InvocationsSeen? && i in ev[k].items
  {
    var page, out := 1, [];
    ev := [];
    while true
      invariant server.log == old(server.log) + ev && Lookups(ev) && forall e :: e in ev ==> e.InvocationsSeen?
      invariant server.quiet ==> server.live == old(server.live)
      invariant forall i :: i in out ==> exists k :: 0 <= k < |ev| && ev[k].InvocationsSeen? && i in ev[k].items
      invariant page <= server.invocationPages + 1
      decreases server.invocationPages + 1 - page
    {
      var answer;
      ghost var more, before := [], ev;
      answer, more := server.ListJobInvocations(appID, page);
      ev := ev + more;
      if answer.Lost? {
        return None, ev;
      }
      assert forall k :: 0 <= k < |before| ==> ev[k] == before[k];
      assert ev[|before|].items == answer.value.0;
      out := out + answer.value.0;
      if answer.value.1 {
        return Some(out), ev;
      }
      page := page + 1;
    }
  }

  /** Polls until the job's invocation has ended; `polls` is how many fit before the deadline. */
  method WaitForInvocation(server: Server, appID: string, name: string, polls: nat)
    returns (ended: bool, last: Option<Invocation>, ghost ev: seq<Event>)
    modifies server
    ensures server.log == old(server.log) + ev && Lookups(ev) && forall e :: e in ev ==> e.InvocationsSeen?
    ensures server.quiet ==> server.live == old(server.live)
    ensures ended ==> last.Some? && SawEnd(ev, last.value, name)
  {
    last, ev := None, [];
    var left := polls;
    while true
      invariant server.log == old(server.log) + ev && Lookups(ev) && forall e :: e in ev ==> e.InvocationsSeen?
      invariant server.quiet ==> server.live == old(server.live)
      decreases left
    {
      var items;
      ghost var more, before := [], ev;
      items, more := ListInvocations(server, appID);
      ev := ev + more;
      if items.None? {
        return false, last, ev;
      }
      for j := 0 to |items.value| {
        var item := items.value[j];
        if item.Some? && item.value.jobName == name {
          last := item;
          if Ended(item, name) {
            assert item in items.value;
            ghost var k :| 0 <= k < |more| && more[k].InvocationsSeen? && item in more[k].items;
            assert ev[|before| + k] == more[k];
            return true, last, ev;
          }
        }
      }
      if left == 0 {
        return false, last, ev;
      }
      left := left - 1;
    }
  }

  // ----- the whole repair -----

  /** Every write that may have landed is followed by the read that a restore starts with. */
  ghost predicate RestoreFollows(ev: seq<Event>, req: Request) {
    forall k :: MayHaveLanded(ev, k, req) ==> exists j: nat :: k < j < |ev| && IsRead(ev[j])
  }

  /** Some write that may have landed carries the name. */
  ghost predicate LandedUnder(ev: seq<Event>, name: string, req: Request) {
    exists k :: MayHaveLanded(ev, k, req) && Adds(ev[k - 1].spec, ev[k].spec, name, req)
  }

  lemma RepairTrace(launching: seq<Event>, waiting: seq<Event>, restoring: seq<Event>, name: string, req: Request)
    requires LandedAs(launching, name, req) && forall e :: e in waiting ==> e.InvocationsSeen?
    requires NoneLanded(restoring, req)
    requires (|restoring| == 1 || |restoring| == 3) && IsRead(restoring[0])
    ensures var ev := launching + waiting + restoring;
            && RestoreFollows(ev, req) && LandedUnder(ev, name, req)
            && RestoreShown(ev, name) == RestoreShown(restoring, name) &&
               RestoreTried(ev, name) == RestoreTried(restoring, name)
  {
    hide MayHaveLanded, LandedAs, LandedUnder, RestoreShown, RestoreTried;
    var ev, w := launching + waiting + restoring, |launching + waiting|;
    LandedStays(launching, waiting + restoring, name, req);
    assert launching + (waiting + restoring) == ev;
    ShownAtEnd(launching + waiting, restoring, name);
    assert Lookups(waiting);
    LookupsLandNothing(waiting, req);
    assert waiting != [] ==> waiting[|waiting| - 1] in waiting && waiting[0] in waiting;
    LandedApart(launching, waiting, req) by {
      LandedEnds(launching, name, req);
    }
    LandedEnds(launching, name, req);
    assert forall i :: 0 <= i < |waiting| ==> waiting[i] in waiting;
    LandedApart(launching + waiting, restoring, req);
    assert ev[w] == restoring[0];
    forall k | MayHaveLanded(ev, k, req) ensures exists j: nat :: k < j < |ev| && IsRead(ev[j]) {
      assert MayHaveLanded(launching + waiting, k, req);
      WithinBounds(launching + waiting, k, req);
      assert k < w < |ev| && IsRead(ev[w]);
    }
  }

  lemma WithinBounds(ev: seq<Event>, k: int, req: Request)
    requires MayHaveLanded(ev, k, req)
    ensures 0 < k < |ev|
  {
  }

  lemma LandedEnds(ev: seq<Event>, name: string, req: Request)
    requires LandedAs(ev, name, req)
    ensures ev != [] && ev[|ev| - 1].UpdateAnswered?
  {
  }

  lemma LandedStays(launching: seq<Event>, more: seq<Event>, name: string, req: Request)
    requires LandedAs(launching, name, req)
    ensures LandedUnder(launching + more, name, req)
  {
    hide Adds;
    var l, ev := |launching|, launching + more;
    assert ev[l - 3] == launching[l - 3] && ev[l - 2] == launching[l - 2] && ev[l - 1] == launching[l - 1];
    assert MayHaveLanded(ev, l - 2, req);
  }

  lemma ShownAtEnd(before: seq<Event>, restoring: seq<Event>, name: string)
    requires (|restoring| == 1 || |restoring| == 3) && IsRead(restoring[0])
    ensures RestoreShown(before + restoring, name) == RestoreShown(restoring, name)
    ensures RestoreTried(before + restoring, name) == RestoreTried(restoring, name)
  {
    hide Removes, HasJob;
    var w, ev := |before|, before + restoring;
    assert forall i :: 0 <= i < |restoring| ==> ev[w + i] == restoring[i];
  }

  /**
   Every write that may have landed is followed by an attempt to restore; when the restore is shown to have worked, or
   no write may have landed, the original spec is what is live; a report without error rests on a restore
   that worked, and one of success on an invocation seen to succeed.
   */
  method RepairDirtyMigration(server: Server, app: Option<App>, req: Request, polls: nat)
    returns (r: Result, ghost name: Option<string>, ghost ev: seq<Event>)
    modifies server
    ensures server.log == old(server.log) + ev && Justified(ev, req) && Writes(ev) <= UPDATE_TRIES + 1
    ensures RestoreFollows(ev, req)
    ensures name.None? ==> NoneLanded(ev, req) && (server.quiet ==> server.live == old(server.live))
    ensures name.Some? ==> LandedUnder(ev, name.value, req) && RestoreTried(ev, name.value)
    ensures name.Some? && server.quiet ==>
              Residue(server.live, old(server.live), name.value) &&
              (RestoreShown(ev, name.value) ==> server.live == old(server.live))
    ensures r.Report? && !r.failed ==> name.Some? && RestoreShown(ev, name.value)
    ensures server.reliable && app.Some? && app.value.id == server.appID ==>
              && (name.Some? ==> RestoreShown(ev, name.value))
              && (server.quiet ==> server.live == old(server.live))
    ensures r.Report? && r.succeeded ==>
              name.Some? && exists i: Invocation :: i.phase == Succeeded && i.id == r.jobID && SawEnd(ev, i, name.value)
  {
    hide Residue, Justified, Writes, SawEnd, NoneLanded, LandedAs, RestoreFollows, RestoreShown, RestoreTried,
         LandedUnder;
    name, ev := None, [];
    LookupsJustified(ev, req);
    LookupsLandNothing(ev, req);
    NoneFollows(ev, req);
    if !req.valid || app.None? || app.value.id == "" || app.value.spec.None? {
      return Refused, name, ev;
    }
    var appID := app.value.id;
    var preflight;
    preflight, ev := server.ListJobInvocations(appID, 1);
    LookupsJustified(ev, req);
    LookupsLandNothing(ev, req);
    NoneFollows(ev, req);
    if preflight.Lost? {
      return Refused, name, ev;
    }
    ghost var orig := server.live;
    var launch;
    ghost var launching;
    launch, launching := LaunchRepair(server, appID, req);
    Chain(ev, launching, req);
    if launch.Unprepared? || launch.Conflicted? {
      StillNone(ev, launching, req);
      ev := ev + launching;
      r := if launch.Unprepared? then Refused else Report(false, "", true);
      return r, name, ev;
    }
    LandedLater(ev, launching, launch.name, req);
    name := Some(launch.name);
    ghost var ending;
    r, ending := AwaitAndRestore(server, appID, launch.name, launch.Written?, req, polls, ev + launching, orig);
    ev := ev + launching + ending;
  }

  /** What follows a write that may have landed: wait when it was answered, cancel what runs on, restore. */
  method AwaitAndRestore(server: Server, appID: string, name: string, written: bool, req: Request, polls: nat,
                         ghost launched: seq<Event>, ghost orig: AppSpec)
    returns (r: Result, ghost ev: seq<Event>)
    requires NAME_PREFIX <= name && (server.quiet ==> Residue(server.live, orig, name))
    requires LandedAs(launched, name, req) && Justified(launched, req) && Writes(launched) <= UPDATE_TRIES
    modifies server
    ensures server.log == old(server.log) + ev
    ensures var all := launched + ev;
            && Justified(all, req) && Writes(all) <= UPDATE_TRIES + 1
            && RestoreFollows(all, req) && LandedUnder(all, name, req) && RestoreTried(all, name)
            && (server.quiet ==> Residue(server.live, orig, name) && (RestoreShown(all, name) ==> server.live == orig))
            && r.Report? && (!r.failed ==> RestoreShown(all, name))
            && (server.reliable && appID == server.appID ==> RestoreShown(all, name))
            && (r.succeeded ==> exists i: Invocation :: i.phase == Succeeded && i.id == r.jobID && SawEnd(all, i, name))
  {
    hide Residue, Justified, Writes, SawEnd, NoneLanded, LandedAs, RestoreFollows, RestoreShown, RestoreTried,
         LandedUnder;
    var ended, last := false, None;
    ev := [];
    if written {
      ended, last, ev := WaitForInvocation(server, appID, name, polls);
      if !ended && last.Some? && last.value.id != "" {
        var cancelled := server.CancelJobInvocation(appID, last.value.id);
      }
    }
    LookupsJustified(ev, req);
    SeenInside(launched, ev, last, name);
    Chain(launched, ev, req);
    var ok;
    ghost var restoring;
    ok, restoring := Restore(server, appID, name, orig, req);
    SeenInside(launched + ev, restoring, last, name);
    Chain(launched + ev, restoring, req);
    RepairTrace(launched, ev, restoring, name, req);
    assert launched + ev + restoring == launched + (ev + restoring);
    ev := ev + restoring;
    var id := if last.Some? then last.value.id else "";
    r := Report(ok && ended && last.value.phase == Succeeded, id, !ok || !ended);
  }

  lemma NoneFollows(ev: seq<Event>, req: Request)
    requires NoneLanded(ev, req)
    ensures RestoreFollows(ev, req)
  {
  }

  lemma StillNone(a: seq<Event>, b: seq<Event>, req: Request)
    requires NoneLanded(a, req) && NoneLanded(b, req) && Lookups(a)
    requires b != [] ==> !b[0].SpecSent? && !b[0].UpdateAnswered?
    ensures NoneLanded(a + b, req) && RestoreFollows(a + b, req)
  {
    hide MayHaveLanded;
    assert a != [] ==> a[|a| - 1] in a;
    LandedApart(a, b, req);
  }

  lemma LandedLater(a: seq<Event>, b: seq<Event>, name: string, req: Request)
    requires LandedAs(b, name, req)
    ensures LandedAs(a + b, name, req)
  {
    hide Adds;
    var n, m := |a + b|, |b|;
    assert (a + b)[n - 3] == b[m - 3] && (a + b)[n - 2] == b[m - 2] && (a + b)[n - 1] == b[m - 1];
  }

  lemma SeenInside(a: seq<Event>, b: seq<Event>, last: Option<Invocation>, name: string)
    ensures last.Some? && (SawEnd(a, last.value, name) || SawEnd(b, last.value, name)) ==>
              SawEnd(a + b, last.value, name)
  {
    if last.Some? {
      var i := last.value;
      if SawEnd(a, i, name) {
        var k :| 0 <= k < |a| && a[k].InvocationsSeen? && Some(i) in a[k].items;
        assert (a + b)[k] == a[k];
      } else if SawEnd(b, i, name) {
        var k :| 0 <= k < |b| && b[k].InvocationsSeen? && Some(i) in b[k].items;
        assert (a + b)[|a| + k] == b[k];
      }
    }
  }
}
