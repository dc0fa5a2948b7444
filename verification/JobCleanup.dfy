/** Taking the marked job out of the live spec again (internal/app_platform_runner.go, cleanup). */
module JobCleanup {
  import opened AppModel
  import opened AppServer
  import opened JobDigest
  import opened JobHandle
  import opened Wrappers

  /** The live spec is the prior spec plus exactly the one job the handle acknowledged. */
  predicate Removable(spec: AppSpec, m: Metadata) {
    && spec.name == m.appName
    && |Marked(spec.jobs, m.component)| == 1 && OfJob(Marked(spec.jobs, m.component)[0]) == m.componentDigest
    && OfSpec(Rest(spec, m)) == m.prior
  }

  /** The live spec is the prior spec and has no job of the marker's name. */
  predicate Restored(spec: AppSpec, m: Metadata) {
    spec.name == m.appName && !HasJob(spec.jobs, m.component) && OfSpec(spec) == m.prior
  }

  predicate AllAcknowledged(js: seq<Job>, m: Metadata) {
    forall j | j in js :: OfJob(j) == m.componentDigest
  }

  /** Collects the jobs to keep; fails on a changed owned job and on a second marker. */
  method StripOwned(jobs: seq<Option<Job>>, m: Metadata) returns (ok: bool, owned: nat, rest: seq<Option<Job>>)
    ensures ok <==> |Marked(jobs, m.component)| <= 1 && AllAcknowledged(Marked(jobs, m.component), m)
    ensures ok ==> owned == |Marked(jobs, m.component)| && rest == Without(jobs, m.component)
  {
    hide Marked, Without;
    NoJobs(jobs[..0], m.component);
    rest, owned := [], 0;
    ghost var marked: seq<Job> := [];
    for i := 0 to |jobs|
      invariant rest == Without(jobs[..i], m.component)
      invariant marked == Marked(jobs[..i], m.component) && owned == |marked| && AllAcknowledged(marked, m)
    {
      WithoutStep(jobs, i, m.component);
      if IsNamed(jobs[i], m.component) {
        marked := marked + [jobs[i].value];
        MarkedPrefix(jobs, i + 1, m.component);
        if OfJob(jobs[i].value) != m.componentDigest {
          assert marked[|marked| - 1] == Marked(jobs, m.component)[|marked| - 1];
          return false, owned, rest;
        }
        owned := owned + 1;
      } else {
        rest := rest + [jobs[i]];
      }
    }
    assert jobs[..|jobs|] == jobs;
    ok := owned <= 1;
  }

  /** No cleanup, or one read, at most one write, one read-back. */
  ghost predicate CleanupTrace(ev: seq<Event>, m: Metadata) {
    || ev == []
    || (|ev| == 1 && IsRead(ev[0]))
    || (&& |ev| == 4 && ev[0].AppRead? && Removable(ev[0].spec, m) && ev[1] == SpecSent(Rest(ev[0].spec, m))
        && ev[2].UpdateAnswered? && IsRead(ev[3]))
  }

  /** A spec whose cleanup has nothing in its way: the prior one, with or without the owned job. */
  predicate Cleanable(spec: AppSpec, m: Metadata) {
    (Removable(spec, m) || Restored(spec, m)) && !ComponentExists(Rest(spec, m), m.component)
  }

  /** Stripping the one owned job of a freshly read spec, judged against the prior digest. */
  method Judge(spec: AppSpec, m: Metadata) returns (ok: bool, write: bool, restored: AppSpec)
    requires spec.name == m.appName
    ensures ok && write <==> Removable(spec, m)
    ensures ok && !write <==> Restored(spec, m)
    ensures ok ==> restored == Rest(spec, m)
  {
    var owned, rest;
    ok, owned, rest := StripOwned(spec.jobs, m);
    restored, write := spec.(jobs := rest), owned > 0;
    if !ok {
      return;
    }
    if owned == 0 {
      WithoutAbsent(spec.jobs, m.component);
    }
    ok := OfSpec(restored) == m.prior;
  }

  /**
   Restores the spec by removing only the unchanged owned job from a spec just read. Drift, a changed
   job or a second marker stop it before any write. Nil means the last read showed the prior spec.
   */
  method Cleanup(server: Server, m: Metadata) returns (err: Option<Error>, ghost ev: seq<Event>)
    modifies server
    ensures server.log == old(server.log) + ev && CleanupTrace(ev, m) && ev != []
    ensures err.Some? ==> err.value == CleanupPending
    ensures err.None? ==> ev[|ev| - 1].AppRead? && Restored(ev[|ev| - 1].spec, m)
    ensures ev[0].AppRead? && !Removable(ev[0].spec, m) && !Restored(ev[0].spec, m) ==> err.Some? && |ev| == 1
    ensures ev[0].AppRead? && Restored(ev[0].spec, m) ==> |ev| == 1
    ensures server.quiet ==> server.live == old(server.live) || OfSpec(server.live) == m.prior
    ensures server.quiet && ev[0].AppRead? ==> ev[0] == AppRead(old(server.live))
    ensures server.quiet && err.None? ==> Restored(server.live, m)
    ensures server.quiet && |ev| == 4 ==> ev[2].live == server.live
    ensures server.quiet && server.reliable && m.appID == server.appID && Cleanable(old(server.live), m) ==> err.None?
  {
    var app;
    app, ev := server.Get(m.appID);
    if app.Lost? {
      return Some(CleanupPending), ev;
    }
    if app.value.None? || app.value.value.id != m.appID || app.value.value.spec.None? ||
       app.value.value.spec.value.name != m.appName {
      return Some(CleanupPending), ev;
    }
    var spec := app.value.value.spec.value;
    var ok, write, restored := Judge(spec, m);
    if !ok {
      return Some(CleanupPending), ev;
    }
    if !write {
      return None, ev;
    }
    ghost var more;
    err, more := WriteAndVerify(server, m, spec, restored);
    ev := ev + more;
  }

  /** The write, whose reply does not matter, and the read-back that decides. */
  method WriteAndVerify(server: Server, m: Metadata, ghost spec: AppSpec, restored: AppSpec)
    returns (err: Option<Error>, ghost ev: seq<Event>)
    requires Removable(spec, m) && restored == Rest(spec, m)
    requires server.quiet ==> server.live == spec
    modifies server
    ensures server.log == old(server.log) + ev
    ensures |ev| == 3 && ev[0] == SpecSent(restored) && ev[1].UpdateAnswered? && IsRead(ev[2])
    ensures err.Some? ==> err.value == CleanupPending
    ensures err.None? ==> ev[2].AppRead? && Restored(ev[2].spec, m)
    ensures server.quiet ==> server.live == old(server.live) || server.live == restored
    ensures server.quiet && err.None? ==> Restored(server.live, m)
    ensures server.quiet ==> ev[1].live == server.live
    ensures server.quiet && server.reliable && m.appID == server.appID && !ComponentExists(restored, m.component) ==>
              err.None?
  {
    ghost var before := server.live;
    var reply, conflict;
    reply, conflict, ev := server.Update(m.appID, restored);
    if server.quiet && (server.live != before || reply.Answered?) {
      KnownJobsStoredAsSent(before, restored, server.live);
    }
    var readback;
    ghost var more;
    readback, more := server.Get(m.appID);
    ev := ev + more;
    if readback.Lost? || readback.value.None? || readback.value.value.spec.None? ||
       readback.value.value.id != m.appID ||
       ComponentExists(readback.value.value.spec.value, m.component) ||
       OfSpec(readback.value.value.spec.value) != m.prior
    {
      return Some(CleanupPending), ev;
    }
    return None, ev;
  }
}
