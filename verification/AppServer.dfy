/**
 The App Platform API as the one-off job runner and the migration repair see it: one app whose spec
 is written whole, without compare-and-swap. A reply may be lost after the write took effect.
 */
module AppServer {
  import opened AppModel
  import opened JobDigest
  import opened Wrappers

  /** What a client did or saw, in order; only what later claims speak about is recorded. */
  datatype Event =
    | AppRead(spec: AppSpec)
    | ReadFailed
    | SpecSent(spec: AppSpec)
    | UpdateAnswered(outcome: WriteOutcome, live: AppSpec)
    | DeploymentSeen(deployment: Deployment)
    | DeploymentsListed(listed: seq<Option<Deployment>>, last: bool)
    | InvocationsSeen(items: seq<Option<Invocation>>, last: bool)
    | CallEnded(over: bool, live: AppSpec)

  /** How a write was answered: stored, refused for a component's name, or not at all. */
  datatype WriteOutcome = Stored | NameConflict | NoAnswer

  /**
   What the API may store for a spec: a job it already holds is kept as sent, a new one may be
   respelled (secrets encrypted, variables reordered, the timeout reformatted).
   */
  predicate Accepted(before: AppSpec, sent: AppSpec, stored: AppSpec) {
    && stored.(jobs := sent.jobs) == sent
    && |stored.jobs| == |sent.jobs|
    && forall i | 0 <= i < |sent.jobs| ::
         stored.jobs[i] == sent.jobs[i] ||
         (sent.jobs[i].Some? && stored.jobs[i].Some? && sent.jobs[i] !in before.jobs &&
          Respelled(sent.jobs[i].value, stored.jobs[i].value))
  }

  /** A spec all of whose jobs the API already holds is stored as sent. */
  lemma KnownJobsStoredAsSent(before: AppSpec, sent: AppSpec, stored: AppSpec)
    requires Accepted(before, sent, stored)
    requires forall j :: j in sent.jobs ==> j in before.jobs
    ensures stored == sent
  {
    assert forall i :: 0 <= i < |sent.jobs| ==> sent.jobs[i] in sent.jobs && stored.jobs[i] == sent.jobs[i];
    assert stored.jobs == sent.jobs;
  }

  function PriorPlus(prior: AppSpec, job: Job): AppSpec {
    prior.(jobs := prior.jobs + [Some(job)])
  }

  /** With nobody else editing, the live spec is one of these two. */
  ghost predicate PriorOrOneMore(live: AppSpec, prior: AppSpec, job: Job) {
    live == prior ||
    exists j: Job :: live == PriorPlus(prior, j) && j.name == job.name && (j == job || Respelled(job, j))
  }

  lemma LaunchStored(prior: AppSpec, job: Job, stored: AppSpec)
    requires Accepted(prior, PriorPlus(prior, job), stored)
    ensures PriorOrOneMore(stored, prior, job)
  {
    var sent := PriorPlus(prior, job);
    var n := |prior.jobs|;
    assert forall i :: 0 <= i < n ==> sent.jobs[i] == prior.jobs[i] && sent.jobs[i] in prior.jobs;
    assert sent.jobs[n] == Some(job);
    var j := stored.jobs[n].value;
    assert stored.jobs == prior.jobs + [Some(j)];
    assert stored == PriorPlus(prior, j);
  }

  /** A read of the app was asked for, answered or not. */
  predicate IsRead(e: Event) {
    e.AppRead? || e.ReadFailed?
  }

  ghost predicate NoWrites(ev: seq<Event>) {
    forall e :: e in ev ==> !e.SpecSent?
  }

  /** Events within one call of a client, none of them a write. */
  ghost predicate Lookups(ev: seq<Event>) {
    forall e :: e in ev ==> !e.SpecSent? && !e.UpdateAnswered? && !e.CallEnded?
  }

  function OutcomeOf(answered: bool, conflict: bool): WriteOutcome {
    if conflict then NameConflict else if answered then Stored else NoAnswer
  }

  class Server {
    const appID: string
    /** Whether nobody but this client edits the app. */
    const quiet: bool
    /** Whether every read and write of the app is answered. */
    const reliable: bool
    /** A deployment's spec never changes, so it is a function of the id. */
    const specOf: string -> AppSpec
    /** After this many pages a listing of invocations has ended. */
    const invocationPages: nat
    var live: AppSpec
    ghost var log: seq<Event>

    ghost predicate Truthful(d: Option<Deployment>) {
      d.Some? && d.value.spec.Some? ==> d.value.spec.value == specOf(d.value.id)
    }

    ghost predicate TruthfulApp(app: Option<App>)
      reads this
    {
      app.Some? ==>
        && (app.value.spec.Some? ==> app.value.spec.value == live)
        && Truthful(app.value.inProgress) && Truthful(app.value.active)
    }

    /** Other editors may change the spec before any request is served. */
    method Interfere()
      modifies this`live
      ensures quiet ==> live == old(live)
    {
      if !quiet {
        live := *;
      }
    }

    method AnyDeployment() returns (d: Option<Deployment>)
      ensures Truthful(d)
    {
      var id: string := *;
      var previous: string := *;
      var phase: DeploymentPhase := *;
      if * {
        d := None;
      } else if * {
        d := Some(Deployment(id, previous, None, phase));
      } else {
        d := Some(Deployment(id, previous, Some(specOf(id)), phase));
      }
    }

    method AnyApp() returns (app: Option<App>)
      ensures TruthfulApp(app)
    {
      var id: string := *;
      var inProgress := AnyDeployment();
      var active := AnyDeployment();
      if * {
        app := None;
      } else if * {
        app := Some(App(id, None, inProgress, active));
      } else {
        app := Some(App(id, Some(live), inProgress, active));
      }
    }

    method Get(appID: string) returns (r: Reply<Option<App>>, ghost ev: seq<Event>)
      modifies this
      ensures quiet ==> live == old(live)
      ensures r.Answered? ==> TruthfulApp(r.value)
      ensures log == old(log) + ev
      ensures ev == if r.Answered? && r.value.Some? && r.value.value.spec.Some? then [AppRead(live)] else [ReadFailed]
      ensures reliable && appID == this.appID ==>
                r.Answered? && r.value.Some? && r.value.value.id == appID && r.value.value.spec == Some(live)
    {
      Interfere();
      ev := [ReadFailed];
      var lost: bool := *;
      if lost && !reliable {
        r := Lost;
      } else {
        var app := AnyApp();
        if reliable && appID == this.appID {
          app := Some(App(appID, Some(live), if app.Some? then app.value.inProgress else None,
                          if app.Some? then app.value.active else None));
        }
        r := Answered(app);
        if app.Some? && app.value.spec.Some? {
          ev := [AppRead(live)];
        }
      }
      log := log + ev;
    }

    /** A full-spec write. A name conflict is an answer that says nothing was written. */
    method Update(appID: string, spec: AppSpec) returns (r: Reply<Option<App>>, conflict: bool, ghost ev: seq<Event>)
      modifies this
      ensures quiet ==> live == old(live) || Accepted(old(live), spec, live)
      ensures quiet && r.Answered? ==> Accepted(old(live), spec, live)
      ensures conflict ==> r.Lost? && (quiet ==> live == old(live))
      ensures r.Answered? ==> TruthfulApp(r.value)
      ensures ev == [SpecSent(spec), UpdateAnswered(OutcomeOf(r.Answered?, conflict), live)] && log == old(log) + ev
      ensures reliable ==> r.Answered?
    {
      Interfere();
      var lost: bool := *;
      var applied: bool := *;
      conflict := *;
      conflict := conflict && lost && !reliable;
      applied := !conflict && (applied || !lost || reliable);
      if applied {
        var stored: AppSpec := *;
        live := if Accepted(live, spec, stored) then stored else spec;
      }
      r := Lost;
      if !lost || reliable {
        var app := AnyApp();
        r := Answered(app);
      }
      ev := [SpecSent(spec), UpdateAnswered(OutcomeOf(r.Answered?, conflict), live)];
      log := log + ev;
    }

    /** A client's call is over; the trace keeps where, with the live spec at that moment. */
    method EndCall(ghost over: bool)
      modifies this`log
      ensures log == old(log) + [CallEnded(over, live)]
    {
      log := log + [CallEnded(over, live)];
    }

    method GetDeployment(appID: string, id: string) returns (r: Reply<Option<Deployment>>, ghost ev: seq<Event>)
      modifies this
      ensures reliable ==> r.Answered?
      ensures quiet ==> live == old(live)
      ensures r.Answered? ==> Truthful(r.value)
      ensures log == old(log) + ev
      ensures ev == if r.Answered? && r.value.Some? then [DeploymentSeen(r.value.value)] else []
    {
      Interfere();
      ev := [];
      var lost: bool := *;
      if lost && !reliable {
        r := Lost;
      } else {
        var d := AnyDeployment();
        r := Answered(d);
        if d.Some? {
          ev := [DeploymentSeen(d.value)];
        }
      }
      log := log + ev;
    }

    /** One page of past deployments, and whether it is the last. */
    method ListDeployments(appID: string, page: nat)
      returns (r: Reply<(seq<Option<Deployment>>, bool)>, ghost ev: seq<Event>)
      modifies this
      ensures reliable ==> r.Answered?
      ensures quiet ==> live == old(live)
      ensures log == old(log) + ev
      ensures ev == if r.Answered? then [DeploymentsListed(r.value.0, r.value.1)] else []
    {
      Interfere();
      ev := [];
      var items: seq<Option<Deployment>> := *;
      var last: bool := *;
      var lost: bool := *;
      if lost && !reliable {
        r := Lost;
      } else {
        r := Answered((items, last));
        ev := [DeploymentsListed(items, last)];
      }
      log := log + ev;
    }

    method CancelDeployment(appID: string, id: string) returns (ok: bool)
      modifies this`live
      ensures quiet ==> live == old(live)
    {
      Interfere();
      ok := *;
    }

    /** One page of invocations, and whether it is the last. */
    method ListJobInvocations(appID: string, page: nat)
      returns (r: Reply<(seq<Option<Invocation>>, bool)>, ghost ev: seq<Event>)
      modifies this
      ensures reliable ==> r.Answered?
      ensures quiet ==> live == old(live)
      ensures r.Answered? && page >= invocationPages ==> r.value.1
      ensures log == old(log) + ev
      ensures ev == if r.Answered? then [InvocationsSeen(r.value.0, r.value.1)] else []
    {
      Interfere();
      ev := [];
      var items: seq<Option<Invocation>> := *;
      var last: bool := *;
      var lost: bool := *;
      if lost && !reliable {
        r := Lost;
      } else {
        r := Answered((items, last || page >= invocationPages));
        ev := [InvocationsSeen(items, r.value.1)];
      }
      log := log + ev;
    }

    method GetJobInvocation(appID: string, id: string) returns (r: Reply<Option<Invocation>>, ghost ev: seq<Event>)
      modifies this
      ensures reliable ==> r.Answered?
      ensures quiet ==> live == old(live)
      ensures log == old(log) + ev
      ensures ev == if r.Answered? then [InvocationsSeen([r.value], true)] else []
    {
      Interfere();
      ev := [];
      var item: Option<Invocation> := *;
      var lost: bool := *;
      if lost && !reliable {
        r := Lost;
      } else {
        r := Answered(item);
        ev := [InvocationsSeen([item], true)];
      }
      log := log + ev;
    }

    method CancelJobInvocation(appID: string, id: string) returns (ok: bool)
      modifies this`live
      ensures quiet ==> live == old(live)
    {
      Interfere();
      ok := *;
    }
  }
}
