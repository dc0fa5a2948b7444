/**
 Which deployment a health check may believe after an update (internal/drivers/deploy.go and
 internal/drivers/app_platform.go).
 */
module DeployTracking {
  import opened AppModel
  import opened ServiceImages
  import opened Wrappers

  /** The three deployment slots of an app, and the services of its spec when it came with one. */
  datatype Slots = Slots(inProgress: Option<Deployment>, pending: Option<Deployment>, active: Option<Deployment>,
                         services: Option<Services>)

  /** What a driver remembers of an update. */
  datatype Wait = Wait(target: string, previousActive: string)

  function IdOf(d: Option<Deployment>): string {
    if d.None? then "" else d.value.id
  }

  predicate IsNewer(d: Option<Deployment>, previousActive: string) {
    d.Some? && d.value.id != "" && (d.value.id != previousActive || d.value.previous == previousActive)
  }

  predicate IsHistorical(d: Deployment, previousActive: string) {
    d.id != "" && (previousActive == "" || d.previous == previousActive)
  }

  function SelectUpdate(app: Option<Slots>, previousActive: string): (d: Option<Deployment>)
    ensures d.Some? ==> IsNewer(d, previousActive)
  {
    if app.None? then None
    else if IsNewer(app.value.inProgress, previousActive) then app.value.inProgress
    else if IsNewer(app.value.pending, previousActive) then app.value.pending
    else if IsNewer(app.value.active, previousActive) then app.value.active
    else None
  }

  // ----- the decision as a function of the replies -----

  /** Whether the answer to the app read is enough to settle the target. */
  predicate Settles(w: Wait, d: Option<Deployment>) {
    d.Some? && (w.target == "" || d.value.id == w.target || d.value.previous == w.target)
  }

  predicate Fits(w: Wait, d: Option<Deployment>) {
    d.Some? && if w.target != "" then d.value.id == w.target else IsHistorical(d.value, w.previousActive)
  }

  /** The listed deployment to go by: the target, or the update's own when there is no target yet. */
  function Listed(w: Wait, ds: seq<Option<Deployment>>): (d: Option<Deployment>)
    ensures d.Some? ==> d in ds && Fits(w, d)
    ensures d.None? ==> forall e :: e in ds ==> !Fits(w, e)
  {
    if ds == [] then None
    else if Fits(w, ds[0]) then ds[0]
    else
      assert ds == [ds[0]] + ds[1..];
      Listed(w, ds[1..])
  }

  /** The deployment that the replies make the target, and None when there is none yet. */
  function Decide(w: Wait, app: Option<Slots>, ds: seq<Option<Deployment>>): Option<Deployment> {
    var d := SelectUpdate(app, w.previousActive);
    if Settles(w, d) then d else Listed(w, ds)
  }

  // ----- the premises on deployments -----

  /** A deployment's predecessor is fixed when it is created. */
  predicate Truthful(d: Option<Deployment>, previousOf: string -> string) {
    d.Some? && d.value.id != "" ==> d.value.previous == previousOf(d.value.id)
  }

  ghost predicate TruthfulSlots(app: Option<Slots>, previousOf: string -> string) {
    app.Some? ==>
      Truthful(app.value.inProgress, previousOf) && Truthful(app.value.pending, previousOf) &&
      Truthful(app.value.active, previousOf)
  }

  predicate TruthfulList(ds: seq<Option<Deployment>>, previousOf: string -> string) {
    forall d | d in ds :: Truthful(d, previousOf)
  }

  ghost predicate NonePrecedesItself(previousOf: string -> string) {
    forall id :: id != "" ==> previousOf(id) != id
  }

  /** The target is not the deployment that was active before the update. */
  predicate Apart(w: Wait) {
    w.target == "" || w.target != w.previousActive
  }

  /** The same target, the first one, or the successor of the one before. */
  ghost predicate Follows(next: string, target: string, previousOf: string -> string) {
    next == target || target == "" || previousOf(next) == target
  }

  /** From a target that is not the previously active deployment the decision never reaches it. */
  lemma DecisionIsNew(w: Wait, app: Option<Slots>, ds: seq<Option<Deployment>>, previousOf: string -> string)
    requires NonePrecedesItself(previousOf) && TruthfulSlots(app, previousOf) && TruthfulList(ds, previousOf)
    ensures var d := Decide(w, app, ds);
            d.Some? ==> d.value.id != "" && Follows(d.value.id, w.target, previousOf)
                        && (Apart(w) ==> d.value.id != w.previousActive)
  {
    var d := SelectUpdate(app, w.previousActive);
    assert d.Some? ==> Truthful(d, previousOf);
  }

  /** Some replies make a driver believe the previously active deployment exactly when it is the target. */
  lemma OldBelievedExactly(w: Wait, previousOf: string -> string)
    requires NonePrecedesItself(previousOf)
    ensures (exists app, ds :: TruthfulSlots(app, previousOf) && TruthfulList(ds, previousOf)
                               && Decide(w, app, ds).Some? && Decide(w, app, ds).value.phase == Active
                               && Decide(w, app, ds).value.id == w.previousActive) <==> !Apart(w)
  {
    if !Apart(w) {
      var prior := Deployment(w.target, previousOf(w.target), None, Active);
      var app := Some(Slots(None, None, Some(prior), None));
      var ds := [Some(prior)];
      assert Decide(w, app, ds) == Some(prior);
      assert TruthfulSlots(app, previousOf) && TruthfulList(ds, previousOf);
    } else {
      forall app, ds | TruthfulSlots(app, previousOf) && TruthfulList(ds, previousOf) && Decide(w, app, ds).Some?
        ensures Decide(w, app, ds).value.id != w.previousActive
      {
        DecisionIsNew(w, app, ds, previousOf);
      }
    }
  }

  // ----- the trail of targets -----

  /** The targets since the update, each the successor of the one before. */
  ghost predicate Trail(trail: seq<string>, target: string, previousOf: string -> string) {
    && (if trail == [] then target == "" else trail[|trail| - 1] == target)
    && (forall i :: 0 <= i < |trail| ==> trail[i] != "")
    && forall i :: 0 < i < |trail| ==> previousOf(trail[i]) == trail[i - 1]
  }

  ghost function Extended(trail: seq<string>, target: string): seq<string> {
    if target == "" || (trail != [] && trail[|trail| - 1] == target) then trail else trail + [target]
  }

  lemma TrailExtends(trail: seq<string>, target: string, next: string, previousOf: string -> string)
    requires Trail(trail, target, previousOf) && next != "" && Follows(next, target, previousOf)
    ensures Trail(Extended(trail, next), next, previousOf) && trail <= Extended(trail, next)
  {
  }

  /** When predecessors are older, the target only ever moves to newer deployments. */
  lemma {:induction false} TrailClimbs(trail: seq<string>, target: string, previousOf: string -> string,
                                       age: string -> nat, i: nat, j: nat)
    requires Trail(trail, target, previousOf) && i < j < |trail|
    requires forall id :: id != "" && previousOf(id) != "" ==> age(previousOf(id)) < age(id)
    ensures age(trail[i]) < age(trail[j]) && trail[i] != trail[j]
  {
    assert previousOf(trail[j]) == trail[j - 1] != "";
    if i < j - 1 {
      TrailClimbs(trail, target, previousOf, age, i, j - 1);
    }
  }

  // ----- the API -----

  /** What was asked of the API and what it answered, in order. */
  datatype Event =
    | ReadLost(of: string)
    | AppRead(of: string, app: Option<Slots>)
    | UpdateSent(of: string, sent: Services, answer: Reply<Option<Slots>>)
    | AppCreated(sent: Services, made: Option<string>)
    | AppDeleted(of: string, done: bool)
    | DeploymentCreated(created: Reply<Option<Deployment>>)
    | ListLost
    | DeploymentsListed(ds: seq<Option<Deployment>>)
    | Checked(passed: bool)

  class Apps {
    const previousOf: string -> string
    ghost var log: seq<Event>

    method AnyDeployment() returns (d: Option<Deployment>)
      ensures Truthful(d, previousOf)
    {
      var id: string := *;
      var phase: DeploymentPhase := *;
      var none: bool := *;
      d := if none then None else Some(Deployment(id, previousOf(id), None, phase));
    }

    /** An answer about an app: lost, an empty app, or its slots. */
    method AnyApp() returns (r: Reply<Option<Slots>>)
      ensures r.Answered? ==> TruthfulSlots(r.value, previousOf)
    {
      var a := AnyDeployment();
      var b := AnyDeployment();
      var c := AnyDeployment();
      var services: Option<Services> := *;
      var lost: bool := *;
      var none: bool := *;
      r := if lost then Lost else if none then Answered(None) else Answered(Some(Slots(a, b, c, services)));
    }

    method Get(appID: string) returns (r: Reply<Option<Slots>>, ghost ev: seq<Event>)
      modifies this`log
      ensures r.Answered? ==> TruthfulSlots(r.value, previousOf)
      ensures ev == (if r.Lost? then [ReadLost(appID)] else [AppRead(appID, r.value)]) && log == old(log) + ev
    {
      r := AnyApp();
      ev := if r.Lost? then [ReadLost(appID)] else [AppRead(appID, r.value)];
      log := log + ev;
    }

    method Update(appID: string, sent: Services) returns (r: Reply<Option<Slots>>, ghost ev: seq<Event>)
      modifies this`log
      ensures r.Answered? ==> TruthfulSlots(r.value, previousOf)
      ensures ev == [UpdateSent(appID, sent, r)] && log == old(log) + ev
    {
      r := AnyApp();
      ev := [UpdateSent(appID, sent, r)];
      log := log + ev;
    }

    method CreateApp(sent: Services) returns (made: Option<string>, ghost ev: seq<Event>)
      modifies this`log
      ensures ev == [AppCreated(sent, made)] && log == old(log) + ev
    {
      made := *;
      ev := [AppCreated(sent, made)];
      log := log + ev;
    }

    method DeleteApp(appID: string) returns (done: bool, ghost ev: seq<Event>)
      modifies this`log
      ensures ev == [AppDeleted(appID, done)] && log == old(log) + ev
    {
      done := *;
      ev := [AppDeleted(appID, done)];
      log := log + ev;
    }

    method CreateDeployment(appID: string) returns (r: Reply<Option<Deployment>>, ghost ev: seq<Event>)
      modifies this`log
      ensures r.Answered? ==> Truthful(r.value, previousOf)
      ensures ev == [DeploymentCreated(r)] && log == old(log) + ev
    {
      var d := AnyDeployment();
      var lost: bool := *;
      r := if lost then Lost else Answered(d);
      ev := [DeploymentCreated(r)];
      log := log + ev;
    }

    /** The latest deployments, one page of them. */
    method ListDeployments(appID: string) returns (r: Reply<seq<Option<Deployment>>>, ghost ev: seq<Event>)
      modifies this`log
      ensures r.Answered? ==> TruthfulList(r.value, previousOf)
      ensures ev == (if r.Lost? then [ListLost] else [DeploymentsListed(r.value)]) && log == old(log) + ev
    {
      var ds: seq<Option<Deployment>> := *;
      if !TruthfulList(ds, previousOf) {
        ds := [];
      }
      var lost: bool := *;
      r := if lost then Lost else Answered(ds);
      ev := if r.Lost? then [ListLost] else [DeploymentsListed(r.value)];
      log := log + ev;
    }

    /** Image presence, custom domains: checks whose outcome is not modelled. */
    method Check() returns (ok: bool, ghost ev: seq<Event>)
      modifies this`log
      ensures ev == [Checked(ok)] && log == old(log) + ev
    {
      ok := *;
      ev := [Checked(ok)];
      log := log + ev;
    }
  }

  /** The trace shows the answers from which the target is decided: a read, and a listing unless the read settles. */
  ghost predicate Decided(ev: seq<Event>, w: Wait, d: Option<Deployment>) {
    && ev != [] && ev[0].AppRead?
    && var selected := SelectUpdate(ev[0].app, w.previousActive);
       if Settles(w, selected) then d == selected
       else |ev| > 1 && ev[1].DeploymentsListed? && d == Listed(w, ev[1].ds)
  }

  /** The active slot holds an active deployment. */
  predicate Deployed(app: Option<Slots>) {
    app.Some? && app.value.active.Some? && app.value.active.value.phase == Active
  }

  /** A read of an app whose spec has services. */
  predicate ShowsServices(e: Event) {
    e.AppRead? && e.app.Some? && e.app.value.services.Some?
  }

  /** An answer after which an update is not in. */
  predicate Blocks(e: Event) {
    match e
    case ReadLost(_) => true
    case AppRead(_, app) => app.None?
    case UpdateSent(_, _, answer) => answer.Lost? || answer.value.None?
    case DeploymentCreated(created) => created.Lost?
    case Checked(passed) => !passed
    case _ => false
  }

  /** Why a check of an awaited update does not pass: a lost answer, a target not active yet, or a failed check. */
  ghost predicate NotYet(ev: seq<Event>, w: Wait) {
    || (ev != [] && (ev[|ev| - 1].ReadLost? || ev[|ev| - 1].ListLost? || ev[|ev| - 1] == Checked(false)))
    || exists d :: Decided(ev, w, d) && (d.Some? ==> d.value.phase != Active)
  }

  /** The deployment was in an answer of the trace. */
  ghost predicate SeenIn(ev: seq<Event>, d: Deployment) {
    exists e :: e in ev &&
      match e
      case AppRead(_, app) => app.Some? && Some(d) in {app.value.inProgress, app.value.pending, app.value.active}
      case DeploymentsListed(ds) => Some(d) in ds
      case _ => false
  }

  lemma DecidedIsSeen(ev: seq<Event>, w: Wait, d: Option<Deployment>)
    requires Decided(ev, w, d) && d.Some?
    ensures SeenIn(ev, d.value)
  {
    assert ev[0] in ev;
    if !Settles(w, SelectUpdate(ev[0].app, w.previousActive)) {
      assert ev[1] in ev;
    }
  }

  lemma DecidedGrows(ev: seq<Event>, more: seq<Event>, w: Wait, d: Option<Deployment>)
    requires Decided(ev, w, d)
    ensures Decided(ev + more, w, d)
  {
  }

  /** The tracking both drivers carry: the answer to the read, then a listing when it does not settle. */
  method CurrentTarget(server: Apps, appID: string, w: Wait, app: Option<Slots>, ghost before: seq<Event>)
    returns (ok: bool, d: Option<Deployment>, ghost ev: seq<Event>)
    requires before == [AppRead(appID, app)] && TruthfulSlots(app, server.previousOf) &&
             NonePrecedesItself(server.previousOf)
    modifies server`log
    ensures server.log == old(server.log) + ev &&
            (ev == [] || ev == [ListLost] || (|ev| == 1 && ev[0].DeploymentsListed?))
    ensures ok ==> Decided(before + ev, w, d)
    ensures ok <==> ev != [ListLost]
    ensures ok && d.Some? ==> d.value.id != "" && Follows(d.value.id, w.target, server.previousOf)
                              && (Apart(w) ==> d.value.id != w.previousActive)
  {
    hide TruthfulSlots, TruthfulList, NonePrecedesItself, Follows;
    ev := [];
    d := SelectUpdate(app, w.previousActive);
    if Settles(w, d) {
      DecisionIsNew(w, app, [], server.previousOf) by { NoneListed(server.previousOf); }
      return true, d, ev;
    }
    var answer;
    answer, ev := server.ListDeployments(appID);
    if answer.Lost? {
      return false, None, ev;
    }
    DecisionIsNew(w, app, answer.value, server.previousOf);
    d := FindListed(w, answer.value);
    ok := true;
  }

  lemma NoneListed(previousOf: string -> string)
    ensures TruthfulList([], previousOf)
  {
  }

  /** The loop over the listing. */
  method FindListed(w: Wait, listed: seq<Option<Deployment>>) returns (d: Option<Deployment>)
    ensures d == Listed(w, listed)
  {
    for i := 0 to |listed|
      invariant Listed(w, listed) == Listed(w, listed[i..])
    {
      assert listed[i..][0] == listed[i] && listed[i..][1..] == listed[i + 1..];
      var e := listed[i];
      if e.None? {
        continue;
      }
      if w.target != "" && e.value.id == w.target {
        return e;
      }
      if w.target == "" && IsHistorical(e.value, w.previousActive) {
        return e;
      }
    }
    d := None;
  }

  // ----- the driver of one app -----

  /** An update as its trace shows it: what was active when it was read, and the deployment the answer shows. */
  ghost predicate Started(ev: seq<Event>, w: Wait) {
    && |ev| >= 3 && ev[1].AppRead? && ev[1].app.Some? && w.previousActive == IdOf(ev[1].app.value.active)
    && ev[2].UpdateSent? && ev[2].answer.Answered?
    && var d := SelectUpdate(ev[2].answer.value, w.previousActive);
       if |ev| > 3 && ev[3].DeploymentCreated?
       then d.None? && ev[3].created.Answered? && w.target == IdOf(ev[3].created.value)
       else w.target == IdOf(d)
  }

  lemma StartedGrows(ev: seq<Event>, e: Event, w: Wait)
    requires Started(ev, w) && !e.DeploymentCreated?
    ensures Started(ev + [e], w)
  {
    hide SelectUpdate;
  }

  /** Module deployments of one app: AppDeployDriver. */
  class AppDeployDriver {
    const appID: string
    var target: string
    var previousActive: string
    var waiting: bool
    ghost var trail: seq<string>

    constructor (appID: string)
      ensures target == "" && !waiting && trail == [] && this.appID == appID
    {
      this.appID, target, previousActive, waiting, trail := appID, "", "", false, [];
    }

    function State(): Wait
      reads this
    {
      Wait(target, previousActive)
    }

    ghost predicate Valid(previousOf: string -> string)
      reads this
    {
      Trail(trail, target, previousOf) && (!waiting ==> target == "")
    }

    /**
     Success starts a new trail away from the deployment that was active; a failure keeps the target
     but may already have replaced the deployment that is to be told apart from it.
     */
    method Update(server: Apps, image: string) returns (ok: bool, ghost ev: seq<Event>)
      requires Valid(server.previousOf) && NonePrecedesItself(server.previousOf)
      modifies this, server`log
      ensures Valid(server.previousOf) && server.log == old(server.log) + ev && ev != [] && ev[0].Checked?
      ensures ok <==> |ev| == 3 && ev[2].UpdateSent? && ev[2].answer.Answered?
      ensures |ev| == 1 ==> ev[0] == Checked(false)
      ensures |ev| == 2 ==> !ShowsServices(ev[1])
      ensures |ev| > 1 ==> (ev[1].AppRead? || ev[1].ReadLost?) && ev[1].of == appID
      ensures |ev| > 2 ==>
                && ShowsServices(ev[1]) && ev[2].UpdateSent? && ev[2].of == appID
                && ev[2].sent == WithImage(ev[1].app.value.services.value, ImageRepo(image), ImageTag(image))
      ensures ok ==> waiting && Apart(State()) && |trail| <= 1 && Started(ev, State())
      ensures !ok ==> target == old(target) && waiting == old(waiting) && trail == old(trail)
      ensures !ok ==>
                if |ev| > 1 && ev[1].AppRead? && ev[1].app.Some? then previousActive == IdOf(ev[1].app.value.active)
                else previousActive == old(previousActive)
    {
      hide TruthfulSlots, Truthful, Trail, Extended, WithImage, SplitImageRef, ImageRepo, ImageTag, NonePrecedesItself;
      var present;
      ghost var more;
      present, ev := server.Check();
      if !present {
        return false, ev;
      }
      var app;
      app, more := server.Get(appID);
      ev := ev + more;
      if app.Lost? || app.value.None? {
        return false, ev;
      }
      previousActive := IdOf(app.value.value.active);
      if app.value.value.services.None? {
        return false, ev;
      }
      var sent := SetImages(app.value.value.services.value, image);
      var updated;
      updated, more := server.Update(appID, sent);
      ev := ev + more;
      if updated.Lost? {
        return false, ev;
      }
      waiting := true;
      target := IdOf(SelectUpdate(updated.value, previousActive));
      SelectedIsApart(updated.value, previousActive, server.previousOf);
      TrailStarts(target, server.previousOf);
      trail := Extended([], target);
      ok := true;
    }

    /**
     While an update is awaited, success means: the deployment decided on from this call's answers is
     active, is now the target, and is not the previously active one unless the target already was.
     */
    method HealthCheck(server: Apps) returns (ok: bool, ghost ev: seq<Event>)
      requires Valid(server.previousOf) && NonePrecedesItself(server.previousOf)
      modifies this, server`log
      ensures Valid(server.previousOf) && old(trail) <= trail
      ensures server.log == old(server.log) + ev && ev != [] && (ev[0].AppRead? || ev[0].ReadLost?) && ev[0].of == appID
      ensures waiting == old(waiting) && previousActive == old(previousActive)
      ensures Apart(old(State())) ==> Apart(State())
      ensures ok <==> ev[|ev| - 1] == Checked(true)
      ensures ok && waiting ==> exists d: Deployment ::
                Decided(ev, old(State()), Some(d)) && SeenIn(ev, d) && d.phase == Active && d.id == target &&
                target != ""
      ensures !ok && waiting ==> NotYet(ev, old(State()))
      ensures !waiting ==>
                if ok then ev[0].AppRead? && Deployed(ev[0].app)
                else ev[|ev| - 1] == Checked(false) || ev[0].ReadLost? || !Deployed(ev[0].app)
    {
      hide TruthfulSlots, Decided, SeenIn, NonePrecedesItself, Follows, Trail, Extended;
      ghost var more;
      var app;
      app, ev := server.Get(appID);
      if app.Lost? {
        return false, ev;
      }
      if waiting {
        var found, d;
        found, d, more := CurrentTarget(server, appID, State(), app.value, ev);
        ev := ev + more;
        if !found || d.None? {
          return false, ev;
        }
        TrailExtends(trail, target, d.value.id, server.previousOf);
        target := d.value.id;
        trail := Extended(trail, target);
        if d.value.phase != Active {
          return false, ev;
        }
        ok, more := server.Check();
        DecidedGrows(ev, more, old(State()), d);
        ev := ev + more;
        DecidedIsSeen(ev, old(State()), d);
        return;
      }
      if !Deployed(app.value) {
        return false, ev;
      }
      ok, more := server.Check();
      ev := ev + more;
    }
  }

  // ----- the driver of many apps -----

  /** Resource deployments by app id: AppPlatformDriver. The state is replaced only once the update is in. */
  class AppPlatformDriver {
    var waiting: map<string, Wait>
    ghost var trails: map<string, seq<string>>

    constructor ()
      ensures waiting == map[]
    {
      waiting, trails := map[], map[];
    }

    /** Every awaited update tells its target apart from what was active, in every state of every run. */
    ghost predicate Valid(previousOf: string -> string)
      reads this
    {
      && waiting.Keys == trails.Keys
      && forall id :: id in waiting ==> Apart(waiting[id]) && Trail(trails[id], waiting[id].target, previousOf)
    }

    /** The reads and writes of an update; None when it is not in. */
    method Begin(server: Apps, appID: string, compiled: Services, ghost before: seq<Event>)
      returns (w: Option<Wait>, ghost ev: seq<Event>)
      requires NonePrecedesItself(server.previousOf) && |before| == 1
      modifies server`log
      ensures server.log == old(server.log) + ev && ev != [] && !ev[|ev| - 1].Checked?
      ensures w.Some? ==> Apart(w.value) && |ev| > 1 && Started(before + ev, w.value)
      ensures w.None? ==> Blocks(ev[|ev| - 1])
      ensures |ev| > 1 ==> ev[1].UpdateSent? && ev[1].of == appID && ev[1].sent == compiled
    {
      hide TruthfulSlots, Truthful;
      ghost var more;
      var current;
      w := None;
      current, ev := server.Get(appID);
      if current.Lost? || current.value.None? {
        return;
      }
      var previousActive := IdOf(current.value.value.active);
      var app;
      app, more := server.Update(appID, compiled);
      ev := ev + more;
      if app.Lost? || app.value.None? {
        return;
      }
      var d := SelectUpdate(app.value, previousActive);
      SelectedIsApart(app.value, previousActive, server.previousOf);
      var slots := app.value.value;
      if d.None? && previousActive == "" && slots.active.None? && slots.inProgress.None? && slots.pending.None? {
        var created;
        created, more := server.CreateDeployment(appID);
        ev := ev + more;
        if created.Lost? {
          return;
        }
        d := created.value;
      }
      w := Some(Wait(IdOf(d), previousActive));
    }

    /** `compiled` is what the configuration compiles to; the checks before it are one check here. */
    method Update(server: Apps, appID: string, compiled: Services) returns (ok: bool, ghost ev: seq<Event>)
      requires Valid(server.previousOf) && NonePrecedesItself(server.previousOf)
      modifies this, server`log
      ensures Valid(server.previousOf) && server.log == old(server.log) + ev && ev != [] && ev[0].Checked?
      ensures waiting == old(waiting) ||
              (appID in waiting && waiting == old(waiting)[appID := waiting[appID]] && |trails[appID]| <= 1 &&
               Started(ev, waiting[appID]))
      ensures ok ==> appID in waiting && |trails[appID]| <= 1 && Started(ev, waiting[appID])
      ensures ok <==> |ev| > 3 && ev[|ev| - 1] == Checked(true)
      ensures !ok ==> Blocks(ev[|ev| - 1])
      ensures |ev| > 2 ==> ev[2].UpdateSent? && ev[2].of == appID && ev[2].sent == compiled
    {
      hide Trail, Extended, Started, NonePrecedesItself;
      ghost var more;
      var ready, w;
      ready, ev := server.Check();
      if !ready {
        return false, ev;
      }
      w, more := Begin(server, appID, compiled, ev);
      ev := ev + more;
      if w.None? {
        return false, ev;
      }
      TrailStarts(w.value.target, server.previousOf);
      waiting := waiting[appID := w.value];
      trails := trails[appID := Extended([], w.value.target)];
      ok, more := server.Check();
      StartedGrows(ev, more[0], w.value);
      ev := ev + more;
    }

    /** The part of the check that runs while an update of the app is awaited. */
    method AwaitedCheck(server: Apps, appID: string, app: Option<Slots>, ghost before: seq<Event>)
      returns (healthy: bool, ghost ev: seq<Event>)
      requires Valid(server.previousOf) && NonePrecedesItself(server.previousOf)
      requires appID in waiting && TruthfulSlots(app, server.previousOf) && before == [AppRead(appID, app)]
      modifies this, server`log
      ensures Valid(server.previousOf) && server.log == old(server.log) + ev
      ensures appID in waiting && waiting == old(waiting)[appID := waiting[appID]]
      ensures waiting[appID].previousActive == old(waiting)[appID].previousActive
      ensures old(trails)[appID] <= trails[appID]
      ensures healthy <==> ev != [] && ev[|ev| - 1] == Checked(true)
      ensures healthy ==> exists d: Deployment ::
                Decided(before + ev, old(waiting)[appID], Some(d)) && SeenIn(before + ev, d) && d.phase == Active &&
                d.id == waiting[appID].target
      ensures healthy ==> waiting[appID].target != ""
      ensures !healthy ==> NotYet(before + ev, old(waiting)[appID])
      ensures healthy ==> Follows(waiting[appID].target, old(waiting)[appID].target, server.previousOf)
    {
      hide Fits, SelectUpdate, Decided, SeenIn, Follows, TruthfulSlots, TruthfulList, Trail, Extended,
           NonePrecedesItself;
      healthy := false;
      ghost var more;
      var w := waiting[appID];
      var found, d;
      found, d, ev := CurrentTarget(server, appID, w, app, before);
      if !found || d.None? {
        return;
      }
      TrailExtends(trails[appID], w.target, d.value.id, server.previousOf);
      waiting := waiting[appID := w.(target := d.value.id)];
      trails := trails[appID := Extended(trails[appID], d.value.id)];
      if d.value.phase == Active {
        healthy, more := server.Check();
        DecidedGrows(before + ev, more, w, d);
        assert before + ev + more == before + (ev + more);
        ev := ev + more;
        DecidedIsSeen(before + ev, w, d);
      }
    }

    /** Awaited health is an active deployment decided on from this call's answers, apart from what was active. */
    method HealthCheck(server: Apps, appID: string) returns (healthy: bool, ghost ev: seq<Event>)
      requires Valid(server.previousOf) && NonePrecedesItself(server.previousOf)
      modifies this, server`log
      ensures Valid(server.previousOf)
      ensures server.log == old(server.log) + ev && ev != [] && (ev[0].AppRead? || ev[0].ReadLost?)
      ensures appID in old(waiting) && healthy ==> waiting == old(waiting) - {appID} && exists d: Deployment ::
                && Decided(ev, old(waiting)[appID], Some(d)) && SeenIn(ev, d) && d.phase == Active
                && d.id != "" && d.id != old(waiting)[appID].previousActive
                && Follows(d.id, old(waiting)[appID].target, server.previousOf)
      ensures appID in old(waiting) ==> (healthy <==> ev[|ev| - 1] == Checked(true))
      ensures appID in old(waiting) && !healthy ==>
                && appID in waiting && waiting == old(waiting)[appID := waiting[appID]]
                && waiting[appID].previousActive == old(waiting)[appID].previousActive
                && old(trails)[appID] <= trails[appID]
      ensures appID in old(waiting) && !healthy ==> NotYet(ev, old(waiting)[appID])
      ensures appID !in old(waiting) ==> waiting == old(waiting)
      ensures appID !in old(waiting) ==>
                if healthy then ev[0].AppRead? && Deployed(ev[0].app)
                else ev[|ev| - 1] == Checked(false) || ev[0].ReadLost? || !Deployed(ev[0].app)
    {
      hide Decided, SeenIn, Follows, TruthfulSlots, Trail, NonePrecedesItself;
      healthy := false;
      ghost var more;
      var app;
      app, ev := server.Get(appID);
      if app.Lost? {
        return;
      }
      if appID in waiting {
        healthy, more := AwaitedCheck(server, appID, app.value, ev);
        ev := ev + more;
        if healthy {
          waiting, trails := waiting - {appID}, trails - {appID};
        }
        return;
      }
      if Deployed(app.value) {
        healthy, more := server.Check();
        ev := ev + more;
      }
    }
  }

  lemma SelectedIsApart(app: Option<Slots>, previousActive: string, previousOf: string -> string)
    requires TruthfulSlots(app, previousOf) && NonePrecedesItself(previousOf)
    ensures Apart(Wait(IdOf(SelectUpdate(app, previousActive)), previousActive))
  {
    var d := SelectUpdate(app, previousActive);
    assert d.Some? ==> Truthful(d, previousOf);
  }

  lemma TrailStarts(target: string, previousOf: string -> string)
    ensures Trail(Extended([], target), target, previousOf) && |Extended([], target)| <= 1
  {
  }

  /**
   An update that fails after its read, while the target of an earlier one has become active, is the only
   way to come to believe the previously active deployment.
   */
  method FailedUpdateThenCheck(server: Apps, driver: AppDeployDriver, image: string)
    returns (updated: bool, ok: bool, ghost ev: seq<Event>)
    requires driver.Valid(server.previousOf) && NonePrecedesItself(server.previousOf)
    requires driver.waiting && Apart(driver.State())
    modifies driver, server`log
    ensures server.log == old(server.log) + ev && ev != [] && (ok <==> ev[|ev| - 1] == Checked(true))
    ensures ok ==> driver.target != ""
    ensures ok && driver.target == driver.previousActive ==>
              && !updated && old(driver.target) == driver.target
              && exists slots :: AppRead(driver.appID, Some(slots)) in ev && IdOf(slots.active) == old(driver.target)
  {
    hide Started, Decided, SeenIn, Trail, SelectUpdate, SplitImageRef, ImageRepo, ImageTag, WithImage,
         NonePrecedesItself;
    ghost var more;
    updated, ev := driver.Update(server, image);
    ghost var w := driver.State();
    if !updated && |ev| > 1 && ev[1].AppRead? && ev[1].app.Some? {
      assert ev[1] in ev;
    }
    ok, more := driver.HealthCheck(server);
    ev := ev + more;
  }
}
