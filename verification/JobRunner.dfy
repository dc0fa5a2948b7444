/** Running, polling and cancelling one-off jobs (internal/app_platform_runner.go). */
module JobRunner {
  import opened AppModel
  import opened AppServer
  import opened ImageRef
  import opened JobDigest
  import opened JobHandle
  import opened Text
  import opened Wrappers

  // ----- the request -----

  datatype Target = Target(typ: string, providerID: string, name: string)

  /** `valid` is what spec.Validate says; `options` is whether alerts, log destinations or termination are set. */
  datatype Request = Request(
    valid: bool,
    target: Option<Target>,
    image: string,
    runCommand: string,
    cron: string,
    kind: string,
    options: bool,
    timeoutSeconds: int,
    envs: map<string, string>,
    secrets: map<string, string>)

  predicate IsHex(c: char) {
    '0' <= c <= '9' || 'a' <= c <= 'f'
  }

  const SHA_PREFIX := "sha256:"

  predicate ValidDigest(d: string) {
    |d| == |SHA_PREFIX| + 64 && HasPrefix(d, SHA_PREFIX) && forall i | |SHA_PREFIX| <= i < |d| :: IsHex(d[i])
  }

  predicate IsLetter(c: char) {
    'A' <= c <= 'Z' || 'a' <= c <= 'z' || c == '_'
  }

  predicate IsDigit(c: char) {
    '0' <= c <= '9'
  }

  predicate ValidKey(k: string) {
    k != "" && IsLetter(k[0]) && forall i | 0 <= i < |k| :: IsLetter(k[i]) || IsDigit(k[i])
  }

  predicate ValidRefName(k: string) {
    k != "" && IsLetter(k[0]) && forall i | 0 <= i < |k| :: IsLetter(k[i]) || IsDigit(k[i]) || k[i] == '-'
  }

  /** ${NAME} or ${NAME.VARIABLE}, as the pair of names. */
  function SecretRef(ref: string): Option<(string, Option<string>)> {
    if |ref| < 3 || ref[..2] != "${" || ref[|ref| - 1] != '}' then None
    else
      var (name, variable) := Cut(ref[2..|ref| - 1], '.');
      if ValidRefName(name) && (variable.None? || ValidKey(variable.value)) then Some((name, variable)) else None
  }

  predicate IsSecretNamed(e: Option<EnvVar>, name: string) {
    e.Some? && e.value.key == name && e.value.typ == Secret
  }

  predicate SecretRefOk(ref: string, parent: AppSpec) {
    var r := SecretRef(ref);
    r.Some? &&
    if r.value.1.Some? then ComponentExists(parent, r.value.0)
    else exists e | e in parent.envs :: IsSecretNamed(e, r.value.0)
  }

  predicate FromRequest(e: EnvVar, req: Request) {
    e.scope == "RUN_TIME" &&
    if e.typ == General then e.key in req.envs && e.value == req.envs[e.key]
    else e.key in req.secrets && e.value == req.secrets[e.key]
  }

  /** The variables of the job: all of the request's, each once. */
  ghost predicate JobEnvs(envs: seq<Option<EnvVar>>, req: Request) {
    && DistinctKeys(envs) && |envs| == |req.envs| + |req.secrets|
    && forall i :: 0 <= i < |envs| ==> FromRequest(envs[i].value, req)
  }

  /** The list once it holds the given keys of the request, the last one added last. */
  ghost predicate Filled(envs: seq<EnvVar>, req: Request, keys: set<string>) {
    if envs == [] then keys == {}
    else
      var e := envs[|envs| - 1];
      FromRequest(e, req) && e.key in keys && Filled(envs[..|envs| - 1], req, keys - {e.key})
  }

  lemma FillOne(envs: seq<EnvVar>, req: Request, keys: set<string>, e: EnvVar)
    requires Filled(envs, req, keys) && FromRequest(e, req) && e.key !in keys
    ensures Filled(envs + [e], req, keys + {e.key})
  {
    assert (envs + [e])[..|envs|] == envs;
    assert keys + {e.key} - {e.key} == keys;
  }

  lemma {:induction false} FilledMeans(envs: seq<EnvVar>, req: Request, keys: set<string>)
    requires Filled(envs, req, keys)
    ensures |envs| == |keys|
    ensures forall i, j :: 0 <= i < j < |envs| ==> envs[i].key != envs[j].key
    ensures forall e :: e in envs ==> FromRequest(e, req) && e.key in keys
  {
    if envs != [] {
      var n := |envs| - 1;
      assert envs == envs[..n] + [envs[n]];
      FilledMeans(envs[..n], req, keys - {envs[n].key});
      assert forall i :: 0 <= i < n ==> envs[i] in envs[..n];
    }
  }

  lemma SortedEnvs(envs: seq<EnvVar>, req: Request)
    requires Filled(envs, req, req.envs.Keys + req.secrets.Keys) && req.envs.Keys !! req.secrets.Keys
    ensures JobEnvs(Wrap(SortBy(KeyOf, envs)), req)
  {
    hide Filled, FromRequest, SortBy;
    FilledMeans(envs, req, req.envs.Keys + req.secrets.Keys);
    SortKeepsDistinct(envs);
    assert forall i :: 0 <= i < |SortBy(KeyOf, envs)| ==> SortBy(KeyOf, envs)[i] in envs;
  }

  predicate PlainOk(req: Request, k: string) {
    ValidKey(k) && k !in req.secrets
  }

  predicate SecretOk(req: Request, parent: AppSpec, k: string) {
    ValidKey(k) && k in req.secrets && SecretRefOk(req.secrets[k], parent)
  }

  function PlainTest(req: Request): string -> bool {
    k => PlainOk(req, k)
  }

  function SecretTest(req: Request, parent: AppSpec): string -> bool {
    k => SecretOk(req, parent, k)
  }

  predicate AllPass(m: map<string, string>, test: string -> bool) {
    forall k | k in m :: test(k)
  }

  predicate EnvsOk(req: Request, parent: AppSpec) {
    AllPass(req.envs, PlainTest(req)) && AllPass(req.secrets, SecretTest(req, parent))
  }

  lemma PlainDisjoint(req: Request)
    requires AllPass(req.envs, PlainTest(req))
    ensures req.envs.Keys !! req.secrets.Keys
  {
    forall k | k in req.envs ensures k !in req.secrets {
      assert PlainTest(req)(k);
    }
  }

  function MapOf(req: Request, typ: EnvType): map<string, string> {
    if typ == General then req.envs else req.secrets
  }

  /** One of the request's maps, walked in any order; stops at the first unacceptable key. */
  method CollectEnvs(req: Request, typ: EnvType, acceptable: string -> bool, before: seq<EnvVar>,
                     ghost keys: set<string>)
    returns (ok: bool, envs: seq<EnvVar>)
    requires Filled(before, req, keys) && keys !! MapOf(req, typ).Keys
    ensures ok <==> AllPass(MapOf(req, typ), acceptable)
    ensures ok ==> Filled(envs, req, keys + MapOf(req, typ).Keys)
  {
    var m := MapOf(req, typ);
    envs := before;
    var rest := m.Keys;
    ghost var done: set<string> := {};
    assert keys + done == keys;
    while rest != {}
      invariant rest <= m.Keys && done == m.Keys - rest
      invariant forall k :: k in done ==> acceptable(k)
      invariant Filled(envs, req, keys + done)
    {
      var k :| k in rest;
      if !acceptable(k) {
        return false, [];
      }
      var e := EnvVar(k, m[k], typ, "RUN_TIME");
      FillOne(envs, req, keys + done, e);
      assert keys + (done + {k}) == keys + done + {k};
      envs := envs + [e];
      rest, done := rest - {k}, done + {k};
    }
    assert done == m.Keys;
    ok := true;
  }

  /** The job's variables, or nothing when a key or a secret reference is not acceptable. */
  method AppJobEnvs(req: Request, parent: AppSpec) returns (r: Option<seq<Option<EnvVar>>>)
    ensures r.Some? <==> EnvsOk(req, parent)
    ensures r.Some? ==> JobEnvs(r.value, req)
  {
    var ok, envs := CollectEnvs(req, General, PlainTest(req), [], {});
    if !ok {
      return None;
    }
    assert {} + req.envs.Keys == req.envs.Keys;
    PlainDisjoint(req);
    ok, envs := CollectEnvs(req, Secret, SecretTest(req, parent), envs, req.envs.Keys);
    if !ok {
      return None;
    }
    SortedEnvs(envs, req);
    return Some(Wrap(SortBy(KeyOf, envs)));
  }

  /** The image of an accepted request: the parsed reference with the tag replaced by the digest. */
  function RequestImage(req: Request): Option<ImageSpec> {
    var (base, digest) := Cut(req.image, '@');
    if digest.None? || !ValidDigest(digest.value) then None
    else
      var image := ParseImageRef(base);
      if image.None? then None else Some(image.value.(tag := "", digest := digest.value))
  }

  predicate RequestOk(req: Request) {
    && req.valid
    && req.target.Some? && req.target.value.typ == "infra.container_service"
    && TrimSpace(req.runCommand) != "" && req.cron == "" && (req.kind == "" || req.kind == "PRE_DEPLOY")
    && !req.options && RequestImage(req).Some?
  }

  /** time.ParseDuration of "<n>s": no value when the nanoseconds overflow an int64. */
  function SecondsTimeout(n: int): Timeout {
    var digits := if n < 0 then "-" + Decimal(-n) else Decimal(n);
    var nanos := n * 1_000_000_000;
    Timeout(digits + "s", if -0x8000_0000_0000_0000 <= nanos <= 0x7FFF_FFFF_FFFF_FFFF then Some(nanos) else None)
  }

  /** The job component a request asks for. */
  ghost predicate JobFor(req: Request, component: string, job: Job) {
    && job.name == component && job.kind == "PRE_DEPLOY" && job.image == RequestImage(req)
    && job.runCommand == req.runCommand && job.timeout == SecondsTimeout(req.timeoutSeconds)
    && JobEnvs(job.envs, req) && job.instanceCount == 1 && job.rest == ""
  }

  // ----- launching -----

  /** What the handle of a launch says about it. */
  ghost predicate Launched(m: Metadata, prior: AppSpec, job: Job) {
    && m.appName == prior.name && m.component == job.name && !ComponentExists(prior, job.name)
    && m.prior == OfSpec(prior) && m.intent == Intent(job)
  }

  lemma LearnedStaysLaunched(m: Metadata, n: Metadata, prior: AppSpec, job: Job)
    requires Launched(m, prior, job) && Extends(m, n)
    ensures Launched(n, prior, job)
  {
  }

  /** The handle learns from the answer to the launch, or from reading the app after a lost one. */
  method LearnFromLaunch(server: Server, h: Handle, app: Option<App>)
    requires server.TruthfulApp(app)
    requires h.m.deploymentID == "" && h.m.jobID == "" && !h.m.acknowledged
    modifies h
    ensures Extends(old(h.m), h.m) && Sound(h.m, server.specOf) && h.m.jobID == ""
    ensures app.Some? && app.value.id == h.m.appID && OwnedJob(app.value.spec, old(h.m)).Some? ==> h.m.acknowledged
    ensures h.m.acknowledged && h.m.deploymentID == "" ==>
      app.Some? && OwnedJob(app.value.spec, old(h.m)).Some? &&
      h.m.componentDigest == OfJob(OwnedJob(app.value.spec, old(h.m)).value)
  {
    if app.None? || app.value.id != h.m.appID || app.value.spec.None? || app.value.spec.value.name != h.m.appName {
      return;
    }
    var accepted := OwnedAppJobComponent(app.value.spec, h.m);
    if accepted.Some? {
      h.m := h.m.(componentDigest := OfJob(accepted.value), acknowledged := true);
    }
    BindSlots(server, h, [app.value.inProgress, app.value.active]);
  }

  method BindSlots(server: Server, h: Handle, slots: seq<Option<Deployment>>)
    requires forall d :: d in slots ==> server.Truthful(d)
    requires h.m.deploymentID == ""
    modifies h
    ensures Extends(old(h.m), h.m) && h.m.jobID == old(h.m.jobID)
    ensures h.m.deploymentID == "" ==> h.m == old(h.m)
    ensures Sound(h.m, server.specOf)
  {
    for k := 0 to |slots|
      invariant h.m == old(h.m)
    {
      ghost var before := h.m;
      assert slots[k] in slots;
      var ok := BindAppJobDeployment(h, slots[k]);
      if ok {
        BindingExtends(before, slots[k].value);
        BindingOwns(before, slots[k].value);
        return;
      }
    }
  }

  const MARKER := "wfctl-job-"

  /** Ten random bytes in hexadecimal. */
  predicate IsToken(t: string) {
    |t| == 20 && forall i | 0 <= i < |t| :: IsHex(t[i])
  }

  predicate IsMarker(component: string) {
    |component| == |MARKER| + 20 && HasPrefix(component, MARKER) && IsToken(component[|MARKER|..])
  }

  /** What decodeAppJobHandle demands of a handle. */
  predicate WellFormedHandle(m: Metadata) {
    && IsMarker(m.component) && m.appID != "" && m.appName != "" && m.deadline != 0
    && m.prior.OfSpec? && m.componentDigest.OfJob? && !m.intent.OfSpec?
  }

  /** What a request needs in order to be launched on that spec of that app. */
  ghost predicate Launchable(req: Request, token: Option<string>, appID: string, live: AppSpec) {
    && RequestOk(req) && req.target.value.providerID == appID && req.target.value.name == live.name
    && EnvsOk(req, live) && token.Some? && !ComponentExists(live, MARKER + token.value)
  }

  /** Everything before the write: the request, the target, the variables and the marker are checked. */
  method Prepare(server: Server, req: Request, token: Option<string>)
    returns (err: Option<Error>, appID: string, prior: AppSpec, job: Job, ghost ev: seq<Event>)
    modifies server
    ensures server.log == old(server.log) + ev && Lookups(ev)
    ensures server.quiet ==> server.live == old(server.live)
    ensures err.None? ==>
      && RequestOk(req) && appID == req.target.value.providerID && prior.name == req.target.value.name
      && token.Some? && JobFor(req, MARKER + token.value, job) && !ComponentExists(prior, job.name)
      && AppRead(prior) in ev && (server.quiet ==> prior == server.live)
    ensures server.quiet && server.reliable && Launchable(req, token, server.appID, old(server.live)) ==> err.None?
    ensures err.None? ==> Launchable(req, token, appID, prior)
  {
    ev, appID := [], "";
    prior := AppSpec("", [], [], [], [], [], [], [], "");
    job := Job("", "", None, "", Timeout("", None), [], 0, "");
    if !RequestOk(req) {
      return Some(Validation), appID, prior, job, ev;
    }
    var target := req.target.value;
    var app;
    app, ev := server.Get(target.providerID);
    if app.Lost? {
      return Some(Failure), appID, prior, job, ev;
    }
    if app.value.None? || app.value.value.id != target.providerID || app.value.value.spec.None? ||
       app.value.value.spec.value.name != target.name
    {
      return Some(Validation), appID, prior, job, ev;
    }
    appID, prior := target.providerID, app.value.value.spec.value;
    var envs := AppJobEnvs(req, prior);
    if envs.None? {
      return Some(Validation), appID, prior, job, ev;
    }
    var listing;
    ghost var more;
    listing, more := server.ListJobInvocations(appID, 1);
    ev := ev + more;
    if listing.Lost? || token.None? {
      return Some(Failure), appID, prior, job, ev;
    }
    if ComponentExists(prior, MARKER + token.value) {
      return Some(Validation), appID, prior, job, ev;
    }
    job := Job(MARKER + token.value, "PRE_DEPLOY", RequestImage(req), req.runCommand,
               SecondsTimeout(req.timeoutSeconds), envs.value, 1, "");
    err := None;
  }

  /** The write, and what its answer or a read after a lost answer teaches. */
  method Launch(server: Server, h: Handle, updated: AppSpec) returns (ghost answer: Event, ghost after: seq<Event>)
    requires h.m.deploymentID == "" && h.m.jobID == "" && !h.m.acknowledged && !h.m.launchFailed
    modifies server, h
    ensures server.log == old(server.log) + [SpecSent(updated), answer] + after && Lookups(after)
    ensures answer.UpdateAnswered? && (server.quiet ==> answer.live == server.live)
    ensures server.quiet ==> server.live == old(server.live) || Accepted(old(server.live), updated, server.live)
    ensures server.quiet && !h.m.launchFailed ==> Accepted(old(server.live), updated, server.live)
    ensures server.reliable ==> !h.m.launchFailed
    ensures Extends(old(h.m), h.m.(launchFailed := false)) && Sound(h.m, server.specOf) && h.m.jobID == ""
  {
    hide Accepted, Sound, OwnedJob;
    var reply, conflict;
    ghost var ev;
    reply, conflict, ev := server.Update(h.m.appID, updated);
    answer, after := ev[1], [];
    var app := None;
    if reply.Lost? {
      h.m := h.m.(launchFailed := true);
      var readback;
      readback, after := server.Get(h.m.appID);
      if readback.Answered? {
        app := readback.value;
      }
    } else {
      app := reply.value;
    }
    LearnFromLaunch(server, h, app);
  }

  /**
   Launches a job: the spec just read plus one fresh job is sent once. A lost answer still gives a
   handle, never a second write.
   */
  method RunJob(server: Server, req: Request, token: Option<string>, now: int)
    returns (err: Option<Error>, m: Metadata, ghost prior: AppSpec, ghost job: Job,
             ghost before: seq<Event>, ghost answer: Event, ghost after: seq<Event>)
    requires token.Some? ==> IsToken(token.value)
    modifies server
    ensures err.Some? ==> server.log == old(server.log) + before && Lookups(before)
    ensures err.Some? && server.quiet ==> server.live == old(server.live)
    ensures err.None? ==>
      && server.log == old(server.log) + before + [SpecSent(PriorPlus(prior, job)), answer] + after
      && answer.UpdateAnswered? && (server.quiet ==> answer.live == server.live)
      && Lookups(before) && Lookups(after) && AppRead(prior) in before
    ensures err.None? ==>
      && RequestOk(req) && token.Some? && JobFor(req, MARKER + token.value, job)
      && Launched(m, prior, job) && Sound(m, server.specOf)
      && m.appID == req.target.value.providerID && m.deadline == now + req.timeoutSeconds
    ensures err.None? && m.appID != "" && m.appName != "" && m.deadline != 0 ==> WellFormedHandle(m)
    ensures err.None? && server.quiet ==> prior == old(server.live) && PriorOrOneMore(server.live, prior, job)
    ensures err.None? && server.quiet && !m.launchFailed ==> server.live != prior
    ensures server.quiet && server.reliable && Launchable(req, token, server.appID, old(server.live)) ==> err.None?
    ensures server.reliable ==> !m.launchFailed
    ensures err.None? ==> Launchable(req, token, m.appID, prior)
  {
    var appID, spec, component;
    err, appID, spec, component, before := Prepare(server, req, token);
    prior, job, after, answer := spec, component, [], ReadFailed;
    m := Metadata("", "", "", NoDigest, NoDigest, NoDigest, false, "", "", 0, false);
    if err.Some? {
      return;
    }
    var intent := AppJobIntentDigest(component);
    var h := new Handle(Metadata(appID, spec.name, component.name, OfSpec(spec), OfJob(component), intent, false,
                                 "", "", now + req.timeoutSeconds, false));
    answer, after := Launch(server, h, PriorPlus(spec, component));
    if server.quiet && server.live != spec {
      LaunchStored(spec, component, server.live);
    }
    MarkerShape(token.value);
    m := h.m;
  }

  lemma MarkerShape(token: string)
    requires IsToken(token)
    ensures IsMarker(MARKER + token)
  {
    assert (MARKER + token)[|MARKER|..] == token;
  }
}
