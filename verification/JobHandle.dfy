/**
 What a one-off job handle knows, and how it learns which deployment is its own
 (internal/app_platform_runner.go).
 */
module JobHandle {
  import opened AppModel
  import opened JobDigest
  import opened Wrappers

  datatype Error = Validation | Failure | CleanupPending

  /** Identities, digests and a deadline; never a snapshot of the app. */
  datatype Metadata = Metadata(
    appID: string,
    appName: string,
    component: string,
    prior: Digest,
    componentDigest: Digest,
    intent: Digest,
    acknowledged: bool,
    deploymentID: string,
    jobID: string,
    deadline: int,
    launchFailed: bool)

  /** The handle as the binding methods rewrite it, in place. */
  class Handle {
    var m: Metadata

    constructor (m: Metadata)
      ensures this.m == m
    {
      this.m := m;
    }
  }

  // ----- ownership -----

  /** A job the handle may call its own. */
  ghost predicate Acceptable(job: Job, m: Metadata) {
    && (m.intent != NoDigest ==> Intent(job) == m.intent)
    && (m.intent == NoDigest || m.acknowledged ==> OfJob(job) == m.componentDigest)
  }

  /** The one job of the marker's name, if no other component has it and the job is acceptable. */
  ghost function OwnedJob(spec: Option<AppSpec>, m: Metadata): Option<Job> {
    if spec.None? || spec.value.name != m.appName || ComponentExists(spec.value.(jobs := []), m.component) then None
    else
      var marked := Marked(spec.value.jobs, m.component);
      if |marked| == 1 && Acceptable(marked[0], m) then Some(marked[0]) else None
  }

  method OwnedAppJobComponent(spec: Option<AppSpec>, m: Metadata) returns (accepted: Option<Job>)
    ensures accepted == OwnedJob(spec, m)
  {
    if spec.None? || spec.value.name != m.appName {
      return None;
    }
    if ComponentExists(spec.value.(jobs := []), m.component) {
      return None;
    }
    accepted := None;
    var jobs := spec.value.jobs;
    for i := 0 to |jobs|
      invariant match accepted
        case None => Marked(jobs[..i], m.component) == []
        case Some(j) => Marked(jobs[..i], m.component) == [j] && Acceptable(j, m)
    {
      WithoutStep(jobs, i, m.component);
      MarkedPrefix(jobs, i + 1, m.component);
      if IsNamed(jobs[i], m.component) {
        if accepted.Some? {
          return None;
        }
        var ok := CheckAcceptable(jobs[i].value, m);
        if !ok {
          return None;
        }
        accepted := jobs[i];
      }
    }
    assert jobs[..|jobs|] == jobs;
  }

  method CheckAcceptable(job: Job, m: Metadata) returns (ok: bool)
    ensures ok <==> Acceptable(job, m)
  {
    if m.intent != NoDigest {
      var intent := AppJobIntentDigest(job);
      if intent != m.intent {
        return false;
      }
    }
    return !((m.intent == NoDigest || m.acknowledged) && OfJob(job) != m.componentDigest);
  }

  /** The spec with the handle's job taken out. */
  function Rest(spec: AppSpec, m: Metadata): AppSpec {
    spec.(jobs := Without(spec.jobs, m.component))
  }

  /** When a deployment may be bound: it is the expected one and it is the prior spec plus the owned job. */
  ghost predicate Binds(m: Metadata, d: Option<Deployment>) {
    && d.Some? && d.value.id != ""
    && (m.deploymentID == "" || d.value.id == m.deploymentID)
    && OwnedJob(d.value.spec, m).Some?
    && OfSpec(Rest(d.value.spec.value, m)) == m.prior
  }

  /** What the handle knows after binding. */
  ghost function Bound(m: Metadata, d: Deployment): Metadata
    requires Binds(m, Some(d))
  {
    if m.intent == NoDigest then m.(deploymentID := d.id)
    else m.(deploymentID := d.id, componentDigest := OfJob(OwnedJob(d.spec, m).value), acknowledged := true)
  }

  /** Either binds, or leaves the handle alone. */
  method BindAppJobDeployment(h: Handle, d: Option<Deployment>) returns (ok: bool)
    modifies h
    ensures ok <==> Binds(old(h.m), d)
    ensures h.m == if ok then Bound(old(h.m), d.value) else old(h.m)
  {
    if d.None? || d.value.id == "" || (h.m.deploymentID != "" && d.value.id != h.m.deploymentID) {
      return false;
    }
    var job := OwnedAppJobComponent(d.value.spec, h.m);
    if job.None? {
      return false;
    }
    var parent := d.value.spec.value;
    var jobs := RemoveJobs(parent.jobs, h.m.component);
    if OfSpec(parent.(jobs := jobs)) != h.m.prior {
      return false;
    }
    h.m := h.m.(deploymentID := d.value.id);
    if h.m.intent != NoDigest {
      h.m := h.m.(componentDigest := OfJob(job.value), acknowledged := true);
    }
    return true;
  }

  // ----- learning is monotone and sound -----

  /** Nothing a handle has learned is ever changed, and what it was launched with is fixed. */
  predicate Extends(m: Metadata, n: Metadata) {
    && n.(deploymentID := m.deploymentID, jobID := m.jobID,
          componentDigest := m.componentDigest, acknowledged := m.acknowledged) == m
    && (m.deploymentID != "" ==> n.deploymentID == m.deploymentID)
    && (m.jobID != "" ==> n.jobID == m.jobID)
    && (m.acknowledged ==> n.acknowledged)
    && (m.acknowledged || m.intent == NoDigest ==> n.componentDigest == m.componentDigest)
    && (m.componentDigest.OfJob? ==> n.componentDigest.OfJob?)
  }

  lemma ExtendsTransitive(a: Metadata, b: Metadata, c: Metadata)
    requires Extends(a, b) && Extends(b, c)
    ensures Extends(a, c)
  {
  }

  lemma BindingExtends(m: Metadata, d: Deployment)
    requires Binds(m, Some(d))
    ensures Extends(m, Bound(m, d))
  {
  }

  /** The spec is the prior spec with exactly one more job, and that job is the launched one. */
  ghost predicate Owns(m: Metadata, spec: AppSpec) {
    && spec.name == m.appName
    && |Marked(spec.jobs, m.component)| == 1
    && OfSpec(Rest(spec, m)) == m.prior
    && var job := Marked(spec.jobs, m.component)[0];
       OfJob(job) == m.componentDigest && (m.intent != NoDigest ==> Intent(job) == m.intent && m.acknowledged)
  }

  lemma BindingOwns(m: Metadata, d: Deployment)
    requires Binds(m, Some(d))
    ensures d.spec.Some? && Owns(Bound(m, d), d.spec.value)
  {
  }

  /** A handle that names a deployment names one it owns. */
  ghost predicate Sound(m: Metadata, specOf: string -> AppSpec) {
    m.deploymentID != "" ==> Owns(m, specOf(m.deploymentID))
  }

  /**
   What owning means on the specs themselves: the deployment's spec is the prior spec with one job
   inserted at one position, and that job is the launched one as the API may have respelled it.
   */
  lemma OwnedIsPriorPlusOne(m: Metadata, spec: AppSpec, prior: AppSpec, launched: Job) returns (k: nat)
    requires Owns(m, spec) && m.prior == OfSpec(prior)
    requires m.intent == Intent(launched) != NoDigest
    ensures k <= |prior.jobs|
    ensures var job := Marked(spec.jobs, m.component)[0];
      && spec == prior.(jobs := prior.jobs[..k] + [Some(job)] + prior.jobs[k..])
      && job.name == m.component && Respelled(launched, job)
  {
    k := OneInserted(spec.jobs, m.component, prior.jobs);
    IntentExactly(launched, Marked(spec.jobs, m.component)[0]);
  }

  lemma OneInserted(jobs: seq<Option<Job>>, name: string, others: seq<Option<Job>>) returns (k: nat)
    requires |Marked(jobs, name)| == 1 && Without(jobs, name) == others
    ensures k <= |others|
    ensures jobs == others[..k] + [Some(Marked(jobs, name)[0])] + others[k..]
  {
    k := MarkedOnce(jobs, name);
    assert others == jobs[..k] + jobs[k + 1..];
    assert others[..k] == jobs[..k] && others[k..] == jobs[k + 1..];
  }
}
