/** The parts of an App Platform app that the drivers read and write. */
module AppModel {
  import opened ImageRef
  import opened Wrappers

  datatype EnvType = General | Secret

  datatype EnvVar = EnvVar(key: string, value: string, typ: EnvType, scope: string)

  /** A duration as written, with the value time.ParseDuration reads from it, if any. */
  datatype Timeout = Timeout(text: string, nanos: Option<int>)

  /** A job component; `rest` stands for the fields no modelled function looks into. */
  datatype Job = Job(
    name: string,
    kind: string,
    image: Option<ImageSpec>,
    runCommand: string,
    timeout: Timeout,
    envs: seq<Option<EnvVar>>,
    instanceCount: int,
    rest: string)

  /** Any other component: its name, and the rest of its fields as one value. */
  datatype Component = Component(name: string, rest: string)

  /** An app spec; every list entry may be nil, as in the program. */
  datatype AppSpec = AppSpec(
    name: string,
    services: seq<Option<Component>>,
    workers: seq<Option<Component>>,
    jobs: seq<Option<Job>>,
    staticSites: seq<Option<Component>>,
    functions: seq<Option<Component>>,
    databases: seq<Option<Component>>,
    envs: seq<Option<EnvVar>>,
    rest: string)

  datatype DeploymentPhase =
    PendingBuild | Building | PendingDeploy | Deploying | Active | Errored | DeployCanceled | Superseded | UnknownPhase

  /** A deployment; listings may leave the spec out. `previous` is the deployment it replaces. */
  datatype Deployment = Deployment(id: string, previous: string, spec: Option<AppSpec>, phase: DeploymentPhase)

  datatype InvocationPhase = Waiting | Running | Succeeded | Failed | Canceled | Skipped | OtherPhase

  datatype Invocation = Invocation(id: string, jobName: string, deploymentID: string, phase: InvocationPhase)

  datatype App = App(id: string, spec: Option<AppSpec>, inProgress: Option<Deployment>, active: Option<Deployment>)

  predicate HasComponent(cs: seq<Option<Component>>, name: string) {
    exists c | c in cs :: c.Some? && c.value.name == name
  }

  predicate IsNamed(job: Option<Job>, name: string) {
    job.Some? && job.value.name == name
  }

  predicate HasJob(jobs: seq<Option<Job>>, name: string) {
    exists j | j in jobs :: IsNamed(j, name)
  }

  /** Whether any component of any kind carries the name. */
  predicate ComponentExists(spec: AppSpec, name: string) {
    HasComponent(spec.services, name) || HasComponent(spec.workers, name) || HasJob(spec.jobs, name) ||
    HasComponent(spec.staticSites, name) || HasComponent(spec.functions, name) || HasComponent(spec.databases, name)
  }

  /** The jobs that do not carry the name, nil entries included, in order. */
  function Without(jobs: seq<Option<Job>>, name: string): (r: seq<Option<Job>>)
    ensures forall j :: j in r ==> j in jobs && !IsNamed(j, name)
  {
    if jobs == [] then []
    else
      var n := |jobs| - 1;
      Without(jobs[..n], name) + if IsNamed(jobs[n], name) then [] else [jobs[n]]
  }

  /** The jobs that carry the name, in order. */
  function Marked(jobs: seq<Option<Job>>, name: string): (r: seq<Job>)
    ensures r == [] <==> !HasJob(jobs, name)
    ensures forall j :: j in r ==> j.name == name && Some(j) in jobs
  {
    if jobs == [] then []
    else
      var n := |jobs| - 1;
      assert jobs == jobs[..n] + [jobs[n]];
      Marked(jobs[..n], name) + if IsNamed(jobs[n], name) then [jobs[n].value] else []
  }

  lemma WithoutStep(jobs: seq<Option<Job>>, i: nat, name: string)
    requires i < |jobs|
    ensures Without(jobs[..i + 1], name) == Without(jobs[..i], name) + if IsNamed(jobs[i], name) then [] else [jobs[i]]
    ensures Marked(jobs[..i + 1], name) ==
            Marked(jobs[..i], name) + if IsNamed(jobs[i], name) then [jobs[i].value] else []
  {
    assert jobs[..i + 1][..i] == jobs[..i];
  }

  lemma NoJobs(jobs: seq<Option<Job>>, name: string)
    requires jobs == []
    ensures Without(jobs, name) == [] && Marked(jobs, name) == []
  {
  }

  lemma {:induction false} MarkedPrefix(jobs: seq<Option<Job>>, i: nat, name: string)
    requires i <= |jobs|
    ensures Marked(jobs[..i], name) <= Marked(jobs, name)
  {
    if i < |jobs| {
      var n := |jobs| - 1;
      assert jobs[..n][..i] == jobs[..i];
      MarkedPrefix(jobs[..n], i, name);
    } else {
      assert jobs[..i] == jobs;
    }
  }

  lemma {:induction false} WithoutShortens(jobs: seq<Option<Job>>, name: string)
    ensures |Without(jobs, name)| <= |jobs|
    ensures |Without(jobs, name)| == |jobs| <==> !HasJob(jobs, name)
  {
    if jobs != [] {
      var n := |jobs| - 1;
      assert jobs == jobs[..n] + [jobs[n]];
      WithoutShortens(jobs[..n], name);
    }
  }

  /** Removing a name nobody carries changes nothing. */
  lemma {:induction false} WithoutAbsent(jobs: seq<Option<Job>>, name: string)
    requires !HasJob(jobs, name)
    ensures Without(jobs, name) == jobs
  {
    if jobs != [] {
      var n := |jobs| - 1;
      assert jobs == jobs[..n] + [jobs[n]];
      WithoutAbsent(jobs[..n], name);
    }
  }

  /** One marked job sits at one position; taking it out leaves the rest in order. */
  lemma {:induction false} MarkedOnce(jobs: seq<Option<Job>>, name: string) returns (k: nat)
    requires |Marked(jobs, name)| == 1
    ensures k < |jobs| && jobs[k] == Some(Marked(jobs, name)[0])
    ensures Without(jobs, name) == jobs[..k] + jobs[k + 1..]
  {
    hide Marked, Without;
    if jobs == [] {
      NoJobs(jobs, name);
    }
    var n := |jobs| - 1;
    assert jobs[..n + 1] == jobs;
    WithoutStep(jobs, n, name);
    if IsNamed(jobs[n], name) {
      k := n;
      assert Marked(jobs[..n], name) == [];
      WithoutAbsent(jobs[..n], name);
    } else {
      k := MarkedOnce(jobs[..n], name);
      assert jobs[..n][k + 1..] + [jobs[n]] == jobs[k + 1..];
    }
  }

  /** Appending a fresh job and removing it by name gives the jobs back, order intact. */
  lemma AppendThenRemove(jobs: seq<Option<Job>>, job: Job)
    requires !HasJob(jobs, job.name)
    ensures Without(jobs + [Some(job)], job.name) == jobs
    ensures Marked(jobs + [Some(job)], job.name) == [job]
  {
    var all := jobs + [Some(job)];
    assert all[..|jobs|] == jobs;
    WithoutAbsent(jobs, job.name);
  }

  /** The loop that drops every job of one name. */
  method RemoveJobs(jobs: seq<Option<Job>>, name: string) returns (r: seq<Option<Job>>)
    ensures r == Without(jobs, name)
  {
    r := [];
    for i := 0 to |jobs|
      invariant r == Without(jobs[..i], name)
    {
      WithoutStep(jobs, i, name);
      if !IsNamed(jobs[i], name) {
        r := r + [jobs[i]];
      }
    }
    assert jobs[..|jobs|] == jobs;
  }
}
