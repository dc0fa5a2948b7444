/**
 Compiling a config into an app spec (app_platform_buildspec.go), reading a spec back into outputs,
 and comparing a config with those outputs (app_platform.go). The config is a typed record.
 */
module SpecDrift {
  import opened AppModel
  import opened EnvHash
  import opened ImageRef
  import opened Text
  import opened Wrappers

  // ----- config -----

  datatype ImageConfig = RefText(text: string) | ImageMap(spec: Option<ImageSpec>) | NoImage

  datatype ExposeConfig = ExposeAbsent | ExposeNotString | ExposeText(text: string)

  datatype RouteConfig = RouteConfig(path: string, preserve: bool)

  /** env_vars, env_vars_secret (which may be present without being a map) and its legacy alias. */
  datatype SecretConfig = KeyAbsent | KeyNotMap | KeyMap(m: map<string, string>)

  datatype EnvConfig = EnvConfig(
    plain: Option<map<string, string>>,
    secret: SecretConfig,
    legacy: Option<map<string, string>>)

  datatype CompConfig = CompConfig(name: string, kind: string, env: EnvConfig)

  /** `othersOk` says whether sidecars and domains compile; list entries that are not maps are None. */
  datatype Config = Config(
    image: ImageConfig,
    httpPort: Option<int>,
    internalPorts: seq<int>,
    expose: ExposeConfig,
    routes: Option<seq<Option<RouteConfig>>>,
    loadBalancer: string,
    region: string,
    env: EnvConfig,
    jobs: Option<seq<Option<CompConfig>>>,
    workers: Option<seq<Option<CompConfig>>>,
    vpcRef: string,
    vpcUuid: string,
    othersOk: bool)

  // ----- compiled spec -----

  datatype Route = Route(path: string, preserve: bool)

  datatype Rule = Rule(path: string, component: string, preserve: bool)

  datatype Ingress = Ingress(loadBalancer: string, rules: seq<Rule>)

  datatype ServiceSpec = ServiceSpec(
    name: string,
    image: Option<ImageSpec>,
    httpPort: int,
    internalPorts: seq<int>,
    routes: seq<Route>,
    envs: seq<Option<EnvVar>>)

  datatype CompSpec = CompSpec(name: string, kind: string, envs: seq<Option<EnvVar>>)

  datatype CompiledSpec = CompiledSpec(
    name: string,
    region: string,
    service: ServiceSpec,
    jobs: seq<CompSpec>,
    workers: seq<CompSpec>,
    ingress: Option<Ingress>,
    vpc: Option<string>)

  // ----- config readings -----

  function Plain(e: EnvConfig): map<string, string> {
    if e.plain.Some? then e.plain.value else map[]
  }

  /** The legacy alias counts only when the canonical key is absent altogether. */
  function Secrets(e: EnvConfig): map<string, string> {
    match e.secret
    case KeyMap(m) => m
    case KeyNotMap => map[]
    case KeyAbsent => if e.legacy.Some? then e.legacy.value else map[]
  }

  predicate Declared(e: EnvConfig) {
    e.plain.Some? || !e.secret.KeyAbsent? || e.legacy.Some?
  }

  function ExposeMode(cfg: Config): string {
    if cfg.expose.ExposeText? then ToLower(TrimSpace(cfg.expose.text)) else ""
  }

  function CanonicalExpose(cfg: Config): string {
    if ExposeMode(cfg) == "" then "public" else ExposeMode(cfg)
  }

  function OrSlash(path: string): string {
    if path == "" then "/" else path
  }

  function CanonicalRoutes(raw: seq<Option<RouteConfig>>): seq<Route> {
    if raw == [] then []
    else
      var n := |raw| - 1;
      CanonicalRoutes(raw[..n]) +
      if raw[n].None? then [] else [Route(OrSlash(raw[n].value.path), raw[n].value.preserve)]
  }

  function RoutesOf(cfg: Config): seq<Option<RouteConfig>> {
    if cfg.routes.Some? then cfg.routes.value else []
  }

  predicate ValidPort(p: int) {
    1 <= p <= 65535
  }

  function MapJobKind(kind: string): string {
    var k := ToLower(kind);
    if k == "pre_deploy" then "PRE_DEPLOY"
    else if k == "post_deploy" then "POST_DEPLOY"
    else if k == "failed_deploy" then "FAILED_DEPLOY"
    else if k == "scheduled" then "SCHEDULED"
    else "UNSPECIFIED"
  }

  const REGIONS := ["ams", "blr", "fra", "lon", "nyc", "sfo", "sgp", "syd", "tor", "tlv"]

  predicate ValidRegion(region: string) {
    region == "" || TrimSpace(region) == "" || ToLower(TrimSpace(region)) in REGIONS
  }

  const ZONES := map[
    "ams2" := "ams", "ams3" := "ams", "blr1" := "blr", "fra1" := "fra", "lon1" := "lon", "nyc1" := "nyc",
    "nyc2" := "nyc", "nyc3" := "nyc", "sfo1" := "sfo", "sfo2" := "sfo", "sfo3" := "sfo", "sgp1" := "sgp",
    "syd1" := "syd", "tor1" := "tor"]

  function NormalizeRegion(region: string): string {
    var r := ToLower(TrimSpace(region));
    if r in REGIONS then r else if r in ZONES then ZONES[r] else r
  }

  // ----- compiling -----

  function ImageFromConfig(cfg: Config): Option<ImageSpec> {
    match cfg.image
    case RefText(text) => ParseImageRef(text)
    case ImageMap(spec) => spec
    case NoImage => None
  }

  /** The service component while buildAppSpec assembles it. */
  class Service {
    var httpPort: int
    var internalPorts: seq<int>
    var routes: seq<Route>

    constructor (httpPort: int, internalPorts: seq<int>, routes: seq<Route>)
      ensures this.httpPort == httpPort && this.internalPorts == internalPorts && this.routes == routes
    {
      this.httpPort, this.internalPorts, this.routes := httpPort, internalPorts, routes;
    }

    /** Validates `expose` and, for an internal service, takes away its public surface. */
    method ApplyExposeInternal(cfg: Config) returns (ok: bool)
      modifies this
      ensures ok <==> ExposeAccepted(cfg, old(internalPorts))
      ensures !ok || CanonicalExpose(cfg) != "internal" ==>
        httpPort == old(httpPort) && internalPorts == old(internalPorts) && routes == old(routes)
      ensures ok && CanonicalExpose(cfg) == "internal" ==>
        && httpPort == 0 && routes == []
        && internalPorts == (if cfg.httpPort.Some? && cfg.httpPort.value !in old(internalPorts)
                             then old(internalPorts) + [cfg.httpPort.value] else old(internalPorts))
    {
      if cfg.expose.ExposeNotString? {
        return false;
      }
      var exp := ExposeMode(cfg);
      if exp == "" || exp == "public" {
        return true;
      }
      if exp != "internal" {
        return false;
      }
      if cfg.httpPort.None? && |internalPorts| == 0 {
        return false;
      }
      if cfg.httpPort.Some? && !ValidPort(cfg.httpPort.value) {
        return false;
      }
      for i := 0 to |internalPorts|
        invariant forall k :: 0 <= k < i ==> ValidPort(internalPorts[k])
      {
        if !ValidPort(internalPorts[i]) {
          return false;
        }
      }
      if cfg.httpPort.Some? {
        var hp := cfg.httpPort.value;
        var hasMatch := false;
        var i := 0;
        while i < |internalPorts| && !hasMatch
          invariant 0 <= i <= |internalPorts|
          invariant hasMatch <==> hp in internalPorts[..i]
        {
          if internalPorts[i] == hp {
            hasMatch := true;
          }
          i := i + 1;
        }
        assert hasMatch <==> hp in internalPorts;
        if |internalPorts| > 0 && !hasMatch {
          return false;
        }
        if !hasMatch {
          internalPorts := internalPorts + [hp];
        }
      }
      httpPort := 0;
      routes := [];
      return true;
    }
  }

  /** When applyExposeInternal accepts: an internal service must be left with a reachable port. */
  ghost predicate ExposeAccepted(cfg: Config, internalPorts: seq<int>) {
    && !cfg.expose.ExposeNotString?
    && ExposeMode(cfg) in ["", "public", "internal"]
    && (ExposeMode(cfg) == "internal" ==>
          && (cfg.httpPort.Some? || internalPorts != [])
          && (cfg.httpPort.Some? ==> ValidPort(cfg.httpPort.value))
          && (forall k :: 0 <= k < |internalPorts| ==> ValidPort(internalPorts[k]))
          && (cfg.httpPort.Some? && internalPorts != [] ==> cfg.httpPort.value in internalPorts))
  }

  /** The named entries of a component list, compiled in order; `isJob` decides how kinds map. */
  ghost predicate CompsCompiled(raw: seq<Option<CompConfig>>, comps: seq<CompSpec>, isJob: bool) {
    if raw == [] then comps == []
    else
      var n := |raw| - 1;
      if raw[n].None? || raw[n].value.name == "" then CompsCompiled(raw[..n], comps, isJob)
      else
        var c := raw[n].value;
        && comps != []
        && comps[|comps| - 1].name == c.name
        && comps[|comps| - 1].kind == (if isJob then MapJobKind(c.kind) else "")
        && Emitted(comps[|comps| - 1].envs, Plain(c.env), Secrets(c.env))
        && CompsCompiled(raw[..n], comps[..|comps| - 1], isJob)
  }

  method CompsFromConfig(raw: seq<Option<CompConfig>>, isJob: bool) returns (comps: seq<CompSpec>)
    ensures CompsCompiled(raw, comps, isJob)
  {
    comps := [];
    for i := 0 to |raw|
      invariant CompsCompiled(raw[..i], comps, isJob)
    {
      assert raw[..i + 1][..i] == raw[..i];
      if raw[i].Some? && raw[i].value.name != "" {
        var c := raw[i].value;
        var envs := EnvVarsFromConfig(Plain(c.env), Secrets(c.env));
        var comp := CompSpec(c.name, if isJob then MapJobKind(c.kind) else "", envs);
        assert (comps + [comp])[..|comps|] == comps;
        comps := comps + [comp];
      }
    }
    assert raw[..|raw|] == raw;
  }

  function RulesOf(cfg: Config, name: string): seq<Rule> {
    if CanonicalExpose(cfg) == "internal" then [] else ToRules(CanonicalRoutes(RoutesOf(cfg)), name)
  }

  function ToRules(routes: seq<Route>, name: string): (r: seq<Rule>)
    ensures |r| == |routes|
  {
    seq(|routes|, i requires 0 <= i < |routes| => Rule(routes[i].path, name, routes[i].preserve))
  }

  method IngressRulesFromRoutesConfig(cfg: Config, name: string) returns (rules: seq<Rule>)
    ensures rules == RulesOf(cfg, name)
  {
    var raw := RoutesOf(cfg);
    rules := [];
    if |raw| == 0 || CanonicalExpose(cfg) == "internal" {
      return;
    }
    for i := 0 to |raw|
      invariant rules == ToRules(CanonicalRoutes(raw[..i]), name)
    {
      assert raw[..i + 1][..i] == raw[..i];
      if raw[i].Some? {
        rules := rules + [Rule(OrSlash(raw[i].value.path), name, raw[i].value.preserve)];
      }
    }
    assert raw[..|raw|] == raw;
  }

  method RoutesFromConfig(cfg: Config) returns (routes: seq<Route>)
    ensures routes == CanonicalRoutes(RoutesOf(cfg))
  {
    var raw := RoutesOf(cfg);
    routes := [];
    for i := 0 to |raw|
      invariant routes == CanonicalRoutes(raw[..i])
    {
      assert raw[..i + 1][..i] == raw[..i];
      if raw[i].Some? {
        routes := routes + [Route(OrSlash(raw[i].value.path), raw[i].value.preserve)];
      }
    }
    assert raw[..|raw|] == raw;
  }

  /** When buildAppSpec accepts a config. */
  ghost predicate Accepted(cfg: Config) {
    ImageFromConfig(cfg).Some? && ExposeAccepted(cfg, cfg.internalPorts) && cfg.othersOk
  }

  ghost predicate ServiceCompiled(name: string, cfg: Config, svc: ServiceSpec) {
    var internal := CanonicalExpose(cfg) == "internal";
    && svc.name == name && svc.image == ImageFromConfig(cfg)
    && svc.httpPort == (if internal then 0 else if cfg.httpPort.Some? then cfg.httpPort.value else 8080)
    && svc.internalPorts == (if internal && cfg.httpPort.Some? && cfg.httpPort.value !in cfg.internalPorts
                             then cfg.internalPorts + [cfg.httpPort.value] else cfg.internalPorts)
    && svc.routes == (if internal || RulesOf(cfg, name) != [] then [] else CanonicalRoutes(RoutesOf(cfg)))
    && Emitted(svc.envs, Plain(cfg.env), Secrets(cfg.env))
  }

  function IngressOf(cfg: Config, rules: seq<Rule>): Option<Ingress> {
    var lb := ToUpper(cfg.loadBalancer);
    if lb == "" && |rules| == 0 then None else Some(Ingress(lb, rules))
  }

  function ListOf<T>(o: Option<seq<T>>): seq<T> {
    if o.Some? then o.value else []
  }

  /** The spec sent for an accepted config, up to the order in which variable maps are walked. */
  ghost predicate Compiled(name: string, cfg: Config, region: string, spec: CompiledSpec) {
    && spec.name == name && spec.region == region
    && ServiceCompiled(name, cfg, spec.service)
    && CompsCompiled(ListOf(cfg.jobs), spec.jobs, true)
    && CompsCompiled(ListOf(cfg.workers), spec.workers, false)
    && spec.ingress == IngressOf(cfg, RulesOf(cfg, name))
    && spec.vpc == (if cfg.vpcRef == "" then None else Some(cfg.vpcRef))
  }

  /** The primary service component, and the ingress it is routed by. */
  method BuildService(name: string, cfg: Config) returns (r: Option<ServiceSpec>, ingress: Option<Ingress>)
    ensures r.Some? <==> ImageFromConfig(cfg).Some? && ExposeAccepted(cfg, cfg.internalPorts)
    ensures r.Some? ==> ServiceCompiled(name, cfg, r.value) && ingress == IngressOf(cfg, RulesOf(cfg, name))
  {
    var image := ImageFromConfig(cfg);
    if image.None? {
      return None, None;
    }
    var rules := IngressRulesFromRoutesConfig(cfg, name);
    ingress := IngressOf(cfg, rules);
    var routes := RoutesFromConfig(cfg);
    if ingress.Some? && |ingress.value.rules| > 0 {
      routes := [];
    }
    var envs := EnvVarsFromConfig(Plain(cfg.env), Secrets(cfg.env));
    var svc := new Service(if cfg.httpPort.Some? then cfg.httpPort.value else 8080, cfg.internalPorts, routes);
    var exposeOk := svc.ApplyExposeInternal(cfg);
    if !exposeOk {
      return None, None;
    }
    r := Some(ServiceSpec(name, image, svc.httpPort, svc.internalPorts, svc.routes, envs));
  }

  method BuildAppSpec(name: string, cfg: Config, region: string) returns (r: Option<CompiledSpec>)
    ensures r.Some? <==> Accepted(cfg)
    ensures r.Some? ==> Compiled(name, cfg, region, r.value)
  {
    var svc, ingress := BuildService(name, cfg);
    if svc.None? || !cfg.othersOk {
      return None;
    }
    var jobs := CompsFromConfig(ListOf(cfg.jobs), true);
    var workers := CompsFromConfig(ListOf(cfg.workers), false);
    var vpc := if cfg.vpcRef == "" then None else Some(cfg.vpcRef);
    r := Some(CompiledSpec(name, region, svc.value, jobs, workers, ingress, vpc));
  }

  // ----- outputs -----

  /** The digest of a component's kind and environment. */
  datatype CompHash = CompHash(kind: string, envs: Hash)

  datatype Outputs = Outputs(
    expose: string,
    image: string,
    region: string,
    envHash: Hash,
    jobsHash: Option<map<string, CompHash>>,
    workersHash: Option<map<string, CompHash>>,
    routes: seq<Route>,
    vpc: string)

  function DeriveExpose(spec: CompiledSpec): string {
    if spec.service.httpPort == 0 && |spec.service.internalPorts| > 0 then "internal" else "public"
  }

  function FromRules(rules: seq<Rule>, name: string): seq<Route> {
    if rules == [] then []
    else
      var n := |rules| - 1;
      FromRules(rules[..n], name) +
      if name != "" && rules[n].component != name then [] else [Route(OrSlash(rules[n].path), rules[n].preserve)]
  }

  function DefaultPaths(routes: seq<Route>): seq<Route> {
    seq(|routes|, i requires 0 <= i < |routes| => Route(OrSlash(routes[i].path), routes[i].preserve))
  }

  function RoutesCanonicalFromSpec(spec: CompiledSpec): seq<Route> {
    var fromIngress := if spec.ingress.Some? then FromRules(spec.ingress.value.rules, spec.service.name) else [];
    if fromIngress != [] then fromIngress else DefaultPaths(spec.service.routes)
  }

  /** Component hashes by name; a later component of the same name overrides an earlier one. */
  ghost function SpecHashes(comps: seq<CompSpec>): map<string, CompHash> {
    if comps == [] then map[]
    else
      var n := |comps| - 1;
      var m := SpecHashes(comps[..n]);
      if comps[n].name == "" then m else m[comps[n].name := CompHash(comps[n].kind, ListHash(comps[n].envs))]
  }

  /** What appOutput records; empty hash maps may have been dropped when the state was stored. */
  ghost predicate OutputOf(spec: CompiledSpec, out: Outputs) {
    && out.expose == DeriveExpose(spec)
    && out.image == FormatImageSpec(spec.service.image)
    && out.region == spec.region
    && out.envHash == ListHash(spec.service.envs)
    && (out.jobsHash == Some(SpecHashes(spec.jobs)) || (spec.jobs == [] && out.jobsHash.None?))
    && (out.workersHash == Some(SpecHashes(spec.workers)) || (spec.workers == [] && out.workersHash.None?))
    && out.routes == RoutesCanonicalFromSpec(spec)
    && out.vpc == (if spec.vpc.Some? then spec.vpc.value else "")
  }

  method CompHashesFromSpec(comps: seq<CompSpec>) returns (m: map<string, CompHash>)
    ensures m == SpecHashes(comps)
  {
    m := map[];
    for i := 0 to |comps|
      invariant m == SpecHashes(comps[..i])
    {
      assert comps[..i + 1][..i] == comps[..i];
      if comps[i].name != "" {
        var h := EnvVarsHash(comps[i].envs);
        m := m[comps[i].name := CompHash(comps[i].kind, h)];
      }
    }
    assert comps[..|comps|] == comps;
  }

  method AppOutput(spec: CompiledSpec) returns (out: Outputs)
    ensures OutputOf(spec, out)
  {
    var envs := EnvVarsHash(spec.service.envs);
    var jobs := CompHashesFromSpec(spec.jobs);
    var workers := CompHashesFromSpec(spec.workers);
    out := Outputs(DeriveExpose(spec), FormatImageSpec(spec.service.image), spec.region, envs, Some(jobs),
      Some(workers), RoutesCanonicalFromSpec(spec), if spec.vpc.Some? then spec.vpc.value else "");
  }

  // ----- comparing -----

  datatype Change =
    | ImageChange | ExposeChange | RoutesChange | RegionChange | EnvChange | JobsChange | WorkersChange | VpcChange

  ghost function ConfigHash(c: CompConfig): CompHash {
    CompHash(ToUpper(c.kind), MapHash(Plain(c.env) + Secrets(c.env)))
  }

  ghost function ConfigHashes(raw: seq<Option<CompConfig>>): map<string, CompHash> {
    if raw == [] then map[]
    else
      var n := |raw| - 1;
      var m := ConfigHashes(raw[..n]);
      if raw[n].None? || raw[n].value.name == "" then m else m[raw[n].value.name := ConfigHash(raw[n].value)]
  }

  method ComponentHashesByName(raw: seq<Option<CompConfig>>) returns (m: map<string, CompHash>)
    ensures m == ConfigHashes(raw)
  {
    hide MapHash, Plain, Secrets, ToUpper;
    m := map[];
    for i := 0 to |raw|
      invariant m == ConfigHashes(raw[..i])
    {
      assert raw[..i + 1][..i] == raw[..i];
      if raw[i].Some? && raw[i].value.name != "" {
        var c := raw[i].value;
        var h := EnvVarsHashFromConfigMap(Plain(c.env) + Secrets(c.env));
        m := m[c.name := CompHash(ToUpper(c.kind), h)];
      }
    }
    assert raw[..|raw|] == raw;
  }

  function If(c: bool, change: Change): seq<Change> {
    if c then [change] else []
  }

  /** The changes in the order Diff lists them. */
  function Listed(image: bool, expose: bool, routes: bool, region: bool, env: bool, jobs: bool, workers: bool,
                  vpc: bool): seq<Change>
  {
    If(image, ImageChange) + If(expose, ExposeChange) + If(routes, RoutesChange) + If(region, RegionChange) +
    If(env, EnvChange) + If(jobs, JobsChange) + If(workers, WorkersChange) + If(vpc, VpcChange)
  }

  function DesiredRoutes(cfg: Config): seq<Route> {
    if CanonicalExpose(cfg) == "internal" then [] else CanonicalRoutes(RoutesOf(cfg))
  }

  function DesiredVpc(cfg: Config): string {
    if cfg.vpcRef == "" then cfg.vpcUuid else cfg.vpcRef
  }

  ghost predicate CompsDrift(raw: Option<seq<Option<CompConfig>>>, current: Option<map<string, CompHash>>) {
    raw.Some? && current.Some? && ConfigHashes(raw.value) != current.value
  }

  predicate ImageDrift(cfg: Config, out: Outputs) {
    cfg.image.RefText? && cfg.image.text != "" && !ImageRefsEqual(cfg.image.text, out.image)
  }

  predicate ExposeDrift(cfg: Config, out: Outputs) {
    CanonicalExpose(cfg) != if out.expose == "" then "public" else out.expose
  }

  predicate RoutesDrift(cfg: Config, out: Outputs) {
    cfg.routes.Some? && DesiredRoutes(cfg) != DefaultPaths(out.routes)
  }

  predicate RegionDrift(cfg: Config, out: Outputs) {
    cfg.region != "" && out.region != "" && NormalizeRegion(out.region) != NormalizeRegion(cfg.region)
  }

  ghost predicate EnvDrift(cfg: Config, out: Outputs) {
    Declared(cfg.env) && MapHash(Plain(cfg.env) + Secrets(cfg.env)) != out.envHash
  }

  predicate VpcDrift(cfg: Config, out: Outputs) {
    out.vpc != DesiredVpc(cfg)
  }

  ghost function Changes(cfg: Config, out: Outputs): seq<Change> {
    Listed(ImageDrift(cfg, out), ExposeDrift(cfg, out), RoutesDrift(cfg, out), RegionDrift(cfg, out),
           EnvDrift(cfg, out), CompsDrift(cfg.jobs, out.jobsHash), CompsDrift(cfg.workers, out.workersHash),
           VpcDrift(cfg, out))
  }

  /** Nothing is recorded yet, so an update is due, or the list of changes. */
  datatype Verdict = NoState | Compared(changes: seq<Change>)

  /** None when the region is not one App Platform has, or the registry does not have the image. */
  method Diff(cfg: Config, current: Option<Outputs>, imagePresent: bool) returns (r: Option<Verdict>)
    ensures r.Some? <==> ValidRegion(cfg.region) && imagePresent
    ensures r.Some? ==> (r.value.NoState? <==> current.None?)
    ensures r.Some? && current.Some? ==> r.value.changes == Changes(cfg, current.value)
  {
    if !ValidRegion(cfg.region) || !imagePresent {
      return None;
    }
    if current.None? {
      return Some(NoState);
    }
    var out := current.value;
    var envDrift := false;
    if Declared(cfg.env) {
      var h := EnvVarsHashFromConfigMap(Plain(cfg.env) + Secrets(cfg.env));
      envDrift := h != out.envHash;
    }
    var jobsDrift := CompareComps(cfg.jobs, out.jobsHash);
    var workersDrift := CompareComps(cfg.workers, out.workersHash);
    r := Some(Compared(Listed(ImageDrift(cfg, out), ExposeDrift(cfg, out), RoutesDrift(cfg, out), RegionDrift(cfg, out),
                              envDrift, jobsDrift, workersDrift, VpcDrift(cfg, out))));
  }

  method CompareComps(raw: Option<seq<Option<CompConfig>>>, current: Option<map<string, CompHash>>)
    returns (drift: bool)
    ensures drift <==> CompsDrift(raw, current)
  {
    drift := false;
    if raw.Some? && current.Some? {
      var desired := ComponentHashesByName(raw.value);
      var same := HashMapsEqual(desired, current.value);
      drift := !same;
    }
  }

  /** Equal sizes, and each desired entry found with its hash, decide that the maps are the same. */
  method HashMapsEqual(desired: map<string, CompHash>, current: map<string, CompHash>) returns (same: bool)
    ensures same <==> desired == current
  {
    if |desired| != |current| {
      return false;
    }
    var rest := desired.Keys;
    while rest != {}
      invariant rest <= desired.Keys
      invariant forall name :: name in desired && name !in rest ==> name in current && desired[name] == current[name]
    {
      var name :| name in rest;
      if name !in current || desired[name] != current[name] {
        return false;
      }
      rest := rest - {name};
    }
    SameSizeSameMap(desired, current);
    same := true;
  }

  lemma SameSizeSameMap(a: map<string, CompHash>, b: map<string, CompHash>)
    requires |a| == |b| && forall name :: name in a ==> name in b && a[name] == b[name]
    ensures a == b
  {
    assert |a.Keys| == |a| && |b.Keys| == |b| && a.Keys <= b.Keys;
    SameSizeSubset(a.Keys, b.Keys);
  }

  lemma {:induction false} SameSizeSubset(a: set<string>, b: set<string>)
    requires a <= b && |a| == |b|
    ensures a == b
  {
    if a != {} {
      var x :| x in a;
      SameSizeSubset(a - {x}, b - {x});
      assert b == (b - {x}) + {x};
    }
  }

  // ----- what a freshly compiled spec shows as drift -----

  lemma KindSpelled(kind: string, lower: string, upper: string)
    requires lower == ToLower(lower) && upper == ToUpper(lower)
    ensures ToLower(kind) == lower <==> ToUpper(kind) == upper
  {
    FoldsAgree(kind, lower);
  }

  lemma DeployKinds(kind: string)
    ensures ToLower(kind) == "pre_deploy" <==> ToUpper(kind) == "PRE_DEPLOY"
    ensures ToLower(kind) == "post_deploy" <==> ToUpper(kind) == "POST_DEPLOY"
  {
    KindSpelled(kind, "pre_deploy", "PRE_DEPLOY");
    KindSpelled(kind, "post_deploy", "POST_DEPLOY");
  }

  lemma OtherKinds(kind: string)
    ensures ToLower(kind) == "failed_deploy" <==> ToUpper(kind) == "FAILED_DEPLOY"
    ensures ToLower(kind) == "scheduled" <==> ToUpper(kind) == "SCHEDULED"
    ensures ToLower(kind) == "unspecified" <==> ToUpper(kind) == "UNSPECIFIED"
  {
    KindSpelled(kind, "failed_deploy", "FAILED_DEPLOY");
    KindSpelled(kind, "scheduled", "SCHEDULED");
    KindSpelled(kind, "unspecified", "UNSPECIFIED");
  }

  /** The job kinds that print alike on both sides; a blank kind is not one of them. */
  predicate RecognisedKind(kind: string) {
    ToLower(kind) in ["pre_deploy", "post_deploy", "failed_deploy", "scheduled", "unspecified"]
  }

  lemma KindPrintsAlike(kind: string)
    ensures ToUpper(kind) == MapJobKind(kind) <==> RecognisedKind(kind)
  {
    DeployKinds(kind);
    OtherKinds(kind);
  }

  predicate KeysOverlap(e: EnvConfig) {
    Plain(e).Keys * Secrets(e).Keys != {}
  }

  /** A component whose two sides hash alike. */
  predicate Steady(c: CompConfig, isJob: bool) {
    (if isJob then RecognisedKind(c.kind) else c.kind == "") && !KeysOverlap(c.env)
  }

  /** The entry that decides for each name: the last one. */
  function LastByName(raw: seq<Option<CompConfig>>): map<string, CompConfig> {
    if raw == [] then map[]
    else
      var n := |raw| - 1;
      var m := LastByName(raw[..n]);
      if raw[n].None? || raw[n].value.name == "" then m else m[raw[n].value.name := raw[n].value]
  }

  predicate AllSteady(raw: seq<Option<CompConfig>>, isJob: bool) {
    var last := LastByName(raw);
    forall name | name in last :: Steady(last[name], isJob)
  }

  lemma OverlapExactly(e: EnvConfig)
    ensures KeysOverlap(e) <==> !(Plain(e).Keys !! Secrets(e).Keys)
  {
    var a, b := Plain(e).Keys, Secrets(e).Keys;
    assert a !! b <==> forall k :: k in a ==> k !in a * b;
  }

  lemma KindsAgree(kind: string, isJob: bool)
    ensures ToUpper(kind) == (if isJob then MapJobKind(kind) else "") <==>
              if isJob then RecognisedKind(kind) else kind == ""
  {
    KindPrintsAlike(kind);
  }

  lemma CompAgrees(c: CompConfig, comp: CompSpec, isJob: bool)
    requires comp.kind == (if isJob then MapJobKind(c.kind) else "")
    requires Emitted(comp.envs, Plain(c.env), Secrets(c.env))
    ensures ConfigHash(c) == CompHash(comp.kind, ListHash(comp.envs)) <==> Steady(c, isJob)
  {
    hide ToUpper, MapJobKind, RecognisedKind, Emitted, ListHash, MapHash;
    EnvDriftExactly(comp.envs, Plain(c.env), Secrets(c.env));
    KindsAgree(c.kind, isJob);
    OverlapExactly(c.env);
  }

  lemma {:induction false} HashesByName(raw: seq<Option<CompConfig>>, comps: seq<CompSpec>, isJob: bool)
    requires CompsCompiled(raw, comps, isJob)
    ensures ConfigHashes(raw).Keys == SpecHashes(comps).Keys == LastByName(raw).Keys
    ensures forall name :: name in LastByName(raw) ==>
      (ConfigHashes(raw)[name] == SpecHashes(comps)[name] <==> Steady(LastByName(raw)[name], isJob))
  {
    if raw != [] {
      var n := |raw| - 1;
      if raw[n].None? || raw[n].value.name == "" {
        HashesByName(raw[..n], comps, isJob);
      } else {
        var k := |comps| - 1;
        HashesByName(raw[..n], comps[..k], isJob);
        CompAgrees(raw[n].value, comps[k], isJob);
      }
    }
  }

  lemma CompsDriftExactly(raw: seq<Option<CompConfig>>, comps: seq<CompSpec>, isJob: bool)
    requires CompsCompiled(raw, comps, isJob)
    ensures ConfigHashes(raw) == SpecHashes(comps) <==> AllSteady(raw, isJob)
  {
    HashesByName(raw, comps, isJob);
    var last := LastByName(raw);
    if AllSteady(raw, isJob) {
      forall name | name in ConfigHashes(raw) ensures ConfigHashes(raw)[name] == SpecHashes(comps)[name] {
        assert name in last;
      }
    }
  }

  lemma {:induction false} RulesReadBack(routes: seq<Route>, name: string)
    requires forall i :: 0 <= i < |routes| ==> routes[i].path != ""
    ensures FromRules(ToRules(routes, name), name) == routes
    ensures DefaultPaths(routes) == routes
  {
    if routes != [] {
      var n := |routes| - 1;
      assert ToRules(routes, name)[..n] == ToRules(routes[..n], name);
      RulesReadBack(routes[..n], name);
    }
  }

  lemma {:induction false} CanonicalPaths(raw: seq<Option<RouteConfig>>)
    ensures forall i :: 0 <= i < |CanonicalRoutes(raw)| ==> CanonicalRoutes(raw)[i].path != ""
  {
    if raw != [] {
      CanonicalPaths(raw[..|raw| - 1]);
    }
  }

  /** The routes read back from a compiled spec are the declared ones, or none when internal. */
  lemma RoutesReadBack(name: string, cfg: Config, region: string, spec: CompiledSpec)
    requires Compiled(name, cfg, region, spec)
    ensures DefaultPaths(RoutesCanonicalFromSpec(spec)) == DesiredRoutes(cfg)
  {
    var routes := CanonicalRoutes(RoutesOf(cfg));
    CanonicalPaths(RoutesOf(cfg));
    RulesReadBack(routes, name);
    RulesReadBack([], name);
  }

  /** The two ways a config can compile to a spec that then reads back with other exposure. */
  predicate PortlessPublic(cfg: Config) {
    CanonicalExpose(cfg) == "public" && cfg.httpPort == Some(0) && cfg.internalPorts != []
  }

  lemma ExposeReadBack(name: string, cfg: Config, region: string, spec: CompiledSpec)
    requires Accepted(cfg) && Compiled(name, cfg, region, spec)
    ensures CanonicalExpose(cfg) == DeriveExpose(spec) <==> !PortlessPublic(cfg)
  {
  }

  /** A component list can show as changed on a spec just compiled from it. */
  predicate CompsUnsteady(raw: Option<seq<Option<CompConfig>>>, isJob: bool) {
    raw.Some? && !AllSteady(raw.value, isJob)
  }

  lemma CompsReadBack(raw: Option<seq<Option<CompConfig>>>, comps: seq<CompSpec>, isJob: bool,
                      current: Option<map<string, CompHash>>)
    requires CompsCompiled(ListOf(raw), comps, isJob)
    requires current == Some(SpecHashes(comps)) || (comps == [] && current.None?)
    ensures CompsDrift(raw, current) <==> CompsUnsteady(raw, isJob)
  {
    if raw.Some? {
      CompsDriftExactly(raw.value, comps, isJob);
      if current.None? {
        HashesByName(raw.value, comps, isJob);
        assert LastByName(raw.value).Keys == {};
      }
    }
  }

  lemma NeverDrifts(name: string, cfg: Config, region: string, spec: CompiledSpec, out: Outputs)
    requires Accepted(cfg) && Compiled(name, cfg, region, spec) && OutputOf(spec, out)
    requires cfg.region != "" ==> region == cfg.region
    ensures !ImageDrift(cfg, out) && !RoutesDrift(cfg, out) && !RegionDrift(cfg, out)
  {
    if cfg.image.RefText? {
      DesiredEqualsPrinted(cfg.image.text);
    }
    RoutesReadBack(name, cfg, region, spec);
  }

  lemma SometimesDrifts(name: string, cfg: Config, region: string, spec: CompiledSpec, out: Outputs)
    requires Accepted(cfg) && Compiled(name, cfg, region, spec) && OutputOf(spec, out)
    ensures ExposeDrift(cfg, out) <==> PortlessPublic(cfg)
    ensures EnvDrift(cfg, out) <==> KeysOverlap(cfg.env)
    ensures VpcDrift(cfg, out) <==> cfg.vpcRef == "" && cfg.vpcUuid != ""
  {
    ExposeReadBack(name, cfg, region, spec);
    EnvsReadBack(name, cfg, region, spec, out);
  }

  lemma EnvsReadBack(name: string, cfg: Config, region: string, spec: CompiledSpec, out: Outputs)
    requires Compiled(name, cfg, region, spec) && OutputOf(spec, out)
    ensures EnvDrift(cfg, out) <==> KeysOverlap(cfg.env)
  {
    EnvDriftExactly(spec.service.envs, Plain(cfg.env), Secrets(cfg.env));
    OverlapExactly(cfg.env);
  }

  /**
   Drift detection against the outputs of a spec just compiled from the same config, exactly: image,
   routes and region never show; exposure, environment, jobs, workers and VPC show if and only if the
   config has the shape named here. So buildAppSpec is a fixed point of Diff for every other config.
   */
  lemma DriftAfterCompile(name: string, cfg: Config, region: string, spec: CompiledSpec, out: Outputs)
    requires Accepted(cfg) && Compiled(name, cfg, region, spec) && OutputOf(spec, out)
    requires cfg.region != "" ==> region == cfg.region
    ensures Changes(cfg, out) ==
      Listed(false, PortlessPublic(cfg), false, false, KeysOverlap(cfg.env), CompsUnsteady(cfg.jobs, true),
             CompsUnsteady(cfg.workers, false), cfg.vpcRef == "" && cfg.vpcUuid != "")
  {
    NeverDrifts(name, cfg, region, spec, out);
    SometimesDrifts(name, cfg, region, spec, out);
    CompsReadBack(cfg.jobs, spec.jobs, true, out.jobsHash);
    CompsReadBack(cfg.workers, spec.workers, false, out.workersHash);
  }
}
