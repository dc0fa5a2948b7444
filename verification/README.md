# Verified models of the DigitalOcean provider

These Dafny modules model the parts of the provider that reconcile declared infrastructure with the
DigitalOcean API, and prove what the provider promises about them. The API is a class in each area: its
state is abstract, its answers are chosen freely within a stated contract, an answer may be lost after a
write took effect, and listings come in pages. A `quiet` API (or one described as edited by nobody else)
changes only through the modelled client; where the source makes promises in the presence of other editors,
the contracts hold without that premise.

| area | modules |
|---|---|
| strings, pages, small types | `Text`, `Paging`, `Wrappers` |
| image references, environment hashes, spec compilation and drift | `ImageRef`, `EnvHash`, `SpecDrift` |
| one-off job runner | `AppModel`, `AppServer`, `JobDigest`, `JobHandle`, `JobRecovery`, `JobLookup`, `JobCleanup`, `JobRunner`, `JobPolling` |
| migration repair | `MigrationRepair` (on `AppServer`) |
| DNS reconciliation | `DnsRecords`, `DnsConfig`, `DnsZone`, `DnsDriver`, `DnsSync` |
| CNAMEs of app domains | `AppCname` (on `DnsZone`) |
| deployment tracking, promotion of a prevalidated clone | `ServiceImages`, `DeployTracking`, `Promotion` |
| ownership tags | `OwnerTags` |
| Droplet replacement | `DropletReplace` |
| databases: deferred firewall rules, credential rotation | `DatabaseFirewall`, `CredentialRotation`, `DatabaseDriver` |

The main results:

- `JobPolling.ClientRun`: one launch followed by any sequence of polls and cancels, every answer lost or not,
  keeps the live spec at the prior spec or the prior spec plus the one launched job; from the first call that
  ends without error in a terminal state on, it is the prior spec and nothing is written any more.
- `JobRecovery.ScanVerdict` with `JobRecovery.RecoverAppJobHistoricalDeployment`: the paged, stateful search
  refines a search over one unordered set of deployments.
- `DnsSync.Update` with `DnsSync.DiffAndUpdateAgain`: after a successful update, drift detection, which keys
  records differently, sees nothing to do, and a second update writes nothing.
- `SpecDrift.DriftAfterCompile`: the exact list of changes that drift detection reports on a spec as it was just
  compiled, for every accepted configuration.
- `MigrationRepair.RepairDirtyMigration`: whatever is lost or interrupted, a write that may have landed is
  followed by an attempt to restore the spec, and a repair without error has restored it.
- `DatabaseDriver.Driver.RunPlan`: a plan that creates databases and updates each at most once, while the apps
  they name come to exist, ends in a flush that, when it is nil, leaves every one with its full rules.
- `CredentialRotation.DatabaseUserDriver.RunUpdates` and `DatabaseDriver.Driver.RunUpdates`: over any run of
  updates, every reset follows its checks and there are exactly as many resets as epoch changes when none fails.
- `AppCname.ReconcileCname`, `OwnerTags.SetOwner` and `DropletReplace.Replace`: the whole protocols of their areas.

## Where the code does less than it promises

Each of these is kept as the code has it; the exact condition is proved.

- Drift detection reports a change on a spec as it was just submitted exactly when a plain and a secret variable
  share a key, a job kind is not one that both sides print alike or a worker declares one, a public service has
  no port, or `vpc_uuid` stands without `vpc_ref` (`SpecDrift.DriftAfterCompile`, `SpecDrift.KindPrintsAlike`,
  `EnvHash.EnvDriftExactly`).
- DNS drift detection and DNS update disagree on what is up to date exactly when two live CNAMEs of one name have
  different targets (`DnsSync.KeysAgreeExactly`; a concrete zone in `DnsSync.TwoCnames`).
- The single-app deployment driver replaces the previously active id before its write. If that write fails while
  the earlier target has become active, a health check can succeed on the deployment that was active before the
  failed update, and in no other case (`DeployTracking.OldBelievedExactly`, `DeployTracking.FailedUpdateThenCheck`).
  The resource driver does not have this gap.
- Promotion hands the clone's image over as one flat text. Repository and tag survive it exactly when the tag has no
  slash and the last part of the repository no colon (`ServiceImages.FlatRefExactly`); of an app with several
  services every image becomes that of the clone's first service (`Promotion.AppPrevalidatedRollingDriver.SwitchTraffic`).
- Droplet replacement asks for the price again after the delete. A rise in between fails the replacement with the
  old Droplet gone, which can happen exactly to a spec with a cap (`DropletReplace.PriceMayRise`,
  `DropletReplace.Replace`); with one and the same catalogue it cannot. Malformed SSH keys are likewise noticed
  only after the delete.
- A deferred firewall entry that stays queued overwrites a later direct declaration with the older list
  (`DatabaseDriver.OlderEntryWins`). Every nil flush leaves the declared rules exactly when each database's last
  queued list has no full reading that its declaration lacks (`DatabaseDriver.FlushKeepsDeclaredExactly`), which
  holds when no entry is stale.
- An app domain's CNAME target whose host ends in white space may be stored in a spelling that the reconciler does
  not recognise (`AppCname.SpellingsExactly`).
- The encoding mark `workflow-owner:b64:` with nothing but line breaks after it parses as an empty owner, and no
  other tag does (`OwnerTags.EmptyOwnerExactly`).

## Model

| member | source | states |
|---|---|---|
| `ImageRef.AcceptedShape` | internal/drivers/app_platform.go:1820-1902 | every accepted reference parses into non-empty, blank-free parts that fit its registry |
| `ImageRef.ParsePrinted` | internal/drivers/app_platform.go:1820-1902 | a printed three-part reference is cut back into its host, registry, repository and tag |
| `ImageRef.PrintParseRoundTrip` | internal/drivers/app_platform.go:1719-1789 | parsing the printed form of a parsed reference gives all fields back, for every accepted string |
| `ImageRef.ReparseExactly` | internal/drivers/app_platform.go:1719-1765 | the image specs that survive printing and parsing are exactly the well-formed ones |
| `ImageRef.RefsEqualEquivalence` | internal/drivers/app_platform.go:1773-1789 | comparing references is reflexive, symmetric and transitive |
| `ImageRef.DesiredEqualsPrinted` | internal/drivers/app_platform.go:1689-1789 | a desired image always equals its own printed live form |
| `EnvHash.EncodeInjective` | internal/drivers/app_platform.go:1573-1595 | two key/value lists with the same length-prefixed text are the same list |
| `EnvHash.MapHashInjective` | internal/drivers/app_platform.go:1645-1663 | two maps with the same hash are the same map |
| `EnvHash.ListAgreesExactly` | internal/drivers/app_platform.go:1573-1663 | the list side and the map side print the same text, in any list order, exactly when no key repeats in the list |
| `EnvHash.EnvDriftExactly` | internal/drivers/app_platform.go:1573-1663 | variables as compiled hash like the configuration they came from exactly when plain and secret keys are disjoint |
| `EnvHash.EnvVarsHash` | internal/drivers/app_platform.go:1573-1595 | the list loop computes the text that the injectivity results speak about |
| `EnvHash.EnvVarsHashFromConfigMap` | internal/drivers/app_platform.go:1645-1663 | the map loop computes the text that the injectivity results speak about, whatever the iteration order |
| `EnvHash.EnvVarsFromConfig` | internal/drivers/app_platform.go:1977-2008 | every plain and every secret entry becomes one variable of its type, in any order |
| `SpecDrift.Service.ApplyExposeInternal` | internal/drivers/app_platform_buildspec.go:246-298 | which expose settings are accepted, and that an internal service ends with no public port, no routes and its one internal port, any other unchanged |
| `SpecDrift.IngressRulesFromRoutesConfig` | internal/drivers/app_platform_buildspec.go:642-666 | the ingress rules are the canonical routes, in order, for this service |
| `SpecDrift.RoutesFromConfig` | internal/drivers/app_platform_buildspec.go:308-329 | the routes are the canonical routes of the configuration, in order |
| `SpecDrift.CompsFromConfig` | internal/drivers/app_platform_buildspec.go:714-844 | each named entry becomes one component with its kind and its variables, in order |
| `SpecDrift.BuildService` | internal/drivers/app_platform_buildspec.go:21-118 | accepted exactly with a valid image and expose setting; the service and the ingress it yields |
| `SpecDrift.BuildAppSpec` | internal/drivers/app_platform_buildspec.go:21-118 | which configurations are accepted, and the fields of the spec that drift detection later reads |
| `SpecDrift.CompHashesFromSpec` | internal/drivers/app_platform.go:1540-1570 | the hash of the last component of each name |
| `SpecDrift.AppOutput` | internal/drivers/app_platform.go:1250-1315 | the printed outputs as derived from a submitted spec |
| `SpecDrift.ComponentHashesByName` | internal/drivers/app_platform.go:575-591 | the hash of the last configured component of each name |
| `SpecDrift.Diff` | internal/drivers/app_platform.go:408-572 | fails exactly on an invalid region or a missing image; an update is due without a state; otherwise the changes field by field |
| `SpecDrift.HashMapsEqual` | internal/drivers/app_platform.go:593-607 | equal sizes and every desired entry found decide that the two maps are the same |
| `SpecDrift.KindPrintsAlike` | internal/drivers/app_platform_buildspec.go:768-782 | the kinds that both sides print alike: the four recognised ones and the default's own name |
| `SpecDrift.CompAgrees` | internal/drivers/app_platform.go:1597-1676 | one component hashes alike on both sides exactly when its kind is steady and its keys are disjoint |
| `SpecDrift.CompsDriftExactly` | internal/drivers/app_platform.go:1540-1676 | the component maps agree exactly when the last component of every name is steady |
| `SpecDrift.RoutesReadBack` | internal/drivers/app_platform.go:1393-1526 | the routes read back from a compiled spec are the desired ones |
| `SpecDrift.ExposeReadBack` | internal/drivers/app_platform.go:1797-1818 | the exposure read back is the desired one exactly unless a public service has no port |
| `SpecDrift.CompsReadBack` | internal/drivers/app_platform.go:1540-1570 | job or worker drift after compilation is exactly an unsteady component |
| `SpecDrift.NeverDrifts` | internal/drivers/app_platform.go:408-572 | image, routes and region never drift on a spec as compiled |
| `SpecDrift.SometimesDrifts` | internal/drivers/app_platform.go:408-572 | the exact conditions under which exposure, variables and VPC drift on a spec as compiled |
| `SpecDrift.DriftAfterCompile` | internal/drivers/app_platform.go:408-572 | the exact list of reported changes on a spec as compiled, for every accepted configuration |
| `AppModel.MarkedOnce` | internal/app_platform_runner.go:513-528 | one marked job stands at one position, and removing by name takes out just that one |
| `AppModel.AppendThenRemove` | internal/drivers/app_platform_migration_repair.go:322-331 | appending a job under a fresh name and removing the name gives the jobs back in order |
| `AppModel.RemoveJobs` | internal/drivers/app_platform_migration_repair.go:322-331 | the loop drops exactly the jobs of the name |
| `AppServer.KnownJobsStoredAsSent` | internal/app_platform_runner.go:501-546 | a spec all of whose jobs the API already holds is stored as sent |
| `AppServer.LaunchStored` | internal/app_platform_runner.go:64-137 | what is stored for a launch is the prior spec plus one respelling of the launched job |
| `JobDigest.AppJobIntentDigest` | internal/app_platform_runner.go:141-166 | the digest of the job with sorted variables, blanked secrets and the duration's value, or none |
| `JobDigest.IntentExactly` | internal/app_platform_runner.go:141-166 | two jobs share an intent exactly when they differ only in variable order, secret values and duration spelling |
| `JobHandle.OwnedAppJobComponent` | internal/app_platform_runner.go:168-196 | the one job of the marker's name, when no other kind of component has it and it is acceptable |
| `JobHandle.BindAppJobDeployment` | internal/app_platform_runner.go:198-227 | binds exactly when the deployment has the owned job on top of the prior spec; a failed bind changes nothing |
| `JobHandle.ExtendsTransitive` | internal/app_platform_runner.go:198-227 | what a handle has learned stays learned over any number of steps |
| `JobHandle.BindingExtends` | internal/app_platform_runner.go:198-227 | binding never changes a set deployment id or an acknowledged digest |
| `JobHandle.BindingOwns` | internal/app_platform_runner.go:198-227 | a bound deployment's spec is the prior spec plus one job of the launched intent |
| `JobHandle.OwnedIsPriorPlusOne` | internal/app_platform_runner.go:168-227 | a spec that the handle owns is the prior spec with one job of the launched intent put in, nothing else changed |
| `JobRecovery.OwnedIdsMeaning` | internal/app_platform_runner.go:438-478 | the ids of the reference search are those of the owned deployments, wherever they are listed |
| `JobRecovery.ScanVerdict` | internal/app_platform_runner.go:438-478 | the stateful scan goes through exactly when no entry is fatal and at most one id is owned; what it found is that id |
| `JobRecovery.FoundIsCandidate` | internal/app_platform_runner.go:438-478 | what the scan found is the binding of some owned entry |
| `JobRecovery.StoppedStays` | internal/app_platform_runner.go:438-478 | once stopped, nothing listed later changes the error |
| `JobRecovery.ScanItem` | internal/app_platform_runner.go:445-471 | one listed deployment is read back unless skipped, and judged as the reference scan does |
| `JobRecovery.ScanPage` | internal/app_platform_runner.go:445-471 | a page continues the scan of everything listed before, so the cut into pages does not matter |
| `JobRecovery.NextPage` | internal/app_platform_runner.go:440-477 | one page request, with what it adds to the trace |
| `JobRecovery.RecoverAppJobHistoricalDeployment` | internal/app_platform_runner.go:438-478 | at most 100 pages; success binds the one owned deployment of all pages together, every error leaves the handle as it was |
| `JobLookup.BindAppJobInvocation` | internal/app_platform_runner.go:480-499 | binds exactly a fitting invocation whose deployment is the handle's; any error leaves the handle as it was |
| `JobLookup.FindInvocation` | internal/app_platform_runner.go:406-429 | one invocation agreed on by all pages up to the last; two that disagree are an error |
| `JobLookup.PickInvocation` | internal/app_platform_runner.go:413-424 | the candidate of one page agrees with those seen before, or an error |
| `JobLookup.RecoverFromSlots` | internal/app_platform_runner.go:366-387 | the handle learns a deployment only from a confirmed slot |
| `JobLookup.ConfirmSlot` | internal/app_platform_runner.go:366-386 | a slot counts only when a read of that deployment binds too |
| `JobLookup.RecoverDeployment` | internal/app_platform_runner.go:358-395 | a missing deployment id is learned soundly or not at all |
| `JobLookup.ReadInvocation` | internal/app_platform_runner.go:396-405 | a known invocation is read by id, and found only when it fits the handle |
| `JobLookup.AppJobInvocation` | internal/app_platform_runner.go:357-436 | what is found was seen in this call and fits the handle, which only learns |
| `JobLookup.CancelInvocation` | internal/app_platform_runner.go:309-355 | nil means that this call saw the invocation or the owned deployment end |
| `JobLookup.ObserveDeployment` | internal/app_platform_runner.go:252-265 | an observed phase belongs to the owned deployment |
| `JobLookup.CancelDeploymentOf` | internal/app_platform_runner.go:310-333 | nil means that the owned deployment was seen in Error, Canceled or Superseded |
| `JobCleanup.StripOwned` | internal/app_platform_runner.go:513-528 | passes exactly with at most one marked job, unchanged; the rest keeps its order |
| `JobCleanup.Judge` | internal/app_platform_runner.go:510-534 | a write is due exactly when the spec is the prior one plus the owned job, none when it is the prior one, an error otherwise |
| `JobCleanup.Cleanup` | internal/app_platform_runner.go:501-546 | drift, a changed owned job or a second marker lead to no write and an error; the only write is the spec just read minus the owned job; nil means that the last read showed the prior spec; with no other editor and every request answered it is nil whenever the live spec is the prior one or that plus the owned job |
| `JobCleanup.WriteAndVerify` | internal/app_platform_runner.go:537-545 | the read-back decides, not the answer to the write; with no other editor and every request answered it succeeds |
| `JobRunner.CollectEnvs` | internal/app_platform_runner.go:591-627 | the walk over one map accepts exactly when every key passes, in whatever order |
| `JobRunner.AppJobEnvs` | internal/app_platform_runner.go:591-627 | accepted exactly when keys are valid, disjoint and every secret reference resolves in the parent; each variable once, sorted |
| `JobRunner.LearnFromLaunch` | internal/app_platform_runner.go:123-135 | the answer to the launch acknowledges the job only as the stored owned one |
| `JobRunner.BindSlots` | internal/app_platform_runner.go:130-134 | a slot binds soundly or leaves the handle as it was |
| `JobRunner.Prepare` | internal/app_platform_runner.go:65-113 | nothing is written before the launch; the new job's name is free among all kinds of component; with no other editor and every request answered it passes exactly for a launchable request |
| `JobRunner.Launch` | internal/app_platform_runner.go:114-136 | exactly one write; with no other editor the live spec is as before or as the API may store the launch |
| `JobRunner.RunJob` | internal/app_platform_runner.go:64-137 | an error means nothing was written; success sends the spec just read plus the one marked job and returns a sound handle; with no other editor and every request answered every launchable request is launched |
| `JobPolling.ObserveState` | internal/app_platform_runner.go:240-277 | a terminal state rests on an observed end, or on a lost launch whose job was seen absent |
| `JobPolling.PassDeadline` | internal/app_platform_runner.go:278-284 | past the deadline a running job becomes cancelled only after a successful cancel |
| `JobPolling.Settle` | internal/app_platform_runner.go:235-284 | the state reported and the evidence for it, within the same call and for what the given handle learned in it |
| `JobPolling.JobStatus` | internal/app_platform_runner.go:229-292 | the state is the one this call observed, of a handle that only adds to the given one; a write needs that the same call saw the job end, or saw the job of a lost launch absent, and when absent jobs do not reappear only the former; a terminal answer without error means the prior spec was last seen; with no other editor and every request answered a terminal answer is without error when the job can be cleaned up |
| `JobPolling.LookAndCancel` | internal/app_platform_runner.go:294-355 | nil means the end was observed in this call |
| `JobPolling.CancelJob` | internal/app_platform_runner.go:294-307 | nil means an observed end and a restored spec; no cleanup without the observation; with no other editor and every request answered the cleanup succeeds when the job can be cleaned up |
| `JobPolling.WritesRestOnEnd` | internal/app_platform_runner.go:501-546 | when a component seen absent does not reappear by itself, a cleanup that writes rests on an observed end |
| `JobPolling.CleanupSendsPrior` | internal/app_platform_runner.go:501-546 | a cleanup sends nothing but the prior spec, and nothing once the prior spec is read |
| `JobPolling.ClientPoll` | internal/app_platform_runner.go:229-292 | one poll sends at most the prior spec, ends with it live when over, and writes nothing once it is live |
| `JobPolling.ClientCancel` | internal/app_platform_runner.go:294-307 | one cancel sends at most the prior spec, ends with it live when over, and writes nothing once it is live |
| `JobPolling.SafeCall` | internal/app_platform_runner.go:229-307 | one more call keeps a trace of calls safe |
| `JobPolling.RunCalls` | internal/app_platform_runner.go:229-307 | any sequence of calls: the trace is safe, its ends are those of the returned errors and states, and from the prior spec no call writes |
| `JobPolling.ClientRun` | internal/app_platform_runner.go:64-307 | the whole run on the API's log: the prior spec plus the one marked job is sent once, then only the prior spec; prior or prior plus one live throughout; after the first call that returned a terminal state without error no event of the log is a write and the prior spec stays live; with every request answered every launchable request is launched |
| `MigrationRepair.AbsentName` | internal/drivers/app_platform_migration_repair.go:342-350 | a generated name that no component of any kind has |
| `MigrationRepair.RepairEnvs` | internal/drivers/app_platform_migration_repair.go:297-311 | each variable of the request once, secret and at run time, in any order |
| `MigrationRepair.RepairJob` | internal/drivers/app_platform_migration_repair.go:264-278 | the request's job, exactly when its image parses |
| `MigrationRepair.PrepareRepairSpec` | internal/drivers/app_platform_migration_repair.go:61-83 | the spec just read plus the request's job under a free name; nothing written |
| `MigrationRepair.TryUpdate` | internal/drivers/app_platform_migration_repair.go:155-168 | a name conflict leaves the spec alone, any other outcome at most the one job more |
| `MigrationRepair.LaunchRepair` | internal/drivers/app_platform_migration_repair.go:154-187 | at most three writes, each on a spec just read; ending in a conflict means nothing was written; with every request answered it is written or was not prepared |
| `MigrationRepair.Restore` | internal/drivers/app_platform_migration_repair.go:88-153 | success leaves the original spec, failure at most the one job more; however it ends, it has tried: the removal was sent, or a read failed or showed the job gone; with every request answered it succeeds |
| `MigrationRepair.ResidueRemoved` | internal/drivers/app_platform_migration_repair.go:132-139 | removing the generated name gives the original back, job order included |
| `MigrationRepair.ListInvocations` | internal/drivers/app_platform_migration_repair.go:465-483 | everything listed was seen on some page, up to the last |
| `MigrationRepair.WaitForInvocation` | internal/drivers/app_platform_migration_repair.go:425-463 | an ended invocation of the job's name was seen in one of the four terminal phases |
| `MigrationRepair.LandedApart` | internal/drivers/app_platform_migration_repair.go:154-187 | whether a write may have landed is decided by its own try |
| `MigrationRepair.RepairTrace` | internal/drivers/app_platform_migration_repair.go:88-242 | launch, wait and restore in a row: the write that may have landed is followed by the restore, which has tried by the end |
| `MigrationRepair.RepairDirtyMigration` | internal/drivers/app_platform_migration_repair.go:33-242 | on every exit after a write that may have landed a restore has been tried: the trace ends in the removal sent, or in a read that failed or no longer shows the job; a restore that the trace shows to have worked, or no write that may have landed, leaves the original spec; a report without error rests on such a restore, one of success on a seen success; with every request answered and no other editor the original spec is live again |
| `DnsRecords.MatchKeepsKeys` | internal/drivers/dns.go:1142-1191 | a record that matches a request carries both of its keys |
| `DnsRecords.IdentityRefinesKey` | internal/drivers/dns.go:1142-1179 | the two keys identify the same records except among CNAMEs |
| `DnsRecords.MatchKeepsAbsence` | internal/drivers/dns.go:666-674 | what is stored for a request is unwanted exactly when the request is |
| `DnsRecords.JoinedKeyIsExact` | internal/drivers/dns.go:1164-1179 | the NUL-joined text identifies the parts when type, name and tag hold no NUL, whatever the data |
| `DnsConfig.RequestFromConfig` | internal/drivers/dns.go:713-771 | an accepted entry has a supported type, a name and a positive TTL |
| `DnsConfig.AbsentDataKept` | internal/drivers/dns.go:573-600 | a pattern with data never turns into the pattern for any data |
| `DnsConfig.DeclaredRecords` | internal/drivers/dns.go:527-560 | the loop with its two maps computes the declared list |
| `DnsConfig.DeclaredExactly` | internal/drivers/dns.go:527-560 | the order-dependent loop accepts exactly the well-formed lists whose entries are pairwise compatible; what it keeps stands for all of them |
| `DnsConfig.CollectedExactly` | internal/drivers/dns.go:536-559 | the same for requests already read |
| `DnsConfig.DeclaredAbsent` | internal/drivers/dns.go:562-602 | the loop with its set computes the absent patterns |
| `DnsConfig.PatternsExactly` | internal/drivers/dns.go:562-602 | accepted exactly when all entries are; leaving out repeated patterns changes no match |
| `DnsConfig.SamePattern` | internal/drivers/dns.go:666-674 | patterns of one identity match the same records |
| `DnsConfig.ClashFree` | internal/drivers/dns.go:642-653 | passes exactly when no declared record matches an absent pattern |
| `DnsZone.ListRecords` | internal/drivers/dns.go:469-484 | the page loop returns the whole listing, however many pages it has |
| `DnsZone.InsertTouches` | internal/drivers/dns.go:337-348 | creating a record disturbs no other key and satisfies its own when it was empty |
| `DnsZone.EditTouches` | internal/drivers/dns.go:324-336 | editing the first record of a key disturbs no other key and satisfies its own |
| `DnsDriver.DeleteRecords` | internal/drivers/dns.go:353-376 | success leaves exactly the records no pattern matches; every exit keeps those in order; nothing to delete means no write |
| `DnsDriver.DeleteListed` | internal/drivers/dns.go:361-374 | one deletion takes out just the listed record |
| `DnsDriver.GroupByKey` | internal/drivers/dns.go:434-441 | each key's records in listing order |
| `DnsDriver.AfterCreateConflict` | internal/drivers/dns.go:378-432 | touches only records of the key; success means the request is satisfied and the returned listing is current for all other keys |
| `DnsDriver.TakeOver` | internal/drivers/dns.go:401-423 | keeps or rewrites the first record of the key, nothing else |
| `DnsDriver.KeysDistinct` | internal/drivers/dns.go:316-322 | declared requests have distinct upsert keys, so none is skipped |
| `DnsDriver.OneRequest` | internal/drivers/dns.go:317-349 | writing one declared request leaves the other keys, the unmanaged records, the absences and the CNAME rule intact |
| `DnsDriver.UpsertOne` | internal/drivers/dns.go:317-349 | satisfies one request, leaves every other as it was, writes nothing when already satisfied |
| `DnsDriver.UpsertRecords` | internal/drivers/dns.go:301-351 | success satisfies every declared request; every exit keeps the unmanaged records; no write when all were satisfied |
| `DnsSync.Update` | internal/drivers/dns.go:171-197 | success leaves a converged zone; every exit keeps the unmanaged records' ids, content and order; a converged zone is not written; a refused configuration writes nothing; with every request answered it succeeds exactly without a live CNAME clash |
| `DnsSync.Read` | internal/drivers/dns.go:148-162 | the output is the whole listing as printed |
| `DnsSync.CompareRequests` | internal/drivers/dns.go:262-279 | up to date exactly when the first record of each declared identity matches |
| `DnsSync.Diff` | internal/drivers/dns.go:210-280 | the verdict: replace on another domain, up to date exactly when settled, update otherwise; with every request answered, there is one exactly when the state can be read back |
| `DnsSync.ReadOutputKeeps` | internal/drivers/dns.go:1036-1126 | printing and reading back keeps, identity by identity, what is compared |
| `DnsSync.SettledOnRead` | internal/drivers/dns.go:1036-1126 | the printed state is judged as the live records would be |
| `DnsSync.ConvergedIsSettled` | internal/drivers/dns.go:1142-1191 | agreement by the upsert keys implies agreement by the identities |
| `DnsSync.UpdateSettlesDiff` | internal/drivers/dns.go:171-280 | after a successful update, drift detection on the re-read state sees nothing to do |
| `DnsSync.DiffAndUpdateAgain` | internal/drivers/dns.go:171-280 | on what a successful update leaves, the drift check and a second update change nothing and write nothing; with every request answered both succeed, up to date and with the same output |
| `DnsSync.KeysAgreeExactly` | internal/drivers/dns.go:1142-1166 | both keys agree on what is up to date, for all requests, exactly when live CNAMEs of one name have one target |
| `DnsSync.TwoCnames` | internal/drivers/dns.go:1150-1162 | a zone that drift detection calls up to date and update would write |
| `AppCname.SpellingsExactly` | internal/drivers/app_platform.go:386-388 | every spelling that may be stored for a target is recognised as it exactly when the host does not end in white space, or is nothing else |
| `AppCname.ReconciledByName` | internal/drivers/app_platform.go:275-334 | where names are kept letter by letter, what holds by id holds by name: one CNAME at the target, all other records as they were |
| `AppCname.DeleteSeen` | internal/drivers/app_platform.go:329-331 | deleting one CNAME of the name leaves its other ones and all other records |
| `AppCname.EditSeen` | internal/drivers/app_platform.go:316-327 | the edited record keeps its id and points at the target; all other records stay |
| `AppCname.SettleOne` | internal/drivers/app_platform.go:309-332 | one pass keeps, edits or deletes, and never loses the chosen record |
| `AppCname.DropOthers` | internal/drivers/app_platform.go:300-334 | the flags of the loop leave exactly the chosen record |
| `AppCname.ReconcileCname` | internal/drivers/app_platform.go:275-334 | on every exit the records of other names keep id, content and order, and the kept or edited record is there; success leaves just one other record, which says what was asked; a second run writes nothing; with every request answered it succeeds |
| `DeployTracking.DecisionIsNew` | internal/drivers/deploy.go:111-194 | from a target apart from the previously active deployment the decision never reaches it, and follows the link of the predecessor |
| `DeployTracking.OldBelievedExactly` | internal/drivers/deploy.go:111-143 | some answers make the driver believe the previously active deployment exactly when that is the target |
| `DeployTracking.TrailExtends` | internal/drivers/deploy.go:111-143 | a decision extends the trail of targets by at most one link |
| `DeployTracking.TrailClimbs` | internal/drivers/deploy.go:111-143 | when predecessors are older the target never moves backwards or repeats |
| `DeployTracking.FindListed` | internal/drivers/deploy.go:130-141 | the loop finds the target, or the update's own deployment when there is no target yet |
| `DeployTracking.CurrentTarget` | internal/drivers/deploy.go:111-143 | the deployment decided on is the one that the logged answers determine, along the trail and apart from what was active |
| `DeployTracking.AppDeployDriver.Update` | internal/drivers/deploy.go:44-75 | succeeds exactly when the write was answered, which sends the services just read with the image; then what is told apart is what was active at the logged read and the target is what the logged answer shows; a failure keeps the target, but replaces what is told apart once the app was read |
| `DeployTracking.AppDeployDriver.HealthCheck` | internal/drivers/deploy.go:77-109 | awaited success is a deployment seen active in this call's logged answers and decided on from them, now the target; it stays apart from the previously active one unless it already was not; a check that does not pass shows why in its answers |
| `DeployTracking.FailedUpdateThenCheck` | internal/drivers/deploy.go:44-109 | a check after an update that comes to believe the previously active deployment means that the update failed after a logged read that showed the old target active |
| `DeployTracking.AppPlatformDriver.Begin` | internal/drivers/app_platform.go:199-225 | what is told apart is what the logged read showed active, the target what the logged answer, or the deployment created for an undeployed app, shows |
| `DeployTracking.AppPlatformDriver.Update` | internal/drivers/app_platform.go:177-234 | an app's state is replaced only once its update is in, from the logged answers, and always tells the target apart; a failure is a lost or empty answer or a failed check |
| `DeployTracking.AppPlatformDriver.AwaitedCheck` | internal/drivers/app_platform.go:634-653 | an awaited check moves along the trail and is healthy only on a target seen active in its logged answers; otherwise its answers show why it is not |
| `DeployTracking.AppPlatformDriver.HealthCheck` | internal/drivers/app_platform.go:625-742 | awaited health is a deployment seen active in this call's logged answers that differs from the previously active one; it clears just that app's state; without an awaited update it is the active slot that decides |
| `ServiceImages.FlatRefExactly` | internal/drivers/util.go:114-139 | an image's repository and tag are read back from its flat reference exactly when the tag has no slash and the last part of the repository no colon |
| `ServiceImages.SetImages` | internal/drivers/deploy.go:62-67 | the loop gives every service that has an image the repository and tag, and leaves everything else |
| `Promotion.AppPrevalidatedRollingDriver.CreateGreen` | internal/drivers/deploy.go:363-401 | a clone of the services just read from the stable app, with the image; checks go to the clone until traffic is switched; a failure changes nothing |
| `Promotion.AppPrevalidatedRollingDriver.SwitchTraffic` | internal/drivers/deploy.go:406-420 | success sends the stable app's services back with the clone's repository and tag, when the flat reference can carry them, awaits that update apart from what was active, and turns the checks to the stable app; nothing happens without a clone |
| `Promotion.AppPrevalidatedRollingDriver.HealthCheck` | internal/drivers/deploy.go:348-353 | asks the clone until the switch and the stable app from then on; success is an active deployment of the clone then, and from the switch on the promotion's own deployment, seen active and apart from what was active before |
| `OwnerTags.Encode` | internal/ownership.go:273-276 | the length of the encoding, and that it stays in the alphabet |
| `OwnerTags.Base64RoundTrip` | internal/ownership.go:289-294 | decoding the unpadded base64url of any bytes gives them back (section 5 of RFC 4648) |
| `OwnerTags.IsPlainOwnerSuffix` | internal/ownership.go:299-310 | the scan accepts exactly the owners that can stand in a tag as they are |
| `OwnerTags.OwnerRoundTrip` | internal/ownership.go:269-297 | every tag made for an owner gives the owner back, through both forms |
| `OwnerTags.OwnerTagInjective` | internal/ownership.go:269-282 | different owners have different tags |
| `OwnerTags.OwnerTagFits` | internal/ownership.go:269-282 | the owners that have a tag: non-empty, up to 240 plain bytes or 177 others |
| `OwnerTags.EmptyOwnerExactly` | internal/ownership.go:284-297 | the tags that parse as the empty owner, for which no tag is made: the encoding mark with only line breaks after it |
| `OwnerTags.GetOwner` | internal/ownership.go:23-38 | the owner of some parsable tag, or empty when there is none |
| `OwnerTags.SetOwner` | internal/ownership.go:40-72 | success leaves exactly one parsable tag, the owner's; other tags are untouched on every exit; an owner already set is left alone; with every request answered it succeeds exactly for a taggable resource and an owner that fits |
| `OwnerTags.OwnerIsRead` | internal/ownership.go:23-72 | after a successful SetOwner the owner read is the one set |
| `DropletReplace.ScanIsUnique` | internal/drivers/droplet_pricing.go:59-103 | the size that is priced is the only one of its slug in all the pages read |
| `DropletReplace.ReadCatalog` | internal/drivers/droplet_pricing.go:59-103 | the page loop settles on the size that the run of answers the catalogue gave determines |
| `DropletReplace.QuoteDropletPrice` | internal/drivers/droplet_pricing.go:37-118 | passes exactly when there is no cap, or the one size in the answers given is available in the region within it; asks nothing without a cap |
| `DropletReplace.PriceMayRise` | internal/drivers/droplet.go:117-123 | a later catalogue can refuse a spec that passed exactly when the spec has a cap |
| `DropletReplace.WaitForActionComplete` | internal/drivers/actions_wait.go:16-41 | success means the action was just seen completed |
| `DropletReplace.DetachAll` | internal/drivers/droplet.go:828-837 | success means each volume's detach was sent and seen completed; the ids are the volumes in order |
| `DropletReplace.CreateWithResolvedVolumes` | internal/drivers/droplet.go:117-197 | resolved ids are used as they are; which failures come from the price and which from the keys |
| `DropletReplace.DetachAndDelete` | internal/drivers/droplet.go:819-844 | the delete is sent only after every volume is detached; errors before it leave the Droplet |
| `DropletReplace.Replace` | internal/drivers/droplet.go:800-851 | the old Droplet is deleted only wholly detached; a new one is requested only after two passed price checks and with exactly the old volumes in order; nothing is changed when the first check fails; nothing deleted on errors before the delete; which failures need a cap or malformed keys; with every request answered only a price check can fail |
| `DatabaseFirewall.ResolveAppNamesMap` | internal/drivers/database.go:531-612 | every needed name with the id of a listed app across pages; missing exactly when some name has no app |
| `DatabaseFirewall.PartialIsSublist` | internal/drivers/database.go:667-888 | the early list is the full one with entries left out, order kept |
| `DatabaseFirewall.PartialLength` | internal/drivers/database.go:667-888 | the early list is shorter exactly when a name needs a lookup |
| `DatabaseFirewall.FullStays` | internal/drivers/database.go:667-705 | a full list stays full when more apps come to be listed |
| `DatabaseFirewall.BuildFirewallRules` | internal/drivers/database.go:667-705 | the full list when all names resolve; not found only when some name has no app |
| `DatabaseFirewall.BuildRulesExcludingApps` | internal/drivers/database.go:862-888 | the loop computes the early list of the two lemmas above |
| `CredentialRotation.ResetsAtEnd` | internal/drivers/database_user.go:131-149 | a trace whose resets come last shows at most one |
| `CredentialRotation.SameEpochNoChange` | internal/drivers/database_user.go:119-130 | declaring the recorded epoch over and over changes nothing |
| `CredentialRotation.PreserveDatabaseState` | internal/drivers/database_user.go:350-367 | stored references and the recorded epoch are carried over, everything else is as it was |
| `CredentialRotation.DatabaseUserDriver.Create` | internal/drivers/database_user.go:47-71 | an epoch is recorded only with the user created |
| `CredentialRotation.DatabaseUserDriver.Rotate` | internal/drivers/database_user.go:131-149 | the reset is sent only right after a read of the database with TLS ready and a read that found the user; the epoch is recorded only with it done; without an output the last answer is what stopped it |
| `CredentialRotation.DatabaseUserDriver.UpdateWithState` | internal/drivers/database_user.go:95-155 | a reset only for a new epoch, with a valid configuration and prior state, and right after the database was read ready and the user found; at most one, the epoch recorded only with the reset done or when already recorded, the password recorded the one just issued; an accepted call without an output was stopped by its last answer |
| `CredentialRotation.DatabaseUserDriver.RunUpdates` | internal/drivers/database_user.go:95-155 | in any run every reset follows its checks, at most one a call, of the named user; without failures the log shows exactly as many as epoch changes, and every configuration and prior state was valid; there are none when every configuration is acceptable and every answer lets its call go on |
| `DatabaseDriver.DeclaredAnew` | internal/drivers/database.go:294-340 | a declaration keeps every settled database settled, and leaves a stale entry only when not deferred itself |
| `DatabaseDriver.AdminChecked` | internal/drivers/database.go:262-377 | an update whose plan saw the admin user valid, whose writes all succeeded and whose second sight found the same user has every reset checked |
| `DatabaseDriver.SurvivorsEmpty` | internal/drivers/database.go:915-936 | nothing stays queued exactly when every entry was written |
| `DatabaseDriver.FlushKeepsDeclaredExactly` | internal/drivers/database.go:911-937 | where every queued list resolves, every nil flush leaves the declared rules exactly when each database's last queued list has no full reading that its declaration lacks; an entry that is not stale never does |
| `DatabaseDriver.OutcomeWith` | internal/drivers/database.go:911-937 | any full reading of a queued list is what some nil flush leaves |
| `DatabaseDriver.OlderEntryWins` | internal/drivers/database.go:911-931 | a database declared with deferral and then without it: the flush puts the older list in place of the newer |
| `DatabaseDriver.SettledStays` | internal/drivers/database.go:667-705 | settled databases stay settled when more apps come to be listed |
| `DatabaseDriver.Driver.PlanRules` | internal/drivers/database.go:294-309 | full rules now, or the early list with the full one owed because an app is missing |
| `DatabaseDriver.Driver.Create` | internal/drivers/database.go:86-150 | a created database has its full rules or is queued for them; no entry becomes stale that was not; an epoch is recorded only with the creation done; the password is that of the answer; without an epoch it succeeds when every request is answered and the rules can be read |
| `DatabaseDriver.Driver.WriteSizeAndRules` | internal/drivers/database.go:310-340 | resize, then rules, then the queue; no other database's rules change |
| `DatabaseDriver.Driver.PlanUpdate` | internal/drivers/database.go:262-309 | what is planned before the first write: the rules, and a rotation only for a new epoch, with resets allowed and the admin user seen valid |
| `DatabaseDriver.Driver.UpdateKnown` | internal/drivers/database.go:262-377 | the update of a known id: full rules, or early ones with the full list queued; a reset comes last and only for a new epoch, after a first sight of the valid admin user, writes that all succeeded and a second sight; every write is to that id; when admitted and answered as it should be it succeeds |
| `DatabaseDriver.Driver.UpdateWithState` | internal/drivers/database.go:245-377 | the same for the database of the given id, or of the id its name was looked up to; a reset also needs a canonical id and a valid prior state; no other database's rules change; nothing is written when the id stays unknown; an accepted call whose requests are all answered as they should be succeeds |
| `DatabaseDriver.Driver.FlushOne` | internal/drivers/database.go:917-930 | an owed list is resolved anew and sent in full |
| `DatabaseDriver.Driver.FlushDeferredUpdates` | internal/drivers/database.go:911-937 | an entry leaves the queue exactly when its full list was written; survivors keep order; nil exactly when the queue is empty; a nil flush gives every database the list of its last entry; with every request answered and every list resolvable it is nil |
| `DatabaseDriver.Driver.FlushAfterPlan` | internal/drivers/database.go:898-937 | with no stale entry a nil flush leaves every declared database with its full rules; with every request answered and every list resolvable it is nil |
| `DatabaseDriver.Driver.AppearApps` | internal/drivers/database.go:898-937 | apps that come to exist unsettle no database |
| `DatabaseDriver.Driver.RunStep` | internal/drivers/database.go:86-377 | creating a database, or updating one that is owed nothing, leaves no stale entry and nothing changed of what is declared or owed for any other |
| `DatabaseDriver.Driver.RunPlan` | internal/drivers/database.go:86-937 | from a queue without stale entries, a plan that creates databases and updates each existing one that is owed nothing at most once, apps appearing before every step and before the flush: when the flush is nil every database whose step went through has the full rules of its list; it is nil when every request is answered and every name has an app by then |
| `DatabaseDriver.Driver.RunUpdates` | internal/drivers/database.go:245-377 | in any run every admin reset follows its checks, at most one a call; without failures the log shows exactly as many as epoch changes; there are no failures when every configuration is acceptable and every request is answered as it should be |

## Left out

- Transport, gRPC servers, plugin wiring, logs, probes and diagnostic texts: no invariant of their own.
- Hashes and digests stand for the text or value that is fed to them; equality of hashes is equality of those.
- Case folding and letter tests cover ASCII only; configuration values are typed records, so wrong dynamic types are not modelled.
- Time is a number of polls that fit before a deadline, or a clock value that is passed in; cancellation of a context is an arbitrary boolean.
- Decoding a job handle from JSON is reduced to the checks on its fields; job logs are not modelled.
- SpecDrift.BuildAppSpec: covers the fields that drift detection reads; sizes, health checks, alerts, domains, sidecars and log destinations are not compiled.
- SpecDrift.DriftAfterCompile: the output is that of the spec as submitted, without the persisting of outputs in between, which may drop empty maps.
- AppServer.KnownJobsStoredAsSent: that the API keeps a job it already holds as sent is a premise on the API.
- DnsRecords.JoinedKeyIsExact: the driver's keys are modelled as their parts; with a NUL in a type, name or tag the joined texts could coincide.
- DnsSync.Update: the zone is edited by nobody else and keeps its listing order under edits; creating a missing domain, and its retry after a conflict, is not part of the model.
- DnsSync.UpdateSettlesDiff: live names are non-empty and live numbers non-negative, as the read-back demands; this is also the premise of DnsSync.DiffAndUpdateAgain.
- AppCname.ReconcileCname: that the survivor carries the name letter by letter, as the reconciler compares names, is claimed where the API keeps names so; deriving name and target from the app is not part of the model.
- DeployTracking.AppDeployDriver.Update: of the spec only the services' images are modelled; the checks of image presence and custom domains are arbitrary booleans.
- Promotion.AppPrevalidatedRollingDriver.CreateGreen: what else is stripped from the clone's spec, and its live URL, are not part of the model; neither is the canary driver, which promotes by the same update and then deletes and forgets its clone.
- OwnerTags.SetOwner: tags are told apart byte by byte and edited by nobody else; listing all owners is not part of the model.
- DropletReplace.Replace: looking volumes up by name when none were attached is an arbitrary answer; prices are exact numbers.
- DatabaseDriver.Driver.UpdateWithState: sizes and node counts are not modelled; the app listing does not change during a call.
- CredentialRotation.DatabaseUserDriver.UpdateWithState: the syntax checks of ids and names, the credential URI text and the validation of the prior state are parameters.
- Thin drivers (cache, certificate, VPC, load balancer, Kubernetes, registry, Spaces, API gateway), pricing of plans, state storage and plan validation: single calls or simpler versions of what is proved here.
