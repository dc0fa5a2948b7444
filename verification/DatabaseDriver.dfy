/**
 The database driver (internal/drivers/database.go): creation and updates with deferred firewall rules
 and admin credential rotation, and the flush of what was deferred.
 */
module DatabaseDriver {
  import opened CredentialRotation
  import opened DatabaseFirewall
  import opened Wrappers

  const ADMIN_KEY := "admin_rotation_epoch"

  const DB_VALUES: set<string> :=
    {"engine", "num_nodes", "region", "size", "status", "tags", "version", "host", "port", "database"}

  datatype Config = Config(epoch: Option<string>, sources: Sources)

  /** The rules of each database, and the list each was declared with. */
  type RuleMap = map<string, seq<Rule>>

  type Declarations = map<string, seq<Source>>

  type Test = string -> bool

  /** A full rule write still owed to a database, with the list it was declared with. */
  datatype Deferred = Deferred(id: string, list: seq<Source>)

  function ReadOutput(db: Db): (r: Output)
    ensures ADMIN_KEY !in r.values && ADMIN_KEY !in r.sensitive
  {
    Output(map k | k in db.values &&
           k in DB_VALUES :: db.values[k], map["uri" := true, "password" := true, "user" := true])
  }

  function AdminOutput(db: Db, password: string, epoch: string): (r: Option<Output>)
    ensures r.Some? ==>
              Value(r.value.values, ADMIN_KEY) == Some(epoch) && Value(r.value.values, "password") == Some(password)
    ensures r.Some? ==> db.connection.Some? && Value(r.value.values, "user") == Some(db.connection.value.user)
  {
    if db.connection.None? || !db.connection.value.validUser || !TlsReady(db, password) then None
    else
      var plain := map k | k in db.values && k in DB_VALUES :: db.values[k];
      var read := plain["user" := db.connection.value.user]["password" := password]["uri" := password];
      var values := read[ADMIN_KEY := epoch];
      Some(Output(values, map["uri" := true, "password" := true, "user" := true]))
  }

  /** An answer with which the update goes on, when the admin user is that one. */
  predicate AdminGoes(e: Event, user: string) {
    match e
    case DbRead(id, _, _) => Sight(e, id, user) && e.db.value.connection.value.validUser
    case AuthReset(_, name, issued, done) =>
      done && issued.Some? && issued.value.name == name == user && issued.value.password != ""
    case _ => e.done
  }

  /** Every request of the trace was answered as it should be. */
  ghost predicate AllGo(ev: seq<Event>, user: string) {
    forall k :: 0 <= k < |ev| ==> AdminGoes(ev[k], user)
  }

  lemma AllGoParts(a: seq<Event>, b: seq<Event>, user: string)
    ensures AllGo(a + b, user) ==> AllGo(a, user) && AllGo(b, user)
  {
    hide AdminGoes;
    var all := a + b;
    assert forall k :: 0 <= k < |a| ==> a[k] == all[k];
    assert forall k :: 0 <= k < |b| ==> b[k] == all[|a| + k];
  }

  lemma NoneGoEither(a: seq<Event>, b: seq<Event>)
    ensures (forall user :: !AllGo(a, user)) || (forall user :: !AllGo(b, user)) ==> forall user :: !AllGo(a + b, user)
  {
    hide AllGo;
    forall user ensures AllGo(a + b, user) ==> AllGo(a, user) && AllGo(b, user) {
      AllGoParts(a, b, user);
    }
  }

  lemma NoneGo(a: seq<Event>, b: seq<Event>)
    requires forall user :: !AllGo(b, user)
    ensures forall user :: !AllGo(a + b, user)
  {
    hide AllGo;
    forall user ensures !AllGo(a + b, user) {
      AllGoParts(a, b, user);
    }
  }

  // ----- what must precede an admin reset -----

  /** A read that found the database ready, with that admin user. */
  predicate Sight(e: Event, id: string, user: string) {
    ReadySight(e, id) && e.db.value.connection.value.user == user
  }

  predicate Writes(ev: seq<Event>, id: string) {
    forall i | 0 <= i < |ev| :: (ev[i].Resized? || ev[i].RulesSent?) && ev[i].id == id && ev[i].done
  }

  /**
   The reset follows directly on a second sight of the database with the same user; before it come the writes
   of the call, all done, and before those the first sight, which had a valid user.
   */
  ghost predicate AdminResetChecked(ev: seq<Event>, k: nat)
    requires k < |ev| && ev[k].AuthReset?
  {
    exists i: nat :: i + 2 < k && AdminChecks(ev[i..k], ev[k].id, ev[k].user)
  }

  /** First sight, writes beginning with the resize, second sight. */
  predicate AdminChecks(ev: seq<Event>, id: string, user: string) {
    && |ev| >= 3 && Sight(ev[0], id, user) && ev[0].db.value.connection.value.validUser
    && ev[1].Resized? && Writes(ev[1..|ev| - 1], id) && Sight(ev[|ev| - 1], id, user)
  }

  ghost predicate AdminResetsChecked(ev: seq<Event>) {
    forall k :: 0 <= k < |ev| && ev[k].AuthReset? ==> AdminResetChecked(ev, k)
  }

  lemma NoAdminReset(ev: seq<Event>)
    requires forall e :: e in ev ==> !e.AuthReset?
    ensures AdminResetsChecked(ev)
  {
    assert forall k :: 0 <= k < |ev| ==> ev[k] in ev;
  }

  lemma AdminChecksConcat(a: seq<Event>, b: seq<Event>)
    requires AdminResetsChecked(a) && AdminResetsChecked(b)
    ensures AdminResetsChecked(a + b)
  {
    hide AdminChecks;
    var all := a + b;
    forall k | 0 <= k < |all| && all[k].AuthReset? ensures AdminResetChecked(all, k) {
      if k < |a| {
        var i: nat :| i + 2 < k && AdminChecks(a[i..k], a[k].id, a[k].user);
        assert all[i..k] == a[i..k];
      } else {
        var l := k - |a|;
        assert AdminResetChecked(b, l);
        var i: nat :| i + 2 < l && AdminChecks(b[i..l], b[l].id, b[l].user);
        assert all[|a| + i..k] == b[i..l];
      }
    }
  }

  /** The steps of one update in a row. */
  lemma AdminChecked(plan: seq<Event>, writes: seq<Event>, finish: seq<Event>, id: string, user: string)
    requires |plan| == 1 && Sight(plan[0], id, user) && plan[0].db.value.connection.value.validUser
    requires writes != [] && writes[0].Resized? && Writes(writes, id)
    requires 1 <= |finish| <= 2 && !finish[0].AuthReset?
    requires |finish| == 2 ==>
               Sight(finish[0], id, user) && finish[1].AuthReset? && finish[1].id == id && finish[1].user == user
    ensures AdminResetsChecked(plan + writes + finish)
  {
    hide Sight;
    var all := plan + writes + finish;
    var k := |plan + writes| + 1;
    assert forall j :: 0 <= j < |all| && j != k ==> !all[j].AuthReset? by {
      assert forall j :: 0 < j <= |writes| ==> all[j] == writes[j - 1];
      assert all[0] == plan[0] && all[|plan + writes|] == finish[0];
      assert !plan[0].AuthReset? by { SightIsRead(plan[0], id, user); }
    }
    if |finish| == 2 {
      assert all[0..k] == plan + writes + [finish[0]];
      ChecksInARow(plan[0], writes, finish[0], id, user);
      assert [plan[0]] + writes + [finish[0]] == all[0..k];
    }
  }

  lemma ChecksInARow(first: Event, writes: seq<Event>, second: Event, id: string, user: string)
    requires Sight(first, id, user) && first.db.value.connection.value.validUser && Sight(second, id, user)
    requires writes != [] && writes[0].Resized? && Writes(writes, id)
    ensures AdminChecks([first] + writes + [second], id, user)
  {
    hide Sight, Writes;
    var ev := [first] + writes + [second];
    assert ev[1..|ev| - 1] == writes;
  }

  lemma SightIsRead(e: Event, id: string, user: string)
    requires Sight(e, id, user)
    ensures e.DbRead? && e.id == id && e.done
  {
  }

  // ----- the queue -----

  /** The entry that is written last for a database. */
  function LastFor(queue: seq<Deferred>, id: string): (r: Option<Deferred>)
    ensures r.Some? ==> r.value in queue && r.value.id == id
    ensures r.None? ==> forall e :: e in queue ==> e.id != id
  {
    if queue == [] then None
    else
      var n := |queue| - 1;
      assert queue == queue[..n] + [queue[n]];
      if queue[n].id == id then Some(queue[n]) else LastFor(queue[..n], id)
  }

  /** The entries whose write did not succeed, in order. */
  function Survivors(queue: seq<Deferred>, done: seq<bool>): seq<Deferred>
    requires |queue| == |done|
  {
    if queue == [] then []
    else
      var n := |queue| - 1;
      Survivors(queue[..n], done[..n]) + if done[n] then [] else [queue[n]]
  }

  lemma LastForStep(queue: seq<Deferred>, i: nat, id: string)
    requires i < |queue|
    ensures LastFor(queue[..i + 1], id) == if queue[i].id == id then Some(queue[i]) else LastFor(queue[..i], id)
  {
    assert queue[..i + 1][..i] == queue[..i];
  }

  lemma LastAppended(queue: seq<Deferred>, e: Deferred, id: string)
    ensures LastFor(queue + [e], id) == if e.id == id then Some(e) else LastFor(queue, id)
  {
    assert (queue + [e])[..|queue|] == queue;
  }

  lemma {:induction false} SurvivorsEmpty(queue: seq<Deferred>, done: seq<bool>)
    requires |queue| == |done|
    ensures Survivors(queue, done) == [] <==> forall i :: 0 <= i < |done| ==> done[i]
  {
    if queue != [] {
      var n := |queue| - 1;
      SurvivorsEmpty(queue[..n], done[..n]);
      assert done == done[..n] + [done[n]];
    }
  }

  /** A database that is owed nothing has the full rules of its latest declaration. */
  ghost predicate Settled(declared: Declarations, queue: seq<Deferred>, rules: RuleMap, apps: seq<AppRef>,
                          isUUID: Test) {
    forall id :: id in declared && LastFor(queue, id).None? ==>
             id in rules && Full(rules[id], declared[id], apps, isUUID)
  }

  /** What is owed to a database last is its latest declaration. */
  ghost predicate NoneStale(declared: Declarations, queue: seq<Deferred>) {
    forall id :: id in declared && LastFor(queue, id).Some? ==> LastFor(queue, id).value.list == declared[id]
  }

  /** The queue after a declaration. */
  function Queued(queue: seq<Deferred>, id: string, list: seq<Source>, deferred: bool): seq<Deferred> {
    if deferred then queue + [Deferred(id, list)] else queue
  }

  /** A declaration keeps every settled database settled; it leaves a stale entry only when not deferred itself. */
  lemma DeclaredAnew(declared: Declarations, queue: seq<Deferred>, rules: RuleMap, apps: seq<AppRef>, isUUID: Test,
                     id: string, list: seq<Source>, sent: seq<Rule>, deferred: bool)
    requires Settled(declared, queue, rules, apps, isUUID)
    requires !deferred ==> Full(sent, list, apps, isUUID)
    ensures Settled(declared[id := list], Queued(queue, id, list, deferred), rules[id := sent], apps, isUUID)
    ensures NoneStale(declared, queue) && (deferred || LastFor(queue, id).None?) ==>
              NoneStale(declared[id := list], Queued(queue, id, list, deferred))
  {
    hide Full, LastFor;
    if deferred {
      forall k
        ensures LastFor(queue + [Deferred(id, list)], k) ==
                if k == id then Some(Deferred(id, list)) else LastFor(queue, k)
      {
        LastAppended(queue, Deferred(id, list), k);
      }
    }
  }

  /** A step of a plan that concerns a database. */
  datatype Step =
    | MakeDb(config: Config)
    | ChangeDb(ref: (string, string), config: Config, prior: Option<Output>, priorOk: bool)

  function Declaration(declared: Declarations, id: string): Option<seq<Source>> {
    if id in declared then Some(declared[id]) else None
  }

  /** What a step that went through has declared. */
  ghost predicate StepDone(declared: Declarations, step: Step, id: string, target: Option<string>,
                           existing: set<string>) {
    step.config.sources.Key? ==>
      && step.config.sources.list.Some? && Declaration(declared, id) == step.config.sources.list
      && (if step.MakeDb? then id !in existing else Some(id) == target)
  }

  lemma StepStays(before: Declarations, after: Declarations, known: set<string>, step: Step, id: string,
                  target: Option<string>,
                  other: Option<string>, existing: set<string>)
    requires StepDone(before, step, id, target, existing) && before.Keys <= known && existing <= known
    requires other.Some? ==> other != target && other.value in existing
    requires forall k :: k in known && Some(k) != other ==> Declaration(after, k) == Declaration(before, k)
    ensures StepDone(after, step, id, target, existing)
  {
  }

  lemma NowDone(declared: Declarations, known: set<string>, step: Step, id: string, target: Option<string>,
                existing: set<string>)
    requires existing <= known
    requires StepDone(declared, step, id, target, known)
    ensures StepDone(declared, step, id, target, existing)
  {
  }

  lemma DoneMeans(declared: Declarations, step: Step, id: string, target: Option<string>, existing: set<string>)
    requires StepDone(declared, step, id, target, existing) && step.config.sources.Key?
    ensures step.config.sources.list.Some? && id in declared && declared[id] == step.config.sources.list.value
  {
  }

  lemma SettledStays(declared: Declarations, queue: seq<Deferred>, rules: RuleMap, apps: seq<AppRef>,
                     more: seq<AppRef>, isUUID: Test)
    requires Settled(declared, queue, rules, apps, isUUID)
    ensures Settled(declared, queue, rules, apps + more, isUUID)
  {
    hide Full, LastFor;
    forall id | id in declared && LastFor(queue, id).None?
      ensures id in rules && Full(rules[id], declared[id], apps + more, isUUID) {
      FullStays(rules[id], declared[id], apps, more, isUUID);
    }
  }

  lemma RulesOfNew(declared: Declarations, queue: seq<Deferred>, before: RuleMap, after: RuleMap, apps: seq<AppRef>,
                   isUUID: Test)
    requires Settled(declared, queue, before, apps, isUUID)
    requires forall k :: k in before ==> k in after && after[k] == before[k]
    ensures Settled(declared, queue, after, apps, isUUID)
  {
    hide Full, LastFor;
  }

  /** What is queued for one database changes nothing of what is queued for another. */
  lemma QueueGrows(queue: seq<Deferred>, id: string, list: seq<Source>)
    ensures forall k :: k != id ==> LastFor(queue + [Deferred(id, list)], k) == LastFor(queue, k)
  {
    forall k | k != id ensures LastFor(queue + [Deferred(id, list)], k) == LastFor(queue, k) {
      LastAppended(queue, Deferred(id, list), k);
    }
  }

  class Driver {
    const isPlaceholder: string -> bool
    const canonical: string -> bool
    const hasApps: bool
    const canReset: bool
    var pending: seq<Deferred>
    /** The list each database was last declared with, when the write of its rules was answered. */
    ghost var declared: Declarations

    ghost predicate Valid(server: Databases)
      reads this, server
    {
      && Settled(declared, pending, server.rules, server.apps, server.isUUID)
      && declared.Keys <= server.rules.Keys && forall e :: e in pending ==> e.id in server.rules
    }

    /** What an update needs besides the API: rules that can be read, and for a new epoch the means to reset. */
    predicate Admits(sources: Sources, epoch: Epoch, prior: Option<Output>) {
      && hasApps && (sources.Key? ==> sources.list.Some?)
      && (epoch.Declared? ==>
            && prior.Some? && ReadableEpoch(prior.value, ADMIN_KEY)
            && (canReset || Recorded(prior, ADMIN_KEY) == Some(epoch.epoch)))
    }

    /** The rules to send with a write, and whether the full list is owed afterwards. */
    method PlanRules(server: Databases, sources: Sources) returns (plan: Plan, deferred: bool)
      ensures plan != NotFound && (plan.Leave? <==> sources.NoKey?)
      ensures server.reliable && hasApps && (sources.Key? ==> sources.list.Some?) ==> !plan.Failed?
      ensures plan.Apply? ==> sources.Key? && sources.list.Some?
      ensures plan.Apply? && !deferred ==> Full(plan.rules, sources.list.value, server.apps, server.isUUID)
      ensures deferred ==> plan.Apply? && plan.rules == PartialRules(sources.list.value, server.isUUID)
      ensures deferred ==>
                exists n :: n in Needed(sources.list.value, server.isUUID) && forall id :: !Named(server.apps, n, id)
    {
      hide Full, PartialRules, Needed;
      deferred := false;
      plan := BuildFirewallRules(server, hasApps, sources);
      if plan.NotFound? {
        var rules := BuildRulesExcludingApps(server.isUUID, sources.list.value);
        plan, deferred := Apply(rules), true;
      }
    }

    /** The database has the early list, and the full one is queued. */
    twostate predicate QueuedEarly(server: Databases, id: string, list: seq<Source>)
      reads this, server
    {
      && pending == old(pending) + [Deferred(id, list)] && id !in old(server.rules)
      && id in server.rules && server.rules[id] == PartialRules(list, server.isUUID)
    }

    /** Creation: a database whose apps do not all exist yet starts with the early list and is queued. */
    method Create(server: Databases, config: Config) returns (r: Option<Output>, ghost ev: seq<Event>)
      requires Valid(server)
      modifies this`pending, this`declared, server`rules, server`log
      ensures Valid(server) && server.log == old(server.log) + ev
      ensures old(NoneStale(declared, pending)) ==> NoneStale(declared, pending)
      ensures old(server.rules).Keys <= server.rules.Keys
      ensures forall k :: k in old(declared) ==> k in declared && declared[k] == old(declared)[k]
      ensures forall k :: k in old(server.rules) && k in declared ==> k in old(declared)
      ensures r.Some? ==>
                |ev| == 1 && ev[0].DbCreated? && ev[0].done &&
                (Wanted(config.epoch).Some? ==> Recorded(r, ADMIN_KEY) == Wanted(config.epoch))
      ensures EpochOf(config.epoch).NoEpoch? && server.reliable && hasApps && AllDone(ev) &&
              (config.sources.Key? ==> config.sources.list.Some?) ==>
                r.Some?
      ensures pending == old(pending) ||
              (config.sources.Key? && config.sources.list.Some? &&
               exists id :: QueuedEarly(server, id, config.sources.list.value))
      ensures r.Some? && config.sources.Key? ==>
                exists id :: id in declared && id !in old(server.rules) && Some(declared[id]) == config.sources.list
    {
      hide Full, LastFor, PartialRules, Needed, NoneStale, Settled;
      ev := [];
      var epoch := EpochOf(config.epoch);
      if epoch.BadEpoch? {
        return None, ev;
      }
      var plan, deferred := PlanRules(server, config.sources);
      if plan.Failed? {
        return None, ev;
      }
      var db;
      ghost var rules := server.rules;
      db, ev := server.Create(if plan.Apply? then plan.rules else []);
      assert ev[0].done == db.Some?;
      if db.None? {
        return None, ev;
      }
      var id := db.value.id;
      assert LastFor(pending, id).None?;
      RulesOfNew(declared, pending, rules, server.rules, server.apps, server.isUUID);
      if plan.Apply? {
        var list := config.sources.list.value;
        DeclaredAnew(declared, pending, rules, server.apps, server.isUUID, id, list, plan.rules, deferred);
        pending, declared := Queued(pending, id, list, deferred), declared[id := list];
        assert deferred ==> QueuedEarly(server, id, list);
      }
      if epoch.Declared? {
        var password := if db.value.connection.Some? then db.value.connection.value.password else "";
        r := AdminOutput(db.value, password, epoch.epoch);
      } else {
        var out := ReadOutput(db.value);
        r := Some(out);
      }
    }

    /** What an update may do to the rules, the queue and the declarations. */
    twostate predicate Declares(server: Databases, id: string, sources: Sources, ok: bool)
      reads this, server
    {
      || (!(ok && sources.Key?) && pending == old(pending)
          && (forall k :: k in declared ==> k in old(declared) && declared[k] == old(declared)[k])
          && (forall k :: k in old(declared) && k != id ==> k in declared))
      || (sources.Key? && sources.list.Some? && declared == old(declared)[id := sources.list.value]
          && (pending == old(pending) || pending == old(pending) + [Deferred(id, sources.list.value)]))
    }

    /** The database has the full list, or the early one with the full list owed because an app is missing. */
    twostate predicate Sent(server: Databases, id: string, sources: Sources)
      reads this, server
    {
      if sources.NoKey? then server.rules == old(server.rules) && pending == old(pending)
      else
        && sources.list.Some? && id in server.rules
        && if pending == old(pending) then Full(server.rules[id], sources.list.value, server.apps, server.isUUID)
           else
             && server.rules[id] == PartialRules(sources.list.value, server.isUUID)
             && pending == old(pending) + [Deferred(id, sources.list.value)]
             && exists n :: n in Needed(sources.list.value, server.isUUID) && forall k :: !Named(server.apps, n, k)
    }

    /** Resizes, then sends the planned rules; a full list that is still owed is queued once both are in. */
    method WriteSizeAndRules(server: Databases, id: string, config: Config, plan: Plan, deferred: bool)
      returns (ok: bool, ghost ev: seq<Event>)
      requires Valid(server) && Planned(server, config.sources, plan, deferred)
      modifies this`pending, this`declared, server`rules, server`log
      ensures ok ==> Sent(server, id, config.sources)
      ensures !ok ==> forall user :: !AllGo(ev, user)
      ensures Valid(server) && server.log == old(server.log) + ev
      ensures (forall e :: e in ev ==> (e.Resized? || e.RulesSent?) && e.id == id) && ev != [] && ev[0].Resized?
      ensures ok ==> Writes(ev, id)
      ensures Declares(server, id, config.sources, ok)
      ensures old(NoneStale(declared, pending)) && (deferred || plan.Leave? || old(LastFor(pending, id)).None?) ==>
                NoneStale(declared, pending)
      ensures forall k :: k != id ==> Rules(server.rules, k) == Rules(old(server.rules), k)
      ensures old(server.rules).Keys <= server.rules.Keys
    {
      hide Full, LastFor, NoneStale, Settled, Needed, PartialRules, AllGo;
      ok, ev := server.Resize(id);
      if !ok {
        NotAnswered(ev);
      }
      if !ok || plan.Leave? {
        return;
      }
      var list := config.sources.list.value;
      ghost var more, rules := [], server.rules;
      ok, more := server.UpdateFirewallRules(id, plan.rules);
      ev := ev + more;
      if ok {
        DeclaredAnew(declared, pending, rules, server.apps, server.isUUID, id, list, plan.rules, deferred);
        pending, declared := Queued(pending, id, list, deferred), declared[id := list];
      } else {
        NotAnswered(ev);
        ForgetOne(declared, pending, rules, server.rules, server.apps, server.isUUID, id);
        declared := map k | k in declared && k != id :: declared[k];
      }
    }

    /** The reset itself, after a second look at the database. */
    method RotateAdmin(server: Databases, id: string, username: string, epoch: string)
      returns (r: Option<Output>, ghost ev: seq<Event>)
      modifies server`log
      ensures server.log == old(server.log) + ev
      ensures 1 <= |ev| <= 2 && ev[0].DbRead? && ev[0].id == id
      ensures |ev| == 2 ==> Sight(ev[0], id, username) && ev[1].AuthReset? && ev[1].id == id && ev[1].user == username
      ensures r.Some? ==> |ev| == 2 && AllDone(ev) && Value(r.value.values, ADMIN_KEY) == Some(epoch)
      ensures r.Some? ==> Issues(r, ev) && Value(r.value.values, "user") == Some(username)
      ensures r.None? ==> !AllGo(ev, username)
    {
      var db, user;
      ghost var more;
      db, ev := ReadDatabaseParent(server, id);
      if db.None? || db.value.connection.None? || db.value.connection.value.user != username ||
         !TlsReady(db.value, "preflight") {
        return None, ev;
      }
      user, more := server.ResetUserAuth(id, username);
      ev := ev + more;
      if user.Lost? || user.value.None? || user.value.value.name != username {
        return None, ev;
      }
      r := AdminOutput(db.value, user.value.value.password, epoch);
    }

    /** What a rotation needs before anything is written: a client that can reset, and a sound connection. */
    method PreflightRotation(server: Databases, id: string) returns (username: Option<string>, ghost ev: seq<Event>)
      modifies server`log
      ensures server.log == old(server.log) + ev && |ev| <= 1 && (forall e :: e in ev ==> e.DbRead? && e.id == id)
      ensures username.Some? ==>
                canReset && |ev| == 1 && Sight(ev[0], id, username.value) && ev[0].db.value.connection.value.validUser
      ensures username.None? && canReset ==> forall user :: !AllGo(ev, user)
    {
      ev := [];
      if !canReset {
        return None, ev;
      }
      var db;
      db, ev := ReadDatabaseParent(server, id);
      if db.None? || db.value.connection.None? || !db.value.connection.value.validUser ||
         !TlsReady(db.value, "preflight") {
        return None, ev;
      }
      username := Some(db.value.connection.value.user);
    }

    /** The read that ends an update without rotation. */
    method ReadAfter(server: Databases, id: string, epoch: Epoch, prior: Option<Output>)
      returns (r: Option<Output>, ghost ev: seq<Event>)
      requires epoch.Declared? ==> ReadableEpoch(Marked(epoch), ADMIN_KEY)
      modifies server`log
      ensures r.Some? ==> ReadableEpoch(r.value, ADMIN_KEY)
      ensures server.log == old(server.log) + ev && |ev| == 1 && ev[0].DbRead? && ev[0].id == id
      ensures r.Some? ==> ev[0].done
      ensures r.Some? ==>
                Recorded(r, ADMIN_KEY) ==
                if epoch.Declared? then Recorded(Some(Marked(epoch)), ADMIN_KEY) else Recorded(prior, ADMIN_KEY)
      ensures r.None? ==> forall user :: !AllGo(ev, user)
    {
      var answer;
      answer, ev := server.Get(id);
      if answer.Lost? || answer.value.None? {
        return None, ev;
      }
      var out := ReadOutput(answer.value.value);
      if epoch.Declared? {
        out := out.(values := out.values[ADMIN_KEY := epoch.epoch]);
      }
      var kept := PreserveDatabaseState(out, prior, ADMIN_KEY, isPlaceholder);
      PreservedEpoch(out, prior, ADMIN_KEY, kept);
      r := Some(kept);
    }

    method PlanRotation(server: Databases, id: string, epoch: Epoch, prior: Option<Output>)
      returns (ok: bool, rotate: bool, username: string, ghost ev: seq<Event>)
      requires epoch.Declared? ==> prior.Some?
      modifies server`log
      ensures server.log == old(server.log) + ev && (forall e :: e in ev ==> e.DbRead? && e.id == id)
      ensures ok ==> (rotate <==> epoch.Declared? && Recorded(prior, ADMIN_KEY) != Some(epoch.epoch))
      ensures ok && rotate ==>
                canReset && |ev| == 1 && Sight(ev[0], id, username) && ev[0].db.value.connection.value.validUser
      ensures ok && !rotate ==> ev == []
      ensures !ok && Admits(NoKey, epoch, prior) ==> forall user :: !AllGo(ev, user)
    {
      ok, rotate, username, ev := true, false, "", [];
      if epoch.Declared? {
        var previous := EpochOf(Value(prior.value.values, ADMIN_KEY));
        if previous.BadEpoch? {
          return false, rotate, username, ev;
        }
        rotate := previous != epoch;
        if rotate {
          var user;
          user, ev := PreflightRotation(server, id);
          ok, username := user.Some?, if user.Some? then user.value else "";
        }
      }
    }

    /** The read, the writes and the reset of one database. */
    predicate OfDatabase(e: Event, id: string) {
      (e.Resized? || e.RulesSent? || e.AuthReset? || e.DbRead?) && e.id == id
    }

    /** The database that is updated: the one of the id, or the one that the name was looked up to. */
    ghost predicate Targets(server: Databases, ref: (string, string), id: string, ev: seq<Event>) {
      && (if server.isUUID(ref.0) then id == ref.0 else ev != [] && ev[0] == NameLookedUp(ref.1, Some(id), true))
      && forall e :: e in ev ==> e.NameLookedUp? || OfDatabase(e, id)
    }

    method ResolveProviderID(server: Databases, ref: (string, string))
      returns (id: Option<string>, ghost ev: seq<Event>)
      modifies server`log
      ensures server.log == old(server.log) + ev
      ensures if server.isUUID(ref.0) then id == Some(ref.0) && ev == [] else ev == [NameLookedUp(ref.1, id, id.Some?)]
      ensures id.Some? ==> id.value == TargetOf(server, ref)
    {
      ev := [];
      if server.isUUID(ref.0) {
        return Some(ref.0), ev;
      }
      id, ev := server.FindByName(ref.1);
    }

    /** Everything that is checked before the first write. */
    method PlanUpdate(server: Databases, id: string, sources: Sources, epoch: Epoch, prior: Option<Output>)
      returns (ok: bool, rotate: bool, username: string, plan: Plan, deferred: bool, ghost ev: seq<Event>)
      requires epoch.Declared? ==> prior.Some?
      modifies server`log
      ensures server.log == old(server.log) + ev && (forall e :: e in ev ==> e.DbRead? && e.id == id)
      ensures ok ==> (rotate <==> epoch.Declared? && Recorded(prior, ADMIN_KEY) != Some(epoch.epoch))
      ensures ok && rotate ==>
                canReset && |ev| == 1 && Sight(ev[0], id, username) && ev[0].db.value.connection.value.validUser
      ensures ok && !rotate ==> ev == []
      ensures ok ==> Planned(server, sources, plan, deferred)
      ensures !ok && server.reliable && Admits(sources, epoch, prior) ==> forall user :: !AllGo(ev, user)
    {
      hide Full, Needed, PartialRules, Recorded, Sight, AllGo;
      plan, deferred := Leave, false;
      ok, rotate, username, ev := PlanRotation(server, id, epoch, prior);
      if ok {
        plan, deferred := PlanRules(server, sources);
        ok := !plan.Failed?;
      }
    }

    /** A plan that can be written: no rules, the full ones, or the early ones because an app is missing. */
    ghost predicate Planned(server: Databases, sources: Sources, plan: Plan, deferred: bool)
      reads server
    {
      && !plan.NotFound? && !plan.Failed? && (plan.Leave? <==> sources.NoKey?)
      && (plan.Apply? ==> sources.list.Some?)
      && (plan.Apply? && !deferred ==> Full(plan.rules, sources.list.value, server.apps, server.isUUID))
      && (deferred ==>
            && plan.Apply? && plan.rules == PartialRules(sources.list.value, server.isUUID)
            && exists n :: n in Needed(sources.list.value, server.isUUID) && forall k :: !Named(server.apps, n, k))
    }

    /** The end of an update whose writes are in: the reset, or the read. */
    method Finish(server: Databases, id: string, rotate: bool, username: string, declared: Option<string>,
                  prior: Option<Output>, ghost planning: seq<Event>, ghost writes: seq<Event>)
      returns (r: Option<Output>, ghost finish: seq<Event>)
      requires !EpochOf(declared).BadEpoch?
      requires rotate <==> EpochOf(declared).Declared? && Recorded(prior, ADMIN_KEY) != Some(EpochOf(declared).epoch)
      requires if rotate
               then |planning| == 1 && Sight(planning[0], id, username) &&
                    planning[0].db.value.connection.value.validUser
               else planning == []
      requires writes != [] && writes[0].Resized? && Writes(writes, id)
      modifies server`log
      ensures server.log == old(server.log) + finish && forall e :: e in finish ==> OfDatabase(e, id)
      ensures r.Some? ==> ReadableEpoch(r.value, ADMIN_KEY)
      ensures var ev := planning + writes + finish;
              && Rotates(Recorded(prior, ADMIN_KEY), Wanted(declared), r, ADMIN_KEY, ev) && IssuesAs(r, ev)
              && AdminResetsChecked(ev) && (HasReset(ev) ==> rotate)
              && (r.None? ==> forall user :: !AllGo(ev, user))
    {
      hide AllGo, Rotates, IssuesAs, AdminResetsChecked, HasReset, Writes;
      var epoch := EpochOf(declared);
      if rotate {
        r, finish := RotateAdmin(server, id, username, epoch.epoch);
      } else {
        r, finish := ReadAfter(server, id, epoch, prior);
      }
      UpdateShown(planning, writes, finish, id, username, declared, prior, rotate, r);
      if r.None? {
        NotAllGo(planning, writes, finish, id, username, rotate);
      }
    }

    /** The update of a database whose id is known. */
    method UpdateKnown(server: Databases, id: string, config: Config, epoch: Epoch, prior: Option<Output>)
      returns (r: Option<Output>, ghost ev: seq<Event>)
      requires Valid(server) && epoch == EpochOf(config.epoch) && !epoch.BadEpoch? && (epoch.Declared? ==> prior.Some?)
      modifies this`pending, this`declared, server`rules, server`log
      ensures Valid(server) && server.log == old(server.log) + ev
      ensures Rotates(Recorded(prior, ADMIN_KEY), Wanted(config.epoch), r, ADMIN_KEY, ev) && IssuesAs(r, ev)
      ensures AdminResetsChecked(ev) &&
              (HasReset(ev) ==> epoch.Declared? && canReset && Sent(server, id, config.sources))
      ensures forall e :: e in ev ==> OfDatabase(e, id)
      ensures Declares(server, id, config.sources, r.Some?) && (r.Some? ==> Sent(server, id, config.sources))
      ensures old(NoneStale(declared, pending)) && old(LastFor(pending, id)).None? ==> NoneStale(declared, pending)
      ensures forall k :: k != id ==> Rules(server.rules, k) == Rules(old(server.rules), k)
      ensures old(server.rules).Keys <= server.rules.Keys
      ensures r.Some? ==> ReadableEpoch(r.value, ADMIN_KEY)
      ensures r.None? && server.reliable && Admits(config.sources, epoch, prior) ==> forall user :: !AllGo(ev, user)
    {
      hide Full, LastFor, NoneStale, Settled, Needed, PartialRules, Recorded, Rotates, Wanted, EpochOf, IssuesAs,
           AdminResetsChecked, Sight, HasReset, Planned, Writes, AllDone, Issues, AllGo, Admits, ReadableEpoch;
      r := None;
      var planned, rotate, username, plan, deferred;
      planned, rotate, username, plan, deferred, ev := PlanUpdate(server, id, config.sources, epoch, prior);
      NotRotated(Recorded(prior, ADMIN_KEY), Wanted(config.epoch), ADMIN_KEY, ev);
      if !planned {
        return;
      }
      ghost var planning := ev;
      var written;
      ghost var writes, finish;
      written, writes := WriteSizeAndRules(server, id, config, plan, deferred);
      ev := planning + writes;
      NotRotated(Recorded(prior, ADMIN_KEY), Wanted(config.epoch), ADMIN_KEY, ev);
      if !written {
        NoneGo(planning, writes);
        return;
      }
      r, finish := Finish(server, id, rotate, username, config.epoch, prior, planning, writes);
      ev := planning + writes + finish;
    }

    /** What an update accepts of its arguments. */
    predicate Accepts(ref: (string, string), config: Config, prior: Option<Output>, priorOk: bool) {
      && !EpochOf(config.epoch).BadEpoch? && (prior.Some? ==> priorOk)
      && (EpochOf(config.epoch).Declared? ==> canonical(ref.0))
      && Admits(config.sources, EpochOf(config.epoch), prior)
    }

    /** `priorOk` is what the validation of the prior state says. */
    method UpdateWithState(server: Databases, ref: (string, string), config: Config, prior: Option<Output>,
                           priorOk: bool)
      returns (r: Option<Output>, ghost ev: seq<Event>, ghost id: Option<string>)
      requires Valid(server)
      modifies this`pending, this`declared, server`rules, server`log
      ensures Valid(server) && server.log == old(server.log) + ev
      ensures Rotates(Recorded(prior, ADMIN_KEY), Wanted(config.epoch), r, ADMIN_KEY, ev) && IssuesAs(r, ev)
      ensures AdminResetsChecked(ev)
      ensures HasReset(ev) ==>
                canReset && canonical(ref.0) && prior.Some? && priorOk && id.Some? &&
                Sent(server, id.value, config.sources)
      ensures r.Some? && prior.Some? ==> priorOk
      ensures id.None? ==>
                && r.None? && (forall e :: e in ev ==> e.NameLookedUp?)
                && server.rules == old(server.rules) && pending == old(pending) && declared == old(declared)
      ensures id.Some? ==> Targets(server, ref, id.value, ev) && Declares(server, id.value, config.sources, r.Some?)
      ensures id.Some? ==> id.value == TargetOf(server, ref)
      ensures r.Some? ==> id.Some? && Sent(server, id.value, config.sources)
      ensures old(NoneStale(declared, pending)) && id.Some? && old(LastFor(pending, id.value)).None? ==>
                NoneStale(declared, pending)
      ensures forall k :: Some(k) != id ==> Rules(server.rules, k) == Rules(old(server.rules), k)
      ensures old(server.rules).Keys <= server.rules.Keys
      ensures r.Some? ==> ReadableEpoch(r.value, ADMIN_KEY)
      ensures r.None? && server.reliable && Accepts(ref, config, prior, priorOk) ==> forall user :: !AllGo(ev, user)
    {
      hide Full, LastFor, NoneStale, Settled, Needed, PartialRules, Recorded, Rotates, EpochOf, IssuesAs,
           AdminResetsChecked, HasReset, OfDatabase, AllGo, ReadableEpoch;
      ev, id, r := [], None, None;
      var epoch := EpochOf(config.epoch);
      NotRotated(Recorded(prior, ADMIN_KEY), Wanted(config.epoch), ADMIN_KEY, ev);
      if epoch.BadEpoch? || ((prior.Some? || epoch.Declared?) && (prior.None? || !priorOk)) ||
         (epoch.Declared? && !canonical(ref.0)) {
        return;
      }
      var found;
      found, ev := ResolveProviderID(server, ref);
      NotRotated(Recorded(prior, ADMIN_KEY), Wanted(config.epoch), ADMIN_KEY, ev);
      if found.None? {
        NotAnswered(ev);
        return;
      }
      id := found;
      ghost var more;
      r, more := UpdateKnown(server, found.value, config, epoch, prior);
      LookupFirst(ev, more, Recorded(prior, ADMIN_KEY), Wanted(config.epoch), r);
      if r.None? && server.reliable && Accepts(ref, config, prior, priorOk) {
        NoneGo(ev, more);
      }
      ev := ev + more;
    }

    /** The id of the database that a reference names. */
    function TargetOf(server: Databases, ref: (string, string)): string {
      if server.isUUID(ref.0) then ref.0 else server.idOf(ref.1)
    }

    // ----- the flush -----

    /** Resolves an owed list anew and sends it; None when the names could not be resolved. */
    method FlushOne(server: Databases, e: Deferred) returns (done: bool, ghost sent: Option<Event>)
      modifies server`rules, server`log
      ensures server.log == old(server.log) + Optional(sent)
      ensures sent.None? ==> !done && server.rules == old(server.rules)
      ensures sent.Some? ==> sent.value.RulesSent? && sent.value.id == e.id && sent.value.done == done
                             && Full(sent.value.sent, e.list, server.apps, server.isUUID)
                             && (server.rules == old(server.rules)[e.id := sent.value.sent] ||
                                 (!done && server.rules == old(server.rules)))
      ensures server.reliable && hasApps && Resolvable(e.list, server.apps, server.isUUID) ==> done
    {
      hide Full, Needed;
      done, sent := false, None;
      NamesFound(e.list, server.apps, server.isUUID);
      var plan := BuildFirewallRules(server, hasApps, Key(Some(e.list)));
      if plan.Apply? {
        ghost var ev;
        done, ev := server.UpdateFirewallRules(e.id, plan.rules);
        sent := Some(ev[0]);
      }
    }

    /**
     An entry leaves the queue exactly when its full list was sent with success; the others keep their
     order; the error is nil exactly when the queue is empty. After a nil flush every database has the
     full list of the last entry it had in the queue.
     */
    method FlushDeferredUpdates(server: Databases)
      returns (err: bool, ghost done: seq<bool>, ghost sent: seq<Option<Event>>)
      requires forall e :: e in pending ==> e.id in server.rules
      modifies this`pending, server`rules, server`log
      ensures |done| == |sent| == |old(pending)| && Written(old(pending), done, sent, server.apps, server.isUUID)
      ensures pending == Survivors(old(pending), done)
      ensures err <==> pending != []
      ensures server.reliable && hasApps &&
              (forall e :: e in old(pending) ==> Resolvable(e.list, server.apps, server.isUUID)) ==>
                !err
      ensures server.log == old(server.log) + Sequence(sent)
      ensures !err ==> Flushed(old(pending), old(server.rules), server.rules, server.apps, server.isUUID)
      ensures forall e :: e in pending ==> e.id in server.rules
      ensures old(server.rules).Keys <= server.rules.Keys
    {
      hide Full, LastFor, Survivors, Flushed, Sequence, Written, Resolvable;
      done, sent, err := [], [], false;
      var remaining: seq<Deferred> := [];
      NothingFlushed(pending, server.rules, server.apps, server.isUUID);
      for i := 0 to |pending|
        invariant pending == old(pending) && |done| == |sent| == i
        invariant Written(pending[..i], done, sent, server.apps, server.isUUID)
        invariant remaining == Survivors(pending[..i], done)
        invariant err <==> remaining != []
        invariant server.reliable && hasApps &&
                  (forall e :: e in pending ==> Resolvable(e.list, server.apps, server.isUUID)) ==>
                    !err
        invariant server.log == old(server.log) + Sequence(sent)
        invariant !err ==> Flushed(pending[..i], old(server.rules), server.rules, server.apps, server.isUUID)
        invariant old(server.rules).Keys <= server.rules.Keys
        invariant forall e :: e in remaining ==> e in pending
      {
        ghost var before := server.rules;
        var ok;
        ghost var s;
        ok, s := FlushOne(server, pending[i]);
        FlushStep(pending, i, done, sent, ok, s, old(server.rules), before, server.rules, server.apps, server.isUUID);
        if !ok {
          remaining, err := remaining + [pending[i]], true;
        }
        done, sent := done + [ok], sent + [s];
      }
      assert pending[..|pending|] == pending;
      pending := remaining;
    }

    /** After a plan that left no stale entry, a nil flush leaves every declared database with its full rules. */
    method FlushAfterPlan(server: Databases) returns (err: bool)
      requires Valid(server) && NoneStale(declared, pending)
      modifies this`pending, server`rules, server`log
      ensures server.reliable && hasApps &&
              (forall e :: e in old(pending) ==> Resolvable(e.list, server.apps, server.isUUID)) ==>
                !err
      ensures !err ==>
                pending == [] &&
                forall id :: id in declared ==>
                         id in server.rules && Full(server.rules[id], declared[id], server.apps, server.isUUID)
    {
      hide Full, LastFor, Survivors, Sequence, Written, Resolvable;
      ghost var done, sent;
      ghost var before := pending;
      err, done, sent := FlushDeferredUpdates(server);
      if !err {
        forall id | id in declared
          ensures id in server.rules && Full(server.rules[id], declared[id], server.apps, server.isUUID) {
          assert FlushedOne(LastFor(before, id), id, old(server.rules), server.rules, server.apps, server.isUUID);
          if LastFor(before, id).Some? {
            assert LastFor(before, id).value.list == declared[id];
          }
        }
      }
    }

    // ----- a plan -----

    /** Apps that come to exist keep every settled database settled. */
    method AppearApps(server: Databases, more: seq<AppRef>)
      requires Valid(server)
      modifies server`apps
      ensures Valid(server) && server.apps == old(server.apps) + more
    {
      SettledStays(declared, pending, server.rules, server.apps, more, server.isUUID);
      server.AppsAppear(more);
    }

    /** The database that a step is about, when it exists already. */
    function TargetOfStep(server: Databases, step: Step): Option<string> {
      if step.MakeDb? then None else Some(TargetOf(server, step.ref))
    }

    predicate Lists(sources: Sources, list: seq<Source>) {
      sources.Key? && sources.list == Some(list)
    }

    /** One step of a plan, on a database that nothing is owed to. */
    method RunStep(server: Databases, step: Step) returns (ok: bool, ghost id: string)
      requires Valid(server) && NoneStale(declared, pending)
      requires step.ChangeDb? ==>
                 LastFor(pending, TargetOf(server, step.ref)).None? && TargetOf(server, step.ref) in server.rules
      modifies this`pending, this`declared, server`rules, server`log
      ensures Valid(server) && NoneStale(declared, pending) && old(server.rules).Keys <= server.rules.Keys
      ensures forall k :: k in old(server.rules) && Some(k) != TargetOfStep(server, step) ==>
                LastFor(pending, k) == LastFor(old(pending), k) &&
                Declaration(declared, k) == Declaration(old(declared), k)
      ensures ok ==> StepDone(declared, step, id, TargetOfStep(server, step), old(server.rules).Keys)
      ensures forall e :: e in pending ==> e in old(pending) || Lists(step.config.sources, e.list)
    {
      hide Full, LastFor, NoneStale, Settled, Needed, PartialRules, Rotates, IssuesAs, AdminResetsChecked, HasReset,
           Targets;
      ghost var queue, sources := pending, step.config.sources;
      ghost var list := if sources.Key? && sources.list.Some? then sources.list.value else [];
      var r;
      ghost var ev;
      id := "";
      match step {
        case MakeDb(config) =>
          r, ev := Create(server, config);
          if pending != queue {
            ghost var made :| QueuedEarly(server, made, list);
            QueueGrows(queue, made, list);
          }
          if r.Some? && config.sources.Key? {
            id :| id in declared && id !in old(server.rules) && Some(declared[id]) == config.sources.list;
          }
        case ChangeDb(ref, config, prior, priorOk) =>
          ghost var target;
          r, ev, target := UpdateWithState(server, ref, config, prior, priorOk);
          if target.None? {
            assert NoneStale(declared, pending);
          } else {
            id := target.value;
            QueueGrows(queue, id, list);
          }
      }
      ok := r.Some?;
    }

    /** Databases that exist, are touched once, and are owed nothing at the start. */
    ghost predicate PlanFits(server: Databases, steps: seq<Step>)
      reads this, server
    {
      && (forall i :: 0 <= i < |steps| && steps[i].ChangeDb? ==>
            TargetOf(server, steps[i].ref) in server.rules && LastFor(pending, TargetOf(server, steps[i].ref)).None?)
      && forall i, j :: 0 <= i < j < |steps| && steps[i].ChangeDb? && steps[j].ChangeDb? ==>
           TargetOf(server, steps[i].ref) != TargetOf(server, steps[j].ref)
    }

    /** The database has the full rules of the list, when there is one. */
    ghost predicate HasFull(server: Databases, sources: Sources, id: string)
      reads server
    {
      sources.Key? ==>
        && sources.list.Some? && id in server.rules
        && Full(server.rules[id], sources.list.value, server.apps, server.isUUID)
    }

    /** Every list that is owed or declared has an app for each of its names. */
    ghost predicate AllResolvable(server: Databases, owed: seq<Deferred>, steps: seq<Step>)
      reads server
    {
      && (forall e :: e in owed ==> Resolvable(e.list, server.apps, server.isUUID))
      && forall i, list :: 0 <= i < |steps| && Lists(steps[i].config.sources, list) ==>
           Resolvable(list, server.apps, server.isUUID)
    }

    /**
     A plan that creates databases and updates each existing one at most once, while apps appear in between,
     and the flush at its end: when that is nil, every database that a step went through for has the full
     rules of its list, with every app name resolved. It is nil when every request is answered and every
     name has an app by then.
     */
    method RunPlan(server: Databases, steps: seq<Step>) returns (oks: seq<bool>, err: bool, ghost ids: seq<string>)
      requires Valid(server) && NoneStale(declared, pending) && PlanFits(server, steps)
      modifies this`pending, this`declared, server`rules, server`log, server`apps
      ensures |oks| == |ids| == |steps|
      ensures forall i :: 0 <= i < |steps| && oks[i] ==>
                StepDone(declared, steps[i], ids[i], TargetOfStep(server, steps[i]), old(server.rules).Keys)
      ensures !err ==>
                pending == [] &&
                forall i :: 0 <= i < |steps| && oks[i] ==> HasFull(server, steps[i].config.sources, ids[i])
      ensures server.reliable && hasApps && AllResolvable(server, old(pending), steps) ==> !err
    {
      hide Full, LastFor, NoneStale, Settled, TargetOf, StepDone, Resolvable;
      oks, ids := [], [];
      ghost var existing := server.rules.Keys;
      for i := 0 to |steps|
        invariant Valid(server) && NoneStale(declared, pending) && existing <= server.rules.Keys
        invariant |oks| == |ids| == i
        invariant forall e :: e in pending ==>
                    e in old(pending) || exists j :: 0 <= j < i && Lists(steps[j].config.sources, e.list)
        invariant forall j :: i <= j < |steps| && steps[j].ChangeDb? ==>
                    TargetOf(server, steps[j].ref) in existing && LastFor(pending, TargetOf(server, steps[j].ref)).None?
        invariant forall j :: 0 <= j < i && oks[j] ==>
                    StepDone(declared, steps[j], ids[j], TargetOfStep(server, steps[j]), existing)
      {
        var more: seq<AppRef> := *;
        AppearApps(server, more);
        var ok;
        ghost var id;
        ghost var known, keys := declared, server.rules.Keys;
        ok, id := RunStep(server, steps[i]);
        forall j | 0 <= j < i && oks[j]
          ensures StepDone(declared, steps[j], ids[j], TargetOfStep(server, steps[j]), existing) {
          StepStays(known, declared, keys, steps[j], ids[j], TargetOfStep(server, steps[j]),
                    TargetOfStep(server, steps[i]), existing);
        }
        if ok {
          NowDone(declared, keys, steps[i], id, TargetOfStep(server, steps[i]), existing);
        }
        oks, ids := oks + [ok], ids + [id];
      }
      var last: seq<AppRef> := *;
      AppearApps(server, last);
      err := FlushAfterPlan(server);
      if !err {
        forall i | 0 <= i < |steps| && oks[i] ensures HasFull(server, steps[i].config.sources, ids[i]) {
          if steps[i].config.sources.Key? {
            DoneMeans(declared, steps[i], ids[i], TargetOfStep(server, steps[i]), existing);
          }
        }
      }
    }

    /** What a run needs of each of its updates. */
    predicate Acceptable(ref: (string, string), config: Config, priorOk: bool) {
      && priorOk && !EpochOf(config.epoch).BadEpoch? && (EpochOf(config.epoch).Declared? ==> canonical(ref.0))
      && (config.sources.Key? ==> config.sources.list.Some?)
    }

    /** An update as a run sees it. */
    method NextUpdate(server: Databases, ref: (string, string), config: Config, last: Output, priorOk: bool)
      returns (r: Option<Output>, ghost ev: seq<Event>)
      requires Valid(server)
      modifies this`pending, this`declared, server`rules, server`log
      ensures Valid(server) && server.log == old(server.log) + ev && AdminResetsChecked(ev)
      ensures Rotates(Recorded(Some(last), ADMIN_KEY), Wanted(config.epoch), r, ADMIN_KEY, ev)
      ensures HasReset(ev) ==> canReset && canonical(ref.0)
      ensures r.Some? ==> priorOk && ReadableEpoch(r.value, ADMIN_KEY)
      ensures server.reliable && hasApps && canReset && ReadableEpoch(last, ADMIN_KEY) &&
              Acceptable(ref, config, priorOk) && r.None? ==>
                forall user :: !AllGo(ev, user)
    {
      hide Rotates, Recorded, Wanted, Full, LastFor, Settled, Needed, PartialRules, IssuesAs, Targets,
           AdminResetsChecked, HasReset, AllGo, ReadableEpoch, EpochOf;
      ghost var id;
      r, ev, id := UpdateWithState(server, ref, config, Some(last), priorOk);
    }

    /**
     A run of updates, each given the last state that an update returned; `priorOks` is what the validation
     of the prior state says in each.
     */
    method RunUpdates(server: Databases, ref: (string, string), configs: seq<Config>, priorOks: seq<bool>,
                      first: Output)
      returns (failures: nat, last: Output, ghost ev: seq<Event>)
      requires Valid(server) && |priorOks| == |configs|
      modifies this`pending, this`declared, server`rules, server`log
      ensures Valid(server) && server.log == old(server.log) + ev && Resets(ev) <= |configs|
      ensures AdminResetsChecked(ev) && (Resets(ev) > 0 ==> canReset && canonical(ref.0))
      ensures failures == 0 ==>
                var ws := seq(|configs|, i requires 0 <= i < |configs| => Wanted(configs[i].epoch));
                var start := Recorded(Some(first), ADMIN_KEY);
                Resets(ev) == Changes(start, ws) && Recorded(Some(last), ADMIN_KEY) == After(start, ws)
      ensures failures == 0 ==> forall i :: 0 <= i < |configs| ==> priorOks[i]
      ensures server.reliable && hasApps && canReset && ReadableEpoch(first, ADMIN_KEY) &&
              (forall i :: 0 <= i < |configs| ==> Acceptable(ref, configs[i], priorOks[i])) &&
              (exists user :: AllGo(ev, user)) ==>
                failures == 0
    {
      hide Rotates, Recorded, Wanted, Full, LastFor, Settled, Needed, PartialRules, Resets, Acceptable,
           AdminResetsChecked, HasReset, AllGo, ReadableEpoch, EpochOf;
      failures, last, ev := 0, first, [];
      ghost var ws := seq(|configs|, i requires 0 <= i < |configs| => Wanted(configs[i].epoch));
      ghost var start := Recorded(Some(first), ADMIN_KEY);
      NoResets(ev);
      NoAdminReset(ev);
      for i := 0 to |configs|
        invariant Valid(server) && server.log == old(server.log) + ev && Resets(ev) <= i
        invariant AdminResetsChecked(ev) && (Resets(ev) > 0 ==> canReset && canonical(ref.0))
        invariant failures == 0 ==>
                    Resets(ev) == Changes(start, ws[..i]) && Recorded(Some(last), ADMIN_KEY) == After(start, ws[..i])
        invariant failures == 0 ==> forall j :: 0 <= j < i ==> priorOks[j]
        invariant ReadableEpoch(first, ADMIN_KEY) ==> ReadableEpoch(last, ADMIN_KEY)
        invariant failures > 0 && server.reliable && hasApps && canReset && ReadableEpoch(first, ADMIN_KEY) &&
                  (forall j :: 0 <= j < i ==> Acceptable(ref, configs[j], priorOks[j])) ==>
                    forall user :: !AllGo(ev, user)
      {
        var r;
        ghost var more;
        r, more := NextUpdate(server, ref, configs[i], last, priorOks[i]);
        RotatesCounts(Recorded(Some(last), ADMIN_KEY), ws[i], r, ADMIN_KEY, more);
        ResetsConcat(ev, more);
        AdminChecksConcat(ev, more);
        NoneGoEither(ev, more);
        ev := ev + more;
        OneMoreUpdate(start, ws[..i], ws[i]);
        assert ws[..i + 1] == ws[..i] + [ws[i]];
        if r.Some? {
          last := r.value;
        } else {
          failures := failures + 1;
        }
      }
      assert ws[..|configs|] == ws;
    }
  }

  // ----- lemmas about the flush -----

  ghost function Optional(e: Option<Event>): seq<Event> {
    if e.Some? then [e.value] else []
  }

  ghost function Sequence(sent: seq<Option<Event>>): seq<Event> {
    if sent == [] then [] else Sequence(sent[..|sent| - 1]) + Optional(sent[|sent| - 1])
  }

  /** Each entry done had its full list sent with success; each other one was not sent, or not with success. */
  ghost predicate Written(queue: seq<Deferred>, done: seq<bool>, sent: seq<Option<Event>>, apps: seq<AppRef>,
                          isUUID: Test)
    requires |queue| == |done| == |sent|
  {
    forall i :: 0 <= i < |queue| ==>
      if sent[i].None? then !done[i]
      else
        && sent[i].value.RulesSent? && sent[i].value.id == queue[i].id && sent[i].value.done == done[i]
        && Full(sent[i].value.sent, queue[i].list, apps, isUUID)
  }

  /** Every database has the full list of its last entry, and is as before when it has none. */
  ghost predicate Flushed(queue: seq<Deferred>, before: RuleMap, after: RuleMap, apps: seq<AppRef>, isUUID: Test) {
    forall id :: FlushedOne(LastFor(queue, id), id, before, after, apps, isUUID)
  }

  ghost predicate FlushedOne(last: Option<Deferred>, id: string, before: RuleMap, after: RuleMap, apps: seq<AppRef>,
                             isUUID: Test) {
    if last.None? then Rules(after, id) == Rules(before, id)
    else id in after && Full(after[id], last.value.list, apps, isUUID)
  }

  function Rules(rules: RuleMap, id: string): Option<seq<Rule>> {
    if id in rules then Some(rules[id]) else None
  }

  lemma NothingFlushed(queue: seq<Deferred>, rules: RuleMap, apps: seq<AppRef>, isUUID: Test)
    ensures Flushed(queue[..0], rules, rules, apps, isUUID) && Survivors(queue[..0], []) == [] && Sequence([]) == []
    ensures Written(queue[..0], [], [], apps, isUUID)
  {
  }

  lemma FlushStep(queue: seq<Deferred>, i: nat, done: seq<bool>, sent: seq<Option<Event>>, ok: bool, s: Option<Event>,
                  first: RuleMap, before: RuleMap, after: RuleMap, apps: seq<AppRef>, isUUID: Test)
    requires i < |queue| && |done| == |sent| == i && Written(queue[..i], done, sent, apps, isUUID)
    requires s.None? ==> !ok
    requires s.Some? ==>
               s.value.RulesSent? && s.value.id == queue[i].id && s.value.done == ok &&
               Full(s.value.sent, queue[i].list, apps, isUUID)
    requires s.Some? && ok ==> after == before[queue[i].id := s.value.sent]
    ensures Written(queue[..i + 1], done + [ok], sent + [s], apps, isUUID)
    ensures Survivors(queue[..i + 1], done + [ok]) == Survivors(queue[..i], done) + if ok then [] else [queue[i]]
    ensures Sequence(sent + [s]) == Sequence(sent) + Optional(s)
    ensures ok && Flushed(queue[..i], first, before, apps, isUUID) ==>
              Flushed(queue[..i + 1], first, after, apps, isUUID)
  {
    hide Full, LastFor, Flushed, Written;
    assert queue[..i + 1][..i] == queue[..i] && (done + [ok])[..i] == done && (sent + [s])[..i] == sent;
    WrittenStep(queue, i, done, sent, ok, s, apps, isUUID);
    if ok && Flushed(queue[..i], first, before, apps, isUUID) {
      FlushedStep(queue, i, first, before, after, s.value.sent, apps, isUUID);
    }
  }

  lemma WrittenStep(queue: seq<Deferred>, i: nat, done: seq<bool>, sent: seq<Option<Event>>, ok: bool,
                    s: Option<Event>, apps: seq<AppRef>, isUUID: Test)
    requires i < |queue| && |done| == |sent| == i && Written(queue[..i], done, sent, apps, isUUID)
    requires s.None? ==> !ok
    requires s.Some? ==>
               s.value.RulesSent? && s.value.id == queue[i].id && s.value.done == ok &&
               Full(s.value.sent, queue[i].list, apps, isUUID)
    ensures Written(queue[..i + 1], done + [ok], sent + [s], apps, isUUID)
  {
    hide Full;
  }

  lemma FlushedStep(queue: seq<Deferred>, i: nat, first: RuleMap, before: RuleMap, after: RuleMap,
                    sent: seq<Rule>, apps: seq<AppRef>, isUUID: Test)
    requires i < |queue| && Flushed(queue[..i], first, before, apps, isUUID)
    requires Full(sent, queue[i].list, apps, isUUID) && after == before[queue[i].id := sent]
    ensures Flushed(queue[..i + 1], first, after, apps, isUUID)
  {
    hide Full, LastFor;
    var longer := queue[..i + 1];
    forall id ensures FlushedOne(LastFor(longer, id), id, first, after, apps, isUUID) {
      LastForStep(queue, i, id);
      assert FlushedOne(LastFor(queue[..i], id), id, first, before, apps, isUUID);
    }
  }

  // ----- what a nil flush leaves of the declarations -----

  /** Some reading of the names gives a full list at all. */
  ghost predicate Resolvable(list: seq<Source>, apps: seq<AppRef>, isUUID: Test) {
    exists rules :: Full(rules, list, apps, isUUID)
  }

  /** A list that can be read in full misses no name. */
  lemma NamesFound(list: seq<Source>, apps: seq<AppRef>, isUUID: Test)
    ensures Resolvable(list, apps, isUUID) ==>
              !exists n :: n in Needed(list, isUUID) && forall id :: !Named(apps, n, id)
  {
    if Resolvable(list, apps, isUUID) {
      var rules :| Full(rules, list, apps, isUUID);
      var ids :| Resolves(ids, list, apps, isUUID);
      assert forall n :: n in Needed(list, isUUID) ==> Named(apps, n, ids[n]);
    }
  }

  /** A database that was flushed to its older list has, with it, also the declared one. */
  ghost predicate Covers(older: seq<Source>, declared: seq<Source>, apps: seq<AppRef>, isUUID: Test) {
    forall rules :: Full(rules, older, apps, isUUID) ==> Full(rules, declared, apps, isUUID)
  }

  ghost predicate DeclaredRules(declared: Declarations, rules: RuleMap, apps: seq<AppRef>, isUUID: Test) {
    forall id :: id in declared ==> id in rules && Full(rules[id], declared[id], apps, isUUID)
  }

  /** The last entry of each database resolves, without which no flush is nil. */
  ghost predicate AllResolve(queue: seq<Deferred>, apps: seq<AppRef>, isUUID: Test) {
    forall id :: LastFor(queue, id).Some? ==> Resolvable(LastFor(queue, id).value.list, apps, isUUID)
  }

  ghost predicate AllCover(declared: Declarations, queue: seq<Deferred>, apps: seq<AppRef>, isUUID: Test) {
    forall id :: id in declared && LastFor(queue, id).Some? ==>
             Covers(LastFor(queue, id).value.list, declared[id], apps, isUUID)
  }

  /** Every outcome of a nil flush leaves every database with the full rules of its declaration. */
  ghost predicate AlwaysDeclared(declared: Declarations, queue: seq<Deferred>, rules: RuleMap, apps: seq<AppRef>,
                                 isUUID: Test) {
    forall after: RuleMap :: Flushed(queue, rules, after, apps, isUUID) ==> DeclaredRules(declared, after, apps, isUUID)
  }

  /**
   From a settled state, every nil flush leaves the declared rules exactly when the last entry of each
   declared database covers its declaration; an entry that is not stale does.
   */
  lemma FlushKeepsDeclaredExactly(declared: Declarations, queue: seq<Deferred>, rules: RuleMap, apps: seq<AppRef>,
                                  isUUID: Test)
    requires Settled(declared, queue, rules, apps, isUUID) && AllResolve(queue, apps, isUUID)
    ensures AlwaysDeclared(declared, queue, rules, apps, isUUID) <==> AllCover(declared, queue, apps, isUUID)
    ensures NoneStale(declared, queue) ==> AllCover(declared, queue, apps, isUUID)
  {
    hide Full, LastFor;
    if AllCover(declared, queue, apps, isUUID) {
      forall after: RuleMap | Flushed(queue, rules, after, apps, isUUID)
        ensures DeclaredRules(declared, after, apps, isUUID) {
        forall id | id in declared ensures id in after && Full(after[id], declared[id], apps, isUUID) {
          assert FlushedOne(LastFor(queue, id), id, rules, after, apps, isUUID);
        }
      }
    } else {
      var id :| id in declared && LastFor(queue, id).Some? &&
                !Covers(LastFor(queue, id).value.list, declared[id], apps, isUUID);
      var list := LastFor(queue, id).value.list;
      var bad :| Full(bad, list, apps, isUUID) && !Full(bad, declared[id], apps, isUUID);
      var after := OutcomeWith(queue, rules, id, bad, apps, isUUID);
      assert !DeclaredRules(declared, after, apps, isUUID);
    }
  }

  /** Some outcome of a nil flush leaves the given full reading of one entry. */
  lemma OutcomeWith(queue: seq<Deferred>, rules: RuleMap, id: string, reading: seq<Rule>, apps: seq<AppRef>,
                    isUUID: Test)
    returns (after: RuleMap)
    requires AllResolve(queue, apps, isUUID) && LastFor(queue, id).Some?
    requires Full(reading, LastFor(queue, id).value.list, apps, isUUID)
    ensures Flushed(queue, rules, after, apps, isUUID) && id in after && after[id] == reading
  {
    hide Full, LastFor;
    var ids := set e | e in queue :: e.id;
    var base := map k | k in rules.Keys + ids ::
      match LastFor(queue, k)
      case None => if k in rules then rules[k] else []
      case Some(e) => ReadingOf(e.list, apps, isUUID);
    after := base[id := reading];
    forall k ensures FlushedOne(LastFor(queue, k), k, rules, after, apps, isUUID) {
      if LastFor(queue, k).Some? {
        assert LastFor(queue, k).value in queue && k in ids;
        if k != id {
          assert Resolvable(LastFor(queue, k).value.list, apps, isUUID);
        }
      }
    }
  }

  ghost function ReadingOf(list: seq<Source>, apps: seq<AppRef>, isUUID: Test): (r: seq<Rule>)
    ensures Resolvable(list, apps, isUUID) ==> Full(r, list, apps, isUUID)
  {
    if Resolvable(list, apps, isUUID) then
      var r :| Full(r, list, apps, isUUID);
      r
    else []
  }

  /** The full list of one entry that is not an app's name. */
  lemma SingleRule(s: Source, ids: map<string, string>)
    requires Usable(s)
    ensures FullRules([s], ids) == [RuleOf(s, ids)]
  {
    assert [s][..0] == [];
    assert FullRules([s], ids) == FullRules([s][..0], ids) + [RuleOf(s, ids)];
  }

  /**
   A database declared with an app that does not exist yet, then declared anew without one: the flush puts
   the older list in place of the newer.
   */
  lemma OlderEntryWins(id: string, app: string, rules: RuleMap, after: RuleMap)
    requires var older, newer := [Source("app", "web")], [Source("ip_addr", "10.0.0.1")];
             var queue := Queued([], id, older, true);
             Flushed(Queued(queue, id, newer, false), rules, after, [AppRef(Some("web"), app)], s => false)
    ensures id in after && after[id] == [Rule("app", app)]
    ensures !Full(after[id], [Source("ip_addr", "10.0.0.1")], [AppRef(Some("web"), app)], s => false)
  {
    var older, newer := [Source("app", "web")], [Source("ip_addr", "10.0.0.1")];
    var apps, none: Test := [AppRef(Some("web"), app)], s => false;
    LastAppended([], Deferred(id, older), id);
    assert [] + [Deferred(id, older)] == Queued([], id, older, true);
    assert FlushedOne(LastFor(Queued([], id, older, true), id), id, rules, after, apps, none);
    assert Full(after[id], older, apps, none);
    var ids :| Resolves(ids, older, apps, none) && after[id] == FullRules(older, ids);
    SingleRule(older[0], ids);
    assert older[0] in older && "web" in Needed(older, none);
    assert Named(apps, "web", ids["web"]) && ids["web"] == app;
    forall b ensures FullRules(newer, b) != after[id] {
      SingleRule(newer[0], b);
    }
  }

  // ----- lemmas about one update -----

  /** An output that records the epoch. */
  ghost function Marked(epoch: Epoch): Output
    requires epoch.Declared?
  {
    Output(map[ADMIN_KEY := epoch.epoch], map[])
  }

  /** What a reset issued for a user is what the output records of that user. */
  ghost predicate IssuesAs(r: Option<Output>, ev: seq<Event>) {
    Issues(r, ev) && (r.Some? && HasReset(ev) ==> Value(r.value.values, "user") == Some(ev[|ev| - 1].user))
  }

  lemma NotRotated(recorded: Option<string>, wanted: Option<string>, key: string, ev: seq<Event>)
    requires forall e :: e in ev ==> !e.AuthReset?
    ensures Rotates(recorded, wanted, None, key, ev) && IssuesAs(None, ev) && AdminResetsChecked(ev) && !HasReset(ev)
  {
    assert forall k :: 0 <= k < |ev| ==> ev[k] in ev;
    NoAdminReset(ev);
  }

  /** The planning, the writes and the finish of an update in a row. */
  lemma UpdateShown(planning: seq<Event>, writes: seq<Event>, finish: seq<Event>, id: string, user: string,
                    declared: Option<string>, prior: Option<Output>, rotate: bool, r: Option<Output>)
    requires !EpochOf(declared).BadEpoch?
    requires rotate <==> EpochOf(declared).Declared? && Recorded(prior, ADMIN_KEY) != Some(EpochOf(declared).epoch)
    requires if rotate
             then |planning| == 1 && Sight(planning[0], id, user) && planning[0].db.value.connection.value.validUser
             else planning == []
    requires writes != [] && writes[0].Resized? && Writes(writes, id)
    requires 1 <= |finish| <= 2 && finish[0].DbRead? && finish[0].id == id
    requires |finish| == 2 ==>
               rotate && Sight(finish[0], id, user) && finish[1].AuthReset? && finish[1].id == id &&
               finish[1].user == user
    requires r.Some? ==>
               AllDone(finish) &&
               (rotate ==> |finish| == 2 && Issues(r, finish) && Value(r.value.values, "user") == Some(user))
    requires r.Some? && EpochOf(declared).Declared? ==>
               Recorded(r, ADMIN_KEY) == Recorded(Some(Marked(EpochOf(declared))), ADMIN_KEY)
    requires r.Some? && !EpochOf(declared).Declared? ==> Recorded(r, ADMIN_KEY) == Recorded(prior, ADMIN_KEY)
    ensures var ev := planning + writes + finish;
            && Rotates(Recorded(prior, ADMIN_KEY), Wanted(declared), r, ADMIN_KEY, ev) && IssuesAs(r, ev)
            && AdminResetsChecked(ev) && (HasReset(ev) ==> rotate)
  {
    var ev := planning + writes + finish;
    if rotate {
      AdminChecked(planning, writes, finish, id, user);
    } else {
      assert forall i :: 0 <= i < |writes| ==> ev[i] == writes[i];
      assert ev[|writes|] == finish[0];
      assert forall k :: 0 <= k < |ev| ==> !ev[k].AuthReset?;
    }
    WritesRotate(planning + writes, finish, declared, prior, rotate, r);
  }

  lemma WritesRotate(before: seq<Event>, finish: seq<Event>, declared: Option<string>, prior: Option<Output>,
                     rotate: bool, r: Option<Output>)
    requires !EpochOf(declared).BadEpoch?
    requires rotate <==> EpochOf(declared).Declared? && Recorded(prior, ADMIN_KEY) != Some(EpochOf(declared).epoch)
    requires forall i :: 0 <= i < |before| ==> before[i].done && !before[i].AuthReset?
    requires 1 <= |finish| <= 2 && !finish[0].AuthReset?
    requires |finish| == 2 ==> rotate && finish[1].AuthReset? && finish[0].done
    requires r.Some? ==>
               AllDone(finish) &&
               (rotate ==> |finish| == 2 && Issues(r, finish) && Value(r.value.values, "user") == Some(finish[1].user))
    requires r.Some? && EpochOf(declared).Declared? ==>
               Recorded(r, ADMIN_KEY) == Recorded(Some(Marked(EpochOf(declared))), ADMIN_KEY)
    requires r.Some? && !EpochOf(declared).Declared? ==> Recorded(r, ADMIN_KEY) == Recorded(prior, ADMIN_KEY)
    ensures var ev := before + finish;
            Rotates(Recorded(prior, ADMIN_KEY), Wanted(declared), r, ADMIN_KEY, ev) && IssuesAs(r, ev) &&
            (HasReset(ev) ==> rotate)
  {
    var ev := before + finish;
    assert ev[|ev| - 1] == finish[|finish| - 1];
    assert forall i :: 0 <= i < |before| ==> ev[i] == before[i];
    assert ev[|before|] == finish[0];
  }

  /** A lookup in front changes nothing of what the writes show. */
  lemma NotAllGo(planning: seq<Event>, writes: seq<Event>, finish: seq<Event>, id: string, user: string, rotate: bool)
    requires rotate ==> |planning| == 1 && Sight(planning[0], id, user)
    requires forall u :: (rotate ==> u == user) ==> !AllGo(finish, u)
    ensures forall u :: !AllGo(planning + writes + finish, u)
  {
    forall u ensures !AllGo(planning + writes + finish, u) {
      AllGoParts(planning + writes, finish, u);
      AllGoParts(planning, writes, u);
      if rotate && AllGo(planning, u) {
        assert AdminGoes(planning[0], u);
      }
    }
  }

  lemma NotAnswered(ev: seq<Event>)
    requires ev != [] && !ev[|ev| - 1].done
    ensures forall user :: !AllGo(ev, user)
  {
    forall user ensures !AllGo(ev, user) {
      assert !AdminGoes(ev[|ev| - 1], user);
    }
  }

  lemma LookupFirst(lookup: seq<Event>, more: seq<Event>, recorded: Option<string>, wanted: Option<string>,
                    r: Option<Output>)
    requires Rotates(recorded, wanted, r, ADMIN_KEY, more) && IssuesAs(r, more) && AdminResetsChecked(more)
    requires AllDone(lookup) && forall e :: e in lookup ==> !e.AuthReset?
    ensures Rotates(recorded, wanted, r, ADMIN_KEY, lookup + more) && IssuesAs(r, lookup + more)
    ensures AdminResetsChecked(lookup + more) && HasReset(lookup + more) == HasReset(more)
  {
    hide Recorded, AdminResetsChecked;
    NoAdminReset(lookup);
    AdminChecksConcat(lookup, more);
    var all := lookup + more;
    assert lookup != [] ==> lookup[|lookup| - 1] in lookup;
    if more == [] {
      assert all == lookup;
    } else {
      assert all[|all| - 1] == more[|more| - 1];
    }
    assert forall k :: 0 <= k < |lookup| ==> lookup[k] in lookup && all[k] == lookup[k];
    forall k | 0 <= k < |all| && all[k].AuthReset? ensures k == |all| - 1 && AllDone(all[..k]) {
      assert all[..k] == lookup + more[..k - |lookup|];
    }
  }

  /** A write that failed may have taken effect: the database has no declaration to live up to. */
  lemma ForgetOne(declared: Declarations, queue: seq<Deferred>, before: RuleMap, after: RuleMap, apps: seq<AppRef>,
                  isUUID: Test, id: string)
    requires Settled(declared, queue, before, apps, isUUID)
    requires forall k :: k != id && k in before ==> k in after && after[k] == before[k]
    ensures Settled(map k | k in declared && k != id :: declared[k], queue, after, apps, isUUID)
    ensures NoneStale(declared, queue) ==> NoneStale(map k | k in declared && k != id :: declared[k], queue)
  {
    hide Full, LastFor;
  }
}
