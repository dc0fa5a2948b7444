/**
 The trusted sources of a database (internal/drivers/database.go): app names resolved across pages,
 the full rule list, and the early list that leaves unresolved apps out.
 */
module DatabaseFirewall {
  import opened Paging
  import opened Wrappers

  datatype Rule = Rule(typ: string, value: string)

  /** One entry of trusted_sources; a missing field is the empty string. */
  datatype Source = NotAnObject | Source(typ: string, value: string)

  /** An app as the listing gives it; its spec, and with it the name, may be missing. */
  datatype AppRef = AppRef(name: Option<string>, id: string)

  /** The database API of one account; `apps` only ever grows, a failed write may have taken effect. */
  class Databases {
    const isUUID: string -> bool
    /** Whether every listing and every rule write is answered with success. */
    const reliable: bool
    /** The id of the database of a name. */
    const idOf: string -> string
    var apps: seq<AppRef>
    var rules: map<string, seq<Rule>>
    ghost var log: seq<Event>

    method ListApps(page: nat) returns (r: Reply<(seq<AppRef>, bool)>)
      requires page > 0
      ensures r.Answered? ==> r.value == (PageOf(apps, page), |apps| <= PER_PAGE * page)
      ensures reliable ==> r.Answered?
    {
      var lost: bool := *;
      r := if lost && !reliable then Lost else Answered((PageOf(apps, page), |apps| <= PER_PAGE * page));
    }

    method Get(id: string) returns (r: Reply<Option<Db>>, ghost ev: seq<Event>)
      modifies this`log
      ensures ev == [DbRead(id, if r.Answered? then r.value else None, r.Answered?)] && log == old(log) + ev
    {
      r := *;
      ev := [DbRead(id, if r.Answered? then r.value else None, r.Answered?)];
      log := log + ev;
    }

    /** The id of the first database of that name, across pages. */
    method FindByName(name: string) returns (id: Option<string>, ghost ev: seq<Event>)
      modifies this`log
      ensures ev == [NameLookedUp(name, id, id.Some?)] && log == old(log) + ev
      ensures id.Some? ==> id.value == idOf(name)
    {
      var lost: bool := *;
      id := if lost then None else Some(idOf(name));
      ev := [NameLookedUp(name, id, id.Some?)];
      log := log + ev;
    }

    method Create(sent: seq<Rule>) returns (db: Option<Db>, ghost ev: seq<Event>)
      modifies this`rules, this`log
      ensures ev == [DbCreated(sent, db.Some?)] && log == old(log) + ev
      ensures db.Some? ==> db.value.id !in old(rules) && rules == old(rules)[db.value.id := sent]
      ensures db.None? ==> rules == old(rules)
    {
      db := *;
      if db.Some? && db.value.id in rules {
        db := None;
      }
      if db.Some? {
        rules := rules[db.value.id := sent];
      }
      ev := [DbCreated(sent, db.Some?)];
      log := log + ev;
    }

    method Resize(id: string) returns (done: bool, ghost ev: seq<Event>)
      modifies this`log
      ensures ev == [Resized(id, done)] && log == old(log) + ev
    {
      done := *;
      ev := [Resized(id, done)];
      log := log + ev;
    }

    method CreateUser(id: string, name: string) returns (r: Reply<Option<User>>, ghost ev: seq<Event>)
      modifies this`log
      ensures ev == [UserCreated(id, name, r.Answered?)] && log == old(log) + ev
    {
      r := *;
      ev := [UserCreated(id, name, r.Answered?)];
      log := log + ev;
    }

    method GetUser(id: string, name: string) returns (r: Reply<Option<User>>, ghost ev: seq<Event>)
      modifies this`log
      ensures ev == [UserRead(id, name, if r.Answered? then r.value else None, r.Answered?)] && log == old(log) + ev
    {
      r := *;
      ev := [UserRead(id, name, if r.Answered? then r.value else None, r.Answered?)];
      log := log + ev;
    }

    /** Somebody, this plan or not, creates apps. */
    method AppsAppear(more: seq<AppRef>)
      modifies this`apps
      ensures apps == old(apps) + more
    {
      apps := apps + more;
    }

    method ResetUserAuth(id: string, name: string) returns (r: Reply<Option<User>>, ghost ev: seq<Event>)
      modifies this`log
      ensures ev == [AuthReset(id, name, if r.Answered? then r.value else None, r.Answered?)] && log == old(log) + ev
    {
      r := *;
      ev := [AuthReset(id, name, if r.Answered? then r.value else None, r.Answered?)];
      log := log + ev;
    }

    method UpdateFirewallRules(id: string, sent: seq<Rule>) returns (done: bool, ghost ev: seq<Event>)
      modifies this`rules, this`log
      ensures ev == [RulesSent(id, sent, done)] && log == old(log) + ev
      ensures rules == old(rules)[id := sent] || (!done && rules == old(rules))
      ensures reliable ==> done
    {
      done := *;
      done := done || reliable;
      var applied: bool := *;
      if done || applied {
        rules := rules[id := sent];
      }
      ev := [RulesSent(id, sent, done)];
      log := log + ev;
    }
  }

  /** How a connection is described; `sound` is whether endpoint and engine allow a credential URI. */
  datatype Connection = Connection(user: string, password: string, validUser: bool, sound: bool)

  datatype Db = Db(id: string, connection: Option<Connection>, values: map<string, string>)

  datatype User = User(name: string, password: string)

  /** The reads and writes of the database drivers, each with whether it was answered with success. */
  datatype Event =
    | RulesSent(id: string, sent: seq<Rule>, done: bool)
    | Resized(id: string, done: bool)
    | DbCreated(sent: seq<Rule>, done: bool)
    | UserCreated(id: string, user: string, done: bool)
    | AuthReset(id: string, user: string, issued: Option<User>, done: bool)
    | NameLookedUp(name: string, found: Option<string>, done: bool)
    | DbRead(id: string, db: Option<Db>, done: bool)
    | UserRead(id: string, user: string, account: Option<User>, done: bool)

  // ----- names -----

  /** An app entry whose value is a name that has to be looked up. */
  predicate NeedsLookup(s: Source, isUUID: string -> bool) {
    s.Source? && s.typ == "app" && s.value != "" && !isUUID(s.value)
  }

  function Needed(list: seq<Source>, isUUID: string -> bool): set<string> {
    set s | s in list && NeedsLookup(s, isUUID) :: s.value
  }

  predicate Named(apps: seq<AppRef>, name: string, id: string) {
    AppRef(Some(name), id) in apps
  }

  /** Every needed name, each with the id of a listed app of that name. */
  ghost predicate Resolves(m: map<string, string>, list: seq<Source>, apps: seq<AppRef>, isUUID: string -> bool) {
    m.Keys == Needed(list, isUUID) && forall n :: n in m ==> Named(apps, n, m[n])
  }

  datatype Resolution = Resolved(ids: map<string, string>) | Missing | Broken

  /** The page loop; it stops early once every name is known. */
  method ResolveAppNamesMap(server: Databases, hasClient: bool, list: seq<Source>) returns (r: Resolution)
    ensures r.Resolved? ==> Resolves(r.ids, list, server.apps, server.isUUID)
    ensures r.Missing? ==> exists n :: n in Needed(list, server.isUUID) && forall id :: !Named(server.apps, n, id)
    ensures server.reliable && (hasClient || Needed(list, server.isUUID) == {}) ==> !r.Broken?
  {
    var needed := Needed(list, server.isUUID);
    if needed == {} {
      return Resolved(map[]);
    }
    if !hasClient {
      return Broken;
    }
    var ids: map<string, string> := map[];
    var page: nat, done := 1, false;
    ghost var seen: seq<AppRef> := [];
    while !done
      invariant page > 0 && seen == if done then server.apps else Pages(server.apps, page - 1)
      invariant Found(ids, needed, seen)
      decreases !done, |server.apps| - PER_PAGE * (page - 1)
    {
      var answer := server.ListApps(page);
      if answer.Lost? {
        return Broken;
      }
      NextPage(server.apps, page);
      var all;
      all, ids := TakePage(ids, needed, answer.value.0, seen);
      seen := seen + answer.value.0;
      if all {
        assert forall a :: a in seen ==> a in server.apps;
        return Resolved(ids);
      }
      done := answer.value.1;
      page := page + 1;
    }
    if ids.Keys == needed {
      return Resolved(ids);
    }
    var n :| n in needed && n !in ids;
    assert forall id :: Named(server.apps, n, id) ==> AppRef(Some(n), id).name == Some(n);
    r := Missing;
  }

  /** The names known after the listed apps: exactly the needed ones that some app has. */
  ghost predicate Found(ids: map<string, string>, needed: set<string>, seen: seq<AppRef>) {
    && (forall n :: n in ids ==> n in needed && Named(seen, n, ids[n]))
    && forall a :: a in seen && a.name.Some? && a.name.value in needed ==> a.name.value in ids
  }

  method TakePage(before: map<string, string>, needed: set<string>, items: seq<AppRef>, ghost seen: seq<AppRef>)
    returns (all: bool, ids: map<string, string>)
    requires Found(before, needed, seen)
    ensures Found(ids, needed, seen + items) || all
    ensures all ==> ids.Keys == needed && forall n :: n in ids ==> Named(seen + items, n, ids[n])
  {
    ids := before;
    for i := 0 to |items|
      invariant Found(ids, needed, seen + items[..i])
    {
      TakeOne(ids, needed, items, i, seen);
      if items[i].name.Some? && items[i].name.value in needed {
        ids := ids[items[i].name.value := items[i].id];
        if |ids| == |needed| {
          AllFound(ids, needed);
          assert seen + items[..i + 1] <= seen + items;
          return true, ids;
        }
      }
    }
    assert items[..|items|] == items;
    all := false;
  }

  lemma TakeOne(ids: map<string, string>, needed: set<string>, items: seq<AppRef>, i: nat, seen: seq<AppRef>)
    requires i < |items| && Found(ids, needed, seen + items[..i])
    ensures var a := items[i];
            Found(if a.name.Some? && a.name.value in needed then ids[a.name.value := a.id] else ids,
                  needed, seen + items[..i + 1])
  {
    assert seen + items[..i + 1] == seen + items[..i] + [items[i]];
    assert items[i].name.Some? ==> items[i] == AppRef(Some(items[i].name.value), items[i].id);
  }

  lemma AllFound(ids: map<string, string>, needed: set<string>)
    requires ids.Keys <= needed && |ids| == |needed|
    ensures ids.Keys == needed
  {
    assert |ids.Keys| == |ids|;
    if ids.Keys != needed {
      var n :| n in needed && n !in ids.Keys;
      SubsetSmaller(ids.Keys, needed - {n});
    }
  }

  lemma {:induction false} SubsetSmaller(a: set<string>, b: set<string>)
    requires a <= b
    ensures |a| <= |b|
  {
    if a != {} {
      var x :| x in a;
      SubsetSmaller(a - {x}, b - {x});
    }
  }

  // ----- rule lists -----

  predicate Usable(s: Source) {
    s.Source? && s.typ != "" && s.value != ""
  }

  function RuleOf(s: Source, ids: map<string, string>): Rule
    requires s.Source?
  {
    Rule(s.typ, if s.typ == "app" && s.value in ids then ids[s.value] else s.value)
  }

  /** Every usable entry as a rule, app names replaced by ids. */
  function FullRules(list: seq<Source>, ids: map<string, string>): seq<Rule> {
    if list == [] then []
    else
      var n := |list| - 1;
      FullRules(list[..n], ids) + if Usable(list[n]) then [RuleOf(list[n], ids)] else []
  }

  /** The early list: the entries that need no lookup. */
  function PartialRules(list: seq<Source>, isUUID: string -> bool): seq<Rule> {
    if list == [] then []
    else
      var n := |list| - 1;
      PartialRules(list[..n], isUUID) +
      if Usable(list[n]) && !NeedsLookup(list[n], isUUID) then [Rule(list[n].typ, list[n].value)] else []
  }

  /** The full list for some reading of the names as ids of listed apps. */
  ghost predicate Full(rules: seq<Rule>, list: seq<Source>, apps: seq<AppRef>, isUUID: string -> bool) {
    exists ids :: Resolves(ids, list, apps, isUUID) && rules == FullRules(list, ids)
  }

  /** A list is full whatever apps come to be listed besides. */
  lemma FullStays(rules: seq<Rule>, list: seq<Source>, apps: seq<AppRef>, more: seq<AppRef>, isUUID: string -> bool)
    requires Full(rules, list, apps, isUUID)
    ensures Full(rules, list, apps + more, isUUID)
  {
    var ids :| Resolves(ids, list, apps, isUUID) && rules == FullRules(list, ids);
    assert Resolves(ids, list, apps + more, isUUID);
  }

  predicate Sublist(a: seq<Rule>, b: seq<Rule>) {
    a == [] ||
    (b != [] && (Sublist(a, b[..|b| - 1]) || (a[|a| - 1] == b[|b| - 1] && Sublist(a[..|a| - 1], b[..|b| - 1]))))
  }

  /** The early list is the full one with some entries left out, order kept. */
  lemma {:induction false} PartialIsSublist(list: seq<Source>, whole: seq<Source>, ids: map<string, string>,
                                            isUUID: string -> bool)
    requires ids.Keys == Needed(whole, isUUID)
    ensures Sublist(PartialRules(list, isUUID), FullRules(list, ids))
  {
    if list != [] {
      var n := |list| - 1;
      PartialIsSublist(list[..n], whole, ids, isUUID);
      var p, f := PartialRules(list[..n], isUUID), FullRules(list[..n], ids);
      if Usable(list[n]) {
        var r := RuleOf(list[n], ids);
        assert (f + [r])[..|f|] == f;
        if !NeedsLookup(list[n], isUUID) {
          assert r == Rule(list[n].typ, list[n].value);
          assert (p + [r])[..|p|] == p;
        } else {
          assert PartialRules(list, isUUID) == p;
        }
      } else {
        assert PartialRules(list, isUUID) == p && FullRules(list, ids) == f;
      }
    }
  }

  /** The early list differs from the full one exactly when a usable entry needs a lookup. */
  lemma {:induction false} PartialLength(list: seq<Source>, ids: map<string, string>, isUUID: string -> bool)
    ensures |PartialRules(list, isUUID)| <= |FullRules(list, ids)|
    ensures |PartialRules(list, isUUID)| == |FullRules(list, ids)| <==> Needed(list, isUUID) == {}
  {
    if list != [] {
      var n := |list| - 1;
      assert list == list[..n] + [list[n]];
      PartialLength(list[..n], ids, isUUID);
      assert NeedsLookup(list[n], isUUID) ==> list[n].value in Needed(list, isUUID);
      assert forall v :: v in Needed(list, isUUID) <==>
               v in Needed(list[..n], isUUID) || (NeedsLookup(list[n], isUUID) && v == list[n].value);
    }
  }

  /** `list` is None when trusted_sources is there but is not a list. */
  datatype Sources = NoKey | Key(list: Option<seq<Source>>)

  datatype Plan = Leave | Apply(rules: seq<Rule>) | NotFound | Failed

  method BuildFirewallRules(server: Databases, hasClient: bool, sources: Sources) returns (r: Plan)
    ensures r.Leave? <==> sources.NoKey?
    ensures r.Apply? || r.NotFound? ==> sources.Key? && sources.list.Some?
    ensures r.Apply? ==> Full(r.rules, sources.list.value, server.apps, server.isUUID)
    ensures r.NotFound? ==>
              exists n :: n in Needed(sources.list.value, server.isUUID) && forall id :: !Named(server.apps, n, id)
    ensures server.reliable && hasClient && sources.Key? && sources.list.Some? ==> r.Apply? || r.NotFound?
  {
    if sources.NoKey? {
      return Leave;
    }
    if sources.list.None? {
      return Failed;
    }
    var list := sources.list.value;
    var resolution := ResolveAppNamesMap(server, hasClient, list);
    if resolution.Missing? {
      return NotFound;
    }
    if resolution.Broken? {
      return Failed;
    }
    var rules: seq<Rule> := [];
    for i := 0 to |list|
      invariant rules == FullRules(list[..i], resolution.ids)
    {
      assert list[..i + 1][..i] == list[..i];
      if Usable(list[i]) {
        rules := rules + [RuleOf(list[i], resolution.ids)];
      }
    }
    assert list[..|list|] == list;
    r := Apply(rules);
  }

  method BuildRulesExcludingApps(isUUID: string -> bool, list: seq<Source>) returns (rules: seq<Rule>)
    ensures rules == PartialRules(list, isUUID)
  {
    rules := [];
    for i := 0 to |list|
      invariant rules == PartialRules(list[..i], isUUID)
    {
      assert list[..i + 1][..i] == list[..i];
      if Usable(list[i]) && !NeedsLookup(list[i], isUUID) {
        rules := rules + [Rule(list[i].typ, list[i].value)];
      }
    }
    assert list[..|list|] == list;
  }
}
