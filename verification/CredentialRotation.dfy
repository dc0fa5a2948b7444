/**
 Rotation of credentials by epoch: what a driver records, what it may reset, and how a run of updates
 adds up (internal/drivers/database_user.go, internal/drivers/database.go).
 */
module CredentialRotation {
  import opened DatabaseFirewall
  import opened Text
  import opened Wrappers

  /** A resource's outputs, and which of them are sensitive. */
  datatype Output = Output(values: map<string, string>, sensitive: map<string, bool>)

  datatype Epoch = NoEpoch | BadEpoch | Declared(epoch: string)

  function EpochOf(v: Option<string>): Epoch {
    if v.None? then NoEpoch else if TrimSpace(v.value) == "" then BadEpoch else Declared(v.value)
  }

  function Value(values: map<string, string>, key: string): Option<string> {
    if key in values then Some(values[key]) else None
  }

  /** The epoch a state records, if any. */
  function Recorded(prior: Option<Output>, key: string): Option<string> {
    if prior.None? then None
    else match EpochOf(Value(prior.value.values, key)) case Declared(e) => Some(e) case _ => None
  }

  function Wanted(v: Option<string>): Option<string> {
    match EpochOf(v) case Declared(e) => Some(e) case _ => None
  }

  // ----- what one update may do -----

  predicate AllDone(ev: seq<Event>) {
    forall i | 0 <= i < |ev| :: ev[i].done
  }

  /** A reset is the last write, after others that all succeeded. */
  ghost predicate ResetsLast(ev: seq<Event>) {
    forall k :: 0 <= k < |ev| && ev[k].AuthReset? ==> k == |ev| - 1 && AllDone(ev[..k])
  }

  /** How many resets a trace shows. */
  ghost function Resets(ev: seq<Event>): nat {
    if ev == [] then 0 else Resets(ev[..|ev| - 1]) + if ev[|ev| - 1].AuthReset? then 1 else 0
  }

  lemma {:induction false} ResetsConcat(a: seq<Event>, b: seq<Event>)
    ensures Resets(a + b) == Resets(a) + Resets(b)
  {
    if b == [] {
      assert a + b == a;
    } else {
      assert (a + b)[..|a + b| - 1] == a + b[..|b| - 1];
      ResetsConcat(a, b[..|b| - 1]);
    }
  }

  lemma {:induction false} NoResets(ev: seq<Event>)
    requires forall i :: 0 <= i < |ev| ==> !ev[i].AuthReset?
    ensures Resets(ev) == 0
  {
    if ev != [] {
      NoResets(ev[..|ev| - 1]);
    }
  }

  /** With a reset only at the end, there is one or none. */
  lemma ResetsAtEnd(ev: seq<Event>)
    requires ResetsLast(ev)
    ensures Resets(ev) == if HasReset(ev) then 1 else 0
  {
    hide AllDone;
    if ev != [] {
      NoResets(ev[..|ev| - 1]);
    }
  }

  /** The password that the last reset of a trace issued is the one in the output. */
  ghost predicate Issues(r: Option<Output>, ev: seq<Event>) {
    r.Some? && HasReset(ev) ==>
      var e := ev[|ev| - 1];
      e.issued.Some? && e.issued.value.name == e.user &&
      Value(r.value.values, "password") == Some(e.issued.value.password)
  }

  predicate HasReset(ev: seq<Event>) {
    ev != [] && ev[|ev| - 1].AuthReset?
  }

  /** One update: reset only for a new epoch, and record it only with the reset done. */
  ghost predicate Rotates(recorded: Option<string>, wanted: Option<string>, r: Option<Output>, key: string,
                          ev: seq<Event>) {
    && ResetsLast(ev)
    && (HasReset(ev) ==> wanted.Some? && wanted != recorded)
    && (r.Some? ==>
          && AllDone(ev)
          && Recorded(r, key) == (if wanted.Some? then wanted else recorded)
          && (HasReset(ev) <==> wanted.Some? && wanted != recorded))
  }

  // ----- runs of updates -----

  function After(recorded: Option<string>, ws: seq<Option<string>>): Option<string> {
    if ws == [] then recorded
    else
      var w := ws[|ws| - 1];
      if w.Some? then w else After(recorded, ws[..|ws| - 1])
  }

  /** How often a run of declarations changes the epoch. */
  function Changes(recorded: Option<string>, ws: seq<Option<string>>): nat {
    if ws == [] then 0
    else
      var w, before := ws[|ws| - 1], ws[..|ws| - 1];
      Changes(recorded, before) + if w.Some? && w != After(recorded, before) then 1 else 0
  }

  lemma OneMoreUpdate(recorded: Option<string>, ws: seq<Option<string>>, w: Option<string>)
    ensures After(recorded, ws + [w]) == if w.Some? then w else After(recorded, ws)
    ensures Changes(recorded, ws + [w]) == Changes(recorded, ws) + if w.Some? && w != After(recorded, ws) then 1 else 0
  {
    assert (ws + [w])[..|ws|] == ws;
  }

  /** Declaring the recorded epoch over and over changes nothing. */
  lemma {:induction false} SameEpochNoChange(e: string, ws: seq<Option<string>>)
    requires forall i :: 0 <= i < |ws| ==> ws[i] == None || ws[i] == Some(e)
    ensures Changes(Some(e), ws) == 0 && After(Some(e), ws) == Some(e)
  {
    if ws != [] {
      var n := |ws| - 1;
      SameEpochNoChange(e, ws[..n]);
    }
  }

  // ----- keeping what an update does not produce -----

  predicate Kept(out: Output, prior: Output, k: string, isPlaceholder: string -> bool) {
    k in out.sensitive && out.sensitive[k] && k in prior.values && isPlaceholder(prior.values[k])
  }

  /**
   References to stored credentials and the recorded epoch are carried over; a carried reference is no
   longer sensitive, everything else is as it was.
   */
  method PreserveDatabaseState(out: Output, prior: Option<Output>, key: string, isPlaceholder: string -> bool)
    returns (r: Output)
    requires key !in out.sensitive
    ensures prior.None? ==> r == out
    ensures prior.Some? ==> forall k ::
              && (k in r.sensitive <==> k in out.sensitive && !Kept(out, prior.value, k, isPlaceholder))
              && (k in r.sensitive ==> r.sensitive[k] == out.sensitive[k])
    ensures prior.Some? ==> forall k ::
              Value(r.values, k) ==
              if Kept(out, prior.value, k, isPlaceholder) then Some(prior.value.values[k])
              else if k == key && k !in out.values then Recorded(prior, key)
              else Value(out.values, k)
  {
    r := out;
    if prior.None? {
      return;
    }
    var p := prior.value;
    if key !in out.values && key in p.values && TrimSpace(p.values[key]) != "" {
      r := r.(values := r.values[key := p.values[key]]);
    }
    ghost var base := r.values;
    var rest := out.sensitive.Keys;
    while rest != {}
      invariant rest <= out.sensitive.Keys
      invariant forall k :: k in r.sensitive <==> k in out.sensitive && (k in rest || !Kept(out, p, k, isPlaceholder))
      invariant forall k :: k in r.sensitive ==> r.sensitive[k] == out.sensitive[k]
      invariant forall k ::
                  Value(r.values, k) ==
                  if k !in rest && Kept(out, p, k, isPlaceholder) then Some(p.values[k]) else Value(base, k)
    {
      var k :| k in rest;
      if Kept(out, p, k, isPlaceholder) {
        r := Output(r.values[k := p.values[k]], r.sensitive - {k});
      }
      rest := rest - {k};
    }
  }

  /** The recorded epoch of a preserved output. */
  lemma PreservedEpoch(out: Output, prior: Option<Output>, key: string, r: Output)
    requires key !in out.sensitive && key !in r.sensitive
    requires prior.None? ==> r == out
    requires prior.Some? ==>
               Value(r.values, key) == if key !in out.values then Recorded(prior, key) else Value(out.values, key)
    ensures Recorded(Some(r), key) == if key in out.values then Recorded(Some(out), key) else Recorded(prior, key)
  {
  }

  // ----- the driver of database users -----

  const USER_KEY := "rotation_epoch"

  const USER_VALUES: set<string> := {"database_id", "username", "role", "host", "port", "database"}

  /** `valid` is whether id and username pass their syntax checks. */
  datatype UserConfig = UserConfig(valid: bool, databaseID: string, username: string, epoch: Option<string>)

  predicate TlsReady(db: Db, password: string) {
    db.connection.Some? && db.connection.value.sound && password != ""
  }

  /** A read that found the database, with a connection that credentials can be issued for. */
  predicate ReadySight(e: Event, id: string) {
    e.DbRead? && e.id == id && e.done && e.db.Some? && e.db.value.id == id && TlsReady(e.db.value, "preflight")
  }

  method ReadDatabaseParent(server: Databases, id: string) returns (db: Option<Db>, ghost ev: seq<Event>)
    modifies server`log
    ensures server.log == old(server.log) + ev && |ev| == 1 && ev[0].DbRead? && ev[0].id == id
    ensures db.Some? ==> db.value.id == id && ev[0].db == db && ev[0].done
    ensures db.None? ==> !ev[0].done || ev[0].db.None? || ev[0].db.value.id != id
  {
    var answer;
    answer, ev := server.Get(id);
    if answer.Lost? || answer.value.None? || answer.value.value.id != id {
      return None, ev;
    }
    db := answer.value;
  }

  /** The reset follows directly on a sight of the database and one of the user, in the same call. */
  ghost predicate UserResetChecked(ev: seq<Event>, k: nat)
    requires k < |ev| && ev[k].AuthReset?
  {
    && k >= 2 && ReadySight(ev[k - 2], ev[k].id)
    && ev[k - 1].UserRead? && ev[k - 1].done && ev[k - 1].id == ev[k].id && ev[k - 1].user == ev[k].user
    && ev[k - 1].account.Some? && ev[k - 1].account.value.name == ev[k].user
  }

  ghost predicate UserResetsChecked(ev: seq<Event>) {
    forall k :: 0 <= k < |ev| && ev[k].AuthReset? ==> UserResetChecked(ev, k)
  }

  lemma UserChecksConcat(a: seq<Event>, b: seq<Event>)
    requires UserResetsChecked(a) && UserResetsChecked(b)
    ensures UserResetsChecked(a + b)
  {
    hide ReadySight;
    forall k | 0 <= k < |a + b| && (a + b)[k].AuthReset? ensures UserResetChecked(a + b, k) {
      if k >= |a| {
        assert UserResetChecked(b, k - |a|);
      }
    }
  }

  /** What is printed of a user, with the credentials when the API has just returned them. */
  function UserOutput(username: string, db: Db, user: Option<User>, credentials: bool): (r: Option<Output>)
    ensures r.Some? ==> USER_KEY !in r.value.values && USER_KEY !in r.value.sensitive
  {
    if user.None? || user.value.name != username then None
    else if credentials && !TlsReady(db, user.value.password) then None
    else
      var plain := map k | k in db.values && k in USER_VALUES :: db.values[k];
      var password := user.value.password;
      var values := if credentials then plain["password" := password]["uri" := password] else plain;
      Some(Output(values, map["uri" := true, "password" := true]))
  }

  /** An answer with which the call goes on. */
  predicate UserGoes(e: Event) {
    match e
    case DbRead(id, _, _) => ReadySight(e, id)
    case UserRead(_, user, account, done) => done && account.Some? && account.value.name == user
    case AuthReset(_, user, issued, done) =>
      done && issued.Some? && issued.value.name == user && issued.value.password != ""
    case _ => e.done
  }

  predicate ReadableEpoch(out: Output, key: string) {
    !EpochOf(Value(out.values, key)).BadEpoch?
  }

  /** Every call of the trace could go on. */
  ghost predicate AllUserGo(ev: seq<Event>) {
    forall k :: 0 <= k < |ev| ==> UserGoes(ev[k])
  }

  lemma AllUserGoParts(a: seq<Event>, b: seq<Event>)
    ensures AllUserGo(a + b) ==> AllUserGo(a) && (b != [] ==> UserGoes(b[|b| - 1]))
  {
    hide UserGoes;
    var all := a + b;
    assert forall k :: 0 <= k < |a| ==> a[k] == all[k];
    assert b != [] ==> b[|b| - 1] == all[|all| - 1];
  }

  /** What an update accepts of its configuration. */
  predicate Acceptable(ref: Option<(string, string)>, config: UserConfig) {
    config.valid && ref == Some((config.databaseID, config.username)) && !EpochOf(config.epoch).BadEpoch?
  }

  /** What an update accepts before it asks the API anything. */
  predicate Accepts(ref: Option<(string, string)>, config: UserConfig, prior: Option<Output>, priorOk: bool) {
    && Acceptable(ref, config) && (prior.Some? ==> priorOk)
    && (EpochOf(config.epoch).Declared? ==> prior.Some? && ReadableEpoch(prior.value, USER_KEY))
  }

  class DatabaseUserDriver {
    const isPlaceholder: string -> bool

    method Create(server: Databases, config: UserConfig) returns (r: Option<Output>, ghost ev: seq<Event>)
      modifies server`log
      ensures server.log == old(server.log) + ev
      ensures r.Some? ==> config.valid && Recorded(r, USER_KEY) == Wanted(config.epoch)
      ensures forall k :: 0 <= k < |ev| && ev[k].UserCreated? ==>
                k == 1 == |ev| - 1 && config.valid && ReadySight(ev[0], config.databaseID) &&
                ev[k].id == config.databaseID && ev[k].user == config.username
      ensures r.Some? ==> |ev| == 2 && ev[1] == UserCreated(config.databaseID, config.username, true)
      ensures config.valid && !EpochOf(config.epoch).BadEpoch? ==>
                ev != [] && ev[0].DbRead? && (|ev| == 1 ==> !ReadySight(ev[0], config.databaseID))
    {
      ev := [];
      if !config.valid || EpochOf(config.epoch).BadEpoch? {
        return None, ev;
      }
      var db, user;
      ghost var more;
      db, ev := ReadDatabaseParent(server, config.databaseID);
      if db.None? || !TlsReady(db.value, "preflight") {
        return None, ev;
      }
      user, more := server.CreateUser(config.databaseID, config.username);
      ev := ev + more;
      if user.Lost? {
        return None, ev;
      }
      r := UserOutput(config.username, db.value, user.value, true);
      if r.Some? && config.epoch.Some? {
        r := Some(r.value.(values := r.value.values[USER_KEY := config.epoch.value]));
      }
    }

    method Read(server: Databases, id: string, username: string) returns (r: Option<Output>, ghost ev: seq<Event>)
      modifies server`log
      ensures server.log == old(server.log) + ev && (forall e :: e in ev ==> (e.DbRead? || e.UserRead?) && e.id == id)
      ensures r.Some? ==> AllDone(ev) && USER_KEY !in r.value.values && USER_KEY !in r.value.sensitive
      ensures r.None? ==> ev != [] && !UserGoes(ev[|ev| - 1])
    {
      var db, user;
      ghost var more;
      db, ev := ReadDatabaseParent(server, id);
      if db.None? {
        return None, ev;
      }
      user, more := server.GetUser(id, username);
      ev := ev + more;
      if user.Lost? {
        return None, ev;
      }
      r := UserOutput(username, db.value, user.value, false);
    }

    /** The checks and the reset for a new epoch. */
    method Rotate(server: Databases, id: string, username: string, epoch: string)
      returns (r: Option<Output>, ghost ev: seq<Event>)
      requires TrimSpace(epoch) != ""
      modifies server`log
      ensures server.log == old(server.log) + ev && UserResetsChecked(ev) && ResetsLast(ev) && Issues(r, ev)
      ensures forall e :: e in ev ==>
                (e.DbRead? || e.UserRead? || e.AuthReset?) && e.id == id && (e.AuthReset? ==> e.user == username)
      ensures r.Some? ==> AllDone(ev) && HasReset(ev) && Recorded(r, USER_KEY) == Some(epoch)
      ensures r.None? ==> ev != [] && !UserGoes(ev[|ev| - 1])
    {
      hide UserResetsChecked, ResetsLast, Issues, AllDone, HasReset, Recorded;
      r := None;
      var db, user;
      ghost var more, read, seen;
      db, read := ReadDatabaseParent(server, id);
      ev := read;
      NothingReset(ev);
      if db.None? || !TlsReady(db.value, "preflight") {
        return None, ev;
      }
      user, seen := server.GetUser(id, username);
      ev := read + seen;
      NothingReset(ev);
      if user.Lost? || user.value.None? || user.value.value.name != username {
        return None, ev;
      }
      user, more := server.ResetUserAuth(id, username);
      assert read + seen + more == [read[0], seen[0], more[0]];
      ev := [read[0], seen[0], more[0]];
      if user.Answered? {
        r := UserOutput(username, db.value, user.value, true);
      }
      ThreeSteps(read[0], seen[0], more[0], r);
      if r.Some? {
        r := Some(r.value.(values := r.value.values[USER_KEY := epoch]));
        ThreeSteps(read[0], seen[0], more[0], r);
        EpochRecorded(r.value, USER_KEY, epoch);
      }
    }

    /** `ref` is the parsed provider id; `priorOk` is what the validation of the prior state says. */
    method UpdateWithState(server: Databases, ref: Option<(string, string)>, config: UserConfig, prior: Option<Output>,
                           priorOk: bool)
      returns (r: Option<Output>, ghost ev: seq<Event>)
      modifies server`log
      ensures server.log == old(server.log) + ev
      ensures Rotates(Recorded(prior, USER_KEY), Wanted(config.epoch), r, USER_KEY, ev) && Issues(r, ev)
      ensures UserResetsChecked(ev)
      ensures HasReset(ev) || r.Some? ==> Accepts(ref, config, prior, priorOk)
      ensures r.Some? ==> ReadableEpoch(r.value, USER_KEY)
      ensures Accepts(ref, config, prior, priorOk) && r.None? ==> ev != [] && !UserGoes(ev[|ev| - 1])
      ensures forall e :: e in ev ==>
                (e.DbRead? || e.UserRead? || e.AuthReset?) && e.id == config.databaseID &&
                (e.AuthReset? ==> e.user == config.username)
    {
      hide UserResetsChecked, ResetsLast, Issues;
      ev := [];
      NothingReset(ev);
      var epoch := EpochOf(config.epoch);
      if !config.valid || epoch.BadEpoch? {
        return None, ev;
      }
      if (prior.Some? || epoch.Declared?) && (prior.None? || !priorOk) {
        return None, ev;
      }
      if ref.None? || ref.value.0 != config.databaseID || ref.value.1 != config.username {
        return None, ev;
      }
      var (id, username) := ref.value;
      if epoch.NoEpoch? || EpochOf(Value(prior.value.values, USER_KEY)) == epoch {
        var out;
        out, ev := Read(server, id, username);
        NothingReset(ev);
        if out.None? {
          return None, ev;
        }
        var values := out.value.values;
        var marked := if epoch.NoEpoch? then out.value else out.value.(values := values[USER_KEY := epoch.epoch]);
        var kept := PreserveDatabaseState(marked, prior, USER_KEY, isPlaceholder);
        PreservedEpoch(marked, prior, USER_KEY, kept);
        r := Some(kept);
        return;
      }
      if EpochOf(Value(prior.value.values, USER_KEY)).BadEpoch? {
        return None, ev;
      }
      r, ev := Rotate(server, id, username, epoch.epoch);
    }

    /** An update as a run sees it. */
    method NextUpdate(server: Databases, ref: Option<(string, string)>, config: UserConfig, last: Output, priorOk: bool)
      returns (r: Option<Output>, ghost ev: seq<Event>)
      modifies server`log
      ensures server.log == old(server.log) + ev && UserResetsChecked(ev)
      ensures Rotates(Recorded(Some(last), USER_KEY), Wanted(config.epoch), r, USER_KEY, ev)
      ensures forall e :: e in ev && e.AuthReset? ==> ref == Some((e.id, e.user))
      ensures r.Some? ==> priorOk && Acceptable(ref, config) && ReadableEpoch(r.value, USER_KEY)
      ensures r.None? && ReadableEpoch(last, USER_KEY) && priorOk && Acceptable(ref, config) ==>
                ev != [] && !UserGoes(ev[|ev| - 1])
    {
      hide Recorded, UserResetsChecked, Issues, UserGoes, ReadableEpoch;
      r, ev := UpdateWithState(server, ref, config, Some(last), priorOk);
      ResetMeansReset(ev, Recorded(Some(last), USER_KEY), Wanted(config.epoch), r, USER_KEY);
    }

    /**
     A run of updates, each given the last state that an update returned; `priorOks` is what the validation
     of the prior state says in each.
     */
    method RunUpdates(server: Databases, ref: Option<(string, string)>, configs: seq<UserConfig>, priorOks: seq<bool>,
                      first: Output)
      returns (failures: nat, last: Output, ghost ev: seq<Event>)
      requires |priorOks| == |configs|
      modifies server`log
      ensures server.log == old(server.log) + ev && Resets(ev) <= |configs| && UserResetsChecked(ev)
      ensures forall e :: e in ev && e.AuthReset? ==> ref == Some((e.id, e.user))
      ensures failures == 0 ==>
                var ws := seq(|configs|, i requires 0 <= i < |configs| => Wanted(configs[i].epoch));
                var start := Recorded(Some(first), USER_KEY);
                Resets(ev) == Changes(start, ws) && Recorded(Some(last), USER_KEY) == After(start, ws)
      ensures failures == 0 ==> forall i :: 0 <= i < |configs| ==> priorOks[i] && Acceptable(ref, configs[i])
      ensures ReadableEpoch(first, USER_KEY) && AllUserGo(ev) &&
              (forall i :: 0 <= i < |configs| ==> priorOks[i] && Acceptable(ref, configs[i])) ==>
                failures == 0
    {
      hide Rotates, Recorded, Wanted, Resets, Issues, HasReset, UserResetsChecked, UserGoes,
           AllUserGo, ReadableEpoch, Acceptable;
      failures, last, ev := 0, first, [];
      ghost var ws := seq(|configs|, i requires 0 <= i < |configs| => Wanted(configs[i].epoch));
      ghost var start := Recorded(Some(first), USER_KEY);
      NothingReset(ev);
      for i := 0 to |configs|
        invariant server.log == old(server.log) + ev && Resets(ev) <= i && UserResetsChecked(ev)
        invariant forall e :: e in ev && e.AuthReset? ==> ref == Some((e.id, e.user))
        invariant failures == 0 ==>
                    Resets(ev) == Changes(start, ws[..i]) && Recorded(Some(last), USER_KEY) == After(start, ws[..i])
        invariant failures == 0 ==> forall j :: 0 <= j < i ==> priorOks[j] && Acceptable(ref, configs[j])
        invariant ReadableEpoch(first, USER_KEY) ==> ReadableEpoch(last, USER_KEY)
        invariant ReadableEpoch(first, USER_KEY) && failures > 0 &&
                  (forall j :: 0 <= j < i ==> priorOks[j] && Acceptable(ref, configs[j])) ==>
                    !AllUserGo(ev)
      {
        var r;
        ghost var more;
        r, more := NextUpdate(server, ref, configs[i], last, priorOks[i]);
        RotatesCounts(Recorded(Some(last), USER_KEY), ws[i], r, USER_KEY, more);
        ResetsConcat(ev, more);
        UserChecksConcat(ev, more);
        AllUserGoParts(ev, more);
        ev := ev + more;
        OneMoreUpdate(start, ws[..i], ws[i]);
        assert ws[..i + 1] == ws[..i] + [ws[i]];
        if r.Some? {
          last := r.value;
        } else {
          failures := failures + 1;
        }
      }
      assert ws[..|configs|] == ws;
    }
  }

  lemma ThreeSteps(read: Event, seen: Event, reset: Event, r: Option<Output>)
    requires reset.AuthReset? && ReadySight(read, reset.id)
    requires seen.UserRead? && seen.done && seen.id == reset.id && seen.user == reset.user
    requires seen.account.Some? && seen.account.value.name == reset.user
    requires r.Some? ==> reset.done && reset.issued.Some? && reset.issued.value.name == reset.user
    requires r.Some? ==> Value(r.value.values, "password") == Some(reset.issued.value.password)
    ensures var ev := [read, seen, reset];
            UserResetsChecked(ev) && ResetsLast(ev) && HasReset(ev) && Issues(r, ev) && (r.Some? ==> AllDone(ev))
  {
  }

  lemma EpochRecorded(out: Output, key: string, epoch: string)
    requires key in out.values && out.values[key] == epoch && TrimSpace(epoch) != ""
    ensures Recorded(Some(out), key) == Some(epoch)
  {
  }

  lemma NothingReset(ev: seq<Event>)
    requires forall e :: e in ev ==> !e.AuthReset?
    ensures UserResetsChecked(ev) && ResetsLast(ev) && Resets(ev) == 0 && !HasReset(ev) && forall r :: Issues(r, ev)
  {
    assert forall k :: 0 <= k < |ev| ==> ev[k] in ev;
    NoResets(ev);
  }

  lemma ResetMeansReset(ev: seq<Event>, recorded: Option<string>, wanted: Option<string>, r: Option<Output>,
                        key: string)
    requires Rotates(recorded, wanted, r, key, ev)
    ensures (exists e :: e in ev && e.AuthReset?) ==> HasReset(ev)
  {
  }

  lemma RotatesCounts(recorded: Option<string>, wanted: Option<string>, r: Option<Output>, key: string, ev: seq<Event>)
    requires Rotates(recorded, wanted, r, key, ev)
    ensures Resets(ev) <= 1 && (Resets(ev) > 0 <==> HasReset(ev))
    ensures r.Some? ==> Recorded(r, key) == (if wanted.Some? then wanted else recorded)
    ensures r.Some? ==> Resets(ev) == if wanted.Some? && wanted != recorded then 1 else 0
  {
    ResetsAtEnd(ev);
  }
}
