/** The DNS reconciliation of internal/drivers/dns.go: delete, then upsert, and the drift check. */
module DnsDriver {
  import opened DnsConfig
  import opened DnsRecords
  import opened DnsZone
  import opened Wrappers

  const ATTEMPTS: nat := 5

  // ----- what a run promises about a zone -----

  ghost function NotAbsent(absent: seq<Absent>): Record -> bool {
    (x: Record) => !AnyAbsent(absent, x.f)
  }

  /** The records that the declaration does not speak about. */
  ghost function Unmanaged(requests: seq<Fields>, absent: seq<Absent>): Record -> bool {
    (x: Record) => !AnyAbsent(absent, x.f) && forall q :: q in requests ==> UpsertKey(x.f) != UpsertKey(q)
  }

  ghost predicate NoneAbsent(rs: seq<Record>, absent: seq<Absent>) {
    forall x :: x in rs ==> !AnyAbsent(absent, x.f)
  }

  /** Nothing absent is present, and the first record of each declared key is as declared. */
  ghost predicate Converged(rs: seq<Record>, requests: seq<Fields>, absent: seq<Absent>) {
    && NoneAbsent(rs, absent)
    && forall q :: q in requests ==> Satisfied(rs, q)
  }

  predicate LiveClash(q: Fields, live: Fields) {
    CanonicalName(q.name) == CanonicalName(live.name) && (q.typ == "CNAME") != IsCname(live)
  }

  predicate LiveClashes(requests: seq<Fields>, rs: seq<Record>) {
    exists q, x | q in requests && x in rs :: LiveClash(q, x.f)
  }

  // ----- deleting -----

  method DeleteRecords(zone: Zone, absent: seq<Absent>) returns (ok: bool)
    requires zone.Valid()
    modifies zone
    ensures zone.Valid()
    ensures Keep(zone.records, NotAbsent(absent)) == Keep(old(zone.records), NotAbsent(absent))
    ensures forall x :: x in zone.records ==> x in old(zone.records)
    ensures ok ==> zone.records == Keep(old(zone.records), NotAbsent(absent)) && NoneAbsent(zone.records, absent)
    ensures NoneAbsent(old(zone.records), absent) ==> zone.records == old(zone.records) && zone.log == old(zone.log)
    ensures zone.reliable ==> ok
  {
    hide AnyAbsent, Keep, DistinctIds, NotAbsent, NoneAbsent;
    NothingAbsent(zone.records);
    if absent == [] {
      return true;
    }
    var listed := ListRecords(zone);
    if listed.Failed? {
      return false;
    }
    ok := DeleteAll(zone, absent, listed.value);
    NoneLeft(listed.value, absent);
  }

  method DeleteAll(zone: Zone, absent: seq<Absent>, existing: seq<Record>) returns (ok: bool)
    requires zone.Valid() && existing == zone.records
    modifies zone
    ensures zone.Valid() && Keep(zone.records, NotAbsent(absent)) == Keep(existing, NotAbsent(absent))
    ensures forall x :: x in zone.records ==> x in existing
    ensures ok ==> zone.records == Keep(existing, NotAbsent(absent))
    ensures NoneAbsent(existing, absent) ==> zone.records == existing && zone.log == old(zone.log)
    ensures zone.reliable ==> ok
  {
    hide AnyAbsent, AbsentMatches, Keep, DistinctIds, NotAbsent, NoneAbsent;
    ghost var p := NotAbsent(absent);
    KeepAll([], p);
    for i := 0 to |existing|
      invariant zone.Valid() && zone.records == Keep(existing[..i], p) + existing[i..]
      invariant NoneAbsent(existing, absent) ==> zone.records == existing && zone.log == old(zone.log)
    {
      AbsentExactly(existing, absent, i);
      if exists a | a in absent :: AbsentMatches(a, existing[i].f) {
        var done := DeleteListed(zone, existing, i, p);
        if !done {
          return false;
        }
      } else {
        PassOver(existing, i, p);
      }
    }
    assert existing[..|existing|] == existing;
    KeepKeep(existing, p, p);
    assert zone.records == Keep(existing, p);
    ok := true;
  }

  lemma PassOver(existing: seq<Record>, i: nat, p: Record -> bool)
    requires i < |existing| && p(existing[i])
    ensures Keep(existing[..i], p) + existing[i..] == Keep(existing[..i + 1], p) + existing[i + 1..]
  {
    hide Keep;
    PartlyKept(existing, i, p);
  }

  lemma AbsentExactly(rs: seq<Record>, absent: seq<Absent>, i: nat)
    requires i < |rs|
    ensures (exists a :: a in absent && AbsentMatches(a, rs[i].f)) <==> !NotAbsent(absent)(rs[i])
    ensures NoneAbsent(rs, absent) ==> NotAbsent(absent)(rs[i])
  {
    hide AbsentMatches;
  }

  lemma NoneLeft(rs: seq<Record>, absent: seq<Absent>)
    ensures NoneAbsent(Keep(rs, NotAbsent(absent)), absent)
  {
    hide AnyAbsent;
  }

  method DeleteListed(zone: Zone, existing: seq<Record>, i: nat, ghost p: Record -> bool) returns (ok: bool)
    requires zone.Valid() && i < |existing| && !p(existing[i])
    requires zone.records == Keep(existing[..i], p) + existing[i..]
    modifies zone
    ensures zone.Valid() && Keep(zone.records, p) == Keep(existing, p)
    ensures forall x :: x in zone.records ==> x in existing
    ensures ok ==> zone.records == Keep(existing[..i + 1], p) + existing[i + 1..]
    ensures zone.reliable ==> ok
  {
    hide Removed, Keep, DistinctIds;
    PartlyKept(existing, i, p);
    var stop := zone.Interrupted();
    if stop {
      return false;
    }
    ghost var before := zone.records;
    var answer := zone.DeleteRecord(existing[i].id);
    if zone.records != before || answer.Done? {
      RemovedAt(before, zone.records, |Keep(existing[..i], p)|);
    }
    ok := answer.Done?;
  }

  lemma NothingAbsent(rs: seq<Record>)
    ensures NoneAbsent(rs, []) && Keep(rs, NotAbsent([])) == rs
  {
    KeepAll(rs, NotAbsent([]));
  }

  /** Half-way through the deletion: what the next record adds, and what the whole still filters to. */
  lemma PartlyKept(existing: seq<Record>, i: nat, p: Record -> bool)
    requires i < |existing|
    ensures var now := Keep(existing[..i], p) + existing[i..];
            && Keep(now, p) == Keep(existing, p)
            && now[|Keep(existing[..i], p)|] == existing[i]
            && now[|Keep(existing[..i], p)| + 1..] == existing[i + 1..]
            && now[..|Keep(existing[..i], p)|] == Keep(existing[..i], p)
    ensures Keep(existing[..i + 1], p) == Keep(existing[..i], p) + if p(existing[i]) then [existing[i]] else []
    ensures Keep(Keep(existing[..i], p) + existing[i + 1..], p) ==
            Keep(existing[..i], p) + Keep(existing[i + 1..], p)
    ensures !p(existing[i]) ==> Keep(existing, p) == Keep(existing[..i], p) + Keep(existing[i + 1..], p)
    ensures [existing[i]] + existing[i + 1..] == existing[i..]
  {
    hide Keep;
    var head := Keep(existing[..i], p);
    KeepAll(head, p);
    KeepConcat(head, existing[i..], p);
    KeepConcat(head, existing[i + 1..], p);
    KeepConcat(existing[..i], existing[i..], p);
    assert existing[..i] + existing[i..] == existing;
    assert existing[..i + 1] == existing[..i] + [existing[i]];
    KeepConcat(existing[..i], [existing[i]], p);
    KeepOne(existing[i], p);
    assert [existing[i]] + existing[i + 1..] == existing[i..];
    KeepConcat([existing[i]], existing[i + 1..], p);
  }

  // ----- upserting -----

  method GroupByKey(rs: seq<Record>) returns (m: map<Key, seq<Record>>)
    ensures forall k :: At(m, k) == OfKey(rs, k)
  {
    hide UpsertKey;
    m := map[];
    for i := 0 to |rs|
      invariant GroupedByKey(m, rs[..i])
    {
      GroupOne(m, rs, i);
      var key := UpsertKey(rs[i].f);
      m := m[key := At(m, key) + [rs[i]]];
    }
    assert rs[..|rs|] == rs;
  }

  ghost predicate GroupedByKey(m: map<Key, seq<Record>>, rs: seq<Record>) {
    forall k :: At(m, k) == OfKey(rs, k)
  }

  lemma GroupOne(m: map<Key, seq<Record>>, rs: seq<Record>, i: nat)
    requires i < |rs| && GroupedByKey(m, rs[..i])
    ensures var key := UpsertKey(rs[i].f); GroupedByKey(m[key := At(m, key) + [rs[i]]], rs[..i + 1])
  {
    hide UpsertKey;
    assert rs[..i + 1][..i] == rs[..i];
    var key := UpsertKey(rs[i].f);
    var next := m[key := At(m, key) + [rs[i]]];
    forall k ensures At(next, k) == OfKey(rs[..i + 1], k) {
      assert At(m, k) == OfKey(rs[..i], k);
    }
  }

  /** After a refused create: look again, and take over a record of the same key. */
  method AfterCreateConflict(zone: Zone, req: Fields, kind: Failure) returns (r: Option<seq<Record>>)
    requires zone.Valid()
    modifies zone
    ensures zone.Valid() && Touched(old(zone.records), zone.records, req)
    ensures r.Some? ==>
              Satisfied(zone.records, req) && Others(r.value, UpsertKey(req)) == Others(zone.records, UpsertKey(req))
  {
    hide Matches, UpsertKey, Rewritten, Satisfied, Others, LiveClash;
    if kind != AlreadyExists {
      return None;
    }
    var key := UpsertKey(req);
    for attempt := 0 to ATTEMPTS
      invariant zone.Valid() && zone.records == old(zone.records)
    {
      var stop := zone.Interrupted();
      if stop {
        return None;
      }
      var listed := ListRecords(zone);
      if listed.Failed? {
        if listed.kind == Retryable && attempt < ATTEMPTS - 1 {
          stop := zone.Interrupted();
          if stop {
            return None;
          }
          continue;
        }
        return None;
      }
      var existing := listed.value;
      if LiveClashes([req], existing) {
        return None;
      }
      var i := FindKey(existing, key);
      if i < |existing| {
        r := TakeOver(zone, req, existing, i);
        return;
      }
      if attempt == ATTEMPTS - 1 {
        break;
      }
      stop := zone.Interrupted();
      if stop {
        return None;
      }
    }
    r := None;
  }

  method FindKey(rs: seq<Record>, key: Key) returns (i: nat)
    ensures i <= |rs| && OfKey(rs[..i], key) == []
    ensures i < |rs| ==> UpsertKey(rs[i].f) == key
  {
    hide UpsertKey;
    i := 0;
    while i < |rs| && UpsertKey(rs[i].f) != key
      invariant i <= |rs| && OfKey(rs[..i], key) == []
    {
      assert rs[..i + 1][..i] == rs[..i];
      i := i + 1;
    }
  }

  method TakeOver(zone: Zone, req: Fields, existing: seq<Record>, i: nat) returns (r: Option<seq<Record>>)
    requires zone.Valid() && existing == zone.records
    requires i < |existing| && UpsertKey(existing[i].f) == UpsertKey(req) && OfKey(existing[..i], UpsertKey(req)) == []
    modifies zone
    ensures zone.Valid() && Touched(old(zone.records), zone.records, req)
    ensures r.Some? ==>
              Satisfied(zone.records, req) && Others(r.value, UpsertKey(req)) == Others(zone.records, UpsertKey(req))
  {
    hide Matches, UpsertKey, Rewritten, Keep;
    SpliceSeen(existing, i, existing[i], UpsertKey(req));
    assert OfKey(existing, UpsertKey(req))[0] == existing[i];
    var record := existing[i];
    assert record in existing;
    if Matches(record.f, req) {
      return Some(existing);
    }
    var stop := zone.Interrupted();
    if stop {
      return None;
    }
    var answer := zone.EditRecord(record.id, req);
    if zone.records != existing {
      EditTouches(existing, zone.records, record.id, req);
    }
    if answer.Failed? {
      return None;
    }
    EditTouches(existing, zone.records, record.id, req);
    var now := if answer.value.Some? then answer.value.value else Record(record.id, req);
    assert UpsertKey(now.f) == UpsertKey(req) by {
      EditedKey(existing, zone.records, record, now, req);
    }
    SpliceSeen(existing, i, now, UpsertKey(req));
    r := Some(existing[..i] + [now] + existing[i + 1..]);
  }

  /** Whatever stands under the id after the edit carries the request's key. */
  lemma EditedKey(before: seq<Record>, after: seq<Record>, record: Record, now: Record, req: Fields)
    requires DistinctIds(before) && record in before && Rewritten(before, after, record.id, req)
    requires now == Record(record.id, req) || (now in after && now.id == record.id)
    ensures UpsertKey(now.f) == UpsertKey(req)
  {
    hide Matches, UpsertKey;
    var i: nat, x: Record :| i < |before| && before[i].id == record.id == x.id && Matches(x.f, req) &&
                             after == before[..i] + [x] + before[i + 1..];
    MatchKeepsKeys(x.f, req);
    OnlyThatId(before, i);
  }

  lemma OnlyThatId(rs: seq<Record>, i: nat)
    requires DistinctIds(rs) && i < |rs|
    ensures forall y :: y in rs[..i] + rs[i + 1..] ==> y.id != rs[i].id
  {
  }

  /** Declared requests have distinct upsert keys: a CNAME is alone under its name. */
  lemma KeysDistinct(requests: seq<Fields>)
    requires Declarable(requests)
    ensures forall i, j :: 0 <= i < j < |requests| ==> UpsertKey(requests[i]) != UpsertKey(requests[j])
  {
    forall i, j | 0 <= i < j < |requests| ensures UpsertKey(requests[i]) != UpsertKey(requests[j]) {
      KeysDiffer(requests[i], requests[j]);
    }
  }

  lemma KeysDiffer(f: Fields, g: Fields)
    requires Supported(f.typ) && Supported(g.typ) && Identity(f) != Identity(g) && !NameClash(f, g)
    ensures UpsertKey(f) != UpsertKey(g)
  {
    IdentityRefinesKey(f, g);
    SupportedUpper(f.typ);
    SupportedUpper(g.typ);
    if IsCname(f) && IsCname(g) {
      assert UpsertKey(f)[1] != UpsertKey(g)[1];
    }
  }

  /** Writing one declared request disturbs nothing else. */
  lemma OneRequest(before: seq<Record>, after: seq<Record>, requests: seq<Fields>, n: nat, absent: seq<Absent>)
    requires Declarable(requests) && Consistent(requests, absent) && n < |requests|
    requires Touched(before, after, requests[n])
    ensures forall j :: 0 <= j < |requests| && j != n ==>
              OfKey(after, UpsertKey(requests[j])) == OfKey(before, UpsertKey(requests[j]))
    ensures Keep(after, Unmanaged(requests, absent)) == Keep(before, Unmanaged(requests, absent))
    ensures NoneAbsent(before, absent) ==> NoneAbsent(after, absent)
    ensures !LiveClashes(requests, before) ==> !LiveClashes(requests, after)
  {
    hide UpsertKey, Matches, Identity, Supported, AbsentMatches, AnyAbsent, LiveClash, NameClash, Keep;
    KeysDistinct(requests);
    var q := requests[n];
    forall j | 0 <= j < |requests| && j != n
      ensures OfKey(after, UpsertKey(requests[j])) == OfKey(before, UpsertKey(requests[j]))
    {
      TouchUnseen(before, after, q, HasKey(UpsertKey(requests[j])));
    }
    TouchUnseen(before, after, q, Unmanaged(requests, absent));
    forall x | x in after && Matches(x.f, q)
      ensures !AnyAbsent(absent, x.f) && forall d :: d in requests ==> !LiveClash(d, x.f)
    {
      StoredIsWanted(x.f, q, absent);
      forall d | d in requests ensures !LiveClash(d, x.f) {
        var j :| 0 <= j < |requests| && requests[j] == d;
        StoredDoesNotClash(d, q, x.f);
      }
    }
  }

  lemma StoredIsWanted(live: Fields, q: Fields, absent: seq<Absent>)
    requires Matches(live, q) && !AnyAbsent(absent, q)
    ensures !AnyAbsent(absent, live)
  {
    hide Matches, AbsentMatches;
    forall a | a in absent ensures !AbsentMatches(a, live) {
      MatchKeepsAbsence(a, live, q);
    }
  }

  lemma StoredDoesNotClash(d: Fields, q: Fields, live: Fields)
    requires Supported(d.typ) && Supported(q.typ) && Matches(live, q)
    requires d == q || !NameClash(d, q) || !NameClash(q, d)
    ensures !LiveClash(d, live)
  {
    SameType(live.typ, q.typ);
    SupportedUpper(d.typ);
    SupportedUpper(q.typ);
  }

  method UpsertRecords(zone: Zone, requests: seq<Fields>, ghost absent: seq<Absent>) returns (ok: bool)
    requires zone.Valid() && Declarable(requests) && Consistent(requests, absent)
    modifies zone
    ensures zone.Valid()
    ensures Keep(zone.records, Unmanaged(requests, absent)) == Keep(old(zone.records), Unmanaged(requests, absent))
    ensures NoneAbsent(old(zone.records), absent) ==> NoneAbsent(zone.records, absent)
    ensures ok ==> forall q :: q in requests ==> Satisfied(zone.records, q)
    ensures ok ==> !LiveClashes(requests, zone.records)
    ensures (forall q :: q in requests ==> Satisfied(old(zone.records), q)) ==>
              zone.records == old(zone.records) && zone.log == old(zone.log)
    ensures zone.reliable ==> (ok <==> !LiveClashes(requests, old(zone.records)))
  {
    hide UpsertKey, Matches, AbsentMatches, AnyAbsent, LiveClash, Keep, LiveClashes, Unmanaged, NoneAbsent, Consistent,
         Inserted, Rewritten;
    if requests == [] {
      NoClashOfNone(zone.records);
      return true;
    }
    var listed := ListRecords(zone);
    if listed.Failed? {
      return false;
    }
    if LiveClashes(requests, listed.value) {
      return false;
    }
    var existing := GroupByKey(listed.value);
    var seen: set<Key> := {};
    KeysDistinct(requests);
    for i := 0 to |requests|
      invariant zone.Valid()
      invariant forall k :: k in seen <==> exists j :: 0 <= j < i && UpsertKey(requests[j]) == k
      invariant forall j :: i <= j < |requests| ==>
                  At(existing, UpsertKey(requests[j])) == OfKey(zone.records, UpsertKey(requests[j]))
      invariant forall j :: 0 <= j < i ==> Satisfied(zone.records, requests[j])
      invariant Keep(zone.records, Unmanaged(requests, absent)) == Keep(old(zone.records), Unmanaged(requests, absent))
      invariant NoneAbsent(old(zone.records), absent) ==> NoneAbsent(zone.records, absent)
      invariant !LiveClashes(requests, zone.records)
      invariant !LiveClashes(requests, old(zone.records))
      invariant (forall q :: q in requests ==> Satisfied(old(zone.records), q)) ==>
                  zone.records == old(zone.records) && zone.log == old(zone.log)
    {
      var req := requests[i];
      var key := UpsertKey(req);
      if key in seen {
        assert false;
        continue;
      }
      seen := seen + {key};
      assert req in requests;
      var done;
      done, existing := UpsertOne(zone, requests, i, absent, existing);
      if !done {
        return false;
      }
    }
    ok := true;
  }

  lemma NoClashOfNone(rs: seq<Record>)
    ensures !LiveClashes([], rs)
  {
  }

  /** One pass of the loop: keep, edit or create the record of one declared key. */
  method UpsertOne(zone: Zone, requests: seq<Fields>, i: nat, ghost absent: seq<Absent>, groups: map<Key, seq<Record>>)
    returns (ok: bool, existing: map<Key, seq<Record>>)
    requires zone.Valid() && Declarable(requests) && Consistent(requests, absent) && i < |requests|
    requires forall j :: i <= j < |requests| ==>
               At(groups, UpsertKey(requests[j])) == OfKey(zone.records, UpsertKey(requests[j]))
    modifies zone
    ensures zone.Valid()
    ensures ok ==> forall j :: i < j < |requests| ==>
              At(existing, UpsertKey(requests[j])) == OfKey(zone.records, UpsertKey(requests[j]))
    ensures ok ==> Satisfied(zone.records, requests[i])
    ensures forall j :: 0 <= j < |requests| && j != i ==>
              Satisfied(zone.records, requests[j]) == Satisfied(old(zone.records), requests[j])
    ensures Keep(zone.records, Unmanaged(requests, absent)) == Keep(old(zone.records), Unmanaged(requests, absent))
    ensures NoneAbsent(old(zone.records), absent) ==> NoneAbsent(zone.records, absent)
    ensures !LiveClashes(requests, old(zone.records)) ==> !LiveClashes(requests, zone.records)
    ensures Satisfied(old(zone.records), requests[i]) ==> zone.records == old(zone.records) && zone.log == old(zone.log)
    ensures zone.reliable ==> ok
  {
    hide UpsertKey, Matches, AbsentMatches, AnyAbsent, LiveClash, Keep, LiveClashes, Unmanaged, NoneAbsent, Consistent,
         Inserted, Rewritten, Identity, NameClash, Others;
    var req := requests[i];
    var key := UpsertKey(req);
    ghost var before := zone.records;
    KeysDistinct(requests);
    existing := groups;
    var candidates := At(groups, key);
    if candidates != [] {
      var first := candidates[0];
      existing := existing[key := candidates[1..]];
      ok := true;
      if !Matches(first.f, req) {
        ok := false;
        var stop := zone.Interrupted();
        if !stop {
          FirstListed(before, key);
          var answer := zone.EditRecord(first.id, req);
          if zone.records != before || answer.Done? {
            EditTouches(before, zone.records, first.id, req);
          }
          ok := answer.Done?;
        }
      }
    } else {
      ok := false;
      var stop := zone.Interrupted();
      if !stop {
        ok, existing := CreateOrTakeOver(zone, req, groups);
      }
    }
    assert Touched(before, zone.records, req);
    OneRequest(before, zone.records, requests, i, absent);
  }

  lemma FirstListed(rs: seq<Record>, key: Key)
    requires OfKey(rs, key) != []
    ensures OfKey(rs, key)[0] in rs && UpsertKey(OfKey(rs, key)[0].f) == key
  {
    hide UpsertKey;
    assert OfKey(rs, key)[0] in OfKey(rs, key);
  }

  method CreateOrTakeOver(zone: Zone, req: Fields, groups: map<Key, seq<Record>>)
    returns (ok: bool, existing: map<Key, seq<Record>>)
    requires zone.Valid() && OfKey(zone.records, UpsertKey(req)) == []
    modifies zone
    ensures zone.Valid() && Touched(old(zone.records), zone.records, req)
    ensures ok ==> Satisfied(zone.records, req)
    ensures zone.reliable ==> ok
    ensures ok ==> existing == groups || forall k :: k != UpsertKey(req) ==> At(existing, k) == OfKey(zone.records, k)
  {
    hide UpsertKey, Matches, Keep, Inserted;
    ghost var before := zone.records;
    existing := groups;
    var answer := zone.CreateRecord(req);
    if zone.records != before || answer.Done? {
      InsertTouches(before, zone.records, req);
    }
    if answer.Done? {
      return true, existing;
    }
    ghost var created := zone.records;
    var latest := AfterCreateConflict(zone, req, answer.kind);
    TouchedTransitive(before, created, zone.records, req);
    if latest.None? {
      return false, existing;
    }
    existing := GroupByKey(latest.value);
    ok := true;
    ghost var wide := LacksKey(UpsertKey(req));
    forall k | k != UpsertKey(req) ensures OfKey(latest.value, k) == OfKey(zone.records, k) {
      KeepKeep(latest.value, wide, HasKey(k));
      KeepKeep(zone.records, wide, HasKey(k));
    }
  }
}
