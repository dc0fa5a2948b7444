/**
 One DNS zone of the DigitalOcean API that nobody else edits. A request may fail although it took
 effect; what is stored for a request may be spelled differently, but matches it.
 */
module DnsZone {
  import opened DnsRecords
  import opened Paging
  import opened Wrappers

  datatype Failure = AlreadyExists | Retryable | Refused

  datatype Outcome<+T> = Done(value: T) | Failed(kind: Failure)

  datatype Write = Created(req: Fields) | Edited(id: int, req: Fields) | Deleted(id: int)

  /** One record stored for the request, put in anywhere in the listing order. */
  ghost predicate Inserted(before: seq<Record>, after: seq<Record>, req: Fields) {
    exists i: nat, x: Record ::
      i <= |before| && Matches(x.f, req) && after == before[..i] + [x] + before[i..]
  }

  /** The record of that id rewritten in place. */
  ghost predicate Rewritten(before: seq<Record>, after: seq<Record>, id: int, req: Fields) {
    exists i: nat, x: Record ::
      i < |before| && before[i].id == id == x.id && Matches(x.f, req) && after == before[..i] + [x] + before[i + 1..]
  }

  ghost predicate Removed(before: seq<Record>, after: seq<Record>, id: int) {
    exists i: nat :: i < |before| && before[i].id == id && after == before[..i] + before[i + 1..]
  }

  /** The position of the record of that id, or the length when there is none. */
  function IndexOf(rs: seq<Record>, id: int): (i: nat)
    ensures i <= |rs|
    ensures i < |rs| ==> rs[i].id == id
    ensures i == |rs| ==> forall x :: x in rs ==> x.id != id
  {
    if rs == [] then 0
    else
      assert rs == [rs[0]] + rs[1..];
      if rs[0].id == id then 0 else 1 + IndexOf(rs[1..], id)
  }

  class Zone {
    /** Whether the API keeps the name of a CNAME letter by letter. */
    const verbatimNames: bool
    /** Whether every request is answered and nothing is cancelled. */
    const reliable: bool
    var records: seq<Record>
    ghost var log: seq<Write>

    ghost predicate Valid()
      reads this
    {
      DistinctIds(records)
    }

    /** Whether the caller's context has been cancelled. */
    method Interrupted() returns (b: bool)
      ensures reliable ==> !b
    {
      b := *;
      b := b && !reliable;
    }

    method Page(page: nat) returns (r: Outcome<(seq<Record>, bool)>)
      requires page > 0
      ensures r.Done? ==> r.value == (PageOf(records, page), |records| <= PER_PAGE * page)
      ensures reliable ==> r.Done?
    {
      var lost: bool := *;
      var kind: Failure := *;
      r := if lost && !reliable then Failed(kind) else Done((PageOf(records, page), |records| <= PER_PAGE * page));
    }

    method CreateRecord(req: Fields) returns (r: Outcome<()>)
      requires Valid()
      modifies this
      ensures Valid() && log == old(log) + [Created(req)]
      ensures r.Done? ==> Inserted(old(records), records, req)
      ensures r.Failed? ==> records == old(records) || Inserted(old(records), records, req)
      ensures verbatimNames ==> forall x :: x in records && x !in old(records) ==> x.f.name == req.name
      ensures reliable ==> r.Done?
    {
      hide Matches, Inserted, DistinctIds;
      log := log + [Created(req)];
      var lost: bool := *;
      var applied: bool := *;
      var kind: Failure := *;
      if lost && !applied && !reliable {
        return Failed(kind);
      }
      MatchesItself(req);
      var i: int := *;
      var x: Record := *;
      if i < 0 || i > |records| || !Matches(x.f, req) || (verbatimNames && x.f.name != req.name) {
        i, x := |records|, Record(0, req);
      }
      x := x.(id := FreshId(records));
      InsertFresh(records, i, x, req);
      records := records[..i] + [x] + records[i..];
      r := if lost && !reliable then Failed(kind) else Done(());
    }

    /** Rewrites a record; the answer may carry the stored record. */
    method EditRecord(id: int, req: Fields) returns (r: Outcome<Option<Record>>)
      requires Valid()
      modifies this
      ensures Valid() && log == old(log) + [Edited(id, req)]
      ensures r.Done? ==> Rewritten(old(records), records, id, req)
      ensures r.Failed? ==> records == old(records) || Rewritten(old(records), records, id, req)
      ensures r.Done? && r.value.Some? ==> r.value.value in records && r.value.value.id == id
      ensures verbatimNames ==> forall x :: x in records && x !in old(records) ==> x.f.name == req.name
      ensures reliable && (exists x :: x in old(records) && x.id == id) ==> r.Done?
    {
      hide Matches, Rewritten, DistinctIds;
      log := log + [Edited(id, req)];
      var i := IndexOf(records, id);
      var lost: bool := *;
      var applied: bool := *;
      var kind: Failure := *;
      if i == |records| {
        return Failed(Refused);
      }
      if lost && !applied && !reliable {
        return Failed(kind);
      }
      MatchesItself(req);
      var x: Record := *;
      if !Matches(x.f, req) || (verbatimNames && x.f.name != req.name) {
        x := Record(id, req);
      }
      x := x.(id := id);
      RewriteInPlace(records, i, x, req);
      records := records[..i] + [x] + records[i + 1..];
      var bare: bool := *;
      r := if lost && !reliable then Failed(kind) else if bare then Done(None) else Done(Some(x));
    }

    method DeleteRecord(id: int) returns (r: Outcome<()>)
      requires Valid()
      modifies this
      ensures Valid() && log == old(log) + [Deleted(id)]
      ensures r.Done? ==> Removed(old(records), records, id)
      ensures r.Failed? ==> records == old(records) || Removed(old(records), records, id)
      ensures reliable && (exists x :: x in old(records) && x.id == id) ==> r.Done?
    {
      log := log + [Deleted(id)];
      var i := IndexOf(records, id);
      var lost: bool := *;
      var applied: bool := *;
      var kind: Failure := *;
      if i == |records| {
        return Failed(Refused);
      }
      if lost && !applied && !reliable {
        return Failed(kind);
      }
      records := records[..i] + records[i + 1..];
      r := if lost && !reliable then Failed(kind) else Done(());
    }
  }

  lemma RemovedAt(before: seq<Record>, after: seq<Record>, i: nat)
    requires DistinctIds(before) && i < |before| && Removed(before, after, before[i].id)
    ensures after == before[..i] + before[i + 1..]
  {
  }

  lemma InsertFresh(rs: seq<Record>, i: nat, x: Record, req: Fields)
    requires i <= |rs| && Matches(x.f, req) && DistinctIds(rs) && forall y :: y in rs ==> y.id != x.id
    ensures Inserted(rs, rs[..i] + [x] + rs[i..], req) && DistinctIds(rs[..i] + [x] + rs[i..])
    ensures forall y :: y in rs[..i] + [x] + rs[i..] ==> y == x || y in rs
  {
    hide Matches;
  }

  lemma RewriteInPlace(rs: seq<Record>, i: nat, x: Record, req: Fields)
    requires i < |rs| && rs[i].id == x.id && Matches(x.f, req)
    ensures Rewritten(rs, rs[..i] + [x] + rs[i + 1..], x.id, req)
    ensures DistinctIds(rs) ==> DistinctIds(rs[..i] + [x] + rs[i + 1..])
    ensures forall y :: y in rs[..i] + [x] + rs[i + 1..] ==> y == x || y in rs
  {
    hide Matches;
  }

  function FreshId(rs: seq<Record>): (id: int)
    ensures forall x :: x in rs ==> x.id < id
  {
    if rs == [] then 1
    else
      var n := |rs| - 1;
      assert rs == rs[..n] + [rs[n]];
      var id := FreshId(rs[..n]);
      if rs[n].id < id then id else rs[n].id + 1
  }

  /** The page loop reads the whole listing, however many pages it has. */
  method ListRecords(zone: Zone) returns (r: Outcome<seq<Record>>)
    ensures r.Done? ==> r.value == zone.records
    ensures zone.reliable ==> r.Done?
  {
    var page: nat, out, done := 1, [], false;
    while !done
      invariant page > 0
      invariant out == if done then zone.records else Pages(zone.records, page - 1)
      decreases !done, |zone.records| - PER_PAGE * (page - 1)
    {
      var answer := zone.Page(page);
      if answer.Failed? {
        return Failed(answer.kind);
      }
      NextPage(zone.records, page);
      out := out + answer.value.0;
      done := answer.value.1;
      page := page + 1;
    }
    r := Done(out);
  }

  // ----- what a write changes, seen key by key -----

  /** After differs from before only in records of the request's key, and what is new matches it. */
  ghost predicate Touched(before: seq<Record>, after: seq<Record>, req: Fields) {
    && Others(after, UpsertKey(req)) == Others(before, UpsertKey(req))
    && forall x :: x in after ==> x in before || Matches(x.f, req)
  }

  lemma TouchedTransitive(a: seq<Record>, b: seq<Record>, c: seq<Record>, req: Fields)
    requires Touched(a, b, req) && Touched(b, c, req)
    ensures Touched(a, c, req)
  {
  }

  /** A touch of one key is invisible to any filter that only keeps records of other keys. */
  lemma TouchUnseen(before: seq<Record>, after: seq<Record>, req: Fields, p: Record -> bool)
    requires Touched(before, after, req)
    requires forall x :: p(x) ==> UpsertKey(x.f) != UpsertKey(req)
    ensures Keep(after, p) == Keep(before, p)
  {
    var wide := LacksKey(UpsertKey(req));
    KeepKeep(before, wide, p);
    KeepKeep(after, wide, p);
  }

  lemma InsertTouches(before: seq<Record>, after: seq<Record>, req: Fields)
    requires Inserted(before, after, req)
    ensures Touched(before, after, req)
    ensures OfKey(before, UpsertKey(req)) == [] ==> Satisfied(after, req)
  {
    hide Matches, UpsertKey, Keep;
    var i: nat, x: Record :| i <= |before| && Matches(x.f, req) && after == before[..i] + [x] + before[i..];
    var k := UpsertKey(req);
    assert UpsertKey(x.f) == k by {
      MatchKeepsKeys(x.f, req);
    }
    assert before == before[..i] + [] + before[i..];
    KeepSplice(before[..i], [x], before[i..], LacksKey(k));
    KeepSplice(before[..i], [], before[i..], LacksKey(k));
    KeepSplice(before[..i], [x], before[i..], HasKey(k));
    KeepSplice(before[..i], [], before[i..], HasKey(k));
  }

  /** The first live record of the request's upsert key says what the request asks. */
  predicate Satisfied(rs: seq<Record>, req: Fields) {
    var own := OfKey(rs, UpsertKey(req));
    own != [] && Matches(own[0].f, req)
  }

  lemma EditTouches(before: seq<Record>, after: seq<Record>, id: int, req: Fields)
    requires DistinctIds(before) && Rewritten(before, after, id, req)
    requires exists x :: x in before && x.id == id && UpsertKey(x.f) == UpsertKey(req)
    ensures Touched(before, after, req)
    ensures OfKey(before, UpsertKey(req))[0].id == id ==> Satisfied(after, req)
  {
    hide Matches, UpsertKey, Keep;
    var k := UpsertKey(req);
    var i: nat, x: Record :| i < |before| && before[i].id == id == x.id && Matches(x.f, req) &&
                             after == before[..i] + [x] + before[i + 1..];
    var y :| y in before && y.id == id && UpsertKey(y.f) == k;
    assert before[i] == y;
    MatchKeepsKeys(x.f, req);
    SpliceSeen(before, i, x, k);
    if OfKey(before, k)[0].id == id {
      FirstOfKey(before, i, k);
    }
  }

  /** Replacing a record by another of the same key, seen through that key and through the others. */
  lemma SpliceSeen(before: seq<Record>, i: nat, x: Record, k: Key)
    requires i < |before| && UpsertKey(before[i].f) == k == UpsertKey(x.f)
    ensures var after := before[..i] + [x] + before[i + 1..];
            && Others(after, k) == Others(before, k)
            && OfKey(after, k) == OfKey(before[..i], k) + [x] + OfKey(before[i + 1..], k)
            && OfKey(before, k) == OfKey(before[..i], k) + [before[i]] + OfKey(before[i + 1..], k)
  {
    hide UpsertKey, Keep;
    assert before == before[..i] + [before[i]] + before[i + 1..];
    KeepSplice(before[..i], [x], before[i + 1..], LacksKey(k));
    KeepSplice(before[..i], [before[i]], before[i + 1..], LacksKey(k));
    KeepSplice(before[..i], [x], before[i + 1..], HasKey(k));
    KeepSplice(before[..i], [before[i]], before[i + 1..], HasKey(k));
  }

  lemma FirstOfKey(rs: seq<Record>, i: nat, k: Key)
    requires DistinctIds(rs) && i < |rs| && UpsertKey(rs[i].f) == k
    ensures OfKey(rs, k) != []
    ensures OfKey(rs, k)[0].id == rs[i].id ==> OfKey(rs[..i], k) == []
  {
    hide UpsertKey;
    assert rs[i] in OfKey(rs, k);
    var j := FirstKept(rs, HasKey(k));
    if OfKey(rs, k)[0].id == rs[i].id {
      assert i == j;
    }
  }
}
