/** The CNAME that points an App Platform domain at its app: reconcileAppDomainCNAME. */
module AppCname {
  import opened DnsRecords
  import opened DnsZone
  import opened Text

  function Trimmed(data: string): string {
    TrimSuffix(TrimSpace(data), ".")
  }

  /** Whether two targets name the same host. */
  predicate DataEqual(a: string, b: string) {
    EqualFold(Trimmed(a), Trimmed(b))
  }

  function Wanted(name: string, target: string): Fields {
    Fields("CNAME", name, target, 1800, 0, 0, 0, 0, "")
  }

  /** The CNAMEs of exactly this name; the reconciler compares names letter by letter. */
  function Own(name: string): Record -> bool {
    (x: Record) => IsCname(x.f) && x.f.name == name
  }

  function Rest(name: string): Record -> bool {
    (x: Record) => !(IsCname(x.f) && x.f.name == name)
  }

  /**
   A target that every spelling the API may store for it is recognised as: unless its host ends in white
   space, or is nothing but white space.
   */
  predicate Clean(target: string) {
    var host := CanonicalData("CNAME", target);
    host == "" || !IsSpace(host[|host| - 1]) || TrimSpace(host) == ""
  }

  /** Exactly one CNAME of the name, and it points at the target. */
  predicate Correct(rs: seq<Record>, name: string, target: string) {
    var own := Keep(rs, Own(name));
    |own| == 1 && DataEqual(own[0].f.data, target)
  }

  /** The position of the first record that passes, or 0 when there is none. */
  function FirstOf(rs: seq<Record>, p: Record -> bool): (c: nat)
    requires rs != []
    ensures c < |rs|
    ensures forall j :: 0 <= j < c ==> !p(rs[j])
    ensures p(rs[c]) || (c == 0 && forall x :: x in rs ==> !p(x))
  {
    if |rs| == 1 || p(rs[0]) then 0
    else
      var c := FirstOf(rs[1..], p);
      if p(rs[1..][c]) then c + 1 else 0
  }

  /** The position of the first record with the target, or 0 when there is none. */
  function Chosen(own: seq<Record>, target: string): (c: nat)
    requires own != []
    ensures c < |own|
    ensures forall j :: 0 <= j < c ==> !DataEqual(own[j].f.data, target)
    ensures DataEqual(own[c].f.data, target) || (c == 0 && forall x :: x in own ==> !DataEqual(x.f.data, target))
  {
    FirstOf(own, (x: Record) => DataEqual(x.f.data, target))
  }

  lemma {:induction false} KeepDistinct(rs: seq<Record>, p: Record -> bool)
    requires DistinctIds(rs)
    ensures DistinctIds(Keep(rs, p))
  {
    if rs != [] {
      var n := |rs| - 1;
      KeepDistinct(rs[..n], p);
      forall x | x in Keep(rs[..n], p) ensures x.id != rs[n].id {
        var i :| 0 <= i < n && rs[..n][i] == x;
        assert rs[i].id != rs[n].id;
      }
    }
  }

  /** Where a record stands among those of its name. */
  lemma Position(rs: seq<Record>, i: nat, p: Record -> bool, k: nat)
    requires DistinctIds(rs) && i < |rs| && p(rs[i])
    requires k < |Keep(rs, p)| && Keep(rs, p)[k].id == rs[i].id
    ensures Keep(rs[..i], p) == Keep(rs, p)[..k] && Keep(rs[i + 1..], p) == Keep(rs, p)[k + 1..]
    ensures Keep(rs, p)[k] == rs[i]
  {
    hide Keep;
    assert rs == rs[..i] + [rs[i]] + rs[i + 1..];
    KeepSplice(rs[..i], [rs[i]], rs[i + 1..], p);
    KeepDistinct(rs, p);
    assert Keep(rs, p)[|Keep(rs[..i], p)|] == rs[i];
    assert |Keep(rs[..i], p)| == k;
  }

  /** A record's place in the whole listing. */
  lemma PlaceOf(rs: seq<Record>, p: Record -> bool, k: nat) returns (i: nat)
    requires k < |Keep(rs, p)|
    ensures i < |rs| && rs[i] == Keep(rs, p)[k] && p(rs[i])
  {
    hide Keep;
    assert Keep(rs, p)[k] in Keep(rs, p);
    i :| i < |rs| && rs[i] == Keep(rs, p)[k];
  }

  // ----- the records of the name, followed by id -----

  function Ids(rs: seq<Record>): set<int> {
    set x | x in rs :: x.id
  }

  /** The records that were there under another name or type. */
  function Theirs(ids: set<int>): Record -> bool {
    (x: Record) => x.id in ids
  }

  function Mine(ids: set<int>): Record -> bool {
    (x: Record) => x.id !in ids
  }

  lemma {:induction false} SameKept(rs: seq<Record>, p: Record -> bool, q: Record -> bool)
    requires forall x :: x in rs ==> p(x) == q(x)
    ensures Keep(rs, p) == Keep(rs, q)
  {
    if rs != [] {
      var n := |rs| - 1;
      assert rs == rs[..n] + [rs[n]];
      SameKept(rs[..n], p, q);
    }
  }

  /** At the start, following by id is following by name. */
  lemma ByIdAtFirst(rs: seq<Record>, name: string)
    requires DistinctIds(rs)
    ensures var ids := Ids(Keep(rs, Rest(name)));
            Keep(rs, Theirs(ids)) == Keep(rs, Rest(name)) && Keep(rs, Mine(ids)) == Keep(rs, Own(name))
  {
    hide Keep, IsCname;
    var ids := Ids(Keep(rs, Rest(name)));
    forall x | x in rs ensures Theirs(ids)(x) == Rest(name)(x) {
      if x.id in ids {
        var y :| y in Keep(rs, Rest(name)) && y.id == x.id;
        var i :| 0 <= i < |rs| && rs[i] == x;
        var j :| 0 <= j < |rs| && rs[j] == y;
        assert i == j;
      }
    }
    SameKept(rs, Theirs(ids), Rest(name));
    SameKept(rs, Mine(ids), Own(name));
  }

  /** At the end it is again, when all of mine carry the name and all of theirs do not. */
  lemma ByIdAtLast(rs: seq<Record>, name: string, ids: set<int>)
    requires forall x :: x in Keep(rs, Mine(ids)) ==> Own(name)(x)
    requires forall x :: x in Keep(rs, Theirs(ids)) ==> Rest(name)(x)
    ensures Keep(rs, Rest(name)) == Keep(rs, Theirs(ids)) && Keep(rs, Own(name)) == Keep(rs, Mine(ids))
  {
    hide Keep, IsCname;
    forall x | x in rs ensures Theirs(ids)(x) == Rest(name)(x) && Mine(ids)(x) == Own(name)(x) {
      if x.id in ids {
        assert x in Keep(rs, Theirs(ids));
      } else {
        assert x in Keep(rs, Mine(ids));
      }
    }
    SameKept(rs, Theirs(ids), Rest(name));
    SameKept(rs, Mine(ids), Own(name));
  }

  /** Deleting the k-th of mine leaves my others, and all of theirs. */
  lemma DeleteSeen(before: seq<Record>, after: seq<Record>, ids: set<int>, k: nat)
    requires DistinctIds(before) && k < |Keep(before, Mine(ids))|
    requires Removed(before, after, Keep(before, Mine(ids))[k].id)
    ensures var mine := Keep(before, Mine(ids)); Keep(after, Mine(ids)) == mine[..k] + mine[k + 1..]
    ensures Keep(after, Theirs(ids)) == Keep(before, Theirs(ids))
  {
    hide Keep, Removed, DistinctIds;
    var p := Mine(ids);
    var i := PlaceOf(before, p, k);
    RemovedAt(before, after, i);
    assert after == before[..i] + [] + before[i + 1..];
    assert before == before[..i] + [before[i]] + before[i + 1..];
    Position(before, i, p, k);
    KeepSplice(before[..i], [], before[i + 1..], p);
    KeepSplice(before[..i], [], before[i + 1..], Theirs(ids));
    KeepSplice(before[..i], [before[i]], before[i + 1..], Theirs(ids));
  }

  /** Editing the k-th of mine replaces it by one of the same id that says what was asked. */
  lemma EditSeen(before: seq<Record>, after: seq<Record>, ids: set<int>, req: Fields, k: nat) returns (x: Record)
    requires DistinctIds(before) && k < |Keep(before, Mine(ids))|
    requires Rewritten(before, after, Keep(before, Mine(ids))[k].id, req)
    ensures var mine := Keep(before, Mine(ids));
            Keep(after, Mine(ids)) == mine[..k] + [x] + mine[k + 1..] && x.id == mine[k].id && Matches(x.f, req)
    ensures Keep(after, Theirs(ids)) == Keep(before, Theirs(ids))
    ensures x in after && (x in before ==> x == Keep(before, Mine(ids))[k])
  {
    hide Keep, Matches;
    var p, mine := Mine(ids), Keep(before, Mine(ids));
    var i: nat, y: Record :| i < |before| && before[i].id == mine[k].id == y.id && Matches(y.f, req) &&
                             after == before[..i] + [y] + before[i + 1..];
    x := y;
    var j := PlaceOf(before, p, k);
    assert i == j;
    assert before == before[..i] + [before[i]] + before[i + 1..];
    assert after[i] == x;
    Position(before, i, p, k);
    KeepSplice(before[..i], [x], before[i + 1..], p);
    KeepSplice(before[..i], [x], before[i + 1..], Theirs(ids));
    KeepSplice(before[..i], [before[i]], before[i + 1..], Theirs(ids));
  }

  // ----- what the API may store for the target -----

  lemma HostedCname()
    ensures Hosted("CNAME")
  {
    assert ToUpper("CNAME") == "CNAME";
  }

  lemma SpaceFolds(c: char)
    ensures IsSpace(LowerChar(c)) == IsSpace(c)
  {
  }

  /** Trimming at the left commutes with folding. */
  lemma {:induction false} TrimLeftFolds(s: string)
    ensures ToLower(TrimLeft(s)) == TrimLeft(ToLower(s))
  {
    if s != [] {
      SpaceFolds(s[0]);
      assert ToLower(s)[0] == LowerChar(s[0]);
      assert ToLower(s)[1..] == ToLower(s[1..]);
      TrimLeftFolds(s[1..]);
    }
  }

  lemma {:induction false} TrimLeftAppend(s: string, c: char)
    requires !IsSpace(c)
    ensures TrimLeft(s + [c]) == TrimLeft(s) + [c]
  {
    if s != [] && IsSpace(s[0]) {
      assert (s + [c])[1..] == s[1..] + [c];
      TrimLeftAppend(s[1..], c);
    } else if s != [] {
      assert (s + [c])[0] == s[0];
    }
  }

  lemma {:induction false} TrimLeftEnd(s: string)
    ensures TrimLeft(s) != "" ==> s != "" && TrimLeft(s)[|TrimLeft(s)| - 1] == s[|s| - 1]
    ensures s != "" && !IsSpace(s[|s| - 1]) ==> TrimLeft(s) != ""
  {
    if s != "" && IsSpace(s[0]) {
      TrimLeftEnd(s[1..]);
    }
  }

  /** What is compared of a target that is stored with the final dot. */
  lemma TrimmedDotted(t: string)
    ensures Trimmed(t + ".") == TrimLeft(t)
  {
    hide IsSpace;
    assert !IsSpace('.') by { DotIsNoSpace(); }
    TrimLeftAppend(t, '.');
    var s := TrimLeft(t + ".");
    assert s[|s| - 1] == '.' && TrimRight(s) == s;
    assert s[..|s| - 1] == TrimLeft(t) && s[|s| - 1..] == ".";
  }

  lemma DotIsNoSpace()
    ensures !IsSpace('.')
  {
  }

  /** What is compared of a target that is stored without it. */
  lemma TrimmedBare(t: string)
    requires TrimSuffix(t, ".") == t
    ensures t == "" || !IsSpace(t[|t| - 1]) ==> Trimmed(t) == TrimLeft(t)
    ensures TrimLeft(t) == "" ==> Trimmed(t) == ""
  {
    hide IsSpace;
    TrimLeftEnd(t);
    var s := TrimLeft(t);
    if s != "" && !IsSpace(t[|t| - 1]) {
      assert TrimRight(s) == s;
      assert t[|t| - 1..] == [t[|t| - 1]] && s[|s| - 1..] == [s[|s| - 1]];
    }
  }

  /** Every spelling of the target is recognised exactly when the target is clean. */
  lemma SpellingsExactly(target: string)
    ensures (forall d :: CanonicalData("CNAME", d) == CanonicalData("CNAME", target) ==> DataEqual(d, target)) <==>
              Clean(target)
  {
    hide TrimSpace, IsSpace;
    HostedCname();
    var host := CanonicalData("CNAME", target);
    if Clean(target) {
      forall d | CanonicalData("CNAME", d) == host ensures DataEqual(d, target) {
        CleanTrimmed(d, host);
        CleanTrimmed(target, host);
      }
    } else {
      UncleanSpellings(target, host);
    }
  }

  lemma CleanTrimmed(d: string, host: string)
    requires ToLower(TrimSuffix(d, ".")) == host
    requires host == "" || !IsSpace(host[|host| - 1]) || TrimSpace(host) == ""
    ensures ToLower(Trimmed(d)) == TrimLeft(host)
  {
    hide IsSpace, TrimLeft, TrimRight;
    var t := TrimSuffix(d, ".");
    if d == t {
      TrimmedBare(t);
    } else {
      assert d == t + ".";
      TrimmedDotted(t);
    }
    TrimLeftFolds(t);
    TrimLeftEnd(t);
    TrimLeftEnd(host);
    if t != "" {
      SpaceFolds(t[|t| - 1]);
      assert host[|host| - 1] == LowerChar(t[|t| - 1]);
    }
    if TrimSpace(host) == "" {
      AllSpace(host);
    }
  }

  lemma AllSpace(s: string)
    requires TrimSpace(s) == ""
    ensures TrimLeft(s) == ""
  {
    var t := TrimLeft(s);
    if t != "" {
      TrimLeftStart(s);
      TrimRightKeeps(t);
    }
  }

  lemma {:induction false} TrimLeftStart(s: string)
    ensures TrimLeft(s) != "" ==> !IsSpace(TrimLeft(s)[0])
  {
    if s != "" && IsSpace(s[0]) {
      TrimLeftStart(s[1..]);
    }
  }

  lemma {:induction false} TrimRightKeeps(s: string)
    requires s != "" && !IsSpace(s[0])
    ensures TrimRight(s) != ""
  {
    if IsSpace(s[|s| - 1]) {
      TrimRightKeeps(s[..|s| - 1]);
    }
  }

  /** A host that ends in white space compares differently with and without the final dot. */
  lemma UncleanSpellings(target: string, host: string)
    requires host == ToLower(TrimSuffix(target, ".")) && host != "" && IsSpace(host[|host| - 1]) &&
             TrimSpace(host) != ""
    ensures exists d :: CanonicalData("CNAME", d) == host && !DataEqual(d, target)
  {
    hide CanonicalData, DataEqual, Trimmed, TrimSpace;
    var bare, dotted := host, host + ".";
    assert host[|host| - 1] != '.';
    BareAndDotted(target, host);
    DottedIsLonger(host);
    assert DataEqual(bare, target) ==> |Trimmed(bare)| == |Trimmed(target)| by { EqualLengths(bare, target); }
    assert DataEqual(dotted, target) ==> |Trimmed(dotted)| == |Trimmed(target)| by { EqualLengths(dotted, target); }
  }

  lemma BareAndDotted(target: string, host: string)
    requires host == ToLower(TrimSuffix(target, ".")) && host != "" && host[|host| - 1] != '.'
    ensures CanonicalData("CNAME", host) == host && CanonicalData("CNAME", host + ".") == host
  {
    HostedCname();
    LowerTwice(TrimSuffix(target, "."));
    var dotted := host + ".";
    assert host[|host| - 1..] == [host[|host| - 1]];
    assert dotted[|dotted| - 1..] == "." && dotted[..|dotted| - 1] == host;
  }

  lemma DottedIsLonger(host: string)
    requires host != "" && IsSpace(host[|host| - 1]) && TrimSpace(host) != ""
    ensures |Trimmed(host)| < |Trimmed(host + ".")|
  {
    var dotted := host + ".";
    assert host[|host| - 1..] == [host[|host| - 1]];
    assert dotted[|dotted| - 1..] == "." && dotted[..|dotted| - 1] == host;
    TrimmedDotted(host);
    TrimLeftEnd(host);
    var left := TrimLeft(host);
    assert left != "" by {
      assert TrimRight("") == "";
    }
    TrimRightShortens(left[..|left| - 1]);
    assert |TrimRight(left)| < |left|;
  }

  lemma EqualLengths(a: string, b: string)
    ensures DataEqual(a, b) ==> |Trimmed(a)| == |Trimmed(b)|
  {
    assert |ToLower(Trimmed(a))| == |Trimmed(a)| && |ToLower(Trimmed(b))| == |Trimmed(b)|;
  }

  // ----- the reconciler -----

  /** A record that says what was asked, as the API may spell it. */
  predicate AsAsked(f: Fields, name: string, target: string) {
    Matches(f, Wanted(name, target)) || (IsCname(f) && f.name == name && DataEqual(f.data, target))
  }

  lemma AskedIsTarget(f: Fields, name: string, target: string)
    requires AsAsked(f, name, target)
    ensures IsCname(f) && (Clean(target) ==> DataEqual(f.data, target))
  {
    hide DataEqual, Clean;
    HostedCname();
    if Matches(f, Wanted(name, target)) {
      SameType(f.typ, "CNAME");
      SpellingsExactly(target);
    }
  }

  /**
   What holds of the zone on every exit: the records of other names keep id, content and order, and when
   the call succeeded just one other record is left, which says what was asked.
   */
  ghost predicate Reconciled(before: seq<Record>, after: seq<Record>, name: string, target: string, ok: bool) {
    var ids := Ids(Keep(before, Rest(name)));
    && Keep(after, Theirs(ids)) == Keep(before, Rest(name))
    && (forall x :: x in Keep(after, Mine(ids)) ==> (x in before && Own(name)(x)) || Matches(x.f, Wanted(name, target)))
    && (ok ==> var mine := Keep(after, Mine(ids)); |mine| == 1 && AsAsked(mine[0].f, name, target))
  }

  /**
   With names kept letter by letter, success leaves exactly one CNAME of the name, at the target when every
   spelling of it is recognised, and all other records as they were.
   */
  lemma ReconciledByName(before: seq<Record>, after: seq<Record>, name: string, target: string, ok: bool)
    requires Reconciled(before, after, name, target, ok)
    requires forall x :: x in after && x !in before ==> x.f.name == name
    ensures Keep(after, Rest(name)) == Keep(before, Rest(name))
    ensures ok && Clean(target) ==> Correct(after, name, target)
  {
    hide Keep, IsCname, Matches, AsAsked, DataEqual, Clean;
    var ids := Ids(Keep(before, Rest(name)));
    forall x | x in before && !Own(name)(x) ensures x.id in ids {
      assert x in Keep(before, Rest(name));
    }
    forall x | x in Keep(after, Mine(ids)) ensures Own(name)(x) {
      if !(x in before && Own(name)(x)) {
        MatchIsAsked(x.f, name, target);
        AskedIsTarget(x.f, name, target);
      }
    }
    ByIdAtLast(after, name, ids);
    if ok {
      AskedIsTarget(Keep(after, Mine(ids))[0].f, name, target);
    }
  }

  method ReconcileCname(zone: Zone, name: string, target: string) returns (ok: bool)
    requires zone.Valid()
    modifies zone
    ensures zone.Valid() && Reconciled(old(zone.records), zone.records, name, target, ok)
    ensures zone.verbatimNames ==> Keep(zone.records, Rest(name)) == Keep(old(zone.records), Rest(name))
    ensures zone.verbatimNames && ok && Clean(target) ==> Correct(zone.records, name, target)
    ensures var own := Keep(old(zone.records), Own(name));
            own != [] ==> exists x :: x in zone.records && x.id == own[Chosen(own, target)].id
    ensures Correct(old(zone.records), name, target) ==> zone.records == old(zone.records) && zone.log == old(zone.log)
    ensures zone.reliable ==> ok
  {
    hide IsCname, DataEqual, Keep, Clean, Rest, Own, DistinctIds, AsAsked, Reconciled, Theirs, Mine, Ids;
    ghost var before := zone.records;
    var listed := ListRecords(zone);
    if listed.Failed? {
      ChosenThere(before, name, target);
      NothingDone(before, name, target);
      return false;
    }
    var matching := Keep(listed.value, Own(name));
    ByIdAtFirst(before, name);
    if matching == [] {
      ok := CreateCname(zone, name, target);
    } else {
      var hasTarget := false;
      var j := 0;
      while j < |matching| && !hasTarget
        invariant j <= |matching|
        invariant hasTarget <==> exists k :: 0 <= k < j && DataEqual(matching[k].f.data, target)
      {
        hasTarget := DataEqual(matching[j].f.data, target);
        j := j + 1;
      }
      ok := DropOthers(zone, name, target, matching, hasTarget, Ids(Keep(before, Rest(name))));
    }
    if zone.verbatimNames {
      ReconciledByName(before, zone.records, name, target, ok);
    }
  }

  method CreateCname(zone: Zone, name: string, target: string) returns (ok: bool)
    requires zone.Valid() && Keep(zone.records, Own(name)) == []
    modifies zone
    ensures zone.Valid() && Reconciled(old(zone.records), zone.records, name, target, ok)
    ensures zone.verbatimNames ==> forall x :: x in zone.records && x !in old(zone.records) ==> x.f.name == name
    ensures zone.reliable ==> ok
  {
    hide IsCname, DataEqual, Keep, Matches, DistinctIds, Reconciled, Inserted, AsAsked;
    ghost var before := zone.records;
    NothingDone(before, name, target);
    var answer := zone.CreateRecord(Wanted(name, target));
    ok := answer.Done?;
    if zone.records != before || ok {
      InsertSeen(before, zone.records, name, target);
      StillReconciled(before, zone.records, name, target, ok);
    }
  }

  lemma StillReconciled(before: seq<Record>, after: seq<Record>, name: string, target: string, ok: bool)
    requires Reconciled(before, after, name, target, true)
    ensures Reconciled(before, after, name, target, ok)
  {
  }

  lemma InsertSeen(before: seq<Record>, after: seq<Record>, name: string, target: string)
    requires DistinctIds(before) && DistinctIds(after) && Inserted(before, after, Wanted(name, target))
    requires Keep(before, Own(name)) == []
    ensures Reconciled(before, after, name, target, true)
  {
    hide Keep, IsCname, Matches, DataEqual;
    var ids := Ids(Keep(before, Rest(name)));
    ByIdAtFirst(before, name);
    var i: nat, x: Record :| i <= |before| && Matches(x.f, Wanted(name, target)) &&
                             after == before[..i] + [x] + before[i..];
    NotThere(before, i, x);
    assert x.id !in ids;
    assert before == before[..i] + [] + before[i..];
    KeepSplice(before[..i], [x], before[i..], Mine(ids));
    KeepSplice(before[..i], [], before[i..], Mine(ids));
    KeepSplice(before[..i], [x], before[i..], Theirs(ids));
    KeepSplice(before[..i], [], before[i..], Theirs(ids));
    assert Keep(after, Mine(ids)) == [x];
  }

  lemma NotThere(before: seq<Record>, i: nat, x: Record)
    requires i <= |before| && DistinctIds(before[..i] + [x] + before[i..])
    ensures forall y :: y in before ==> y.id != x.id
  {
    var after := before[..i] + [x] + before[i..];
    assert after[i] == x;
    assert forall j :: 0 <= j < |before| ==> before[j] == after[if j < i then j else j + 1];
  }

  method EditMine(zone: Zone, record: Record, req: Fields, ghost ids: set<int>) returns (ok: bool, ghost x: Record)
    requires zone.Valid() && Keep(zone.records, Mine(ids)) != [] && Keep(zone.records, Mine(ids))[0] == record
    modifies zone
    ensures zone.Valid()
    ensures Keep(zone.records, Theirs(ids)) == Keep(old(zone.records), Theirs(ids))
    ensures var mine := Keep(old(zone.records), Mine(ids));
            Keep(zone.records, Mine(ids)) == [x] + mine[1..] && x.id == mine[0].id &&
            (x == mine[0] || Matches(x.f, req))
    ensures ok ==> Matches(x.f, req)
    ensures zone.verbatimNames ==> forall y :: y in zone.records && y !in old(zone.records) ==> y.f.name == req.name
    ensures zone.reliable ==> ok
  {
    hide Keep, Matches, DistinctIds, Rewritten, Mine, Theirs;
    ghost var mine, before := Keep(zone.records, Mine(ids)), zone.records;
    x := mine[0];
    assert mine == [x] + mine[1..] && x in mine;
    var answer := zone.EditRecord(record.id, req);
    if zone.records != before || answer.Done? {
      x := EditSeen(before, zone.records, ids, req, 0);
    }
    ok := answer.Done?;
  }

  method DeleteMine(zone: Zone, record: Record, ghost ids: set<int>, ghost k: nat) returns (ok: bool)
    requires zone.Valid() && k < |Keep(zone.records, Mine(ids))| && Keep(zone.records, Mine(ids))[k] == record
    modifies zone
    ensures zone.Valid()
    ensures Keep(zone.records, Theirs(ids)) == Keep(old(zone.records), Theirs(ids))
    ensures var mine := Keep(old(zone.records), Mine(ids));
            Keep(zone.records, Mine(ids)) == mine[..k] + mine[k + 1..] || (!ok && zone.records == old(zone.records))
    ensures forall x :: x in zone.records ==> x in old(zone.records)
    ensures zone.reliable ==> ok
  {
    hide Keep, DistinctIds, Mine, Theirs;
    ghost var before := zone.records;
    assert record in Keep(before, Mine(ids));
    var answer := zone.DeleteRecord(record.id);
    if zone.records != before || answer.Done? {
      DeleteSeen(before, zone.records, ids, k);
    }
    ok := answer.Done?;
  }

  /** After i records of the name: the survivor, once passed, then the records not yet looked at. */
  ghost predicate Progress(view: seq<Record>, name: string, target: string, matching: seq<Record>, c: nat, i: nat,
                           kept: seq<Record>)
    requires c < |matching| && i <= |matching|
  {
    && |kept| == (if i > c then 1 else 0)
    && (kept != [] ==> kept[0].id == matching[c].id && AsAsked(kept[0].f, name, target))
    && (kept != [] ==> kept[0] == matching[c] || Matches(kept[0].f, Wanted(name, target)))
    && view == kept + matching[i..]
  }

  lemma ProgressSurvives(rs: seq<Record>, p: Record -> bool, name: string, target: string, matching: seq<Record>,
                         c: nat, i: nat, kept: seq<Record>)
    requires c < |matching| && i <= |matching| && Progress(Keep(rs, p), name, target, matching, c, i, kept)
    ensures exists x :: x in rs && x.id == matching[c].id
  {
    hide Keep, AsAsked, Matches;
    var k := if i > c then 0 else c - i;
    assert Keep(rs, p)[k].id == matching[c].id;
    assert Keep(rs, p)[k] in Keep(rs, p);
  }

  /** What stays true of my records while they are being settled. */
  ghost predicate Tracked(view: seq<Record>, matching: seq<Record>, name: string, target: string) {
    forall x :: x in view ==> x in matching || Matches(x.f, Wanted(name, target))
  }

  /** One record of the name: keep it, edit it, or delete it. */
  method SettleOne(zone: Zone, name: string, target: string, matching: seq<Record>, i: nat, keep: bool, edit: bool,
                   ghost ids: set<int>, ghost c: nat, ghost kept: seq<Record>)
    returns (ok: bool, ghost next: seq<Record>)
    requires zone.Valid() && i < |matching| && c < |matching|
    requires Progress(Keep(zone.records, Mine(ids)), name, target, matching, c, i, kept)
    requires keep ==> i == c && AsAsked(matching[i].f, name, target)
    requires edit ==> i == c == 0
    requires !keep && !edit ==> i != c
    modifies zone
    ensures zone.Valid()
    ensures Keep(zone.records, Theirs(ids)) == Keep(old(zone.records), Theirs(ids))
    ensures ok ==> Progress(Keep(zone.records, Mine(ids)), name, target, matching, c, i + 1, next)
    ensures Tracked(Keep(zone.records, Mine(ids)), matching, name, target)
    ensures exists x :: x in zone.records && x.id == matching[c].id
    ensures keep ==> zone.records == old(zone.records) && zone.log == old(zone.log)
    ensures zone.verbatimNames ==> forall x :: x in zone.records && x !in old(zone.records) ==> x.f.name == name
    ensures zone.reliable ==> ok
  {
    hide Keep, DistinctIds, Mine, Theirs, Matches, AsAsked;
    ghost var before := Keep(zone.records, Mine(ids));
    ViewStep(kept, matching, i);
    ProgressSurvives(zone.records, Mine(ids), name, target, matching, c, i, kept);
    next := kept;
    if keep {
      ok := true;
      next := [matching[i]];
    } else if edit {
      ghost var x;
      ok, x := EditMine(zone, matching[i], Wanted(name, target), ids);
      StillThere(zone.records, Mine(ids), 0, matching[c].id);
      next := [x];
      if ok {
        MatchIsAsked(x.f, name, target);
      }
    } else {
      ok := DeleteMine(zone, matching[i], ids, |kept|);
      if Keep(zone.records, Mine(ids)) != before {
        ProgressSurvives(zone.records, Mine(ids), name, target, matching, c, i + 1, kept);
      }
    }
  }

  lemma MatchIsAsked(f: Fields, name: string, target: string)
    requires Matches(f, Wanted(name, target))
    ensures AsAsked(f, name, target)
  {
  }

  method DropOthers(zone: Zone, name: string, target: string, matching: seq<Record>, found: bool, ghost ids: set<int>)
    returns (ok: bool)
    requires zone.Valid() && ids == Ids(Keep(zone.records, Rest(name)))
    requires matching == Keep(zone.records, Own(name)) && matching != []
    requires found <==> exists k :: 0 <= k < |matching| && DataEqual(matching[k].f.data, target)
    modifies zone
    ensures zone.Valid() && Reconciled(old(zone.records), zone.records, name, target, ok)
    ensures exists x :: x in zone.records && x.id == matching[Chosen(matching, target)].id
    ensures zone.verbatimNames ==> forall x :: x in zone.records && x !in old(zone.records) ==> x.f.name == name
    ensures Correct(old(zone.records), name, target) ==> zone.records == old(zone.records) && zone.log == old(zone.log)
    ensures zone.reliable ==> ok
  {
    hide DataEqual, Keep, DistinctIds, Rest, Own, Mine, Theirs, Ids, Matches, AsAsked, IsCname, Tracked, Reconciled,
         Progress;
    var hasTarget, keptTarget := found, found;
    ghost var c := Chosen(matching, target);
    ghost var kept: seq<Record> := [];
    ByIdAtFirst(zone.records, name);
    FirstTracked(zone.records, name, target);
    ProgressStarts(matching, name, target, c);
    for i := 0 to |matching|
      invariant zone.Valid()
      invariant hasTarget == (found || i > 0) && keptTarget == (found && i <= c)
      invariant Progress(Keep(zone.records, Mine(ids)), name, target, matching, c, i, kept)
      invariant Tracked(Keep(zone.records, Mine(ids)), matching, name, target)
      invariant Keep(zone.records, Theirs(ids)) == Keep(old(zone.records), Rest(name))
      invariant zone.verbatimNames ==> forall x :: x in zone.records && x !in old(zone.records) ==> x.f.name == name
      invariant |matching| == 1 && found ==> zone.records == old(zone.records) && zone.log == old(zone.log)
    {
      var keep := DataEqual(matching[i].f.data, target) && keptTarget;
      var edit := !keep && !hasTarget && i == 0;
      keptTarget := keptTarget && !keep;
      OwnAsAsked(old(zone.records), name, target, i);
      var done;
      done, kept := SettleOne(zone, name, target, matching, i, keep, edit, ids, c, kept);
      if !done {
        TrackedIs(old(zone.records), zone.records, name, target, false);
        return false;
      }
      hasTarget := hasTarget || edit;
    }
    ProgressSurvives(zone.records, Mine(ids), name, target, matching, c, |matching|, kept);
    ProgressDone(Keep(zone.records, Mine(ids)), name, target, matching, c, kept);
    TrackedIs(old(zone.records), zone.records, name, target, true);
    ok := true;
  }

  lemma ProgressStarts(matching: seq<Record>, name: string, target: string, c: nat)
    requires c < |matching|
    ensures Progress(matching, name, target, matching, c, 0, [])
  {
    hide AsAsked;
  }

  lemma ProgressDone(view: seq<Record>, name: string, target: string, matching: seq<Record>, c: nat, kept: seq<Record>)
    requires c < |matching| && Progress(view, name, target, matching, c, |matching|, kept)
    ensures |view| == 1 && AsAsked(view[0].f, name, target)
  {
    hide AsAsked, Matches;
    assert kept + matching[|matching|..] == kept;
  }

  lemma FirstTracked(rs: seq<Record>, name: string, target: string)
    ensures Tracked(Keep(rs, Own(name)), Keep(rs, Own(name)), name, target)
  {
  }

  lemma OwnAsAsked(rs: seq<Record>, name: string, target: string, i: nat)
    requires i < |Keep(rs, Own(name))|
    ensures DataEqual(Keep(rs, Own(name))[i].f.data, target) ==> AsAsked(Keep(rs, Own(name))[i].f, name, target)
  {
    hide Keep, DataEqual, IsCname, Matches;
    assert Keep(rs, Own(name))[i] in Keep(rs, Own(name));
  }

  lemma TrackedIs(before: seq<Record>, after: seq<Record>, name: string, target: string, ok: bool)
    requires var ids := Ids(Keep(before, Rest(name)));
             && Keep(after, Theirs(ids)) == Keep(before, Rest(name))
             && Tracked(Keep(after, Mine(ids)), Keep(before, Own(name)), name, target)
             && (ok ==> |Keep(after, Mine(ids))| == 1 && AsAsked(Keep(after, Mine(ids))[0].f, name, target))
    ensures Reconciled(before, after, name, target, ok)
  {
    hide Keep, DataEqual, IsCname, Matches, AsAsked;
  }

  lemma ViewStep(kept: seq<Record>, matching: seq<Record>, i: nat)
    requires i < |matching|
    ensures var view := kept + matching[i..];
            && view[|kept|] == matching[i]
            && view[..|kept|] + view[|kept| + 1..] == kept + matching[i + 1..]
            && (kept == [] ==> view[1..] == matching[i + 1..] && [matching[i]] + matching[i + 1..] == matching[i..])
            && forall j :: i <= j < |matching| ==> view[|kept| + j - i] == matching[j]
  {
  }

  lemma StillThere(rs: seq<Record>, p: Record -> bool, k: nat, id: int)
    requires k < |Keep(rs, p)| && Keep(rs, p)[k].id == id
    ensures exists x :: x in rs && x.id == id
  {
    hide Keep;
    assert Keep(rs, p)[k] in Keep(rs, p);
  }

  lemma ChosenThere(rs: seq<Record>, name: string, target: string)
    ensures var own := Keep(rs, Own(name));
            own != [] ==> exists x :: x in rs && x.id == own[Chosen(own, target)].id
  {
    hide IsCname, DataEqual, Keep;
    var own := Keep(rs, Own(name));
    if own != [] {
      assert own[Chosen(own, target)] in own;
    }
  }

  lemma NothingDone(rs: seq<Record>, name: string, target: string)
    requires DistinctIds(rs)
    ensures Reconciled(rs, rs, name, target, false)
  {
    hide IsCname, Keep;
    ByIdAtFirst(rs, name);
  }
}
