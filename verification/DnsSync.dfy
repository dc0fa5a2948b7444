/** Update and Diff of internal/drivers/dns.go, and why a successful Update settles both. */
module DnsSync {
  import opened DnsConfig
  import opened DnsDriver
  import opened DnsRecords
  import opened DnsZone
  import opened Text
  import opened Wrappers

  datatype Config = Config(domain: Option<string>, records: seq<RecordConfig>, absent: seq<AbsentConfig>)

  /** The state a driver returns: the domain and its records as they are printed. */
  datatype Output = Output(domain: string, records: seq<Fields>)

  datatype Verdict = UpToDate | NeedsUpdate | NeedsReplace

  function Printed(f: Fields): Fields {
    f.(tag := CanonicalTag(f.typ, f.tag))
  }

  function OutputOf(domain: string, rs: seq<Record>): (o: Output)
    ensures |o.records| == |rs| && o.domain == domain
  {
    Output(domain, seq(|rs|, i requires 0 <= i < |rs| => Printed(rs[i].f)))
  }

  /** One printed record read back: Some(None) leaves out a type the driver does not manage. */
  function ReadBack(f: Fields): Option<Option<Record>> {
    if !Supported(ToUpper(f.typ)) then Some(None)
    else if f.name == "" || f.ttl < 0 || f.priority < 0 || f.port < 0 || f.weight < 0 || f.flags < 0 then None
    else Some(Some(Record(0, f.(typ := ToUpper(f.typ), tag := CanonicalTag(ToUpper(f.typ), f.tag)))))
  }

  function ReadOutput(fs: seq<Fields>): Option<seq<Record>> {
    if fs == [] then Some([])
    else
      var n := |fs| - 1;
      var before, last := ReadOutput(fs[..n]), ReadBack(fs[n]);
      if before.None? || last.None? then None
      else if last.value.None? then before
      else Some(before.value + [last.value.value])
  }

  /** The domain a configuration names, or the one the resource already has. */
  function DomainOf(domain: Option<string>, fallback: string, valid: string -> bool): Option<string> {
    var d := if domain.Some? then domain.value else fallback;
    if d != "" && valid(d) then Some(d) else None
  }

  method Read(zone: Zone, domain: string) returns (r: Option<Output>)
    ensures r.Some? ==> r.value == OutputOf(domain, zone.records)
    ensures zone.reliable ==> r.Some?
  {
    var failed := zone.Interrupted();
    if failed {
      return None;
    }
    var listed := ListRecords(zone);
    r := if listed.Done? then Some(OutputOf(domain, listed.value)) else None;
  }

  ghost predicate Accepts(config: Config, addr: Addresses) {
    && Declared(config.records, addr).Some? && Patterns(config.absent, addr).Some?
    && Consistent(Declared(config.records, addr).value, Patterns(config.absent, addr).value)
  }

  /** The domain is valid, and is the one the resource has. */
  predicate SameDomain(domain: Option<string>, id: string, valid: string -> bool) {
    var d := DomainOf(domain, id, valid);
    d.Some? && (id != "" ==> EqualFold(d.value, id))
  }

  method Update(zone: Zone, id: string, config: Config, addr: Addresses, valid: string -> bool)
    returns (r: Option<Output>)
    requires zone.Valid()
    modifies zone
    ensures zone.Valid()
    ensures !Accepts(config, addr) ==> r.None? && zone.records == old(zone.records) && zone.log == old(zone.log)
    ensures Accepts(config, addr) ==>
              var requests, absent := Declared(config.records, addr).value, Patterns(config.absent, addr).value;
              && Keep(zone.records, Unmanaged(requests, absent)) == Keep(old(zone.records), Unmanaged(requests, absent))
              && (r.Some? ==> Converged(zone.records, requests, absent) && !LiveClashes(requests, zone.records)
                              && Some(r.value.domain) == DomainOf(config.domain, id, valid)
                              && r.value == OutputOf(r.value.domain, zone.records))
              && (Converged(old(zone.records), requests, absent) ==>
                    zone.records == old(zone.records) && zone.log == old(zone.log))
              && (zone.reliable && SameDomain(config.domain, id, valid) ==>
                    (r.Some? <==> !LiveClashes(requests, Keep(old(zone.records), NotAbsent(absent)))))
  {
    hide RequestFromConfig, AbsentFromConfig, LiveClashes, AnyAbsent, Consistent, OutputOf, Satisfied, Keep, Unmanaged;
    var domain := DomainOf(config.domain, id, valid);
    var declared := DeclaredRecords(config.records, addr);
    var patterns := DeclaredAbsent(config.absent, addr);
    if declared.None? || patterns.None? {
      return None;
    }
    var requests, absent := declared.value, patterns.value;
    DeclaredExactly(config.records, addr);
    SupportedPatterns(config.absent, addr);
    var consistent := ClashFree(requests, absent);
    if domain.None? || (id != "" && !EqualFold(domain.value, id)) || !consistent {
      return None;
    }
    ghost var before := zone.records;
    var deleted := DeleteRecords(zone, absent);
    KeepKeep(before, NotAbsent(absent), Unmanaged(requests, absent)) by {
      UnmanagedNotAbsent(requests, absent);
    }
    ghost var middle := zone.records;
    UnmanagedNotAbsent(requests, absent);
    KeepKeep(middle, NotAbsent(absent), Unmanaged(requests, absent));
    if !deleted {
      return None;
    }
    var upserted := UpsertRecords(zone, requests, absent);
    if !upserted {
      return None;
    }
    r := Read(zone, domain.value);
  }

  lemma UnmanagedNotAbsent(requests: seq<Fields>, absent: seq<Absent>)
    ensures forall x :: Unmanaged(requests, absent)(x) ==> NotAbsent(absent)(x)
  {
  }

  lemma SupportedPatterns(cs: seq<AbsentConfig>, addr: Addresses)
    ensures Patterns(cs, addr).Some? ==> forall a :: a in Patterns(cs, addr).value ==> Supported(a.typ)
  {
    hide AbsentFromConfig, Patterns;
    PatternsExactly(cs, addr, Fields("", "", "", 0, 0, 0, 0, 0, ""));
  }

  // ----- the drift check -----

  /** No absent record is live, and the first record of each declared identity is as declared. */
  ghost predicate Settled(current: seq<Record>, live: seq<Record>, requests: seq<Fields>, absent: seq<Absent>) {
    && NoneAbsent(live, absent)
    && forall q :: q in requests ==> SettledOne(current, q)
  }

  predicate SettledOne(current: seq<Record>, q: Fields) {
    var own := OfIdentity(current, Identity(q));
    own != [] && Matches(own[0].f, q)
  }

  method GroupByIdentity(rs: seq<Record>) returns (m: map<Key, seq<Record>>)
    ensures forall k :: At(m, k) == OfIdentity(rs, k)
  {
    hide Identity;
    m := map[];
    for i := 0 to |rs|
      invariant GroupedByIdentity(m, rs[..i])
    {
      IdentifyOne(m, rs, i);
      var key := Identity(rs[i].f);
      m := m[key := At(m, key) + [rs[i]]];
    }
    assert rs[..|rs|] == rs;
  }

  ghost predicate GroupedByIdentity(m: map<Key, seq<Record>>, rs: seq<Record>) {
    forall k :: At(m, k) == OfIdentity(rs, k)
  }

  lemma IdentifyOne(m: map<Key, seq<Record>>, rs: seq<Record>, i: nat)
    requires i < |rs| && GroupedByIdentity(m, rs[..i])
    ensures var key := Identity(rs[i].f); GroupedByIdentity(m[key := At(m, key) + [rs[i]]], rs[..i + 1])
  {
    hide Identity;
    assert rs[..i + 1][..i] == rs[..i];
    var key := Identity(rs[i].f);
    var next := m[key := At(m, key) + [rs[i]]];
    forall k ensures At(next, k) == OfIdentity(rs[..i + 1], k) {
      assert At(m, k) == OfIdentity(rs[..i], k);
    }
  }

  /** Takes one current record per request out of the groups; the identities are distinct. */
  method CompareRequests(current: seq<Record>, requests: seq<Fields>) returns (same: bool)
    requires Declarable(requests)
    ensures same <==> forall q :: q in requests ==> SettledOne(current, q)
  {
    hide Identity, Matches, Supported, NameClash, OfIdentity;
    var groups := GroupByIdentity(current);
    for i := 0 to |requests|
      invariant forall j :: i <= j < |requests| ==>
                  At(groups, Identity(requests[j])) == OfIdentity(current, Identity(requests[j]))
      invariant forall j :: 0 <= j < i ==> SettledOne(current, requests[j])
    {
      var q := requests[i];
      var candidates := At(groups, Identity(q));
      assert q in requests;
      if candidates == [] {
        return false;
      }
      groups := groups[Identity(q) := candidates[1..]];
      if !Matches(candidates[0].f, q) {
        return false;
      }
    }
    same := true;
  }

  /** Either there is nothing to compare, or the printed records can be read back. */
  predicate Comparable(config: Config, current: Option<Output>) {
    current.None? || ReadOutput(current.value.records).Some? ||
    (config.domain.Some? && !EqualFold(config.domain.value, current.value.domain))
  }

  method Diff(zone: Zone, config: Config, current: Option<Output>, addr: Addresses, valid: string -> bool)
    returns (r: Option<Verdict>)
    requires zone.Valid()
    ensures r.Some? ==> Accepts(config, addr)
    ensures r.Some? && current.None? ==> r.value == NeedsUpdate
    ensures r.Some? && current.Some? && config.domain.Some? && !EqualFold(config.domain.value, current.value.domain) ==>
              r.value == NeedsReplace
    ensures r.Some? && current.Some? &&
            (config.domain.Some? ==> EqualFold(config.domain.value, current.value.domain)) ==>
              var requests, absent := Declared(config.records, addr).value, Patterns(config.absent, addr).value;
              var read := ReadOutput(current.value.records);
              var bare := config.domain.None? && current.value.domain == "";
              read.Some? &&
              var listed := if bare then read.value else zone.records;
              r.value == if Settled(read.value, listed, requests, absent) then UpToDate else NeedsUpdate
    ensures zone.reliable && Accepts(config, addr) &&
            (config.domain.Some? ==> DomainOf(config.domain, "", valid).Some?) ==>
              (r.Some? <==> Comparable(config, current))
  {
    hide RequestFromConfig, AbsentFromConfig, AnyAbsent, Consistent, OutputOf, SettledOne, ReadOutput, AbsentMatches;
    if config.domain.Some? && (config.domain.value == "" || !valid(config.domain.value)) {
      return None;
    }
    var declared := DeclaredRecords(config.records, addr);
    var patterns := DeclaredAbsent(config.absent, addr);
    if declared.None? || patterns.None? {
      return None;
    }
    var requests, absent := declared.value, patterns.value;
    DeclaredExactly(config.records, addr);
    SupportedPatterns(config.absent, addr);
    var consistent := ClashFree(requests, absent);
    if !consistent {
      return None;
    }
    if current.None? {
      return Some(NeedsUpdate);
    }
    if config.domain.Some? && !EqualFold(config.domain.value, current.value.domain) {
      return Some(NeedsReplace);
    }
    var read := ReadOutput(current.value.records);
    if read.None? {
      return None;
    }
    var checked := read.value;
    if absent != [] && (config.domain.Some? || current.value.domain != "") {
      var listed := ListRecords(zone);
      if listed.Failed? {
        return None;
      }
      checked := listed.value;
    }
    PresentExactly(checked, absent);
    NothingAbsent(zone.records);
    NothingAbsent(read.value);
    if exists x, a | x in checked && a in absent :: AbsentMatches(a, x.f) {
      return Some(NeedsUpdate);
    }
    var same := CompareRequests(read.value, requests);
    r := Some(if same then UpToDate else NeedsUpdate);
  }

  lemma PresentExactly(rs: seq<Record>, absent: seq<Absent>)
    ensures (exists x, a | x in rs && a in absent :: AbsentMatches(a, x.f)) <==> !NoneAbsent(rs, absent)
  {
    hide AbsentMatches;
  }

  // ----- Update settles Diff -----

  /** Live records whose printed form the driver can read back. */
  ghost predicate Readable(rs: seq<Record>) {
    forall x :: x in rs && Supported(ToUpper(x.f.typ)) ==>
      x.f.name != "" && x.f.ttl >= 0 && x.f.priority >= 0 && x.f.port >= 0 && x.f.weight >= 0 && x.f.flags >= 0
  }

  lemma ReadBackSame(f: Fields, q: Fields)
    requires Supported(ToUpper(f.typ))
    ensures var g := Printed(f);
            var h := g.(typ := ToUpper(g.typ), tag := CanonicalTag(ToUpper(g.typ), g.tag));
            Identity(h) == Identity(f) && Matches(h, q) == Matches(f, q)
  {
    FoldsAgree(f.typ, ToUpper(f.typ));
    UpperTwice(f.typ);
    SameType(f.typ, ToUpper(f.typ));
    LowerTwice(f.tag);
  }

  /** Printing and reading back keeps, identity by identity, what Diff compares. */
  ghost predicate SameView(a: seq<Record>, b: seq<Record>, q: Fields) {
    && |a| == |b|
    && (a != [] ==> Matches(a[0].f, q) == Matches(b[0].f, q))
  }

  lemma {:induction false} ReadOutputKeeps(domain: string, rs: seq<Record>, q: Fields)
    requires Readable(rs) && Supported(q.typ)
    ensures var read := ReadOutput(OutputOf(domain, rs).records);
            read.Some? && SameView(OfIdentity(read.value, Identity(q)), OfIdentity(rs, Identity(q)), q)
  {
    hide Identity, Matches, Supported, CanonicalTag, Readable, HasIdentity, ReadBack;
    var printed := OutputOf(domain, rs).records;
    if rs != [] {
      var n := |rs| - 1;
      assert printed[..n] == OutputOf(domain, rs[..n]).records;
      ReadablePrefix(rs, n);
      ReadOutputKeeps(domain, rs[..n], q);
      ReadLast(rs[n], q);
      var before := ReadOutput(printed[..n]).value;
      var last := ReadBack(printed[n]).value;
      OneMore(before, rs, last, q);
    }
  }

  lemma OneMore(before: seq<Record>, rs: seq<Record>, last: Option<Record>, q: Fields)
    requires rs != []
    requires SameView(OfIdentity(before, Identity(q)), OfIdentity(rs[..|rs| - 1], Identity(q)), q)
    requires var x := rs[|rs| - 1];
             if last.None? then !HasIdentity(Identity(q))(x)
             else
               && HasIdentity(Identity(q))(last.value) == HasIdentity(Identity(q))(x)
               && Matches(last.value.f, q) == Matches(x.f, q)
    ensures var read := if last.None? then before else before + [last.value];
            SameView(OfIdentity(read, Identity(q)), OfIdentity(rs, Identity(q)), q)
  {
    hide Identity, Matches, HasIdentity, Keep;
    var n := |rs| - 1;
    assert rs == rs[..n] + [rs[n]];
    KeepConcat(rs[..n], [rs[n]], HasIdentity(Identity(q)));
    KeepOne(rs[n], HasIdentity(Identity(q)));
    if last.Some? {
      KeepConcat(before, [last.value], HasIdentity(Identity(q)));
      KeepOne(last.value, HasIdentity(Identity(q)));
    }
  }

  lemma ReadablePrefix(rs: seq<Record>, n: nat)
    requires Readable(rs) && n < |rs|
    ensures Readable(rs[..n]) && Readable([rs[n]])
  {
  }

  lemma ReadLast(x: Record, q: Fields)
    requires Readable([x]) && Supported(q.typ)
    ensures ReadBack(Printed(x.f)).Some?
    ensures var last := ReadBack(Printed(x.f)).value;
            if last.None? then !HasIdentity(Identity(q))(x)
            else
              && HasIdentity(Identity(q))(last.value) == HasIdentity(Identity(q))(x)
              && Matches(last.value.f, q) == Matches(x.f, q)
  {
    assert x in [x];
    if Supported(ToUpper(x.f.typ)) {
      ReadBackSame(x.f, q);
    } else {
      SupportedUpper(q.typ);
      assert Identity(x.f)[0] == ToUpper(x.f.typ) && Identity(q)[0] == q.typ;
    }
  }

  /** Diff judges the printed state as it would judge the live records. */
  lemma SettledOnRead(domain: string, rs: seq<Record>, requests: seq<Fields>, absent: seq<Absent>)
    requires Readable(rs) && forall q :: q in requests ==> Supported(q.typ)
    ensures var read := ReadOutput(OutputOf(domain, rs).records);
            read.Some? && Settled(read.value, rs, requests, absent) == Settled(rs, rs, requests, absent)
  {
    hide Identity, Matches, Supported, ReadOutput, OutputOf, Readable, OfIdentity, NoneAbsent;
    ReadOutputKeeps(domain, rs, Fields("A", "", "", 0, 0, 0, 0, 0, "")) by {
      assert Supported("A") by { SupportedA(); }
    }
    forall q | q in requests
      ensures SettledOne(ReadOutput(OutputOf(domain, rs).records).value, q) == SettledOne(rs, q)
    {
      ReadOutputKeeps(domain, rs, q);
    }
  }

  lemma SupportedA()
    ensures Supported("A")
  {
  }

  /** Converged by the upsert keys implies settled by the identities that Diff uses. */
  lemma ConvergedIsSettled(rs: seq<Record>, requests: seq<Fields>, absent: seq<Absent>)
    requires Converged(rs, requests, absent)
    ensures Settled(rs, rs, requests, absent)
  {
    hide Matches, Identity, UpsertKey, NoneAbsent;
    forall q | q in requests ensures SettledOne(rs, q) {
      FirstByIdentity(rs, q);
    }
  }

  /** The first record of the upsert key, when it matches, is also the first of the identity. */
  lemma FirstByIdentity(rs: seq<Record>, q: Fields)
    requires Satisfied(rs, q)
    ensures SettledOne(rs, q)
  {
    hide Matches, Identity, UpsertKey;
    var own := OfKey(rs, UpsertKey(q));
    MatchKeepsKeys(own[0].f, q);
    forall x | HasIdentity(Identity(q))(x) ensures HasKey(UpsertKey(q))(x) {
      IdentityRefinesKey(x.f, q);
    }
    KeepKeep(rs, HasKey(UpsertKey(q)), HasIdentity(Identity(q)));
    assert own == [own[0]] + own[1..];
    KeepConcat([own[0]], own[1..], HasIdentity(Identity(q)));
    KeepOne(own[0], HasIdentity(Identity(q)));
  }

  /** After a successful Update, Diff on the re-read state says no update is needed. */
  lemma UpdateSettlesDiff(domain: string, rs: seq<Record>, requests: seq<Fields>, absent: seq<Absent>)
    requires Converged(rs, requests, absent) && Readable(rs)
    requires forall q :: q in requests ==> Supported(q.typ)
    ensures var read := ReadOutput(OutputOf(domain, rs).records);
            read.Some? && Settled(read.value, rs, requests, absent)
  {
    ConvergedIsSettled(rs, requests, absent);
    SettledOnRead(domain, rs, requests, absent);
  }

  /**
   What a successful Update leaves: Diff on the printed state sees nothing to do, and another Update
   writes nothing. With every request answered both do succeed.
   */
  method DiffAndUpdateAgain(zone: Zone, id: string, config: Config, current: Output, addr: Addresses,
                            valid: string -> bool)
    returns (verdict: Option<Verdict>, second: Option<Output>)
    requires zone.Valid() && Accepts(config, addr) && SameDomain(config.domain, id, valid)
    requires current == OutputOf(DomainOf(config.domain, id, valid).value, zone.records)
    requires Converged(zone.records, Declared(config.records, addr).value, Patterns(config.absent, addr).value)
    requires !LiveClashes(Declared(config.records, addr).value, zone.records)
    requires Readable(zone.records)
    modifies zone
    ensures zone.records == old(zone.records) && zone.log == old(zone.log)
    ensures verdict.Some? ==> verdict.value == UpToDate
    ensures second.Some? ==> second.value == current
    ensures zone.reliable ==> verdict.Some? && second.Some?
  {
    hide RequestFromConfig, AbsentFromConfig, AnyAbsent, Consistent, OutputOf, Satisfied, Unmanaged, Readable, Settled,
         Supported, LiveClashes;
    ghost var requests, absent := Declared(config.records, addr).value, Patterns(config.absent, addr).value;
    DeclaredExactly(config.records, addr);
    UpdateSettlesDiff(current.domain, zone.records, requests, absent);
    verdict := Diff(zone, config, Some(current), addr, valid);
    KeepAll(zone.records, NotAbsent(absent)) by {
      AllKept(zone.records, absent);
    }
    second := Update(zone, id, config, addr, valid);
  }

  lemma AllKept(rs: seq<Record>, absent: seq<Absent>)
    requires NoneAbsent(rs, absent)
    ensures forall x :: x in rs ==> NotAbsent(absent)(x)
  {
  }

  /** All live CNAMEs of one name have the same target. */
  ghost predicate CnamesAgree(rs: seq<Record>) {
    forall x, y :: x in rs && y in rs && IsCname(x.f) && UpsertKey(x.f) == UpsertKey(y.f) ==>
             Identity(x.f) == Identity(y.f)
  }

  /**
   Diff and Update agree on what is up to date, for every declaration, exactly on the zones whose
   CNAMEs of one name agree.
   */
  lemma KeysAgreeExactly(rs: seq<Record>)
    ensures (forall q: Fields :: Supported(q.typ) ==> SettledOne(rs, q) == Satisfied(rs, q)) <==> CnamesAgree(rs)
  {
    hide Matches, Identity, UpsertKey, IsCname, Supported, Keep;
    if CnamesAgree(rs) {
      forall q: Fields | Supported(q.typ) ensures SettledOne(rs, q) == Satisfied(rs, q) {
        AgreeOn(rs, q);
      }
    } else {
      var x, y :| x in rs && y in rs && IsCname(x.f) && UpsertKey(x.f) == UpsertKey(y.f) &&
                  Identity(x.f) != Identity(y.f);
      var q := Disputed(rs, x, y);
      assert Supported(q.typ) && SettledOne(rs, q) != Satisfied(rs, q);
    }
  }

  lemma AgreeOn(rs: seq<Record>, q: Fields)
    requires CnamesAgree(rs)
    ensures SettledOne(rs, q) == Satisfied(rs, q)
  {
    hide Matches, Identity, UpsertKey, IsCname;
    if Satisfied(rs, q) {
      FirstByIdentity(rs, q);
    }
    if SettledOne(rs, q) {
      var key, id := HasKey(UpsertKey(q)), HasIdentity(Identity(q));
      var first := OfIdentity(rs, Identity(q))[0];
      assert first in OfIdentity(rs, Identity(q));
      IdentityRefinesKey(first.f, q);
      assert first in OfKey(rs, UpsertKey(q));
      var i := FirstKept(rs, key);
      IdentityRefinesKey(rs[i].f, q);
      assert rs[i].f == OfKey(rs, UpsertKey(q))[0].f;
      assert id(rs[i]);
      var j := FirstKept(rs, id);
      SameFirst(rs, i, j, key, id) by {
        forall x | id(x) ensures key(x) {
          IdentityRefinesKey(x.f, q);
        }
      }
    }
  }

  lemma SameFirst(rs: seq<Record>, i: nat, j: nat, wide: Record -> bool, narrow: Record -> bool)
    requires i < |rs| && j < |rs|
    requires wide(rs[i]) && narrow(rs[i]) && narrow(rs[j])
    requires Keep(rs[..i], wide) == [] && Keep(rs[..j], narrow) == []
    requires forall x :: narrow(x) ==> wide(x)
    ensures i == j
  {
    PrefixHas(rs, i, j, narrow);
    PrefixHas(rs, j, i, wide);
  }

  lemma PrefixHas(rs: seq<Record>, i: nat, j: nat, p: Record -> bool)
    requires i < |rs| && j <= |rs| && p(rs[i])
    ensures i < j ==> Keep(rs[..j], p) != []
  {
    if i < j {
      assert rs[..j][i] == rs[i];
      assert rs[i] in Keep(rs[..j], p);
    }
  }

  /** Two CNAMEs of one name with different targets: declare the one that is not listed first. */
  lemma Disputed(rs: seq<Record>, x: Record, y: Record) returns (q: Fields)
    requires x in rs && y in rs && IsCname(x.f) && UpsertKey(x.f) == UpsertKey(y.f) && Identity(x.f) != Identity(y.f)
    ensures Supported(q.typ) && SettledOne(rs, q) && !Satisfied(rs, q)
  {
    hide Matches, Identity, UpsertKey;
    var k := UpsertKey(x.f);
    assert x in OfKey(rs, k);
    var first := OfKey(rs, k)[0];
    var other := if Identity(first.f) == Identity(x.f) then y else x;
    assert other in OfIdentity(rs, Identity(other.f));
    var chosen := OfIdentity(rs, Identity(other.f))[0];
    assert chosen in OfIdentity(rs, Identity(other.f));
    q := chosen.f.(typ := ToUpper(chosen.f.typ));
    IdentityRefinesKey(chosen.f, other.f);
    IdentityRefinesKey(y.f, x.f);
    UpperMatches(chosen.f);
    MatchKeepsKeys(chosen.f, q);
    if Matches(first.f, q) {
      MatchKeepsKeys(first.f, q);
    }
  }

  lemma UpperMatches(f: Fields)
    requires IsCname(f)
    ensures var q := f.(typ := ToUpper(f.typ)); Matches(f, q) && Supported(q.typ)
  {
    FoldsAgree(f.typ, "CNAME");
    UpperTwice(f.typ);
    FoldsAgree(f.typ, ToUpper(f.typ));
    SameType(f.typ, ToUpper(f.typ));
    assert ToUpper("CNAME") == "CNAME";
  }

  /** The first of two CNAMEs under one name is not the one declared. */
  lemma SecondDeclared(a: Record, b: Record)
    requires UpsertKey(a.f) == UpsertKey(b.f) && Identity(a.f) != Identity(b.f)
    ensures Settled([a, b], [a, b], [b.f], []) && !Converged([a, b], [b.f], [])
  {
    hide Matches, Identity, UpsertKey, Keep;
    var id, key := HasIdentity(Identity(b.f)), HasKey(UpsertKey(b.f));
    assert [a, b] == [a] + [b];
    KeepConcat([a], [b], id);
    KeepConcat([a], [b], key);
    KeepOne(a, id);
    KeepOne(b, id);
    KeepOne(a, key);
    KeepOne(b, key);
    MatchesItself(b.f);
    if Matches(a.f, b.f) {
      MatchKeepsKeys(a.f, b.f);
    }
    NothingAbsent([a, b]);
    assert b.f in [b.f] && !Satisfied([a, b], b.f);
  }

  lemma LetterKept(typ: string, data: string)
    requires |data| > 1 && 'a' <= data[0] <= 'z'
    ensures CanonicalData(typ, data) != "" && CanonicalData(typ, data)[0] == data[0]
  {
  }

  lemma OneKeyTwoIdentities(f: Fields, data: string)
    requires IsCname(f) && CanonicalData(f.typ, f.data) != CanonicalData(f.typ, data)
    ensures UpsertKey(f) == UpsertKey(f.(data := data)) && Identity(f) != Identity(f.(data := data))
  {
    hide CanonicalData, CanonicalName;
    assert Identity(f)[2] != Identity(f.(data := data))[2];
  }

  /** Diff finds the declared CNAME; Update would rewrite the other one. */
  lemma TwoCnames()
    ensures var a := Record(1, Fields("CNAME", "www", "a.net", 300, 0, 0, 0, 0, ""));
            var b := Record(2, Fields("CNAME", "www", "b.net", 300, 0, 0, 0, 0, ""));
            Settled([a, b], [a, b], [b.f], []) && !Converged([a, b], [b.f], [])
  {
    var a := Record(1, Fields("CNAME", "www", "a.net", 300, 0, 0, 0, 0, ""));
    var b := Record(2, Fields("CNAME", "www", "b.net", 300, 0, 0, 0, 0, ""));
    hide CanonicalData, Identity, UpsertKey, Settled, Converged;
    LetterKept("CNAME", "a.net");
    LetterKept("CNAME", "b.net");
    OneKeyTwoIdentities(a.f, "b.net");
    SecondDeclared(a, b);
  }
}
