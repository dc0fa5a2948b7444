/** What a DNS resource declares: record requests and patterns of records that must be absent. */
module DnsConfig {
  import opened DnsRecords
  import opened Text
  import opened Wrappers

  /** One entry of the records list; a missing field is None. */
  datatype RecordConfig = RecordConfig(
    typ: Option<string>,
    name: Option<string>,
    data: Option<string>,
    tag: Option<string>,
    ttl: Option<int>,
    priority: Option<int>,
    port: Option<int>,
    weight: Option<int>,
    flags: Option<int>)

  datatype AbsentConfig = AbsentConfig(typ: Option<string>, name: Option<string>, data: Option<string>)

  /** Which texts netip.ParseAddr reads as an IPv4 and as an IPv6 address. */
  datatype Addresses = Addresses(v4: string -> bool, v6: string -> bool)

  // ----- one entry -----

  predicate Supported(typ: string) {
    typ in ["A", "AAAA", "CAA", "CNAME", "MX", "NS", "SRV", "TXT"]
  }

  function StringField(v: Option<string>, default: string): Option<string> {
    if v.None? then Some(default) else if v.value == "" && default != "" then None else v
  }

  function IntField(v: Option<int>, default: int, least: int): Option<int> {
    if v.None? then Some(default) else if v.value < least then None else v
  }

  predicate ValidLabelChar(c: char) {
    'a' <= c <= 'z' || 'A' <= c <= 'Z' || '0' <= c <= '9' || c == '-'
  }

  predicate ValidLabel(text: string, first: bool, wildcard: bool, underscore: bool) {
    && 0 < |text| <= 63
    && if text == "*" then wildcard && first
       else
         && text[0] != '-' && text[|text| - 1] != '-'
         && forall j | 0 <= j < |text| ::
              ValidLabelChar(text[j]) || (underscore && text[j] == '_' && j == 0 && |text| > 1)
  }

  predicate ValidName(name: string, wildcard: bool, underscore: bool) {
    var trimmed := TrimSuffix(name, ".");
    && name != "" && !(exists c | c in name :: c in " \t\r\n")
    && |name| <= 253
    && trimmed != "" && !(exists i | 0 <= i < |trimmed| - 1 :: trimmed[i] == '.' && trimmed[i + 1] == '.')
    && var labels := Split(trimmed, '.');
       forall i | 0 <= i < |labels| :: ValidLabel(labels[i], i == 0, wildcard, underscore)
  }

  predicate ValidRecordName(name: string) {
    name == "@" || ValidName(name, true, true)
  }

  predicate ValidHost(host: string, addr: Addresses) {
    !addr.v4(host) && !addr.v6(host) && ValidName(host, false, false)
  }

  predicate Uint16(n: int) {
    0 <= n <= 65535
  }

  /** The rules for the data and the extra fields of each record type. */
  predicate ValidRequest(q: Fields, c: RecordConfig, addr: Addresses) {
    && ValidRecordName(q.name)
    && !(q.typ == "CNAME" && q.name == "@")
    && match q.typ {
         case "A" => NoExtras(c) && addr.v4(q.data)
         case "AAAA" => NoExtras(c) && addr.v6(q.data)
         case "CNAME" => NoExtras(c) && ValidHost(q.data, addr)
         case "MX" =>
           && NoExtras(c.(priority := None))
           && c.priority.Some? && Uint16(q.priority) && ValidHost(q.data, addr)
         case "NS" => NoExtras(c) && ValidHost(q.data, addr)
         case "SRV" =>
           && NoExtras(c.(priority := None, port := None, weight := None))
           && c.priority.Some? && c.port.Some? && c.weight.Some?
           && Uint16(q.priority) && 0 < q.port <= 65535 && Uint16(q.weight) && ValidHost(q.data, addr)
         case "CAA" =>
           && NoExtras(c.(flags := None, tag := None))
           && ToLower(q.tag) in ["issue", "issuewild", "iodef"] && 0 <= q.flags <= 255
         case _ => NoExtras(c)
       }
  }

  predicate NoExtras(c: RecordConfig) {
    c.priority.None? && c.port.None? && c.weight.None? && c.flags.None? && c.tag.None?
  }

  function RequestFromConfig(c: RecordConfig, addr: Addresses): (r: Option<Fields>)
    ensures r.Some? ==> Supported(r.value.typ) && r.value.name != "" && r.value.ttl > 0
  {
    var typ, name, tag := StringField(c.typ, "A"), StringField(c.name, "@"), StringField(c.tag, "");
    var ttl, priority, port := IntField(c.ttl, 300, 1), IntField(c.priority, 0, 0), IntField(c.port, 0, 0);
    var weight, flags := IntField(c.weight, 0, 0), IntField(c.flags, 0, 0);
    if typ.None? || !Supported(ToUpper(typ.value)) || name.None? || tag.None? then None
    else if c.data.None? || c.data.value == "" then None
    else if ttl.None? || priority.None? || port.None? || weight.None? || flags.None? then None
    else
      var t := ToUpper(typ.value);
      var q := Fields(t, name.value, c.data.value, ttl.value, priority.value, port.value, weight.value, flags.value,
                      CanonicalTag(t, tag.value));
      if ValidRequest(q, c, addr) then Some(q) else None
  }

  function AbsentFromConfig(c: AbsentConfig, addr: Addresses): (r: Option<Absent>)
    ensures r.Some? ==> Supported(r.value.typ)
  {
    var typ, name, data := StringField(c.typ, "A"), StringField(c.name, "@"), StringField(c.data, "");
    if typ.None? || !Supported(ToUpper(typ.value)) || name.None? || data.None? then None
    else
      var a := Absent(ToUpper(typ.value), name.value, data.value);
      if !ValidRecordName(a.name) || (a.typ == "CNAME" && a.name == "@") then None
      else if a.data != "" && a.typ in ["CNAME", "MX", "NS", "SRV"] && !ValidHost(a.data, addr) then None
      else Some(a)
  }

  /** A pattern with data never canonicalises into the pattern for any data. */
  lemma AbsentDataKept(c: AbsentConfig, addr: Addresses)
    requires AbsentFromConfig(c, addr).Some?
    ensures var a := AbsentFromConfig(c, addr).value;
            a.data != "" ==> CanonicalData(a.typ, a.data) != ""
  {
    hide ValidRecordName, ValidLabel;
    var a := AbsentFromConfig(c, addr).value;
    SupportedUpper(a.typ);
    if Hosted(a.typ) && a.data != "" {
      assert ValidName(a.data, false, false);
    }
  }

  lemma SupportedUpper(typ: string)
    requires Supported(typ)
    ensures ToUpper(typ) == typ
    ensures EqualFold(typ, "CNAME") <==> typ == "CNAME"
  {
    FoldsAgree(typ, "CNAME");
    assert ToUpper("CNAME") == "CNAME";
  }

  // ----- the list of requests -----

  predicate SameRequest(a: Fields, b: Fields) {
    && EqualFold(a.typ, b.typ)
    && EqualFold(a.name, b.name)
    && CanonicalData(a.typ, a.data) == CanonicalData(a.typ, b.data)
    && a.ttl == b.ttl && a.priority == b.priority && a.port == b.port && a.weight == b.weight && a.flags == b.flags
    && CanonicalTag(a.typ, a.tag) == CanonicalTag(b.typ, b.tag)
  }

  predicate NameClash(a: Fields, b: Fields) {
    CanonicalName(a.name) == CanonicalName(b.name) && (a.typ == "CNAME" || b.typ == "CNAME")
  }

  /** Whether two entries may stand in one declaration: a repeated record, or two that can coexist. */
  predicate Compatible(a: Fields, b: Fields) {
    if Identity(a) == Identity(b) then SameRequest(a, b) else !NameClash(a, b)
  }

  function Find(out: seq<Fields>, k: Key): (r: Option<Fields>)
    ensures r.Some? ==> r.value in out && Identity(r.value) == k
    ensures r.None? ==> forall e :: e in out ==> Identity(e) != k
  {
    if out == [] then None
    else
      var n := |out| - 1;
      assert out == out[..n] + [out[n]];
      var earlier := Find(out[..n], k);
      if earlier.None? && Identity(out[n]) == k then Some(out[n]) else earlier
  }

  function AddRequest(out: seq<Fields>, q: Fields): Option<seq<Fields>> {
    var same := Find(out, Identity(q));
    if same.Some? then (if SameRequest(same.value, q) then Some(out) else None)
    else if exists e | e in out :: NameClash(q, e) then None
    else Some(out + [q])
  }

  /** The requests that are kept, in order, or None when one clashes with an earlier one. */
  function Collected(qs: seq<Fields>): Option<seq<Fields>> {
    if qs == [] then Some([])
    else
      var out := Collected(qs[..|qs| - 1]);
      if out.None? then None else AddRequest(out.value, qs[|qs| - 1])
  }

  /** Every entry read as a request, or None when one is malformed. */
  function Requests(cs: seq<RecordConfig>, addr: Addresses): (r: Option<seq<Fields>>)
    ensures r.Some? ==>
              |r.value| == |cs| && forall i :: 0 <= i < |cs| ==> RequestFromConfig(cs[i], addr) == Some(r.value[i])
    ensures r.None? ==> exists i :: 0 <= i < |cs| && RequestFromConfig(cs[i], addr).None?
  {
    if cs == [] then Some([])
    else
      var n := |cs| - 1;
      var earlier, q := Requests(cs[..n], addr), RequestFromConfig(cs[n], addr);
      if earlier.None? || q.None? then None else Some(earlier.value + [q.value])
  }

  function Declared(cs: seq<RecordConfig>, addr: Addresses): Option<seq<Fields>> {
    var qs := Requests(cs, addr);
    if qs.None? then None else Collected(qs.value)
  }

  lemma CollectedStep(qs: seq<Fields>, q: Fields)
    ensures Collected(qs + [q]) == if Collected(qs).None? then None else AddRequest(Collected(qs).value, q)
  {
    assert (qs + [q])[..|qs|] == qs;
  }

  /** One clash refuses the whole list. */
  lemma {:induction false} PrefixRefused(qs: seq<Fields>, i: nat)
    requires i <= |qs| && Collected(qs[..i]).None?
    ensures Collected(qs).None?
    decreases |qs| - i
  {
    hide Collected;
    if i == |qs| {
      assert qs[..i] == qs;
    } else {
      assert qs[..i + 1] == qs[..i] + [qs[i]];
      CollectedStep(qs[..i], qs[i]);
      PrefixRefused(qs, i + 1);
    }
  }

  lemma PrefixDeclared(cs: seq<RecordConfig>, i: nat, qs: seq<Fields>, addr: Addresses)
    requires i <= |cs| && |qs| == i
    requires forall j :: 0 <= j < i ==> RequestFromConfig(cs[j], addr) == Some(qs[j])
    ensures i == |cs| ==> Declared(cs, addr) == Collected(qs)
    ensures Collected(qs).None? ==> Declared(cs, addr).None?
  {
    hide RequestFromConfig, Collected;
    var all := Requests(cs, addr);
    if all.Some? {
      assert all.value[..i] == qs;
      if i == |cs| {
        assert all.value == qs;
      }
      if Collected(qs).None? {
        PrefixRefused(all.value, i);
      }
    }
  }

  function At<K, V>(m: map<K, seq<V>>, k: K): seq<V> {
    if k in m then m[k] else []
  }

  ghost predicate Grouped(byName: map<string, seq<Fields>>, out: seq<Fields>) {
    forall name, e :: e in At(byName, name) <==> e in out && CanonicalName(e.name) == name
  }

  lemma GroupedStep(byName: map<string, seq<Fields>>, out: seq<Fields>, q: Fields)
    requires Grouped(byName, out)
    ensures var name := CanonicalName(q.name); Grouped(byName[name := At(byName, name) + [q]], out + [q])
  {
    hide CanonicalName;
    var name := CanonicalName(q.name);
    var next := byName[name := At(byName, name) + [q]];
    forall n, e ensures e in At(next, n) <==> e in out + [q] && CanonicalName(e.name) == n {
      if n == name {
        assert At(next, n) == At(byName, n) + [q];
      } else {
        assert At(next, n) == At(byName, n);
      }
    }
  }

  /** The loop that builds the declared requests with its two lookup maps. */
  method DeclaredRecords(cs: seq<RecordConfig>, addr: Addresses) returns (r: Option<seq<Fields>>)
    ensures r == Declared(cs, addr)
  {
    hide RequestFromConfig, Identity, SameRequest, CanonicalName, Declared, Find, Collected;
    var out: seq<Fields> := [];
    var seen: map<Key, Fields> := map[];
    var byName: map<string, seq<Fields>> := map[];
    ghost var qs: seq<Fields> := [];
    EmptyCollected();
    for i := 0 to |cs|
      invariant |qs| == i && forall j :: 0 <= j < i ==> RequestFromConfig(cs[j], addr) == Some(qs[j])
      invariant Collected(qs) == Some(out)
      invariant forall k :: Find(out, k) == if k in seen then Some(seen[k]) else None
      invariant Grouped(byName, out)
    {
      var parsed := RequestFromConfig(cs[i], addr);
      if parsed.None? {
        Malformed(cs, i, addr);
        return None;
      }
      var q := parsed.value;
      CollectedStep(qs, q);
      qs := qs + [q];
      var key := Identity(q);
      var name := CanonicalName(q.name);
      assert Find(out, key) == if key in seen then Some(seen[key]) else None;
      if key in seen {
        if !SameRequest(seen[key], q) {
          PrefixDeclared(cs, i + 1, qs, addr);
          return None;
        }
      } else {
        if exists e | e in At(byName, name) :: q.typ == "CNAME" || e.typ == "CNAME" {
          var e :| e in At(byName, name) && (q.typ == "CNAME" || e.typ == "CNAME");
          assert NameClash(q, e);
          PrefixDeclared(cs, i + 1, qs, addr);
          return None;
        }
        assert forall e :: e in out && NameClash(q, e) ==> e in At(byName, name);
        FindAppended(out, q);
        GroupedStep(byName, out, q);
        seen := seen[key := q];
        byName := byName[name := At(byName, name) + [q]];
        out := out + [q];
      }
    }
    PrefixDeclared(cs, |cs|, qs, addr);
    r := Some(out);
  }

  lemma EmptyCollected()
    ensures Collected([]) == Some([])
    ensures forall k :: Find([], k) == None
  {
  }

  lemma Malformed(cs: seq<RecordConfig>, i: nat, addr: Addresses)
    requires i < |cs| && RequestFromConfig(cs[i], addr).None?
    ensures Declared(cs, addr).None?
  {
    hide RequestFromConfig;
  }

  lemma FindAppended(out: seq<Fields>, q: Fields)
    requires Find(out, Identity(q)).None?
    ensures forall k :: Find(out + [q], k) == if k == Identity(q) then Some(q) else Find(out, k)
  {
    assert (out + [q])[..|out|] == out;
  }

  /** What the later steps rely on: supported types, distinct identities, a CNAME alone under its name. */
  ghost predicate Declarable(out: seq<Fields>) {
    && (forall q :: q in out ==> Supported(q.typ))
    && forall i, j :: 0 <= i < j < |out| ==> Identity(out[i]) != Identity(out[j]) && !NameClash(out[i], out[j])
  }

  ghost predicate PairwiseCompatible(qs: seq<Fields>) {
    forall i, j :: 0 <= i < j < |qs| ==> Compatible(qs[i], qs[j])
  }

  predicate Stands(e: Fields, q: Fields) {
    Identity(e) == Identity(q) && SameRequest(e, q)
  }

  /** Each kept request is declared, and each declared one is kept up to an equal request. */
  ghost predicate Represents(out: seq<Fields>, qs: seq<Fields>) {
    && (forall e :: e in out ==> e in qs)
    && forall q :: q in qs ==> exists e :: e in out && Stands(e, q)
  }

  lemma SameRequestSymmetric(a: Fields, b: Fields)
    ensures SameRequest(a, b) ==> SameRequest(b, a)
  {
    if SameRequest(a, b) {
      SameType(a.typ, b.typ);
    }
  }

  lemma SameRequestTransitive(a: Fields, b: Fields, c: Fields)
    requires SameRequest(a, b) && SameRequest(b, c)
    ensures SameRequest(a, c)
  {
    SameType(a.typ, b.typ);
  }

  lemma ClashFollows(a: Fields, a': Fields, b: Fields, b': Fields)
    requires Supported(a.typ) && Supported(a'.typ) && Supported(b.typ) && Supported(b'.typ)
    requires Identity(a) == Identity(a') && Identity(b) == Identity(b')
    ensures NameClash(a, b) == NameClash(a', b')
  {
    SupportedUpper(a.typ);
    SupportedUpper(a'.typ);
    SupportedUpper(b.typ);
    SupportedUpper(b'.typ);
    assert Identity(a)[0] == a.typ && Identity(a')[0] == a'.typ && Identity(b)[0] == b.typ && Identity(b')[0] == b'.typ;
    assert Identity(a)[1] == Identity(a')[1] && Identity(b)[1] == Identity(b')[1];
  }

  /** The order-dependent loop accepts exactly the lists whose entries are pairwise compatible. */
  lemma DeclaredExactly(cs: seq<RecordConfig>, addr: Addresses)
    ensures Declared(cs, addr).Some? <==> Requests(cs, addr).Some? && PairwiseCompatible(Requests(cs, addr).value)
    ensures Declared(cs, addr).Some? ==>
              Declarable(Declared(cs, addr).value) && Represents(Declared(cs, addr).value, Requests(cs, addr).value)
  {
    hide RequestFromConfig, PairwiseCompatible, Declarable, Represents;
    var qs := Requests(cs, addr);
    if qs.Some? {
      forall q | q in qs.value ensures Supported(q.typ) {
        var i :| 0 <= i < |cs| && qs.value[i] == q;
        assert RequestFromConfig(cs[i], addr) == Some(q);
      }
      CollectedExactly(qs.value);
    }
  }

  lemma {:induction false} CollectedExactly(qs: seq<Fields>)
    requires forall q :: q in qs ==> Supported(q.typ)
    ensures Collected(qs).Some? <==> PairwiseCompatible(qs)
    ensures Collected(qs).Some? ==> Declarable(Collected(qs).value) && Represents(Collected(qs).value, qs)
  {
    hide AddRequest, Compatible, Stands, Identity, NameClash, Supported;
    if qs != [] {
      var n := |qs| - 1;
      assert qs == qs[..n] + [qs[n]];
      CollectedExactly(qs[..n]);
      if Collected(qs[..n]).None? {
        assert !PairwiseCompatible(qs);
      } else {
        var out := Collected(qs[..n]).value;
        LastCompatible(qs[..n], qs[n], out);
        AddRequestExactly(out, qs[n]);
        AddedRepresents(qs[..n], qs[n], out);
      }
    }
  }

  lemma StandsItself(q: Fields)
    ensures Stands(q, q)
  {
  }

  lemma AddedRepresents(qs: seq<Fields>, q: Fields, out: seq<Fields>)
    requires Represents(out, qs)
    ensures AddRequest(out, q).Some? ==> Represents(AddRequest(out, q).value, qs + [q])
  {
    hide Identity, NameClash, CanonicalData, CanonicalTag, EqualFold;
    if AddRequest(out, q).Some? {
      var next := AddRequest(out, q).value;
      forall p | p in qs + [q] ensures exists e :: e in next && Stands(e, p) {
        if p in qs {
          var e :| e in out && Stands(e, p);
          assert e in next;
        } else if Find(out, Identity(q)).Some? {
          assert Stands(Find(out, Identity(q)).value, q);
        } else {
          assert q in next;
          StandsItself(q);
        }
      }
    }
  }

  lemma CompatibleFollows(p: Fields, e: Fields, q: Fields)
    requires Supported(p.typ) && Supported(e.typ) && Supported(q.typ)
    requires Stands(e, p)
    ensures Compatible(p, q) == Compatible(e, q)
  {
    hide RequestFromConfig, Identity, SameRequest, NameClash;
    ClashFollows(p, e, q, q);
    SameRequestSymmetric(e, p);
    if SameRequest(p, q) {
      SameRequestTransitive(e, p, q);
    }
    if SameRequest(e, q) {
      SameRequestTransitive(p, e, q);
    }
  }

  /** A new entry is compatible with all earlier ones exactly when it is with the kept ones. */
  lemma LastCompatible(qs: seq<Fields>, q: Fields, out: seq<Fields>)
    requires Represents(out, qs) && PairwiseCompatible(qs)
    requires forall p :: p in qs + [q] ==> Supported(p.typ)
    ensures (forall e :: e in out ==> Compatible(e, q)) <==> PairwiseCompatible(qs + [q])
  {
    hide Compatible, Stands, Supported;
    var all := qs + [q];
    if forall e :: e in out ==> Compatible(e, q) {
      forall i, j | 0 <= i < j < |all| ensures Compatible(all[i], all[j]) {
        if j == |qs| {
          var p := all[i];
          assert p in qs && q in all && p in all;
          var e :| e in out && Stands(e, p);
          assert e in all;
          CompatibleFollows(p, e, q);
        }
      }
    }
    if PairwiseCompatible(all) {
      forall e | e in out ensures Compatible(e, q) {
        var i :| 0 <= i < |qs| && qs[i] == e;
        assert Compatible(all[i], all[|qs|]);
      }
    }
  }

  lemma AddRequestExactly(out: seq<Fields>, q: Fields)
    requires Declarable(out) && Supported(q.typ)
    ensures AddRequest(out, q).Some? <==> forall e :: e in out ==> Compatible(e, q)
    ensures AddRequest(out, q).Some? ==> Declarable(AddRequest(out, q).value)
  {
    hide Identity, SameRequest, CanonicalName, Supported;
    var same := Find(out, Identity(q));
    if same.Some? {
      var i :| 0 <= i < |out| && out[i] == same.value;
      forall e | e in out && e != same.value ensures Compatible(e, q) {
        var j :| 0 <= j < |out| && out[j] == e;
        assert Identity(e) != Identity(q);
        ClashFollows(e, e, q, same.value);
        ClashSymmetric(e, same.value);
      }
    }
    forall e ensures NameClash(q, e) == NameClash(e, q) {
      ClashSymmetric(q, e);
    }
  }

  lemma ClashSymmetric(a: Fields, b: Fields)
    ensures NameClash(a, b) == NameClash(b, a)
  {
  }

  // ----- the list of absent patterns -----

  function AbsentIdentity(a: Absent): Key {
    [ToUpper(a.typ), CanonicalName(a.name), CanonicalData(a.typ, a.data)]
  }

  ghost predicate AnyAbsent(patterns: seq<Absent>, f: Fields) {
    exists a :: a in patterns && AbsentMatches(a, f)
  }

  function AddPattern(out: seq<Absent>, a: Absent): seq<Absent> {
    if exists b | b in out :: AbsentIdentity(b) == AbsentIdentity(a) then out else out + [a]
  }

  /** The absent patterns, each identity once, or None when an entry is malformed. */
  function Patterns(cs: seq<AbsentConfig>, addr: Addresses): Option<seq<Absent>> {
    if cs == [] then Some([])
    else
      var n := |cs| - 1;
      var out, a := Patterns(cs[..n], addr), AbsentFromConfig(cs[n], addr);
      if out.None? || a.None? then None else Some(AddPattern(out.value, a.value))
  }

  lemma PatternsStep(cs: seq<AbsentConfig>, i: nat, addr: Addresses)
    requires i < |cs|
    ensures Patterns(cs[..i + 1], addr) ==
            var out, a := Patterns(cs[..i], addr), AbsentFromConfig(cs[i], addr);
            if out.None? || a.None? then None else Some(AddPattern(out.value, a.value))
  {
    hide AbsentFromConfig, AddPattern;
    assert cs[..i + 1][..i] == cs[..i];
  }

  lemma {:induction false} PatternsFail(cs: seq<AbsentConfig>, i: nat, addr: Addresses)
    requires i <= |cs| && Patterns(cs[..i], addr).None?
    ensures Patterns(cs, addr).None?
    decreases |cs| - i
  {
    hide AbsentFromConfig, AddPattern, Patterns;
    if i == |cs| {
      assert cs[..i] == cs;
    } else {
      PatternsStep(cs, i, addr);
      PatternsFail(cs, i + 1, addr);
    }
  }

  /** The loop that builds the absent patterns with its set of seen identities. */
  method DeclaredAbsent(cs: seq<AbsentConfig>, addr: Addresses) returns (r: Option<seq<Absent>>)
    ensures r == Patterns(cs, addr)
  {
    hide AbsentFromConfig, AbsentIdentity, Patterns;
    var out: seq<Absent> := [];
    var seen: set<Key> := {};
    NoPatterns(cs[..0], addr);
    for i := 0 to |cs|
      invariant Patterns(cs[..i], addr) == Some(out)
      invariant forall k :: k in seen <==> exists a :: a in out && AbsentIdentity(a) == k
    {
      PatternsStep(cs, i, addr);
      var parsed := AbsentFromConfig(cs[i], addr);
      if parsed.None? {
        PatternsFail(cs, i + 1, addr);
        return None;
      }
      var key := AbsentIdentity(parsed.value);
      if key !in seen {
        seen := seen + {key};
        out := out + [parsed.value];
      }
    }
    assert cs[..|cs|] == cs;
    r := Some(out);
  }

  lemma NoPatterns(cs: seq<AbsentConfig>, addr: Addresses)
    requires cs == []
    ensures Patterns(cs, addr) == Some([])
  {
  }

  /** Leaving out a repeated pattern changes no match. */
  lemma {:induction false} PatternsExactly(cs: seq<AbsentConfig>, addr: Addresses, f: Fields)
    ensures Patterns(cs, addr).Some? <==> forall c :: c in cs ==> AbsentFromConfig(c, addr).Some?
    ensures Patterns(cs, addr).Some? ==> forall a :: a in Patterns(cs, addr).value ==>
              exists c :: c in cs && AbsentFromConfig(c, addr) == Some(a)
    ensures Patterns(cs, addr).Some? ==>
              (AnyAbsent(Patterns(cs, addr).value, f) <==>
                 exists c :: c in cs && AbsentMatches(AbsentFromConfig(c, addr).value, f))
  {
    hide AbsentFromConfig, AbsentMatches, AbsentIdentity, Supported;
    if cs != [] {
      var n := |cs| - 1;
      assert cs == cs[..n] + [cs[n]];
      PatternsExactly(cs[..n], addr, f);
      var before, parsed := Patterns(cs[..n], addr), AbsentFromConfig(cs[n], addr);
      if before.Some? && parsed.Some? &&
         exists b | b in before.value :: AbsentIdentity(b) == AbsentIdentity(parsed.value) {
        var b :| b in before.value && AbsentIdentity(b) == AbsentIdentity(parsed.value);
        var c :| c in cs[..n] && AbsentFromConfig(c, addr) == Some(b);
        AbsentDataKept(c, addr);
        AbsentDataKept(cs[n], addr);
        SamePattern(b, parsed.value, f);
      }
    }
  }

  /** Patterns of one identity match the same records. */
  lemma SamePattern(a: Absent, b: Absent, f: Fields)
    requires Supported(a.typ) && Supported(b.typ) && AbsentIdentity(a) == AbsentIdentity(b)
    requires a.data != "" ==> CanonicalData(a.typ, a.data) != ""
    requires b.data != "" ==> CanonicalData(b.typ, b.data) != ""
    ensures AbsentMatches(a, f) == AbsentMatches(b, f)
  {
    SupportedUpper(a.typ);
    SupportedUpper(b.typ);
    assert AbsentIdentity(a)[0] == AbsentIdentity(b)[0];
    assert AbsentIdentity(a)[1] == AbsentIdentity(b)[1] && AbsentIdentity(a)[2] == AbsentIdentity(b)[2];
    assert CanonicalData(a.typ, "") == "";
  }

  /** No declared request is one that must be absent. */
  ghost predicate Consistent(requests: seq<Fields>, patterns: seq<Absent>) {
    forall q :: q in requests ==> !AnyAbsent(patterns, q)
  }

  method ClashFree(requests: seq<Fields>, patterns: seq<Absent>) returns (ok: bool)
    requires forall q :: q in requests ==> Supported(q.typ)
    requires forall a :: a in patterns ==> Supported(a.typ)
    ensures ok <==> Consistent(requests, patterns)
  {
    for i := 0 to |requests|
      invariant Consistent(requests[..i], patterns)
    {
      var q := requests[i];
      SupportedUpper(q.typ);
      for j := 0 to |patterns|
        invariant !AnyAbsent(patterns[..j], q)
      {
        var a := patterns[j];
        SupportedUpper(a.typ);
        FoldsAgree(a.typ, q.typ);
        if a.typ == q.typ && CanonicalName(a.name) == CanonicalName(q.name) &&
           (a.data == "" || CanonicalData(a.typ, a.data) == CanonicalData(a.typ, q.data)) {
          assert a in patterns && AbsentMatches(a, q);
          assert AnyAbsent(patterns, q) && q in requests;
          return false;
        }
        assert patterns[..j + 1] == patterns[..j] + [a];
      }
      assert patterns[..|patterns|] == patterns;
      assert requests[..i + 1] == requests[..i] + [q];
    }
    assert requests[..|requests|] == requests;
    ok := true;
  }
}
