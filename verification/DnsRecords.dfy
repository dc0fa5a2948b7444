/** DNS records of internal/drivers/dns.go: canonical forms, the two keys, and the match predicate. */
module DnsRecords {
  import opened Text

  /** What a record says; an edit request has the same fields. */
  datatype Fields = Fields(
    typ: string,
    name: string,
    data: string,
    ttl: int,
    priority: int,
    port: int,
    weight: int,
    flags: int,
    tag: string)

  datatype Record = Record(id: int, f: Fields)

  datatype Absent = Absent(typ: string, name: string, data: string)

  /** A map key: the parts that the program joins with NUL characters. */
  type Key = seq<string>

  // ----- canonical forms -----

  predicate Hosted(typ: string) {
    ToUpper(typ) in ["CNAME", "MX", "NS", "SRV"]
  }

  function CanonicalName(name: string): string {
    ToLower(TrimSuffix(name, "."))
  }

  function CanonicalData(typ: string, data: string): string {
    if Hosted(typ) then ToLower(TrimSuffix(data, ".")) else data
  }

  function CanonicalTag(typ: string, tag: string): string {
    if EqualFold(typ, "CAA") then ToLower(tag) else tag
  }

  predicate IsCname(f: Fields) {
    EqualFold(f.typ, "CNAME")
  }

  function Sprint(n: int): string {
    if n < 0 then "-" + Decimal(-n) else Decimal(n)
  }

  /** The key of Diff and of duplicate detection. */
  function Identity(f: Fields): Key {
    [ToUpper(f.typ), CanonicalName(f.name), CanonicalData(f.typ, f.data)] +
    match ToUpper(f.typ) {
      case "CAA" => [Sprint(f.flags), CanonicalTag(f.typ, f.tag)]
      case "MX" => [Sprint(f.priority)]
      case "SRV" => [Sprint(f.priority), Sprint(f.port), Sprint(f.weight)]
      case _ => []
    }
  }

  /** The key of the upsert: a CNAME is the only one of its name, whatever its target. */
  function UpsertKey(f: Fields): Key {
    if IsCname(f) then [ToUpper(f.typ), CanonicalName(f.name)] else Identity(f)
  }

  /** Whether a live record already says what the request asks. */
  predicate Matches(live: Fields, req: Fields) {
    && EqualFold(live.typ, req.typ)
    && CanonicalName(live.name) == CanonicalName(req.name)
    && CanonicalData(live.typ, live.data) == CanonicalData(live.typ, req.data)
    && live.ttl == req.ttl && live.priority == req.priority && live.port == req.port
    && live.weight == req.weight && live.flags == req.flags
    && CanonicalTag(live.typ, live.tag) == CanonicalTag(req.typ, req.tag)
  }

  predicate AbsentMatches(a: Absent, f: Fields) {
    && EqualFold(a.typ, f.typ)
    && CanonicalName(a.name) == CanonicalName(f.name)
    && (a.data == "" || CanonicalData(a.typ, a.data) == CanonicalData(a.typ, f.data))
  }

  lemma MatchesItself(f: Fields)
    ensures Matches(f, f)
  {
  }

  lemma SameType(a: string, b: string)
    requires EqualFold(a, b)
    ensures ToUpper(a) == ToUpper(b) && Hosted(a) == Hosted(b)
    ensures EqualFold(a, "CAA") == EqualFold(b, "CAA") && EqualFold(a, "CNAME") == EqualFold(b, "CNAME")
  {
    FoldsAgree(a, b);
  }

  /** A record that matches a request carries both of its keys. */
  lemma MatchKeepsKeys(live: Fields, req: Fields)
    requires Matches(live, req)
    ensures Identity(live) == Identity(req) && UpsertKey(live) == UpsertKey(req)
  {
    SameType(live.typ, req.typ);
  }

  /** Records of one identity share the upsert key; only CNAMEs can share an upsert key alone. */
  lemma IdentityRefinesKey(f: Fields, g: Fields)
    ensures Identity(f) == Identity(g) ==> UpsertKey(f) == UpsertKey(g) && IsCname(f) == IsCname(g)
    ensures UpsertKey(f) == UpsertKey(g) && !IsCname(g) ==> Identity(f) == Identity(g)
    ensures UpsertKey(f) == UpsertKey(g) && IsCname(g) ==> IsCname(f)
  {
    FoldsAgree(f.typ, "CNAME");
    FoldsAgree(g.typ, "CNAME");
    assert ToUpper("CNAME") == "CNAME";
    assert Identity(f)[0] == ToUpper(f.typ) && Identity(g)[0] == ToUpper(g.typ);
    assert Identity(f)[1] == CanonicalName(f.name) && Identity(g)[1] == CanonicalName(g.name);
    assert UpsertKey(f)[0] == ToUpper(f.typ) && UpsertKey(g)[0] == ToUpper(g.typ);
  }

  /** What is stored for a request is absent exactly when the request is. */
  lemma MatchKeepsAbsence(a: Absent, live: Fields, req: Fields)
    requires Matches(live, req)
    ensures AbsentMatches(a, live) == AbsentMatches(a, req)
  {
    if EqualFold(a.typ, live.typ) {
      SameType(a.typ, live.typ);
    }
  }

  // ----- the joined text -----

  function Join(parts: seq<string>): string
    requires parts != []
  {
    if |parts| == 1 then parts[0] else parts[0] + "\0" + Join(parts[1..])
  }

  predicate Plain(s: string) {
    '\0' !in s
  }

  /** The last separator of a text can be found again. */
  lemma {:induction false} LastCut(a: string, b: string, x: string, y: string)
    requires Plain(b) && Plain(y)
    requires a + "\0" + b == x + "\0" + y
    ensures a == x && b == y
  {
    var s := a + "\0" + b;
    var last := s[|s| - 1];
    assert b != "" ==> last == b[|b| - 1];
    assert y != "" ==> last == y[|y| - 1];
    assert (b == "" || y == "") ==> last == '\0';
    if b != "" {
      var b', y' := b[..|b| - 1], y[..|y| - 1];
      assert a + "\0" + b' == s[..|s| - 1] == x + "\0" + y';
      LastCut(a, b', x, y');
      assert b == b' + [last] && y == y' + [last];
    } else {
      assert a == s[..|s| - 1] == x;
    }
  }

  lemma SprintPlain(n: int)
    ensures Plain(Sprint(n))
  {
  }

  lemma UpperPlain(s: string)
    requires Plain(s)
    ensures Plain(ToUpper(s)) && Plain(CanonicalName(s)) && Plain(ToLower(s))
  {
    forall i | 0 <= i < |s| ensures UpperChar(s[i]) != '\0' && LowerChar(s[i]) != '\0' {
      assert s[i] != '\0';
    }
    var t := TrimSuffix(s, ".");
    forall i | 0 <= i < |t| ensures LowerChar(t[i]) != '\0' {
      assert t[i] == s[i];
    }
  }

  /** The text after the type and the name. */
  function Tail(f: Fields): string {
    Join(Identity(f)[2..])
  }

  lemma IdentityText(f: Fields)
    ensures Join(Identity(f)) == ToUpper(f.typ) + "\0" + (CanonicalName(f.name) + "\0" + Tail(f))
  {
    var k := Identity(f);
    assert k[1..][1..] == k[2..];
  }

  lemma TailText(f: Fields)
    ensures var d := CanonicalData(f.typ, f.data);
            Tail(f) == match ToUpper(f.typ) {
              case "CAA" => d + "\0" + Sprint(f.flags) + "\0" + CanonicalTag(f.typ, f.tag)
              case "MX" => d + "\0" + Sprint(f.priority)
              case "SRV" => d + "\0" + Sprint(f.priority) + "\0" + Sprint(f.port) + "\0" + Sprint(f.weight)
              case _ => d
            }
  {
    var k := Identity(f)[2..];
    if |k| > 1 {
      JoinFront(k);
    }
    if |k| > 2 {
      JoinFront(k[1..]);
    }
    if |k| > 3 {
      JoinFront(k[2..]);
      assert k[2..][1..] == k[3..];
    }
  }

  lemma JoinFront(k: seq<string>)
    requires |k| > 1
    ensures Join(k) == k[0] + "\0" + Join(k[1..])
    ensures |k| == 2 ==> Join(k[1..]) == k[1]
    ensures |k| > 2 ==> k[1..][1..] == k[2..]
  {
  }

  /** With no NUL in the type, the name and the tag, the joined text identifies the parts. */
  lemma JoinedKeyIsExact(f: Fields, g: Fields)
    requires Plain(f.typ) && Plain(f.name) && Plain(f.tag) && Plain(g.typ) && Plain(g.name) && Plain(g.tag)
    ensures Join(Identity(f)) == Join(Identity(g)) <==> Identity(f) == Identity(g)
  {
    if Join(Identity(f)) == Join(Identity(g)) {
      IdentityText(f);
      IdentityText(g);
      UpperPlain(f.typ);
      UpperPlain(g.typ);
      UpperPlain(f.name);
      UpperPlain(g.name);
      CutFirst(ToUpper(f.typ), '\0', CanonicalName(f.name) + "\0" + Tail(f));
      CutFirst(ToUpper(g.typ), '\0', CanonicalName(g.name) + "\0" + Tail(g));
      CutFirst(CanonicalName(f.name), '\0', Tail(f));
      CutFirst(CanonicalName(g.name), '\0', Tail(g));
      assert Tail(f) == Tail(g);
      TailIsExact(f, g);
    }
  }

  lemma TailIsExact(f: Fields, g: Fields)
    requires ToUpper(f.typ) == ToUpper(g.typ) && CanonicalName(f.name) == CanonicalName(g.name)
    requires Plain(f.tag) && Plain(g.tag) && Tail(f) == Tail(g)
    ensures Identity(f) == Identity(g)
  {
    TailText(f);
    TailText(g);
    UpperPlain(f.tag);
    UpperPlain(g.tag);
    var df, dg := CanonicalData(f.typ, f.data), CanonicalData(g.typ, g.data);
    match ToUpper(f.typ) {
      case "CAA" =>
        SprintPlain(f.flags);
        SprintPlain(g.flags);
        LastCut(df + "\0" + Sprint(f.flags), CanonicalTag(f.typ, f.tag), dg + "\0" + Sprint(g.flags),
                CanonicalTag(g.typ, g.tag));
        LastCut(df, Sprint(f.flags), dg, Sprint(g.flags));
      case "MX" =>
        SprintPlain(f.priority);
        SprintPlain(g.priority);
        LastCut(df, Sprint(f.priority), dg, Sprint(g.priority));
      case "SRV" =>
        forall n: int { SprintPlain(n); }
        LastCut(df + "\0" + Sprint(f.priority) + "\0" + Sprint(f.port), Sprint(f.weight),
                dg + "\0" + Sprint(g.priority) + "\0" + Sprint(g.port), Sprint(g.weight));
        LastCut(df + "\0" + Sprint(f.priority), Sprint(f.port), dg + "\0" + Sprint(g.priority), Sprint(g.port));
        LastCut(df, Sprint(f.priority), dg, Sprint(g.priority));
      case _ =>
    }
  }

  // ----- sublists of a listing -----

  /** The records that satisfy p, in order. */
  function Keep(rs: seq<Record>, p: Record -> bool): (r: seq<Record>)
    ensures forall x :: x in r <==> x in rs && p(x)
  {
    if rs == [] then []
    else
      var n := |rs| - 1;
      assert rs == rs[..n] + [rs[n]];
      Keep(rs[..n], p) + if p(rs[n]) then [rs[n]] else []
  }

  lemma {:induction false} KeepConcat(a: seq<Record>, b: seq<Record>, p: Record -> bool)
    ensures Keep(a + b, p) == Keep(a, p) + Keep(b, p)
  {
    if b == [] {
      assert a + b == a;
    } else {
      var n := |b| - 1;
      assert (a + b)[..|a + b| - 1] == a + b[..n] && (a + b)[|a + b| - 1] == b[n];
      KeepConcat(a, b[..n], p);
      var last := if p(b[n]) then [b[n]] else [];
      assert Keep(a, p) + (Keep(b[..n], p) + last) == (Keep(a, p) + Keep(b[..n], p)) + last;
    }
  }

  lemma KeepOne(x: Record, p: Record -> bool)
    ensures Keep([x], p) == if p(x) then [x] else []
  {
    assert [x][..0] == [];
  }

  /** Filtering a filtered listing by a narrower predicate. */
  lemma {:induction false} KeepKeep(rs: seq<Record>, wide: Record -> bool, narrow: Record -> bool)
    requires forall x :: narrow(x) ==> wide(x)
    ensures Keep(Keep(rs, wide), narrow) == Keep(rs, narrow)
  {
    if rs != [] {
      var n := |rs| - 1;
      KeepKeep(rs[..n], wide, narrow);
      KeepConcat(Keep(rs[..n], wide), if wide(rs[n]) then [rs[n]] else [], narrow);
      KeepOne(rs[n], narrow);
    }
  }

  lemma {:induction false} KeepAll(rs: seq<Record>, p: Record -> bool)
    requires forall x :: x in rs ==> p(x)
    ensures Keep(rs, p) == rs
  {
    if rs != [] {
      var n := |rs| - 1;
      assert rs == rs[..n] + [rs[n]];
      KeepAll(rs[..n], p);
    }
  }

  /** Replacing one record by another, or putting one in, seen through a filter. */
  lemma KeepSplice(a: seq<Record>, x: seq<Record>, b: seq<Record>, p: Record -> bool)
    requires |x| <= 1
    ensures Keep(a + x + b, p) == Keep(a, p) + (if |x| == 1 && p(x[0]) then x else []) + Keep(b, p)
  {
    KeepConcat(a + x, b, p);
    KeepConcat(a, x, p);
    if |x| == 1 {
      KeepOne(x[0], p);
      assert x == [x[0]];
    }
  }

  /** The first record a filter keeps is at the first position that satisfies it. */
  lemma {:induction false} FirstKept(rs: seq<Record>, p: Record -> bool) returns (i: nat)
    requires Keep(rs, p) != []
    ensures i < |rs| && rs[i] == Keep(rs, p)[0] && p(rs[i])
    ensures Keep(rs[..i], p) == []
  {
    var n := |rs| - 1;
    if Keep(rs[..n], p) == [] {
      i := n;
    } else {
      i := FirstKept(rs[..n], p);
      assert rs[..n][..i] == rs[..i];
    }
  }

  function HasKey(k: Key): Record -> bool {
    (r: Record) => UpsertKey(r.f) == k
  }

  function LacksKey(k: Key): Record -> bool {
    (r: Record) => UpsertKey(r.f) != k
  }

  function HasIdentity(k: Key): Record -> bool {
    (r: Record) => Identity(r.f) == k
  }

  function OfKey(rs: seq<Record>, k: Key): seq<Record> {
    Keep(rs, HasKey(k))
  }

  function Others(rs: seq<Record>, k: Key): seq<Record> {
    Keep(rs, LacksKey(k))
  }

  function OfIdentity(rs: seq<Record>, k: Key): seq<Record> {
    Keep(rs, HasIdentity(k))
  }

  ghost predicate DistinctIds(rs: seq<Record>) {
    forall i, j :: 0 <= i < j < |rs| ==> rs[i].id != rs[j].id
  }
}
