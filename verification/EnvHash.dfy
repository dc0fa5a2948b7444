/**
 The environment hashes of internal/drivers/app_platform.go. A hash is represented by the text
 that is fed to it, so two hashes are equal exactly when the texts are.
 */
module EnvHash {
  import opened AppModel
  import opened Text
  import opened Wrappers

  /** Go's "" for no variables at all, or the digest of a text. */
  datatype Hash = NoHash | Sha(text: string)

  type Pair = (string, string)

  // ----- the text -----

  function LengthPrefixed(s: string): string {
    Decimal(|s|) + ":" + s
  }

  /** One key and value, each with its length in front. */
  function Field(p: Pair): (r: string)
    ensures r != ""
  {
    LengthPrefixed(p.0) + "=" + LengthPrefixed(p.1) + "\0"
  }

  function Encode(ps: seq<Pair>): string {
    if ps == [] then "" else Field(ps[0]) + Encode(ps[1..])
  }

  lemma {:induction false} EncodeAppend(ps: seq<Pair>, p: Pair)
    ensures Encode(ps + [p]) == Encode(ps) + Field(p)
  {
    if ps == [] {
      assert [p][1..] == [];
      assert Encode([p]) == Field(p) + Encode([]);
    } else {
      EncodeAppend(ps[1..], p);
      assert (ps + [p])[1..] == ps[1..] + [p];
      assert Encode(ps + [p]) == Field(ps[0]) + (Encode(ps[1..]) + Field(p));
    }
  }

  /** A length prefix can be read back from the front of any text. */
  lemma PrefixUnique(a: nat, x: string, b: nat, y: string)
    requires Decimal(a) + ":" + x == Decimal(b) + ":" + y
    ensures a == b && x == y
  {
    CutFirst(Decimal(a), ':', x);
    CutFirst(Decimal(b), ':', y);
    DecimalRoundTrip(a);
    DecimalRoundTrip(b);
  }

  lemma LengthPrefixedUnique(a: string, x: string, b: string, y: string)
    requires LengthPrefixed(a) + x == LengthPrefixed(b) + y
    ensures a == b && x == y
  {
    assert LengthPrefixed(a) + x == Decimal(|a|) + ":" + (a + x);
    assert LengthPrefixed(b) + y == Decimal(|b|) + ":" + (b + y);
    PrefixUnique(|a|, a + x, |b|, b + y);
    assert (a + x)[..|a|] == a && (b + y)[..|b|] == b;
    assert (a + x)[|a|..] == x && (b + y)[|b|..] == y;
  }

  lemma FieldUnique(p: Pair, r: string, q: Pair, s: string)
    requires Field(p) + r == Field(q) + s
    ensures p == q && r == s
  {
    var px, qx := "=" + (LengthPrefixed(p.1) + ("\0" + r)), "=" + (LengthPrefixed(q.1) + ("\0" + s));
    assert Field(p) + r == LengthPrefixed(p.0) + px;
    assert Field(q) + s == LengthPrefixed(q.0) + qx;
    LengthPrefixedUnique(p.0, px, q.0, qx);
    assert px[1..] == LengthPrefixed(p.1) + ("\0" + r) && qx[1..] == LengthPrefixed(q.1) + ("\0" + s);
    LengthPrefixedUnique(p.1, "\0" + r, q.1, "\0" + s);
    assert ("\0" + r)[1..] == r && ("\0" + s)[1..] == s;
  }

  /** The text determines every field of every pair: the encoding is injective. */
  lemma {:induction false} EncodeInjective(ps: seq<Pair>, qs: seq<Pair>)
    requires Encode(ps) == Encode(qs)
    ensures ps == qs
  {
    if ps != [] && qs != [] {
      FieldUnique(ps[0], Encode(ps[1..]), qs[0], Encode(qs[1..]));
      EncodeInjective(ps[1..], qs[1..]);
      assert ps == [ps[0]] + ps[1..] && qs == [qs[0]] + qs[1..];
    }
  }

  // ----- what each side hashes -----

  function Same(k: string): string { k }

  /** The keys of a variable list in order, nil entries skipped, repetitions kept. */
  function KeysOf(envs: seq<Option<EnvVar>>): seq<string> {
    if envs == [] then []
    else
      var n := |envs| - 1;
      KeysOf(envs[..n]) + if envs[n].Some? then [envs[n].value.key] else []
  }

  /** The value of each key; a later entry overrides an earlier one. */
  function ByKey(envs: seq<Option<EnvVar>>): map<string, string> {
    if envs == [] then map[]
    else
      var n := |envs| - 1;
      var m := ByKey(envs[..n]);
      if envs[n].Some? then m[envs[n].value.key := envs[n].value.value] else m
  }

  lemma {:induction false} ByKeyDomain(envs: seq<Option<EnvVar>>)
    ensures forall k :: k in ByKey(envs) <==> k in KeysOf(envs)
  {
    if envs != [] {
      ByKeyDomain(envs[..|envs| - 1]);
    }
  }

  /** A Go map read: "" for a missing key. */
  function At(m: map<string, string>, k: string): string {
    if k in m then m[k] else ""
  }

  function Lookup(keys: seq<string>, m: map<string, string>): seq<Pair> {
    seq(|keys|, i requires 0 <= i < |keys| => (keys[i], At(m, keys[i])))
  }

  function SortedKeys(keys: seq<string>): (r: seq<string>)
    ensures multiset(r) == multiset(keys)
    ensures forall k :: k in r <==> k in keys
  {
    var r := SortBy(Same, keys);
    assert forall k :: k in r <==> k in multiset(r);
    assert forall k :: k in keys <==> k in multiset(keys);
    r
  }

  /** The pairs the list side hashes: every key as often as the list has it. */
  function ListPairs(envs: seq<Option<EnvVar>>): seq<Pair> {
    Lookup(SortedKeys(KeysOf(envs)), ByKey(envs))
  }

  ghost function Enumerate(s: set<string>): (keys: seq<string>)
    ensures forall k :: k in keys <==> k in s
    ensures Distinct(keys)
    ensures |keys| == |s|
  {
    if s == {} then []
    else
      var x :| x in s;
      Enumerate(s - {x}) + [x]
  }

  ghost predicate Distinct(keys: seq<string>) {
    forall i, j :: 0 <= i < j < |keys| ==> keys[i] != keys[j]
  }

  /** The pairs the map side hashes: every key once. */
  ghost function MapPairs(m: map<string, string>): seq<Pair> {
    Lookup(SortedKeys(Enumerate(m.Keys)), m)
  }

  ghost function ListHash(envs: seq<Option<EnvVar>>): Hash {
    if envs == [] then NoHash else Sha(Encode(ListPairs(envs)))
  }

  ghost function MapHash(m: map<string, string>): Hash {
    if m == map[] then NoHash else Sha(Encode(MapPairs(m)))
  }

  // ----- facts about key lists -----

  lemma {:induction false} DistinctMultiset(keys: seq<string>)
    requires Distinct(keys)
    ensures forall k :: multiset(keys)[k] <= 1
  {
    if keys != [] {
      var n := |keys| - 1;
      assert keys == keys[..n] + [keys[n]];
      DistinctMultiset(keys[..n]);
    }
  }

  lemma SameKeysSameMultiset(a: seq<string>, b: seq<string>)
    requires Distinct(a) && Distinct(b)
    requires forall k :: k in a <==> k in b
    ensures multiset(a) == multiset(b)
  {
    DistinctMultiset(a);
    DistinctMultiset(b);
    forall k ensures multiset(a)[k] == multiset(b)[k] {
      assert k in multiset(a) <==> k in a;
      assert k in multiset(b) <==> k in b;
    }
  }

  lemma {:induction false} LengthBoundsDistinct(keys: seq<string>, s: set<string>)
    requires forall k :: k in keys <==> k in s
    ensures |keys| >= |s|
    ensures |keys| == |s| <==> Distinct(keys)
  {
    if keys == [] {
      assert s == {};
    } else {
      var n := |keys| - 1;
      assert keys == keys[..n] + [keys[n]];
      if keys[n] in keys[..n] {
        LengthBoundsDistinct(keys[..n], s);
      } else {
        LengthBoundsDistinct(keys[..n], s - {keys[n]});
      }
    }
  }

  /** The order in which a list of distinct keys is given does not matter. */
  lemma SortedKeysCanonical(a: seq<string>, b: seq<string>)
    requires Distinct(a) && Distinct(b)
    requires forall k :: k in a <==> k in b
    ensures SortedKeys(a) == SortedKeys(b)
  {
    SameKeysSameMultiset(a, b);
    SortForgetsOrder(Same, a, b);
  }

  // ----- the main facts -----

  lemma SameHashSamePairs(m: map<string, string>, n: map<string, string>)
    requires MapHash(m) == MapHash(n)
    ensures m == n == map[] || MapPairs(m) == MapPairs(n)
  {
    if m != map[] && n != map[] {
      EncodeInjective(MapPairs(m), MapPairs(n));
    }
  }

  lemma SameEntries(m: map<string, string>, n: map<string, string>)
    requires forall k :: k in m ==> k in n && m[k] == n[k]
    requires forall k :: k in n ==> k in m && n[k] == m[k]
    ensures m == n
  {
  }

  /** The map side is injective: equal hashes mean equal maps. */
  lemma MapHashInjective(m: map<string, string>, n: map<string, string>)
    requires MapHash(m) == MapHash(n)
    ensures m == n
  {
    SameHashSamePairs(m, n);
    if !(m == n == map[]) {
      PairsDetermineMap(m, n);
      PairsDetermineMap(n, m);
      SameEntries(m, n);
    }
  }

  lemma PairsDetermineMap(m: map<string, string>, n: map<string, string>)
    requires MapPairs(m) == MapPairs(n)
    ensures forall k :: k in m ==> k in n && m[k] == n[k]
  {
    var km, kn := SortedKeys(Enumerate(m.Keys)), SortedKeys(Enumerate(n.Keys));
    forall k | k in m ensures k in n && m[k] == n[k] {
      assert k in km;
      var i :| 0 <= i < |km| && km[i] == k;
      assert MapPairs(m)[i] == (k, m[k]);
      assert MapPairs(n)[i] == (kn[i], n[kn[i]]);
      assert kn[i] in kn;
    }
  }

  /**
   The list side and the map side hash to the same value, for any order of the list, exactly when
   no key occurs twice in the list.
   */
  lemma ListAgreesExactly(envs: seq<Option<EnvVar>>)
    requires envs != [] ==> exists e :: e in envs && e.Some?
    ensures ListHash(envs) == MapHash(ByKey(envs)) <==> Distinct(KeysOf(envs))
  {
    var keys, m := KeysOf(envs), ByKey(envs);
    ByKeyDomain(envs);
    if envs == [] {
    } else {
      var e :| e in envs && e.Some?;
      PresentKey(envs, e.value);
      assert m != map[];
      LengthBoundsDistinct(keys, m.Keys);
      if Distinct(keys) {
        SortedKeysCanonical(keys, Enumerate(m.Keys));
      }
      if ListHash(envs) == MapHash(m) {
        EncodeInjective(ListPairs(envs), MapPairs(m));
        assert |SortedKeys(keys)| == |ListPairs(envs)| == |MapPairs(m)| == |SortedKeys(Enumerate(m.Keys))|;
        assert |multiset(SortedKeys(keys))| == |multiset(keys)|;
        assert |multiset(SortedKeys(Enumerate(m.Keys)))| == |multiset(Enumerate(m.Keys))|;
      }
    }
  }

  lemma {:induction false} PresentKey(envs: seq<Option<EnvVar>>, e: EnvVar)
    requires Some(e) in envs
    ensures e.key in KeysOf(envs)
  {
    var n := |envs| - 1;
    assert envs == envs[..n] + [envs[n]];
    if envs[n] != Some(e) {
      PresentKey(envs[..n], e);
    }
  }

  // ----- the loops -----

  lemma LookupStep(keys: seq<string>, i: nat, m: map<string, string>)
    requires i < |keys|
    ensures Encode(Lookup(keys[..i + 1], m)) == Encode(Lookup(keys[..i], m)) + Field((keys[i], At(m, keys[i])))
  {
    assert Lookup(keys[..i + 1], m) == Lookup(keys[..i], m) + [(keys[i], At(m, keys[i]))];
    EncodeAppend(Lookup(keys[..i], m), (keys[i], At(m, keys[i])));
  }

  /** Writes the sorted fields into the hash, one key at a time. */
  method HashFields(keys: seq<string>, m: map<string, string>) returns (h: Hash)
    ensures h == Sha(Encode(Lookup(SortedKeys(keys), m)))
  {
    var sorted := SortedKeys(keys);
    var text := "";
    for i := 0 to |sorted|
      invariant text == Encode(Lookup(sorted[..i], m))
    {
      text := text + Field((sorted[i], At(m, sorted[i])));
      LookupStep(sorted, i, m);
    }
    assert sorted[..|sorted|] == sorted;
    h := Sha(text);
  }

  /** The hash of the variables the live spec holds. */
  method EnvVarsHash(envs: seq<Option<EnvVar>>) returns (h: Hash)
    ensures h == ListHash(envs)
  {
    if |envs| == 0 {
      return NoHash;
    }
    var keys, byKey := [], map[];
    for i := 0 to |envs|
      invariant keys == KeysOf(envs[..i]) && byKey == ByKey(envs[..i])
    {
      assert envs[..i + 1][..i] == envs[..i];
      if envs[i].Some? {
        keys := keys + [envs[i].value.key];
        byKey := byKey[envs[i].value.key := envs[i].value.value];
      }
    }
    assert envs[..|envs|] == envs;
    h := HashFields(keys, byKey);
  }

  /** The hash of the variables a config declares; the map may be walked in any order. */
  method EnvVarsHashFromConfigMap(m: map<string, string>) returns (h: Hash)
    ensures h == MapHash(m)
  {
    if |m| == 0 {
      assert m == map[];
      return NoHash;
    }
    var keys, rest := [], m.Keys;
    while rest != {}
      invariant rest <= m.Keys && Distinct(keys)
      invariant forall k :: k in keys <==> k in m.Keys - rest
    {
      var k :| k in rest;
      DistinctAppend(keys, k);
      keys := keys + [k];
      rest := rest - {k};
    }
    SortedKeysCanonical(keys, Enumerate(m.Keys));
    h := HashFields(keys, m);
  }

  lemma DistinctAppend(keys: seq<string>, k: string)
    requires Distinct(keys) && k !in keys
    ensures Distinct(keys + [k])
    ensures forall x :: x in keys + [k] <==> x in keys || x == k
  {
    assert forall i :: 0 <= i < |keys| ==> keys[i] in keys;
  }

  lemma EnvStep(envs: seq<Option<EnvVar>>, e: EnvVar)
    ensures KeysOf(envs + [Some(e)]) == KeysOf(envs) + [e.key]
    ensures ByKey(envs + [Some(e)]) == ByKey(envs)[e.key := e.value]
  {
    assert (envs + [Some(e)])[..|envs|] == envs;
  }

  /** The entries are exactly those of the map, each once, all of one type. */
  ghost predicate Entries(envs: seq<Option<EnvVar>>, m: map<string, string>, typ: EnvType) {
    && (forall e :: e in envs ==> e.Some? && e.value.typ == typ)
    && Distinct(KeysOf(envs))
    && ByKey(envs) == m
  }

  lemma EntriesStep(envs: seq<Option<EnvVar>>, m: map<string, string>, e: EnvVar)
    requires Entries(envs, m, e.typ)
    requires e.key !in m
    ensures Entries(envs + [Some(e)], m[e.key := e.value], e.typ)
  {
    EnvStep(envs, e);
    ByKeyDomain(envs);
    DistinctAppend(KeysOf(envs), e.key);
  }

  /** Appends one map to a variable list as one type of variable, in any order. */
  method AppendEnvs(before: seq<Option<EnvVar>>, m: map<string, string>, typ: EnvType)
    returns (envs: seq<Option<EnvVar>>, ghost added: seq<Option<EnvVar>>)
    ensures envs == before + added && Entries(added, m, typ)
  {
    var rest := m.Keys;
    envs, added := before, [];
    ghost var done: map<string, string> := map[];
    while rest != {}
      invariant rest <= m.Keys
      invariant done.Keys == m.Keys - rest && forall k :: k in done ==> done[k] == m[k]
      invariant envs == before + added && Entries(added, done, typ)
    {
      var k :| k in rest;
      var e := EnvVar(k, m[k], typ, "RUN_AND_BUILD_TIME");
      EntriesStep(added, done, e);
      envs := envs + [Some(e)];
      added, done := added + [Some(e)], done[k := m[k]];
      rest := rest - {k};
    }
    assert done == m;
  }

  /** What envVarsFromConfig emits: the plain map, then the secret map, each in some order. */
  ghost predicate Emitted(envs: seq<Option<EnvVar>>, plain: map<string, string>, secret: map<string, string>) {
    exists a, b :: Entries(a, plain, General) && Entries(b, secret, Secret) && envs == a + b
  }

  method EnvVarsFromConfig(plain: map<string, string>, secret: map<string, string>)
    returns (envs: seq<Option<EnvVar>>)
    ensures Emitted(envs, plain, secret)
  {
    ghost var a, b;
    envs, a := AppendEnvs([], plain, General);
    envs, b := AppendEnvs(envs, secret, Secret);
  }

  lemma {:induction false} KeysConcat(a: seq<Option<EnvVar>>, b: seq<Option<EnvVar>>)
    ensures KeysOf(a + b) == KeysOf(a) + KeysOf(b)
  {
    if b == [] {
      assert a + b == a;
    } else {
      var n := |b| - 1;
      assert (a + b)[..|a| + n] == a + b[..n];
      KeysConcat(a, b[..n]);
    }
  }

  lemma {:induction false} ByKeyConcat(a: seq<Option<EnvVar>>, b: seq<Option<EnvVar>>)
    ensures ByKey(a + b) == ByKey(a) + ByKey(b)
  {
    if b == [] {
      assert a + b == a;
    } else {
      var n := |b| - 1;
      var ab := a + b;
      assert ab[..|ab| - 1] == a + b[..n] && ab[|ab| - 1] == b[n];
      ByKeyConcat(a, b[..n]);
      var m := ByKey(a + b[..n]);
      assert ByKey(ab) == if b[n].Some? then m[b[n].value.key := b[n].value.value] else m;
    }
  }

  lemma ConcatDistinct(a: seq<string>, b: seq<string>)
    requires Distinct(a) && Distinct(b)
    ensures Distinct(a + b) <==> forall k :: k in a ==> k !in b
  {
    var ab := a + b;
    if Distinct(ab) {
      forall i, j | 0 <= i < |a| && 0 <= j < |b| ensures a[i] != b[j] {
        assert ab[i] != ab[|a| + j];
      }
    }
    if forall k :: k in a ==> k !in b {
      forall i, j | 0 <= i < j < |ab| ensures ab[i] != ab[j] {
        if i < |a| <= j {
          assert a[i] in a && b[j - |a|] in b;
        }
      }
    }
  }

  /**
   What a config declares and what the compiled spec holds hash alike exactly when no key is both
   plain and secret: with disjoint keys there is never spurious drift, with a shared key always.
   */
  lemma EnvDriftExactly(envs: seq<Option<EnvVar>>, plain: map<string, string>, secret: map<string, string>)
    requires Emitted(envs, plain, secret)
    ensures ListHash(envs) == MapHash(plain + secret) <==> plain.Keys !! secret.Keys
  {
    var a, b :| Entries(a, plain, General) && Entries(b, secret, Secret) && envs == a + b;
    KeysConcat(a, b);
    ByKeyConcat(a, b);
    ByKeyDomain(a);
    ByKeyDomain(b);
    ConcatDistinct(KeysOf(a), KeysOf(b));
    assert plain.Keys !! secret.Keys <==> forall k :: k in KeysOf(a) ==> k !in KeysOf(b);
    if envs != [] {
      assert envs[0] in a || envs[0] in b;
      assert envs[0] in envs && envs[0].Some?;
    }
    ListAgreesExactly(envs);
  }
}
