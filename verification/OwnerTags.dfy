/**
 Ownership tags of internal/ownership.go. A text is a sequence of bytes, one character per byte.
 */
module OwnerTags {
  import opened Wrappers

  type Bytes = s: string | forall i :: 0 <= i < |s| ==> s[i] < 256 as char

  const TAG_PREFIX: Bytes := "workflow-owner:"
  const ENCODING_MARK: Bytes := "b64:"
  const MAX_LEN: nat := 255

  // ----- unpadded base64url -----

  function Sextet(n: int): (c: char)
    requires 0 <= n < 64
    ensures c < 128 as char && Value(c) == Some(n)
  {
    if n < 26 then 'A' + n as char
    else if n < 52 then 'a' + (n - 26) as char
    else if n < 62 then '0' + (n - 52) as char
    else if n == 62 then '-' else '_'
  }

  function Value(c: char): (r: Option<int>)
    ensures r.Some? ==> 0 <= r.value < 64
  {
    if 'A' <= c <= 'Z' then Some((c - 'A') as int)
    else if 'a' <= c <= 'z' then Some((c - 'a') as int + 26)
    else if '0' <= c <= '9' then Some((c - '0') as int + 52)
    else if c == '-' then Some(62)
    else if c == '_' then Some(63)
    else None
  }

  function Encode(s: Bytes): (r: Bytes)
    ensures |r| == (8 * |s| + 5) / 6
    ensures forall c :: c in r ==> Value(c).Some?
  {
    if s == [] then ""
    else
      var a := s[0] as int;
      if |s| == 1 then [Sextet(a / 4), Sextet(a % 4 * 16)]
      else
        var b := s[1] as int;
        if |s| == 2 then [Sextet(a / 4), Sextet(a % 4 * 16 + b / 16), Sextet(b % 16 * 4)]
        else
          var c := s[2] as int;
          [Sextet(a / 4), Sextet(a % 4 * 16 + b / 16), Sextet(b % 16 * 4 + c / 64), Sextet(c % 64)] + Encode(s[3..])
  }

  /** The decoder passes over line breaks wherever they stand. */
  function WithoutBreaks(t: Bytes): (r: Bytes)
    ensures (forall i :: 0 <= i < |t| ==> t[i] != '\n' && t[i] != '\r') ==> r == t
  {
    if t == [] then ""
    else
      assert t == [t[0]] + t[1..];
      (if t[0] == '\n' || t[0] == '\r' then "" else [t[0]]) + WithoutBreaks(t[1..])
  }

  /** One to four characters carry up to three bytes; a single one is an error, spare bits are ignored. */
  function DecodeQuanta(u: Bytes): Option<Bytes> {
    if u == [] then Some("")
    else if |u| == 1 then None
    else
      var p, q := Value(u[0]), Value(u[1]);
      if p.None? || q.None? then None
      else
        var a := (p.value * 4 + q.value / 16) as char;
        if |u| == 2 then Some([a])
        else
          var r := Value(u[2]);
          if r.None? then None
          else
            var b := (q.value % 16 * 16 + r.value / 4) as char;
            if |u| == 3 then Some([a, b])
            else
              var v, rest := Value(u[3]), DecodeQuanta(u[4..]);
              if v.None? || rest.None? then None
              else Some([a, b, (r.value % 4 * 64 + v.value) as char] + rest.value)
  }

  function Decode(t: Bytes): Option<Bytes> {
    DecodeQuanta(WithoutBreaks(t))
  }

  /** Three bytes cut into four sextets come together again. */
  lemma Rejoin(a: int, b: int, c: int)
    requires 0 <= a < 256 && 0 <= b < 256 && 0 <= c < 256
    ensures a / 4 * 4 + (a % 4 * 16 + b / 16) / 16 == a
    ensures (a % 4 * 16 + b / 16) % 16 * 16 + (b % 16 * 4 + c / 64) / 4 == b
    ensures (b % 16 * 4 + c / 64) % 4 * 64 + c % 64 == c
  {
  }

  lemma Quantum(p: int, q: int, r: int, v: int, rest: Bytes)
    requires 0 <= p < 64 && 0 <= q < 64 && 0 <= r < 64 && 0 <= v < 64
    ensures DecodeQuanta([Sextet(p), Sextet(q)]) == Some([(p * 4 + q / 16) as char])
    ensures DecodeQuanta([Sextet(p), Sextet(q), Sextet(r)]) ==
            Some([(p * 4 + q / 16) as char, (q % 16 * 16 + r / 4) as char])
    ensures DecodeQuanta(rest).Some? ==>
              DecodeQuanta([Sextet(p), Sextet(q), Sextet(r), Sextet(v)] + rest) ==
              Some([(p * 4 + q / 16) as char, (q % 16 * 16 + r / 4) as char,
                    (r % 4 * 64 + v) as char] + DecodeQuanta(rest).value)
  {
    assert ([Sextet(p), Sextet(q), Sextet(r), Sextet(v)] + rest)[4..] == rest;
  }

  lemma {:induction false} DecodeEncoded(s: Bytes)
    ensures DecodeQuanta(Encode(s)) == Some(s)
  {
    hide Value, Sextet, DecodeQuanta;
    if s == [] {
      DecodeNothing();
    } else {
      var a := s[0] as int;
      var b := if |s| > 1 then s[1] as int else 0;
      var c := if |s| > 2 then s[2] as int else 0;
      Rejoin(a, b, c);
      if |s| > 2 {
        DecodeEncoded(s[3..]);
      }
      Quantum(a / 4, a % 4 * 16 + b / 16, b % 16 * 4 + c / 64, c % 64, if |s| > 2 then Encode(s[3..]) else "");
      if |s| == 1 {
        assert s == [s[0]] && Encode(s) == [Sextet(a / 4), Sextet(a % 4 * 16 + b / 16)];
      } else if |s| == 2 {
        assert s == [s[0], s[1]] &&
               Encode(s) == [Sextet(a / 4), Sextet(a % 4 * 16 + b / 16), Sextet(b % 16 * 4 + c / 64)];
      } else {
        assert s == [s[0], s[1], s[2]] + s[3..];
      }
    }
  }

  lemma DecodeNothing()
    ensures DecodeQuanta("") == Some("")
  {
  }

  lemma Base64RoundTrip(s: Bytes)
    ensures Decode(Encode(s)) == Some(s)
  {
    hide DecodeQuanta, Encode;
    DecodeEncoded(s);
    forall i | 0 <= i < |Encode(s)| ensures Encode(s)[i] != '\n' && Encode(s)[i] != '\r' {
      assert Value(Encode(s)[i]).Some?;
    }
  }

  // ----- the tag -----

  predicate PlainChar(c: char) {
    'a' <= c <= 'z' || 'A' <= c <= 'Z' || '0' <= c <= '9' || c == ':' || c == '-' || c == '_'
  }

  /** The scan that decides whether an owner can stand in a tag as it is. */
  method IsPlainOwnerSuffix(owner: Bytes) returns (r: bool)
    ensures r == Plain(owner)
  {
    if ENCODING_MARK <= owner {
      return false;
    }
    for i := 0 to |owner|
      invariant forall j :: 0 <= j < i ==> PlainChar(owner[j])
    {
      if !PlainChar(owner[i]) {
        return false;
      }
    }
    r := true;
  }

  predicate Plain(owner: Bytes) {
    !(ENCODING_MARK <= owner) && forall i | 0 <= i < |owner| :: PlainChar(owner[i])
  }

  function OwnerTagName(owner: Bytes): Option<Bytes> {
    if owner == "" then None
    else
      var tag: Bytes := TAG_PREFIX + if Plain(owner) then owner else ENCODING_MARK + Encode(owner);
      if |tag| > MAX_LEN then None else Some(tag)
  }

  function OwnerFromTag(tag: Bytes): Option<Bytes> {
    if !(TAG_PREFIX <= tag) || tag == TAG_PREFIX then None
    else
      var suffix: Bytes := tag[|TAG_PREFIX|..];
      if ENCODING_MARK <= suffix then Decode(suffix[|ENCODING_MARK|..]) else Some(suffix)
  }

  /** A tag gives its owner back, through both forms. */
  lemma OwnerRoundTrip(owner: Bytes)
    requires OwnerTagName(owner).Some?
    ensures OwnerFromTag(OwnerTagName(owner).value) == Some(owner)
  {
    var tag := OwnerTagName(owner).value;
    if Plain(owner) {
      assert tag[|TAG_PREFIX|..] == owner;
    } else {
      assert tag[|TAG_PREFIX|..] == ENCODING_MARK + Encode(owner);
      assert (ENCODING_MARK + Encode(owner))[|ENCODING_MARK|..] == Encode(owner);
      Base64RoundTrip(owner);
    }
  }

  lemma OwnerTagInjective(a: Bytes, b: Bytes)
    requires OwnerTagName(a).Some? && OwnerTagName(a) == OwnerTagName(b)
    ensures a == b
  {
    OwnerRoundTrip(a);
    OwnerRoundTrip(b);
  }

  /** The owners that fit: up to 240 plain bytes, or up to 177 of any kind. */
  lemma OwnerTagFits(owner: Bytes)
    ensures OwnerTagName(owner).Some? <==> 0 < |owner| <= if Plain(owner) then 240 else 177
  {
  }

  predicate OnlyBreaks(t: Bytes) {
    forall i | 0 <= i < |t| :: t[i] == '\n' || t[i] == '\r'
  }

  lemma {:induction false} NothingLeft(t: Bytes)
    ensures WithoutBreaks(t) == "" <==> OnlyBreaks(t)
  {
    if t != [] {
      assert t == [t[0]] + t[1..];
      NothingLeft(t[1..]);
    }
  }

  /** No tag is made for the empty owner, yet the encoding mark with nothing but line breaks after it parses as one. */
  lemma EmptyOwnerExactly(tag: Bytes)
    ensures OwnerFromTag(tag) == Some("") <==>
            TAG_PREFIX + ENCODING_MARK <= tag && OnlyBreaks(tag[|TAG_PREFIX + ENCODING_MARK|..])
    ensures OwnerTagName("") == None
  {
    hide Value, Encode;
    if TAG_PREFIX <= tag && tag != TAG_PREFIX {
      var suffix: Bytes := tag[|TAG_PREFIX|..];
      assert tag == TAG_PREFIX + suffix;
      assert ENCODING_MARK <= suffix <==> TAG_PREFIX + ENCODING_MARK <= tag;
      if ENCODING_MARK <= suffix {
        var rest: Bytes := suffix[|ENCODING_MARK|..];
        assert rest == tag[|TAG_PREFIX + ENCODING_MARK|..];
        NothingLeft(rest);
        assert DecodeQuanta(WithoutBreaks(rest)) == Some("") <==> WithoutBreaks(rest) == "";
      }
    }
  }

  // ----- tagging a resource -----

  datatype Ref = Ref(kind: string, providerID: string)

  predicate Taggable(ref: Ref) {
    ref.providerID != "" && ref.kind in ["infra.droplet", "infra.volume", "infra.database", "infra.cache"]
  }

  /** The tags of one resource, as only this program edits them; a failed request may have taken effect. */
  class Tags {
    /** Whether every request is answered with success. */
    const reliable: bool
    var tags: set<Bytes>
    ghost var writes: nat

    /** The tags in some order. */
    method List() returns (r: Option<seq<Bytes>>)
      ensures r.Some? ==> forall t :: t in r.value <==> t in tags
      ensures reliable ==> r.Some?
    {
      var lost: bool := *;
      if lost && !reliable {
        return None;
      }
      var left, out := tags, [];
      while left != {}
        invariant left <= tags && forall t :: t in out <==> t in tags && t !in left
      {
        var t :| t in left;
        out := out + [t];
        left := left - {t};
      }
      r := Some(out);
    }

    method Untag(tag: Bytes) returns (ok: bool)
      modifies this
      ensures tags == old(tags) - {tag} || (!ok && tags == old(tags))
      ensures writes == old(writes) + 1
      ensures reliable ==> ok
    {
      writes := writes + 1;
      var lost: bool := *;
      var applied: bool := *;
      ok := !lost || reliable;
      if ok || applied {
        tags := tags - {tag};
      }
    }

    /** Creates the tag itself; it may exist already. */
    method CreateTag(tag: Bytes) returns (ok: bool)
      ensures reliable ==> ok
    {
      ok := *;
      ok := ok || reliable;
    }

    method Tag(tag: Bytes) returns (ok: bool)
      modifies this
      ensures tags == old(tags) + {tag} || (!ok && tags == old(tags))
      ensures writes == old(writes) + 1
      ensures reliable ==> ok
    {
      writes := writes + 1;
      var lost: bool := *;
      var applied: bool := *;
      ok := !lost || reliable;
      if ok || applied {
        tags := tags + {tag};
      }
    }
  }

  /** The tags that name an owner. */
  ghost function OwnerTagsOf(tags: set<Bytes>): set<Bytes> {
    set t | t in tags && OwnerFromTag(t).Some?
  }

  method GetOwner(ref: Ref, resource: Tags) returns (r: Option<Bytes>)
    ensures r.Some? ==> Taggable(ref)
    ensures resource.reliable ==> (r.Some? <==> Taggable(ref))
    ensures r.Some? ==>
              if OwnerTagsOf(resource.tags) == {} then r.value == ""
              else exists t :: t in OwnerTagsOf(resource.tags) && OwnerFromTag(t) == r
  {
    hide OwnerFromTag;
    if !Taggable(ref) {
      return None;
    }
    var listed := resource.List();
    if listed.None? {
      return None;
    }
    for i := 0 to |listed.value|
      invariant forall j :: 0 <= j < i ==> OwnerFromTag(listed.value[j]).None?
    {
      assert listed.value[i] in resource.tags;
      r := OwnerFromTag(listed.value[i]);
      if r.Some? {
        assert listed.value[i] in OwnerTagsOf(resource.tags);
        return;
      }
    }
    r := Some("");
  }

  method SetOwner(ref: Ref, owner: Bytes, resource: Tags) returns (ok: bool)
    modifies resource
    ensures ok ==> OwnerTagName(owner).Some? && OwnerTagsOf(resource.tags) == {OwnerTagName(owner).value}
    ensures resource.tags - OwnerTagsOf(resource.tags) == old(resource.tags) - OwnerTagsOf(old(resource.tags))
    ensures forall t :: t in resource.tags ==> t in old(resource.tags) || OwnerTagName(owner) == Some(t)
    ensures !Taggable(ref) || OwnerTagName(owner).None? ==> !ok && resource.writes == old(resource.writes)
    ensures OwnerTagName(owner).Some? && OwnerTagsOf(old(resource.tags)) == {OwnerTagName(owner).value} ==>
              resource.tags == old(resource.tags)
    ensures resource.reliable ==> (ok <==> Taggable(ref) && OwnerTagName(owner).Some?)
  {
    hide OwnerFromTag, OwnerTagName;
    if !Taggable(ref) {
      return false;
    }
    var name := OwnerTagName(owner);
    if name.None? {
      return false;
    }
    var tag := name.value;
    OwnerRoundTrip(owner);
    var listed := resource.List();
    if listed.None? {
      return false;
    }
    ghost var before := resource.tags;
    for i := 0 to |listed.value|
      invariant resource.tags <= before
      invariant forall t :: t in before && (OwnerFromTag(t).None? || t == tag) ==> t in resource.tags
      invariant forall j :: 0 <= j < i && listed.value[j] in resource.tags ==>
                  OwnerFromTag(listed.value[j]).None? || listed.value[j] == tag
    {
      var existing := listed.value[i];
      if OwnerFromTag(existing).None? || existing == tag {
        continue;
      }
      assert existing in OwnerTagsOf(before) && OwnerTagsOf(before) != {tag};
      var untagged := resource.Untag(existing);
      if !untagged {
        return false;
      }
    }
    assert forall t :: t in resource.tags ==> t in listed.value;
    assert OwnerTagsOf(resource.tags) <= {tag};
    assert OwnerTagsOf(before) == {tag} ==>
             forall t :: t in before ==> OwnerFromTag(t).None? || t in OwnerTagsOf(before);
    assert OwnerTagsOf(before) == {tag} ==> resource.tags == before;
    var created := resource.CreateTag(tag);
    if !created {
      return false;
    }
    ok := resource.Tag(tag);
  }

  /** After a successful SetOwner the owner read back is the one that was set. */
  lemma OwnerIsRead(owner: Bytes, tags: set<Bytes>, read: Bytes)
    requires OwnerTagName(owner).Some? && OwnerTagsOf(tags) == {OwnerTagName(owner).value}
    requires exists t :: t in OwnerTagsOf(tags) && OwnerFromTag(t) == Some(read)
    ensures read == owner
  {
    OwnerRoundTrip(owner);
  }
}
