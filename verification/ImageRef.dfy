/** The parser and printer of image references in internal/drivers/app_platform.go. */
module ImageRef {
  import opened Wrappers
  import opened Text

  datatype RegistryType = Docr | Ghcr | DockerHub | OtherRegistry(name: string)

  datatype ImageSpec = ImageSpec(
    registryType: RegistryType,
    registry: string,
    repository: string,
    tag: string,
    digest: string)

  const DOCR_HOST := "registry.digitalocean.com"
  const GHCR_HOST := "ghcr.io"
  const HUB_HOST := "docker.io"

  predicate Blank(c: char) {
    c == ' ' || c == '\t' || c == '\n' || c == '\r'
  }

  predicate HasBlank(s: string) {
    exists c | c in s :: Blank(c)
  }

  function ParseImageRef(s: string): Option<ImageSpec> {
    if s == "" || TrimSpace(s) != s || HasBlank(s) then None
    else
      var (ref, explicit) := Cut(s, ':');
      if explicit.Some? && (explicit.value == "" || ':' in explicit.value) then None
      else
        var tag := if explicit.Some? then explicit.value else "latest";
        var parts := Split(ref, '/');
        if HasBlank(tag) || (exists p | p in parts :: p == "" || HasBlank(p)) then None
        else ParsePath(ref, parts, tag)
  }

  function ParsePath(ref: string, parts: seq<string>, tag: string): Option<ImageSpec>
    requires parts != []
  {
    var last := parts[|parts| - 1];
    if HasPrefix(ref, DOCR_HOST + "/") then
      if |parts| < 3 then None else Some(ImageSpec(Docr, "", last, tag, ""))
    else if HasPrefix(ref, GHCR_HOST + "/") then
      if |parts| < 3 then None else Some(ImageSpec(Ghcr, parts[1], last, tag, ""))
    else if HasPrefix(ref, HUB_HOST + "/") then
      if |parts| < 3 then None else Some(ImageSpec(DockerHub, parts[1], last, tag, ""))
    else if |parts| < 2 then None
    else Some(ImageSpec(DockerHub, parts[0], last, tag, ""))
  }

  /** Prints an optional spec; a nil spec and one without a repository print as "". */
  function FormatImageSpec(image: Option<ImageSpec>): string {
    if image.None? || image.value.repository == "" then ""
    else
      var img := image.value;
      var tag := if img.tag == "" then "latest" else img.tag;
      match img.registryType
      case Docr =>
        Join3(DOCR_HOST, if img.registry == "" then img.repository else img.registry, img.repository, tag)
      case Ghcr =>
        if img.registry == "" then GHCR_HOST + "/" + img.repository + ":" + tag
        else Join3(GHCR_HOST, img.registry, img.repository, tag)
      case DockerHub =>
        if img.registry == "" then HUB_HOST + "/" + img.repository + ":" + tag
        else Join3(HUB_HOST, img.registry, img.repository, tag)
      case OtherRegistry(_) =>
        if img.registry == "" then img.repository + ":" + tag
        else img.registry + "/" + img.repository + ":" + tag
  }

  function Join3(host: string, registry: string, repository: string, tag: string): string {
    host + "/" + registry + "/" + repository + ":" + tag
  }

  predicate ImageRefsEqual(a: string, b: string) {
    a == b ||
    (a != "" && b != "" &&
     var pa, pb := ParseImageRef(a), ParseImageRef(b);
     pa.Some? && pb.Some? &&
     pa.value.registryType == pb.value.registryType &&
     pa.value.registry == pb.value.registry &&
     pa.value.repository == pb.value.repository &&
     pa.value.tag == pb.value.tag)
  }

  // ----- printing what was parsed parses to the same spec -----

  /** A path segment the parser accepts. */
  ghost predicate Segment(p: string) {
    p != "" && '/' !in p && ':' !in p && !HasBlank(p)
  }

  lemma SplitPrinted(host: string, registry: string, repository: string)
    requires '/' !in host && '/' !in registry && '/' !in repository
    ensures Split(host + "/" + registry + "/" + repository, '/') == [host, registry, repository]
  {
    assert host + "/" + registry + "/" + repository == host + "/" + (registry + "/" + repository);
    SplitFirst(host, '/', registry + "/" + repository);
    SplitFirst(registry, '/', repository);
    CutNone(repository, '/');
  }

  lemma PrintedHasNoBlank(host: string, registry: string, repository: string, tag: string)
    requires Segment(host) && Segment(registry) && Segment(repository)
    requires tag != "" && !HasBlank(tag)
    requires !IsSpace(host[0]) && !IsSpace(tag[|tag| - 1])
    ensures var s := Join3(host, registry, repository, tag);
      s != "" && TrimSpace(s) == s && !HasBlank(s)
  {
    var s := Join3(host, registry, repository, tag);
    assert s[0] == host[0] && s[|s| - 1] == tag[|tag| - 1];
    TrimFixed(s);
    forall c | c in s ensures !Blank(c) {
      assert c in host || c in registry || c in repository || c in tag || c in "/:";
    }
  }

  lemma ParsePrinted(host: string, registry: string, repository: string, tag: string)
    requires Segment(host) && Segment(registry) && Segment(repository)
    requires tag != "" && ':' !in tag && !HasBlank(tag)
    requires !IsSpace(host[0]) && !IsSpace(tag[|tag| - 1])
    ensures var ref := host + "/" + registry + "/" + repository;
      ParseImageRef(Join3(host, registry, repository, tag)) == ParsePath(ref, [host, registry, repository], tag)
  {
    var ref := host + "/" + registry + "/" + repository;
    var s := Join3(host, registry, repository, tag);
    assert s == ref + ":" + tag;
    assert ':' !in ref;
    CutFirst(ref, ':', tag);
    SplitPrinted(host, registry, repository);
    PrintedHasNoBlank(host, registry, repository, tag);
  }

  /** What an accepted reference is made of. */
  ghost predicate WellFormed(img: ImageSpec) {
    && Segment(img.repository)
    && (img.registryType != Docr ==> Segment(img.registry))
    && (img.registryType == Docr ==> img.registry == "")
    && !img.registryType.OtherRegistry?
    && img.tag != "" && ':' !in img.tag && !HasBlank(img.tag) && !IsSpace(img.tag[|img.tag| - 1])
    && img.digest == ""
  }

  lemma DefaultTag()
    ensures !HasBlank("latest") && !IsSpace("latest"[5])
  {
  }

  lemma AcceptedShape(s: string)
    requires ParseImageRef(s).Some?
    ensures WellFormed(ParseImageRef(s).value)
  {
    hide IsSpace, TrimLeft, TrimRight, Blank;
    var (ref, explicit) := Cut(s, ':');
    var parts := Split(ref, '/');
    DefaultTag();
    forall p | p in parts ensures Segment(p) {
    }
    TrimFixed(s);
    if explicit.Some? {
      var tag := explicit.value;
      assert s[|s| - 1] == tag[|tag| - 1];
    }
  }

  lemma DocrSegment()
    ensures Segment(DOCR_HOST) && !IsSpace(DOCR_HOST[0])
  {
  }

  lemma OtherHostSegments()
    ensures Segment(GHCR_HOST) && !IsSpace(GHCR_HOST[0])
    ensures Segment(HUB_HOST) && !IsSpace(HUB_HOST[0])
  {
  }

  function HostOf(t: RegistryType): string
    requires !t.OtherRegistry?
  {
    match t case Docr => DOCR_HOST case Ghcr => GHCR_HOST case DockerHub => HUB_HOST
  }

  /** The printed host selects the branch of its own registry type. */
  lemma HostSelects(t: RegistryType, registry: string, repository: string, tag: string)
    requires !t.OtherRegistry?
    ensures var host := HostOf(t);
      ParsePath(host + "/" + registry + "/" + repository, [host, registry, repository], tag)
      == Some(ImageSpec(t, if t == Docr then "" else registry, repository, tag, ""))
  {
    var host := HostOf(t);
    var ref := host + "/" + registry + "/" + repository;
    assert ref[..|host| + 1] == host + "/";
    assert ref[0] == host[0];
  }

  /** Printing a well-formed spec and parsing the text gives the spec back in every field. */
  lemma Reparse(img: ImageSpec)
    requires WellFormed(img)
    ensures ParseImageRef(FormatImageSpec(Some(img))) == Some(img)
  {
    var host := HostOf(img.registryType);
    var registry := if img.registryType == Docr then img.repository else img.registry;
    assert FormatImageSpec(Some(img)) == Join3(host, registry, img.repository, img.tag);
    DocrSegment();
    OtherHostSegments();
    ParsePrinted(host, registry, img.repository, img.tag);
    HostSelects(img.registryType, registry, img.repository, img.tag);
  }

  /** Printing is undone by parsing for the well-formed specs and for no others. */
  lemma ReparseExactly(img: ImageSpec)
    ensures ParseImageRef(FormatImageSpec(Some(img))) == Some(img) <==> WellFormed(img)
  {
    if WellFormed(img) {
      Reparse(img);
    } else if ParseImageRef(FormatImageSpec(Some(img))) == Some(img) {
      AcceptedShape(FormatImageSpec(Some(img)));
    }
  }

  /** Every accepted reference, printed and parsed again, gives the same spec in every field. */
  lemma PrintParseRoundTrip(s: string)
    requires ParseImageRef(s).Some?
    ensures ParseImageRef(FormatImageSpec(ParseImageRef(s))) == ParseImageRef(s)
  {
    AcceptedShape(s);
    Reparse(ParseImageRef(s).value);
  }

  /** Comparing references is an equivalence relation on all strings, accepted or not. */
  lemma RefsEqualEquivalence(a: string, b: string, c: string)
    ensures ImageRefsEqual(a, a)
    ensures ImageRefsEqual(a, b) ==> ImageRefsEqual(b, a)
    ensures ImageRefsEqual(a, b) && ImageRefsEqual(b, c) ==> ImageRefsEqual(a, c)
  {
  }

  /** A desired reference always equals the printed form of the image it was parsed to. */
  lemma DesiredEqualsPrinted(s: string)
    requires ParseImageRef(s).Some?
    ensures ImageRefsEqual(s, FormatImageSpec(ParseImageRef(s)))
  {
    PrintParseRoundTrip(s);
  }
}
