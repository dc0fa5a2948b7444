/** The image of a service, and how a flat reference is written into it (internal/drivers/util.go, deploy.go). */
module ServiceImages {
  import opened Text
  import opened Wrappers

  /** A service's image; `rest` stands for the fields that an update leaves alone. */
  datatype Image = Image(repository: string, tag: string, rest: string)

  /** The services of a spec, each with its image, if it has one. */
  type Services = seq<Option<Image>>

  /** Where the part after the last slash begins. */
  function AfterLastSlash(s: string): (i: nat)
    ensures i <= |s| && '/' !in s[i..] && (i > 0 ==> s[i - 1] == '/')
  {
    if s == "" then 0
    else
      var n := |s| - 1;
      if s[n] == '/' then |s|
      else
        var i := AfterLastSlash(s[..n]);
        assert s[i..] == s[..n][i..] + [s[n]];
        i
  }

  /** The reference cut at the first colon after its last slash. */
  function SplitImageRef(image: string): (string, Option<string>) {
    var i := AfterLastSlash(image);
    var (before, after) := Cut(image[i..], ':');
    (image[..i] + before, after)
  }

  function ImageRepo(image: string): string {
    SplitImageRef(image).0
  }

  function ImageTag(image: string): string {
    var tag := SplitImageRef(image).1;
    if tag.Some? then tag.value else "latest"
  }

  /** The flat reference that the current image is reported as. */
  function FlatRef(image: Image): string {
    image.repository + ":" + image.tag
  }

  lemma SlashFree(s: string, i: nat)
    requires i <= |s| && '/' !in s[i..]
    ensures forall k :: i <= k < |s| ==> s[k] != '/'
  {
    forall k | i <= k < |s| ensures s[k] != '/' {
      assert s[i..][k - i] == s[k];
    }
  }

  lemma LastSlashUnique(s: string, i: nat)
    requires i <= |s| && '/' !in s[i..] && (i > 0 ==> s[i - 1] == '/')
    ensures AfterLastSlash(s) == i
  {
    var j := AfterLastSlash(s);
    SlashFree(s, i);
    SlashFree(s, j);
  }

  /** An image is promotable when its flat reference reads back as its repository and tag. */
  predicate Promotable(image: Image) {
    '/' !in image.tag && ':' !in image.repository[AfterLastSlash(image.repository)..]
  }

  /** Repository and tag survive the flat reference exactly when the tag has no slash and the name no colon. */
  lemma FlatRefExactly(image: Image)
    ensures ImageRepo(FlatRef(image)) == image.repository && ImageTag(FlatRef(image)) == image.tag <==>
              Promotable(image)
  {
    var repo, tag, flat := image.repository, image.tag, FlatRef(image);
    var i := AfterLastSlash(repo);
    if '/' !in tag {
      assert flat[i..] == repo[i..] + ":" + tag;
      LastSlashUnique(flat, i);
      if ':' !in repo[i..] {
        CutFirst(repo[i..], ':', tag);
        assert flat[..i] + repo[i..] == repo;
      } else {
        ColonCutsEarlier(repo[i..], tag);
        assert |ImageRepo(flat)| < |repo|;
      }
    } else {
      SlashInTag(repo, tag);
    }
  }

  lemma ColonCutsEarlier(name: string, tag: string)
    requires ':' in name
    ensures |Cut(name + ":" + tag, ':').0| < |name|
  {
    var text := name + ":" + tag;
    var (before, after) := Cut(text, ':');
    var k :| 0 <= k < |name| && name[k] == ':';
    assert text[k] == ':' && ':' in text;
    CutNone(before, ':');
    assert after.Some?;
    forall i | 0 <= i < |before| ensures text[i] != ':' {
      assert before[i] == text[i];
    }
  }

  lemma SlashInTag(repo: string, tag: string)
    requires '/' in tag
    ensures |ImageRepo(repo + ":" + tag)| > |repo|
  {
    var flat := repo + ":" + tag;
    var k :| 0 <= k < |tag| && tag[k] == '/';
    var at := |repo| + 1 + k;
    assert flat[at] == '/';
    var i := AfterLastSlash(flat);
    SlashFree(flat, i);
  }

  /** Every service that has an image gets the repository and the tag. */
  function WithImage(services: Services, repository: string, tag: string): (r: Services)
    ensures |r| == |services|
  {
    seq(|services|, i requires 0 <= i < |services| =>
      if services[i].None? then None else Some(services[i].value.(repository := repository, tag := tag)))
  }

  /** The loop over the services. */
  method SetImages(services: Services, image: string) returns (r: Services)
    ensures r == WithImage(services, ImageRepo(image), ImageTag(image))
  {
    r := services;
    for i := 0 to |services|
      invariant |r| == |services|
      invariant forall j :: 0 <= j < i ==> r[j] == WithImage(services, ImageRepo(image), ImageTag(image))[j]
      invariant forall j :: i <= j < |services| ==> r[j] == services[j]
    {
      if services[i].Some? {
        r := r[i := Some(services[i].value.(repository := ImageRepo(image), tag := ImageTag(image)))];
      }
    }
  }
}
