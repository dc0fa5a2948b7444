/**
 The digests a one-off job handle carries (internal/app_platform_runner.go). A digest stands for the
 value it was taken of, so digests are equal exactly when the values are.
 */
module JobDigest {
  import opened AppModel
  import opened Text
  import opened Wrappers

  /** Go's "" or the digest of a spec or of a job. */
  datatype Digest = NoDigest | OfSpec(spec: AppSpec) | OfJob(job: Job)

  function KeyOf(e: EnvVar): string {
    e.key
  }

  /** A secret's value is blanked, because the API replaces it when it stores the job. */
  function Blank(e: EnvVar): EnvVar {
    if e.typ == Secret then e.(value := "") else e
  }

  function BlankAll(envs: seq<Option<EnvVar>>): (r: seq<EnvVar>)
    requires forall e :: e in envs ==> e.Some?
    ensures |r| == |envs|
  {
    seq(|envs|, i requires 0 <= i < |envs| => Blank(envs[i].value))
  }

  ghost predicate DistinctKeys(envs: seq<Option<EnvVar>>) {
    && (forall e :: e in envs ==> e.Some?)
    && forall i, j :: 0 <= i < j < |envs| ==> envs[i].value.key != envs[j].value.key
  }

  /** One spelling for every duration: the value alone. */
  function Canonical(t: Timeout): Timeout {
    t.(text := "")
  }

  function Normalized(job: Job): Job
    requires forall e :: e in job.envs ==> e.Some?
  {
    var sorted := SortBy(KeyOf, BlankAll(job.envs));
    job.(timeout := Canonical(job.timeout), envs := Wrap(sorted))
  }

  function Wrap(envs: seq<EnvVar>): (r: seq<Option<EnvVar>>)
    ensures |r| == |envs|
  {
    seq(|envs|, i requires 0 <= i < |envs| => Some(envs[i]))
  }

  /** The intent digest: none when the timeout does not parse or the variables are not a proper map. */
  ghost function Intent(job: Job): Digest {
    if job.timeout.nanos.None? || !DistinctKeys(job.envs) then NoDigest else OfJob(Normalized(job))
  }

  method AppJobIntentDigest(job: Job) returns (d: Digest)
    ensures d == Intent(job)
  {
    if job.timeout.nanos.None? {
      return NoDigest;
    }
    var keys: set<string> := {};
    var envs: seq<EnvVar> := [];
    for i := 0 to |job.envs|
      invariant DistinctKeys(job.envs[..i])
      invariant envs == BlankAll(job.envs[..i])
      invariant keys == set j | 0 <= j < i :: job.envs[j].value.key
    {
      var e := job.envs[i];
      assert job.envs[i] in job.envs;
      if e.None? || e.value.key in keys {
        return NoDigest;
      }
      keys := keys + {e.value.key};
      envs := envs + [Blank(e.value)];
    }
    assert job.envs[..|job.envs|] == job.envs;
    d := OfJob(job.(timeout := Canonical(job.timeout), envs := Wrap(SortBy(KeyOf, envs))));
  }

  /**
   b is a as the API may store it: secrets re-encrypted, variables reordered, the timeout spelled
   differently, everything else equal.
   */
  predicate Respelled(a: Job, b: Job) {
    && a.(timeout := b.timeout, envs := b.envs) == b
    && a.timeout.nanos == b.timeout.nanos
    && (forall e :: e in a.envs ==> e.Some?)
    && (forall e :: e in b.envs ==> e.Some?)
    && multiset(BlankAll(a.envs)) == multiset(BlankAll(b.envs))
  }

  lemma DistinctBlank(envs: seq<Option<EnvVar>>)
    requires DistinctKeys(envs)
    ensures forall x, y :: x in BlankAll(envs) && y in BlankAll(envs) && KeyOf(x) == KeyOf(y) ==> x == y
  {
    var bs := BlankAll(envs);
    forall x, y | x in bs && y in bs && KeyOf(x) == KeyOf(y) ensures x == y {
      var i :| 0 <= i < |bs| && bs[i] == x;
      var j :| 0 <= j < |bs| && bs[j] == y;
      assert envs[i].value.key == envs[j].value.key;
    }
  }

  lemma RepeatCounts<T>(s: seq<T>, i: nat, j: nat)
    requires i < j < |s| && s[i] == s[j]
    ensures multiset(s)[s[i]] >= 2
  {
    assert s == s[..j] + [s[j]] + s[j + 1..];
    assert s[..j][i] == s[i];
    assert s[i] in multiset(s[..j]);
  }

  lemma {:induction false} NoRepeatCounts<T>(s: seq<T>, x: T)
    requires forall i, j :: 0 <= i < j < |s| ==> s[i] != s[j]
    ensures multiset(s)[x] <= 1
  {
    if s != [] {
      var n := |s| - 1;
      assert s == s[..n] + [s[n]];
      NoRepeatCounts(s[..n], x);
    }
  }

  lemma DistinctSurvives(a: Job, b: Job)
    requires Respelled(a, b) && DistinctKeys(a.envs)
    ensures DistinctKeys(b.envs)
  {
    var ba, bb := BlankAll(a.envs), BlankAll(b.envs);
    DistinctBlank(a.envs);
    forall i, j | 0 <= i < j < |b.envs| ensures b.envs[i].value.key != b.envs[j].value.key {
      if b.envs[i].value.key == b.envs[j].value.key {
        var x, y := bb[i], bb[j];
        assert x in multiset(ba) && y in multiset(ba);
        assert KeyOf(x) == KeyOf(y) && x == y;
        RepeatCounts(bb, i, j);
        NoRepeatCounts(ba, x);
        assert false;
      }
    }
  }

  /**
   Jobs with an intent have the same one exactly when one is a respelling of the other: the intent
   forgets variable order, secret values and duration spelling, and nothing else.
   */
  lemma IntentExactly(a: Job, b: Job)
    requires Intent(a) != NoDigest
    ensures Intent(a) == Intent(b) <==> Respelled(a, b)
  {
    if Respelled(a, b) {
      DistinctSurvives(a, b);
      DistinctBlank(a.envs);
      SortForgetsOrder(KeyOf, BlankAll(a.envs), BlankAll(b.envs));
    }
    if Intent(a) == Intent(b) {
      var sa, sb := SortBy(KeyOf, BlankAll(a.envs)), SortBy(KeyOf, BlankAll(b.envs));
      assert Wrap(sa) == Wrap(sb);
      forall i | 0 <= i < |sa| ensures sa[i] == sb[i] {
        assert Wrap(sa)[i] == Wrap(sb)[i];
      }
      assert sa == sb;
    }
  }

  /** Sorting variables keeps them all, each key once. */
  lemma SortKeepsDistinct(envs: seq<EnvVar>)
    requires forall i, j :: 0 <= i < j < |envs| ==> envs[i].key != envs[j].key
    ensures var sorted := SortBy(KeyOf, envs);
      && (forall e :: e in sorted ==> e in envs)
      && forall i, j :: 0 <= i < j < |sorted| ==> sorted[i].key != sorted[j].key
  {
    var sorted := SortBy(KeyOf, envs);
    forall e | e in sorted ensures e in envs {
      assert e in multiset(sorted) && e in multiset(envs);
    }
    forall i, j | 0 <= i < j < |sorted| ensures sorted[i].key != sorted[j].key {
      if sorted[i].key == sorted[j].key {
        assert sorted[i] in envs && sorted[j] in envs;
        assert sorted[i] == sorted[j];
        RepeatCounts(sorted, i, j);
        NoRepeatCounts(envs, sorted[i]);
        assert false;
      }
    }
  }
}
