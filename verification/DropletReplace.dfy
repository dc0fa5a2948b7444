/**
 Replacing a Droplet that has volumes attached (internal/drivers/droplet.go): price check, detach,
 wait, delete, create with the same volumes.
 */
module DropletReplace {
  import opened Wrappers

  // ----- the price check -----

  datatype Size = Size(slug: string, regions: seq<string>, available: bool, monthly: real)

  /** A page of the Sizes catalog; `next` is the page number the link names, if there is a link. */
  datatype Page = Page(sizes: seq<Size>, total: Option<int>, next: Option<int>)

  /** `sshKeys` is None when the list is malformed; `volumes` are names; the cap is None when there is none. */
  datatype Spec = Spec(
    name: string,
    size: string,
    region: string,
    cap: Option<real>,
    sshKeys: Option<seq<string>>,
    volumes: seq<string>)

  const PAGE_LIMIT: nat := 100

  predicate ValidSlug(s: string) {
    s != "" && forall c | c in s :: c == '-' || 'a' <= c <= 'z' || '0' <= c <= '9'
  }

  /** The one size of the slug, None when a second one turns up. */
  function Pick(sizes: seq<Size>, slug: string, selected: Option<Size>): Option<Option<Size>> {
    if sizes == [] then Some(selected)
    else if sizes[0].slug != slug then Pick(sizes[1..], slug, selected)
    else if selected.Some? then None
    else Pick(sizes[1..], slug, Some(sizes[0]))
  }

  /** The size that a run of answers settles on, None when the catalog is ambiguous, cut off or inconsistent. */
  function Scan(answers: seq<Reply<Page>>, slug: string, page: nat, rows: nat, selected: Option<Size>): Option<Size> {
    if answers == [] || answers[0].Lost? then None
    else
      var p := answers[0].value;
      var picked, count := Pick(p.sizes, slug, selected), rows + |p.sizes|;
      if picked.None? then None
      else if p.next.Some? then
        if p.next.value != page + 1 || page >= PAGE_LIMIT then None
        else Scan(answers[1..], slug, page + 1, count, picked.value)
      else if p.total.Some? && p.total.value != count then None
      else picked.value
  }

  predicate Affordable(s: Size, spec: Spec) {
    && s.available && spec.region in s.regions
    && s.monthly > 0.0 && spec.cap.Some? && s.monthly <= spec.cap.value
  }

  predicate Quotable(spec: Spec) {
    spec.cap.Some? && spec.cap.value > 0.0 && ValidSlug(spec.size) && ValidSlug(spec.region)
  }

  /** Whether the answers let the spec pass. A spec without a cap asks nothing. */
  predicate Priced(spec: Spec, answers: seq<Reply<Page>>) {
    spec.cap.None? ||
    (Quotable(spec) && var s := Scan(answers, spec.size, 1, 0, None); s.Some? && Affordable(s.value, spec))
  }

  function Rows(answers: seq<Reply<Page>>): seq<Size> {
    if answers == [] then [] else (if answers[0].Lost? then [] else answers[0].value.sizes) + Rows(answers[1..])
  }

  function OfSlug(sizes: seq<Size>, slug: string): seq<Size> {
    if sizes == [] then []
    else (if sizes[0].slug == slug then [sizes[0]] else []) + OfSlug(sizes[1..], slug)
  }

  lemma {:induction false} OfSlugConcat(a: seq<Size>, b: seq<Size>, slug: string)
    ensures OfSlug(a + b, slug) == OfSlug(a, slug) + OfSlug(b, slug)
  {
    if a == [] {
      assert a + b == b;
    } else {
      assert (a + b)[0] == a[0] && (a + b)[1..] == a[1..] + b;
      OfSlugConcat(a[1..], b, slug);
      var head := if a[0].slug == slug then [a[0]] else [];
      assert head + (OfSlug(a[1..], slug) + OfSlug(b, slug)) == (head + OfSlug(a[1..], slug)) + OfSlug(b, slug);
    }
  }

  function Listed(s: Option<Size>): seq<Size> {
    if s.None? then [] else [s.value]
  }

  lemma {:induction false} PickExactly(sizes: seq<Size>, slug: string, selected: Option<Size>)
    ensures Pick(sizes, slug, selected).Some? ==>
              Listed(selected) + OfSlug(sizes, slug) == Listed(Pick(sizes, slug, selected).value)
  {
    if sizes != [] {
      if sizes[0].slug != slug {
        PickExactly(sizes[1..], slug, selected);
      } else if selected.None? {
        PickExactly(sizes[1..], slug, Some(sizes[0]));
      }
    }
  }

  /** What the scan settles on is the only size of that slug in all the pages read. */
  lemma {:induction false} ScanIsUnique(answers: seq<Reply<Page>>, slug: string, page: nat, rows: nat,
                                        selected: Option<Size>, count: nat)
    requires Scan(answers, slug, page, rows, selected).Some?
    requires count <= |answers| && forall i :: 0 <= i < count ==> answers[i].Answered? && answers[i].value.next.Some?
    requires count < |answers| ==> answers[count].Lost? || answers[count].value.next.None?
    ensures count < |answers|
    ensures Listed(selected) + OfSlug(Rows(answers[..count + 1]), slug) ==
            [Scan(answers, slug, page, rows, selected).value]
  {
    hide Pick;
    var p := answers[0].value;
    PickExactly(p.sizes, slug, selected);
    var picked := Pick(p.sizes, slug, selected).value;
    if p.next.Some? {
      ScanIsUnique(answers[1..], slug, page + 1, rows + |p.sizes|, picked, count - 1);
      assert answers[..count + 1][1..] == answers[1..][..count];
      OfSlugConcat(p.sizes, Rows(answers[1..][..count]), slug);
    } else {
      assert count == 0;
      assert answers[..1][1..] == [];
      assert Rows(answers[..1]) == p.sizes + [];
      assert p.sizes + [] == p.sizes;
    }
  }

  // ----- what a client does and sees -----

  datatype Status = Completed | Errored | InProgress

  datatype Event =
    | OldRead(volumes: seq<string>)
    | OldGone
    | DetachSent(volume: string, droplet: int, action: Option<int>)
    | ActionSeen(seen: int, status: Status)
    | DeleteSent(droplet: int, done: bool)
    | CreateSent(spec: Spec, volumes: seq<string>)

  /** The volume's detach was sent, and its action was seen completed afterwards. */
  ghost predicate Detached(ev: seq<Event>, volume: string, droplet: int) {
    exists i: nat, j: nat :: i < j < |ev| && ev[i].DetachSent? && ev[i].volume == volume && ev[i].droplet == droplet &&
      ev[i].action.Some? && ev[j] == ActionSeen(ev[i].action.value, Completed)
  }

  lemma DetachedStays(a: seq<Event>, b: seq<Event>, volume: string, droplet: int)
    requires Detached(a, volume, droplet)
    ensures Detached(a + b, volume, droplet)
  {
    var i: nat, j: nat :| i < j < |a| && a[i].DetachSent? && a[i].volume == volume && a[i].droplet == droplet &&
      a[i].action.Some? && a[j] == ActionSeen(a[i].action.value, Completed);
    assert (a + b)[i] == a[i] && (a + b)[j] == a[j];
  }

  /** The account's droplets, which nobody else changes; a failed request may have taken effect. */
  class Cloud {
    /** Whether every request is answered, every action completes, and nothing is cancelled. */
    const reliable: bool
    var droplets: set<int>
    ghost var log: seq<Event>
    /** Every answer of the Sizes catalog, in order. */
    ghost var pages: seq<Reply<Page>>

    method ListSizes(page: nat) returns (r: Reply<Page>)
      modifies this`pages
      ensures pages == old(pages) + [r]
    {
      r := *;
      pages := pages + [r];
    }

    method Get(id: int) returns (r: Reply<Option<seq<string>>>, ghost ev: seq<Event>)
      modifies this`log
      ensures log == old(log) + ev
      ensures ev == if r.Lost? then [] else if r.value.None? then [OldGone] else [OldRead(r.value.value)]
      ensures r.Answered? ==> (r.value.Some? <==> id in droplets)
      ensures reliable ==> r.Answered?
    {
      ev := [];
      var lost: bool := *;
      if lost && !reliable {
        return Lost, ev;
      }
      var volumes: seq<string> := *;
      r := Answered(if id in droplets then Some(volumes) else None);
      ev := if id in droplets then [OldRead(volumes)] else [OldGone];
      log := log + ev;
    }

    method DetachByDropletID(volume: string, id: int) returns (action: Option<int>, ghost ev: seq<Event>)
      modifies this`log
      ensures ev == [DetachSent(volume, id, action)] && log == old(log) + ev
      ensures reliable ==> action.Some?
    {
      var started: int := *;
      var lost: bool := *;
      action := if lost && !reliable then None else Some(started);
      ev := [DetachSent(volume, id, action)];
      log := log + ev;
    }

    method GetAction(action: int) returns (r: Reply<Status>, ghost ev: seq<Event>)
      modifies this`log
      ensures ev == (if r.Answered? then [ActionSeen(action, r.value)] else []) && log == old(log) + ev
      ensures reliable ==> r == Answered(Completed)
    {
      r := *;
      if reliable {
        r := Answered(Completed);
      }
      ev := if r.Answered? then [ActionSeen(action, r.value)] else [];
      log := log + ev;
    }

    method Delete(id: int) returns (done: bool, ghost ev: seq<Event>)
      modifies this`droplets, this`log
      ensures ev == [DeleteSent(id, done)] && log == old(log) + ev
      ensures droplets == old(droplets) - {id} || (!done && droplets == old(droplets))
      ensures reliable ==> done
    {
      done := *;
      done := done || reliable;
      var applied: bool := *;
      if done || applied {
        droplets := droplets - {id};
      }
      ev := [DeleteSent(id, done)];
      log := log + ev;
    }

    /** A create that is answered carries the id; an empty id counts as a failure. */
    method Create(spec: Spec, volumes: seq<string>) returns (id: Option<int>, ghost ev: seq<Event>)
      modifies this`droplets, this`log
      ensures ev == [CreateSent(spec, volumes)] && log == old(log) + ev
      ensures old(droplets) <= droplets && (id.Some? ==> id.value in droplets)
      ensures reliable ==> id.Some? && id.value != 0
    {
      var made: int := *;
      var lost: bool := *;
      if made == 0 && reliable {
        made := 1;
      }
      id := if lost && !reliable then None else Some(made);
      var more: set<int> := *;
      droplets := droplets + more + if id.Some? then {id.value} else {};
      ev := [CreateSent(spec, volumes)];
      log := log + ev;
    }

    /** The ids of volumes looked up by name. */
    method ResolveVolumes(names: seq<string>, region: string) returns (ids: Option<seq<string>>)
      ensures reliable ==> ids.Some?
    {
      var found: seq<string> := *;
      var lost: bool := *;
      ids := if lost && !reliable then None else Some(found);
    }

    method Interrupted() returns (b: bool)
      ensures reliable ==> !b
    {
      b := *;
      b := b && !reliable;
    }

    method Ready(id: int) returns (b: bool)
      ensures reliable ==> b
    {
      b := *;
      b := b || reliable;
    }
  }

  /** Asks the catalog afresh when there is a cap, and not at all when there is none. */
  method QuoteDropletPrice(cloud: Cloud, spec: Spec) returns (ok: bool, ghost answers: seq<Reply<Page>>)
    modifies cloud`pages
    ensures cloud.pages == old(cloud.pages) + answers
    ensures ok == Priced(spec, answers)
    ensures !Quotable(spec) ==> answers == []
  {
    hide Scan;
    answers := [];
    if spec.cap.None? {
      return true, answers;
    }
    if !Quotable(spec) {
      return false, answers;
    }
    var selected;
    selected, answers := ReadCatalog(cloud, spec.size);
    ok := selected.Some? && Affordable(selected.value, spec);
  }

  /** The page loop over the Sizes catalog. */
  method ReadCatalog(cloud: Cloud, slug: string) returns (r: Option<Size>, ghost answers: seq<Reply<Page>>)
    modifies cloud`pages
    ensures cloud.pages == old(cloud.pages) + answers && answers != []
    ensures r == Scan(answers, slug, 1, 0, None)
  {
    hide Pick, Scan;
    var page: nat, rows: nat, selected := 1, 0, None;
    answers := [];
    assert forall more: seq<Reply<Page>> :: [] + more == more;
    while true
      invariant 1 <= page <= PAGE_LIMIT
      invariant cloud.pages == old(cloud.pages) + answers
      invariant ScansTo(answers, slug, page, rows, selected)
      decreases PAGE_LIMIT - page
    {
      var answer := cloud.ListSizes(page);
      ScanOne(answer, slug, page, rows, selected);
      ghost var before := answers;
      answers := answers + [answer];
      assert Scan(answers, slug, 1, 0, None) == Scan([answer], slug, page, rows, selected);
      if answer.Lost? {
        return None, answers;
      }
      var p := answer.value;
      var picked := Pick(p.sizes, slug, selected);
      if picked.None? {
        return None, answers;
      }
      if p.next.None? {
        r := if p.total.Some? && p.total.value != rows + |p.sizes| then None else picked.value;
        return;
      }
      if p.next.value != page + 1 || page >= PAGE_LIMIT {
        return None, answers;
      }
      ScansOn(before, answer, slug, page, rows, selected);
      page, rows, selected := page + 1, rows + |p.sizes|, picked.value;
    }
  }

  lemma ScanOne(answer: Reply<Page>, slug: string, page: nat, rows: nat, selected: Option<Size>)
    ensures Scan([answer], slug, page, rows, selected) ==
            if answer.Lost? || Pick(answer.value.sizes, slug, selected).None? || answer.value.next.Some? then None
            else if answer.value.total.Some? && answer.value.total.value != rows + |answer.value.sizes| then None
            else Pick(answer.value.sizes, slug, selected).value
  {
    if answer.Answered? && answer.value.next.Some? {
      assert [answer][1..] == [];
    }
  }

  /** Reading on from these answers is scanning on from this state. */
  ghost predicate ScansTo(answers: seq<Reply<Page>>, slug: string, page: nat, rows: nat, selected: Option<Size>) {
    forall more :: Scan(answers + more, slug, 1, 0, None) == Scan(more, slug, page, rows, selected)
  }

  lemma ScansOn(answers: seq<Reply<Page>>, answer: Reply<Page>, slug: string, page: nat, rows: nat,
                selected: Option<Size>)
    requires ScansTo(answers, slug, page, rows, selected)
    requires answer.Answered? && answer.value.next == Some(page + 1) && page < PAGE_LIMIT
    requires Pick(answer.value.sizes, slug, selected).Some?
    ensures ScansTo(answers + [answer], slug, page + 1, rows + |answer.value.sizes|,
                    Pick(answer.value.sizes, slug, selected).value)
  {
    hide Pick;
    forall more
      ensures Scan(answers + [answer] + more, slug, 1, 0, None) ==
              Scan(more, slug, page + 1, rows + |answer.value.sizes|, Pick(answer.value.sizes, slug, selected).value)
    {
      assert answers + [answer] + more == answers + ([answer] + more);
      assert ([answer] + more)[1..] == more;
    }
  }

  lemma Uncapped(spec: Spec)
    ensures spec.cap.None? ==> forall answers :: Priced(spec, answers)
  {
  }

  /** A later catalog, read to its end, can refuse a spec that passed exactly when the spec has a cap. */
  lemma PriceMayRise(spec: Spec, first: seq<Reply<Page>>)
    requires Priced(spec, first)
    ensures (exists s: Size :: !Priced(spec, [Answered(Page([s], None, None))])) <==> spec.cap.Some?
  {
    if spec.cap.Some? {
      var s := Size(spec.size, [spec.region], true, spec.cap.value + 1.0);
      assert Pick([s], spec.size, None) == Some(Some(s));
      assert !Priced(spec, [Answered(Page([s], None, None))]);
    }
  }

  // ----- replacing -----

  /** Polls an action until it has ended; `polls` is how many fit before the deadline. */
  method WaitForActionComplete(cloud: Cloud, action: int, polls: nat) returns (ok: bool, ghost ev: seq<Event>)
    modifies cloud`log
    ensures cloud.log == old(cloud.log) + ev && forall e :: e in ev ==> e.ActionSeen?
    ensures ok ==> ev != [] && ev[|ev| - 1] == ActionSeen(action, Completed)
    ensures cloud.reliable ==> ok
  {
    ev := [];
    var left := polls;
    while true
      invariant cloud.log == old(cloud.log) + ev && forall e :: e in ev ==> e.ActionSeen?
      decreases left
    {
      var stop := cloud.Interrupted();
      if stop {
        return false, ev;
      }
      var status;
      ghost var more;
      status, more := cloud.GetAction(action);
      ev := ev + more;
      if status.Lost? || status.value == Errored {
        return false, ev;
      }
      if status.value == Completed {
        return true, ev;
      }
      if left == 0 {
        return false, ev;
      }
      left := left - 1;
    }
  }

  ghost predicate OnlyDetaches(ev: seq<Event>, volumes: seq<string>, id: int) {
    forall e :: e in ev ==> e.ActionSeen? || (e.DetachSent? && e.droplet == id && e.volume in volumes)
  }

  method DetachAll(cloud: Cloud, volumes: seq<string>, id: int, polls: nat)
    returns (ok: bool, detached: seq<string>, ghost ev: seq<Event>)
    modifies cloud`log
    ensures cloud.log == old(cloud.log) + ev && OnlyDetaches(ev, volumes, id)
    ensures ok ==> detached == volumes && forall v :: v in volumes ==> Detached(ev, v, id)
    ensures cloud.reliable ==> ok
  {
    hide Detached;
    ev, detached := [], [];
    for i := 0 to |volumes|
      invariant cloud.log == old(cloud.log) + ev && OnlyDetaches(ev, volumes, id)
      invariant detached == volumes[..i]
      invariant forall j :: 0 <= j < i ==> Detached(ev, volumes[j], id)
    {
      var action, done;
      ghost var sent, waited, before := [], [], ev;
      action, sent := cloud.DetachByDropletID(volumes[i], id);
      ev := ev + sent;
      if action.None? {
        return false, detached, ev;
      }
      done, waited := WaitForActionComplete(cloud, action.value, polls);
      ev := ev + waited;
      if !done {
        return false, detached, ev;
      }
      DetachShown(before, sent, waited, volumes[i], id);
      forall j | 0 <= j < i ensures Detached(ev, volumes[j], id) {
        DetachedStays(before, sent + waited, volumes[j], id);
        assert before + (sent + waited) == ev;
      }
      detached := detached + [volumes[i]];
    }
    assert volumes[..|volumes|] == volumes;
    ok := true;
  }

  lemma DetachShown(before: seq<Event>, sent: seq<Event>, waited: seq<Event>, volume: string, id: int)
    requires |sent| == 1 && sent[0].DetachSent? && sent[0].volume == volume && sent[0].droplet == id &&
             sent[0].action.Some?
    requires waited != [] && waited[|waited| - 1] == ActionSeen(sent[0].action.value, Completed)
    ensures Detached(before + sent + waited, volume, id)
  {
    var ev := before + sent + waited;
    assert ev[|before|] == sent[0] && ev[|ev| - 1] == waited[|waited| - 1];
  }

  datatype Error =
    | NotPriced | Invalid | NotRead | NotConfigured | NotDetached | NotDeleted | NotCreated(why: CreateError)

  datatype CreateError = PriceRefused | BadKeys | Unresolved | Unanswered | NeverReady

  method CreateWithResolvedVolumes(cloud: Cloud, spec: Spec, resolved: seq<string>, polls: nat)
    returns (r: Option<CreateError>, ghost ev: seq<Event>, ghost answers: seq<Reply<Page>>)
    modifies cloud
    ensures cloud.log == old(cloud.log) + ev && old(cloud.droplets) <= cloud.droplets
    ensures cloud.pages == old(cloud.pages) + answers
    ensures ev != [] ==> Priced(spec, answers) && spec.sshKeys.Some?
    ensures ev == [] ||
            (|ev| == 1 && ev[0].CreateSent? && ev[0].spec == spec && (resolved != [] ==> ev[0].volumes == resolved))
    ensures r.None? ==> ev != []
    ensures r == Some(PriceRefused) <==> !Priced(spec, answers)
    ensures r == Some(BadKeys) <==> Priced(spec, answers) && spec.sshKeys.None?
    ensures resolved != [] ==> r != Some(Unresolved)
    ensures cloud.reliable ==> r.None? || r.value.PriceRefused? || r.value.BadKeys?
  {
    ev := [];
    var priced;
    priced, answers := QuoteDropletPrice(cloud, spec);
    if !priced {
      return Some(PriceRefused), ev, answers;
    }
    if spec.sshKeys.None? {
      return Some(BadKeys), ev, answers;
    }
    var volumes := resolved;
    if resolved == [] {
      var ids := cloud.ResolveVolumes(spec.volumes, spec.region);
      if ids.None? {
        return Some(Unresolved), ev, answers;
      }
      volumes := ids.value;
    }
    var id;
    id, ev := cloud.Create(spec, volumes);
    if id.None? || id.value == 0 {
      return Some(Unanswered), ev, answers;
    }
    var ready := WaitReady(cloud, id.value, polls);
    r := if ready then None else Some(NeverReady);
  }

  method WaitReady(cloud: Cloud, id: int, polls: nat) returns (ready: bool)
    ensures cloud.reliable ==> ready
  {
    ready := cloud.Ready(id);
    var left := polls;
    while !ready && left > 0
    {
      var stop := cloud.Interrupted();
      if stop {
        return false;
      }
      ready := cloud.Ready(id);
      left := left - 1;
    }
  }

  /** The volumes of the old Droplet, once it has been read. */
  ghost function OldVolumes(ev: seq<Event>): seq<string> {
    if ev != [] && ev[0].OldRead? then ev[0].volumes else []
  }

  /** What may stand in a run of Replace before its k-th event, when that event changes something. */
  ghost predicate Allowed(ev: seq<Event>, k: nat, id: int, spec: Spec)
    requires k < |ev|
  {
    match ev[k]
    case DetachSent(v, d, _) => ev[0].OldRead? && d == id && v in OldVolumes(ev)
    case DeleteSent(d, _) => k > 0 && ev[0].OldRead? && d == id &&
                   forall v :: v in OldVolumes(ev) ==> Detached(ev[..k], v, id)
    case CreateSent(s, volumes) =>
      && k > 0 && s == spec && k == |ev| - 1
      && (ev[0] == OldGone || ev[k - 1] == DeleteSent(id, true))
      && (OldVolumes(ev) != [] ==> volumes == OldVolumes(ev))
    case _ => true
  }

  ghost predicate Orderly(ev: seq<Event>, id: int, spec: Spec) {
    forall k :: 0 <= k < |ev| ==> Allowed(ev, k, id, spec)
  }

  /**
   Deletes only what is wholly detached, creates only with the old volumes, and changes nothing at all
   unless the price check passed. Nothing is deleted on the ways that end before the delete.
   */
  method Replace(cloud: Cloud, id: Option<int>, spec: Spec, hasStorageActions: bool, hasActions: bool, polls: nat)
    returns (r: Option<Error>, ghost ev: seq<Event>, ghost first: seq<Reply<Page>>, ghost second: seq<Reply<Page>>)
    modifies cloud
    ensures cloud.log == old(cloud.log) + ev && (id.Some? ==> Orderly(ev, id.value, spec))
    ensures cloud.pages == old(cloud.pages) + first + second
    ensures !Priced(spec, first) ==> r == Some(NotPriced) && ev == [] && second == []
    ensures (exists e :: e in ev && e.CreateSent?) ==> Priced(spec, first) && Priced(spec, second) && spec.sshKeys.Some?
    ensures cloud.reliable && id.Some? && spec.sshKeys.Some? && hasStorageActions && hasActions ==>
              r.None? || r == Some(NotPriced) || r == Some(NotCreated(PriceRefused))
    ensures spec.cap.None? ==> r != Some(NotPriced) && r != Some(NotCreated(PriceRefused))
    ensures spec.sshKeys.Some? ==> r != Some(NotCreated(BadKeys))
    ensures id.None? ==> r.Some? && ev == []
    ensures r.None? ==> ev != [] && ev[|ev| - 1].CreateSent?
    ensures (forall e :: e in ev ==> !e.DeleteSent?) ==> old(cloud.droplets) <= cloud.droplets
    ensures r.Some? && !r.value.NotCreated? && r.value != NotDeleted ==> forall e :: e in ev ==> !e.DeleteSent?
    ensures r.Some? && r.value.NotCreated? && r.value.why == PriceRefused ==>
              Priced(spec, first) && !Priced(spec, second) && first != second
    ensures r.Some? && r.value.NotCreated? && r.value.why == BadKeys ==> spec.sshKeys.None?
    ensures r.Some? && r.value.NotCreated? && r.value.why == Unresolved ==> OldVolumes(ev) == []
  {
    hide Priced, Detached;
    Uncapped(spec);
    ev, second := [], [];
    var priced;
    priced, first := QuoteDropletPrice(cloud, spec);
    if !priced {
      return Some(NotPriced), ev, first, second;
    }
    if id.None? {
      return Some(Invalid), ev, first, second;
    }
    var current;
    current, ev := cloud.Get(id.value);
    if current.Lost? {
      return Some(NotRead), ev, first, second;
    }
    var detached: seq<string> := [];
    if current.value.Some? {
      var failed;
      ghost var more;
      failed, detached, more := DetachAndDelete(cloud, id.value, current.value.value, hasStorageActions, hasActions,
                                                polls);
      OrderlyDetach(ev, more, id.value, spec);
      ev := ev + more;
      if failed.Some? {
        return failed, ev, first, second;
      }
    }
    var created;
    ghost var making;
    created, making, second := CreateWithResolvedVolumes(cloud, spec, detached, polls);
    OrderlyCreate(ev, making, id.value, spec);
    ev := ev + making;
    r := if created.None? then None else Some(NotCreated(created.value));
  }

  /** The middle of Replace, when the old Droplet is there: its volumes off, then the Droplet itself. */
  method DetachAndDelete(cloud: Cloud, id: int, volumes: seq<string>, hasStorageActions: bool, hasActions: bool,
                         polls: nat)
    returns (r: Option<Error>, detached: seq<string>, ghost ev: seq<Event>)
    modifies cloud`droplets, cloud`log
    ensures cloud.log == old(cloud.log) + ev && DetachThenDelete(ev, volumes, id)
    ensures cloud.reliable && (volumes != [] ==> hasStorageActions && hasActions) ==> r.None?
    ensures r.None? ==> detached == volumes && ev != [] && ev[|ev| - 1] == DeleteSent(id, true)
    ensures r.Some? ==> r.value in {NotConfigured, NotDetached, NotDeleted}
    ensures (forall e :: e in ev ==> !e.DeleteSent?) ==> cloud.droplets == old(cloud.droplets)
    ensures r.Some? && r.value != NotDeleted ==> forall e :: e in ev ==> !e.DeleteSent?
  {
    hide Detached;
    ev, detached := [], [];
    if volumes != [] {
      if !hasStorageActions || !hasActions {
        return Some(NotConfigured), detached, ev;
      }
      var ok;
      ok, detached, ev := DetachAll(cloud, volumes, id, polls);
      if !ok {
        return Some(NotDetached), detached, ev;
      }
    }
    var done;
    ghost var deleting, before := [], ev;
    done, deleting := cloud.Delete(id);
    ev := ev + deleting;
    assert ev[..|ev| - 1] == before;
    assert ev[|ev| - 1] == DeleteSent(id, done);
    r := if done then None else Some(NotDeleted);
  }

  ghost predicate DetachThenDelete(ev: seq<Event>, volumes: seq<string>, id: int) {
    && (forall k :: 0 <= k < |ev| && !ev[k].DeleteSent? ==>
          ev[k].ActionSeen? || (ev[k].DetachSent? && ev[k].droplet == id && ev[k].volume in volumes))
    && forall k :: 0 <= k < |ev| && ev[k].DeleteSent? ==>
         k == |ev| - 1 && ev[k].droplet == id && forall v :: v in volumes ==> Detached(ev[..k], v, id)
  }

  lemma OrderlyDetach(read: seq<Event>, more: seq<Event>, id: int, spec: Spec)
    requires |read| == 1 && read[0].OldRead? && DetachThenDelete(more, read[0].volumes, id)
    ensures Orderly(read + more, id, spec) && OldVolumes(read + more) == read[0].volumes
  {
    hide Detached;
    var ev := read + more;
    forall k | 0 <= k < |ev| ensures Allowed(ev, k, id, spec) {
      if k > 0 {
        assert ev[k] == more[k - 1];
        if ev[k].DeleteSent? {
          assert ev[..k] == read + more[..k - 1];
          forall v | v in read[0].volumes ensures Detached(ev[..k], v, id) {
            DetachedLater(read, more[..k - 1], v, id);
          }
        }
      }
    }
  }

  lemma DetachedLater(a: seq<Event>, b: seq<Event>, volume: string, droplet: int)
    requires Detached(b, volume, droplet)
    ensures Detached(a + b, volume, droplet)
  {
    var i: nat, j: nat :| i < j < |b| && b[i].DetachSent? && b[i].volume == volume && b[i].droplet == droplet &&
      b[i].action.Some? && b[j] == ActionSeen(b[i].action.value, Completed);
    assert (a + b)[|a| + i] == b[i] && (a + b)[|a| + j] == b[j];
  }

  lemma OrderlyCreate(ev: seq<Event>, making: seq<Event>, id: int, spec: Spec)
    requires ev != [] && Orderly(ev, id, spec) && (forall e :: e in ev ==> !e.CreateSent?)
    requires ev[0] == OldGone || ev[|ev| - 1] == DeleteSent(id, true)
    requires making == [] || (|making| == 1 && making[0].CreateSent? && making[0].spec == spec)
    requires making != [] && OldVolumes(ev) != [] ==> making[0].volumes == OldVolumes(ev)
    ensures Orderly(ev + making, id, spec) && OldVolumes(ev + making) == OldVolumes(ev)
  {
    hide Detached;
    var all := ev + making;
    forall k | 0 <= k < |all| ensures Allowed(all, k, id, spec) {
      if k < |ev| {
        assert all[k] == ev[k] && all[..k] == ev[..k];
        assert Allowed(ev, k, id, spec);
        assert ev[k] in ev;
      } else {
        assert all[k] == making[0] && all[k - 1] == ev[|ev| - 1];
      }
    }
  }
}
