/**
 Recovering the deployment of a job whose launch reply was lost, from the paged history of the app
 (internal/app_platform_runner.go, recoverAppJobHistoricalDeployment).
 */
module JobRecovery {
  import opened AppModel
  import opened AppServer
  import opened JobHandle
  import opened Wrappers

  /** What reading one listed deployment back gave; Unread when it was skipped. */
  datatype Readback = Unread | ReadLost | Read(d: Option<Deployment>)

  datatype Item = Item(listed: Option<Deployment>, readback: Readback)

  /** A scan still going, with the deployment found so far, or stopped by an error. */
  datatype Scan = Going(found: Option<Metadata>) | Stopped(error: Error)

  /** Entries that are not even read back. */
  predicate Skipped(m: Metadata, listed: Option<Deployment>) {
    listed.None? || listed.value.id == "" ||
    (listed.value.spec.Some? && !ComponentExists(listed.value.spec.value, m.component))
  }

  /** Whether the scan treats this deployment as the handle's own. */
  ghost predicate OwnedItem(m: Metadata, it: Item) {
    !Skipped(m, it.listed) && it.readback.Read? && Binds(m.(deploymentID := it.listed.value.id), it.readback.d)
  }

  /** Whether it ends the scan by itself: unreadable, or marked but not owned. */
  ghost predicate FatalItem(m: Metadata, it: Item) {
    && !Skipped(m, it.listed) && !OwnedItem(m, it)
    && (it.readback.ReadLost? ||
        (it.readback.Read? && it.readback.d.Some? && it.readback.d.value.spec.Some? &&
         ComponentExists(it.readback.d.value.spec.value, m.component)))
  }

  ghost function ItemError(it: Item): Error {
    if it.readback.ReadLost? then Failure else Validation
  }

  ghost function Candidate(m: Metadata, it: Item): Metadata
    requires OwnedItem(m, it)
  {
    Bound(m.(deploymentID := it.listed.value.id), it.readback.d.value)
  }

  /** One entry of the scan. */
  ghost function Step(m: Metadata, found: Option<Metadata>, it: Item): Scan {
    if FatalItem(m, it) then Stopped(ItemError(it))
    else if !OwnedItem(m, it) then Going(found)
    else if found.Some? && found.value.deploymentID != it.listed.value.id then Stopped(Validation)
    else Going(Some(Candidate(m, it)))
  }

  ghost function ScanAll(m: Metadata, items: seq<Item>): Scan {
    if items == [] then Going(None)
    else
      var n := |items| - 1;
      match ScanAll(m, items[..n])
      case Stopped(e) => Stopped(e)
      case Going(found) => Step(m, found, items[n])
  }

  function Flatten(pages: seq<seq<Item>>): seq<Item> {
    if pages == [] then [] else Flatten(pages[..|pages| - 1]) + pages[|pages| - 1]
  }

  // ----- the verdict of a scan, without pages and without order -----

  /** The ids of all deployments the handle owns. */
  ghost function OwnedIds(m: Metadata, items: seq<Item>): set<string> {
    if items == [] then {}
    else
      var n := |items| - 1;
      OwnedIds(m, items[..n]) + if OwnedItem(m, items[n]) then {items[n].listed.value.id} else {}
  }

  lemma {:induction false} OwnedIdsMeaning(m: Metadata, items: seq<Item>, id: string)
    ensures id in OwnedIds(m, items) <==> exists it :: it in items && OwnedItem(m, it) && it.listed.value.id == id
  {
    if items != [] {
      var n := |items| - 1;
      assert items == items[..n] + [items[n]];
      OwnedIdsMeaning(m, items[..n], id);
    }
  }

  ghost predicate NoneFatal(m: Metadata, items: seq<Item>) {
    forall it :: it in items ==> !FatalItem(m, it)
  }

  ghost function NewId(m: Metadata, it: Item): set<string> {
    if OwnedItem(m, it) then {it.listed.value.id} else {}
  }

  ghost function FoundId(found: Option<Metadata>): set<string> {
    if found.None? then {} else {found.value.deploymentID}
  }

  lemma StepVerdict(m: Metadata, found: Option<Metadata>, it: Item)
    ensures Step(m, found, it).Going? <==> !FatalItem(m, it) && |FoundId(found) + NewId(m, it)| <= 1
    ensures Step(m, found, it).Going? ==> FoundId(Step(m, found, it).found) == FoundId(found) + NewId(m, it)
  {
    if found.Some? && OwnedItem(m, it) {
      var a, b := found.value.deploymentID, it.listed.value.id;
      assert FoundId(found) + NewId(m, it) == {a, b};
      if a == b {
        assert {a, b} == {a};
      }
    }
  }

  lemma UnionGrows(a: set<string>, b: set<string>)
    ensures |a| <= |a + b|
  {
    assert a + b == a + (b - a);
  }

  /**
   A scan goes through exactly when no entry is fatal and at most one distinct deployment is owned;
   it has then found that deployment, and nothing exactly when none is owned.
   */
  lemma {:induction false} ScanVerdict(m: Metadata, items: seq<Item>)
    ensures ScanAll(m, items).Going? <==> NoneFatal(m, items) && |OwnedIds(m, items)| <= 1
    ensures ScanAll(m, items).Going? ==> OwnedIds(m, items) == FoundId(ScanAll(m, items).found)
  {
    if items != [] {
      var n := |items| - 1;
      var it := items[n];
      assert items == items[..n] + [it];
      ScanVerdict(m, items[..n]);
      assert NoneFatal(m, items) <==> NoneFatal(m, items[..n]) && !FatalItem(m, it);
      assert OwnedIds(m, items) == OwnedIds(m, items[..n]) + NewId(m, it);
      UnionGrows(OwnedIds(m, items[..n]), NewId(m, it));
      if ScanAll(m, items[..n]).Going? {
        StepVerdict(m, ScanAll(m, items[..n]).found, it);
      }
    }
  }

  /** What a scan has found is what one owned entry binds to. */
  lemma {:induction false} FoundIsCandidate(m: Metadata, items: seq<Item>)
    requires ScanAll(m, items).Going? && ScanAll(m, items).found.Some?
    ensures exists it :: it in items && OwnedItem(m, it) && ScanAll(m, items).found == Some(Candidate(m, it))
  {
    var n := |items| - 1;
    assert items == items[..n] + [items[n]];
    if !OwnedItem(m, items[n]) {
      FoundIsCandidate(m, items[..n]);
    }
  }

  /** The page cuts play no part: only the concatenation of the pages does. */
  lemma {:induction false} FlattenAppend(pages: seq<seq<Item>>, page: seq<Item>)
    ensures Flatten(pages + [page]) == Flatten(pages) + page
  {
    assert (pages + [page])[..|pages|] == pages;
  }

  /** A stopped scan stays stopped whatever follows. */
  lemma {:induction false} StoppedStays(m: Metadata, items: seq<Item>, more: seq<Item>)
    requires ScanAll(m, items).Stopped?
    ensures ScanAll(m, items + more) == ScanAll(m, items)
  {
    hide Step;
    if more == [] {
      assert items + more == items;
    } else {
      var n := |more| - 1;
      assert (items + more)[..|items| + n] == items + more[..n];
      StoppedStays(m, items, more[..n]);
    }
  }

  // ----- the program -----

  /** The entries were read back as the scan demands; each readback is in the trace and truthful. */
  ghost predicate Witnessed(server: Server, m: Metadata, items: seq<Item>, ev: seq<Event>) {
    forall it :: it in items ==>
      && (it.readback.Unread? <==> Skipped(m, it.listed))
      && (it.readback.Read? ==> server.Truthful(it.readback.d))
      && (it.readback.Read? && it.readback.d.Some? ==> DeploymentSeen(it.readback.d.value) in ev)
  }

  ghost predicate OnlyDeployments(ev: seq<Event>) {
    forall e :: e in ev ==> e.DeploymentSeen? || e.DeploymentsListed?
  }

  ghost predicate OnlyReadbacks(ev: seq<Event>) {
    forall e :: e in ev ==> e.DeploymentSeen?
  }

  /** The pages a trace shows being listed, in order. */
  ghost function Listings(ev: seq<Event>): seq<seq<Option<Deployment>>> {
    if ev == [] then []
    else Listings(ev[..|ev| - 1]) + if ev[|ev| - 1].DeploymentsListed? then [ev[|ev| - 1].listed] else []
  }

  lemma {:induction false} ListingsSkip(a: seq<Event>, b: seq<Event>)
    requires OnlyReadbacks(b)
    ensures Listings(a + b) == Listings(a)
  {
    if b == [] {
      assert a + b == a;
    } else {
      var n := |b| - 1;
      assert (a + b)[..|a| + n] == a + b[..n] && (a + b)[|a| + n] == b[n] && b[n] in b;
      ListingsSkip(a, b[..n]);
    }
  }

  lemma ListingsStep(a: seq<Event>, page: seq<Option<Deployment>>, last: bool)
    ensures Listings(a + [DeploymentsListed(page, last)]) == Listings(a) + [page]
  {
    assert (a + [DeploymentsListed(page, last)])[..|a|] == a;
  }

  function ListedOf(items: seq<Item>): (r: seq<Option<Deployment>>)
    ensures |r| == |items|
  {
    seq(|items|, i requires 0 <= i < |items| => items[i].listed)
  }

  function AllListed(pages: seq<seq<Item>>): (r: seq<seq<Option<Deployment>>>)
    ensures |r| == |pages|
  {
    seq(|pages|, i requires 0 <= i < |pages| => ListedOf(pages[i]))
  }

  /** Reads one listed entry back and judges it. */
  method ScanItem(server: Server, m: Metadata, found: Option<Metadata>, listed: Option<Deployment>)
    returns (r: Scan, ghost it: Item, ghost ev: seq<Event>)
    modifies server
    ensures it.listed == listed && r == Step(m, found, it)
    ensures Witnessed(server, m, [it], ev) && OnlyReadbacks(ev)
    ensures server.quiet ==> server.live == old(server.live)
    ensures server.log == old(server.log) + ev
  {
    hide OwnedJob, Rest, ComponentExists;
    ev := [];
    it := Item(listed, Unread);
    if listed.None? || listed.value.id == "" {
      return Going(found), it, ev;
    }
    if listed.value.spec.Some? && !ComponentExists(listed.value.spec.value, m.component) {
      return Going(found), it, ev;
    }
    var readback;
    readback, ev := server.GetDeployment(m.appID, listed.value.id);
    if readback.Lost? {
      return Stopped(Failure), Item(listed, ReadLost), ev;
    }
    it := Item(listed, Read(readback.value));
    var candidate := new Handle(m.(deploymentID := listed.value.id));
    var ok := BindAppJobDeployment(candidate, readback.value);
    if !ok {
      var d := readback.value;
      if d.Some? && d.value.spec.Some? && ComponentExists(d.value.spec.value, m.component) {
        return Stopped(Validation), it, ev;
      }
      return Going(found), it, ev;
    }
    if found.Some? && found.value.deploymentID != candidate.m.deploymentID {
      return Stopped(Validation), it, ev;
    }
    r := Going(Some(candidate.m));
  }

  /** One page; `before` is what earlier pages held. */
  method ScanPage(server: Server, m: Metadata, start: Option<Metadata>, page: seq<Option<Deployment>>,
                  ghost before: seq<Item>)
    returns (r: Scan, ghost items: seq<Item>, ghost ev: seq<Event>)
    requires ScanAll(m, before) == Going(start)
    modifies server
    ensures ScanAll(m, before + items) == r
    ensures r.Going? ==> ListedOf(items) == page
    ensures Witnessed(server, m, items, ev) && OnlyReadbacks(ev)
    ensures server.quiet ==> server.live == old(server.live)
    ensures server.log == old(server.log) + ev
  {
    hide Step;
    var found := start;
    items, ev := [], [];
    assert before + [] == before;
    for i := 0 to |page|
      invariant ListedOf(items) == page[..i]
      invariant ScanAll(m, before + items) == Going(found)
      invariant Witnessed(server, m, items, ev) && OnlyReadbacks(ev)
      invariant server.quiet ==> server.live == old(server.live)
      invariant server.log == old(server.log) + ev
    {
      ghost var it, more;
      r, it, more := ScanItem(server, m, found, page[i]);
      assert (before + (items + [it]))[..|before + items|] == before + items;
      items, ev := items + [it], ev + more;
      if r.Stopped? {
        return;
      }
      found := r.found;
      assert it in [it];
      assert ListedOf(items) == page[..i] + [page[i]];
    }
    r := Going(found);
  }

  lemma PageSeen(ev: seq<Event>, page: seq<Option<Deployment>>, last: bool, more: seq<Event>)
    requires OnlyReadbacks(more)
    ensures Listings(ev + [DeploymentsListed(page, last)] + more) == Listings(ev) + [page]
  {
    ListingsStep(ev, page, last);
    ListingsSkip(ev + [DeploymentsListed(page, last)], more);
  }

  /** What has been read so far is all of the listed pages, none of them the last one. */
  ghost predicate Progress(server: Server, m: Metadata, pages: seq<seq<Item>>, found: Option<Metadata>,
                           ev: seq<Event>) {
    && ScanAll(m, Flatten(pages)) == Going(found)
    && Witnessed(server, m, Flatten(pages), ev)
    && Listings(ev) == AllListed(pages)
    && OnlyDeployments(ev)
  }

  /** Lists and scans one more page; `last` is what the listing said. */
  method NextPage(server: Server, m: Metadata, page: nat, found: Option<Metadata>, ghost pages: seq<seq<Item>>,
                  ghost ev: seq<Event>)
    returns (r: Reply<Scan>, last: bool, ghost items: seq<Item>, ghost more: seq<Event>)
    requires Progress(server, m, pages, found, ev)
    modifies server
    ensures r.Lost? ==> more == []
    ensures r.Answered? ==>
      && ScanAll(m, Flatten(pages + [items])) == r.value
      && Witnessed(server, m, Flatten(pages + [items]), ev + more)
      && OnlyDeployments(ev + more)
    ensures r.Answered? && r.value.Going? ==>
      && Progress(server, m, pages + [items], r.value.found, ev + more)
      && |more| > 0 && more[0].DeploymentsListed? && more[0].last == last
      && OnlyReadbacks(more[1..])
    ensures server.quiet ==> server.live == old(server.live)
    ensures server.log == old(server.log) + more
  {
    hide Step, Skipped;
    var listing;
    listing, more := server.ListDeployments(m.appID, page);
    if listing.Lost? {
      return Lost, false, [], more;
    }
    ghost var seen;
    var scan;
    scan, items, seen := ScanPage(server, m, found, listing.value.0, Flatten(pages));
    FlattenAppend(pages, items);
    PageSeen(ev, listing.value.0, listing.value.1, seen);
    assert ev + (more + seen) == ev + more + seen;
    more := more + seen;
    assert more[1..] == seen;
    if scan.Going? {
      assert AllListed(pages + [items]) == AllListed(pages) + [listing.value.0];
    }
    return Answered(scan), listing.value.1, items, more;
  }

  const PAGE_LIMIT := 100

  ghost predicate NoLastPage(ev: seq<Event>) {
    forall e :: e in ev && e.DeploymentsListed? ==> !e.last
  }

  ghost predicate LastPageIn(ev: seq<Event>) {
    exists e :: e in ev && e.DeploymentsListed? && e.last
  }

  /**
   Binds the handle to the one owned deployment of the whole history; `pages` is what was listed and
   read back. The handle changes only when nil is returned.
   */
  method RecoverAppJobHistoricalDeployment(server: Server, h: Handle)
    returns (err: Option<Error>, ghost pages: seq<seq<Item>>, ghost ev: seq<Event>)
    modifies server, h
    ensures |pages| <= PAGE_LIMIT
    ensures Witnessed(server, old(h.m), Flatten(pages), ev)
    ensures err.Some? ==> h.m == old(h.m)
    ensures err.None? ==>
      && LastPageIn(ev) && Listings(ev) == AllListed(pages)
      && ScanAll(old(h.m), Flatten(pages)).Going?
      && h.m == var found := ScanAll(old(h.m), Flatten(pages)).found; if found.Some? then found.value else old(h.m)
    ensures err.Some? ==>
      || ScanAll(old(h.m), Flatten(pages)) == Stopped(err.value)
      || (err.value == Failure && |pages| < PAGE_LIMIT && NoLastPage(ev))
      || (err.value == CleanupPending && |pages| == PAGE_LIMIT && Listings(ev) == AllListed(pages) && NoLastPage(ev))
    ensures server.quiet ==> server.live == old(server.live)
    ensures server.log == old(server.log) + ev && OnlyDeployments(ev)
  {
    var found: Option<Metadata> := None;
    pages, ev := [], [];
    var page := 1;
    while page <= PAGE_LIMIT
      invariant 1 <= page <= PAGE_LIMIT + 1 && |pages| == page - 1
      invariant h.m == old(h.m)
      invariant Progress(server, h.m, pages, found, ev) && NoLastPage(ev)
      invariant server.quiet ==> server.live == old(server.live)
      invariant server.log == old(server.log) + ev
    {
      var r, last;
      ghost var items, more;
      r, last, items, more := NextPage(server, h.m, page, found, pages, ev);
      if r.Lost? {
        assert ev + more == ev;
        return Some(Failure), pages, ev;
      }
      pages, ev := pages + [items], ev + more;
      if r.value.Stopped? {
        return Some(r.value.error), pages, ev;
      }
      found := r.value.found;
      if last {
        assert more[0] in more;
        if found.Some? {
          h.m := found.value;
        }
        return None, pages, ev;
      }
      assert forall e :: e in more ==> e == more[0] || e in more[1..];
      page := page + 1;
    }
    err := Some(CleanupPending);
  }
}
