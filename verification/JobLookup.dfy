/**
 Finding the deployment and the invocation of a one-off job, cancelling it, and putting the spec back
 (internal/app_platform_runner.go). Every method says what its part of the trace may contain.
 */
module JobLookup {
  import opened AppModel
  import opened AppServer
  import opened JobDigest
  import opened JobHandle
  import opened JobRecovery
  import opened Wrappers

  // ----- what a trace shows -----

  predicate EndedInvocation(phase: InvocationPhase) {
    phase == Succeeded || phase == Failed || phase == Canceled || phase == Skipped
  }

  predicate EndedDeployment(phase: DeploymentPhase) {
    phase == Errored || phase == DeployCanceled || phase == Superseded
  }

  predicate IsEnded(i: Option<Invocation>, m: Metadata) {
    i.Some? && i.value.id == m.jobID && i.value.jobName == m.component && EndedInvocation(i.value.phase)
  }

  /** The event proves that the handle's job can no longer run. */
  ghost predicate ShowsEnd(e: Event, m: Metadata) {
    match e
    case InvocationsSeen(items, _) =>
      m.jobID != "" && exists i :: i in items && IsEnded(i, m)
    case DeploymentSeen(d) =>
      d.id != "" && d.id == m.deploymentID && EndedDeployment(d.phase) && d.spec.Some? && Owns(m, d.spec.value)
    case _ => false
  }

  ghost predicate SawEnd(ev: seq<Event>, m: Metadata) {
    exists e :: e in ev && ShowsEnd(e, m)
  }

  ghost predicate SawAbsent(ev: seq<Event>, m: Metadata) {
    exists e :: e in ev && e.AppRead? && !ComponentExists(e.spec, m.component)
  }

  lemma SawEndGrows(a: seq<Event>, b: seq<Event>, m: Metadata, n: Metadata)
    requires Extends(m, n)
    ensures SawEnd(a, m) || SawEnd(b, m) ==> SawEnd(a + b, n)
  {
    if SawEnd(a, m) || SawEnd(b, m) {
      var e :| (e in a || e in b) && ShowsEnd(e, m);
      assert e in a + b;
      ShowsEndExtends(e, m, n);
    }
  }

  lemma ShowsEndExtends(e: Event, m: Metadata, n: Metadata)
    requires Extends(m, n) && ShowsEnd(e, m)
    ensures ShowsEnd(e, n)
  {
  }

  /** What every lookup leaves alone: the spec, the trace so far, and all the handle had learned. */
  twostate predicate Learned(server: Server, h: Handle, ev: seq<Event>)
    reads server, h
  {
    && server.log == old(server.log) + ev && Lookups(ev)
    && (server.quiet ==> server.live == old(server.live))
    && Extends(old(h.m), h.m)
    && (Sound(old(h.m), server.specOf) ==> Sound(h.m, server.specOf))
  }

  // ----- invocations -----

  predicate IsCandidate(i: Option<Invocation>, m: Metadata) {
    i.Some? && i.value.jobName == m.component && (m.deploymentID == "" || i.value.deploymentID == m.deploymentID)
  }

  predicate Bindable(m: Metadata, i: Option<Invocation>) {
    && IsCandidate(i, m) && i.value.id != "" && i.value.deploymentID != ""
    && (m.jobID == "" || i.value.id == m.jobID)
  }

  /** Binds the invocation and, if it is not known yet, the deployment it belongs to. */
  method BindAppJobInvocation(server: Server, h: Handle, i: Option<Invocation>)
    returns (err: Option<Error>, ghost ev: seq<Event>)
    modifies server, h
    ensures Learned(server, h, ev)
    ensures forall e :: e in ev ==> e.DeploymentSeen?
    ensures err.Some? ==> h.m == old(h.m)
    ensures err.None? ==> Bindable(old(h.m), i) && h.m.jobID == i.value.id && h.m.deploymentID == i.value.deploymentID
    ensures !Bindable(old(h.m), i) ==> err == Some(Validation)
    ensures Bindable(old(h.m), i) && old(h.m.deploymentID) != "" ==> err.None?
  {
    ev := [];
    if !Bindable(h.m, i) {
      return Some(Validation), ev;
    }
    if h.m.deploymentID == "" {
      var d;
      d, ev := server.GetDeployment(h.m.appID, i.value.deploymentID);
      if d.Lost? {
        return Some(Failure), ev;
      }
      var candidate := new Handle(h.m.(deploymentID := i.value.deploymentID));
      ghost var before := candidate.m;
      var ok := BindAppJobDeployment(candidate, d.value);
      if !ok {
        return Some(Validation), ev;
      }
      BindingExtends(before, d.value.value);
      BindingOwns(before, d.value.value);
      h.m := candidate.m;
    }
    h.m := h.m.(jobID := i.value.id, deploymentID := i.value.deploymentID);
    return None, ev;
  }

  /** All invocations a trace shows. */
  ghost function ItemsOf(ev: seq<Event>): seq<Option<Invocation>> {
    if ev == [] then []
    else ItemsOf(ev[..|ev| - 1]) + if ev[|ev| - 1].InvocationsSeen? then ev[|ev| - 1].items else []
  }

  lemma ItemsStep(ev: seq<Event>, e: Event)
    ensures ItemsOf(ev + [e]) == ItemsOf(ev) + if e.InvocationsSeen? then e.items else []
  {
    assert (ev + [e])[..|ev|] == ev;
  }

  lemma NoItems()
    ensures ItemsOf([]) == []
  {
  }

  /** The candidate of all pages, which must all agree on its id. */
  method FindInvocation(server: Server, m: Metadata)
    returns (err: Option<Error>, found: Option<Invocation>, ghost ev: seq<Event>)
    modifies server
    ensures server.log == old(server.log) + ev && Lookups(ev)
    ensures server.quiet ==> server.live == old(server.live)
    ensures err.None? ==> ev != [] && ev[|ev| - 1].InvocationsSeen? && ev[|ev| - 1].last
    ensures err.None? ==> match found
      case None => forall i :: i in ItemsOf(ev) ==> !IsCandidate(i, m)
      case Some(f) => Some(f) in ItemsOf(ev) && IsCandidate(Some(f), m) &&
                      forall i :: i in ItemsOf(ev) && IsCandidate(i, m) ==> i.value.id == f.id
    ensures err == Some(Validation) ==> Disagree(ItemsOf(ev), m)
  {
    hide IsCandidate, Disagree, ItemsOf;
    var page := 1;
    found, ev := None, [];
    NoItems();
    ghost var seen: seq<Option<Invocation>> := [];
    while true
      invariant server.log == old(server.log) + ev && Lookups(ev)
      invariant server.quiet ==> server.live == old(server.live)
      invariant seen == ItemsOf(ev) && page >= 1
      invariant AgreedOn(seen, found, m)
      decreases server.invocationPages + 1 - page
    {
      var listing;
      ghost var more;
      listing, more := server.ListJobInvocations(m.appID, page);
      if listing.Lost? {
        return Some(Failure), None, ev + more;
      }
      ItemsStep(ev, InvocationsSeen(listing.value.0, listing.value.1));
      ev := ev + more;
      err, found := PickInvocation(listing.value.0, m, found, seen);
      seen := seen + listing.value.0;
      if err.Some? {
        return err, None, ev;
      }
      if listing.value.1 {
        return;
      }
      page := page + 1;
    }
  }

  ghost predicate Disagree(items: seq<Option<Invocation>>, m: Metadata) {
    exists i, j :: i in items && j in items && IsCandidate(i, m) && IsCandidate(j, m) && i.value.id != j.value.id
  }

  ghost predicate AgreedOn(seen: seq<Option<Invocation>>, found: Option<Invocation>, m: Metadata) {
    match found
    case None => forall i :: i in seen ==> !IsCandidate(i, m)
    case Some(f) => Some(f) in seen && IsCandidate(Some(f), m) &&
                    forall i :: i in seen && IsCandidate(i, m) ==> i.value.id == f.id
  }

  /** One page of the search. */
  method PickInvocation(items: seq<Option<Invocation>>, m: Metadata, start: Option<Invocation>,
                        ghost seen: seq<Option<Invocation>>)
    returns (err: Option<Error>, found: Option<Invocation>)
    requires AgreedOn(seen, start, m)
    ensures err.None? ==> AgreedOn(seen + items, found, m)
    ensures err.Some? ==> err.value == Validation && Disagree(seen + items, m)
  {
    found := start;
    assert seen + [] == seen;
    for k := 0 to |items|
      invariant AgreedOn(seen + items[..k], found, m)
    {
      assert seen + items[..k + 1] == (seen + items[..k]) + [items[k]];
      assert forall i :: i in seen + items[..k] ==> i in seen + items;
      if IsCandidate(items[k], m) {
        if found.Some? && found.value.id != items[k].value.id {
          assert items[k] in seen + items && found in seen + items;
          return Some(Validation), None;
        }
        found := items[k];
      }
    }
    assert items[..|items|] == items;
    err := None;
  }

  // ----- the deployment and invocation of a handle -----

  /** Tries the deployments the app itself points at. */
  method RecoverFromSlots(server: Server, h: Handle, slots: seq<Option<Deployment>>)
    returns (err: Option<Error>, ghost ev: seq<Event>)
    requires h.m.deploymentID == ""
    modifies server, h
    ensures Learned(server, h, ev)
    ensures forall e :: e in ev ==> e.DeploymentSeen?
    ensures err.Some? ==> h.m == old(h.m)
    ensures h.m.deploymentID == "" ==> h.m == old(h.m)
    ensures h.m.jobID == old(h.m.jobID)
  {
    ev := [];
    for k := 0 to |slots|
      invariant h.m == old(h.m)
      invariant Learned(server, h, ev)
      invariant forall e :: e in ev ==> e.DeploymentSeen?
    {
      var d := slots[k];
      if d.None? || d.value.id == "" || d.value.spec.None? {
        continue;
      }
      ghost var more;
      var lost, bound;
      lost, bound, more := ConfirmSlot(server, h.m, d.value);
      ev := ev + more;
      if lost {
        return Some(Failure), ev;
      }
      if bound.Some? {
        h.m := bound.value;
        return None, ev;
      }
    }
    err := None;
  }

  /** A slot counts only if the deployment, read back by its id, is owned as well. */
  method ConfirmSlot(server: Server, m: Metadata, d: Deployment)
    returns (lost: bool, bound: Option<Metadata>, ghost ev: seq<Event>)
    requires m.deploymentID == "" && d.id != ""
    modifies server
    ensures server.log == old(server.log) + ev && forall e :: e in ev ==> e.DeploymentSeen?
    ensures server.quiet ==> server.live == old(server.live)
    ensures bound.Some? ==>
              Extends(m, bound.value) && Sound(bound.value, server.specOf) && bound.value.deploymentID == d.id &&
              bound.value.jobID == m.jobID
    ensures bound.Some? ==>
              Binds(m, Some(d)) && exists x :: DeploymentSeen(x) in ev && Binds(m.(deploymentID := d.id), Some(x))
  {
    hide OwnedJob, Rest, Owns;
    ev := [];
    var candidate := new Handle(m);
    var ok := BindAppJobDeployment(candidate, Some(d));
    if !ok {
      return false, None, ev;
    }
    var readback;
    readback, ev := server.GetDeployment(m.appID, candidate.m.deploymentID);
    if readback.Lost? {
      return true, None, ev;
    }
    candidate.m := m.(deploymentID := d.id);
    ghost var before := candidate.m;
    ok := BindAppJobDeployment(candidate, readback.value);
    if !ok {
      return false, None, ev;
    }
    BindingExtends(before, readback.value.value);
    BindingOwns(before, readback.value.value);
    assert DeploymentSeen(readback.value.value) in ev;
    return false, Some(candidate.m), ev;
  }

  lemma RecoveredSound(server: Server, m: Metadata, items: seq<Item>, ev: seq<Event>)
    requires m.deploymentID == "" && Witnessed(server, m, items, ev)
    requires ScanAll(m, items).Going? && ScanAll(m, items).found.Some?
    ensures var n := ScanAll(m, items).found.value; Extends(m, n) && Sound(n, server.specOf) && n.jobID == m.jobID
  {
    FoundIsCandidate(m, items);
    var it :| it in items && OwnedItem(m, it) && ScanAll(m, items).found == Some(Candidate(m, it));
    var c := m.(deploymentID := it.listed.value.id);
    BindingExtends(c, it.readback.d.value);
    BindingOwns(c, it.readback.d.value);
  }

  ghost predicate NoInvocations(ev: seq<Event>) {
    forall e :: e in ev ==> !e.InvocationsSeen?
  }

  /** The first half of a lookup: learn the deployment, from the app's slots or from its history. */
  method RecoverDeployment(server: Server, h: Handle) returns (err: Option<Error>, ghost ev: seq<Event>)
    requires h.m.deploymentID == ""
    modifies server, h
    ensures Learned(server, h, ev)
    ensures NoInvocations(ev)
    ensures err.Some? ==> h.m == old(h.m)
    ensures h.m.jobID == old(h.m.jobID)
  {
    hide Sound, Witnessed, ComponentExists, Binds, ScanAll, Flatten, Listings, AllListed;
    var app;
    app, ev := server.Get(h.m.appID);
    if app.Lost? {
      return Some(Failure), ev;
    }
    if app.value.None? || app.value.value.id != h.m.appID || app.value.value.spec.None? ||
       app.value.value.spec.value.name != h.m.appName
    {
      return Some(Validation), ev;
    }
    var spec := app.value.value.spec.value;
    ghost var more;
    err, more := RecoverFromSlots(server, h, [app.value.value.inProgress, app.value.value.active]);
    ev := ev + more;
    if err.Some? {
      return;
    }
    if h.m.deploymentID == "" && !ComponentExists(spec, h.m.component) && OfSpec(spec) == h.m.prior {
      ghost var pages, m := [], h.m;
      err, pages, more := RecoverAppJobHistoricalDeployment(server, h);
      if err.None? && ScanAll(m, Flatten(pages)).found.Some? {
        RecoveredSound(server, m, Flatten(pages), more);
      }
      ev := ev + more;
    }
  }

  lemma {:induction false} ItemsOfMeaning(ev: seq<Event>, i: Option<Invocation>)
    ensures i in ItemsOf(ev) <==> exists e :: e in ev && e.InvocationsSeen? && i in e.items
  {
    if ev != [] {
      var n := |ev| - 1;
      assert ev == ev[..n] + [ev[n]];
      ItemsOfMeaning(ev[..n], i);
    }
  }

  ghost predicate SeenIn(ev: seq<Event>, i: Option<Invocation>) {
    exists e :: e in ev && e.InvocationsSeen? && i in e.items
  }

  /** What a finished lookup tells: the one bound invocation, or that no page had any candidate. */
  ghost predicate LookedUp(ev: seq<Event>, m: Metadata, found: Option<Invocation>) {
    match found
    case Some(i) => Bindable(m, found) && m.jobID == i.id && m.deploymentID == i.deploymentID && SeenIn(ev, found)
    case None =>
      && m.jobID == ""
      && ev != [] && ev[|ev| - 1].InvocationsSeen? && ev[|ev| - 1].last
      && forall i :: SeenIn(ev, i) ==> !IsCandidate(i, m)
  }

  /** The invocation named by the handle, or the one the listing shows for it. */
  method ReadInvocation(server: Server, h: Handle)
    returns (err: Option<Error>, found: Option<Invocation>, ghost ev: seq<Event>)
    modifies server, h
    ensures Learned(server, h, ev)
    ensures err.None? ==> LookedUp(ev, h.m, found)
  {
    hide Sound, Binds, Owns, ItemsOf;
    ghost var more;
    if h.m.jobID != "" {
      var i;
      i, ev := server.GetJobInvocation(h.m.appID, h.m.jobID);
      if i.Lost? {
        return Some(Failure), None, ev;
      }
      assert InvocationsSeen([i.value], true) in ev && i.value in [i.value];
      err, more := BindAppJobInvocation(server, h, i.value);
      assert SeenIn(ev + more, i.value);
      return err, i.value, ev + more;
    }
    err, found, ev := FindInvocation(server, h.m);
    if err.Some? {
      return;
    }
    forall i ensures SeenIn(ev, i) <==> i in ItemsOf(ev) {
      ItemsOfMeaning(ev, i);
    }
    if found.Some? {
      err, more := BindAppJobInvocation(server, h, found);
      forall i | SeenIn(ev, i) ensures SeenIn(ev + more, i) {
        var e :| e in ev && e.InvocationsSeen? && i in e.items;
        assert e in ev + more;
      }
      ev := ev + more;
    }
  }

  /** Finds out which deployment and which invocation the handle is about. */
  method AppJobInvocation(server: Server, h: Handle)
    returns (err: Option<Error>, found: Option<Invocation>, ghost ev: seq<Event>)
    modifies server, h
    ensures Learned(server, h, ev)
    ensures err.None? ==> LookedUp(ev, h.m, found)
  {
    ev, found := [], None;
    if h.m.deploymentID == "" {
      err, ev := RecoverDeployment(server, h);
      if err.Some? {
        return;
      }
    }
    ghost var more;
    err, found, more := ReadInvocation(server, h);
    if err.None? {
      LookupAfter(ev, more, h.m, found);
    }
    ev := ev + more;
  }

  lemma LookupAfter(ev: seq<Event>, more: seq<Event>, m: Metadata, found: Option<Invocation>)
    requires NoInvocations(ev) && LookedUp(more, m, found)
    ensures LookedUp(ev + more, m, found)
  {
    forall i ensures SeenIn(ev + more, i) <==> SeenIn(more, i) {
      if SeenIn(more, i) {
        var e :| e in more && e.InvocationsSeen? && i in e.items;
        assert e in ev + more;
      }
    }
  }

  // ----- cancelling -----

  /** Nil only when the trace, or the invocation given, shows that the job has ended. */
  method CancelInvocation(server: Server, h: Handle, i: Option<Invocation>)
    returns (err: Option<Error>, ghost ev: seq<Event>)
    requires i.Some? ==> h.m.jobID == i.value.id != "" && i.value.jobName == h.m.component
    modifies server, h
    ensures Learned(server, h, ev)
    ensures err.None? ==> IsEnded(i, h.m) || SawEnd(ev, h.m)
    ensures IsEnded(i, old(h.m)) ==> err.None? && ev == []
    ensures i.None? && old(h.m.deploymentID) == "" ==> err == Some(CleanupPending) && ev == []
  {
    hide Sound, Binds;
    ev := [];
    if i.None? {
      if h.m.deploymentID == "" {
        return Some(CleanupPending), ev;
      }
      err, ev := CancelDeploymentOf(server, h);
      return;
    }
    if EndedInvocation(i.value.phase) {
      return None, ev;
    }
    var phase;
    err, phase, ev := ObserveDeployment(server, h);
    if err.Some? {
      return;
    }
    var ok := server.CancelJobInvocation(h.m.appID, i.value.id);
    if !ok {
      return Some(Failure), ev;
    }
    var readback;
    ghost var more;
    readback, more := server.GetJobInvocation(h.m.appID, i.value.id);
    ev := ev + more;
    if readback.Lost? {
      return Some(Failure), ev;
    }
    if !IsEnded(readback.value, h.m) {
      return Some(CleanupPending), ev;
    }
    assert InvocationsSeen([readback.value], true) in ev;
    assert readback.value in [readback.value];
    return None, ev;
  }

  /** Reads the handle's deployment and checks that it is still the owned one. */
  method ObserveDeployment(server: Server, h: Handle)
    returns (err: Option<Error>, phase: DeploymentPhase, ghost ev: seq<Event>)
    modifies server, h
    ensures Learned(server, h, ev)
    ensures err.None? ==>
      |ev| == 1 && ev[0].DeploymentSeen? && Binds(old(h.m), Some(ev[0].deployment)) && phase == ev[0].deployment.phase
    ensures err.None? && EndedDeployment(phase) ==> SawEnd(ev, h.m)
  {
    var d;
    d, ev := server.GetDeployment(h.m.appID, h.m.deploymentID);
    if d.Lost? {
      return Some(Failure), UnknownPhase, ev;
    }
    ghost var before := h.m;
    var ok := BindAppJobDeployment(h, d.value);
    if !ok {
      return Some(Validation), UnknownPhase, ev;
    }
    BindingExtends(before, d.value.value);
    BindingOwns(before, d.value.value);
    assert DeploymentSeen(d.value.value) in ev;
    return None, d.value.value.phase, ev;
  }

  /** Without an invocation the deployment itself has to be over. */
  method CancelDeploymentOf(server: Server, h: Handle) returns (err: Option<Error>, ghost ev: seq<Event>)
    modifies server, h
    ensures Learned(server, h, ev)
    ensures err.None? ==> SawEnd(ev, h.m)
  {
    hide Sound, Binds, ShowsEnd;
    var phase;
    err, phase, ev := ObserveDeployment(server, h);
    if err.Some? || EndedDeployment(phase) {
      return;
    }
    var sent := server.CancelDeployment(h.m.appID, h.m.deploymentID);
    if !sent {
      return Some(Failure), ev;
    }
    ghost var more;
    err, phase, more := ObserveDeployment(server, h);
    SawEndGrows(ev, more, h.m, h.m);
    ev := ev + more;
    if err.Some? || !EndedDeployment(phase) {
      return Some(CleanupPending), ev;
    }
  }
}
