// What one pass of the reconcile loop decides, said of the resource, its Secret and the replies that the
// pass gets: which gate stops it, when it discovers, when it is Ready, and how soon the next pass follows.
module Verdict {
  import opened GoStrings
  import opened Provider
  import opened Dispatch
  import opened Reconcile
  import opened Failures

  // The Secret holds something under the key of the resource's auth mode.
  predicate HasCredential(spec: Spec, secret: Secret) {
    match secret
    case NoSecret => false
    case Secret(data) =>
      if spec.authMode == "app" then spec.appPrivateKeyKey in data && |data[spec.appPrivateKeyKey]| > 0
      else spec.tokenKey in data && |data[spec.tokenKey]| > 0
  }

  // The probe answered, the budget is known and below a threshold in use.
  predicate LowBudget(spec: Spec, probe: Option<Budget>) {
    match probe
    case None => false
    case Some(budget) =>
      spec.rateLimitThreshold > 0 && budget.known && budget.remaining < spec.rateLimitThreshold
  }

  // Nothing was discovered yet, or nothing was found, or the interval has passed since.
  predicate Due(status: CrStatus, interval: int, now: Time) {
    match status.lastDiscovery
    case None => true
    case Some(t) => status.inventory == [] || Sub(now, t) >= interval
  }

  // The pass gets as far as the inventory.
  predicate PastTheGates(spec: Spec, i: Input) {
    i.get == Found && HasCredential(spec, i.secret) && !LowBudget(spec, i.probe)
  }

  lemma GatesAre(status: CrStatus, spec: Spec, i: Input)
    ensures AuthOk(spec, i.secret) <==> HasCredential(spec, i.secret)
    ensures Limited(spec, i.probe) <==> LowBudget(spec, i.probe)
    ensures LowBudget(spec, i.probe) ==> i.probe.Some?
    ensures NeedsDiscovery(status.lastDiscovery, |status.inventory|, spec.discoveryInterval, i.checkedAt) <==>
            Due(status, spec.discoveryInterval, i.checkedAt)
  {
    hide Sub;
  }

  // When a pass discovers: past the gates, when a discovery is due and succeeds; and what it then stores.
  lemma DiscoversIff(w: World, cr: string, jobName: string -> string, i: Input)
    ensures var o := Reconciled(w.status, w.spec, cr, w.jobs, jobName, i);
      && (o.discovered.Some? <==>
            PastTheGates(w.spec, i) && Due(w.status, w.spec.discoveryInterval, i.checkedAt) && i.discovery.Some?)
      && (o.discovered.Some? ==> o.discovered == Some((i.discovery.value, i.discoveredAt)))
      && (o.discovered.Some? && o.landed ==>
            o.status.inventory == i.discovery.value && o.status.lastDiscovery == Some(i.discoveredAt))
      && (o.discovered == None || !o.landed ==>
            o.status.inventory == w.status.inventory && o.status.lastDiscovery == w.status.lastDiscovery)
  {
    hide Pass, RateLimitRequeue, Names, AuthOk, Limited, NeedsDiscovery, HasCredential, LowBudget, Due;
    GatesAre(w.status, w.spec, i);
  }

  // Over any run that began before the first discovery: whenever a pass gets past the gates, its discovery
  // would succeed and its status update lands, what is stored afterwards is what the latest discovery that
  // landed found, and that is the one of this pass or is younger than the interval in force.
  lemma InventoryIsFresh(w: World, cr: string, jobName: string -> string, ms: seq<Move>, i: Input)
    requires w.status.lastDiscovery == None
    requires var before := Run(w, cr, jobName, ms);
      PastTheGates(before.spec, i) && i.discovery.Some? && i.update != Rejected
    ensures var all := ms + [ReconcilePass(i)];
      var end, latest := Run(w, cr, jobName, all), LatestDiscovery(w, cr, jobName, all);
      && latest == Some((end.status.inventory, end.status.lastDiscovery.value))
      && (|| latest.value == (i.discovery.value, i.discoveredAt)
          || (latest.value.0 != [] && Sub(i.checkedAt, latest.value.1) < end.spec.discoveryInterval))
  {
    hide LatestDiscovery, Sub, HasCredential, LowBudget, Due;
    var before, all := Run(w, cr, jobName, ms), ms + [ReconcilePass(i)];
    assert all[..|all| - 1] == ms;
    DiscoversIff(before, cr, jobName, i);
    LandsIff(before, cr, jobName, i);
    InventoryIsLatestDiscovery(w, cr, jobName, all);
    hide Reconciled;
    assert Run(w, cr, jobName, all) == Apply(before, cr, jobName, ReconcilePass(i));
    hide Run;
    DueOrYoung(before.status, before.spec.discoveryInterval, i.checkedAt);
  }

  lemma DueOrYoung(status: CrStatus, interval: int, now: Time)
    ensures !Due(status, interval, now) ==>
              && status.lastDiscovery.Some? && status.inventory != []
              && Sub(now, status.lastDiscovery.value) < interval
  {
  }

  lemma LandsIff(w: World, cr: string, jobName: string -> string, i: Input)
    ensures var o := Reconciled(w.status, w.spec, cr, w.jobs, jobName, i);
      && (o.landed <==> i.get == Found && i.update != Rejected)
      && (o.failed <==> i.get == GetFailed || (i.get == Found && i.update != Accepted))
      && (o.requeue.Some? <==> i.get == Found && i.update == Accepted)
      && (o.landed ==> o.status.observedGeneration == i.generation)
      && (!o.landed ==> o.status == w.status)
  {
    hide Pass, AuthOk, Limited, NeedsDiscovery, RateLimitRequeue, Names;
  }

  // The inventory that a pass past the gates works on, unless a discovery that is due fails.
  function WorkedOn(w: World, i: Input): Option<seq<string>> {
    if Due(w.status, w.spec.discoveryInterval, i.checkedAt) then i.discovery else Some(w.status.inventory)
  }

  // The first gate that stops a pass gives the reason, and with it the delay; a stopped pass touches no Job.
  lemma GateDecides(w: World, cr: string, jobName: string -> string, i: Input)
    requires i.get == Found
    ensures var o := Reconciled(w.status, w.spec, cr, w.jobs, jobName, i);
      var (reason, delay) :=
        if !HasCredential(w.spec, i.secret) then (CredentialsInvalid, 60 * SECOND)
        else if LowBudget(w.spec, i.probe) then
          (RateLimited, RateLimitRequeue(i.probe.value.reset, i.probedAt))
        else (DiscoveryFailed, 60 * SECOND);
      (!PastTheGates(w.spec, i) || WorkedOn(w, i) == None) ==>
        && !o.dispatched && o.jobs == w.jobs
        && (o.landed ==> o.status.ready == Some(Condition(false, reason, i.generation)))
        && (i.update == Accepted ==> o.requeue == Some(delay))
  {
    hide Pass, RateLimitRequeue, Names, AuthOk, Limited, NeedsDiscovery, HasCredential, LowBudget, Due;
    GatesAre(w.status, w.spec, i);
  }

  // A pass past the gates that knows its inventory dispatches, and is Ready, if and only if the Jobs can be
  // listed and no name that it would create meets an error of its create call. The next pass follows after
  // a minute when it is not, after half a minute when names are left over, and else after the interval.
  lemma ReadyIff(w: World, cr: string, jobName: string -> string, i: Input, repos: seq<string>)
    requires PastTheGates(w.spec, i) && WorkedOn(w, i) == Some(repos)
    requires Distinct(Names(repos, jobName))
    requires Unclaimed(w.jobs, Names(repos, jobName), Selected(w.jobs, cr), i.env)
    requires forall k: nat :: OneWorker(i.env(k), cr)
    ensures var o := Reconciled(w.status, w.spec, cr, w.jobs, jobName, i);
      var names, existing := Names(repos, jobName), Selected(w.jobs, cr);
      var room := Room(w.spec.parallelism, ActiveCount(w.jobs, cr));
      && (o.dispatched <==> !i.listFails && !exists k: nat :: FailsAt(names, existing, room, i.fate, k))
      && (o.landed ==>
            o.status.ready ==
            Some(Condition(o.dispatched, if o.dispatched then Discovered else DispatchFailed, i.generation)))
      && (i.update == Accepted ==>
            o.requeue == Some(if !o.dispatched then 60 * SECOND
                              else if |Missing(names, existing)| > room then 30 * SECOND
                              else w.spec.discoveryInterval))
  {
    hide Pass, Names, Distinct, Unclaimed, Selected, ActiveCount, FailsAt, Missing, RateLimitRequeue;
    hide AuthOk, Limited, NeedsDiscovery, HasCredential, LowBudget, Due;
    GatesAre(w.status, w.spec, i);
    StatusOfPass(w.jobs, cr, w.spec.parallelism, Names(repos, jobName), i.env, i.fate);
  }
}
