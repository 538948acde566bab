// The operator's reconcile loop: gates, discovery, dispatch and the status written at the end. The
// GitHub and the GitLab reconciler are the same machine; a GitLab CR is one whose auth mode is not
// "app". Durations and times are nanoseconds.
module Reconcile {
  import opened GoStrings
  import opened Provider
  import opened Dispatch
  import opened Cap

  const SECOND: int := 1_000_000_000
  const CREDENTIAL_REQUEUE: int := 60 * SECOND
  const PENDING_REQUEUE: int := 30 * SECOND
  const RATE_LIMIT_BUFFER: int := 15 * SECOND

  datatype Reason = Discovered | CredentialsInvalid | DiscoveryFailed | DispatchFailed | RateLimited

  datatype Condition = Condition(ready: bool, reason: Reason, observedGeneration: int)

  datatype CrStatus = CrStatus(
    inventory: seq<string>, lastDiscovery: Option<Time>, ready: Option<Condition>, observedGeneration: int)

  datatype Spec = Spec(
    authMode: string, tokenKey: string, appPrivateKeyKey: string,
    rateLimitThreshold: int, discoveryInterval: int, parallelism: int)

  datatype Secret = NoSecret | Secret(data: map<string, string>)

  datatype Budget = Budget(known: bool, remaining: int, reset: Time)

  datatype Get = Found | NotFound | GetFailed

  // Everything a pass gets from outside. None stands for an error of the probe or of the discovery;
  // update is what becomes of the status update, which may fail before or after it applied.
  datatype Input = Input(
    get: Get, generation: int, secret: Secret, probe: Option<Budget>, probedAt: Time,
    checkedAt: Time, discovery: Option<seq<string>>, discoveredAt: Time,
    listFails: bool, env: nat -> seq<Event>, fate: nat -> Fate, update: Fate)

  // ----- The gates -----

  predicate AuthOk(spec: Spec, secret: Secret) {
    var key := if spec.authMode == "app" then spec.appPrivateKeyKey else spec.tokenKey;
    secret.Secret? && key in secret.data && secret.data[key] != ""
  }

  // A sum of int64 values as Go computes it.
  function Wrap(n: int): (r: int)
    ensures MIN_INT64 <= r <= MAX_INT64
    ensures MIN_INT64 <= n <= MAX_INT64 ==> r == n
  {
    (n - MIN_INT64) % 0x1_0000_0000_0000_0000 + MIN_INT64
  }

  // The delay is never below the floor. It is the distance of the reset, buffer included, as long as that
  // fits a duration; for a reset further away the sum wraps and the floor is all that is left.
  function RateLimitRequeue(reset: Time, now: Time): (d: int)
    ensures var exact := reset - now + RATE_LIMIT_BUFFER;
      && d == (if PENDING_REQUEUE <= exact <= MAX_INT64 then exact else PENDING_REQUEUE)
      && (d >= exact <==> exact <= MAX_INT64)
  {
    var d := Wrap(Sub(reset, now) + RATE_LIMIT_BUFFER);
    if d < PENDING_REQUEUE then PENDING_REQUEUE else d
  }

  // A reset as far ahead as a duration can express leaves the floor.
  lemma FarResetIsMissed(now: Time)
    ensures RateLimitRequeue(now + MAX_INT64, now) == PENDING_REQUEUE < MAX_INT64
  {
    assert Sub(now + MAX_INT64, now) == MAX_INT64;
  }

  // A zero threshold, a failed probe and an unknown budget let the pass through.
  predicate Limited(spec: Spec, probe: Option<Budget>) {
    spec.rateLimitThreshold > 0 && probe.Some? && probe.value.known && probe.value.remaining < spec.rateLimitThreshold
  }

  predicate NeedsDiscovery(last: Option<Time>, count: nat, interval: int, now: Time) {
    last == None || count == 0 || Sub(now, last.value) >= interval
  }

  // ----- One pass -----

  // discovered: what a discovery of this pass found; dispatched: whether dispatch ran to its end;
  // landed: whether the status was stored.
  datatype Outcome = Outcome(
    status: CrStatus, jobs: Jobs, requeue: Option<int>, failed: bool,
    discovered: Option<(seq<string>, Time)>, dispatched: bool, landed: bool)

  function Names(repos: seq<string>, jobName: string -> string): seq<string> {
    seq(|repos|, i requires 0 <= i < |repos| => jobName(repos[i]))
  }

  // updateStatus: the in-memory status is stored unless the update is rejected; any failure of the
  // update ends the pass in error.
  function Finish(stored: CrStatus, status: CrStatus, i: Input, jobs: Jobs, requeue: int,
                  discovered: Option<(seq<string>, Time)>, dispatched: bool): Outcome
  {
    var landed := i.update != Rejected;
    Outcome(if landed then status.(observedGeneration := i.generation) else stored, jobs,
            if i.update == Accepted then Some(requeue) else None, i.update != Accepted,
            discovered, dispatched, landed)
  }

  function WithReady(s: CrStatus, ready: bool, reason: Reason, i: Input): CrStatus {
    s.(ready := Some(Condition(ready, reason, i.generation)))
  }

  function Reconciled(stored: CrStatus, spec: Spec, cr: string, jobs: Jobs, jobName: string -> string,
                      i: Input): Outcome
  {
    if i.get != Found then Outcome(stored, jobs, None, i.get == GetFailed, None, false, false)
    else if !AuthOk(spec, i.secret) then
      Finish(stored, WithReady(stored, false, CredentialsInvalid, i), i, jobs, CREDENTIAL_REQUEUE, None, false)
    else if Limited(spec, i.probe) then
      Finish(stored, WithReady(stored, false, RateLimited, i), i, jobs,
             RateLimitRequeue(i.probe.value.reset, i.probedAt), None, false)
    else
      var needs := NeedsDiscovery(stored.lastDiscovery, |stored.inventory|, spec.discoveryInterval, i.checkedAt);
      if needs && i.discovery == None then
        Finish(stored, WithReady(stored, false, DiscoveryFailed, i), i, jobs, CREDENTIAL_REQUEUE, None, false)
      else
        var discovered := if needs then Some((i.discovery.value, i.discoveredAt)) else None;
        var status := if needs
          then stored.(inventory := i.discovery.value, lastDiscovery := Some(i.discoveredAt))
          else stored;
        if i.listFails then
          Finish(stored, WithReady(status, false, DispatchFailed, i), i, jobs, CREDENTIAL_REQUEUE, discovered, false)
        else
          var t := Pass(jobs, cr, spec.parallelism, Names(status.inventory, jobName), i.env, i.fate);
          if t.status == Failed then
            Finish(stored, WithReady(status, false, DispatchFailed, i), i, t.jobs,
                   CREDENTIAL_REQUEUE, discovered, false)
          else
            Finish(stored, WithReady(status, true, Discovered, i), i, t.jobs,
                   if t.status == Capped then PENDING_REQUEUE else spec.discoveryInterval, discovered, true)
  }

  // A CR as the API server stores it.
  class Exporter {
    const name: string
    var spec: Spec
    var status: CrStatus

    constructor (name: string, spec: Spec, status: CrStatus)
      ensures this.name == name && this.spec == spec && this.status == status
    {
      this.name, this.spec, this.status := name, spec, status;
    }

    // Status().Update, which may fail before or after it applied.
    method UpdateStatus(s: CrStatus, generation: int, fate: Fate) returns (failed: bool)
      modifies this`status
      ensures failed == (fate != Accepted)
      ensures status == if fate != Rejected then s.(observedGeneration := generation) else old(status)
    {
      if fate != Rejected {
        status := s.(observedGeneration := generation);
      }
      return fate != Accepted;
    }
  }

  // Reconcile. requeue is None when the pass ends without a requeue delay: not found, or an error.
  method Reconcile(cr: Exporter, cluster: Cluster, jobName: string -> string, i: Input)
    returns (requeue: Option<int>, failed: bool)
    modifies cr`status, cluster
    ensures var o := Reconciled(old(cr.status), cr.spec, cr.name, old(cluster.jobs), jobName, i);
      && cr.status == o.status && cluster.jobs == o.jobs
      && requeue == o.requeue && failed == o.failed
  {
    if i.get != Found {
      return None, i.get == GetFailed;
    }
    var status := cr.status;
    var delay := CREDENTIAL_REQUEUE;
    if !AuthOk(cr.spec, i.secret) {
      status := WithReady(status, false, CredentialsInvalid, i);
    } else if Limited(cr.spec, i.probe) {
      status := WithReady(status, false, RateLimited, i);
      delay := RateLimitRequeue(i.probe.value.reset, i.probedAt);
    } else {
      var repos := status.inventory;
      var undiscovered := false;
      if NeedsDiscovery(status.lastDiscovery, |repos|, cr.spec.discoveryInterval, i.checkedAt) {
        if i.discovery == None {
          undiscovered := true;
        } else {
          repos := i.discovery.value;
          status := status.(inventory := repos);
          status := status.(lastDiscovery := Some(i.discoveredAt));
        }
      }
      if undiscovered {
        status := WithReady(status, false, DiscoveryFailed, i);
      } else {
        var pending, err := DispatchJobs(cluster, cr.name, cr.spec.parallelism, repos, jobName,
                                         i.listFails, i.env, i.fate);
        if err {
          status := WithReady(status, false, DispatchFailed, i);
        } else {
          status := WithReady(status, true, Discovered, i);
          delay := cr.spec.discoveryInterval;
          if pending {
            delay := PENDING_REQUEUE;
          }
        }
      }
    }
    failed := cr.UpdateStatus(status, i.generation, i.update);
    requeue := if failed then None else Some(delay);
  }

  // ----- Runs -----

  datatype World = World(status: CrStatus, spec: Spec, jobs: Jobs)

  datatype Move = Elsewhere(events: seq<Event>) | Edit(spec: Spec) | ReconcilePass(input: Input)

  function Apply(w: World, cr: string, jobName: string -> string, m: Move): World {
    match m
    case Elsewhere(events) => w.(jobs := HappenAll(w.jobs, events))
    case Edit(spec) => w.(spec := spec)
    case ReconcilePass(input) =>
      var o := Reconciled(w.status, w.spec, cr, w.jobs, jobName, input);
      World(o.status, w.spec, o.jobs)
  }

  function Run(w: World, cr: string, jobName: string -> string, ms: seq<Move>): World {
    if ms == [] then w else Apply(Run(w, cr, jobName, ms[..|ms| - 1]), cr, jobName, ms[|ms| - 1])
  }

  // The outcome of the last move, if it is a pass.
  function LastOutcome(w: World, cr: string, jobName: string -> string, ms: seq<Move>): Option<Outcome> {
    if ms == [] || !ms[|ms| - 1].ReconcilePass? then None
    else
      var before := Run(w, cr, jobName, ms[..|ms| - 1]);
      Some(Reconciled(before.status, before.spec, cr, before.jobs, jobName, ms[|ms| - 1].input))
  }

  // The latest successful discovery whose status update landed.
  function LatestDiscovery(w: World, cr: string, jobName: string -> string, ms: seq<Move>)
    : Option<(seq<string>, Time)>
  {
    if ms == [] then None
    else
      match LastOutcome(w, cr, jobName, ms)
      case Some(o) =>
        if o.landed && o.discovered.Some? then o.discovered else LatestDiscovery(w, cr, jobName, ms[..|ms| - 1])
      case None => LatestDiscovery(w, cr, jobName, ms[..|ms| - 1])
  }

  // The latest pass whose status update landed.
  function LatestLanded(w: World, cr: string, jobName: string -> string, ms: seq<Move>): Option<Outcome> {
    if ms == [] then None
    else
      match LastOutcome(w, cr, jobName, ms)
      case Some(o) => if o.landed then Some(o) else LatestLanded(w, cr, jobName, ms[..|ms| - 1])
      case None => LatestLanded(w, cr, jobName, ms[..|ms| - 1])
  }

  // Bad credentials, a known low budget, or a failed discovery.
  predicate Gated(w: World, i: Input) {
    || !AuthOk(w.spec, i.secret) || Limited(w.spec, i.probe)
    || (NeedsDiscovery(w.status.lastDiscovery, |w.status.inventory|, w.spec.discoveryInterval, i.checkedAt)
        && i.discovery == None)
  }

  // A gated pass touches no Job, keeps inventory and discovery time, and never leaves Ready true.
  lemma GatedPassChangesNothing(w: World, cr: string, jobName: string -> string, i: Input)
    requires Gated(w, i)
    ensures var o := Reconciled(w.status, w.spec, cr, w.jobs, jobName, i);
      && o.jobs == w.jobs
      && o.status.inventory == w.status.inventory && o.status.lastDiscovery == w.status.lastDiscovery
      && (o.landed ==> o.status.ready.Some? && !o.status.ready.value.ready)
      && (!o.landed ==> o.status == w.status)
  {
  }

  // However many passes in a row are stopped by the gates, they create no Job, change neither inventory
  // nor discovery time, and Ready is as before or false.
  lemma {:induction false} GatedRunChangesNothing(w: World, cr: string, jobName: string -> string, ms: seq<Move>)
    requires forall n :: 0 <= n < |ms| ==>
               ms[n].ReconcilePass? && Gated(Run(w, cr, jobName, ms[..n]), ms[n].input)
    ensures var end := Run(w, cr, jobName, ms);
      && end.jobs == w.jobs && end.spec == w.spec
      && end.status.inventory == w.status.inventory && end.status.lastDiscovery == w.status.lastDiscovery
      && (end.status.ready == w.status.ready || (end.status.ready.Some? && !end.status.ready.value.ready))
  {
    hide Gated, Reconciled;
    if ms != [] {
      var n := |ms| - 1;
      forall k | 0 <= k < n ensures ms[..n][..k] == ms[..k] {}
      GatedRunChangesNothing(w, cr, jobName, ms[..n]);
      GatedPassChangesNothing(Run(w, cr, jobName, ms[..n]), cr, jobName, ms[n].input);
    }
  }

  // What a pass may do to the stored status.
  lemma PassEffect(w: World, cr: string, jobName: string -> string, i: Input)
    ensures var o := Reconciled(w.status, w.spec, cr, w.jobs, jobName, i);
      && (!o.landed ==> o.status == w.status)
      && (o.landed && o.discovered.Some? ==>
            o.status.inventory == o.discovered.value.0 && o.status.lastDiscovery == Some(o.discovered.value.1))
      && (o.landed && o.discovered == None ==>
            o.status.inventory == w.status.inventory && o.status.lastDiscovery == w.status.lastDiscovery)
      && (o.landed ==> o.status.ready.Some? && o.status.ready.value.ready == o.dispatched)
  {
    hide Pass, AuthOk, Limited, NeedsDiscovery, RateLimitRequeue;
  }

  // Over any run, the stored inventory and discovery time are those of the latest successful
  // discovery whose status update landed, whatever failed, was edited or was retried since.
  lemma {:induction false} InventoryIsLatestDiscovery(w: World, cr: string, jobName: string -> string, ms: seq<Move>)
    ensures var status, latest := Run(w, cr, jobName, ms).status, LatestDiscovery(w, cr, jobName, ms);
      && status.inventory == (if latest.Some? then latest.value.0 else w.status.inventory)
      && status.lastDiscovery == (if latest.Some? then Some(latest.value.1) else w.status.lastDiscovery)
  {
    hide Reconciled, HappenAll;
    if ms != [] {
      var n := |ms| - 1;
      InventoryIsLatestDiscovery(w, cr, jobName, ms[..n]);
      if ms[n].ReconcilePass? { PassEffect(Run(w, cr, jobName, ms[..n]), cr, jobName, ms[n].input); }
    }
  }

  // Over any run from a CR that never was Ready, Ready is true exactly when the latest pass that
  // reached the status dispatched without an error.
  lemma {:induction false} ReadyMeansDispatched(w: World, cr: string, jobName: string -> string, ms: seq<Move>)
    requires w.status.ready == None
    ensures var status, latest := Run(w, cr, jobName, ms).status, LatestLanded(w, cr, jobName, ms);
      (status.ready.Some? && status.ready.value.ready) <==> (latest.Some? && latest.value.dispatched)
    ensures LatestLanded(w, cr, jobName, ms) == None ==> Run(w, cr, jobName, ms).status.ready == None
  {
    hide Reconciled, HappenAll;
    if ms != [] {
      var n := |ms| - 1;
      ReadyMeansDispatched(w, cr, jobName, ms[..n]);
      if ms[n].ReconcilePass? { PassEffect(Run(w, cr, jobName, ms[..n]), cr, jobName, ms[n].input); }
    }
  }

  // However often the loop is requeued, a discovery is repeated only when the interval has passed
  // since the latest one that landed, or that one found nothing.
  lemma DiscoveriesAreSpaced(w: World, cr: string, jobName: string -> string, ms: seq<Move>, i: Input)
    requires var before := Run(w, cr, jobName, ms);
      Reconciled(before.status, before.spec, cr, before.jobs, jobName, i).discovered.Some?
    ensures var latest := LatestDiscovery(w, cr, jobName, ms);
      latest.Some? ==>
        latest.value.0 == [] || Sub(i.checkedAt, latest.value.1) >= Run(w, cr, jobName, ms).spec.discoveryInterval
  {
    hide Run, Pass, LatestDiscovery, AuthOk, Limited, RateLimitRequeue;
    InventoryIsLatestDiscovery(w, cr, jobName, ms);
  }

  // ----- The pace of the loop -----

  // The shortest discovery interval in force at any time of the run, or half a minute if that is less.
  function Floor(w: World, ms: seq<Move>): (d: int)
    ensures d <= PENDING_REQUEUE
  {
    if ms == [] then
      if w.spec.discoveryInterval < PENDING_REQUEUE then w.spec.discoveryInterval else PENDING_REQUEUE
    else
      var before := Floor(w, ms[..|ms| - 1]);
      match ms[|ms| - 1]
      case Edit(spec) => if spec.discoveryInterval < before then spec.discoveryInterval else before
      case _ => before
  }

  // Place and requeue delay of the latest pass.
  function LatestPass(w: World, cr: string, jobName: string -> string, ms: seq<Move>): Option<(nat, Option<int>)> {
    if ms == [] then None
    else
      match LastOutcome(w, cr, jobName, ms)
      case Some(o) => Some((|ms| - 1, o.requeue))
      case None => LatestPass(w, cr, jobName, ms[..|ms| - 1])
  }

  // The passes that begin when the delay asked for by the pass before them is over, as those that the
  // timer starts do; a change of a Job or of the resource starts others early. Move n is made at at(n).
  function Timed(w: World, cr: string, jobName: string -> string, ms: seq<Move>, at: nat -> Time): nat {
    if ms == [] then 0
    else
      var n := |ms| - 1;
      Timed(w, cr, jobName, ms[..n], at) +
      if ms[n].ReconcilePass? && Elapsed(LatestPass(w, cr, jobName, ms[..n]), at, at(n)) then 1 else 0
  }

  predicate Elapsed(latest: Option<(nat, Option<int>)>, at: nat -> Time, now: Time) {
    latest.Some? && latest.value.1.Some? && now >= at(latest.value.0) + latest.value.1.value
  }

  // A pass that is requeued waits at least half a minute, or the discovery interval if that is less.
  lemma RequeueFloor(w: World, cr: string, jobName: string -> string, i: Input)
    ensures var o := Reconciled(w.status, w.spec, cr, w.jobs, jobName, i);
      o.requeue.Some? ==>
        o.requeue.value >= PENDING_REQUEUE || (o.dispatched && o.requeue.value == w.spec.discoveryInterval)
  {
    hide Pass, AuthOk, Limited, NeedsDiscovery, RateLimitRequeue, Names;
  }

  lemma {:induction false} FloorCovers(w: World, cr: string, jobName: string -> string, ms: seq<Move>)
    ensures Floor(w, ms) <= Run(w, cr, jobName, ms).spec.discoveryInterval
  {
    hide Reconciled, HappenAll;
    if ms != [] { FloorCovers(w, cr, jobName, ms[..|ms| - 1]); }
  }

  lemma {:induction false} LatestDelay(w: World, cr: string, jobName: string -> string, ms: seq<Move>)
    ensures var latest := LatestPass(w, cr, jobName, ms);
      latest.Some? ==>
        && latest.value.0 < |ms|
        && (latest.value.1.Some? ==> latest.value.1.value >= Floor(w, ms))
  {
    hide Reconciled, HappenAll, Run;
    if ms != [] {
      var n := |ms| - 1;
      LatestDelay(w, cr, jobName, ms[..n]);
      FloorCovers(w, cr, jobName, ms[..n]);
      if ms[n].ReconcilePass? { RequeueFloor(Run(w, cr, jobName, ms[..n]), cr, jobName, ms[n].input); }
    }
  }

  lemma PassHasOutcome(w: World, cr: string, jobName: string -> string, ms: seq<Move>)
    requires ms != []
    ensures LastOutcome(w, cr, jobName, ms).Some? <==> ms[|ms| - 1].ReconcilePass?
  {
    hide Run, Reconciled;
  }

  lemma FloorFalls(w: World, ms: seq<Move>)
    requires ms != []
    ensures Floor(w, ms) <= Floor(w, ms[..|ms| - 1])
  {
  }

  lemma OneMore(n: nat, floor: nat)
    ensures (n + 1) * floor == n * floor + floor
  {
  }

  lemma {:induction false} TimedPassesAreSpaced(w: World, cr: string, jobName: string -> string, ms: seq<Move>,
                                                at: nat -> Time, floor: nat)
    requires forall i, j :: 0 <= i <= j < |ms| ==> at(i) <= at(j)
    requires floor <= Floor(w, ms)
    ensures match LatestPass(w, cr, jobName, ms)
      case None => Timed(w, cr, jobName, ms, at) == 0
      case Some((k, _)) => k < |ms| && at(k) - at(0) >= Timed(w, cr, jobName, ms, at) * floor
  {
    hide LastOutcome, Floor;
    if ms != [] {
      var n := |ms| - 1;
      PassHasOutcome(w, cr, jobName, ms);
      FloorFalls(w, ms);
      TimedPassesAreSpaced(w, cr, jobName, ms[..n], at, floor);
      LatestDelay(w, cr, jobName, ms[..n]);
      OneMore(Timed(w, cr, jobName, ms[..n], at), floor);
    }
  }

  // The loop is never busy: over any run, through gates, full caps, errors, edits of the resource and
  // whatever the Jobs do, the passes that the timer starts take at least one floor each.
  lemma LoopIsPaced(w: World, cr: string, jobName: string -> string, ms: seq<Move>, at: nat -> Time, floor: nat)
    requires ms != [] && forall i, j :: 0 <= i <= j < |ms| ==> at(i) <= at(j)
    requires floor <= Floor(w, ms)
    ensures at(|ms| - 1) - at(0) >= Timed(w, cr, jobName, ms, at) * floor
  {
    hide LatestPass, Timed, Floor;
    TimedPassesAreSpaced(w, cr, jobName, ms, at, floor);
  }

  // ----- The cap over whole runs -----

  ghost predicate Undisturbed(m: Move, cr: string) {
    match m
    case Elsewhere(events) => OneWorker(events, cr)
    case Edit(_) => true
    case ReconcilePass(input) => forall k: nat :: OneWorker(input.env(k), cr)
  }

  // The largest parallelism in force at any time of the run.
  function Peak(w: World, ms: seq<Move>): int {
    if ms == [] then w.spec.parallelism
    else
      var before := Peak(w, ms[..|ms| - 1]);
      match ms[|ms| - 1]
      case Edit(spec) => if spec.parallelism > before then spec.parallelism else before
      case _ => before
  }

  lemma {:induction false} PeakCovers(w: World, cr: string, jobName: string -> string, ms: seq<Move>)
    ensures Run(w, cr, jobName, ms).spec.parallelism <= Peak(w, ms)
  {
    hide Reconciled, HappenAll;
    if ms != [] { PeakCovers(w, cr, jobName, ms[..|ms| - 1]); }
  }

  lemma PassWithinCap(w: World, cr: string, jobName: string -> string, i: Input)
    requires forall k: nat :: OneWorker(i.env(k), cr)
    ensures ActiveCount(Reconciled(w.status, w.spec, cr, w.jobs, jobName, i).jobs, cr)
         <= if ActiveCount(w.jobs, cr) < w.spec.parallelism then w.spec.parallelism else ActiveCount(w.jobs, cr)
  {
    hide Pass, ActiveCount, AuthOk, Limited, NeedsDiscovery, RateLimitRequeue, Names;
    forall names | true
      ensures ActiveCount(Pass(w.jobs, cr, w.spec.parallelism, names, i.env, i.fate).jobs, cr)
           <= if ActiveCount(w.jobs, cr) < w.spec.parallelism then w.spec.parallelism else ActiveCount(w.jobs, cr)
    {
      PassKeepsCap(w.jobs, cr, w.spec.parallelism, names, i.env, i.fate);
    }
  }

  // No run of passes, Job events and edits ever has more active Jobs than it started with or the
  // largest parallelism in force; with constant parallelism the cap is an invariant.
  lemma {:induction false} CapHoldsOverRuns(w: World, cr: string, jobName: string -> string, ms: seq<Move>)
    requires ActiveCount(w.jobs, cr) <= w.spec.parallelism
    requires forall m :: m in ms ==> Undisturbed(m, cr)
    ensures ActiveCount(Run(w, cr, jobName, ms).jobs, cr) <= Peak(w, ms)
  {
    hide Reconciled, HappenAll, ActiveSet;
    if ms != [] {
      var n := |ms| - 1;
      assert ms[n] in ms;
      forall m | m in ms[..n] ensures m in ms {}
      CapHoldsOverRuns(w, cr, jobName, ms[..n]);
      PeakCovers(w, cr, jobName, ms[..n]);
      var before := Run(w, cr, jobName, ms[..n]);
      match ms[n] {
        case Elsewhere(events) => EventsOnlyShrink(before.jobs, events, cr);
        case Edit(_) =>
        case ReconcilePass(input) => PassWithinCap(before, cr, jobName, input);
      }
    }
  }

  // The same at every moment in between: while any pass after the run has handled k names and j further
  // events have happened, no more Jobs are active than the largest parallelism in force, and no more are
  // running or pending than that and the Jobs being retried.
  lemma CapHoldsAtEveryMoment(w: World, cr: string, jobName: string -> string, ms: seq<Move>, i: Input,
                              names: seq<string>, k: nat, j: nat)
    requires ActiveCount(w.jobs, cr) <= w.spec.parallelism
    requires forall m :: m in ms + [ReconcilePass(i)] ==> Undisturbed(m, cr)
    requires k <= |names| && j <= |i.env(k)|
    ensures var before := Run(w, cr, jobName, ms);
      var p := SettingFor(before.jobs, cr, before.spec.parallelism, i.env, i.fate);
      var now := HappenAll(After(Begin(before.jobs, cr), p, names, k).jobs, i.env(k)[..j]);
      && ActiveCount(now, cr) <= Peak(w, ms)
      && UnfinishedCount(now, cr) <= Peak(w, ms) + RetryingCount(now, cr)
  {
    hide Run, ActiveCount, UnfinishedCount, RetryingCount, HappenAll, After, Peak;
    var before := Run(w, cr, jobName, ms);
    assert ReconcilePass(i) in ms + [ReconcilePass(i)] && Undisturbed(ReconcilePass(i), cr);
    forall m | m in ms ensures Undisturbed(m, cr) { assert m in ms + [ReconcilePass(i)]; }
    CapHoldsOverRuns(w, cr, jobName, ms);
    PeakCovers(w, cr, jobName, ms);
    UnfinishedWithinCap(before.jobs, cr, before.spec.parallelism, names, i.env, i.fate, k, j);
  }

  lemma UnfinishedOverRuns(w: World, cr: string, jobName: string -> string, ms: seq<Move>)
    requires ActiveCount(w.jobs, cr) <= w.spec.parallelism
    requires forall m :: m in ms ==> Undisturbed(m, cr)
    ensures var jobs := Run(w, cr, jobName, ms).jobs;
      UnfinishedCount(jobs, cr) <= Peak(w, ms) + RetryingCount(jobs, cr)
  {
    hide Run, ActiveCount, UnfinishedCount, RetryingCount, Peak;
    CapHoldsOverRuns(w, cr, jobName, ms);
    UnfinishedSplits(Run(w, cr, jobName, ms).jobs, cr);
  }

  // ----- Convergence of the whole loop -----

  // What others do before a retried pass, and what the pass gets from outside.
  datatype Retry = Retry(before: seq<Event>, input: Input)

  function Moves(ps: seq<Retry>): seq<Move> {
    if ps == [] then []
    else
      var n := |ps| - 1;
      Moves(ps[..n]) + [Elsewhere(ps[n].before), ReconcilePass(ps[n].input)]
  }

  function RoundsOf(ps: seq<Retry>): seq<Round> {
    seq(|ps|, n requires 0 <= n < |ps| => Round(ps[n].before, ps[n].input.env, ps[n].input.fate))
  }

  // A pass that gets through the gates and works on repos: they are stored, or a discovery is due, which
  // finds them.
  predicate Open(status: CrStatus, spec: Spec, repos: seq<string>, i: Input) {
    && i.get == Found && AuthOk(spec, i.secret) && !Limited(spec, i.probe)
    && i.discovery == Some(repos) && !i.listFails
    && (|| status.inventory == repos
        || NeedsDiscovery(status.lastDiscovery, |status.inventory|, spec.discoveryInterval, i.checkedAt))
  }

  lemma OpenPassDispatches(w: World, cr: string, jobName: string -> string, repos: seq<string>, i: Input)
    requires Open(w.status, w.spec, repos, i)
    ensures var o := Reconciled(w.status, w.spec, cr, w.jobs, jobName, i);
      var t := Pass(w.jobs, cr, w.spec.parallelism, Names(repos, jobName), i.env, i.fate);
      && o.jobs == t.jobs && o.dispatched == (t.status != Failed)
      && (if i.update == Rejected then o.status == w.status else o.status.inventory == repos)
      && (i.update == Accepted && t.status != Failed ==>
            o.requeue == Some(if t.status == Capped then PENDING_REQUEUE else w.spec.discoveryInterval))
  {
    hide Pass, AuthOk, Limited, NeedsDiscovery, Names;
  }

  // Until a status update lands the status is the one at the start, afterwards repos are stored: every
  // pass works on repos.
  lemma {:induction false} LoopIsRounds(w: World, cr: string, jobName: string -> string, repos: seq<string>,
                                        ps: seq<Retry>)
    requires forall n :: 0 <= n < |ps| ==> Open(w.status, w.spec, repos, ps[n].input)
    ensures var end := Run(w, cr, jobName, Moves(ps));
      && end.spec == w.spec && (end.status == w.status || end.status.inventory == repos)
      && end.jobs == Rounds(w.jobs, cr, w.spec.parallelism, Names(repos, jobName), RoundsOf(ps))
  {
    hide Reconciled, HappenAll, Pass, Names, AuthOk, Limited, NeedsDiscovery;
    if ps != [] {
      var n := |ps| - 1;
      LoopIsRounds(w, cr, jobName, repos, ps[..n]);
      assert RoundsOf(ps)[..n] == RoundsOf(ps[..n]);
      LastTwo(w, cr, jobName, ps);
      var listed := Apply(Run(w, cr, jobName, Moves(ps[..n])), cr, jobName, Elsewhere(ps[n].before));
      OpenPassDispatches(listed, cr, jobName, repos, ps[n].input);
    }
  }

  lemma LastTwo(w: World, cr: string, jobName: string -> string, ps: seq<Retry>)
    requires ps != []
    ensures var n := |ps| - 1;
      var ms := Moves(ps);
      var listed := Apply(Run(w, cr, jobName, Moves(ps[..n])), cr, jobName, Elsewhere(ps[n].before));
      && ms != [] && ms[|ms| - 1] == ReconcilePass(ps[n].input)
      && Run(w, cr, jobName, ms[..|ms| - 1]) == listed
      && Run(w, cr, jobName, ms) == Apply(listed, cr, jobName, ReconcilePass(ps[n].input))
  {
    hide Apply;
    var n := |ps| - 1;
    var ms, front := Moves(ps), Moves(ps[..n]);
    assert ms[..|ms| - 1] == front + [Elsewhere(ps[n].before)];
    assert ms[..|ms| - 1][..|front|] == front;
  }

  // As many retried passes of the loop as names were missing, each through the gates, without deletions
  // or errors of create calls and with an active Job finished before each pass at the cap, end with a Job
  // for every repository; the last pass dispatched, and if its status update succeeds it leaves the
  // repositories stored and asks for no early requeue. The first of these passes may be the first of all,
  // from an empty status, or the first after the repositories changed; status updates may fail meanwhile.
  lemma LoopConverges(w: World, cr: string, jobName: string -> string, repos: seq<string>, ps: seq<Retry>)
    requires forall n :: 0 <= n < |ps| ==> Open(w.status, w.spec, repos, ps[n].input)
    requires var names := Names(repos, jobName);
      && Distinct(names) && OwnNames(w.jobs, cr, names)
      && GoodRun(w.jobs, cr, w.spec.parallelism, names, RoundsOf(ps))
      && |ps| >= |MissingNow(w.jobs, cr, names)|
    requires w.spec.parallelism >= 1 && ActiveCount(w.jobs, cr) <= w.spec.parallelism && ps != []
    ensures var end := Run(w, cr, jobName, Moves(ps));
      && (forall name :: name in Names(repos, jobName) ==> name in Selected(end.jobs, cr))
      && (end.status == w.status || end.status.inventory == repos)
    ensures var o := LastOutcome(w, cr, jobName, Moves(ps));
      && o.Some? && o.value.dispatched
      && (ps[|ps| - 1].input.update == Accepted ==>
            && o.value.requeue == Some(w.spec.discoveryInterval)
            && Run(w, cr, jobName, Moves(ps)).status.inventory == repos)
  {
    hide Reconciled, Pass, Names, GoodRun, OwnNames, Distinct, MissingNow, Selected, ActiveCount, HappenAll;
    hide Run, Moves, AuthOk, Limited, NeedsDiscovery;
    var n, names := |ps| - 1, Names(repos, jobName);
    LoopIsRounds(w, cr, jobName, repos, ps);
    LoopIsRounds(w, cr, jobName, repos, ps[..n]);
    assert RoundsOf(ps)[..n] == RoundsOf(ps[..n]);
    DispatchConverges(w.jobs, cr, w.spec.parallelism, names, RoundsOf(ps));
    LastTwo(w, cr, jobName, ps);
    var listed := Apply(Run(w, cr, jobName, Moves(ps[..n])), cr, jobName, Elsewhere(ps[n].before));
    OpenPassDispatches(listed, cr, jobName, repos, ps[n].input);
  }
}
