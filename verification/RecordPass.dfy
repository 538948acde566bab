// The record pass of one collection Job: a snapshot's resolved findings, guarded, scoped and
// recorded one by one.
module RecordPass {
  import opened GoStrings
  import opened Histogram
  import opened Scope
  import opened P = Provider
  import opened Valkey
  import opened Protocol
  import opened O = OrderIndependence
  import C = Client

  // The call for one resolved finding, or none when a guard skips it.
  function CallOf(provider: string, repo: string, rf: ResolvedFinding, window: int,
                  includeSeverity: bool): Option<Call> {
    if rf.id == "" || rf.resolution == "" || IsZero(rf.createdAt) then None
    else
      var duration := Sub(rf.resolvedAt, rf.createdAt);
      if duration <= 0 then None
      else
        var severity := if includeSeverity then rf.severity else "";
        var labels := Labels(provider, repo, rf.category, rf.resolution, severity);
        Some(Call(RemediationScope(labels), rf.id, duration, window))
  }

  function RepoCalls(provider: string, repo: string, rfs: seq<ResolvedFinding>, window: int,
                     includeSeverity: bool): seq<Call> {
    if rfs == [] then []
    else
      var n := |rfs| - 1;
      RepoCalls(provider, repo, rfs[..n], window, includeSeverity) +
      match CallOf(provider, repo, rfs[n], window, includeSeverity)
      case Some(c) => [c]
      case None => []
  }

  function SnapshotCalls(provider: string, repos: seq<RepoMetrics>, window: int, includeSeverity: bool): seq<Call> {
    if repos == [] then []
    else
      var n := |repos| - 1;
      SnapshotCalls(provider, repos[..n], window, includeSeverity) +
      RepoCalls(provider, repos[n].name, repos[n].resolvedFindings, window, includeSeverity)
  }

  // The calls of a pass from the one numbered first on; the k-th call meets the fate delivery(k).
  function StepsFrom(calls: seq<Call>, delivery: nat -> Delivery, first: nat): seq<Step> {
    seq(|calls|, i requires 0 <= i < |calls| => Attempt(calls[i], delivery(first + i)))
  }

  function Steps(calls: seq<Call>, delivery: nat -> Delivery): seq<Step> {
    StepsFrom(calls, delivery, 0)
  }

  lemma StepsConcat(a: seq<Call>, b: seq<Call>, delivery: nat -> Delivery, first: nat)
    ensures StepsFrom(a + b, delivery, first) == StepsFrom(a, delivery, first) + StepsFrom(b, delivery, first + |a|)
  {
  }

  lemma RunOneMore(db: Db, done: seq<Call>, c: Call, delivery: nat -> Delivery, first: nat)
    ensures Run(db, StepsFrom(done + [c], delivery, first)) ==
            Next(Run(db, StepsFrom(done, delivery, first)), Attempt(c, delivery(first + |done|)))
  {
    hide Next;
    assert StepsFrom(done + [c], delivery, first)[..|done|] == StepsFrom(done, delivery, first);
  }

  lemma RunMore(db: Db, done: seq<Call>, calls: seq<Call>, delivery: nat -> Delivery)
    ensures Run(db, Steps(done + calls, delivery))
         == Run(Run(db, Steps(done, delivery)), StepsFrom(calls, delivery, |done|))
  {
    hide Run, StepsFrom;
    StepsConcat(done, calls, delivery, 0);
    RunConcat(db, Steps(done, delivery), StepsFrom(calls, delivery, |done|));
  }

  // The positions of the failed ones among the n calls from the one numbered first on, in order.
  function FailedCalls(first: nat, n: nat, delivery: nat -> Delivery): seq<nat> {
    if n == 0 then []
    else
      FailedCalls(first, n - 1, delivery) + if delivery(first + n - 1) != Delivered then [first + n - 1] else []
  }

  lemma {:induction false} FailedMore(first: nat, n: nat, m: nat, delivery: nat -> Delivery)
    ensures FailedCalls(first, n, delivery) + FailedCalls(first + n, m, delivery) == FailedCalls(first, n + m, delivery)
  {
    if m == 0 {
      assert FailedCalls(first, n, delivery) + [] == FailedCalls(first, n, delivery);
    } else {
      FailedMore(first, n, m - 1, delivery);
    }
  }

  // Each failed call once, in order, and no other.
  lemma {:induction false} FailedCallsAre(first: nat, n: nat, delivery: nat -> Delivery)
    ensures var errs := FailedCalls(first, n, delivery);
      && (forall k: nat :: k in errs <==> first <= k < first + n && delivery(k) != Delivered)
      && (forall i, j :: 0 <= i < j < |errs| ==> errs[i] < errs[j])
  {
    if n > 0 {
      FailedCallsAre(first, n - 1, delivery);
      var front, errs := FailedCalls(first, n - 1, delivery), FailedCalls(first, n, delivery);
      forall i, j | 0 <= i < j < |errs| ensures errs[i] < errs[j] {
        assert errs[i] == front[i] && errs[i] in front;
        assert j < |front| ==> errs[j] == front[j];
      }
    }
  }

  lemma FailedNext(first: nat, n: nat, delivery: nat -> Delivery)
    ensures FailedCalls(first, 0, delivery) == []
    ensures FailedCalls(first, n + 1, delivery) ==
            FailedCalls(first, n, delivery) + if delivery(first + n) != Delivered then [first + n] else []
  {
  }

  lemma NoSteps(db: Db, delivery: nat -> Delivery, first: nat)
    ensures Run(db, StepsFrom([], delivery, first)) == db
  {
  }

  // Record: every guarded finding is attempted once and in order; a failed call is kept as an error
  // and the pass goes on. errs lists the positions of the failed calls.
  method Record(client: C.Client, provider: string, repos: seq<RepoMetrics>, window: int, includeSeverity: bool,
                delivery: nat -> Delivery) returns (errs: seq<nat>)
    requires client.server.Valid()
    modifies client.server
    ensures client.server.Valid()
    ensures client.server.db ==
            Run(old(client.server.db), Steps(SnapshotCalls(provider, repos, window, includeSeverity), delivery))
    ensures errs == FailedCalls(0, |SnapshotCalls(provider, repos, window, includeSeverity)|, delivery)
  {
    hide RepoCalls, StepsFrom, Run, FailedCalls;
    FailedNext(0, 0, delivery);
    errs := [];
    var attempts := 0;
    ghost var done := [];
    NoSteps(client.server.db, delivery, 0);
    for i := 0 to |repos|
      invariant client.server.Valid()
      invariant done == SnapshotCalls(provider, repos[..i], window, includeSeverity) && attempts == |done|
      invariant client.server.db == Run(old(client.server.db), Steps(done, delivery))
      invariant errs == FailedCalls(0, attempts, delivery)
    {
      assert repos[..i + 1][..i] == repos[..i];
      ghost var calls := RepoCalls(provider, repos[i].name, repos[i].resolvedFindings, window, includeSeverity);
      RunMore(old(client.server.db), done, calls, delivery);
      var n, more := RecordRepo(client, provider, repos[i], window, includeSeverity, delivery, attempts);
      FailedMore(0, attempts, n, delivery);
      attempts, errs, done := attempts + n, errs + more, done + calls;
    }
    assert repos[..|repos|] == repos;
  }

  // The inner loop of Record. n counts the attempted calls.
  method RecordRepo(client: C.Client, provider: string, repo: RepoMetrics, window: int, includeSeverity: bool,
                    delivery: nat -> Delivery, first: nat) returns (n: nat, errs: seq<nat>)
    requires client.server.Valid()
    modifies client.server
    ensures client.server.Valid()
    ensures n == |RepoCalls(provider, repo.name, repo.resolvedFindings, window, includeSeverity)|
    ensures client.server.db ==
            Run(old(client.server.db),
                StepsFrom(RepoCalls(provider, repo.name, repo.resolvedFindings, window, includeSeverity),
                          delivery, first))
    ensures errs == FailedCalls(first, n, delivery)
  {
    hide *;
    n, errs := 0, [];
    var rfs := repo.resolvedFindings;
    NoCalls(client.server.db, provider, repo.name, rfs, window, includeSeverity, delivery, first);
    for j := 0 to |rfs|
      invariant client.server.Valid()
      invariant n == |RepoCalls(provider, repo.name, rfs[..j], window, includeSeverity)|
      invariant client.server.db ==
                Run(old(client.server.db),
                    StepsFrom(RepoCalls(provider, repo.name, rfs[..j], window, includeSeverity), delivery, first))
      invariant errs == FailedCalls(first, n, delivery)
    {
      RepoCallsNext(old(client.server.db), provider, repo.name, rfs, window, includeSeverity, j, delivery, first);
      var attempted, failed := RecordFinding(client, provider, repo.name, rfs[j], window, includeSeverity,
                                             delivery(first + n));
      if attempted {
        errs := errs + if failed then [first + n] else [];
        n := n + 1;
      }
    }
    assert rfs[..|rfs|] == rfs;
  }

  lemma NoCalls(db: Db, provider: string, repo: string, rfs: seq<ResolvedFinding>, window: int,
                includeSeverity: bool, delivery: nat -> Delivery, first: nat)
    ensures var none := RepoCalls(provider, repo, rfs[..0], window, includeSeverity);
      none == [] && Run(db, StepsFrom(none, delivery, first)) == db && FailedCalls(first, 0, delivery) == []
  {
  }

  // One more finding adds at most one call.
  lemma RepoCallsNext(db: Db, provider: string, repo: string, rfs: seq<ResolvedFinding>, window: int,
                      includeSeverity: bool, j: nat, delivery: nat -> Delivery, first: nat)
    requires j < |rfs|
    ensures var done := RepoCalls(provider, repo, rfs[..j], window, includeSeverity);
      var next := RepoCalls(provider, repo, rfs[..j + 1], window, includeSeverity);
      match CallOf(provider, repo, rfs[j], window, includeSeverity)
      case None => next == done
      case Some(c) =>
        && |next| == |done| + 1
        && Run(db, StepsFrom(next, delivery, first)) ==
           Next(Run(db, StepsFrom(done, delivery, first)), Attempt(c, delivery(first + |done|)))
        && FailedCalls(first, |next|, delivery) ==
           FailedCalls(first, |done|, delivery)
           + if delivery(first + |done|) != Delivered then [first + |done|] else []
  {
    hide CallOf, Run, StepsFrom, Next, FailedCalls;
    assert rfs[..j + 1][..j] == rfs[..j];
    var done := RepoCalls(provider, repo, rfs[..j], window, includeSeverity);
    var c := CallOf(provider, repo, rfs[j], window, includeSeverity);
    FailedNext(first, |done|, delivery);
    if c.Some? { RunOneMore(db, done, c.value, delivery, first); }
  }

  // One round of the inner loop: the guards, the scope and the store call.
  method RecordFinding(client: C.Client, provider: string, repo: string, rf: ResolvedFinding, window: int,
                       includeSeverity: bool, delivery: Delivery) returns (attempted: bool, failed: bool)
    requires client.server.Valid()
    modifies client.server
    ensures client.server.Valid()
    ensures var c := CallOf(provider, repo, rf, window, includeSeverity);
      && attempted == c.Some?
      && attempted == Measurable(rf)
      && (attempted ==> IsCallFor(provider, repo, rf, window, includeSeverity, c.value))
      && failed == (attempted && delivery != Delivered)
      && client.server.db ==
         if attempted then Next(old(client.server.db), Attempt(c.value, delivery)) else old(client.server.db)
  {
    hide RemediationScope;
    if rf.id == "" || rf.resolution == "" || IsZero(rf.createdAt) {
      return false, false;
    }
    var duration := Sub(rf.resolvedAt, rf.createdAt);
    if duration <= 0 {
      return false, false;
    }
    var severity := "";
    if includeSeverity {
      severity := rf.severity;
    }
    var scope := RemediationScope(Labels(provider, repo, rf.category, rf.resolution, severity));
    var _, err := client.RecordIfNew(scope, rf.id, duration, window, delivery);
    return true, err;
  }

  // ----- What a pass sends -----

  // Every call of a repository stems from one of its findings.
  lemma {:induction false} RepoCallsGuarded(provider: string, repo: string, rfs: seq<ResolvedFinding>, window: int,
                                            includeSeverity: bool, c: Call)
    requires c in RepoCalls(provider, repo, rfs, window, includeSeverity)
    ensures exists rf :: rf in rfs && CallOf(provider, repo, rf, window, includeSeverity) == Some(c)
  {
    hide CallOf;
    var n := |rfs| - 1;
    if c in RepoCalls(provider, repo, rfs[..n], window, includeSeverity) {
      RepoCallsGuarded(provider, repo, rfs[..n], window, includeSeverity, c);
    } else {
      assert rfs[n] in rfs;
    }
  }

  // Nothing bogus is ever sent: an id, a positive duration, and never a finding whose creation time was
  // not parsed or does not lie before its resolution.
  lemma {:induction false} SnapshotCallsGuarded(provider: string, repos: seq<RepoMetrics>, window: int,
                                                includeSeverity: bool, c: Call)
    returns (repo: RepoMetrics, rf: ResolvedFinding)
    requires c in SnapshotCalls(provider, repos, window, includeSeverity)
    ensures repo in repos && rf in repo.resolvedFindings
    ensures CallOf(provider, repo.name, rf, window, includeSeverity) == Some(c)
    ensures c.id != "" && c.duration > 0 && c.window == window
    ensures rf.createdAt != ZERO_TIME && rf.createdAt < rf.resolvedAt
  {
    hide RemediationScope;
    var n := |repos| - 1;
    if c in SnapshotCalls(provider, repos[..n], window, includeSeverity) {
      repo, rf := SnapshotCallsGuarded(provider, repos[..n], window, includeSeverity, c);
    } else {
      repo := repos[n];
      RepoCallsGuarded(provider, repo.name, repo.resolvedFindings, window, includeSeverity, c);
      rf :| rf in repo.resolvedFindings && CallOf(provider, repo.name, rf, window, includeSeverity) == Some(c);
    }
  }

  // A finding that has an id, a resolution, a known creation time, and was created before it was resolved.
  predicate Measurable(rf: ResolvedFinding) {
    rf.id != "" && rf.resolution != "" && rf.createdAt != ZERO_TIME && rf.createdAt < rf.resolvedAt
  }

  // c is the call for such a finding: its age at the resolution, as far as a duration can express it.
  predicate IsCallFor(provider: string, repo: string, rf: ResolvedFinding, window: int, includeSeverity: bool,
                      c: Call)
  {
    && c.id == rf.id && c.window == window
    && c.duration == (if rf.resolvedAt - rf.createdAt > MAX_INT64 then MAX_INT64 else rf.resolvedAt - rf.createdAt)
    && c.scope == RemediationScope(Labels(provider, repo, rf.category, rf.resolution,
                                          if includeSeverity then rf.severity else ""))
  }

  lemma CallOfMeasurable(provider: string, repo: string, rf: ResolvedFinding, window: int, includeSeverity: bool)
    ensures var c := CallOf(provider, repo, rf, window, includeSeverity);
      && (c.Some? <==> Measurable(rf))
      && (c.Some? ==> IsCallFor(provider, repo, rf, window, includeSeverity, c.value))
  {
    hide RemediationScope;
  }

  // A place in a snapshot: a repository and one of its findings.
  type Place = (nat, nat)

  ghost predicate Earlier(p: Place, q: Place) { p.0 < q.0 || (p.0 == q.0 && p.1 < q.1) }

  ghost predicate IsPlace(repos: seq<RepoMetrics>, p: Place) {
    p.0 < |repos| && p.1 < |repos[p.0].resolvedFindings| && Measurable(repos[p.0].resolvedFindings[p.1])
  }

  // The measurable findings of a snapshot.
  ghost function Places(repos: seq<RepoMetrics>): set<Place> {
    set r: nat, j: nat | r < |repos| && j < |repos[r].resolvedFindings| && IsPlace(repos, (r, j)) :: (r, j)
  }

  // The i-th call is that of the finding at the i-th place, places in order, none left out.
  ghost predicate CallsOfPlaces(provider: string, repos: seq<RepoMetrics>, window: int, includeSeverity: bool,
                                calls: seq<Call>, places: seq<Place>)
  {
    && |places| == |calls|
    && (forall i :: 0 <= i < |places| ==>
          IsPlace(repos, places[i]) &&
          IsCallFor(provider, repos[places[i].0].name, repos[places[i].0].resolvedFindings[places[i].1],
                    window, includeSeverity, calls[i]))
    && (forall i, j :: 0 <= i < j < |places| ==> Earlier(places[i], places[j]))
    && (forall p: Place :: IsPlace(repos, p) ==> p in places)
  }

  // The same of the findings of one repository.
  ghost predicate CallsOfFindings(provider: string, repo: string, rfs: seq<ResolvedFinding>, window: int,
                                  includeSeverity: bool, calls: seq<Call>, at: seq<nat>)
  {
    && |at| == |calls|
    && (forall i :: 0 <= i < |at| ==>
          at[i] < |rfs| && Measurable(rfs[at[i]]) &&
          IsCallFor(provider, repo, rfs[at[i]], window, includeSeverity, calls[i]))
    && (forall i, j :: 0 <= i < j < |at| ==> at[i] < at[j])
    && (forall j: nat :: j < |rfs| && Measurable(rfs[j]) ==> j in at)
  }

  lemma {:induction false} RepoSends(provider: string, repo: string, rfs: seq<ResolvedFinding>, window: int,
                                     includeSeverity: bool)
    returns (at: seq<nat>)
    ensures CallsOfFindings(provider, repo, rfs, window, includeSeverity,
                            RepoCalls(provider, repo, rfs, window, includeSeverity), at)
  {
    hide CallOf, Measurable, IsCallFor;
    if rfs == [] {
      at := [];
    } else {
      var n := |rfs| - 1;
      var front := RepoSends(provider, repo, rfs[..n], window, includeSeverity);
      CallOfMeasurable(provider, repo, rfs[n], window, includeSeverity);
      at := front + if Measurable(rfs[n]) then [n] else [];
      forall j: nat | j < |rfs| && Measurable(rfs[j]) ensures j in at {
        if j < n { assert rfs[..n][j] == rfs[j]; }
      }
    }
  }

  function PlacesIn(repo: nat, at: seq<nat>): seq<Place> {
    seq(|at|, i requires 0 <= i < |at| => (repo, at[i]))
  }

  lemma PlacesNext(provider: string, repos: seq<RepoMetrics>, window: int, includeSeverity: bool, calls: seq<Call>,
                   places: seq<Place>, more: seq<Call>, at: seq<nat>)
    requires repos != []
    requires var n := |repos| - 1;
      && CallsOfPlaces(provider, repos[..n], window, includeSeverity, calls, places)
      && CallsOfFindings(provider, repos[n].name, repos[n].resolvedFindings, window, includeSeverity, more, at)
    ensures CallsOfPlaces(provider, repos, window, includeSeverity, calls + more, places + PlacesIn(|repos| - 1, at))
  {
    var n := |repos| - 1;
    var all := places + PlacesIn(n, at);
    InOrder(repos, places, at);
    hide Earlier;
    forall i | 0 <= i < |all|
      ensures IsPlace(repos, all[i])
      ensures IsCallFor(provider, repos[all[i].0].name, repos[all[i].0].resolvedFindings[all[i].1],
                        window, includeSeverity, (calls + more)[i])
    {
      if i < |places| {
        OldPlace(repos, all[i]);
      } else {
        assert all[i] == (n, at[i - |places|]) && (calls + more)[i] == more[i - |calls|];
      }
    }
    forall p: Place | IsPlace(repos, p) ensures p in all { PlaceCovered(repos, places, at, p); }
    hide IsPlace, IsCallFor;
  }

  lemma InOrder(repos: seq<RepoMetrics>, places: seq<Place>, at: seq<nat>)
    requires repos != [] && forall i :: 0 <= i < |places| ==> IsPlace(repos[..|repos| - 1], places[i])
    requires forall i, j :: 0 <= i < j < |places| ==> Earlier(places[i], places[j])
    requires forall i, j :: 0 <= i < j < |at| ==> at[i] < at[j]
    ensures var all := places + PlacesIn(|repos| - 1, at);
      forall i, j :: 0 <= i < j < |all| ==> Earlier(all[i], all[j])
  {
    hide Measurable;
    var n := |repos| - 1;
    forall i | 0 <= i < |places| ensures places[i].0 < n {
      assert IsPlace(repos[..n], places[i]);
    }
  }

  lemma OldPlace(repos: seq<RepoMetrics>, p: Place)
    requires repos != [] && IsPlace(repos[..|repos| - 1], p)
    ensures IsPlace(repos, p) && repos[..|repos| - 1][p.0] == repos[p.0]
  {
    hide Measurable;
  }

  lemma PlaceCovered(repos: seq<RepoMetrics>, places: seq<Place>, at: seq<nat>, p: Place)
    requires repos != [] && IsPlace(repos, p)
    requires forall q: Place :: IsPlace(repos[..|repos| - 1], q) ==> q in places
    requires var rfs := repos[|repos| - 1].resolvedFindings;
      forall j: nat :: j < |rfs| && Measurable(rfs[j]) ==> j in at
    ensures p in places + PlacesIn(|repos| - 1, at)
  {
    hide Measurable;
    var n := |repos| - 1;
    if p.0 < n {
      assert IsPlace(repos[..n], p);
    } else {
      var i :| 0 <= i < |at| && at[i] == p.1;
      assert PlacesIn(n, at)[i] == p;
    }
  }

  // A pass sends exactly the calls of the measurable findings of its snapshot, in order: none is left
  // out, however long the remediation took, and nothing else is sent.
  lemma {:induction false} PassSends(provider: string, repos: seq<RepoMetrics>, window: int, includeSeverity: bool)
    returns (places: seq<Place>)
    ensures CallsOfPlaces(provider, repos, window, includeSeverity,
                          SnapshotCalls(provider, repos, window, includeSeverity), places)
  {
    if repos == [] {
      places := [];
    } else {
      hide RepoCalls, CallsOfPlaces, CallsOfFindings;
      var n := |repos| - 1;
      var calls := SnapshotCalls(provider, repos[..n], window, includeSeverity);
      var more := RepoCalls(provider, repos[n].name, repos[n].resolvedFindings, window, includeSeverity);
      places := PassSends(provider, repos[..n], window, includeSeverity);
      var at := RepoSends(provider, repos[n].name, repos[n].resolvedFindings, window, includeSeverity);
      PlacesNext(provider, repos, window, includeSeverity, calls, places, more, at);
      places := places + PlacesIn(n, at);
    }
  }

  // In particular: every measurable finding has its call, and there are as many calls as such findings.
  lemma EveryMeasurableIsSent(provider: string, repos: seq<RepoMetrics>, window: int, includeSeverity: bool)
    ensures var calls := SnapshotCalls(provider, repos, window, includeSeverity);
      && (forall repo, rf :: repo in repos && rf in repo.resolvedFindings && Measurable(rf) ==>
            exists c :: c in calls && IsCallFor(provider, repo.name, rf, window, includeSeverity, c))
      && |calls| == |Places(repos)|
  {
    hide SnapshotCalls, Measurable, IsCallFor, Earlier;
    var calls := SnapshotCalls(provider, repos, window, includeSeverity);
    var places := PassSends(provider, repos, window, includeSeverity);
    forall repo, rf | repo in repos && rf in repo.resolvedFindings && Measurable(rf)
      ensures exists c :: c in calls && IsCallFor(provider, repo.name, rf, window, includeSeverity, c)
    {
      HasItsCall(provider, repos, window, includeSeverity, calls, places, repo, rf);
    }
    InOrderIsDistinct(places);
    PlacesAreListed(provider, repos, window, includeSeverity, calls, places);
  }

  lemma HasItsCall(provider: string, repos: seq<RepoMetrics>, window: int, includeSeverity: bool, calls: seq<Call>,
                   places: seq<Place>, repo: RepoMetrics, rf: ResolvedFinding)
    requires CallsOfPlaces(provider, repos, window, includeSeverity, calls, places)
    requires repo in repos && rf in repo.resolvedFindings && Measurable(rf)
    ensures exists c :: c in calls && IsCallFor(provider, repo.name, rf, window, includeSeverity, c)
  {
    hide Measurable, IsCallFor, Earlier;
    var r :| 0 <= r < |repos| && repos[r] == repo;
    var j :| 0 <= j < |repo.resolvedFindings| && repo.resolvedFindings[j] == rf;
    assert IsPlace(repos, (r, j));
    var i :| 0 <= i < |places| && places[i] == (r, j);
    assert calls[i] in calls;
  }

  lemma PlacesAreListed(provider: string, repos: seq<RepoMetrics>, window: int, includeSeverity: bool,
                        calls: seq<Call>, places: seq<Place>)
    requires CallsOfPlaces(provider, repos, window, includeSeverity, calls, places)
    ensures Places(repos) == set p | p in places
  {
    hide Measurable, IsCallFor, Earlier;
    forall p: Place ensures p in Places(repos) <==> p in places {
      if p in places {
        var i :| 0 <= i < |places| && places[i] == p;
        assert IsPlace(repos, (p.0, p.1));
      }
      assert p == (p.0, p.1);
    }
  }

  lemma {:induction false} InOrderIsDistinct(places: seq<Place>)
    requires forall i, j :: 0 <= i < j < |places| ==> Earlier(places[i], places[j])
    ensures |set p | p in places| == |places|
  {
    if places != [] {
      var n := |places| - 1;
      InOrderIsDistinct(places[..n]);
      assert (set p | p in places) == (set p | p in places[..n]) + {places[n]};
    }
  }

  // Every pass keeps the histograms monotone, whatever happens to its calls.
  lemma PassIsPositive(provider: string, repos: seq<RepoMetrics>, window: int, includeSeverity: bool,
                       delivery: nat -> Delivery)
    ensures Positive(Steps(SnapshotCalls(provider, repos, window, includeSeverity), delivery))
  {
    var calls := SnapshotCalls(provider, repos, window, includeSeverity);
    forall e | e in Steps(calls, delivery) && e.Attempt? ensures e.call.duration > 0 {
      var repo, rf := SnapshotCallsGuarded(provider, repos, window, includeSeverity, e.call);
    }
  }

  // ----- Retries -----

  function Findings(calls: seq<Call>): set<O.Finding> {
    set c | c in calls :: O.Finding(c.scope, c.id, c.duration)
  }

  // A run that only ever attempts the calls of one pass, and gets each of them through at least
  // once.
  ghost predicate RetriesOf(es: seq<Step>, calls: seq<Call>) {
    && (forall e :: e in es && e.Attempt? ==> e.call in calls)
    && (forall c :: c in calls ==> exists e :: e in es && e.Applied() && e.call == c)
  }

  // Any number of passes over one snapshot, cut short, repeated, reordered, with calls failing
  // before or after they applied, ends in the same histograms and the same index as one clean pass.
  lemma RetriedPassesEqualOneCleanPass(now: int, es: seq<Step>, now': int, calls: seq<Call>)
    requires RetriesOf(es, calls) && OneDurationEach(Findings(calls))
    requires WindowsOutlast(es, Elapsed(es))
    ensures var clean := Steps(calls, (k: nat) => Delivered);
      && (forall s :: Hist(Run(Start(now), es), s) == Hist(Run(Start(now'), clean), s))
      && Index(Run(Start(now), es)) == Index(Run(Start(now'), clean))
  {
    hide Run, Hist, Index;
    var clean := Steps(calls, (k: nat) => Delivered);
    forall c | c in calls ensures exists e :: e in clean && e.Applied() && e.call == c {
      var k :| 0 <= k < |calls| && calls[k] == c;
      assert clean[k] in clean && clean[k].Applied() && clean[k].call == c;
    }
    assert Applied(es) == Findings(calls) == Applied(clean);
    NoTimePasses(calls);
    forall e | e in clean && e.Applied() ensures e.call.Ttl() > 0 && e.call.Ttl() * SECOND >= 0 {
      assert e.call in calls;
      var d :| d in es && d.Applied() && d.call == e.call;
    }
    RecordingDependsOnTheSetOnly(now, es, now', clean);
  }

  lemma {:induction false} NoTimePasses(calls: seq<Call>)
    ensures Elapsed(Steps(calls, (k: nat) => Delivered)) == 0
  {
    if calls != [] {
      var n := |calls| - 1;
      NoTimePasses(calls[..n]);
      assert Steps(calls, (k: nat) => Delivered)[..n] == Steps(calls[..n], (k: nat) => Delivered);
    }
  }
}
