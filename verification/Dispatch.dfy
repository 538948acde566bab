// The capped dispatch of collection Jobs against a cluster in which Jobs finish, fail and are
// deleted while the pass is still creating others.
module Dispatch {
  // The number of failed pods after which a Job is retried no more.
  const BACKOFF_LIMIT := 2

  // Pod counts of one Job, and the CR its labels name.
  datatype Job = Job(instance: string, succeeded: nat, failed: nat)
  {
    // The code's notion of an active Job. One that retries after a failed pod is not counted.
    predicate Active() { succeeded == 0 && failed == 0 }

    predicate Retrying() { succeeded == 0 && 0 < failed <= BACKOFF_LIMIT }

    // Running or pending: no pod has succeeded, and another one is or will be tried.
    predicate Unfinished() { succeeded == 0 && failed <= BACKOFF_LIMIT }
  }

  // The Jobs of a namespace by name.
  type Jobs = map<string, Job>

  function NewJob(cr: string): Job { Job(cr, 0, 0) }

  // What selectorLabels(cr) matches.
  function Selected(jobs: Jobs, cr: string): set<string> {
    set n | n in jobs && jobs[n].instance == cr
  }

  function ActiveSet(jobs: Jobs, cr: string): set<string> {
    set n | n in jobs && jobs[n].instance == cr && jobs[n].Active()
  }

  function ActiveCount(jobs: Jobs, cr: string): nat { |ActiveSet(jobs, cr)| }

  // ----- The environment -----

  // Pod counts only grow; a deleted Job's name becomes free again; another owner may take a name.
  datatype Event =
    | Progress(name: string, succeeded: nat, failed: nat)
    | Removed(name: string)
    | Taken(name: string, instance: string)

  function Happen(jobs: Jobs, e: Event): Jobs {
    match e
    case Progress(name, s, f) =>
      if name in jobs && s >= jobs[name].succeeded && f >= jobs[name].failed
      then jobs[name := Job(jobs[name].instance, s, f)] else jobs
    case Removed(name) => jobs - {name}
    case Taken(name, instance) => if name in jobs then jobs else jobs[name := NewJob(instance)]
  }

  function HappenAll(jobs: Jobs, es: seq<Event>): Jobs {
    if es == [] then jobs else Happen(HappenAll(jobs, es[..|es| - 1]), es[|es| - 1])
  }

  // Only the CR's one worker creates Jobs with its label.
  ghost predicate OneWorker(es: seq<Event>, cr: string) {
    forall e :: e in es && e.Taken? ==> e.instance != cr
  }

  ghost predicate NoRemoval(es: seq<Event>) {
    forall e :: e in es ==> !e.Removed?
  }

  ghost predicate NothingTaken(es: seq<Event>) {
    forall e :: e in es ==> !e.Taken?
  }

  lemma SubsetCount(a: set<string>, b: set<string>)
    requires a <= b
    ensures |a| <= |b|
  {
    assert b == a + (b - a);
  }

  lemma {:induction false} EventsOnlyShrink(jobs: Jobs, es: seq<Event>, cr: string)
    requires OneWorker(es, cr)
    ensures ActiveSet(HappenAll(jobs, es), cr) <= ActiveSet(jobs, cr)
    ensures ActiveCount(HappenAll(jobs, es), cr) <= ActiveCount(jobs, cr)
    ensures NoRemoval(es) ==> Selected(HappenAll(jobs, es), cr) == Selected(jobs, cr)
    ensures NothingTaken(es) ==> HappenAll(jobs, es).Keys <= jobs.Keys
  {
    if es != [] {
      var n := |es| - 1;
      EventsOnlyShrink(jobs, es[..n], cr);
      assert es[n] in es;
    }
    SubsetCount(ActiveSet(HappenAll(jobs, es), cr), ActiveSet(jobs, cr));
  }

  // ----- One pass -----

  // What becomes of a create call: accepted by the server, or an error before or after it applied.
  datatype Fate = Accepted | Rejected | ReplyLost

  datatype Status = Running | Capped | Failed

  // The pass in flight: the cluster, the local counter, the names it created so far.
  datatype State = State(jobs: Jobs, active: int, created: seq<string>, status: Status)

  // The fixed inputs of a pass. env(k) happens before the k-th repository is handled.
  datatype Setting = Setting(
    cr: string, parallelism: int, existing: set<string>, env: nat -> seq<Event>, fate: nat -> Fate)

  function Handle(s: State, p: Setting, name: string, k: nat): State {
    var jobs := HappenAll(s.jobs, p.env(k));
    if name in p.existing then s.(jobs := jobs)
    else if s.active >= p.parallelism then s.(jobs := jobs, status := Capped)
    else if p.fate(k) == Rejected then s.(jobs := jobs, status := Failed)
    else if name in jobs then s.(jobs := jobs, status := if p.fate(k) == Accepted then Running else Failed)
    else
      State(jobs[name := NewJob(p.cr)], s.active + 1, s.created + [name],
            if p.fate(k) == Accepted then Running else Failed)
  }

  // The state after the first n names; a capped or failed pass has returned.
  function After(s: State, p: Setting, names: seq<string>, n: nat): State
    requires n <= |names|
  {
    if n == 0 then s
    else
      var t := After(s, p, names, n - 1);
      if t.status != Running then t else Handle(t, p, names[n - 1], n - 1)
  }

  function Begin(jobs: Jobs, cr: string): State {
    State(jobs, ActiveCount(jobs, cr), [], Running)
  }

  function SettingFor(jobs: Jobs, cr: string, parallelism: int, env: nat -> seq<Event>, fate: nat -> Fate): Setting {
    Setting(cr, parallelism, Selected(jobs, cr), env, fate)
  }

  function Pass(jobs: Jobs, cr: string, parallelism: int, names: seq<string>, env: nat -> seq<Event>,
                fate: nat -> Fate): State {
    After(Begin(jobs, cr), SettingFor(jobs, cr, parallelism, env, fate), names, |names|)
  }

  // ----- The cap -----

  // The local counter never falls behind the cluster.
  lemma {:induction false} CounterCovers(s: State, p: Setting, names: seq<string>, n: nat)
    requires n <= |names| && ActiveCount(s.jobs, p.cr) <= s.active
    requires forall k: nat :: OneWorker(p.env(k), p.cr)
    ensures ActiveCount(After(s, p, names, n).jobs, p.cr) <= After(s, p, names, n).active
  {
    if n > 0 {
      CounterCovers(s, p, names, n - 1);
      var t := After(s, p, names, n - 1);
      EventsOnlyShrink(t.jobs, p.env(n - 1), p.cr);
      CreateAddsOne(HappenAll(t.jobs, p.env(n - 1)), p.cr, names[n - 1]);
    }
  }

  lemma CreateAddsOne(jobs: Jobs, cr: string, name: string)
    ensures name !in jobs ==> ActiveCount(jobs[name := NewJob(cr)], cr) == ActiveCount(jobs, cr) + 1
  {
    if name !in jobs {
      var jobs' := jobs[name := NewJob(cr)];
      forall n ensures n in ActiveSet(jobs', cr) <==> n in ActiveSet(jobs, cr) || n == name {}
      assert ActiveSet(jobs', cr) == ActiveSet(jobs, cr) + {name};
    }
  }

  // Whatever finishes or is deleted during the loop, no Job is created while as many as parallelism
  // Jobs are active in the cluster at that moment.
  lemma NoCreateAtTheCap(jobs: Jobs, cr: string, parallelism: int, names: seq<string>, env: nat -> seq<Event>,
                         fate: nat -> Fate, k: nat)
    requires k < |names| && forall i: nat :: OneWorker(env(i), cr)
    ensures var p := SettingFor(jobs, cr, parallelism, env, fate);
      var before, after := After(Begin(jobs, cr), p, names, k), After(Begin(jobs, cr), p, names, k + 1);
      |after.created| > |before.created| ==>
        && ActiveCount(HappenAll(before.jobs, env(k)), cr) < parallelism
        && after.jobs == HappenAll(before.jobs, env(k))[names[k] := NewJob(cr)]
  {
    var p := SettingFor(jobs, cr, parallelism, env, fate);
    hide ActiveSet, HappenAll, Selected;
    CounterCovers(Begin(jobs, cr), p, names, k);
    var before := After(Begin(jobs, cr), p, names, k);
    EventsOnlyShrink(before.jobs, env(k), cr);
  }

  // A pass never leaves more active Jobs than the larger of the cap and what it found.
  lemma {:induction false} CounterBounded(s: State, p: Setting, names: seq<string>, n: nat)
    requires n <= |names|
    ensures s.active <= After(s, p, names, n).active
    ensures After(s, p, names, n).active <= if s.active < p.parallelism then p.parallelism else s.active
  {
    hide HappenAll;
    if n > 0 { CounterBounded(s, p, names, n - 1); }
  }

  lemma PassKeepsCap(jobs: Jobs, cr: string, parallelism: int, names: seq<string>, env: nat -> seq<Event>,
                     fate: nat -> Fate)
    requires forall i: nat :: OneWorker(env(i), cr)
    ensures ActiveCount(Pass(jobs, cr, parallelism, names, env, fate).jobs, cr)
         <= if ActiveCount(jobs, cr) < parallelism then parallelism else ActiveCount(jobs, cr)
  {
    hide ActiveSet, After;
    var p := SettingFor(jobs, cr, parallelism, env, fate);
    CounterCovers(Begin(jobs, cr), p, names, |names|);
    CounterBounded(Begin(jobs, cr), p, names, |names|);
  }

  // ----- What exactly one pass creates -----

  // The names without a Job at the time of the list, in inventory order.
  function Missing(names: seq<string>, existing: set<string>): seq<string> {
    if names == [] then []
    else
      var n := |names| - 1;
      Missing(names[..n], existing) + if names[n] in existing then [] else [names[n]]
  }

  function Room(parallelism: int, active: int): nat {
    if parallelism > active then parallelism - active else 0
  }

  ghost predicate Distinct(names: seq<string>) {
    forall i, j :: 0 <= i < j < |names| ==> names[i] != names[j]
  }

  // No other owner holds or takes one of the names.
  ghost predicate Unclaimed(jobs: Jobs, names: seq<string>, existing: set<string>, env: nat -> seq<Event>) {
    && (forall i :: 0 <= i < |names| && names[i] in jobs ==> names[i] in existing)
    && (forall k: nat :: NothingTaken(env(k)))
  }

  // After n names: while running, every missing name so far was created; a capped pass stopped with
  // its room used up and a missing name in hand; a failed pass stopped somewhere within its room.
  ghost predicate Progressed(s: State, t: State, p: Setting, names: seq<string>, n: nat)
    requires n <= |names|
  {
    var missing := Missing(names[..n], p.existing);
    && t.created <= missing && |t.created| <= Room(p.parallelism, s.active)
    && t.active == s.active + |t.created|
    && (t.status == Running ==> t.created == missing)
    && (t.status == Capped ==> |t.created| == Room(p.parallelism, s.active) < |missing|)
    && t.jobs.Keys <= s.jobs.Keys + (set x | x in t.created)
  }

  lemma {:induction false} MissingGrows(names: seq<string>, existing: set<string>, n: nat)
    requires n < |names|
    ensures Missing(names[..n + 1], existing)
         == Missing(names[..n], existing) + if names[n] in existing then [] else [names[n]]
  {
    assert names[..n + 1][..n] == names[..n];
  }

  lemma {:induction false} MissingFrom(names: seq<string>, existing: set<string>, x: string)
    ensures x in Missing(names, existing) <==> x in names && x !in existing
  {
    if names != [] {
      var n := |names| - 1;
      assert names == names[..n] + [names[n]];
      MissingFrom(names[..n], existing, x);
    }
  }

  lemma HandleProgress(s: State, t: State, p: Setting, names: seq<string>, n: nat)
    requires n < |names| && Distinct(names) && t.status == Running
    requires Progressed(s, t, p, names, n)
    requires HappenAll(t.jobs, p.env(n)).Keys <= t.jobs.Keys
    requires names[n] in s.jobs ==> names[n] in p.existing
    ensures Progressed(s, Handle(t, p, names[n], n), p, names, n + 1)
  {
    hide HappenAll, Missing;
    MissingGrows(names, p.existing, n);
    MissingFrom(names[..n], p.existing, names[n]);
    var jobs := HappenAll(t.jobs, p.env(n));
    assert names[n] in jobs ==> names[n] in p.existing;
  }

  lemma {:induction false} PassProgress(s: State, p: Setting, names: seq<string>, n: nat)
    requires n <= |names| && Distinct(names) && s.created == [] && s.status == Running
    requires Unclaimed(s.jobs, names, p.existing, p.env)
    requires forall k: nat :: OneWorker(p.env(k), p.cr)
    ensures Progressed(s, After(s, p, names, n), p, names, n)
  {
    hide Progressed, HappenAll, Handle, ActiveSet, Selected, NoRemoval, Distinct;
    if n == 0 {
      NothingYet(s, p, names);
    } else {
      PassProgress(s, p, names, n - 1);
      var t := After(s, p, names, n - 1);
      if t.status == Running {
        EventsOnlyShrink(t.jobs, p.env(n - 1), p.cr);
        HandleProgress(s, t, p, names, n - 1);
      } else {
        StoppedProgress(s, t, p, names, n - 1);
      }
    }
  }

  lemma NothingYet(s: State, p: Setting, names: seq<string>)
    requires s.created == [] && s.status == Running
    ensures Progressed(s, s, p, names, 0)
  {
    assert names[..0] == [];
  }

  lemma StoppedProgress(s: State, t: State, p: Setting, names: seq<string>, n: nat)
    requires n < |names| && t.status != Running && Progressed(s, t, p, names, n)
    ensures Progressed(s, t, p, names, n + 1)
  {
    hide Missing;
    MissingGrows(names, p.existing, n);
  }

  // A pass creates a prefix of the missing names in inventory order, never more than the cap leaves
  // room for; unless a create call failed it is all that fits, and the pass reports pending exactly
  // when missing names remain.
  lemma PassIsGreedy(jobs: Jobs, cr: string, parallelism: int, names: seq<string>, env: nat -> seq<Event>,
                     fate: nat -> Fate)
    requires Distinct(names) && Unclaimed(jobs, names, Selected(jobs, cr), env)
    requires forall i: nat :: OneWorker(env(i), cr)
    ensures var t := Pass(jobs, cr, parallelism, names, env, fate);
      var missing, room := Missing(names, Selected(jobs, cr)), Room(parallelism, ActiveCount(jobs, cr));
      && t.created <= missing && |t.created| <= room
      && (t.status != Failed ==> t.created == missing[..if |missing| < room then |missing| else room])
      && (t.status != Failed ==> (t.status == Capped <==> |missing| > room))
  {
    hide HappenAll, ActiveSet, Selected, After, Missing;
    var p := SettingFor(jobs, cr, parallelism, env, fate);
    PassProgress(Begin(jobs, cr), p, names, |names|);
    assert names[..|names|] == names;
  }

  lemma {:induction false} AcceptedNeverFails(s: State, p: Setting, names: seq<string>, n: nat)
    requires n <= |names| && s.status != Failed && forall k: nat :: p.fate(k) == Accepted
    ensures After(s, p, names, n).status != Failed
  {
    hide HappenAll;
    if n > 0 { AcceptedNeverFails(s, p, names, n - 1); }
  }

  // ----- Convergence -----

  // Every name that is taken at all is taken by a Job of this CR.
  ghost predicate OwnNames(jobs: Jobs, cr: string, names: seq<string>) {
    forall i :: 0 <= i < |names| && names[i] in jobs ==> jobs[names[i]].instance == cr
  }

  ghost predicate Calm(es: seq<Event>) {
    NoRemoval(es) && NothingTaken(es)
  }

  lemma {:induction false} CalmEvents(jobs: Jobs, es: seq<Event>, cr: string, names: seq<string>)
    requires Calm(es) && OwnNames(jobs, cr, names)
    ensures Selected(HappenAll(jobs, es), cr) == Selected(jobs, cr)
    ensures OwnNames(HappenAll(jobs, es), cr, names)
    ensures HappenAll(jobs, es).Keys == jobs.Keys
  {
    if es != [] {
      var n := |es| - 1;
      CalmEvents(jobs, es[..n], cr, names);
      assert es[n] in es;
    }
  }

  // Without deletions the Jobs of the CR after n names are those it had and those it created.
  lemma {:induction false} NothingLost(s: State, p: Setting, names: seq<string>, n: nat)
    requires n <= |names| && OwnNames(s.jobs, p.cr, names) && s.created == []
    requires forall k: nat :: Calm(p.env(k))
    ensures var t := After(s, p, names, n);
      && Selected(t.jobs, p.cr) == Selected(s.jobs, p.cr) + (set x | x in t.created)
      && OwnNames(t.jobs, p.cr, names)
  {
    if n > 0 {
      NothingLost(s, p, names, n - 1);
      var t := After(s, p, names, n - 1);
      if t.status == Running {
        CalmEvents(t.jobs, p.env(n - 1), p.cr, names);
        hide HappenAll;
        var jobs, name := HappenAll(t.jobs, p.env(n - 1)), names[n - 1];
        assert Selected(jobs[name := NewJob(p.cr)], p.cr) == Selected(jobs, p.cr) + {name};
      }
    }
  }

  lemma {:induction false} NoneMissing(names: seq<string>, existing: set<string>)
    requires forall x :: x in names ==> x in existing
    ensures Missing(names, existing) == []
  {
    if names != [] { NoneMissing(names[..|names| - 1], existing); }
  }

  // Once the first m missing names have Jobs, exactly the rest is missing.
  lemma {:induction false} MissingRest(names: seq<string>, existing: set<string>, m: nat)
    requires Distinct(names) && m <= |Missing(names, existing)|
    ensures var missing := Missing(names, existing);
      Missing(names, existing + (set x | x in missing[..m])) == missing[m..]
  {
    if names != [] {
      var n := |names| - 1;
      var rest, missing := Missing(names[..n], existing), Missing(names, existing);
      MissingFrom(names[..n], existing, names[n]);
      if m <= |rest| {
        MissingRest(names[..n], existing, m);
        assert missing[..m] == rest[..m];
      } else {
        forall x | x in names ensures x in existing + (set y | y in missing[..m]) {
          MissingFrom(names, existing, x);
        }
        assert missing[..m] == missing;
        NoneMissing(names, existing + (set y | y in missing[..m]));
      }
    }
  }

  // Also a pass that failed or hit the cap leaves the later passes exactly the rest to create.
  lemma LaterPassesCreateTheRest(jobs: Jobs, cr: string, parallelism: int, names: seq<string>, env: nat -> seq<Event>,
                                 fate: nat -> Fate)
    requires Distinct(names) && OwnNames(jobs, cr, names) && forall k: nat :: Calm(env(k))
    ensures var t := Pass(jobs, cr, parallelism, names, env, fate);
      && OwnNames(t.jobs, cr, names)
      && t.created <= Missing(names, Selected(jobs, cr))
      && Missing(names, Selected(t.jobs, cr)) == Missing(names, Selected(jobs, cr))[|t.created|..]
  {
    hide HappenAll, ActiveSet, After, Missing, Selected, OwnNames;
    forall k: nat ensures OneWorker(env(k), cr) { CalmIsOneWorker(env(k), cr); }
    NamesUnclaimed(jobs, cr, names, env);
    PassIsGreedy(jobs, cr, parallelism, names, env, fate);
    var p := SettingFor(jobs, cr, parallelism, env, fate);
    NothingLost(Begin(jobs, cr), p, names, |names|);
    var t := Pass(jobs, cr, parallelism, names, env, fate);
    MissingRest(names, Selected(jobs, cr), |t.created|);
    assert t.created == Missing(names, Selected(jobs, cr))[..|t.created|];
  }

  // What happens before a pass, during it, and to its create calls.
  datatype Round = Round(before: seq<Event>, env: nat -> seq<Event>, fate: nat -> Fate)

  function AtList(jobs: Jobs, r: Round): Jobs { HappenAll(jobs, r.before) }

  function RoundEnd(jobs: Jobs, cr: string, parallelism: int, names: seq<string>, r: Round): State {
    Pass(AtList(jobs, r), cr, parallelism, names, r.env, r.fate)
  }

  // No deletions, no errors, and, when the cap was used up, at least one active Job finished before
  // the pass.
  ghost predicate GoodRound(jobs: Jobs, cr: string, parallelism: int, r: Round) {
    && Calm(r.before) && (forall k: nat :: Calm(r.env(k)) && r.fate(k) == Accepted)
    && (ActiveCount(AtList(jobs, r), cr) < ActiveCount(jobs, cr) || ActiveCount(jobs, cr) < parallelism)
  }

  function MissingNow(jobs: Jobs, cr: string, names: seq<string>): seq<string> {
    Missing(names, Selected(jobs, cr))
  }

  // A good round creates at least one missing Job, keeps the cap, and reports pending exactly when
  // names are still missing; the next pass has only the rest to create.
  lemma RoundProgress(jobs: Jobs, cr: string, parallelism: int, names: seq<string>, r: Round)
    requires Distinct(names) && OwnNames(jobs, cr, names) && parallelism >= 1
    requires ActiveCount(jobs, cr) <= parallelism && GoodRound(jobs, cr, parallelism, r)
    ensures var t := RoundEnd(jobs, cr, parallelism, names, r);
      var missing := MissingNow(jobs, cr, names);
      && OwnNames(t.jobs, cr, names) && ActiveCount(t.jobs, cr) <= parallelism
      && t.created <= missing && (missing != [] ==> t.created != [])
      && MissingNow(t.jobs, cr, names) == missing[|t.created|..]
      && t.status != Failed
      && (t.status == Capped <==> MissingNow(t.jobs, cr, names) != [])
  {
    hide HappenAll, ActiveSet, After, Missing, Selected, OwnNames;
    var listed := AtList(jobs, r);
    CalmEvents(jobs, r.before, cr, names);
    CalmIsOneWorker(r.before, cr);
    EventsOnlyShrink(jobs, r.before, cr);
    forall k: nat ensures OneWorker(r.env(k), cr) { CalmIsOneWorker(r.env(k), cr); }
    NamesUnclaimed(listed, cr, names, r.env);
    PassIsGreedy(listed, cr, parallelism, names, r.env, r.fate);
    PassKeepsCap(listed, cr, parallelism, names, r.env, r.fate);
    var p := SettingFor(listed, cr, parallelism, r.env, r.fate);
    AcceptedNeverFails(Begin(listed, cr), p, names, |names|);
    LaterPassesCreateTheRest(listed, cr, parallelism, names, r.env, r.fate);
  }

  lemma CalmIsOneWorker(es: seq<Event>, cr: string)
    requires Calm(es)
    ensures OneWorker(es, cr)
  {
  }

  lemma NamesUnclaimed(jobs: Jobs, cr: string, names: seq<string>, env: nat -> seq<Event>)
    requires OwnNames(jobs, cr, names) && forall k: nat :: Calm(env(k))
    ensures Unclaimed(jobs, names, Selected(jobs, cr), env)
  {
  }

  // The cluster after some rounds, each pass retried over the same inventory.
  function Rounds(jobs: Jobs, cr: string, parallelism: int, names: seq<string>, rs: seq<Round>): Jobs {
    if rs == [] then jobs
    else RoundEnd(Rounds(jobs, cr, parallelism, names, rs[..|rs| - 1]), cr, parallelism, names, rs[|rs| - 1]).jobs
  }

  ghost predicate GoodRun(jobs: Jobs, cr: string, parallelism: int, names: seq<string>, rs: seq<Round>) {
    rs == [] ||
    (var n := |rs| - 1;
     && GoodRun(jobs, cr, parallelism, names, rs[..n])
     && GoodRound(Rounds(jobs, cr, parallelism, names, rs[..n]), cr, parallelism, rs[n]))
  }

  // Each retried pass leaves strictly fewer names without a Job, until none is left.
  lemma {:induction false} MissingFalls(jobs: Jobs, cr: string, parallelism: int, names: seq<string>, rs: seq<Round>)
    requires Distinct(names) && OwnNames(jobs, cr, names) && parallelism >= 1
    requires ActiveCount(jobs, cr) <= parallelism && GoodRun(jobs, cr, parallelism, names, rs)
    ensures var end := Rounds(jobs, cr, parallelism, names, rs);
      && OwnNames(end, cr, names) && ActiveCount(end, cr) <= parallelism
      && |MissingNow(end, cr, names)| <=
           if |MissingNow(jobs, cr, names)| > |rs| then |MissingNow(jobs, cr, names)| - |rs| else 0
  {
    hide OwnNames, ActiveCount, MissingNow, RoundEnd, GoodRound;
    if rs != [] {
      var n := |rs| - 1;
      MissingFalls(jobs, cr, parallelism, names, rs[..n]);
      RoundProgress(Rounds(jobs, cr, parallelism, names, rs[..n]), cr, parallelism, names, rs[n]);
    }
  }

  // As many retried passes as names are missing, and at least one, end with a Job for every name
  // and a pass that reports nothing pending.
  lemma DispatchConverges(jobs: Jobs, cr: string, parallelism: int, names: seq<string>, rs: seq<Round>)
    requires Distinct(names) && OwnNames(jobs, cr, names) && parallelism >= 1
    requires ActiveCount(jobs, cr) <= parallelism && GoodRun(jobs, cr, parallelism, names, rs)
    requires rs != [] && |rs| >= |MissingNow(jobs, cr, names)|
    ensures var n := |rs| - 1;
      RoundEnd(Rounds(jobs, cr, parallelism, names, rs[..n]), cr, parallelism, names, rs[n]).status == Running
    ensures forall x :: x in names ==> x in Selected(Rounds(jobs, cr, parallelism, names, rs), cr)
  {
    hide OwnNames, ActiveCount, RoundEnd, GoodRound, Missing, Selected;
    var n := |rs| - 1;
    MissingFalls(jobs, cr, parallelism, names, rs);
    MissingFalls(jobs, cr, parallelism, names, rs[..n]);
    RoundProgress(Rounds(jobs, cr, parallelism, names, rs[..n]), cr, parallelism, names, rs[n]);
    var end := Rounds(jobs, cr, parallelism, names, rs);
    forall x | x in names ensures x in Selected(end, cr) { MissingFrom(names, Selected(end, cr), x); }
  }

  // ----- dispatchJobs -----

  class Cluster {
    var jobs: Jobs

    constructor (jobs: Jobs)
      ensures this.jobs == jobs
    {
      this.jobs := jobs;
    }

    // What others do to the namespace between two calls of the operator.
    method Elsewhere(es: seq<Event>)
      modifies this
      ensures jobs == HappenAll(old(jobs), es)
    {
      jobs := HappenAll(jobs, es);
    }

    // A create call.
    method Create(name: string, job: Job, fate: Fate) returns (ok: bool, taken: bool)
      modifies this
      ensures jobs == if fate != Rejected && name !in old(jobs) then old(jobs)[name := job] else old(jobs)
      ensures ok == (fate == Accepted && name !in old(jobs))
      ensures taken == (fate == Accepted && name in old(jobs))
    {
      if fate != Rejected && name !in jobs {
        jobs := jobs[name := job];
        return fate == Accepted, false;
      }
      return false, fate == Accepted;
    }
  }

  // dispatchJobs. env(k) happens before the k-th repository is handled, fate(k) is the outcome of
  // its create call (of setting the owner reference, too: both end the pass with an error before
  // anything applied).
  method DispatchJobs(cluster: Cluster, cr: string, parallelism: int, repos: seq<string>, jobName: string -> string,
                      listFails: bool, env: nat -> seq<Event>, fate: nat -> Fate) returns (pending: bool, failed: bool)
    modifies cluster
    ensures listFails ==> cluster.jobs == old(cluster.jobs) && failed && !pending
    ensures !listFails ==>
      var names := seq(|repos|, i requires 0 <= i < |repos| => jobName(repos[i]));
      var t := Pass(old(cluster.jobs), cr, parallelism, names, env, fate);
      cluster.jobs == t.jobs && pending == (t.status == Capped) && failed == (t.status == Failed)
  {
    if listFails {
      return false, true;
    }
    ghost var start := cluster.jobs;
    ghost var names := seq(|repos|, i requires 0 <= i < |repos| => jobName(repos[i]));
    var existing, active := Census(cluster.jobs, cr);
    var p := Setting(cr, parallelism, existing, env, fate);
    assert p == SettingFor(start, cr, parallelism, env, fate);
    for k := 0 to |repos|
      invariant existing == p.existing
      invariant After(Begin(start, cr), p, names, k).status == Running
      invariant cluster.jobs == After(Begin(start, cr), p, names, k).jobs
      invariant active == After(Begin(start, cr), p, names, k).active
    {
      AfterNext(Begin(start, cr), p, names, k);
      ghost var t := After(Begin(start, cr), p, names, k);
      hide Handle, HappenAll, Selected, Begin;
      var status;
      active, status := DispatchOne(cluster, jobName(repos[k]), active, existing, parallelism, t, p, k);
      if status != Running {
        StoppedAt(Begin(start, cr), p, names, k + 1);
        return status == Capped, status == Failed;
      }
    }
    return false, false;
  }

  // One round of the second loop.
  method DispatchOne(cluster: Cluster, name: string, active: int, existing: set<string>, parallelism: int,
                     ghost t: State, p: Setting, k: nat) returns (active': int, status: Status)
    requires t.status == Running && t.jobs == cluster.jobs && t.active == active
    requires existing == p.existing && parallelism == p.parallelism
    modifies cluster
    ensures var u := Handle(t, p, name, k);
      cluster.jobs == u.jobs && status == u.status && (status != Failed ==> active' == u.active)
  {
    hide HappenAll;
    cluster.Elsewhere(p.env(k));
    if name in existing {
      return active, Running;
    }
    if active >= parallelism {
      return active, Capped;
    }
    var ok, taken := cluster.Create(name, NewJob(p.cr), p.fate(k));
    if taken {
      return active, Running;
    }
    if !ok {
      return active, Failed;
    }
    return active + 1, Running;
  }

  lemma AfterNext(s: State, p: Setting, names: seq<string>, k: nat)
    requires k < |names| && After(s, p, names, k).status == Running
    ensures After(s, p, names, k + 1) == Handle(After(s, p, names, k), p, names[k], k)
  {
  }

  // A pass that has returned stays returned.
  lemma {:induction false} StoppedFor(s: State, p: Setting, names: seq<string>, k: nat, n: nat)
    requires k <= n <= |names| && After(s, p, names, k).status != Running
    ensures After(s, p, names, n) == After(s, p, names, k)
  {
    hide Handle;
    if n > k { StoppedFor(s, p, names, k, n - 1); }
  }

  lemma StoppedAt(s: State, p: Setting, names: seq<string>, k: nat)
    requires k <= |names| && After(s, p, names, k).status != Running
    ensures After(s, p, names, |names|) == After(s, p, names, k)
  {
    StoppedFor(s, p, names, k, |names|);
  }

  // The first loop: the names in use and the number of active Jobs, in whatever order they are listed.
  method Census(jobs: Jobs, cr: string) returns (existing: set<string>, active: int)
    ensures existing == Selected(jobs, cr) && active == ActiveCount(jobs, cr)
  {
    var items := Listing(Selected(jobs, cr));
    existing, active := {}, 0;
    for i := 0 to |items|
      invariant existing == (set n | n in items[..i])
      invariant active == CountActive(jobs, items[..i])
    {
      hide Selected, Distinct;
      assert items[..i + 1] == items[..i] + [items[i]] && items[..i + 1][..i] == items[..i];
      existing := existing + {items[i]};
      if items[i] in jobs && jobs[items[i]].Active() {
        active := active + 1;
      }
    }
    assert items[..|items|] == items;
    CountActiveIs(jobs, items);
    CensusIsComplete(jobs, cr, items);
    hide CountActive, ActiveAmong, ActiveSet;
  }

  lemma CensusIsComplete(jobs: Jobs, cr: string, items: seq<string>)
    requires forall n :: n in items <==> n in Selected(jobs, cr)
    ensures (set n | n in items) == Selected(jobs, cr) && ActiveAmong(jobs, items) == ActiveSet(jobs, cr)
  {
  }

  method Listing(names: set<string>) returns (items: seq<string>)
    ensures Distinct(items) && forall n :: n in items <==> n in names
  {
    items := [];
    var todo := names;
    while todo != {}
      invariant todo <= names && Distinct(items)
      invariant forall n :: n in items <==> n in names && n !in todo
    {
      var n :| n in todo;
      items, todo := items + [n], todo - {n};
    }
  }

  function CountActive(jobs: Jobs, items: seq<string>): nat {
    if items == [] then 0
    else
      var n := |items| - 1;
      CountActive(jobs, items[..n]) + if items[n] in jobs && jobs[items[n]].Active() then 1 else 0
  }

  ghost function ActiveAmong(jobs: Jobs, items: seq<string>): set<string> {
    set n | n in items && n in jobs && jobs[n].Active()
  }

  lemma ActiveOneMore(jobs: Jobs, items: seq<string>, x: string)
    requires x !in items
    ensures |ActiveAmong(jobs, items + [x])|
         == |ActiveAmong(jobs, items)| + if x in jobs && jobs[x].Active() then 1 else 0
  {
    var before, after := ActiveAmong(jobs, items), ActiveAmong(jobs, items + [x]);
    if x in jobs && jobs[x].Active() {
      assert after == before + {x};
    } else {
      assert after == before;
    }
  }

  lemma {:induction false} CountActiveIs(jobs: Jobs, items: seq<string>)
    requires Distinct(items)
    ensures CountActive(jobs, items) == |ActiveAmong(jobs, items)|
  {
    if items == [] {
      assert ActiveAmong(jobs, items) == {};
    } else {
      var k := |items| - 1;
      CountActiveIs(jobs, items[..k]);
      assert items == items[..k] + [items[k]];
      ActiveOneMore(jobs, items[..k], items[k]);
      hide ActiveAmong;
    }
  }
}
