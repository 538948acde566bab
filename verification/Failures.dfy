// When a pass fails at a create call, and what it had created by then.
module Failures {
  import opened Dispatch

  // The k-th repository has no Job, there is room for it after the missing ones before it, and its create
  // call returns an error, applied or not.
  ghost predicate FailsAt(names: seq<string>, existing: set<string>, room: nat, fate: nat -> Fate, k: nat) {
    && k < |names| && names[k] !in existing && |Missing(names[..k], existing)| < room
    && fate(k) != Accepted
  }

  ghost predicate FailsBefore(names: seq<string>, existing: set<string>, room: nat, fate: nat -> Fate, n: nat) {
    exists k: nat :: k < n && FailsAt(names, existing, room, fate, k)
  }

  lemma OneMore(names: seq<string>, existing: set<string>, room: nat, fate: nat -> Fate, n: nat)
    ensures FailsBefore(names, existing, room, fate, n + 1) <==>
            FailsBefore(names, existing, room, fate, n) || FailsAt(names, existing, room, fate, n)
  {
    hide FailsAt;
  }

  // A pass that is still running when it reaches a name, and one more name.
  lemma HandleFails(s: State, t: State, p: Setting, names: seq<string>, n: nat)
    requires n < |names| && Distinct(names) && t.status == Running && Progressed(s, t, p, names, n)
    requires HappenAll(t.jobs, p.env(n)).Keys <= t.jobs.Keys
    requires names[n] in s.jobs ==> names[n] in p.existing
    ensures var u, missing := Handle(t, p, names[n], n), Missing(names[..n], p.existing);
      && (u.status == Failed <==> FailsAt(names, p.existing, Room(p.parallelism, s.active), p.fate, n))
      && (u.status == Failed ==> u.created == missing + if p.fate(n) == ReplyLost then [names[n]] else [])
  {
    hide HappenAll, Missing;
    MissingFrom(names[..n], p.existing, names[n]);
  }

  // Over any number of names: what the status is, and what a failed pass had created.
  lemma {:induction false} FailsIff(s: State, p: Setting, names: seq<string>, n: nat)
    requires n <= |names| && Distinct(names) && s.created == [] && s.status == Running
    requires Unclaimed(s.jobs, names, p.existing, p.env) && forall k: nat :: OneWorker(p.env(k), p.cr)
    ensures After(s, p, names, n).status == Failed <==>
            FailsBefore(names, p.existing, Room(p.parallelism, s.active), p.fate, n)
  {
    hide Progressed, HappenAll, Handle, OneWorker, NothingTaken, Distinct, FailsAt, Missing;
    var room := Room(p.parallelism, s.active);
    if n > 0 {
      FailsIff(s, p, names, n - 1);
      OneMore(names, p.existing, room, p.fate, n - 1);
      hide FailsBefore;
      PassProgress(s, p, names, n - 1);
      var t := After(s, p, names, n - 1);
      match t.status {
        case Running =>
          EventsOnlyShrink(t.jobs, p.env(n - 1), p.cr);
          HandleFails(s, t, p, names, n - 1);
        case Capped => CappedNeverFails(s, t, p, names, n - 1);
        case Failed =>
      }
    }
  }

  // Once the room is used up no create call is made any more.
  lemma CappedNeverFails(s: State, t: State, p: Setting, names: seq<string>, n: nat)
    requires n < |names| && t.status == Capped && Progressed(s, t, p, names, n)
    ensures !FailsAt(names, p.existing, Room(p.parallelism, s.active), p.fate, n)
  {
    hide Missing;
  }

  // The status of a pass, on what it is given. Over a distinct inventory that nobody else claims, it fails
  // if and only if one of the names it would create, missing and within the room, meets an error of its
  // create call; otherwise it is pending if and only if more names are missing than there is room for.
  lemma StatusOfPass(jobs: Jobs, cr: string, parallelism: int, names: seq<string>, env: nat -> seq<Event>,
                     fate: nat -> Fate)
    requires Distinct(names) && Unclaimed(jobs, names, Selected(jobs, cr), env)
    requires forall i: nat :: OneWorker(env(i), cr)
    ensures var status := Pass(jobs, cr, parallelism, names, env, fate).status;
      var existing, room := Selected(jobs, cr), Room(parallelism, ActiveCount(jobs, cr));
      && (status == Failed <==> exists k: nat :: FailsAt(names, existing, room, fate, k))
      && (status != Failed ==> (status == Capped <==> |Missing(names, existing)| > room))
  {
    hide After, ActiveCount, Selected, Missing, Unclaimed, Distinct;
    var p := SettingFor(jobs, cr, parallelism, env, fate);
    FailsIff(Begin(jobs, cr), p, names, |names|);
    PassIsGreedy(jobs, cr, parallelism, names, env, fate);
  }

  // What a pass that fails at the k-th repository has created: the missing names before it, and that one
  // as well if only the reply was lost.
  lemma CreatedWhenFailed(jobs: Jobs, cr: string, parallelism: int, names: seq<string>, env: nat -> seq<Event>,
                          fate: nat -> Fate, k: nat)
    requires Distinct(names) && Unclaimed(jobs, names, Selected(jobs, cr), env)
    requires forall i: nat :: OneWorker(env(i), cr)
    requires var existing, room := Selected(jobs, cr), Room(parallelism, ActiveCount(jobs, cr));
      && FailsAt(names, existing, room, fate, k)
      && forall j: nat :: j < k ==> !FailsAt(names, existing, room, fate, j)
    ensures var t := Pass(jobs, cr, parallelism, names, env, fate);
      && t.status == Failed
      && t.created == Missing(names[..k], Selected(jobs, cr)) + if fate(k) == ReplyLost then [names[k]] else []
  {
    hide HappenAll, ActiveCount, Selected, Missing, Unclaimed, Distinct, Handle, Progressed;
    var s, p := Begin(jobs, cr), SettingFor(jobs, cr, parallelism, env, fate);
    FailsIff(s, p, names, k);
    PassProgress(s, p, names, k);
    var t := After(s, p, names, k);
    if t.status == Capped {
      CappedNeverFails(s, t, p, names, k);
    } else {
      EventsOnlyShrink(t.jobs, p.env(k), cr);
      NotClaimed(jobs, names, Selected(jobs, cr), env, k);
      HandleFails(s, t, p, names, k);
      AfterNext(s, p, names, k);
      StoppedAt(s, p, names, k + 1);
    }
  }

  lemma NotClaimed(jobs: Jobs, names: seq<string>, existing: set<string>, env: nat -> seq<Event>, k: nat)
    requires k < |names| && Unclaimed(jobs, names, existing, env)
    ensures (names[k] in jobs ==> names[k] in existing) && NothingTaken(env(k))
  {
  }
}
