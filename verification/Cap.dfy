// How far the cap reaches: Jobs that are running or pending but not counted, and Jobs of another
// resource with the same selector label.
module Cap {
  import opened Dispatch

  // ----- Unfinished Jobs -----

  function RetryingSet(jobs: Jobs, cr: string): set<string> {
    set n | n in jobs && jobs[n].instance == cr && jobs[n].Retrying()
  }

  function UnfinishedSet(jobs: Jobs, cr: string): set<string> {
    set n | n in jobs && jobs[n].instance == cr && jobs[n].Unfinished()
  }

  function RetryingCount(jobs: Jobs, cr: string): nat { |RetryingSet(jobs, cr)| }

  function UnfinishedCount(jobs: Jobs, cr: string): nat { |UnfinishedSet(jobs, cr)| }

  // What is running or pending is what the code counts and what is being retried.
  lemma UnfinishedSplits(jobs: Jobs, cr: string)
    ensures UnfinishedCount(jobs, cr) == ActiveCount(jobs, cr) + RetryingCount(jobs, cr)
  {
    assert UnfinishedSet(jobs, cr) == ActiveSet(jobs, cr) + RetryingSet(jobs, cr);
    assert ActiveSet(jobs, cr) !! RetryingSet(jobs, cr);
  }

  // A Job that is being retried after a failed pod leaves room for another one: with a cap of one, two
  // Jobs are unfinished.
  lemma RetryingJobIsNotCounted(cr: string, a: string, b: string)
    requires a != b
    ensures var jobs := map[a := Job(cr, 0, 1)];
      var t := Pass(jobs, cr, 1, [a, b], (k: nat) => [], (k: nat) => Accepted);
      && jobs[a].Unfinished() && UnfinishedCount(jobs, cr) == 1
      && t.created == [b] && t.status == Running && UnfinishedCount(t.jobs, cr) == 2
  {
    var jobs := map[a := Job(cr, 0, 1)];
    var p := SettingFor(jobs, cr, 1, (k: nat) => [], (k: nat) => Accepted);
    var s := Begin(jobs, cr);
    assert ActiveSet(jobs, cr) == {} && Selected(jobs, cr) == {a};
    var one, two := After(s, p, [a, b], 1), After(s, p, [a, b], 2);
    assert After(s, p, [a, b], 0) == s && HappenAll(jobs, []) == jobs;
    assert one == Handle(s, p, a, 0) == s;
    assert two == Handle(one, p, b, 1);
    assert UnfinishedSet(jobs, cr) == {a} && UnfinishedSet(two.jobs, cr) == {a, b};
  }

  // A pass during which nothing else happens.
  ghost predicate Quiet(env: nat -> seq<Event>) {
    forall k: nat :: env(k) == []
  }

  lemma CreateKeepsRetrying(jobs: Jobs, cr: string, name: string)
    requires name !in jobs
    ensures RetryingSet(jobs[name := NewJob(cr)], cr) == RetryingSet(jobs, cr)
  {
  }

  // In such a pass the counter is exact, and what is being retried stays so.
  lemma {:induction false} QuietPass(s: State, p: Setting, names: seq<string>, n: nat)
    requires n <= |names| && Quiet(p.env) && s.active == ActiveCount(s.jobs, p.cr)
    ensures var t := After(s, p, names, n);
      t.active == ActiveCount(t.jobs, p.cr) && RetryingSet(t.jobs, p.cr) == RetryingSet(s.jobs, p.cr)
  {
    hide ActiveCount, RetryingSet;
    if n > 0 {
      QuietPass(s, p, names, n - 1);
      var t := After(s, p, names, n - 1);
      assert HappenAll(t.jobs, p.env(n - 1)) == t.jobs;
      if names[n - 1] !in t.jobs {
        CreateAddsOne(t.jobs, p.cr, names[n - 1]);
        CreateKeepsRetrying(t.jobs, p.cr, names[n - 1]);
      }
    }
  }

  lemma {:induction false} CappedIsFull(s: State, p: Setting, names: seq<string>, n: nat)
    requires n <= |names| && s.status == Running && After(s, p, names, n).status == Capped
    ensures After(s, p, names, n).active >= p.parallelism
  {
    hide HappenAll;
    if n > 0 && After(s, p, names, n - 1).status != Running { CappedIsFull(s, p, names, n - 1); }
  }

  lemma {:induction false} CounterCountsCreated(s: State, p: Setting, names: seq<string>, n: nat)
    requires n <= |names|
    ensures var t := After(s, p, names, n);
      t.active - |t.created| == s.active - |s.created|
  {
    hide HappenAll;
    if n > 0 { CounterCountsCreated(s, p, names, n - 1); }
  }

  // A quiet pass adds to the unfinished Jobs exactly those it creates, whatever becomes of its calls.
  lemma QuietPassAddsCreated(jobs: Jobs, cr: string, parallelism: int, names: seq<string>, env: nat -> seq<Event>,
                             fate: nat -> Fate)
    requires Quiet(env)
    ensures var t := Pass(jobs, cr, parallelism, names, env, fate);
      UnfinishedCount(t.jobs, cr) == UnfinishedCount(jobs, cr) + |t.created|
  {
    hide After, ActiveCount, UnfinishedCount, RetryingSet;
    var p := SettingFor(jobs, cr, parallelism, env, fate);
    QuietPass(Begin(jobs, cr), p, names, |names|);
    CounterCountsCreated(Begin(jobs, cr), p, names, |names|);
    UnfinishedSplits(jobs, cr);
    UnfinishedSplits(Pass(jobs, cr, parallelism, names, env, fate).jobs, cr);
  }

  function Min(a: nat, b: nat): nat { if a < b then a else b }

  // What a quiet pass without errors will create: the missing names, as far as there is room.
  function ToCreate(jobs: Jobs, cr: string, parallelism: int, names: seq<string>): nat {
    Min(|Missing(names, Selected(jobs, cr))|, Room(parallelism, ActiveCount(jobs, cr)))
  }

  // The exact condition for the cap on unfinished Jobs, on the state before the pass: over a distinct
  // inventory whose names no other owner holds, a quiet pass without errors ends with those that were
  // unfinished and those it creates; so the cap holds at its end if and only if that sum is within it.
  lemma CapOnUnfinishedIff(jobs: Jobs, cr: string, parallelism: int, names: seq<string>, env: nat -> seq<Event>,
                           fate: nat -> Fate)
    requires Quiet(env) && Distinct(names) && OwnNames(jobs, cr, names) && forall k: nat :: fate(k) == Accepted
    ensures var end := Pass(jobs, cr, parallelism, names, env, fate).jobs;
      && UnfinishedCount(end, cr) == UnfinishedCount(jobs, cr) + ToCreate(jobs, cr, parallelism, names)
      && (UnfinishedCount(end, cr) <= parallelism <==>
            UnfinishedCount(jobs, cr) + ToCreate(jobs, cr, parallelism, names) <= parallelism)
  {
    hide After, ActiveCount, UnfinishedCount, Selected, Missing, Distinct;
    var p := SettingFor(jobs, cr, parallelism, env, fate);
    QuietPassAddsCreated(jobs, cr, parallelism, names, env, fate);
    NamesUnclaimed(jobs, cr, names, env);
    PassIsGreedy(jobs, cr, parallelism, names, env, fate);
    AcceptedNeverFails(Begin(jobs, cr), p, names, |names|);
  }

  // In particular a quiet pass that starts within the cap and ends at it leaves as many unfinished Jobs as
  // the cap and the retried Jobs together: there the cap holds if and only if no listed Job is being retried.
  lemma CappedPassKeepsCapIff(jobs: Jobs, cr: string, parallelism: int, names: seq<string>, env: nat -> seq<Event>,
                           fate: nat -> Fate)
    requires Quiet(env) && ActiveCount(jobs, cr) <= parallelism
    requires Pass(jobs, cr, parallelism, names, env, fate).status == Capped
    ensures var t := Pass(jobs, cr, parallelism, names, env, fate);
      && UnfinishedCount(t.jobs, cr) == parallelism + RetryingCount(jobs, cr)
      && (UnfinishedCount(t.jobs, cr) <= parallelism <==> RetryingSet(jobs, cr) == {})
  {
    hide After, ActiveCount, UnfinishedCount, RetryingSet;
    var p := SettingFor(jobs, cr, parallelism, env, fate);
    var s, t := Begin(jobs, cr), Pass(jobs, cr, parallelism, names, env, fate);
    QuietPass(s, p, names, |names|);
    CappedIsFull(s, p, names, |names|);
    CounterBounded(s, p, names, |names|);
    UnfinishedSplits(t.jobs, cr);
  }

  // A cap that was lowered below what is active is exceeded without any retried Job.
  lemma LoweredCapIsExceeded(cr: string, a: string, b: string, c: string)
    requires a != b && a != c && b != c
    ensures var jobs := map[a := NewJob(cr), b := NewJob(cr)];
      var t := Pass(jobs, cr, 1, [c], (k: nat) => [], (k: nat) => Accepted);
      t.status == Capped && RetryingSet(jobs, cr) == {} && UnfinishedCount(t.jobs, cr) == 2
  {
    var jobs := map[a := NewJob(cr), b := NewJob(cr)];
    var p := SettingFor(jobs, cr, 1, (k: nat) => [], (k: nat) => Accepted);
    var s := Begin(jobs, cr);
    assert ActiveSet(jobs, cr) == {a, b} && UnfinishedSet(jobs, cr) == {a, b};
    assert After(s, p, [c], 0) == s && HappenAll(jobs, []) == jobs;
    assert After(s, p, [c], 1) == Handle(s, p, c, 0);
  }

  // At every moment of every pass: what is unfinished beyond the cap is being retried. j events have
  // happened since the k-th repository was handled.
  lemma UnfinishedWithinCap(jobs: Jobs, cr: string, parallelism: int, names: seq<string>, env: nat -> seq<Event>,
                            fate: nat -> Fate, k: nat, j: nat)
    requires k <= |names| && j <= |env(k)| && forall i: nat :: OneWorker(env(i), cr)
    ensures var p := SettingFor(jobs, cr, parallelism, env, fate);
      var now := HappenAll(After(Begin(jobs, cr), p, names, k).jobs, env(k)[..j]);
      var cap := if ActiveCount(jobs, cr) < parallelism then parallelism else ActiveCount(jobs, cr);
      && ActiveCount(now, cr) <= cap
      && UnfinishedCount(now, cr) <= cap + RetryingCount(now, cr)
  {
    hide ActiveCount, UnfinishedCount, HappenAll, After;
    var p := SettingFor(jobs, cr, parallelism, env, fate);
    var t := After(Begin(jobs, cr), p, names, k);
    assert OneWorker(env(k)[..j], cr) by { assert OneWorker(env(k), cr); }
    CounterCovers(Begin(jobs, cr), p, names, k);
    CounterBounded(Begin(jobs, cr), p, names, k);
    EventsOnlyShrink(t.jobs, env(k)[..j], cr);
    UnfinishedSplits(HappenAll(t.jobs, env(k)[..j]), cr);
  }

  // ----- A shared selector label -----

  // Jobs that somebody else creates under the label.
  function Foreign(es: seq<Event>, cr: string): nat {
    if es == [] then 0
    else
      var e := es[|es| - 1];
      Foreign(es[..|es| - 1], cr) + if e.Taken? && e.instance == cr then 1 else 0
  }

  function ForeignUpto(env: nat -> seq<Event>, cr: string, n: nat): nat {
    if n == 0 then 0 else ForeignUpto(env, cr, n - 1) + Foreign(env(n - 1), cr)
  }

  lemma HappenActive(jobs: Jobs, e: Event, cr: string)
    ensures ActiveCount(Happen(jobs, e), cr) <= ActiveCount(jobs, cr) + if e.Taken? && e.instance == cr then 1 else 0
  {
    if e.Taken? && e.instance == cr && e.name !in jobs {
      CreateAddsOne(jobs, cr, e.name);
    } else {
      SubsetCount(ActiveSet(Happen(jobs, e), cr), ActiveSet(jobs, cr));
    }
  }

  lemma {:induction false} EventsAddForeign(jobs: Jobs, es: seq<Event>, cr: string)
    ensures ActiveCount(HappenAll(jobs, es), cr) <= ActiveCount(jobs, cr) + Foreign(es, cr)
  {
    hide ActiveCount, Happen;
    if es != [] {
      EventsAddForeign(jobs, es[..|es| - 1], cr);
      HappenActive(HappenAll(jobs, es[..|es| - 1]), es[|es| - 1], cr);
    }
  }

  lemma {:induction false} CounterCoversBut(s: State, p: Setting, names: seq<string>, n: nat)
    requires n <= |names| && ActiveCount(s.jobs, p.cr) <= s.active
    ensures ActiveCount(After(s, p, names, n).jobs, p.cr)
         <= After(s, p, names, n).active + ForeignUpto(p.env, p.cr, n)
  {
    hide ActiveCount, HappenAll, Foreign;
    if n > 0 {
      CounterCoversBut(s, p, names, n - 1);
      var t := After(s, p, names, n - 1);
      EventsAddForeign(t.jobs, p.env(n - 1), p.cr);
      CreateAddsOne(HappenAll(t.jobs, p.env(n - 1)), p.cr, names[n - 1]);
    }
  }

  // Whoever else uses the label: a pass leaves more active Jobs than the cap and what it found by no
  // more than others created under the label during the pass. Without such Jobs the cap holds.
  lemma ExcessIsForeign(jobs: Jobs, cr: string, parallelism: int, names: seq<string>, env: nat -> seq<Event>,
                        fate: nat -> Fate)
    ensures ActiveCount(Pass(jobs, cr, parallelism, names, env, fate).jobs, cr)
         <= (if ActiveCount(jobs, cr) < parallelism then parallelism else ActiveCount(jobs, cr))
            + ForeignUpto(env, cr, |names|)
  {
    hide ActiveCount, After;
    var p := SettingFor(jobs, cr, parallelism, env, fate);
    CounterCoversBut(Begin(jobs, cr), p, names, |names|);
    CounterBounded(Begin(jobs, cr), p, names, |names|);
  }

  // A list of creations by somebody else.
  function Creations(names: seq<string>, cr: string): seq<Event> {
    seq(|names|, i requires 0 <= i < |names| => Taken(names[i], cr))
  }

  lemma {:induction false} CreationsAdd(jobs: Jobs, others: seq<string>, cr: string)
    requires Distinct(others) && forall x :: x in others ==> x !in jobs
    ensures var now := HappenAll(jobs, Creations(others, cr));
      && ActiveCount(now, cr) == ActiveCount(jobs, cr) + |others|
      && Foreign(Creations(others, cr), cr) == |others|
      && now.Keys == jobs.Keys + set x | x in others
  {
    if others == [] {
      assert Creations(others, cr) == [];
    } else {
      var n := |others| - 1;
      var front := others[..n];
      assert others == front + [others[n]] && Creations(others, cr)[..n] == Creations(front, cr);
      CreationsAdd(jobs, front, cr);
      var now := HappenAll(jobs, Creations(front, cr));
      CreateAddsOne(now, cr, others[n]);
      hide ActiveCount, Creations;
    }
  }

  // And it can be that many more, for every number of foreign Jobs and every cap: a pass finds one Job less
  // than the cap, and others create Jobs under the label after the list and before the pass creates its own.
  lemma SharedLabelBreaksTheCap(jobs: Jobs, cr: string, parallelism: int, name: string, others: seq<string>)
    requires ActiveCount(jobs, cr) == parallelism - 1 && name !in jobs
    requires Distinct(others) && name !in others && forall x :: x in others ==> x !in jobs
    ensures var env := (k: nat) => if k == 0 then Creations(others, cr) else [];
      && ForeignUpto(env, cr, 1) == |others|
      && ActiveCount(Pass(jobs, cr, parallelism, [name], env, (k: nat) => Accepted).jobs, cr)
         == parallelism + |others|
  {
    hide ActiveCount, Creations, Foreign, HappenAll;
    var env := (k: nat) => if k == 0 then Creations(others, cr) else [];
    var p := SettingFor(jobs, cr, parallelism, env, (k: nat) => Accepted);
    var s := Begin(jobs, cr);
    CreationsAdd(jobs, others, cr);
    var now := HappenAll(jobs, Creations(others, cr));
    CreateAddsOne(now, cr, name);
    assert ForeignUpto(env, cr, 0) == 0 && env(0) == Creations(others, cr);
    assert After(s, p, [name], 0) == s;
    assert After(s, p, [name], 1) == Handle(s, p, name, 0);
  }
}
