// When a name that has a Job gets another one: exactly when its Job was deleted meanwhile.
module Recreation {
  import opened Dispatch

  // ----- What happened -----

  // The events during the first n rounds of a pass; a pass that has returned sees no more.
  function PassHistory(s: State, p: Setting, names: seq<string>, n: nat): seq<Event>
    requires n <= |names|
  {
    if n == 0 then []
    else PassHistory(s, p, names, n - 1) + if After(s, p, names, n - 1).status == Running then p.env(n - 1) else []
  }

  // The events before and during a pass.
  function RoundHistory(jobs: Jobs, cr: string, parallelism: int, names: seq<string>, r: Round): seq<Event> {
    var listed := AtList(jobs, r);
    r.before + PassHistory(Begin(listed, cr), SettingFor(listed, cr, parallelism, r.env, r.fate), names, |names|)
  }

  // The events of a whole run of passes over one inventory.
  function RunHistory(jobs: Jobs, cr: string, parallelism: int, names: seq<string>, rs: seq<Round>): seq<Event> {
    if rs == [] then []
    else
      var n := |rs| - 1;
      RunHistory(jobs, cr, parallelism, names, rs[..n]) +
      RoundHistory(Rounds(jobs, cr, parallelism, names, rs[..n]), cr, parallelism, names, rs[n])
  }

  // Nobody else creates a Job of this name.
  ghost predicate NotTaken(name: string, es: seq<Event>) {
    forall e :: e in es && e.Taken? ==> e.name != name
  }

  // ----- Events -----

  lemma {:induction false} EventsKeep(jobs: Jobs, es: seq<Event>, cr: string, name: string)
    requires name in Selected(jobs, cr) && Removed(name) !in es
    ensures name in Selected(HappenAll(jobs, es), cr)
  {
    if es != [] {
      var n := |es| - 1;
      assert es[n] in es;
      EventsKeep(jobs, es[..n], cr, name);
    }
  }

  lemma {:induction false} EventsLose(jobs: Jobs, es: seq<Event>, name: string)
    requires NotTaken(name, es) && (name !in jobs || Removed(name) in es)
    ensures name !in HappenAll(jobs, es)
  {
    if es != [] {
      var n := |es| - 1;
      assert es[n] in es && es == es[..n] + [es[n]];
      if es[n] != Removed(name) { EventsLose(jobs, es[..n], name); }
    }
  }

  // ----- One pass -----

  // Only handled names without a Job at the list are created, each at its own turn.
  lemma {:induction false} CreatedAmong(s: State, p: Setting, names: seq<string>, n: nat, name: string)
    requires n <= |names| && name !in s.created
    ensures name in After(s, p, names, n).created ==> name in names[..n] && name !in p.existing
  {
    hide HappenAll;
    if n > 0 {
      CreatedAmong(s, p, names, n - 1, name);
      assert names[..n] == names[..n - 1] + [names[n - 1]];
    }
  }

  lemma {:induction false} CreatedStays(s: State, p: Setting, names: seq<string>, k: nat, n: nat)
    requires k <= n <= |names|
    ensures forall x :: x in After(s, p, names, k).created ==> x in After(s, p, names, n).created
  {
    hide HappenAll;
    if k < n { CreatedStays(s, p, names, k, n - 1); }
  }

  lemma {:induction false} PassKeeps(s: State, p: Setting, names: seq<string>, n: nat, name: string)
    requires n <= |names| && name in Selected(s.jobs, p.cr) && Removed(name) !in PassHistory(s, p, names, n)
    ensures name in Selected(After(s, p, names, n).jobs, p.cr)
  {
    if n > 0 {
      PassKeeps(s, p, names, n - 1, name);
      var t := After(s, p, names, n - 1);
      if t.status == Running {
        EventsKeep(t.jobs, p.env(n - 1), p.cr, name);
        hide HappenAll;
      }
    }
  }

  lemma {:induction false} PassLoses(s: State, p: Setting, names: seq<string>, n: nat, name: string)
    requires n <= |names| && name !in After(s, p, names, n).created
    requires NotTaken(name, PassHistory(s, p, names, n))
    requires name !in s.jobs || Removed(name) in PassHistory(s, p, names, n)
    ensures name !in After(s, p, names, n).jobs
  {
    if n > 0 {
      var t := After(s, p, names, n - 1);
      CreatedStays(s, p, names, n - 1, n);
      if t.status == Running {
        var es := p.env(n - 1);
        assert NotTaken(name, es) && NotTaken(name, PassHistory(s, p, names, n - 1));
        if Removed(name) !in es { PassLoses(s, p, names, n - 1, name); }
        EventsLose(t.jobs, es, name);
        hide HappenAll, PassHistory;
      } else {
        PassLoses(s, p, names, n - 1, name);
      }
    }
  }

  // The pass reaches the k-th name, has room for it, and its create call is not refused.
  predicate HasRoomAt(t: State, p: Setting, k: nat) {
    t.status == Running && t.active < p.parallelism && p.fate(k) != Rejected
  }

  // The k-th name of a distinct inventory is created by a pass if and only if it had no Job at the list,
  // the pass has room when it reaches it, and no Job of that name is in the way at that moment.
  lemma CreatedIff(s: State, p: Setting, names: seq<string>, k: nat)
    requires k < |names| && Distinct(names) && s.created == []
    ensures names[k] in After(s, p, names, |names|).created <==>
            && names[k] !in p.existing
            && HasRoomAt(After(s, p, names, k), p, k)
            && names[k] !in HappenAll(After(s, p, names, k).jobs, p.env(k))
  {
    hide HappenAll;
    CreatedAmong(s, p, names, k, names[k]);
    assert names[k] !in names[..k];
    CreatedStays(s, p, names, k + 1, |names|);
    CreatedLater(s, p, names, k, |names|);
  }

  lemma {:induction false} CreatedLater(s: State, p: Setting, names: seq<string>, k: nat, n: nat)
    requires k < n <= |names| && Distinct(names)
    ensures names[k] in After(s, p, names, n).created ==> names[k] in After(s, p, names, k + 1).created
  {
    hide HappenAll;
    if k + 1 < n { CreatedLater(s, p, names, k, n - 1); }
  }

  // ----- Runs of passes over one inventory -----

  lemma {:induction false} RunKeeps(jobs: Jobs, cr: string, parallelism: int, names: seq<string>, rs: seq<Round>,
                                    name: string)
    requires name in Selected(jobs, cr) && Removed(name) !in RunHistory(jobs, cr, parallelism, names, rs)
    ensures name in Selected(Rounds(jobs, cr, parallelism, names, rs), cr)
  {
    if rs != [] {
      hide Selected, HappenAll, After, PassHistory;
      var n := |rs| - 1;
      RunKeeps(jobs, cr, parallelism, names, rs[..n], name);
      var start, r := Rounds(jobs, cr, parallelism, names, rs[..n]), rs[n];
      EventsKeep(start, r.before, cr, name);
      var listed := AtList(start, r);
      PassKeeps(Begin(listed, cr), SettingFor(listed, cr, parallelism, r.env, r.fate), names, |names|, name);
    }
  }

  // Whatever happens before and during any number of passes, whatever becomes of their create calls, and
  // whatever the inventory is: a name that has a Job of the resource is created again by a later pass only
  // after its Job was deleted.
  lemma NotRecreatedUnlessRemoved(jobs: Jobs, cr: string, parallelism: int, names: seq<string>, rs: seq<Round>,
                                  r: Round, name: string)
    requires name in Selected(jobs, cr)
    requires name in RoundEnd(Rounds(jobs, cr, parallelism, names, rs), cr, parallelism, names, r).created
    ensures Removed(name) in RunHistory(jobs, cr, parallelism, names, rs) + r.before
  {
    hide Selected, HappenAll, After, RunHistory, Rounds;
    var start := Rounds(jobs, cr, parallelism, names, rs);
    var listed := AtList(start, r);
    CreatedAmong(Begin(listed, cr), SettingFor(listed, cr, parallelism, r.env, r.fate), names, |names|, name);
    if Removed(name) !in RunHistory(jobs, cr, parallelism, names, rs) {
      RunKeeps(jobs, cr, parallelism, names, rs, name);
      if Removed(name) !in r.before { EventsKeep(start, r.before, cr, name); }
    }
  }

  // No pass of the run created the name.
  ghost predicate NeverCreated(jobs: Jobs, cr: string, parallelism: int, names: seq<string>, rs: seq<Round>,
                               name: string)
  {
    rs == [] ||
    (var n := |rs| - 1;
     && NeverCreated(jobs, cr, parallelism, names, rs[..n], name)
     && name !in RoundEnd(Rounds(jobs, cr, parallelism, names, rs[..n]), cr, parallelism, names, rs[n]).created)
  }

  lemma {:induction false} RunLoses(jobs: Jobs, cr: string, parallelism: int, names: seq<string>, rs: seq<Round>,
                                    name: string)
    requires NeverCreated(jobs, cr, parallelism, names, rs, name)
    requires NotTaken(name, RunHistory(jobs, cr, parallelism, names, rs))
    requires name !in jobs || Removed(name) in RunHistory(jobs, cr, parallelism, names, rs)
    ensures name !in Rounds(jobs, cr, parallelism, names, rs)
  {
    if rs != [] {
      hide HappenAll, After, PassHistory;
      var n := |rs| - 1;
      var start, r := Rounds(jobs, cr, parallelism, names, rs[..n]), rs[n];
      var past, now := RunHistory(jobs, cr, parallelism, names, rs[..n]),
                       RoundHistory(start, cr, parallelism, names, r);
      assert NotTaken(name, past) && NotTaken(name, now);
      if name !in jobs || Removed(name) in past { RunLoses(jobs, cr, parallelism, names, rs[..n], name); }
      RoundLoses(start, cr, parallelism, names, r, name);
    }
  }

  lemma RoundLoses(jobs: Jobs, cr: string, parallelism: int, names: seq<string>, r: Round, name: string)
    requires NotTaken(name, RoundHistory(jobs, cr, parallelism, names, r))
    requires name !in jobs || Removed(name) in RoundHistory(jobs, cr, parallelism, names, r)
    requires name !in RoundEnd(jobs, cr, parallelism, names, r).created
    ensures name !in RoundEnd(jobs, cr, parallelism, names, r).jobs
  {
    hide HappenAll, After, PassHistory;
    var listed := AtList(jobs, r);
    var s, p := Begin(listed, cr), SettingFor(listed, cr, parallelism, r.env, r.fate);
    assert NotTaken(name, r.before) && NotTaken(name, PassHistory(s, p, names, |names|));
    if name !in jobs || Removed(name) in r.before { EventsLose(jobs, r.before, name); }
    PassLoses(s, p, names, |names|, name);
  }

  lemma {:induction false} HistoryGrows(s: State, p: Setting, names: seq<string>, k: nat, n: nat, name: string)
    requires k <= n <= |names| && NotTaken(name, PassHistory(s, p, names, n))
    ensures NotTaken(name, PassHistory(s, p, names, k))
    ensures k < n && After(s, p, names, k).status == Running ==> NotTaken(name, p.env(k))
    decreases n - k
  {
    if k < n {
      hide After;
      if k + 1 < n { HistoryGrows(s, p, names, k + 1, n, name); }
      assert NotTaken(name, PassHistory(s, p, names, k + 1));
    }
  }

  // The exact condition. A name of a distinct inventory has a Job of the resource; nobody else creates a
  // Job of that name, and no pass of the run so far created it. Then the next pass that has room when it
  // reaches the name creates it again if and only if its Job was deleted before that pass listed the Jobs.
  lemma RecreatedIffRemoved(jobs: Jobs, cr: string, parallelism: int, names: seq<string>, rs: seq<Round>, r: Round,
                            k: nat)
    requires k < |names| && Distinct(names) && names[k] in Selected(jobs, cr)
    requires var start := Rounds(jobs, cr, parallelism, names, rs);
      && NotTaken(names[k], RunHistory(jobs, cr, parallelism, names, rs))
      && NotTaken(names[k], RoundHistory(start, cr, parallelism, names, r))
      && NeverCreated(jobs, cr, parallelism, names, rs, names[k])
    requires var listed := AtList(Rounds(jobs, cr, parallelism, names, rs), r);
      var p := SettingFor(listed, cr, parallelism, r.env, r.fate);
      HasRoomAt(After(Begin(listed, cr), p, names, k), p, k)
    ensures names[k] in RoundEnd(Rounds(jobs, cr, parallelism, names, rs), cr, parallelism, names, r).created <==>
            Removed(names[k]) in RunHistory(jobs, cr, parallelism, names, rs) + r.before
  {
    hide After, RunHistory, Rounds, NeverCreated, HappenAll, PassHistory;
    var name, start := names[k], Rounds(jobs, cr, parallelism, names, rs);
    var past := RunHistory(jobs, cr, parallelism, names, rs);
    var listed := AtList(start, r);
    var s, p := Begin(listed, cr), SettingFor(listed, cr, parallelism, r.env, r.fate);
    if Removed(name) in past + r.before {
      if Removed(name) in past { RunLoses(jobs, cr, parallelism, names, rs, name); }
      assert NotTaken(name, r.before) && NotTaken(name, PassHistory(s, p, names, |names|));
      EventsLose(start, r.before, name);
      HistoryGrows(s, p, names, k, |names|, name);
      CreatedAmong(s, p, names, k, name);
      PassLoses(s, p, names, k, name);
      EventsLose(After(s, p, names, k).jobs, p.env(k), name);
      CreatedIff(s, p, names, k);
    } else if name in RoundEnd(start, cr, parallelism, names, r).created {
      NotRecreatedUnlessRemoved(jobs, cr, parallelism, names, rs, r, name);
    }
  }

  // For instance: with room for one more Job, a single deleted name is created again.
  lemma RemovedJobIsCreatedAgain(jobs: Jobs, cr: string, parallelism: int, name: string)
    requires ActiveCount(jobs, cr) < parallelism
    ensures Pass(Happen(jobs, Removed(name)), cr, parallelism, [name],
                 (k: nat) => [], (k: nat) => Accepted).created == [name]
  {
    var left := Happen(jobs, Removed(name));
    SubsetCount(ActiveSet(left, cr), ActiveSet(jobs, cr));
    var p := SettingFor(left, cr, parallelism, (k: nat) => [], (k: nat) => Accepted);
    assert After(Begin(left, cr), p, [name], 0) == Begin(left, cr);
    assert HappenAll(left, []) == left;
    assert After(Begin(left, cr), p, [name], 1) == Handle(Begin(left, cr), p, name, 0);
  }
}
