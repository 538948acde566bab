// The temporal argument about the collectors' window filter and the TTL of the dedup set: an id whose
// set has expired can no longer be collected. It holds for some timings only; the exact condition is
// proved. Module CollectionJobs shows that collection Jobs run like this.
module ExactlyOnce {
  import opened GoStrings
  import opened Histogram
  import opened Scope
  import opened Valkey
  import opened Protocol
  import opened Provider

  // lo, hi: the resolution windows in use, each the filter of a collection and the TTL of its records;
  // they differ when the window is edited. delta: a record is applied at most this long after its
  // collection computed the start of the window. lag: a finding is recorded no sooner than this after
  // it was resolved. All in nanoseconds.
  datatype Timing = Timing(lo: int, hi: int, delta: int, lag: int)
  {
    predicate Valid() { 0 < lo <= hi && delta >= 0 }

    // The shortest window with which a finding old enough can still pass the filter.
    function Shortest(): int { if lo < lag - delta then lag - delta else lo }

    // Its whole seconds, which is all that EXPIRE gets.
    function Kept(): int
      requires Valid()
    {
      Shortest() / SECOND * SECOND
    }
  }

  // A run whose records all come out of collections: the k-th step's collection computed its window
  // at time collected(k), and each id of a scope was resolved at one fixed time.
  ghost predicate WellTimed(now: int, es: seq<Step>, resolved: (string, string) -> int, collected: nat -> int,
                            p: Timing)
  {
    forall k: nat :: k < |es| && es[k].Applied() ==>
      OnTime(Run(Start(now), es[..k]).now, es[k].call, resolved, collected(k), p)
  }

  ghost predicate OnTime(at: int, c: Call, resolved: (string, string) -> int, collected: int, p: Timing) {
    && p.lo <= c.window <= p.hi
    && collected <= at <= collected + p.delta
    && InWindow(resolved(c.scope, c.id), collected - c.window)
    && at >= resolved(c.scope, c.id) + p.lag
  }

  ghost predicate NeverCountsTwice(p: Timing) {
    forall now, es, resolved, collected ::
      WellTimed(now, es, resolved, collected, p) ==> NoDoubleCount(Log(Start(now), es))
  }

  // Either the kept TTL covers the longest window plus the delay, less the lag; or nothing is ever
  // recorded.
  predicate Safe(p: Timing)
    requires p.Valid()
  {
    || (p.Kept() > 0 && p.hi + p.delta <= p.lag + p.Kept())
    || p.hi + p.delta < p.lag
  }

  // Every counted finding is remembered at least until lag + TTL after it was resolved.
  ghost predicate Guarded(db: Db, log: seq<Call>, resolved: (string, string) -> int, p: Timing)
    requires p.Valid()
  {
    && NoDoubleCount(log)
    && (forall c :: c in log ==>
          db.now >= resolved(c.scope, c.id) + p.lag && Guards(db, c, resolved(c.scope, c.id) + p.lag + p.Kept()))
  }

  ghost predicate Guards(db: Db, c: Call, until: int) {
    db.now <= until ==>
      c.id in Counted(db, c.scope) && Deadline(db, c.scope).Some? && Deadline(db, c.scope).value >= until
  }

  // A record on time asks for at least the kept TTL, and comes no later than the longest window allows.
  lemma OnTimeBounds(at: int, c: Call, resolved: (string, string) -> int, collected: int, p: Timing)
    requires p.Valid() && OnTime(at, c, resolved, collected, p)
    ensures c.window >= p.Shortest() && c.Ttl() * SECOND >= p.Kept()
    ensures at <= resolved(c.scope, c.id) + p.hi + p.delta
  {
    WholeSeconds(p.Shortest(), c.window);
  }

  lemma WholeSeconds(a: int, b: int)
    requires a <= b
    ensures a / SECOND * SECOND <= b / SECOND * SECOND
  {
  }

  // A record on time keeps the guard of every finding of its scope, and a counted one gets its own.
  lemma GuardsAfter(db: Db, c: Call, resolved: (string, string) -> int, collected: int, p: Timing, d: Call)
    requires p.Valid() && Safe(p) && WellTyped(db) && OnTime(db.now, c, resolved, collected, p)
    requires db.now >= resolved(d.scope, d.id) + p.lag
    requires d == c || Guards(db, d, resolved(d.scope, d.id) + p.lag + p.Kept())
    ensures Guards(Record(db, c).0, d, resolved(d.scope, d.id) + p.lag + p.Kept())
    ensures Record(db, c).0.now == db.now
  {
    OnTimeBounds(db.now, c, resolved, collected, p);
    hide Record, WellTyped, Deadline, Observe, Counted;
    RecordEffect(db, c);
  }

  // A finding that is still remembered is not counted again; one that is forgotten is too old to come.
  lemma NotAgain(db: Db, c: Call, resolved: (string, string) -> int, collected: int, p: Timing)
    requires p.Valid() && Safe(p) && WellTyped(db) && OnTime(db.now, c, resolved, collected, p)
    requires Guards(db, c, resolved(c.scope, c.id) + p.lag + p.Kept())
    ensures !Record(db, c).1
  {
    OnTimeBounds(db.now, c, resolved, collected, p);
    hide Record, WellTyped, Deadline, Observe, Counted;
    RecordEffect(db, c);
  }

  lemma GuardedStep(db: Db, log: seq<Call>, c: Call, resolved: (string, string) -> int, collected: int, p: Timing)
    requires p.Valid() && Safe(p) && WellTyped(db)
    requires Guarded(db, log, resolved, p) && OnTime(db.now, c, resolved, collected, p)
    ensures var (db', counted) := Record(db, c);
      Guarded(db', if counted then log + [c] else log, resolved, p)
  {
    hide Record, WellTyped, Safe;
    GuardsAfter(db, c, resolved, collected, p, c);
    forall d | d in log
      ensures Guards(Record(db, c).0, d, resolved(d.scope, d.id) + p.lag + p.Kept())
      ensures Record(db, c).1 ==> d.scope != c.scope || d.id != c.id
    {
      GuardsAfter(db, c, resolved, collected, p, d);
      if d.scope == c.scope && d.id == c.id {
        assert Guards(db, c, resolved(c.scope, c.id) + p.lag + p.Kept());
        NotAgain(db, c, resolved, collected, p);
      }
    }
    hide Guards, OnTime;
  }

  lemma GuardedTick(db: Db, log: seq<Call>, elapsed: nat, resolved: (string, string) -> int, p: Timing)
    requires p.Valid() && WellTyped(db) && Guarded(db, log, resolved, p)
    ensures Guarded(Next(db, Tick(elapsed)), log, resolved, p)
  {
    forall c | c in log
      ensures Guards(Next(db, Tick(elapsed)), c, resolved(c.scope, c.id) + p.lag + p.Kept())
    {
      assert Guards(db, c, resolved(c.scope, c.id) + p.lag + p.Kept());
    }
  }

  lemma {:induction false} RunIsGuarded(now: int, es: seq<Step>, resolved: (string, string) -> int,
                                        collected: nat -> int, p: Timing)
    requires p.Valid() && Safe(p) && WellTimed(now, es, resolved, collected, p)
    ensures Guarded(Run(Start(now), es), Log(Start(now), es), resolved, p)
  {
    hide Record, Guarded, OnTime, Safe;
    var start := Start(now);
    StartIsClean(now);
    if es == [] {
      StartIsGuarded(now, resolved, p);
    } else {
      var n := |es| - 1;
      var db, log := Run(start, es[..n]), Log(start, es[..n]);
      forall k: nat | k < n ensures es[..n][..k] == es[..k] {}
      RunIsGuarded(now, es[..n], resolved, collected, p);
      RunWellTyped(start, es[..n]);
      assert log + [] == log;
      if es[n].Applied() {
        GuardedStep(db, log, es[n].call, resolved, collected(n), p);
      } else if es[n].Tick? {
        GuardedTick(db, log, es[n].elapsed, resolved, p);
      }
    }
  }

  lemma StartIsGuarded(now: int, resolved: (string, string) -> int, p: Timing)
    requires p.Valid()
    ensures Guarded(Start(now), [], resolved, p)
  {
  }

  // ----- The converse -----

  // One finding created a second before time 0 and resolved at time 0. It is recorded as early as the
  // lag allows, out of a collection with the shortest window, and collected once more, with the longest
  // window, at the last moment at which it still passes the filter.

  const WITNESS := Labels("gitlab", "team/app", "static_analysis", "fixed", "")
  const WITNESS_ID := "gid://gitlab/Vulnerability/1"

  function Again(window: int): Call { Call(RemediationScope(WITNESS), WITNESS_ID, SECOND, window) }

  function Twice(p: Timing): seq<Step>
    requires p.lag <= p.hi + p.delta
  {
    [Attempt(Again(p.Shortest()), Delivered), Tick(p.hi + p.delta - p.lag), Attempt(Again(p.hi), Delivered)]
  }

  function CollectedAt(p: Timing): nat -> int {
    k => if k == 0 then (if p.Shortest() < p.lag then p.Shortest() else p.lag) else p.hi
  }

  // What the server goes through in that run.
  lemma TwiceStates(p: Timing)
    requires p.Valid() && p.lag <= p.hi + p.delta
    ensures var start, es := Start(p.lag), Twice(p);
      && Run(start, es[..0]) == start
      && Run(start, es[..1]) == Record(start, Again(p.Shortest())).0
      && Run(start, es[..2]) == Next(Record(start, Again(p.Shortest())).0, es[1])
      && Run(start, es[..2]).now == p.hi + p.delta
      && |Log(start, es[..2])| == 1 && Log(start, es[..2])[0] == Again(p.Shortest())
  {
    hide Record, RemediationScope;
    var start, es, c := Start(p.lag), Twice(p), Again(p.Shortest());
    StartIsClean(p.lag);
    RecordEffect(start, c);
    assert es[..1][..0] == es[..0] == [] && es[..2][..1] == es[..1] && es[..1] == [es[0]];
    assert Log(start, es[..1]) == [c];
  }

  lemma TwiceIsWellTimed(p: Timing)
    requires p.Valid() && p.lag <= p.hi + p.delta
    ensures WellTimed(p.lag, Twice(p), (s, i) => 0, CollectedAt(p), p)
  {
    hide Record, Run, Log, RemediationScope;
    TwiceStates(p);
  }

  // The dedup set is gone by the time of the second record.
  lemma ForgottenBy(p: Timing)
    requires p.Valid() && !Safe(p)
    ensures WITNESS_ID !in Counted(Run(Start(p.lag), Twice(p)[..2]), RemediationScope(WITNESS))
  {
    hide Record, WellTyped, RemediationScope;
    var start, es, c := Start(p.lag), Twice(p), Again(p.Shortest());
    TwiceStates(p);
    StartIsClean(p.lag);
    RecordEffect(start, c);
    var db := Record(start, c).0;
    NextWellTyped(db, es[1]);
    if c.Ttl() > 0 {
      assert Deadline(db, c.scope) == Some(p.lag + p.Kept());
      assert Next(db, es[1]).now > p.lag + p.Kept();
    }
  }

  lemma TwiceCountsTwice(p: Timing)
    requires p.Valid() && !Safe(p)
    ensures !NoDoubleCount(Log(Start(p.lag), Twice(p)))
  {
    hide Record, WellTyped, RemediationScope, Counted, Run;
    var start, es, c := Start(p.lag), Twice(p), Again(p.hi);
    TwiceStates(p);
    ForgottenBy(p);
    StartIsClean(p.lag);
    RunWellTyped(start, es[..2]);
    RecordEffect(Run(start, es[..2]), c);
    assert es[..3] == es && es[..3][..2] == es[..2];
    var log := Log(start, es);
    assert log == Log(start, es[..2]) + [c];
    assert log[0].scope == log[1].scope && log[0].id == log[1].id;
  }

  // No run ever counts a finding twice exactly when the timing is safe.
  lemma NeverCountsTwiceIffSafe(p: Timing)
    requires p.Valid()
    ensures NeverCountsTwice(p) <==> Safe(p)
  {
    hide Log, NoDoubleCount, Run;
    if Safe(p) {
      forall now, es, resolved, collected | WellTimed(now, es, resolved, collected, p)
        ensures NoDoubleCount(Log(Start(now), es))
      {
        RunIsGuarded(now, es, resolved, collected, p);
      }
    } else {
      TwiceIsWellTimed(p);
      TwiceCountsTwice(p);
    }
  }

  // For windows of whole seconds the condition is that findings are first recorded no sooner after
  // their resolution than the windows differ by, plus what a record can trail its own collection.
  lemma WholeSecondWindows(p: Timing)
    requires p.Valid() && p.lo % SECOND == 0 && p.lag <= p.lo + p.delta
    ensures NeverCountsTwice(p) <==> p.hi - p.lo + p.delta <= p.lag
  {
    NeverCountsTwiceIffSafe(p);
  }

  // A window below one second is never safe, however prompt the records are.
  lemma SubSecondWindowForgets(p: Timing)
    requires p.Valid() && p.Shortest() < SECOND && p.lag <= p.hi + p.delta
    ensures !NeverCountsTwice(p)
  {
    NeverCountsTwiceIffSafe(p);
  }

  // In a safe timing the stored histograms are those of the first applied durations, although dedup
  // sets do expire during the run.
  lemma ExpiryIsHarmless(now: int, es: seq<Step>, resolved: (string, string) -> int, collected: nat -> int, p: Timing,
                         scope: string)
    requires p.Valid() && Safe(p) && WellTimed(now, es, resolved, collected, p)
    ensures NoDoubleCount(Log(Start(now), es))
    ensures IsHistogramOf(Hist(Run(Start(now), es), scope), FirstDurations(es, scope))
  {
    RunIsGuarded(now, es, resolved, collected, p);
    StoredIsFirstApplied(now, es, scope);
  }

  // ----- Per scope, not per id -----

  // The counts are per scope: an id recorded under two scopes, as after a change of its severity or
  // resolution label, is counted in each of them, in every timing.
  lemma TwoScopesCountTwice(db: Db, a: Call, b: Call)
    requires WellTyped(db) && a.id == b.id && a.scope != b.scope
    requires a.id !in Counted(db, a.scope) && a.id !in Counted(db, b.scope)
    ensures Log(db, [Attempt(a, Delivered), Attempt(b, Delivered)]) == [a, b]
  {
    hide Record, WellTyped;
    var es := [Attempt(a, Delivered), Attempt(b, Delivered)];
    RecordEffect(db, a);
    NextWellTyped(db, es[0]);
    RecordEffect(Record(db, a).0, b);
    assert es[..1][..0] == [] && es[..2] == es && es[..1] == [es[0]] && es[..2][..1] == es[..1];
    assert Log(db, es[..1]) == [a];
  }

  // In a safe timing each id is counted exactly once in every scope under which it was recorded.
  lemma OncePerScope(now: int, es: seq<Step>, resolved: (string, string) -> int, collected: nat -> int, p: Timing,
                     scope: string, id: string) returns (i: nat)
    requires p.Valid() && Safe(p) && WellTimed(now, es, resolved, collected, p)
    requires id in AppliedIds(es, scope)
    ensures var log := Log(Start(now), es);
      && i < |log| && log[i].scope == scope && log[i].id == id
      && forall j :: 0 <= j < |log| && log[j].scope == scope && log[j].id == id ==> j == i
  {
    hide Safe, WellTimed;
    RunIsGuarded(now, es, resolved, collected, p);
    EveryIdCounted(now, es, scope);
    var log := Log(Start(now), es);
    assert id in Ids(log, scope);
    i :| 0 <= i < |log| && log[i].scope == scope && log[i].id == id;
  }
}
