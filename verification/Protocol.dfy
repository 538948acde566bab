// Runs of the store: record calls from any number of Jobs in any interleaving, each of them
// delivered, delivered with its reply lost, or never applied, and time passing in between.
module Protocol {
  import opened Histogram
  import opened Scope
  import opened Valkey

  datatype Delivery = Delivered | ReplyLost | NotApplied

  datatype Step = Attempt(call: Call, delivery: Delivery) | Tick(elapsed: nat)
  {
    // The script ran on the server, whatever the caller got to know of it.
    predicate Applied() { Attempt? && delivery != NotApplied }
  }

  function Next(db: Db, e: Step): Db {
    match e
    case Tick(elapsed) => db.(now := db.now + elapsed)
    case Attempt(call, delivery) => if delivery == NotApplied then db else Record(db, call).0
  }

  function Run(db: Db, es: seq<Step>): Db {
    if es == [] then db else Next(Run(db, es[..|es| - 1]), es[|es| - 1])
  }

  // An empty server.
  function Start(now: int): Db { Db(map[], now) }

  // The calls that the server counted, in order.
  function Log(db: Db, es: seq<Step>): seq<Call> {
    if es == [] then []
    else
      var n := |es| - 1;
      var e := es[n];
      Log(db, es[..n]) + if e.Applied() && Record(Run(db, es[..n]), e.call).1 then [e.call] else []
  }

  // Durations of one scope, in order.
  function Durations(log: seq<Call>, scope: string): seq<int> {
    if log == [] then []
    else
      var n := |log| - 1;
      Durations(log[..n], scope) + if log[n].scope == scope then [log[n].duration] else []
  }

  function Ids(log: seq<Call>, scope: string): set<string> {
    set c | c in log && c.scope == scope :: c.id
  }

  // No finding was counted twice.
  ghost predicate NoDoubleCount(log: seq<Call>) {
    forall i, j :: 0 <= i < j < |log| ==> log[i].scope != log[j].scope || log[i].id != log[j].id
  }

  // ----- Every run -----

  lemma StartIsClean(now: int)
    ensures WellTyped(Start(now)) && Index(Start(now)) == {}
    ensures forall s :: Hist(Start(now), s) == map[] && Counted(Start(now), s) == {}
  {
  }

  lemma NextWellTyped(db: Db, e: Step)
    requires WellTyped(db)
    ensures WellTyped(Next(db, e))
    ensures Next(db, e).now >= db.now
    ensures e.Tick? ==> forall s :: Hist(Next(db, e), s) == Hist(db, s) && Counted(Next(db, e), s) <= Counted(db, s)
    ensures e.Tick? ==> Index(Next(db, e)) == Index(db)
  {
    if e.Applied() { RecordEffect(db, e.call); }
  }

  lemma {:induction false} RunWellTyped(db: Db, es: seq<Step>)
    requires WellTyped(db)
    ensures WellTyped(Run(db, es))
    ensures Run(db, es).now >= db.now
  {
    if es != [] {
      RunWellTyped(db, es[..|es| - 1]);
      NextWellTyped(Run(db, es[..|es| - 1]), es[|es| - 1]);
    }
  }

  lemma {:induction false} RunConcat(db: Db, a: seq<Step>, b: seq<Step>)
    ensures Run(db, a + b) == Run(Run(db, a), b)
  {
    if b == [] {
      assert a + b == a;
    } else {
      var n := |b| - 1;
      RunConcat(db, a, b[..n]);
      assert (a + b)[..|a + b| - 1] == a + b[..n];
    }
  }

  // One step against the log: the histograms stay the ones computed from scratch.
  ghost predicate Faithful(db: Db, log: seq<Call>) {
    && (forall s :: IsHistogramOf(Hist(db, s), Durations(log, s)))
    && Index(db) == (set c | c in log :: HistKey(c.scope))
  }

  lemma FaithfulStep(db: Db, log: seq<Call>, c: Call)
    requires WellTyped(db) && Faithful(db, log)
    ensures var (db', counted) := Record(db, c);
      Faithful(db', if counted then log + [c] else log)
  {
    hide IsHistogramOf, Record, Observe;
    RecordEffect(db, c);
    var (db', counted) := Record(db, c);
    if counted {
      var log' := log + [c];
      assert log'[..|log|] == log;
      ObserveExtends(Hist(db, c.scope), Durations(log, c.scope), c.duration);
      forall s ensures IsHistogramOf(Hist(db', s), Durations(log', s)) {
        assert Durations(log', s) == Durations(log, s) + if s == c.scope then [c.duration] else [];
        assert s != c.scope ==> Durations(log', s) == Durations(log, s);
      }
    }
  }

  // In every reachable state the stored hash of each scope is the histogram, computed from
  // scratch, of the calls that were counted there; the index lists exactly the scopes of those
  // calls.
  lemma {:induction false} StoredIsFromScratch(now: int, es: seq<Step>)
    ensures Faithful(Run(Start(now), es), Log(Start(now), es))
  {
    hide IsHistogramOf, Record;
    var start := Start(now);
    StartIsClean(now);
    if es == [] {
      EmptyHistogram();
    } else {
      var n := |es| - 1;
      StoredIsFromScratch(now, es[..n]);
      RunWellTyped(start, es[..n]);
      var log := Log(start, es[..n]);
      assert log + [] == log;
      if es[n].Applied() {
        FaithfulStep(Run(start, es[..n]), log, es[n].call);
      } else {
        NextWellTyped(Run(start, es[..n]), es[n]);
      }
    }
  }

  // ----- What never shrinks -----

  ghost predicate Positive(es: seq<Step>) {
    forall e :: e in es && e.Attempt? ==> e.call.duration > 0
  }

  // Without data loss no field of any histogram ever falls or disappears, and the index only grows.
  ghost predicate Grown(db: Db, db': Db, monotone: bool) {
    && Index(db) <= Index(db')
    && (forall s, f :: f in Hist(db, s) ==> f in Hist(db', s))
    && (monotone ==> forall s, f :: Get(Hist(db, s), f) <= Get(Hist(db', s), f))
  }

  lemma NextGrows(db: Db, e: Step)
    requires WellTyped(db)
    ensures Grown(db, Next(db, e), e.Attempt? ==> e.call.duration > 0)
  {
    NextWellTyped(db, e);
    if e.Applied() {
      hide Record, Observe, WellTyped;
      var c := e.call;
      RecordEffect(db, c);
      forall s, f ensures f in Hist(db, s) ==> f in Hist(Next(db, e), s) {
        ObserveGrows(Hist(db, s), c.duration, f);
      }
      if c.duration > 0 {
        forall s, f ensures Get(Hist(db, s), f) <= Get(Hist(Next(db, e), s), f) {
          ObserveGrows(Hist(db, s), c.duration, f);
        }
      }
    }
  }

  lemma {:induction false} RunGrows(db: Db, es: seq<Step>)
    requires WellTyped(db)
    ensures Grown(db, Run(db, es), Positive(es))
  {
    if es != [] {
      hide Record, WellTyped, Get, Hist, Index;
      var n := |es| - 1;
      RunGrows(db, es[..n]);
      RunWellTyped(db, es[..n]);
      NextGrows(Run(db, es[..n]), es[n]);
      assert Positive(es) ==> Positive(es[..n]);
    }
  }

  lemma NextKeepsIndex(db: Db, e: Step)
    requires WellTyped(db) && IndexListsHists(db)
    ensures IndexListsHists(Next(db, e))
  {
    NextWellTyped(db, e);
    if e.Applied() {
      RecordEffect(db, e.call);
      KeysNeverCollide(e.call.scope, e.call.scope);
    }
  }

  lemma {:induction false} RunKeepsIndex(db: Db, es: seq<Step>)
    requires WellTyped(db) && IndexListsHists(db)
    ensures IndexListsHists(Run(db, es))
  {
    if es != [] {
      var n := |es| - 1;
      RunKeepsIndex(db, es[..n]);
      RunWellTyped(db, es[..n]);
      NextKeepsIndex(Run(db, es[..n]), es[n]);
    }
  }

  // ----- The reference: the first applied call of each id -----

  function AppliedIds(es: seq<Step>, scope: string): set<string> {
    set e | e in es && e.Applied() && e.call.scope == scope :: e.call.id
  }

  // The durations of one scope, each id's first applied call only. This looks at the calls alone,
  // not at the server.
  function FirstDurations(es: seq<Step>, scope: string): seq<int> {
    if es == [] then []
    else
      var n := |es| - 1;
      var e := es[n];
      FirstDurations(es[..n], scope) +
      if e.Applied() && e.call.scope == scope && e.call.id !in AppliedIds(es[..n], scope)
      then [e.call.duration] else []
  }

  lemma AppliedIdsStep(es: seq<Step>, scope: string)
    requires es != []
    ensures var n := |es| - 1;
      AppliedIds(es, scope) == AppliedIds(es[..n], scope) +
        if es[n].Applied() && es[n].call.scope == scope then {es[n].call.id} else {}
  {
    assert es == es[..|es| - 1] + [es[|es| - 1]];
  }

  lemma IdsStep(log: seq<Call>, c: Call, scope: string)
    ensures Ids(log + [c], scope) == Ids(log, scope) + if c.scope == scope then {c.id} else {}
  {
  }

  // A dedup set never holds an id that was not recorded, and every recorded id was counted at
  // least once: a first call is never missed, whatever expired in between.
  lemma {:induction false} EveryIdCounted(now: int, es: seq<Step>, scope: string)
    ensures Counted(Run(Start(now), es), scope) <= AppliedIds(es, scope)
    ensures Ids(Log(Start(now), es), scope) == AppliedIds(es, scope)
  {
    hide Record;
    var start := Start(now);
    StartIsClean(now);
    if es != [] {
      var n := |es| - 1;
      var db, log := Run(start, es[..n]), Log(start, es[..n]);
      EveryIdCounted(now, es[..n], scope);
      AppliedIdsStep(es, scope);
      RunWellTyped(start, es[..n]);
      assert log + [] == log;
      if es[n].Applied() {
        RecordEffect(db, es[n].call);
        IdsStep(log, es[n].call, scope);
      } else {
        NextWellTyped(db, es[n]);
      }
    }
  }

  // When nothing was counted twice, the log of each scope is the first applied call of each id.
  lemma {:induction false} LogIsFirstApplied(now: int, es: seq<Step>, scope: string)
    requires NoDoubleCount(Log(Start(now), es))
    ensures Durations(Log(Start(now), es), scope) == FirstDurations(es, scope)
  {
    hide Record;
    var start := Start(now);
    if es != [] {
      var n := |es| - 1;
      var db, log := Run(start, es[..n]), Log(start, es[..n]);
      assert log <= Log(start, es);
      LogIsFirstApplied(now, es[..n], scope);
      EveryIdCounted(now, es[..n], scope);
      StartIsClean(now);
      RunWellTyped(start, es[..n]);
      assert log + [] == log;
      if es[n].Applied() {
        var c := es[n].call;
        RecordEffect(db, c);
        if c.scope == scope && Record(db, c).1 {
          LastIsNew(log, c);
          assert (log + [c])[..|log|] == log;
        }
      }
    }
  }

  lemma LastIsNew(log: seq<Call>, c: Call)
    requires NoDoubleCount(log + [c])
    ensures c.id !in Ids(log, c.scope)
  {
    forall i | 0 <= i < |log| && log[i].scope == c.scope ensures log[i].id != c.id {
      assert (log + [c])[i] == log[i] && (log + [c])[|log|] == c;
    }
  }

  // Over every interleaving of record calls, with calls failing before or after they applied and
  // being retried: as long as nothing was counted twice, the stored hash of each scope is the
  // from-scratch histogram of the first applied duration of each id.
  lemma StoredIsFirstApplied(now: int, es: seq<Step>, scope: string)
    requires NoDoubleCount(Log(Start(now), es))
    ensures IsHistogramOf(Hist(Run(Start(now), es), scope), FirstDurations(es, scope))
  {
    hide IsHistogramOf;
    StoredIsFromScratch(now, es);
    LogIsFirstApplied(now, es, scope);
  }

  // ----- Runs without expiry -----

  // Time that passes during a run.
  function Elapsed(es: seq<Step>): nat {
    if es == [] then 0
    else Elapsed(es[..|es| - 1]) + match es[|es| - 1] case Tick(elapsed) => elapsed case Attempt(_, _) => 0
  }

  // Every call asks for a dedup window that outlasts the run.
  ghost predicate WindowsOutlast(es: seq<Step>, elapsed: nat) {
    forall e :: e in es && e.Applied() ==> e.call.Ttl() > 0 && e.call.Ttl() * SECOND >= elapsed
  }

  // No dedup set is lost, and none is due before the run ends.
  ghost predicate Remembers(db: Db, log: seq<Call>, end: int) {
    && (forall s :: Ids(log, s) <= Counted(db, s))
    && (forall s :: Deadline(db, s).Some? ==> Deadline(db, s).value >= end)
    && NoDoubleCount(log)
  }

  lemma RemembersStep(db: Db, log: seq<Call>, c: Call, end: int)
    requires WellTyped(db) && Remembers(db, log, end)
    requires c.Ttl() > 0 && db.now + c.Ttl() * SECOND >= end
    ensures var (db', counted) := Record(db, c);
      Remembers(db', if counted then log + [c] else log, end)
  {
    hide Record, WellTyped, Deadline, Observe;
    RecordEffect(db, c);
    if Record(db, c).1 {
      forall s ensures Ids(log + [c], s) <= Counted(Record(db, c).0, s) { IdsStep(log, c, s); }
      forall i | 0 <= i < |log| && log[i].scope == c.scope ensures log[i].id != c.id {
        assert log[i].id in Ids(log, c.scope);
      }
    }
  }

  lemma {:induction false} RunTime(db: Db, es: seq<Step>)
    ensures Run(db, es).now == db.now + Elapsed(es)
  {
    hide RecordScript;
    if es != [] {
      var n := |es| - 1;
      RunTime(db, es[..n]);
      if es[n].Applied() { RecordKeepsTime(Run(db, es[..n]), es[n].call); }
    }
  }

  lemma RecordKeepsTime(db: Db, c: Call)
    ensures Record(db, c).0.now == db.now
  {
    ScriptKeepsTime(db, CountedKey(c.scope), HistKey(c.scope), HIST_INDEX_KEY,
                    c.id, c.Ttl(), c.duration, ObservationFields(c.duration, BOUNDS));
  }

  lemma {:induction false} ElapsedGrows(es: seq<Step>, k: nat)
    requires k <= |es|
    ensures Elapsed(es[..k]) <= Elapsed(es)
  {
    if k == |es| {
      assert es[..k] == es;
    } else {
      ElapsedGrows(es[..|es| - 1], k);
      assert es[..|es| - 1][..k] == es[..k];
    }
  }

  lemma {:induction false} NothingForgotten(now: int, es: seq<Step>, elapsed: nat)
    requires Elapsed(es) <= elapsed && WindowsOutlast(es, elapsed)
    ensures Remembers(Run(Start(now), es), Log(Start(now), es), now + elapsed)
  {
    hide Record;
    var start := Start(now);
    StartIsClean(now);
    if es != [] {
      var n := |es| - 1;
      var db, log := Run(start, es[..n]), Log(start, es[..n]);
      NothingForgotten(now, es[..n], elapsed);
      RunWellTyped(start, es[..n]);
      RunTime(start, es[..n]);
      assert log + [] == log;
      if es[n].Applied() {
        RemembersStep(db, log, es[n].call, now + elapsed);
      } else {
        RunTime(start, es);
        TickRemembers(db, log, es[n], now + elapsed);
      }
    }
  }

  lemma TickRemembers(db: Db, log: seq<Call>, e: Step, end: int)
    requires WellTyped(db) && Remembers(db, log, end) && !e.Applied() && Next(db, e).now <= end
    ensures Remembers(Next(db, e), log, end)
  {
    forall s ensures Counted(Next(db, e), s) == Counted(db, s) && Deadline(Next(db, e), s) == Deadline(db, s) {
      assert Deadline(db, s).Some? ==> Deadline(db, s).value >= end;
    }
  }
}
