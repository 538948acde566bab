// The non-atomic read of every series while other Jobs keep recording.
module Reader {
  import opened GoStrings
  import opened Histogram
  import opened Scope
  import opened Valkey
  import opened Protocol

  datatype Bucket = Bucket(le: Bound, count: int)

  datatype Series = Series(labels: Labels, buckets: seq<Bucket>, sum: int, count: int)

  // What one hash reads as.
  function SeriesOf(h: Fields, labels: Labels): Series {
    Series(labels,
           seq(|BOUNDS|, i requires 0 <= i < |BOUNDS| => Bucket(Le(BOUNDS[i]), Get(h, BucketField(Le(BOUNDS[i])))))
           + [Bucket(PlusInf, Get(h, BucketField(PlusInf)))],
           Get(h, SUM_FIELD), Get(h, COUNT_FIELD))
  }

  // Before its k-th command the reader is overtaken by the steps others(k): the k-th command sees
  // this database. Command 0 lists the index, command i + 1 fetches the i-th key.
  function Seen(db: Db, others: nat -> seq<Step>, k: nat): Db {
    Run(if k == 0 then db else Seen(db, others, k - 1), others(k))
  }

  // The series of one key, or none when its hash is empty or its scope does not parse.
  function Emission(db: Db, key: string): seq<Series>
    requires |key| >= 5
  {
    var h := HGetAll(db, key);
    match ParseRemediationScope(ScopeOfHistKey(key))
    case Some(labels) => if h == map[] then [] else [SeriesOf(h, labels)]
    case None => []
  }

  // The series emitted after the first n keys.
  function Emitted(db: Db, others: nat -> seq<Step>, keys: seq<string>, n: nat): seq<Series>
    requires n <= |keys| && forall k :: k in keys ==> |k| >= 5
  {
    if n == 0 then [] else Emitted(db, others, keys, n - 1) + Emission(Seen(db, others, n), keys[n - 1])
  }

  // The keys of a read: the index as the first command saw it, sorted.
  ghost predicate KeysOfRead(db: Db, others: nat -> seq<Step>, keys: seq<string>) {
    StrictlySorted(keys) && forall k :: k in keys <==> k in Index(Seen(db, others, 0))
  }

  lemma {:induction false} SeenWellTyped(db: Db, others: nat -> seq<Step>, k: nat)
    requires WellTyped(db)
    ensures WellTyped(Seen(db, others, k))
  {
    if k > 0 { SeenWellTyped(db, others, k - 1); }
    RunWellTyped(if k == 0 then db else Seen(db, others, k - 1), others(k));
  }

  // ----- Each series is a snapshot -----

  // s is the exact state of one scope in db.
  ghost predicate IsSnapshot(s: Series, db: Db) {
    var scope := RemediationScope(s.labels);
    Hist(db, scope) != map[] && s == SeriesOf(Hist(db, scope), s.labels)
  }

  // Every emitted series is the exact state of its scope at the moment its key was fetched.
  lemma {:induction false} EverySeriesIsASnapshot(db: Db, others: nat -> seq<Step>, keys: seq<string>, n: nat,
                                                  s: Series)
    returns (k: nat)
    requires n <= |keys| && forall k :: k in keys ==> |k| >= 5 && k == HistKey(ScopeOfHistKey(k))
    requires s in Emitted(db, others, keys, n)
    ensures 0 < k <= n && IsSnapshot(s, Seen(db, others, k))
    ensures keys[k - 1] == HistKey(RemediationScope(s.labels)) && s.labels.Clean()
  {
    hide Seen, ParseRemediationScope, RemediationScope, SeriesOf, HistKey, Labels.Clean;
    if s in Emitted(db, others, keys, n - 1) {
      k := EverySeriesIsASnapshot(db, others, keys, n - 1, s);
    } else {
      assert keys[n - 1] in keys;
      var scope := ScopeOfHistKey(keys[n - 1]);
      EncodeParsedScope(scope);
      LabelsKept(HGetAll(Seen(db, others, n), keys[n - 1]), ParseRemediationScope(scope).value);
      k := n;
    }
  }

  lemma {:induction false} EmissionIsEmitted(db: Db, others: nat -> seq<Step>, keys: seq<string>, n: nat, m: nat)
    requires m < n <= |keys| && forall k :: k in keys ==> |k| >= 5
    ensures forall s :: s in Emission(Seen(db, others, m + 1), keys[m]) ==> s in Emitted(db, others, keys, n)
  {
    hide Seen, Emission;
    if m + 1 < n { EmissionIsEmitted(db, others, keys, n - 1, m); }
  }

  // ----- Successive reads -----

  ghost predicate AtMost(a: Series, b: Series) {
    && a.labels == b.labels && |a.buckets| == |b.buckets|
    && (forall i :: 0 <= i < |a.buckets| ==>
          a.buckets[i].le == b.buckets[i].le && a.buckets[i].count <= b.buckets[i].count)
    && a.sum <= b.sum && a.count <= b.count
  }

  lemma GrownSeries(db: Db, db': Db, scope: string, labels: Labels)
    requires Grown(db, db', true)
    ensures AtMost(SeriesOf(Hist(db, scope), labels), SeriesOf(Hist(db', scope), labels))
  {
    hide BucketField, Hist;
  }

  lemma {:induction false} SeenGrows(db: Db, others: nat -> seq<Step>, j: nat, k: nat)
    requires WellTyped(db) && j <= k && forall i: nat :: Positive(others(i))
    ensures Grown(Seen(db, others, j), Seen(db, others, k), true)
  {
    if j < k {
      hide WellTyped, Get, Hist, Index, Positive;
      SeenGrows(db, others, j, k - 1);
      SeenWellTyped(db, others, k - 1);
      RunGrows(Seen(db, others, k - 1), others(k));
    }
  }

  lemma GrownTransitive(a: Db, b: Db, c: Db)
    requires Grown(a, b, true) && Grown(b, c, true)
    ensures Grown(a, c, true)
  {
    hide Get, Hist, Index;
  }

  // From a moment of one read to a moment of a later one.
  lemma GrownAcross(db: Db, others: nat -> seq<Step>, k: nat, n: nat, gap: seq<Step>, others': nat -> seq<Step>, m: nat)
    requires WellTyped(db) && k <= n
    requires (forall i: nat :: Positive(others(i)) && Positive(others'(i))) && Positive(gap)
    ensures Grown(Seen(db, others, k), Seen(Run(Seen(db, others, n), gap), others', m), true)
  {
    hide Seen, Run, WellTyped, Positive, Grown;
    var db' := Run(Seen(db, others, n), gap);
    SeenWellTyped(db, others, n);
    RunWellTyped(Seen(db, others, n), gap);
    SeenGrows(db, others, k, n);
    RunGrows(Seen(db, others, n), gap);
    GrownTransitive(Seen(db, others, k), Seen(db, others, n), db');
    RunGrows(db', others'(0));
    OneSeen(db', others');
    GrownTransitive(Seen(db, others, k), db', Seen(db', others', 0));
    SeenGrows(db', others', 0, m);
    GrownTransitive(Seen(db, others, k), Seen(db', others', 0), Seen(db', others', m));
  }

  // Two reads in a row, both overtaken at will: every series of the first read is in the second,
  // with no bucket, sum or count lower.
  lemma SuccessiveReadsNeverFall(db: Db, others: nat -> seq<Step>, keys: seq<string>, gap: seq<Step>,
                                 others': nat -> seq<Step>, keys': seq<string>, s: Series) returns (t: Series)
    requires WellTyped(db) && IndexListsHists(Seen(db, others, 0)) && KeysOfRead(db, others, keys)
    requires var db' := Run(Seen(db, others, |keys|), gap);
      IndexListsHists(Seen(db', others', 0)) && KeysOfRead(db', others', keys')
    requires (forall i: nat :: Positive(others(i)) && Positive(others'(i))) && Positive(gap)
    requires s in Emitted(db, others, keys, |keys|)
    ensures var db' := Run(Seen(db, others, |keys|), gap);
      t in Emitted(db', others', keys', |keys'|) && AtMost(s, t)
  {
    hide Seen, Run, WellTyped, Positive, Get, SeriesOf, RemediationScope, HistKey, AtMost, Labels.Clean, Emitted,
        Index, Hist;
    var db' := Run(Seen(db, others, |keys|), gap);
    var k := EverySeriesIsASnapshot(db, others, keys, |keys|, s);
    var scope := RemediationScope(s.labels);
    GrownAcross(db, others, 0, |keys|, gap, others', 0);
    assert keys[k - 1] in keys && keys[k - 1] in Index(Seen(db', others', 0));
    var m :| 0 <= m < |keys'| && keys'[m] == keys[k - 1];
    GrownAcross(db, others, k, |keys|, gap, others', m + 1);
    var later := Seen(db', others', m + 1);
    GrownSeries(Seen(db, others, k), later, scope, s.labels);
    var f :| f in Hist(Seen(db, others, k), scope);
    assert f in Hist(later, scope);
    t := ReportedAt(db', others', keys', m, s.labels);
  }

  // A clean scope whose hash is not empty when its key is fetched is reported.
  lemma ReportedAt(db: Db, others: nat -> seq<Step>, keys: seq<string>, m: nat, l: Labels) returns (t: Series)
    requires m < |keys| && keys[m] == HistKey(RemediationScope(l)) && l.Clean()
    requires forall k :: k in keys ==> |k| >= 5
    requires Hist(Seen(db, others, m + 1), RemediationScope(l)) != map[]
    ensures t == SeriesOf(Hist(Seen(db, others, m + 1), RemediationScope(l)), l) && t.labels == l
    ensures t in Emitted(db, others, keys, |keys|)
  {
    hide Seen, SeriesOf, RemediationScope, HistKey, Labels.Clean, ParseRemediationScope, Emitted, Hist;
    var scope, later := RemediationScope(l), Seen(db, others, m + 1);
    KeysNeverCollide(scope, scope);
    ParseEncodedScope(l);
    t := SeriesOf(Hist(later, scope), l);
    LabelsKept(Hist(later, scope), l);
    FetchIsHist(later, scope);
    EmissionIsEmitted(db, others, keys, |keys|, m);
  }

  lemma OneSeen(db: Db, others: nat -> seq<Step>)
    ensures Seen(db, others, 0) == Run(db, others(0))
  {
  }

  // ----- Reachable states -----

  // Everything that ran until the k-th command of the read.
  function History(past: seq<Step>, others: nat -> seq<Step>, k: nat): seq<Step> {
    (if k == 0 then past else History(past, others, k - 1)) + others(k)
  }

  lemma {:induction false} SeenIsRun(now: int, past: seq<Step>, others: nat -> seq<Step>, k: nat)
    ensures Seen(Run(Start(now), past), others, k) == Run(Start(now), History(past, others, k))
  {
    if k > 0 { SeenIsRun(now, past, others, k - 1); }
    RunConcat(Start(now), if k == 0 then past else History(past, others, k - 1), others(k));
  }

  lemma {:induction false} LoggedArePositive(db: Db, es: seq<Step>, c: Call)
    requires Positive(es) && c in Log(db, es)
    ensures c.duration > 0
  {
    hide Record, Run;
    var n := |es| - 1;
    if c in Log(db, es[..n]) { LoggedArePositive(db, es[..n], c); }
  }

  lemma {:induction false} DurationsFromLog(log: seq<Call>, scope: string, d: int)
    requires d in Durations(log, scope)
    ensures exists c :: c in log && c.scope == scope && c.duration == d
  {
    var n := |log| - 1;
    if d in Durations(log[..n], scope) {
      DurationsFromLog(log[..n], scope, d);
    } else {
      assert log[n] in log;
    }
  }

  // Every reachable hash is a consistent histogram: its buckets never fall as the bound grows, its
  // overflow bucket is its count, and its sum lies between what the buckets allow.
  lemma ReachableIsConsistent(now: int, es: seq<Step>, scope: string)
    requires Positive(es)
    ensures Consistent(Hist(Run(Start(now), es), scope))
  {
    hide IsHistogramOf, Consistent, Positive;
    var log := Log(Start(now), es);
    StoredIsFromScratch(now, es);
    forall d | d in Durations(log, scope) ensures d > 0 {
      DurationsFromLog(log, scope, d);
      var c :| c in log && c.duration == d;
      LoggedArePositive(Start(now), es, c);
    }
    HistogramIsConsistent(Hist(Run(Start(now), es), scope), Durations(log, scope));
  }

  ghost predicate LoggedIn(log: seq<Call>, scope: string) {
    exists c :: c in log && c.scope == scope
  }

  // A scope is in the index, has a hash and has counted calls, all three or none.
  lemma IndexedHasHash(now: int, es: seq<Step>, scope: string)
    ensures HistKey(scope) in Index(Run(Start(now), es)) <==> Hist(Run(Start(now), es), scope) != map[]
    ensures HistKey(scope) in Index(Run(Start(now), es)) <==> LoggedIn(Log(Start(now), es), scope)
  {
    var db, log := Run(Start(now), es), Log(Start(now), es);
    hide Run, Log;
    StoredIsFromScratch(now, es);
    KeysApart();
    hide CountedKey, HistKey;
    var h, ds := Hist(db, scope), Durations(log, scope);
    assert IsHistogramOf(h, ds);
    assert (h == map[]) == (ds == []) by { HashEmptyIff(h, ds); }
    hide IsHistogramOf;
    if c :| c in log && c.scope == scope { LoggedHasDuration(log, c); }
    if ds != [] { DurationsFromLog(log, scope, ds[0]); }
  }

  lemma HashEmptyIff(h: Fields, ds: seq<int>)
    requires IsHistogramOf(h, ds)
    ensures (h == map[]) == (ds == [])
  {
    hide CountAtMost, BucketField;
    assert h.Keys == KeysFor(ds, BOUNDS);
    if ds == [] { assert forall le :: CountAtMost([], le) == 0 by { EmptyCounts(); } }
    else { assert COUNT_FIELD in h; }
  }

  lemma EmptyCounts()
    ensures forall le :: CountAtMost([], le) == 0
  {
  }

  lemma {:induction false} LoggedHasDuration(log: seq<Call>, c: Call)
    requires c in log
    ensures Durations(log, c.scope) != []
  {
    var n := |log| - 1;
    if log[n] != c { LoggedHasDuration(log[..n], c); }
  }

  // A read reports exactly the label tuples under which something had been counted when the index
  // was listed, as far as their fields hold no separator.
  lemma ReadReportsExactlyTheCounted(now: int, past: seq<Step>, others: nat -> seq<Step>, keys: seq<string>, l: Labels)
    requires KeysOfRead(Run(Start(now), past), others, keys)
    requires forall k :: k in keys ==> |k| >= 5 && k == HistKey(ScopeOfHistKey(k))
    ensures (exists s :: s in Emitted(Run(Start(now), past), others, keys, |keys|) && s.labels == l) <==>
            l.Clean() && LoggedIn(Log(Start(now), History(past, others, 0)), RemediationScope(l))
  {
    hide Run, SeriesOf, RemediationScope, HistKey, Labels.Clean, Log, Index, Emitted, Hist, Seen, LoggedIn;
    var db, scope := Run(Start(now), past), RemediationScope(l);
    SeenIsRun(now, past, others, 0);
    IndexedHasHash(now, History(past, others, 0), scope);
    if s :| s in Emitted(db, others, keys, |keys|) && s.labels == l {
      var k := EverySeriesIsASnapshot(db, others, keys, |keys|, s);
      assert keys[k - 1] in keys;
    }
    if l.Clean() && HistKey(scope) in Index(Seen(db, others, 0)) {
      var t := IndexedIsReported(now, past, others, keys, l);
    }
  }

  lemma IndexedIsReported(now: int, past: seq<Step>, others: nat -> seq<Step>, keys: seq<string>, l: Labels)
    returns (t: Series)
    requires KeysOfRead(Run(Start(now), past), others, keys) && l.Clean()
    requires forall k :: k in keys ==> |k| >= 5
    requires HistKey(RemediationScope(l)) in Index(Seen(Run(Start(now), past), others, 0))
    ensures t in Emitted(Run(Start(now), past), others, keys, |keys|) && t.labels == l
  {
    hide Run, SeriesOf, RemediationScope, HistKey, Labels.Clean, Log, Index, Emitted, Hist, Seen, LoggedIn,
        ParseRemediationScope;
    var db, scope := Run(Start(now), past), RemediationScope(l);
    var m :| 0 <= m < |keys| && keys[m] == HistKey(scope);
    HashStays(now, past, others, m + 1, scope);
    SeenIsRun(now, past, others, m + 1);
    IndexedHasHash(now, History(past, others, m + 1), scope);
    t := ReportedAt(db, others, keys, m, l);
  }

  lemma FetchIsHist(db: Db, scope: string)
    ensures HGetAll(db, HistKey(scope)) == Hist(db, scope)
  {
  }

  lemma LabelsKept(h: Fields, l: Labels)
    ensures SeriesOf(h, l).labels == l
  {
  }

  lemma {:induction false} HashStays(now: int, past: seq<Step>, others: nat -> seq<Step>, k: nat, scope: string)
    requires HistKey(scope) in Index(Seen(Run(Start(now), past), others, 0))
    ensures HistKey(scope) in Index(Seen(Run(Start(now), past), others, k))
  {
    if k > 0 {
      hide Run, HistKey, Index;
      HashStays(now, past, others, k - 1, scope);
      var db := Run(Start(now), past);
      StartIsClean(now);
      RunWellTyped(Start(now), past);
      SeenWellTyped(db, others, k - 1);
      RunGrows(Seen(db, others, k - 1), others(k));
    }
  }

  // What a series should say of the durations counted in its scope: each finite bucket, the overflow
  // bucket, the sum and the count.
  ghost predicate Reports(s: Series, ds: seq<int>) {
    && s.sum == Total(ds) && s.count == |ds|
    && |s.buckets| == |BOUNDS| + 1 && s.buckets[|BOUNDS|] == Bucket(PlusInf, |ds|)
    && forall i :: 0 <= i < |BOUNDS| ==> s.buckets[i] == Bucket(Le(BOUNDS[i]), HowMany(ds, BOUNDS[i] * SECOND))
  }

  lemma HistogramReports(h: Fields, labels: Labels, ds: seq<int>)
    requires IsHistogramOf(h, ds)
    ensures Reports(SeriesOf(h, labels), ds)
  {
    hide BucketField, CountAtMost, Get, KeysFor, HowMany, Total;
    forall i | 0 <= i < |BOUNDS|
      ensures Get(h, BucketField(Le(BOUNDS[i]))) == HowMany(ds, BOUNDS[i] * SECOND)
    {
      assert BOUNDS[i] in BOUNDS;
      CountAtMostIsHowMany(ds, BOUNDS[i]);
    }
  }

  // Every series that a read emits, however often it is overtaken, reports exactly the durations that had
  // been counted in its scope when its key was fetched; there was at least one.
  lemma SeriesReportTheCounted(now: int, past: seq<Step>, others: nat -> seq<Step>, keys: seq<string>, n: nat,
                               s: Series)
    returns (k: nat)
    requires n <= |keys| && forall k :: k in keys ==> |k| >= 5 && k == HistKey(ScopeOfHistKey(k))
    requires s in Emitted(Run(Start(now), past), others, keys, n)
    ensures 0 < k <= n && keys[k - 1] == HistKey(RemediationScope(s.labels)) && s.labels.Clean()
    ensures var ds := Durations(Log(Start(now), History(past, others, k)), RemediationScope(s.labels));
      ds != [] && Reports(s, ds)
  {
    hide Run, Log, Emitted, Durations, SeriesOf, Reports, IsHistogramOf, Hist, RemediationScope, HistKey, Labels.Clean,
        Seen, History, ScopeOfHistKey;
    var db := Run(Start(now), past);
    k := EverySeriesIsASnapshot(db, others, keys, n, s);
    SeenIsRun(now, past, others, k);
    var scope, es := RemediationScope(s.labels), History(past, others, k);
    StoredIsFromScratch(now, es);
    HashEmptyIff(Hist(Run(Start(now), es), scope), Durations(Log(Start(now), es), scope));
    HistogramReports(Hist(Run(Start(now), es), scope), s.labels, Durations(Log(Start(now), es), scope));
  }
}
