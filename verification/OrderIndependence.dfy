// Recording is idempotent and independent of order: what the store holds depends only on the set
// of findings recorded, not on their order, their repetition, or how Jobs split them up.
module OrderIndependence {
  import opened GoStrings
  import opened Histogram
  import opened Scope
  import opened Valkey
  import opened Protocol

  datatype Finding = Finding(scope: string, id: string, duration: int)

  function Applied(es: seq<Step>): set<Finding> {
    set e | e in es && e.Applied() :: Finding(e.call.scope, e.call.id, e.call.duration)
  }

  // Each id carries one duration within its scope.
  ghost predicate OneDurationEach(fs: set<Finding>) {
    forall f, g :: f in fs && g in fs && f.scope == g.scope && f.id == g.id ==> f == g
  }

  // The first applied call of each id of a scope, as a list of findings.
  function FirstFindings(es: seq<Step>, scope: string): seq<Finding> {
    if es == [] then []
    else
      var n := |es| - 1;
      var e := es[n];
      FirstFindings(es[..n], scope) +
      if e.Applied() && e.call.scope == scope && e.call.id !in AppliedIds(es[..n], scope)
      then [Finding(scope, e.call.id, e.call.duration)] else []
  }

  function DurationsOf(fs: seq<Finding>): seq<int> {
    seq(|fs|, i requires 0 <= i < |fs| => fs[i].duration)
  }

  lemma {:induction false} FirstDurationsAreOf(es: seq<Step>, scope: string)
    ensures FirstDurations(es, scope) == DurationsOf(FirstFindings(es, scope))
  {
    if es != [] { FirstDurationsAreOf(es[..|es| - 1], scope); }
  }

  lemma {:induction false} FirstFindingsDistinct(es: seq<Step>, scope: string)
    ensures forall f :: f in FirstFindings(es, scope) ==> f in Applied(es) && f.scope == scope
    ensures forall i :: i in AppliedIds(es, scope) <==> exists f :: f in FirstFindings(es, scope) && f.id == i
    ensures forall i, j :: 0 <= i < j < |FirstFindings(es, scope)| ==>
              FirstFindings(es, scope)[i].id != FirstFindings(es, scope)[j].id
  {
    if es != [] {
      var n := |es| - 1;
      FirstFindingsDistinct(es[..n], scope);
      AppliedIdsStep(es, scope);
      assert es == es[..n] + [es[n]];
      var before, after := FirstFindings(es[..n], scope), FirstFindings(es, scope);
      forall i | i in AppliedIds(es, scope) ensures exists f :: f in after && f.id == i {
        if i in AppliedIds(es[..n], scope) {
          var f :| f in before && f.id == i;
          assert f in after;
        } else {
          assert after[|before|].id == i && after[|before|] in after;
        }
      }
    }
  }

  // With one duration per id, the first findings are exactly the applied ones.
  lemma FirstFindingsAreAll(es: seq<Step>, scope: string, f: Finding)
    requires OneDurationEach(Applied(es))
    ensures f in FirstFindings(es, scope) <==> f in Applied(es) && f.scope == scope
  {
    FirstFindingsDistinct(es, scope);
    if f in Applied(es) && f.scope == scope {
      assert f.id in AppliedIds(es, scope);
      var g :| g in FirstFindings(es, scope) && g.id == f.id;
      assert g in Applied(es);
    }
  }

  lemma {:induction false} DistinctBag<T>(a: seq<T>)
    requires forall i, j :: 0 <= i < j < |a| ==> a[i] != a[j]
    ensures multiset(a) == multiset(set x | x in a)
  {
    if a != [] {
      var n := |a| - 1;
      DistinctBag(a[..n]);
      assert a == a[..n] + [a[n]];
      assert (set x | x in a) == (set x | x in a[..n]) + {a[n]};
      assert a[n] !in a[..n];
    }
  }

  lemma {:induction false} DurationsOfBag(a: seq<Finding>, b: seq<Finding>)
    requires multiset(a) == multiset(b)
    ensures multiset(DurationsOf(a)) == multiset(DurationsOf(b))
  {
    if a == [] {
      assert |multiset(b)| == 0;
    } else {
      var n := |a| - 1;
      assert a == a[..n] + [a[n]];
      var i := RemoveOne(b, a[n]);
      DurationsOfBag(a[..n], b[..i] + b[i + 1..]);
      hide DurationsOf;
      DurationsConcat(a[..n], [a[n]]);
      DurationsConcat(b[..i], b[i + 1..]);
      DurationsConcat(b[..i], [a[n]]);
      DurationsConcat(b[..i] + [a[n]], b[i + 1..]);
    }
  }

  lemma DurationsConcat(a: seq<Finding>, b: seq<Finding>)
    ensures DurationsOf(a + b) == DurationsOf(a) + DurationsOf(b)
  {
  }

  lemma SameFirstDurations(es: seq<Step>, fs: seq<Step>, scope: string)
    requires Applied(es) == Applied(fs) && OneDurationEach(Applied(es))
    ensures multiset(FirstDurations(es, scope)) == multiset(FirstDurations(fs, scope))
  {
    var a, b := FirstFindings(es, scope), FirstFindings(fs, scope);
    FirstFindingsDistinct(es, scope);
    FirstFindingsDistinct(fs, scope);
    DistinctBag(a);
    DistinctBag(b);
    forall f ensures f in a <==> f in b {
      FirstFindingsAreAll(es, scope, f);
      FirstFindingsAreAll(fs, scope, f);
    }
    assert (set f | f in a) == (set f | f in b);
    DurationsOfBag(a, b);
    FirstDurationsAreOf(es, scope);
    FirstDurationsAreOf(fs, scope);
  }

  lemma IndexOfApplied(now: int, es: seq<Step>, scope: string)
    ensures HistKey(scope) in Index(Run(Start(now), es)) <==> exists f :: f in Applied(es) && f.scope == scope
  {
    hide IsHistogramOf, Record;
    var log := Log(Start(now), es);
    StoredIsFromScratch(now, es);
    EveryIdCounted(now, es, scope);
    KeysApart();
    hide HistKey, CountedKey;
    if HistKey(scope) in Index(Run(Start(now), es)) {
      var c :| c in log && HistKey(c.scope) == HistKey(scope);
      assert c.id in Ids(log, scope);
      var e :| e in es && e.Applied() && e.call.scope == scope && e.call.id == c.id;
      assert Finding(scope, e.call.id, e.call.duration) in Applied(es);
    }
    if f :| f in Applied(es) && f.scope == scope {
      assert f.id in AppliedIds(es, scope);
      assert f.id in Ids(log, scope);
      var c :| c in log && c.scope == scope && c.id == f.id;
    }
  }

  // Two runs within the dedup windows that recorded the same set of findings (in any order, any
  // number of times, by any number of Jobs, with any replies lost) hold the same histograms and
  // list the same scopes.
  lemma RecordingDependsOnTheSetOnly(now: int, es: seq<Step>, now': int, fs: seq<Step>)
    requires WindowsOutlast(es, Elapsed(es)) && WindowsOutlast(fs, Elapsed(fs))
    requires Applied(es) == Applied(fs) && OneDurationEach(Applied(es))
    ensures forall s :: Hist(Run(Start(now), es), s) == Hist(Run(Start(now'), fs), s)
    ensures Index(Run(Start(now), es)) == Index(Run(Start(now'), fs))
  {
    hide IsHistogramOf;
    NothingForgotten(now, es, Elapsed(es));
    NothingForgotten(now', fs, Elapsed(fs));
    forall s ensures Hist(Run(Start(now), es), s) == Hist(Run(Start(now'), fs), s) {
      StoredIsFirstApplied(now, es, s);
      StoredIsFirstApplied(now', fs, s);
      SameFirstDurations(es, fs, s);
      HistogramOrderIrrelevant(Hist(Run(Start(now), es), s), Hist(Run(Start(now'), fs), s),
                               FirstDurations(es, s), FirstDurations(fs, s));
    }
    SameIndex(now, es, now', fs);
  }

  lemma SameIndex(now: int, es: seq<Step>, now': int, fs: seq<Step>)
    requires Applied(es) == Applied(fs)
    ensures Index(Run(Start(now), es)) == Index(Run(Start(now'), fs))
  {
    hide IsHistogramOf, Index, Run;
    StoredIsFromScratch(now, es);
    StoredIsFromScratch(now', fs);
    forall k ensures k in Index(Run(Start(now), es)) <==> k in Index(Run(Start(now'), fs)) {
      forall s ensures HistKey(s) in Index(Run(Start(now), es)) <==> HistKey(s) in Index(Run(Start(now'), fs)) {
        IndexOfApplied(now, es, s);
        IndexOfApplied(now', fs, s);
      }
    }
  }
}
