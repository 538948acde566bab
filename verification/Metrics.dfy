// The counting maps behind the observed gauges.
module Metrics {
  import opened GoStrings
  import opened Provider
  import opened Bags
  import opened Histogram
  import H = Histogram
  import V = Valkey
  import Protocol

  // ----- scm.security_findings.open -----

  datatype FindingKey = FindingKey(severity: string, category: string, ecosystem: string, tool: string)

  datatype Dimensions = Dimensions(ecosystem: bool, tool: bool)

  function KeyOf(f: Finding, dims: Dimensions): FindingKey {
    FindingKey(f.severity, f.category, if dims.ecosystem then f.ecosystem else "", if dims.tool then f.tool else "")
  }

  function Keys(fs: seq<Finding>, dims: Dimensions): seq<FindingKey> {
    seq(|fs|, i requires 0 <= i < |fs| => KeyOf(fs[i], dims))
  }

  method CountFindings(fs: seq<Finding>, dims: Dimensions) returns (counts: map<FindingKey, int>)
    ensures IsCount(counts, Keys(fs, dims))
  {
    hide *;
    counts := map[];
    NoKeys(fs, dims);
    for i := 0 to |fs|
      invariant IsCount(counts, Keys(fs[..i], dims))
    {
      var k := KeyFor(fs[i], dims);
      CountNext(counts, Keys(fs[..i], dims), k);
      KeysNext(fs, dims, i);
      counts := counts[k := (if k in counts then counts[k] else 0) + 1];
    }
    assert fs[..|fs|] == fs;
  }

  method KeyFor(f: Finding, dims: Dimensions) returns (k: FindingKey)
    ensures k == KeyOf(f, dims)
  {
    k := FindingKey(f.severity, f.category, "", "");
    if dims.ecosystem {
      k := k.(ecosystem := f.ecosystem);
    }
    if dims.tool {
      k := k.(tool := f.tool);
    }
  }

  lemma NoKeys(fs: seq<Finding>, dims: Dimensions)
    ensures IsCount(map[], Keys(fs[..0], dims))
  {
  }

  lemma KeysNext(fs: seq<Finding>, dims: Dimensions, i: nat)
    requires i < |fs|
    ensures Keys(fs[..i + 1], dims) == Keys(fs[..i], dims) + [KeyOf(fs[i], dims)]
  {
  }

  // Forgetting labels.
  function Drop(coarse: Dimensions): FindingKey -> FindingKey {
    (k: FindingKey) => FindingKey(k.severity, k.category,
                                  if coarse.ecosystem then k.ecosystem else "", if coarse.tool then k.tool else "")
  }

  ghost predicate Coarser(coarse: Dimensions, fine: Dimensions) {
    (coarse.ecosystem ==> fine.ecosystem) && (coarse.tool ==> fine.tool)
  }

  // Adding up the series with more labels over the labels dropped gives the series with fewer, in
  // whatever order the map is iterated; in particular the default output sums every dimension.
  lemma DroppingLabelsAddsUp(fs: seq<Finding>, fine: Dimensions, coarse: Dimensions, counts: map<FindingKey, int>,
                             counts': map<FindingKey, int>, order: seq<FindingKey>, p: FindingKey)
    requires Coarser(coarse, fine)
    requires IsCount(counts, Keys(fs, fine)) && IsCount(counts', Keys(fs, coarse))
    requires Distinct(order) && forall k :: k in order <==> k in counts
    ensures SumAt(order, counts, Drop(coarse), p) == if p in counts' then counts'[p] else 0
  {
    SumCountsProjection(order, counts, Keys(fs, fine), Drop(coarse), p);
    assert Projected(Keys(fs, fine), Drop(coarse)) == Keys(fs, coarse);
  }

  // Every finding is in exactly one series: the counts add up to the number of findings.
  lemma FindingsConserve(fs: seq<Finding>, dims: Dimensions, counts: map<FindingKey, int>, order: seq<FindingKey>)
    requires IsCount(counts, Keys(fs, dims)) && Distinct(order) && forall k :: k in order <==> k in counts
    ensures SumAt(order, counts, k => true, true) == |fs|
  {
    SumCountsEverything(order, counts, Keys(fs, dims));
  }

  // ----- scm.findings.by_state -----

  const NUL: char := '\0'

  function StateKey(category: string, state: string): string { category + [NUL] + state }

  // strings.SplitN(key, "\0", 2).
  function SplitKey(key: string): (string, string)
    requires NUL in key
  {
    if key[0] == NUL then ("", key[1..]) else
      var (category, state) := SplitKey(key[1..]);
      ([key[0]] + category, state)
  }

  lemma {:induction false} SplitStopsAtNul(key: string)
    requires NUL in key
    ensures NUL !in SplitKey(key).0
  {
    if key[0] != NUL { SplitStopsAtNul(key[1..]); }
  }

  lemma {:induction false} CleanKeySplits(category: string, state: string)
    requires NUL !in category
    ensures NUL in StateKey(category, state) && SplitKey(StateKey(category, state)) == (category, state)
  {
    var key := StateKey(category, state);
    assert key[|category|] == NUL;
    if category != "" {
      CleanKeySplits(category[1..], state);
      assert key[1..] == StateKey(category[1..], state);
      assert [category[0]] + category[1..] == category;
    } else {
      assert key[1..] == state;
    }
  }

  // The two labels come back exactly when the category holds no NUL.
  lemma StateKeySplits(category: string, state: string)
    ensures NUL in StateKey(category, state)
    ensures SplitKey(StateKey(category, state)) == (category, state) <==> NUL !in category
  {
    assert StateKey(category, state)[|category|] == NUL;
    if NUL !in category { CleanKeySplits(category, state); }
    SplitStopsAtNul(StateKey(category, state));
  }

  function StateKeys(open: seq<Finding>, resolved: seq<ResolvedFinding>): seq<string> {
    seq(|open|, i requires 0 <= i < |open| => StateKey(open[i].category, STATE_OPEN)) +
    seq(|resolved|, i requires 0 <= i < |resolved| => StateKey(resolved[i].category, resolved[i].state))
  }

  method CountStates(open: seq<Finding>, resolved: seq<ResolvedFinding>) returns (counts: map<string, int>)
    ensures IsCount(counts, StateKeys(open, resolved))
  {
    counts := map[];
    for i := 0 to |open|
      invariant IsCount(counts, StateKeys(open[..i], []))
    {
      hide StateKey, StateKeys, IsCount;
      OpenNext(open, i);
      counts := Bump(counts, StateKeys(open[..i], []), StateKey(open[i].category, STATE_OPEN));
    }
    assert open[..|open|] == open;
    for j := 0 to |resolved|
      invariant IsCount(counts, StateKeys(open, resolved[..j]))
    {
      hide StateKey, StateKeys, IsCount;
      ResolvedNext(open, resolved, j);
      counts := Bump(counts, StateKeys(open, resolved[..j]), StateKey(resolved[j].category, resolved[j].state));
    }
    assert resolved[..|resolved|] == resolved;
  }

  lemma OpenNext(open: seq<Finding>, i: nat)
    requires i < |open|
    ensures StateKeys(open[..i + 1], []) == StateKeys(open[..i], []) + [StateKey(open[i].category, STATE_OPEN)]
  {
    hide StateKey;
  }

  lemma ResolvedNext(open: seq<Finding>, resolved: seq<ResolvedFinding>, j: nat)
    requires j < |resolved|
    ensures StateKeys(open, resolved[..j + 1]) ==
            StateKeys(open, resolved[..j]) + [StateKey(resolved[j].category, resolved[j].state)]
  {
    hide StateKey;
  }

  method Bump(counts: map<string, int>, ghost keys: seq<string>, k: string) returns (counts': map<string, int>)
    requires IsCount(counts, keys)
    ensures IsCount(counts', keys + [k])
  {
    CountNext(counts, keys, k);
    counts' := counts[k := (if k in counts then counts[k] else 0) + 1];
  }

  // The by-state series of a repository add up to its open plus its resolved findings.
  lemma StatesConserve(open: seq<Finding>, resolved: seq<ResolvedFinding>, counts: map<string, int>, order: seq<string>)
    requires IsCount(counts, StateKeys(open, resolved))
    requires Distinct(order) && forall k :: k in order <==> k in counts
    ensures SumAt(order, counts, k => true, true) == |open| + |resolved|
  {
    hide StateKey;
    SumCountsEverything(order, counts, StateKeys(open, resolved));
  }

  // ----- scm.finding_open_age_seconds -----

  datatype OpenAgeAcc = OpenAgeAcc(buckets: map<nat, int>, inf: int, count: int, sum: int)

  const EMPTY_ACC := OpenAgeAcc(map[], 0, 0, 0)

  // The ages of the findings of one category whose creation time is known.
  function Ages(fs: seq<Finding>, category: string, now: Time): seq<int> {
    if fs == [] then []
    else
      var n := |fs| - 1;
      Ages(fs[..n], category, now) +
      if !IsZero(fs[n].createdAt) && fs[n].category == category then [Sub(now, fs[n].createdAt)] else []
  }

  function BucketAt(acc: OpenAgeAcc, le: nat): int {
    if le in acc.buckets then acc.buckets[le] else 0
  }

  ghost predicate AccOf(acc: OpenAgeAcc, ages: seq<int>, bounds: seq<nat>) {
    && (forall le :: le in bounds ==> BucketAt(acc, le) == CountAtMost(ages, le))
    && acc.inf == |ages| && acc.count == |ages| && acc.sum == Total(ages)
  }

  // One finding.
  method Age(acc: OpenAgeAcc, age: int, bounds: seq<nat>, ghost ages: seq<int>) returns (acc': OpenAgeAcc)
    requires AccOf(acc, ages, bounds) && forall i, j :: 0 <= i < j < |bounds| ==> bounds[i] != bounds[j]
    ensures AccOf(acc', ages + [age], bounds)
  {
    var buckets := acc.buckets;
    for b := 0 to |bounds|
      invariant forall k :: 0 <= k < b ==>
                  (if bounds[k] in buckets then buckets[bounds[k]] else 0) ==
                  BucketAt(acc, bounds[k]) + if age <= bounds[k] * H.SECOND then 1 else 0
      invariant forall k :: b <= k < |bounds| ==>
                  (if bounds[k] in buckets then buckets[bounds[k]] else 0) == BucketAt(acc, bounds[k])
    {
      if age <= bounds[b] * H.SECOND {
        buckets := buckets[bounds[b] := (if bounds[b] in buckets then buckets[bounds[b]] else 0) + 1];
      }
    }
    acc' := OpenAgeAcc(buckets, acc.inf + 1, acc.count + 1, acc.sum + age);
    AgeCounted(acc, acc', age, bounds, ages);
  }

  lemma AgeCounted(acc: OpenAgeAcc, acc': OpenAgeAcc, age: int, bounds: seq<nat>, ages: seq<int>)
    requires AccOf(acc, ages, bounds)
    requires forall k :: 0 <= k < |bounds| ==>
               BucketAt(acc', bounds[k]) == BucketAt(acc, bounds[k]) + if age <= bounds[k] * H.SECOND then 1 else 0
    requires acc'.inf == acc.inf + 1 && acc'.count == acc.count + 1 && acc'.sum == acc.sum + age
    ensures AccOf(acc', ages + [age], bounds)
  {
    assert (ages + [age])[..|ages|] == ages;
    hide BucketAt;
  }

  ghost predicate ByCategory(byCategory: map<string, OpenAgeAcc>, fs: seq<Finding>, now: Time) {
    && (forall c :: c in byCategory <==> Ages(fs, c, now) != [])
    && (forall c :: c in byCategory ==> AccOf(byCategory[c], Ages(fs, c, now), BOUNDS))
  }

  // The accumulation of observeOpenAge.
  method OpenAge(fs: seq<Finding>, now: Time) returns (byCategory: map<string, OpenAgeAcc>)
    ensures ByCategory(byCategory, fs, now)
  {
    byCategory := map[];
    for i := 0 to |fs|
      invariant ByCategory(byCategory, fs[..i], now)
    {
      hide AccOf, ByCategory;
      if IsZero(fs[i].createdAt) {
        CategorySkipped(byCategory, fs, i, now);
        continue;
      }
      var c := fs[i].category;
      AccSoFar(byCategory, fs, i, now);
      var acc := Age(if c in byCategory then byCategory[c] else EMPTY_ACC,
                     Sub(now, fs[i].createdAt), BOUNDS, Ages(fs[..i], c, now));
      CategoryUpdated(byCategory, fs, i, now, acc);
      byCategory := byCategory[c := acc];
    }
    assert fs[..|fs|] == fs;
  }

  lemma AccSoFar(byCategory: map<string, OpenAgeAcc>, fs: seq<Finding>, i: nat, now: Time)
    requires i < |fs| && ByCategory(byCategory, fs[..i], now)
    ensures var c := fs[i].category;
      AccOf(if c in byCategory then byCategory[c] else EMPTY_ACC, Ages(fs[..i], c, now), BOUNDS)
  {
    EmptyAcc();
    hide AccOf, Ages;
  }

  lemma CategorySkipped(byCategory: map<string, OpenAgeAcc>, fs: seq<Finding>, i: nat, now: Time)
    requires i < |fs| && IsZero(fs[i].createdAt) && ByCategory(byCategory, fs[..i], now)
    ensures ByCategory(byCategory, fs[..i + 1], now)
  {
    hide AccOf, Ages;
    AgesNext(fs, i, now);
  }

  lemma CategoryUpdated(byCategory: map<string, OpenAgeAcc>, fs: seq<Finding>, i: nat, now: Time, acc: OpenAgeAcc)
    requires i < |fs| && !IsZero(fs[i].createdAt) && ByCategory(byCategory, fs[..i], now)
    requires AccOf(acc, Ages(fs[..i], fs[i].category, now) + [Sub(now, fs[i].createdAt)], BOUNDS)
    ensures ByCategory(byCategory[fs[i].category := acc], fs[..i + 1], now)
  {
    hide AccOf, Ages;
    AgesNext(fs, i, now);
  }

  lemma AgesNext(fs: seq<Finding>, i: nat, now: Time)
    requires i < |fs|
    ensures forall c :: Ages(fs[..i + 1], c, now) ==
              if !IsZero(fs[i].createdAt) && fs[i].category == c
              then Ages(fs[..i], c, now) + [Sub(now, fs[i].createdAt)]
              else Ages(fs[..i], c, now)
  {
    hide Sub;
    forall c ensures Ages(fs[..i + 1], c, now) ==
              if !IsZero(fs[i].createdAt) && fs[i].category == c
              then Ages(fs[..i], c, now) + [Sub(now, fs[i].createdAt)]
              else Ages(fs[..i], c, now)
    {
      assert fs[..i + 1][..i] == fs[..i];
      assert Ages(fs[..i], c, now) + [] == Ages(fs[..i], c, now);
    }
  }

  lemma EmptyAcc()
    ensures AccOf(EMPTY_ACC, [], BOUNDS)
  {
  }

  // The open-age histogram and the remediation histogram in the store are the same histogram: after
  // any run, a scope whose counted durations are the ages holds the same buckets, overflow bucket,
  // count and sum.
  lemma OpenAgeAgreesWithStore(acc: OpenAgeAcc, ages: seq<int>, now: int, es: seq<Protocol.Step>, scope: string)
    requires AccOf(acc, ages, BOUNDS)
    requires multiset(Protocol.Durations(Protocol.Log(Protocol.Start(now), es), scope)) == multiset(ages)
    ensures var h := V.Hist(Protocol.Run(Protocol.Start(now), es), scope);
      && (forall le :: le in BOUNDS ==> Get(h, BucketField(Le(le))) == BucketAt(acc, le))
      && Get(h, BucketField(PlusInf)) == acc.inf && Get(h, COUNT_FIELD) == acc.count && Get(h, SUM_FIELD) == acc.sum
  {
    var ds := Protocol.Durations(Protocol.Log(Protocol.Start(now), es), scope);
    Protocol.StoredIsFromScratch(now, es);
    var h := V.Hist(Protocol.Run(Protocol.Start(now), es), scope);
    assert IsHistogramOf(h, ds);
    hide BucketField, FormatInt, V.Hist, Protocol.Run, Protocol.Log, Protocol.Durations, KeysFor, BucketAt,
        CountAtMost, Total;
    OrderIrrelevant(ds, ages, 0);
    forall le | le in BOUNDS ensures CountAtMost(ds, le) == CountAtMost(ages, le) { OrderIrrelevant(ds, ages, le); }
  }

  // Each duration recorded once, under an id of its own.
  function Recorded(scope: string, ids: seq<string>, durations: seq<int>, window: int): seq<Protocol.Step>
    requires |ids| == |durations|
  {
    seq(|ids|, i requires 0 <= i < |ids| =>
      Protocol.Attempt(V.Call(scope, ids[i], durations[i], window), Protocol.Delivered))
  }

  lemma {:induction false} RecordedOnce(scope: string, ids: seq<string>, durations: seq<int>, window: int)
    requires |ids| == |durations| && Distinct(ids)
    ensures Protocol.FirstDurations(Recorded(scope, ids, durations, window), scope) == durations
    ensures Protocol.AppliedIds(Recorded(scope, ids, durations, window), scope) == set x | x in ids
    ensures Protocol.Elapsed(Recorded(scope, ids, durations, window)) == 0
  {
    var es := Recorded(scope, ids, durations, window);
    if ids != [] {
      var n := |ids| - 1;
      RecordedOnce(scope, ids[..n], durations[..n], window);
      assert es[..n] == Recorded(scope, ids[..n], durations[..n], window);
      Protocol.AppliedIdsStep(es, scope);
      assert ids == ids[..n] + [ids[n]] && durations == durations[..n] + [durations[n]];
    }
  }

  // For any list of ages: the open-age accumulator and a store that recorded the same durations under
  // distinct ids give the same histogram.
  lemma OpenAgeEqualsRecorded(acc: OpenAgeAcc, ages: seq<int>, now: int, scope: string, ids: seq<string>, window: int)
    requires AccOf(acc, ages, BOUNDS)
    requires |ids| == |ages| && Distinct(ids) && window >= H.SECOND
    ensures var h := V.Hist(Protocol.Run(Protocol.Start(now), Recorded(scope, ids, ages, window)), scope);
      && (forall le :: le in BOUNDS ==> Get(h, BucketField(Le(le))) == BucketAt(acc, le))
      && Get(h, BucketField(PlusInf)) == acc.inf && Get(h, COUNT_FIELD) == acc.count && Get(h, SUM_FIELD) == acc.sum
  {
    hide AccOf, V.Hist, Protocol.Run, Protocol.Log, Protocol.Durations, BucketField, BucketAt;
    var es := Recorded(scope, ids, ages, window);
    RecordedOnce(scope, ids, ages, window);
    Protocol.NothingForgotten(now, es, 0);
    Protocol.LogIsFirstApplied(now, es, scope);
    OpenAgeAgreesWithStore(acc, ages, now, es, scope);
  }

  // ----- The series, said of the findings -----

  // The finding is one of the series with these labels; a label that is off is empty.
  function InSeries(dims: Dimensions, k: FindingKey): Finding -> bool {
    (f: Finding) =>
      && f.severity == k.severity && f.category == k.category
      && (if dims.ecosystem then f.ecosystem == k.ecosystem else k.ecosystem == "")
      && (if dims.tool then f.tool == k.tool else k.tool == "")
  }

  lemma {:induction false} KeyedAsOften(fs: seq<Finding>, dims: Dimensions, k: FindingKey)
    ensures multiset(Keys(fs, dims))[k] == Times(fs, InSeries(dims, k))
  {
    hide Times;
    if fs == [] {
      TimesNone(InSeries(dims, k));
    } else {
      var n := |fs| - 1;
      KeyedAsOften(fs[..n], dims, k);
      KeysNext(fs, dims, n);
      assert fs[..n + 1] == fs;
      TimesNext(fs, InSeries(dims, k));
    }
  }

  // Each series that is emitted counts the findings with its labels, and none without a finding is emitted.
  lemma SeriesCountFindings(fs: seq<Finding>, dims: Dimensions, counts: map<FindingKey, int>, k: FindingKey)
    requires IsCount(counts, Keys(fs, dims))
    ensures k in counts <==> Times(fs, InSeries(dims, k)) > 0
    ensures k in counts ==> counts[k] == Times(fs, InSeries(dims, k))
  {
    hide Times, Keys, InSeries;
    KeyedAsOften(fs, dims, k);
  }

  function OpenUnder(key: string): Finding -> bool {
    (f: Finding) => f.category + "\0" + "open" == key
  }

  function ResolvedUnder(key: string): ResolvedFinding -> bool {
    (f: ResolvedFinding) => f.category + "\0" + f.state == key
  }

  lemma {:induction false} StatedAsOften(open: seq<Finding>, resolved: seq<ResolvedFinding>, key: string)
    ensures multiset(StateKeys(open, resolved))[key] ==
            Times(open, OpenUnder(key)) + Times(resolved, ResolvedUnder(key))
    decreases |open| + |resolved|
  {
    hide Times;
    if resolved != [] {
      var n := |resolved| - 1;
      StatedAsOften(open, resolved[..n], key);
      ResolvedNext(open, resolved, n);
      assert resolved[..n + 1] == resolved;
      TimesNext(resolved, ResolvedUnder(key));
    } else {
      TimesNone(ResolvedUnder(key));
      if open == [] {
        TimesNone(OpenUnder(key));
      } else {
        var n := |open| - 1;
        StatedAsOften(open[..n], [], key);
        OpenNext(open, n);
        assert open[..n + 1] == open;
        TimesNext(open, OpenUnder(key));
      }
    }
  }

  // Each by-state count is the number of open findings, under the state "open", and of resolved ones,
  // under their own states, with that category and state.
  lemma StatesCountFindings(open: seq<Finding>, resolved: seq<ResolvedFinding>, counts: map<string, int>, key: string)
    requires IsCount(counts, StateKeys(open, resolved))
    ensures var n := Times(open, OpenUnder(key)) + Times(resolved, ResolvedUnder(key));
      (key in counts <==> n > 0) && (key in counts ==> counts[key] == n)
  {
    hide Times, StateKeys, OpenUnder, ResolvedUnder;
    StatedAsOften(open, resolved, key);
  }

  // A finding of the category that is known to be at most so old.
  function OpenFor(category: string, now: Time, limit: int): Finding -> bool {
    (f: Finding) => f.createdAt != ZERO_TIME && f.category == category && Sub(now, f.createdAt) <= limit
  }

  lemma {:induction false} AgedAsOften(fs: seq<Finding>, category: string, now: Time, limit: int)
    ensures HowMany(Ages(fs, category, now), limit) == Times(fs, OpenFor(category, now, limit))
  {
    hide Times, Sub, HowMany;
    if fs == [] {
      TimesNone(OpenFor(category, now, limit));
      NoneUpTo(limit);
    } else {
      var n := |fs| - 1;
      AgedAsOften(fs[..n], category, now, limit);
      TimesNext(fs, OpenFor(category, now, limit));
      OneMoreUpTo(Ages(fs[..n], category, now), Sub(now, fs[n].createdAt), limit);
      assert Ages(fs[..n], category, now) + [] == Ages(fs[..n], category, now);
    }
  }

  lemma NoneUpTo(limit: int)
    ensures HowMany([], limit) == 0
  {
    var none: seq<int> := [];
    assert (set i: nat | i < |none| && none[i] <= limit) == {};
  }

  lemma OneMoreUpTo(ds: seq<int>, d: int, limit: int)
    ensures HowMany(ds + [d], limit) == HowMany(ds, limit) + if d <= limit then 1 else 0
  {
    var all := set i: nat | i < |ds| + 1 && (ds + [d])[i] <= limit;
    var front := set i: nat | i < |ds| && ds[i] <= limit;
    if d <= limit {
      assert all == front + {|ds|};
    } else {
      assert all == front;
    }
  }

  // Each open-age bucket is the number of findings of the category with a known creation time that are at
  // most so old; the overflow bucket and the count are the number of all of them, and a category without
  // any has no histogram.
  lemma BucketsCountFindings(fs: seq<Finding>, now: Time, byCategory: map<string, OpenAgeAcc>, c: string)
    requires ByCategory(byCategory, fs, now)
    ensures c in byCategory <==> Times(fs, OpenFor(c, now, MAX_INT64)) > 0
    ensures c in byCategory ==>
              && (forall le :: le in BOUNDS ==>
                    BucketAt(byCategory[c], le) == Times(fs, OpenFor(c, now, le * H.SECOND)))
              && byCategory[c].inf == byCategory[c].count == Times(fs, OpenFor(c, now, MAX_INT64))
  {
    hide Times, BucketAt, Sub, OpenFor, CountAtMost, HowMany, Ages;
    var ages := Ages(fs, c, now);
    forall le | le in BOUNDS
      ensures CountAtMost(ages, le) == Times(fs, OpenFor(c, now, le * H.SECOND))
    {
      CountAtMostIsHowMany(ages, le);
      AgedAsOften(fs, c, now, le * H.SECOND);
    }
    AgedAsOften(fs, c, now, MAX_INT64);
    AgesInRange(fs, c, now);
    AllUpTo(ages, MAX_INT64);
  }

  lemma {:induction false} AgesInRange(fs: seq<Finding>, category: string, now: Time)
    ensures forall d :: d in Ages(fs, category, now) ==> d <= MAX_INT64
  {
    hide IsZero;
    if fs != [] { AgesInRange(fs[..|fs| - 1], category, now); }
  }

  lemma {:induction false} AllUpTo(ds: seq<int>, limit: int)
    requires forall d :: d in ds ==> d <= limit
    ensures HowMany(ds, limit) == |ds|
  {
    hide HowMany;
    if ds == [] {
      NoneUpTo(limit);
    } else {
      var n := |ds| - 1;
      assert ds[n] in ds && ds == ds[..n] + [ds[n]];
      forall d | d in ds[..n] ensures d in ds {}
      AllUpTo(ds[..n], limit);
      OneMoreUpTo(ds[..n], ds[n], limit);
    }
  }
}
