// The cumulative remediation histogram as the fields of one hash, and the same histogram computed
// from scratch over a list of durations. Durations are whole nanoseconds, bounds whole seconds.
module Histogram {
  import opened GoStrings

  const SECOND: int := 1_000_000_000

  const BOUNDS: seq<nat> := [3600, 21600, 86400, 259200, 604800, 1209600, 2592000, 7776000]

  datatype Bound = Le(seconds: nat) | PlusInf

  function BucketField(b: Bound): string {
    match b
    case PlusInf => "le:+Inf"
    case Le(seconds) => "le:" + FormatInt(seconds)
  }

  const SUM_FIELD := "sum"
  const COUNT_FIELD := "count"

  type Fields = map<string, int>

  // An absent hash field reads as zero.
  function Get(h: Fields, f: string): int {
    if f in h then h[f] else 0
  }

  // ----- Field names -----

  lemma BucketFieldInjective(a: Bound, b: Bound)
    requires BucketField(a) == BucketField(b)
    ensures a == b
  {
    var p, q := BucketField(a)[3..], BucketField(b)[3..];
    assert a.Le? ==> p == FormatInt(a.seconds);
    assert b.Le? ==> q == FormatInt(b.seconds);
    assert a.PlusInf? ==> p[0] == '+';
    assert b.PlusInf? ==> q[0] == '+';
    if a.Le? && b.Le? { FormatIntInjective(a.seconds, b.seconds); }
  }

  lemma BucketFieldNotTotal(a: Bound)
    ensures BucketField(a) != SUM_FIELD && BucketField(a) != COUNT_FIELD
  {
    assert BucketField(a)[0] == 'l';
  }

  // ----- One observation -----

  // The finite buckets among bounds that a duration falls in.
  function FiniteFields(duration: int, bounds: seq<nat>): seq<string> {
    if bounds == [] then []
    else
      var n := |bounds| - 1;
      FiniteFields(duration, bounds[..n]) +
      (if duration <= bounds[n] * SECOND then [BucketField(Le(bounds[n]))] else [])
  }

  function ObservationFields(duration: int, bounds: seq<nat>): seq<string> {
    FiniteFields(duration, bounds) + [BucketField(PlusInf)]
  }

  function Bump(h: Fields, fields: seq<string>): Fields {
    if fields == [] then h
    else
      var n := |fields| - 1;
      var g := Bump(h, fields[..n]);
      g[fields[n] := Get(g, fields[n]) + 1]
  }

  // What the script does to the hash of a newly counted finding.
  function Observe(h: Fields, duration: int): Fields {
    AddObservation(h, duration, ObservationFields(duration, BOUNDS))
  }

  function AddObservation(h: Fields, duration: int, fields: seq<string>): Fields {
    var g := Bump(h, fields);
    var g' := g[SUM_FIELD := Get(g, SUM_FIELD) + duration];
    g'[COUNT_FIELD := Get(g', COUNT_FIELD) + 1]
  }

  // ----- The histogram from scratch -----

  function CountAtMost(durations: seq<int>, seconds: nat): nat {
    if durations == [] then 0
    else
      var n := |durations| - 1;
      CountAtMost(durations[..n], seconds) + if durations[n] <= seconds * SECOND then 1 else 0
  }

  // That is the number of places with a duration up to the bound.
  ghost function HowMany(durations: seq<int>, limit: int): nat {
    |set i: nat | i < |durations| && durations[i] <= limit|
  }

  lemma {:induction false} CountAtMostIsHowMany(durations: seq<int>, seconds: nat)
    ensures CountAtMost(durations, seconds) == HowMany(durations, seconds * SECOND)
  {
    var limit := seconds * SECOND;
    var all := set i: nat | i < |durations| && durations[i] <= limit;
    if durations == [] {
      assert all == {};
    } else {
      var n := |durations| - 1;
      CountAtMostIsHowMany(durations[..n], seconds);
      var front := set i: nat | i < n && durations[..n][i] <= limit;
      if durations[n] <= limit {
        assert all == front + {n};
      } else {
        assert all == front;
      }
    }
  }

  function Total(durations: seq<int>): int {
    if durations == [] then 0 else Total(durations[..|durations| - 1]) + durations[|durations| - 1]
  }

  // h is exactly the hash of the given durations: every bucket, the overflow bucket, the sum and
  // the count, and no field beyond those that were incremented.
  ghost predicate IsHistogramFor(h: Fields, durations: seq<int>, bounds: seq<nat>) {
    && (forall le :: le in bounds ==> Get(h, BucketField(Le(le))) == CountAtMost(durations, le))
    && Get(h, BucketField(PlusInf)) == |durations|
    && Get(h, SUM_FIELD) == Total(durations)
    && Get(h, COUNT_FIELD) == |durations|
    && h.Keys == KeysFor(durations, bounds)
  }

  ghost function KeysFor(durations: seq<int>, bounds: seq<nat>): set<string> {
    (set le | le in bounds && CountAtMost(durations, le) > 0 :: BucketField(Le(le)))
    + if durations == [] then {} else {BucketField(PlusInf), SUM_FIELD, COUNT_FIELD}
  }

  ghost predicate IsHistogramOf(h: Fields, durations: seq<int>) {
    IsHistogramFor(h, durations, BOUNDS)
  }

  // Only one hash is the histogram of a given list.
  lemma HistogramUnique(g: Fields, h: Fields, durations: seq<int>, bounds: seq<nat>)
    requires IsHistogramFor(g, durations, bounds) && IsHistogramFor(h, durations, bounds)
    ensures g == h
  {
    forall f | f in g ensures g[f] == h[f] {
      assert f in KeysFor(durations, bounds);
      assert Get(g, f) == Get(h, f);
    }
  }

  lemma EmptyHistogram()
    ensures IsHistogramOf(map[], [])
  {
  }

  ghost function Hits(fields: seq<string>, f: string): nat {
    multiset(fields)[f]
  }

  lemma {:induction false} BumpAdds(h: Fields, fields: seq<string>, f: string)
    ensures Get(Bump(h, fields), f) == Get(h, f) + Hits(fields, f)
    ensures f in Bump(h, fields) <==> f in h || f in fields
  {
    if fields != [] {
      var n := |fields| - 1;
      BumpAdds(h, fields[..n], f);
      BumpAdds(h, fields[..n], fields[n]);
      assert fields == fields[..n] + [fields[n]];
    }
  }

  lemma {:induction false} FiniteFieldsHitLast(duration: int, bounds: seq<nat>, f: string)
    requires bounds != []
    ensures var n := |bounds| - 1;
      Hits(FiniteFields(duration, bounds), f) == Hits(FiniteFields(duration, bounds[..n]), f)
        + if duration <= bounds[n] * SECOND && f == BucketField(Le(bounds[n])) then 1 else 0
  {
    hide BucketField;
  }

  lemma {:induction false} FiniteFieldsHit(duration: int, bounds: seq<nat>, b: Bound)
    requires forall i, j :: 0 <= i < j < |bounds| ==> bounds[i] != bounds[j]
    ensures Hits(FiniteFields(duration, bounds), BucketField(b)) ==
            if b.Le? && b.seconds in bounds && duration <= b.seconds * SECOND then 1 else 0
  {
    if bounds != [] {
      var n := |bounds| - 1;
      FiniteFieldsHit(duration, bounds[..n], b);
      assert bounds == bounds[..n] + [bounds[n]];
      FiniteFieldsHitLast(duration, bounds, BucketField(b));
      hide BucketField, FiniteFields;
      if BucketField(b) == BucketField(Le(bounds[n])) { BucketFieldInjective(b, Le(bounds[n])); }
    }
  }

  lemma {:induction false} FiniteFieldsAreBuckets(duration: int, bounds: seq<nat>, f: string)
    requires f in FiniteFields(duration, bounds)
    ensures exists le :: le in bounds && duration <= le * SECOND && f == BucketField(Le(le))
  {
    var n := |bounds| - 1;
    if f in FiniteFields(duration, bounds[..n]) { FiniteFieldsAreBuckets(duration, bounds[..n], f); }
  }

  lemma ObservationHits(duration: int, bounds: seq<nat>, b: Bound)
    requires forall i, j :: 0 <= i < j < |bounds| ==> bounds[i] != bounds[j]
    requires b.Le? ==> b.seconds in bounds
    ensures Hits(ObservationFields(duration, bounds), BucketField(b)) ==
            if b.Le? && duration > b.seconds * SECOND then 0 else 1
  {
    FiniteFieldsHit(duration, bounds, b);
    if BucketField(b) == BucketField(PlusInf) { BucketFieldInjective(b, PlusInf); }
  }

  lemma ObservationMissesTotals(duration: int, bounds: seq<nat>)
    ensures Hits(ObservationFields(duration, bounds), SUM_FIELD) == 0
    ensures Hits(ObservationFields(duration, bounds), COUNT_FIELD) == 0
  {
    BucketFieldNotTotal(PlusInf);
    var fields := FiniteFields(duration, bounds);
    forall f | f in fields ensures f != SUM_FIELD && f != COUNT_FIELD {
      FiniteFieldsAreBuckets(duration, bounds, f);
      var le :| le in bounds && f == BucketField(Le(le));
      BucketFieldNotTotal(Le(le));
    }
    assert SUM_FIELD !in fields && COUNT_FIELD !in fields;
  }

  // What one observation does to a bucket, and to the sum and the count, for any list of distinct bounds.

  lemma AddObservationBucket(h: Fields, d: int, bounds: seq<nat>, b: Bound)
    requires forall i, j :: 0 <= i < j < |bounds| ==> bounds[i] != bounds[j]
    requires b.Le? ==> b.seconds in bounds
    ensures Get(AddObservation(h, d, ObservationFields(d, bounds)), BucketField(b))
         == Get(h, BucketField(b)) + if b.Le? && d > b.seconds * SECOND then 0 else 1
  {
    ObservationHits(d, bounds, b);
    BucketFieldNotTotal(b);
    hide BucketField, ObservationFields, Hits, Bump;
    BumpAdds(h, ObservationFields(d, bounds), BucketField(b));
  }

  lemma AddObservationTotals(h: Fields, d: int, bounds: seq<nat>)
    ensures var g := AddObservation(h, d, ObservationFields(d, bounds));
      && Get(g, SUM_FIELD) == Get(h, SUM_FIELD) + d
      && Get(g, COUNT_FIELD) == Get(h, COUNT_FIELD) + 1
  {
    ObservationMissesTotals(d, bounds);
    hide ObservationFields, Hits, Bump;
    BumpAdds(h, ObservationFields(d, bounds), SUM_FIELD);
    BumpAdds(h, ObservationFields(d, bounds), COUNT_FIELD);
  }

  lemma AddObservationGet(h: Fields, d: int, bounds: seq<nat>)
    requires forall i, j :: 0 <= i < j < |bounds| ==> bounds[i] != bounds[j]
    ensures var g := AddObservation(h, d, ObservationFields(d, bounds));
      && (forall le :: le in bounds ==>
           Get(g, BucketField(Le(le))) == Get(h, BucketField(Le(le))) + if d <= le * SECOND then 1 else 0)
      && Get(g, BucketField(PlusInf)) == Get(h, BucketField(PlusInf)) + 1
      && Get(g, SUM_FIELD) == Get(h, SUM_FIELD) + d
      && Get(g, COUNT_FIELD) == Get(h, COUNT_FIELD) + 1
  {
    hide BucketField, ObservationFields, AddObservation, Get, SUM_FIELD, COUNT_FIELD;
    forall le | le in bounds
      ensures Get(AddObservation(h, d, ObservationFields(d, bounds)), BucketField(Le(le)))
           == Get(h, BucketField(Le(le))) + if d <= le * SECOND then 1 else 0
    {
      AddObservationBucket(h, d, bounds, Le(le));
    }
    AddObservationBucket(h, d, bounds, PlusInf);
    AddObservationTotals(h, d, bounds);
  }

  lemma AddObservationKeys(h: Fields, d: int, bounds: seq<nat>, f: string)
    requires forall i, j :: 0 <= i < j < |bounds| ==> bounds[i] != bounds[j]
    ensures f in AddObservation(h, d, ObservationFields(d, bounds)) <==>
            || f in h || f == BucketField(PlusInf) || f == SUM_FIELD || f == COUNT_FIELD
            || exists le :: le in bounds && d <= le * SECOND && f == BucketField(Le(le))
  {
    BumpAdds(h, ObservationFields(d, bounds), f);
    if f in FiniteFields(d, bounds) { FiniteFieldsAreBuckets(d, bounds, f); }
    forall le | le in bounds && d <= le * SECOND && f == BucketField(Le(le))
      ensures f in ObservationFields(d, bounds)
    {
      ObservationHits(d, bounds, Le(le));
    }
  }

  // The fields that one more duration adds.
  lemma KeysForOneMore(durations: seq<int>, d: int, bounds: seq<nat>, f: string)
    ensures f in KeysFor(durations + [d], bounds) <==>
            || f in KeysFor(durations, bounds) || f == BucketField(PlusInf) || f == SUM_FIELD || f == COUNT_FIELD
            || exists le :: le in bounds && d <= le * SECOND && f == BucketField(Le(le))
  {
    assert (durations + [d])[..|durations|] == durations;
    hide BucketField;
  }

  // The incremental histogram is the one computed from scratch.
  lemma AddObservationExtends(h: Fields, durations: seq<int>, d: int, bounds: seq<nat>)
    requires forall i, j :: 0 <= i < j < |bounds| ==> bounds[i] != bounds[j]
    requires IsHistogramFor(h, durations, bounds)
    ensures IsHistogramFor(AddObservation(h, d, ObservationFields(d, bounds)), durations + [d], bounds)
  {
    hide BucketField, ObservationFields, AddObservation, Get, SUM_FIELD, COUNT_FIELD, KeysFor;
    AddObservationGet(h, d, bounds);
    assert (durations + [d])[..|durations|] == durations;
    var g := AddObservation(h, d, ObservationFields(d, bounds));
    forall f ensures f in g.Keys <==> f in KeysFor(durations + [d], bounds) {
      AddObservationKeys(h, d, bounds, f);
      KeysForOneMore(durations, d, bounds, f);
    }
  }

  lemma ObserveExtends(h: Fields, durations: seq<int>, d: int)
    requires IsHistogramOf(h, durations)
    ensures IsHistogramOf(Observe(h, d), durations + [d])
  {
    AddObservationExtends(h, durations, d, BOUNDS);
  }

  // ----- What every histogram satisfies -----

  lemma {:induction false} CountMonotone(durations: seq<int>, a: nat, b: nat)
    requires a <= b
    ensures CountAtMost(durations, a) <= CountAtMost(durations, b) <= |durations|
  {
    if durations != [] { CountMonotone(durations[..|durations| - 1], a, b); }
  }

  // The cumulative counts by bucket, the overflow bucket last.
  function Counts(h: Fields, bounds: seq<nat>): (c: seq<int>)
    ensures |c| == |bounds| + 1
  {
    seq(|bounds| + 1, i requires 0 <= i <= |bounds| =>
      Get(h, BucketField(if i == |bounds| then PlusInf else Le(bounds[i]))))
  }

  // Observations in bucket i but in no lower one.
  function Increment(c: seq<int>, i: nat): int
    requires i < |c|
  {
    c[i] - if i == 0 then 0 else c[i - 1]
  }

  // The upper edge of bucket i in nanoseconds; i == -1 stands for zero.
  function Edge(bounds: seq<nat>, i: int): int
    requires -1 <= i < |bounds|
  {
    if i == -1 then 0 else bounds[i] * SECOND
  }

  // The least sum compatible with the first n buckets: each observation at its lower edge.
  function LowerSum(c: seq<int>, bounds: seq<nat>, n: nat): int
    requires |c| == |bounds| + 1 && n <= |bounds| + 1
  {
    if n == 0 then 0 else LowerSum(c, bounds, n - 1) + Increment(c, n - 1) * Edge(bounds, n - 2)
  }

  // The greatest sum compatible with the first n finite buckets: each observation at its upper edge.
  function UpperSum(c: seq<int>, bounds: seq<nat>, n: nat): int
    requires |c| == |bounds| + 1 && n <= |bounds|
  {
    if n == 0 then 0 else UpperSum(c, bounds, n - 1) + Increment(c, n - 1) * Edge(bounds, n - 1)
  }

  // Buckets never fall as the bound grows, the overflow bucket equals the count, and the sum lies
  // between what the buckets allow at least and (when nothing overflowed) at most.
  ghost predicate ConsistentFor(h: Fields, bounds: seq<nat>) {
    var c := Counts(h, bounds);
    && c[|bounds|] == Get(h, COUNT_FIELD)
    && (forall i :: 0 <= i <= |bounds| ==> Increment(c, i) >= 0)
    && LowerSum(c, bounds, |bounds| + 1) <= Get(h, SUM_FIELD)
    && (Increment(c, |bounds|) == 0 ==> Get(h, SUM_FIELD) <= UpperSum(c, bounds, |bounds|))
  }

  ghost predicate Consistent(h: Fields) {
    ConsistentFor(h, BOUNDS)
  }

  ghost predicate Increasing(bounds: seq<nat>) {
    forall i, j :: 0 <= i < j < |bounds| ==> bounds[i] < bounds[j]
  }

  // The cumulative counts computed from the durations.
  ghost function CountsOf(durations: seq<int>, bounds: seq<nat>): (c: seq<int>)
    ensures |c| == |bounds| + 1
  {
    seq(|bounds| + 1, i requires 0 <= i <= |bounds| =>
      if i == |bounds| then |durations| else CountAtMost(durations, bounds[i]))
  }

  // 1 when d is counted in bucket i, else 0; i == -1 stands below every bucket.
  ghost function Falls(d: int, bounds: seq<nat>, i: int): int
    requires -1 <= i <= |bounds|
  {
    if i == -1 then 0 else if i == |bounds| then 1 else if d <= bounds[i] * SECOND then 1 else 0
  }

  lemma IncrementStep(durations: seq<int>, d: int, bounds: seq<nat>, i: nat)
    requires i <= |bounds|
    ensures Increment(CountsOf(durations + [d], bounds), i) ==
            Increment(CountsOf(durations, bounds), i) + (Falls(d, bounds, i) - Falls(d, bounds, i - 1))
  {
    assert (durations + [d])[..|durations|] == durations;
  }

  lemma Distribute(x: int, y: int, e: int)
    ensures (x + y) * e == x * e + y * e
  {
  }

  // One more duration d raises the lower sum by at most d, and by nothing before its bucket.
  lemma {:induction false} LowerStep(durations: seq<int>, d: int, bounds: seq<nat>, n: nat)
    requires Increasing(bounds) && n <= |bounds| + 1 && d > 0
    ensures var gain := LowerSum(CountsOf(durations + [d], bounds), bounds, n)
                      - LowerSum(CountsOf(durations, bounds), bounds, n);
      0 <= gain <= if n > 0 && Falls(d, bounds, n - 1) == 1 then d else 0
  {
    if n > 0 {
      hide CountsOf;
      LowerStep(durations, d, bounds, n - 1);
      IncrementStep(durations, d, bounds, n - 1);
      Distribute(Increment(CountsOf(durations, bounds), n - 1),
                 Falls(d, bounds, n - 1) - Falls(d, bounds, n - 2), Edge(bounds, n - 2));
    }
  }

  // One more duration d raises the upper sum by at least d once its bucket is included.
  lemma {:induction false} UpperStep(durations: seq<int>, d: int, bounds: seq<nat>, n: nat)
    requires Increasing(bounds) && n <= |bounds| && d > 0
    ensures UpperSum(CountsOf(durations + [d], bounds), bounds, n) - UpperSum(CountsOf(durations, bounds), bounds, n)
         >= if n > 0 && Falls(d, bounds, n - 1) == 1 then d else 0
  {
    if n > 0 {
      hide CountsOf;
      UpperStep(durations, d, bounds, n - 1);
      IncrementStep(durations, d, bounds, n - 1);
      Distribute(Increment(CountsOf(durations, bounds), n - 1),
                 Falls(d, bounds, n - 1) - Falls(d, bounds, n - 2), Edge(bounds, n - 1));
    }
  }

  lemma {:induction false} EmptySums(bounds: seq<nat>, n: nat)
    requires n <= |bounds| + 1
    ensures LowerSum(CountsOf([], bounds), bounds, n) == 0
    ensures n <= |bounds| ==> UpperSum(CountsOf([], bounds), bounds, n) == 0
  {
    if n > 0 {
      EmptySums(bounds, n - 1);
      assert Increment(CountsOf([], bounds), n - 1) == 0;
    }
  }

  lemma {:induction false} SumBetweenEdges(durations: seq<int>, bounds: seq<nat>)
    requires Increasing(bounds) && bounds != []
    requires forall d :: d in durations ==> d > 0
    ensures LowerSum(CountsOf(durations, bounds), bounds, |bounds| + 1) <= Total(durations)
    ensures CountAtMost(durations, bounds[|bounds| - 1]) == |durations| ==>
              Total(durations) <= UpperSum(CountsOf(durations, bounds), bounds, |bounds|)
  {
    if durations == [] {
      EmptySums(bounds, |bounds| + 1);
      EmptySums(bounds, |bounds|);
    } else {
      var n := |durations| - 1;
      var rest, d := durations[..n], durations[n];
      assert durations == rest + [d];
      assert d in durations && forall x :: x in rest ==> x in durations;
      SumBetweenEdges(rest, bounds);
      LowerStep(rest, d, bounds, |bounds| + 1);
      UpperStep(rest, d, bounds, |bounds|);
      CountMonotone(rest, bounds[|bounds| - 1], bounds[|bounds| - 1]);
    }
  }

  lemma CountsAgree(h: Fields, durations: seq<int>, bounds: seq<nat>)
    requires IsHistogramFor(h, durations, bounds)
    ensures Counts(h, bounds) == CountsOf(durations, bounds)
  {
    hide CountAtMost, KeysFor, BucketField;
    forall i: nat | i < |bounds| ensures Counts(h, bounds)[i] == CountsOf(durations, bounds)[i] {
      assert bounds[i] in bounds;
    }
  }

  lemma IncrementsNotNegative(durations: seq<int>, bounds: seq<nat>, i: nat)
    requires Increasing(bounds) && bounds != [] && i <= |bounds|
    ensures Increment(CountsOf(durations, bounds), i) >= 0
  {
    if i == |bounds| {
      CountMonotone(durations, bounds[i - 1], bounds[i - 1]);
    } else if i > 0 {
      CountMonotone(durations, bounds[i - 1], bounds[i]);
    }
  }

  lemma SumWithin(durations: seq<int>, bounds: seq<nat>)
    requires Increasing(bounds) && bounds != []
    requires forall d :: d in durations ==> d > 0
    ensures var c := CountsOf(durations, bounds);
      && LowerSum(c, bounds, |bounds| + 1) <= Total(durations)
      && (Increment(c, |bounds|) == 0 ==> Total(durations) <= UpperSum(c, bounds, |bounds|))
  {
    SumBetweenEdges(durations, bounds);
    hide CountAtMost, LowerSum, UpperSum, Total;
  }

  lemma HistogramForIsConsistent(h: Fields, durations: seq<int>, bounds: seq<nat>)
    requires Increasing(bounds) && bounds != []
    requires IsHistogramFor(h, durations, bounds)
    requires forall d :: d in durations ==> d > 0
    ensures ConsistentFor(h, bounds)
  {
    hide CountAtMost, KeysFor, BucketField, LowerSum, UpperSum, Increment, Total;
    CountsAgree(h, durations, bounds);
    SumWithin(durations, bounds);
    forall i: nat | i <= |bounds| ensures Increment(CountsOf(durations, bounds), i) >= 0 {
      IncrementsNotNegative(durations, bounds, i);
    }
    assert Counts(h, bounds)[|bounds|] == |durations| by {
      assert CountsOf(durations, bounds)[|bounds|] == |durations|;
    }
    hide Counts, CountsOf;
  }

  lemma HistogramIsConsistent(h: Fields, durations: seq<int>)
    requires IsHistogramOf(h, durations)
    requires forall d :: d in durations ==> d > 0
    ensures Consistent(h)
  {
    HistogramForIsConsistent(h, durations, BOUNDS);
  }

  // An observation never lowers a counter nor drops a field.
  lemma ObserveGrows(h: Fields, d: int, f: string)
    ensures f in h ==> f in Observe(h, d)
    ensures d > 0 ==> Get(h, f) <= Get(Observe(h, d), f)
    ensures Observe(h, d) != map[]
  {
    BumpAdds(h, ObservationFields(d, BOUNDS), f);
    assert COUNT_FIELD in Observe(h, d);
  }

  // ----- The order of the observations does not matter -----

  lemma {:induction false} TakeOut(durations: seq<int>, i: nat, seconds: nat)
    requires i < |durations|
    ensures var rest := durations[..i] + durations[i + 1..];
      && Total(durations) == Total(rest) + durations[i]
      && CountAtMost(durations, seconds) ==
           CountAtMost(rest, seconds) + if durations[i] <= seconds * SECOND then 1 else 0
  {
    var n := |durations| - 1;
    var rest := durations[..i] + durations[i + 1..];
    if i == n {
      assert rest == durations[..n];
    } else {
      TakeOut(durations[..n], i, seconds);
      assert rest[..n - 1] == durations[..n][..i] + durations[..n][i + 1..];
      assert rest[n - 1] == durations[n];
    }
  }

  lemma {:induction false} OrderIrrelevant(a: seq<int>, b: seq<int>, seconds: nat)
    requires multiset(a) == multiset(b)
    ensures |a| == |b| && Total(a) == Total(b) && CountAtMost(a, seconds) == CountAtMost(b, seconds)
  {
    if a == [] {
      assert |multiset(b)| == 0;
    } else {
      var n := |a| - 1;
      assert a == a[..n] + [a[n]];
      var i := RemoveOne(b, a[n]);
      TakeOut(b, i, seconds);
      OrderIrrelevant(a[..n], b[..i] + b[i + 1..], seconds);
    }
  }

  // Two histograms of the same durations, observed in any two orders, are the same hash.
  lemma HistogramOrderIrrelevant(g: Fields, h: Fields, a: seq<int>, b: seq<int>)
    requires IsHistogramOf(g, a) && IsHistogramOf(h, b)
    requires multiset(a) == multiset(b)
    ensures g == h
  {
    forall le: nat ensures |a| == |b| && Total(a) == Total(b) && CountAtMost(a, le) == CountAtMost(b, le) {
      OrderIrrelevant(a, b, le);
    }
    OrderIrrelevant(a, b, 0);
    assert KeysFor(a, BOUNDS) == KeysFor(b, BOUNDS);
    HistogramUnique(g, h, a, BOUNDS);
  }
}
