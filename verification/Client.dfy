// The store client and the record pass as they run: objects updated in place, loops, and replies
// that may be lost. Each method is proved against the functions of Valkey, Protocol and Reader.
module Client {
  import opened GoStrings
  import opened Histogram
  import opened Scope
  import V = Valkey
  import opened Protocol
  import opened Reader

  class Server {
    var db: V.Db

    constructor (now: int)
      ensures db == Start(now)
    {
      db := Start(now);
    }

    ghost predicate Valid()
      reads this
    {
      V.WellTyped(db) && V.IndexListsHists(db)
    }

    method SAdd(key: string, member: string) returns (added: int)
      modifies this
      ensures db == V.SAdd(old(db), key, member)
      ensures added == if member in V.Members(old(db), key) then 0 else 1
    {
      added := if member in V.Members(db, key) then 0 else 1;
      db := V.SAdd(db, key, member);
    }

    method Expire(key: string, seconds: int)
      modifies this
      ensures db == V.Expire(old(db), key, seconds)
    {
      db := V.Expire(db, key, seconds);
    }

    method HIncrBy(key: string, field: string, n: int)
      modifies this
      ensures db == V.HIncrBy(old(db), key, field, n)
    {
      db := V.HIncrBy(db, key, field, n);
    }

    // recordScript: one atomic step. keys are the dedup set, the hash and the index.
    method EvalRecordScript(counted: string, hist: string, index: string, id: string, ttl: int, duration: int,
                            fields: seq<string>) returns (res: int)
      modifies this
      ensures res == 0 || res == 1
      ensures (db, res == 1) == V.RecordScript(old(db), counted, hist, index, id, ttl, duration, fields)
    {
      var added := SAdd(counted, id);
      Expire(counted, ttl);
      if added == 0 {
        return 0;
      }
      ghost var marked := db;
      for i := 0 to |fields|
        invariant db == V.HIncrEach(marked, hist, fields[..i])
      {
        HIncrBy(hist, fields[i], 1);
        assert fields[..i + 1][..i] == fields[..i];
      }
      assert fields[..|fields|] == fields;
      HIncrBy(hist, SUM_FIELD, duration);
      HIncrBy(hist, COUNT_FIELD, 1);
      var _ := SAdd(index, hist);
      return 1;
    }

    // Time, and calls of other Jobs, between two commands of a client.
    method Elsewhere(steps: seq<Step>)
      requires Valid()
      modifies this
      ensures Valid() && db == Run(old(db), steps)
    {
      RunWellTyped(db, steps);
      RunKeepsIndex(db, steps);
      db := Run(db, steps);
    }
  }

  class Client {
    const server: Server

    constructor (server: Server)
      ensures this.server == server
    {
      this.server := server;
    }

    // RecordIfNew, with what happened to the call on its way decided by delivery.
    method RecordIfNew(scope: string, id: string, duration: int, window: int, delivery: Delivery)
      returns (counted: bool, failed: bool)
      requires server.Valid()
      modifies server
      ensures server.Valid()
      ensures server.db == Next(old(server.db), Attempt(V.Call(scope, id, duration, window), delivery))
      ensures failed == (delivery != Delivered)
      ensures counted == (!failed && id !in V.Counted(old(server.db), scope))
    {
      var fields := [];
      for i := 0 to |BOUNDS|
        invariant server.db == old(server.db)
        invariant fields == FiniteFields(duration, BOUNDS[..i])
      {
        if duration <= BOUNDS[i] * SECOND {
          fields := fields + [BucketField(Le(BOUNDS[i]))];
        }
        NextBound(duration, i);
      }
      assert BOUNDS[..|BOUNDS|] == BOUNDS;
      fields := fields + [BucketField(PlusInf)];

      var call := V.Call(scope, id, duration, window);
      ghost var before := server.db;
      NextWellTyped(before, Attempt(call, delivery));
      NextKeepsIndex(before, Attempt(call, delivery));
      V.RecordEffect(before, call);
      if delivery == NotApplied {
        return false, true;
      }
      var res := server.EvalRecordScript(CountedKey(scope), HistKey(scope), HIST_INDEX_KEY,
                                         id, call.Ttl(), duration, fields);
      if delivery == ReplyLost {
        return false, true;
      }
      return res == 1, false;
    }

    // One HGETALL and its decoding: no series for an empty hash or a scope that does not parse.
    method Fetch(key: string) returns (series: seq<Series>)
      requires |key| >= 5
      ensures series == Emission(server.db, key)
    {
      hide SeriesOf, ParseRemediationScope, V.HGetAll;
      var fields := V.HGetAll(server.db, key);
      if fields == map[] {
        return [];
      }
      var labels := ParseRemediationScope(ScopeOfHistKey(key));
      if labels == None {
        return [];
      }
      var s := Decode(fields, labels.value);
      return [s];
    }

    // Remediation: list the index, then fetch each hash on its own. Before its k-th command the
    // reader is overtaken by the steps others(k); the k-th command fails when fails(k). None is the
    // error return; keys are the sorted keys that the first command listed.
    method Remediation(others: nat -> seq<Step>, fails: nat -> bool)
      returns (result: Option<seq<Series>>, ghost keys: seq<string>)
      requires server.Valid()
      modifies server
      ensures server.Valid()
      ensures KeysOfRead(old(server.db), others, keys)
      ensures forall k :: k in keys ==> |k| >= 5 && k == HistKey(ScopeOfHistKey(k))
      ensures result.Some? <==> forall k :: 0 <= k <= |keys| ==> !fails(k)
      ensures result.Some? ==> result.value == Emitted(old(server.db), others, keys, |keys|)
      ensures result.Some? ==> server.db == Seen(old(server.db), others, |keys|)
    {
      hide SeriesOf, ParseRemediationScope, Run, V.WellTyped, V.Members, Emission, HistKey, StrictlySorted;
      ghost var start := server.db;
      server.Elsewhere(others(0));
      var index := map k | k in V.Index(server.db) :: true;
      var listed := SortedKeys(index);
      keys := listed;
      if fails(0) {
        return None, keys;
      }
      var out := [];
      for i := 0 to |listed|
        invariant server.Valid() && server.db == Seen(start, others, i)
        invariant out == Emitted(start, others, listed, i)
        invariant forall k :: 0 <= k <= i ==> !fails(k)
      {
        server.Elsewhere(others(i + 1));
        if fails(i + 1) {
          return None, keys;
        }
        assert listed[i] in listed;
        var series := Fetch(listed[i]);
        out := out + series;
      }
      result := Some(out);
    }
  }

  // The series of one fetched hash.
  method Decode(fields: Fields, labels: Labels) returns (s: Series)
    ensures s == SeriesOf(fields, labels)
    ensures s.labels == labels && s.sum == Get(fields, "sum") && s.count == Get(fields, "count")
    ensures |s.buckets| == |BOUNDS| + 1 && s.buckets[|BOUNDS|] == Bucket(PlusInf, Get(fields, "le:+Inf"))
    ensures forall i :: 0 <= i < |BOUNDS| ==>
              s.buckets[i] == Bucket(Le(BOUNDS[i]), Get(fields, "le:" + FormatInt(BOUNDS[i])))
  {
    hide Get, FormatInt;
    var buckets := [];
    for b := 0 to |BOUNDS|
      invariant |buckets| == b
      invariant forall i :: 0 <= i < b ==> buckets[i] == Bucket(Le(BOUNDS[i]), Get(fields, BucketField(Le(BOUNDS[i]))))
    {
      buckets := buckets + [Bucket(Le(BOUNDS[b]), Get(fields, BucketField(Le(BOUNDS[b]))))];
    }
    buckets := buckets + [Bucket(PlusInf, Get(fields, BucketField(PlusInf)))];
    s := Series(labels, buckets, Get(fields, SUM_FIELD), Get(fields, COUNT_FIELD));
    assert s.buckets == SeriesOf(fields, labels).buckets;
  }

  lemma NextBound(duration: int, i: nat)
    requires i < |BOUNDS|
    ensures FiniteFields(duration, BOUNDS[..i + 1]) ==
            FiniteFields(duration, BOUNDS[..i]) +
            if duration <= BOUNDS[i] * SECOND then [BucketField(Le(BOUNDS[i]))] else []
  {
    assert BOUNDS[..i + 1][..i] == BOUNDS[..i];
    hide BucketField;
  }
}
