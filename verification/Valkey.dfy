// The Valkey server as far as the record script and the reader use it, and the client that runs
// them. Time and sums are whole nanoseconds.
module Valkey {
  import opened GoStrings
  import opened Histogram
  import opened Scope

  datatype Entry =
    | SetEntry(members: set<string>, deadline: Option<int>)
    | HashEntry(fields: Fields)

  datatype Db = Db(keys: map<string, Entry>, now: int)

  // A key with a time to live is gone once the clock has passed its deadline.
  predicate Live(db: Db, key: string) {
    key in db.keys &&
    (db.keys[key].SetEntry? && db.keys[key].deadline.Some? ==> db.now <= db.keys[key].deadline.value)
  }

  function Members(db: Db, key: string): set<string> {
    if Live(db, key) && db.keys[key].SetEntry? then db.keys[key].members else {}
  }

  function HGetAll(db: Db, key: string): Fields {
    if Live(db, key) && db.keys[key].HashEntry? then db.keys[key].fields else map[]
  }

  // ----- Commands -----

  function SAdd(db: Db, key: string, member: string): Db {
    var deadline := if Live(db, key) && db.keys[key].SetEntry? then db.keys[key].deadline else None;
    db.(keys := db.keys[key := SetEntry(Members(db, key) + {member}, deadline)])
  }

  // EXPIRE with a time to live that is not positive deletes the key.
  function Expire(db: Db, key: string, seconds: int): Db {
    if !Live(db, key) || db.keys[key].HashEntry? then db
    else if seconds <= 0 then db.(keys := db.keys - {key})
    else db.(keys := db.keys[key := db.keys[key].(deadline := Some(db.now + seconds * SECOND))])
  }

  function HIncrBy(db: Db, key: string, field: string, n: int): Db {
    var h := HGetAll(db, key);
    db.(keys := db.keys[key := HashEntry(h[field := Get(h, field) + n])])
  }

  function HIncrEach(db: Db, key: string, fields: seq<string>): Db {
    if fields == [] then db
    else HIncrBy(HIncrEach(db, key, fields[..|fields| - 1]), key, fields[|fields| - 1], 1)
  }

  // ----- The record call -----

  datatype Call = Call(scope: string, id: string, duration: int, window: int)
  {
    // int(window.Seconds()): whole seconds, the rest cut off.
    function Ttl(): int { if window >= 0 then window / SECOND else -(-window / SECOND) }
  }

  // recordScript, one atomic step of the server; the flag tells whether the finding was counted.
  function RecordScript(db: Db, counted: string, hist: string, index: string, id: string, ttl: int, duration: int,
                        fields: seq<string>): (Db, bool)
  {
    var added := id !in Members(db, counted);
    var marked := Expire(SAdd(db, counted, id), counted, ttl);
    if !added then (marked, false)
    else
      var bumped := HIncrEach(marked, hist, fields);
      var totals := HIncrBy(HIncrBy(bumped, hist, SUM_FIELD, duration), hist, COUNT_FIELD, 1);
      (SAdd(totals, index, hist), true)
  }

  function Record(db: Db, c: Call): (Db, bool) {
    RecordScript(db, CountedKey(c.scope), HistKey(c.scope), HIST_INDEX_KEY,
                 c.id, c.Ttl(), c.duration, ObservationFields(c.duration, BOUNDS))
  }

  // ----- What a state says about a scope -----

  function Counted(db: Db, scope: string): set<string> { Members(db, CountedKey(scope)) }

  function Hist(db: Db, scope: string): Fields { HGetAll(db, HistKey(scope)) }

  function Index(db: Db): set<string> { Members(db, HIST_INDEX_KEY) }

  // Each key family holds values of its own type, and only dedup sets ever expire.
  ghost predicate WellTyped(db: Db) {
    && (forall s :: CountedKey(s) in db.keys ==> db.keys[CountedKey(s)].SetEntry?)
    && (forall s :: HistKey(s) in db.keys ==> db.keys[HistKey(s)].HashEntry?)
    && (HIST_INDEX_KEY in db.keys ==>
          db.keys[HIST_INDEX_KEY].SetEntry? && db.keys[HIST_INDEX_KEY].deadline == None)
  }

  // The index lists histogram keys only.
  ghost predicate IndexListsHists(db: Db) {
    forall k :: k in Index(db) ==> |k| >= 5 && k == HistKey(ScopeOfHistKey(k))
  }

  lemma {:induction false} HIncrEachKeepsTime(db: Db, key: string, fields: seq<string>)
    ensures HIncrEach(db, key, fields).now == db.now
  {
    if fields != [] { HIncrEachKeepsTime(db, key, fields[..|fields| - 1]); }
  }

  lemma ScriptKeepsTime(db: Db, counted: string, hist: string, index: string, id: string, ttl: int, duration: int,
                        fields: seq<string>)
    ensures RecordScript(db, counted, hist, index, id, ttl, duration, fields).0.now == db.now
  {
    HIncrEachKeepsTime(Expire(SAdd(db, counted, id), counted, ttl), hist, fields);
  }

  function WithHash(db: Db, key: string, h: Fields): Db {
    db.(keys := db.keys[key := HashEntry(h)])
  }

  lemma HIncrByWithHash(db: Db, key: string, h: Fields, field: string, n: int)
    ensures HIncrBy(WithHash(db, key, h), key, field, n) == WithHash(db, key, h[field := Get(h, field) + n])
  {
    assert db.keys[key := HashEntry(h)][key := HashEntry(h[field := Get(h, field) + n])]
        == db.keys[key := HashEntry(h[field := Get(h, field) + n])];
  }

  lemma {:induction false} HIncrEachBumps(db: Db, key: string, fields: seq<string>)
    requires fields != []
    ensures HIncrEach(db, key, fields) == WithHash(db, key, Bump(HGetAll(db, key), fields))
  {
    var n := |fields| - 1;
    if n == 0 {
      assert HIncrEach(db, key, fields[..n]) == db && Bump(HGetAll(db, key), fields[..n]) == HGetAll(db, key);
    } else {
      HIncrEachBumps(db, key, fields[..n]);
      HIncrByWithHash(db, key, Bump(HGetAll(db, key), fields[..n]), fields[n], 1);
    }
  }

  // The database after a finding was counted, key by key.
  lemma ScriptShape(db: Db, counted: string, hist: string, index: string, id: string, ttl: int, duration: int,
                    fields: seq<string>)
    requires counted != hist && counted != index && hist != index && fields != []
    requires hist in db.keys ==> db.keys[hist].HashEntry?
    requires index in db.keys ==> db.keys[index].SetEntry? && db.keys[index].deadline == None
    requires id !in Members(db, counted)
    ensures RecordScript(db, counted, hist, index, id, ttl, duration, fields)
         == (SAdd(WithHash(Expire(SAdd(db, counted, id), counted, ttl), hist,
                           AddObservation(HGetAll(db, hist), duration, fields)), index, hist), true)
  {
    var marked := Expire(SAdd(db, counted, id), counted, ttl);
    assert HGetAll(marked, hist) == HGetAll(db, hist) by { MarkShape(db, counted, id, ttl); }
    hide AddObservation, HIncrEach, HIncrBy, Expire, SAdd, WithHash, HGetAll, Members;
    HashShape(marked, hist, duration, fields);
  }

  lemma HashShape(db: Db, hist: string, duration: int, fields: seq<string>)
    requires fields != []
    ensures HIncrBy(HIncrBy(HIncrEach(db, hist, fields), hist, SUM_FIELD, duration), hist, COUNT_FIELD, 1)
         == WithHash(db, hist, AddObservation(HGetAll(db, hist), duration, fields))
  {
    hide HIncrEach, HIncrBy, Bump, WithHash, HGetAll;
    var h := Bump(HGetAll(db, hist), fields);
    HIncrEachBumps(db, hist, fields);
    HIncrByWithHash(db, hist, h, SUM_FIELD, duration);
    HIncrByWithHash(db, hist, h[SUM_FIELD := Get(h, SUM_FIELD) + duration], COUNT_FIELD, 1);
  }

  // Every key the script leaves behind.
  ghost predicate ScriptPost(db: Db, db': Db, added: bool, counted: string, hist: string, index: string, id: string,
                             ttl: int, observed: Fields)
  {
    && db'.now == db.now
    && (forall k :: k != counted && k != hist && k != index ==>
          (k in db'.keys <==> k in db.keys) && (k in db.keys ==> db'.keys[k] == db.keys[k]))
    && (counted in db'.keys <==> ttl > 0)
    && (ttl > 0 ==> db'.keys[counted] == SetEntry(Members(db, counted) + {id}, Some(db.now + ttl * SECOND)))
    && (if added
        then && hist in db'.keys && db'.keys[hist] == HashEntry(observed)
             && index in db'.keys && db'.keys[index] == SetEntry(Members(db, index) + {hist}, None)
        else && (hist in db'.keys <==> hist in db.keys)
             && (hist in db.keys ==> db'.keys[hist] == db.keys[hist])
             && (index in db'.keys <==> index in db.keys)
             && (index in db.keys ==> db'.keys[index] == db.keys[index]))
  }

  lemma ScriptEffect(db: Db, counted: string, hist: string, index: string, id: string, ttl: int, duration: int,
                     fields: seq<string>)
    requires counted != hist && counted != index && hist != index && fields != []
    requires counted in db.keys ==> db.keys[counted].SetEntry?
    requires hist in db.keys ==> db.keys[hist].HashEntry?
    requires index in db.keys ==> db.keys[index].SetEntry? && db.keys[index].deadline == None
    ensures var (db', added) := RecordScript(db, counted, hist, index, id, ttl, duration, fields);
      && added == (id !in Members(db, counted))
      && ScriptPost(db, db', added, counted, hist, index, id, ttl, AddObservation(HGetAll(db, hist), duration, fields))
  {
    hide AddObservation, HIncrEach, HIncrBy, Expire, SAdd;
    MarkShape(db, counted, id, ttl);
    if id !in Members(db, counted) {
      ScriptShape(db, counted, hist, index, id, ttl, duration, fields);
      hide RecordScript;
      NewEffect(db, Expire(SAdd(db, counted, id), counted, ttl), counted, hist, index, id, ttl,
                AddObservation(HGetAll(db, hist), duration, fields));
    }
  }

  lemma NewEffect(db: Db, marked: Db, counted: string, hist: string, index: string, id: string, ttl: int,
                  observed: Fields)
    requires counted != hist && counted != index && hist != index
    requires index in db.keys ==> db.keys[index].SetEntry? && db.keys[index].deadline == None
    requires ScriptPost(db, marked, false, counted, hist, index, id, ttl, observed)
    ensures ScriptPost(db, SAdd(WithHash(marked, hist, observed), index, hist), true,
                       counted, hist, index, id, ttl, observed)
  {
    var written := WithHash(marked, hist, observed);
    assert Members(written, index) == Members(db, index);
  }

  // The dedup mark alone.
  lemma MarkShape(db: Db, counted: string, id: string, ttl: int)
    ensures var marked := Expire(SAdd(db, counted, id), counted, ttl);
      && marked.now == db.now
      && (forall k :: k != counted ==>
            (k in marked.keys <==> k in db.keys) && (k in db.keys ==> marked.keys[k] == db.keys[k]))
      && (counted in marked.keys <==> ttl > 0)
      && (ttl > 0 ==> marked.keys[counted] == SetEntry(Members(db, counted) + {id}, Some(db.now + ttl * SECOND)))
  {
    assert Live(SAdd(db, counted, id), counted);
  }

  // The same, scope by scope.
  ghost predicate ScopePost(db: Db, db': Db, added: bool, scope: string, id: string, ttl: int, observed: Fields) {
    && WellTyped(db') && db'.now == db.now
    && (forall s :: Hist(db', s) == if s == scope && added then observed else Hist(db, s))
    && (forall s :: Counted(db', s) ==
          if s != scope then Counted(db, s) else if ttl <= 0 then {} else Counted(db, s) + {id})
    && (forall s :: Deadline(db', s) ==
          if s != scope then Deadline(db, s) else if ttl <= 0 then None else Some(db.now + ttl * SECOND))
    && Index(db') == Index(db) + if added then {HistKey(scope)} else {}
  }

  // When the dedup set of a scope expires, if there is one.
  function Deadline(db: Db, scope: string): Option<int> {
    if CountedKey(scope) in db.keys && db.keys[CountedKey(scope)].SetEntry?
    then db.keys[CountedKey(scope)].deadline else None
  }

  lemma ScopesApart(db: Db, db': Db, added: bool, scope: string, id: string, ttl: int, observed: Fields)
    requires WellTyped(db)
    requires ScriptPost(db, db', added, CountedKey(scope), HistKey(scope), HIST_INDEX_KEY, id, ttl, observed)
    ensures ScopePost(db, db', added, scope, id, ttl, observed)
  {
    KeysApart();
    hide CountedKey, HistKey;
    ViewsApart(db, db', added, scope, id, ttl, observed);
  }

  lemma ViewsApart(db: Db, db': Db, added: bool, scope: string, id: string, ttl: int, observed: Fields)
    requires WellTyped(db)
    requires ScriptPost(db, db', added, CountedKey(scope), HistKey(scope), HIST_INDEX_KEY, id, ttl, observed)
    ensures forall s :: Hist(db', s) == if s == scope && added then observed else Hist(db, s)
    ensures forall s :: Counted(db', s) ==
              if s != scope then Counted(db, s) else if ttl <= 0 then {} else Counted(db, s) + {id}
    ensures Index(db') == Index(db) + if added then {HistKey(scope)} else {}
  {
    KeysApart();
    hide CountedKey, HistKey, WellTyped;
    assert ttl > 0 ==> Live(db', CountedKey(scope));
  }

  // All that one record call changes: the finding is counted exactly when its id is not in the
  // live dedup set; the set then holds the id until now + TTL, or is gone at once when the TTL is
  // not positive; only a counted finding touches its histogram and the index.
  lemma RecordEffect(db: Db, c: Call)
    requires WellTyped(db)
    ensures var (db', counted) := Record(db, c);
      && counted == (c.id !in Counted(db, c.scope))
      && ScopePost(db, db', counted, c.scope, c.id, c.Ttl(), Observe(Hist(db, c.scope), c.duration))
  {
    KeysNeverCollide(c.scope, c.scope);
    ScriptEffect(db, CountedKey(c.scope), HistKey(c.scope), HIST_INDEX_KEY,
                 c.id, c.Ttl(), c.duration, ObservationFields(c.duration, BOUNDS));
    var (db', counted) := Record(db, c);
    ScopesApart(db, db', counted, c.scope, c.id, c.Ttl(), Observe(Hist(db, c.scope), c.duration));
  }

  lemma KeysApart()
    ensures forall s, t :: CountedKey(s) != HistKey(t)
    ensures forall s :: CountedKey(s) != HIST_INDEX_KEY
    ensures forall s :: HistKey(s) != HIST_INDEX_KEY
    ensures forall s, t :: CountedKey(s) == CountedKey(t) ==> s == t
    ensures forall s, t :: HistKey(s) == HistKey(t) ==> s == t
  {
    forall s, t ensures CountedKey(s) != HistKey(t) { KeysNeverCollide(s, t); }
    forall s ensures CountedKey(s) != HIST_INDEX_KEY && HistKey(s) != HIST_INDEX_KEY { KeysNeverCollide(s, s); }
    forall s, t | CountedKey(s) == CountedKey(t) ensures s == t { KeysNeverCollide(s, t); }
    forall s, t | HistKey(s) == HistKey(t) ensures s == t { KeysNeverCollide(s, t); }
  }
}
