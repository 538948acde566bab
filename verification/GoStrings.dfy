// Strings as the Go code uses them: ordering, Split/Join on one separator character, decimal
// integers, and the sort of the standard library (known only through what it guarantees).
module GoStrings {

  datatype Option<+T> = None | Some(value: T)

  // ----- Ordering -----

  // a < b in Go's lexicographic order on strings.
  predicate Less(a: string, b: string) {
    b != [] && (a == [] || a[0] < b[0] || (a[0] == b[0] && Less(a[1..], b[1..])))
  }

  // The first k characters agree, and then a ends or has the smaller character.
  ghost predicate Before(a: string, b: string, k: nat) {
    k <= |a| && k < |b| && a[..k] == b[..k] && (k == |a| || a[k] < b[k])
  }

  lemma BeforeTail(a: string, b: string, k: nat)
    requires a != [] && b != [] && a[0] == b[0]
    ensures Before(a, b, k + 1) <==> Before(a[1..], b[1..], k)
  {
    if k < |a| && k + 1 < |b| {
      assert a[..k + 1] == [a[0]] + a[1..][..k] && b[..k + 1] == [b[0]] + b[1..][..k];
      assert a[1..][..k] == a[..k + 1][1..] && b[1..][..k] == b[..k + 1][1..];
    }
  }

  lemma BeforeAtOnce(a: string, b: string)
    ensures Before(a, b, 0) <==> b != [] && (a == [] || a[0] < b[0])
    ensures a == [] || b == [] || a[0] != b[0] ==> forall k: nat :: k > 0 ==> !Before(a, b, k)
  {
    forall k: nat | k > 0 && Before(a, b, k) ensures a != [] && b != [] && a[0] == b[0] {
      assert a[..k][0] == b[..k][0];
    }
  }

  lemma {:induction false} LessIs(a: string, b: string)
    ensures Less(a, b) <==> exists k: nat :: Before(a, b, k)
  {
    BeforeAtOnce(a, b);
    hide Before;
    if a != [] && b != [] && a[0] == b[0] {
      LessIs(a[1..], b[1..]);
      if k: nat :| Before(a[1..], b[1..], k) {
        BeforeTail(a, b, k);
      }
      if k: nat :| Before(a, b, k) {
        BeforeTail(a, b, k - 1);
      }
    }
  }

  lemma LessIrreflexive(a: string)
    ensures !Less(a, a)
  {
    if a != [] { LessIrreflexive(a[1..]); }
  }

  lemma {:induction false} LessTransitive(a: string, b: string, c: string)
    requires Less(a, b) && Less(b, c)
    ensures Less(a, c)
  {
    if a != [] && a[0] == b[0] && b[0] == c[0] { LessTransitive(a[1..], b[1..], c[1..]); }
  }

  lemma {:induction false} LessTotal(a: string, b: string)
    ensures Less(a, b) || a == b || Less(b, a)
  {
    if a != [] && b != [] && a[0] == b[0] {
      LessTotal(a[1..], b[1..]);
      assert a == [a[0]] + a[1..] && b == [b[0]] + b[1..];
    }
  }

  ghost predicate StrictlySorted(s: seq<string>) {
    forall i, j :: 0 <= i < j < |s| ==> Less(s[i], s[j])
  }

  // A strictly sorted list is fixed by the set of its elements, so sorting map keys yields the
  // same list whatever order the map was iterated in.
  lemma {:induction false} StrictlySortedUnique(a: seq<string>, b: seq<string>)
    requires StrictlySorted(a) && StrictlySorted(b)
    requires forall x :: x in a <==> x in b
    ensures a == b
  {
    assert b != [] ==> b[0] in a;
    assert a != [] ==> a[0] in b;
    if a != [] {
      FirstIsLeast(a, b[0]);
      FirstIsLeast(b, a[0]);
      if a[0] != b[0] {
        LessTransitive(a[0], b[0], a[0]);
        LessIrreflexive(a[0]);
      }
      LessIrreflexive(a[0]);
      forall x ensures x in a[1..] <==> x in b[1..] {
        assert x in a <==> x == a[0] || x in a[1..];
        assert x in b <==> x == b[0] || x in b[1..];
      }
      StrictlySortedUnique(a[1..], b[1..]);
    }
  }

  lemma FirstIsLeast(a: seq<string>, x: string)
    requires StrictlySorted(a) && x in a
    ensures x == a[0] || Less(a[0], x)
  {
  }

  // ----- slices.Sort and slices.SortFunc -----

  ghost predicate StrictWeakOrder<T(!new)>(less: (T, T) -> bool) {
    && (forall a :: !less(a, a))
    && (forall a, b, c :: less(a, b) && less(b, c) ==> less(a, c))
    && (forall a, b, c :: less(a, c) ==> less(a, b) || less(b, c))
  }

  ghost predicate SortedBy<T>(less: (T, T) -> bool, s: seq<T>) {
    forall i, j :: 0 <= i < j < |s| ==> !less(s[j], s[i])
  }

  // The library sort. Callers may rely on the contract only: sorted, and the same elements. The
  // order of elements that compare equal is not part of it.
  method SortFunc<T(!new)>(s: seq<T>, less: (T, T) -> bool) returns (r: seq<T>)
    requires StrictWeakOrder(less)
    ensures multiset(r) == multiset(s)
    ensures SortedBy(less, r)
  {
    r := [];
    assert SortedBy(less, r);
    hide StrictWeakOrder, SortedBy;
    for i := 0 to |s|
      invariant multiset(r) == multiset(s[..i])
      invariant SortedBy(less, r)
    {
      var k := |r|;
      while k > 0 && less(s[i], r[k - 1])
        invariant 0 <= k <= |r|
        invariant forall j :: k <= j < |r| ==> less(s[i], r[j])
      {
        k := k - 1;
      }
      InsertKeepsOrder(less, r, k, s[i]);
      InsertAddsOne(r, k, s[i]);
      assert s[..i + 1] == s[..i] + [s[i]];
      r := r[..k] + [s[i]] + r[k..];
    }
    assert s[..|s|] == s;
  }

  lemma InsertAddsOne<T>(r: seq<T>, k: nat, x: T)
    requires k <= |r|
    ensures multiset(r[..k] + [x] + r[k..]) == multiset(r) + multiset{x}
  {
    assert r == r[..k] + r[k..];
  }

  lemma InsertKeepsOrder<T(!new)>(less: (T, T) -> bool, r: seq<T>, k: nat, x: T)
    requires StrictWeakOrder(less) && SortedBy(less, r) && k <= |r|
    requires forall j :: k <= j < |r| ==> less(x, r[j])
    requires k > 0 ==> !less(x, r[k - 1])
    ensures SortedBy(less, r[..k] + [x] + r[k..])
  {
    forall j | 0 <= j < k ensures !less(x, r[j]) {
      var y, last := r[j], r[k - 1];
      assert less(x, y) ==> less(x, last) || less(last, y);
    }
    forall j | k <= j < |r| ensures !less(r[j], x) {
      assert less(r[j], x) ==> less(x, x);
    }
  }

  lemma LessIsStrictWeakOrder()
    ensures StrictWeakOrder(Less)
  {
    forall a ensures !Less(a, a) { LessIrreflexive(a); }
    forall a, b, c | Less(a, b) && Less(b, c) ensures Less(a, c) { LessTransitive(a, b, c); }
    forall a, b, c | Less(a, c) ensures Less(a, b) || Less(b, c) {
      LessTotal(a, b);
      if Less(b, a) { LessTransitive(b, a, c); }
    }
  }

  // Sorting distinct strings gives a strictly sorted list.
  lemma SortedDistinctIsStrict(s: seq<string>)
    requires SortedBy(Less, s)
    requires forall i, j :: 0 <= i < j < |s| ==> s[i] != s[j]
    ensures StrictlySorted(s)
  {
    forall i, j | 0 <= i < j < |s| ensures Less(s[i], s[j]) { LessTotal(s[i], s[j]); }
  }

  lemma RepeatedElement<T>(s: seq<T>, i: int, j: int)
    requires 0 <= i < j < |s| && s[i] == s[j]
    ensures multiset(s)[s[i]] >= 2
  {
    assert s == s[..j] + [s[j]] + s[j + 1..];
    assert s[i] in s[..j];
  }

  // An element taken out of a list, at some position.
  lemma RemoveOne<T>(b: seq<T>, x: T) returns (i: nat)
    requires x in multiset(b)
    ensures i < |b| && b[i] == x
    ensures b == b[..i] + [x] + b[i + 1..]
    ensures multiset(b[..i] + b[i + 1..]) == multiset(b) - multiset{x}
  {
    i :| i < |b| && b[i] == x;
    assert b == b[..i] + [x] + b[i + 1..];
  }

  // The keys of a map, appended in arbitrary iteration order and then sorted.
  method SortedKeys<V>(m: map<string, V>) returns (keys: seq<string>)
    ensures StrictlySorted(keys)
    ensures forall k :: k in keys <==> k in m
    ensures |keys| == |m|
  {
    var unsorted := [];
    var todo := m.Keys;
    while todo != {}
      invariant todo <= m.Keys
      invariant multiset(unsorted) == multiset(m.Keys - todo)
    {
      var k :| k in todo;
      unsorted := unsorted + [k];
      assert m.Keys - (todo - {k}) == (m.Keys - todo) + {k};
      todo := todo - {k};
    }
    assert m.Keys - todo == m.Keys;
    LessIsStrictWeakOrder();
    keys := SortFunc(unsorted, Less);
    SortedSetIsStrict(keys, m.Keys);
  }

  lemma SortedSetIsStrict(keys: seq<string>, all: set<string>)
    requires SortedBy(Less, keys) && multiset(keys) == multiset(all)
    ensures StrictlySorted(keys) && |keys| == |all|
    ensures forall k :: k in keys <==> k in all
  {
    forall i, j | 0 <= i < j < |keys| ensures keys[i] != keys[j] {
      if keys[i] == keys[j] { RepeatedElement(keys, i, j); }
    }
    SortedDistinctIsStrict(keys);
    forall k ensures k in keys <==> k in all { assert k in keys <==> k in multiset(keys); }
    assert |keys| == |multiset(keys)| == |multiset(all)| == |all|;
  }

  // ----- strings.Split and strings.Join with a one-character separator -----

  function Split(s: string, sep: char): (parts: seq<string>)
    ensures |parts| >= 1
  {
    if s == [] then [""]
    else
      var rest := Split(s[1..], sep);
      if s[0] == sep then [""] + rest else [[s[0]] + rest[0]] + rest[1..]
  }

  function Join(parts: seq<string>, sep: char): string {
    if parts == [] then "" else if |parts| == 1 then parts[0] else parts[0] + [sep] + Join(parts[1..], sep)
  }

  lemma JoinAfterEmpty(parts: seq<string>, sep: char)
    requires parts != []
    ensures Join([""] + parts, sep) == [sep] + Join(parts, sep)
  {
    assert ([""] + parts)[1..] == parts;
  }

  lemma JoinLongerFirst(parts: seq<string>, c: char, sep: char)
    requires parts != []
    ensures Join([[c] + parts[0]] + parts[1..], sep) == [c] + Join(parts, sep)
  {
    var longer := [[c] + parts[0]] + parts[1..];
    assert longer[1..] == parts[1..];
    if |parts| > 1 {
      assert [c] + parts[0] + [sep] + Join(parts[1..], sep) == [c] + (parts[0] + [sep] + Join(parts[1..], sep));
    }
  }

  lemma {:induction false} JoinSplit(s: string, sep: char)
    ensures Join(Split(s, sep), sep) == s
  {
    if s != [] {
      JoinSplit(s[1..], sep);
      hide Join;
      JoinAfterEmpty(Split(s[1..], sep), sep);
      JoinLongerFirst(Split(s[1..], sep), s[0], sep);
    }
  }

  // Pieces produced by Split never hold the separator.
  lemma {:induction false} SplitPiecesClean(s: string, sep: char, i: nat)
    requires i < |Split(s, sep)|
    ensures sep !in Split(s, sep)[i]
  {
    if s != [] {
      var rest := Split(s[1..], sep);
      if s[0] == sep {
        if i > 0 { SplitPiecesClean(s[1..], sep, i - 1); }
      } else {
        SplitPiecesClean(s[1..], sep, i);
      }
    }
  }

  lemma {:induction false} SplitPrefix(p: string, s: string, sep: char)
    requires sep !in p
    ensures Split(p + s, sep) == [p + Split(s, sep)[0]] + Split(s, sep)[1..]
  {
    if p == [] {
      assert p + s == s;
      assert p + Split(s, sep)[0] == Split(s, sep)[0];
    } else {
      assert (p + s)[1..] == p[1..] + s;
      SplitPrefix(p[1..], s, sep);
      var rest, whole := Split(s, sep), Split(p[1..] + s, sep);
      assert whole[0] == p[1..] + rest[0] && whole[1..] == rest[1..];
      assert [p[0]] + (p[1..] + rest[0]) == p + rest[0];
    }
  }

  lemma {:induction false} SplitJoin(parts: seq<string>, sep: char)
    requires |parts| >= 1 && forall i :: 0 <= i < |parts| ==> sep !in parts[i]
    ensures Split(Join(parts, sep), sep) == parts
  {
    if |parts| == 1 {
      SplitPrefix(parts[0], "", sep);
      assert parts[0] + "" == parts[0];
    } else {
      SplitJoin(parts[1..], sep);
      var tail := [sep] + Join(parts[1..], sep);
      assert tail[1..] == Join(parts[1..], sep);
      assert parts[0] + [sep] + Join(parts[1..], sep) == parts[0] + tail;
      SplitPrefix(parts[0], tail, sep);
      assert Split(tail, sep) == [""] + parts[1..];
      assert parts[0] + "" == parts[0];
    }
  }

  // ----- strconv.FormatInt and strconv.ParseInt, base 10, 64 bits -----

  const MIN_INT64: int := -0x8000_0000_0000_0000
  const MAX_INT64: int := 0x7fff_ffff_ffff_ffff

  predicate IsDigit(c: char) { '0' <= c <= '9' }

  function DigitChar(d: nat): (c: char)
    requires d < 10
    ensures IsDigit(c) && DigitValue(c) == d
  {
    '0' + d as char
  }

  function DigitValue(c: char): (d: nat)
    requires IsDigit(c)
    ensures d < 10
  {
    c as int - '0' as int
  }

  function FormatNat(n: nat): (s: string)
    ensures s != [] && forall i :: 0 <= i < |s| ==> IsDigit(s[i])
  {
    if n < 10 then [DigitChar(n)] else FormatNat(n / 10) + [DigitChar(n % 10)]
  }

  // The value of a string of digits, most significant first.
  function NatValue(s: string): nat
    requires forall i :: 0 <= i < |s| ==> IsDigit(s[i])
  {
    if s == [] then 0 else 10 * NatValue(s[..|s| - 1]) + DigitValue(s[|s| - 1])
  }

  lemma {:induction false} FormatNatValue(n: nat)
    ensures NatValue(FormatNat(n)) == n
  {
    if n >= 10 {
      FormatNatValue(n / 10);
      assert FormatNat(n)[..|FormatNat(n)| - 1] == FormatNat(n / 10);
    } else {
      assert FormatNat(n)[..0] == [];
    }
  }

  function FormatInt(n: int): string {
    if n < 0 then "-" + FormatNat(-n) else FormatNat(n)
  }

  // None stands for the syntax and range errors.
  function ParseInt(s: string): (r: Option<int>)
    ensures r.Some? ==> MIN_INT64 <= r.value <= MAX_INT64
  {
    var negative := s != [] && s[0] == '-';
    var digits := if s != [] && (s[0] == '-' || s[0] == '+') then s[1..] else s;
    if digits == [] || exists i :: 0 <= i < |digits| && !IsDigit(digits[i]) then None
    else
      var v: int := if negative then -(NatValue(digits) as int) else NatValue(digits);
      if MIN_INT64 <= v <= MAX_INT64 then Some(v) else None
  }

  lemma ParseDigits(digits: string, negative: bool)
    requires digits != [] && forall i :: 0 <= i < |digits| ==> IsDigit(digits[i])
    ensures var v: int := if negative then -(NatValue(digits) as int) else NatValue(digits);
      ParseInt(if negative then "-" + digits else digits) == if MIN_INT64 <= v <= MAX_INT64 then Some(v) else None
  {
    hide NatValue;
    assert IsDigit(digits[0]);
    assert ("-" + digits)[1..] == digits;
  }

  // Printing and parsing undo each other on every int64, and on nothing wider.
  lemma ParseFormatInt(n: int)
    ensures ParseInt(FormatInt(n)) == if MIN_INT64 <= n <= MAX_INT64 then Some(n) else None
  {
    hide ParseInt, FormatNat, NatValue;
    var m := if n < 0 then -n else n;
    FormatNatValue(m);
    ParseDigits(FormatNat(m), n < 0);
  }

  lemma FormatIntInjective(m: nat, n: nat)
    requires FormatInt(m) == FormatInt(n)
    ensures m == n
  {
    FormatNatValue(m);
    FormatNatValue(n);
  }
}
