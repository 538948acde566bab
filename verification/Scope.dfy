// The label tuple of a remediation series as one string, and the keys built from it.
module Scope {
  import opened GoStrings

  // The unit separator.
  const SEP: char := '\U{001F}'

  datatype Labels = Labels(provider: string, repo: string, category: string, resolution: string, severity: string)
  {
    function Fields(): (fields: seq<string>)
      ensures |fields| == 5
    {
      [provider, repo, category, resolution, severity]
    }

    // No field holds the separator.
    predicate Clean() {
      forall i :: 0 <= i < 5 ==> SEP !in Fields()[i]
    }
  }

  function RemediationScope(l: Labels): string {
    Join(l.Fields(), SEP)
  }

  function ParseRemediationScope(scope: string): Option<Labels> {
    var parts := Split(scope, SEP);
    if |parts| != 5 then None else Some(Labels(parts[0], parts[1], parts[2], parts[3], parts[4]))
  }

  // The text of a scope.
  lemma ScopeText(l: Labels)
    ensures var sep := [SEP];
      RemediationScope(l) ==
      l.provider + sep + l.repo + sep + l.category + sep + l.resolution + sep + l.severity
  {
    var fs := l.Fields();
    assert Join(fs[4..], SEP) == fs[4];
    assert Join(fs[3..], SEP) == fs[3] + [SEP] + Join(fs[4..], SEP);
    assert Join(fs[2..], SEP) == fs[2] + [SEP] + Join(fs[3..], SEP);
    assert Join(fs[1..], SEP) == fs[1] + [SEP] + Join(fs[2..], SEP);
    hide Join;
  }

  lemma {:induction false} SplitLength(s: string, sep: char)
    ensures |Split(s, sep)| == 1 + multiset(s)[sep]
  {
    if s != [] {
      SplitLength(s[1..], sep);
      assert s == [s[0]] + s[1..];
    }
  }

  lemma {:induction false} JoinSeparators(parts: seq<string>, sep: char, i: nat)
    requires i < |parts|
    ensures multiset(Join(parts, sep))[sep] >= |parts| - 1 + multiset(parts[i])[sep]
  {
    if |parts| > 1 {
      JoinSeparators(parts[1..], sep, if i == 0 then 0 else i - 1);
    }
  }

  // Encoding then parsing gives the labels back exactly when no field holds the separator;
  // otherwise the scope does not parse at all.
  lemma ParseEncodedScope(l: Labels)
    ensures ParseRemediationScope(RemediationScope(l)) == if l.Clean() then Some(l) else None
  {
    if l.Clean() {
      SplitJoin(l.Fields(), SEP);
    } else {
      var i :| 0 <= i < 5 && SEP in l.Fields()[i];
      JoinSeparators(l.Fields(), SEP, i);
      SplitLength(RemediationScope(l), SEP);
    }
  }

  // A severity that is itself the separator is recorded under a scope that nobody can read.
  lemma SeparatorIsUnreadable()
    ensures ParseRemediationScope(RemediationScope(Labels("github", "a", "b", "c", [SEP]))) == None
  {
    ParseEncodedScope(Labels("github", "a", "b", "c", [SEP]));
    assert SEP in Labels("github", "a", "b", "c", [SEP]).Fields()[4];
  }

  // Parsing then encoding gives the string back, for every string that parses.
  lemma EncodeParsedScope(scope: string)
    requires ParseRemediationScope(scope).Some?
    ensures RemediationScope(ParseRemediationScope(scope).value) == scope
    ensures ParseRemediationScope(scope).value.Clean()
  {
    var parts := Split(scope, SEP);
    var l := ParseRemediationScope(scope).value;
    assert l.Fields() == parts;
    JoinSplit(scope, SEP);
    forall i: nat | i < 5 ensures SEP !in l.Fields()[i] { SplitPiecesClean(scope, SEP, i); }
  }

  // Different clean label tuples never share a scope, hence never share a histogram.
  lemma ScopeInjective(l: Labels, m: Labels)
    requires l.Clean() && m.Clean() && RemediationScope(l) == RemediationScope(m)
    ensures l == m
  {
    ParseEncodedScope(l);
    ParseEncodedScope(m);
  }

  // ----- Keys -----

  function CountedKey(scope: string): string { "counted:" + scope }

  function HistKey(scope: string): string { "hist:" + scope }

  const HIST_INDEX_KEY := "histkeys"

  function ScopeOfHistKey(key: string): string
    requires |key| >= 5
  {
    key[|"hist:"|..]
  }

  // The three families of keys never meet, whatever the scopes are, and the scope is read back
  // from a key.
  lemma KeysNeverCollide(s: string, t: string)
    ensures CountedKey(s) != HistKey(t)
    ensures CountedKey(s) != HIST_INDEX_KEY && HistKey(s) != HIST_INDEX_KEY
    ensures CountedKey(s) == CountedKey(t) <==> s == t
    ensures HistKey(s) == HistKey(t) <==> s == t
    ensures ScopeOfHistKey(HistKey(s)) == s
  {
    assert CountedKey(s)[0] == 'c' && HistKey(t)[0] == 'h' && HistKey(s)[4] == ':';
    assert CountedKey(s)[8..] == s && CountedKey(t)[8..] == t;
    assert HistKey(s)[5..] == s && HistKey(t)[5..] == t;
  }
}
