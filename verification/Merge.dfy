// mergeRepos of both providers: sources keyed by repository name, merged through a map of pointers and
// flattened into a sorted list.
module Merge {
  import opened GoStrings
  import opened Provider

  // A *RepoMetrics while it is being put together.
  class Repo {
    const name: string
    var openReviewItems: int
    var findings: seq<Finding>
    var posture: Option<Posture>

    constructor (name: string)
      ensures this.name == name && openReviewItems == 0 && findings == [] && posture == None
    {
      this.name, openReviewItems, findings, posture := name, 0, [], None;
    }
  }

  // What a Repo holds.
  datatype Entry = Entry(openReviewItems: int, findings: seq<Finding>, posture: Option<Posture>)

  const EMPTY_ENTRY := Entry(0, [], None)

  type Table = map<string, Entry>

  function Row(t: Table, name: string): Entry {
    if name in t then t[name] else EMPTY_ENTRY
  }

  // Each object is stored under its own name, so different names never share an object.
  ghost predicate Owned(byName: map<string, Repo>)
  {
    forall n :: n in byName ==> byName[n].name == n
  }

  ghost function View(byName: map<string, Repo>): Table
    reads set n | n in byName :: byName[n]
  {
    map n | n in byName :: Entry(byName[n].openReviewItems, byName[n].findings, byName[n].posture)
  }

  // The closure get: the object of a name, made on first use.
  method Get(byName: map<string, Repo>, name: string) returns (byName': map<string, Repo>, r: Repo)
    requires Owned(byName)
    ensures Owned(byName') && name in byName' && byName'[name] == r
    ensures byName'.Keys == byName.Keys + {name}
    ensures forall n :: n in byName ==> byName'[n] == byName[n]
    ensures name !in byName ==> fresh(r)
    ensures View(byName') == old(View(byName))[name := old(Row(View(byName), name))]
  {
    byName' := byName;
    if name !in byName {
      var repo := new Repo(name);
      byName' := byName'[name := repo];
    }
    r := byName'[name];
  }

  // ----- The sources -----

  datatype GraphqlRepo = GraphqlRepo(name: string, openPRs: int, findings: seq<Finding>, posture: Option<Posture>)

  function WithGraphql(t: Table, g: GraphqlRepo): Table {
    t[g.name := Entry(g.openPRs, Row(t, g.name).findings + g.findings, g.posture)]
  }

  function FromGraphql(repos: seq<GraphqlRepo>): Table {
    if repos == [] then map[] else WithGraphql(FromGraphql(repos[..|repos| - 1]), repos[|repos| - 1])
  }

  type FindingMap = map<string, seq<Finding>>

  // The entries of a finding map for the names in done appended, each to its own row.
  function WithFindings(t: Table, fm: FindingMap, done: set<string>): Table
    requires done <= fm.Keys
  {
    map n | n in t.Keys + done ::
      if n in done then Row(t, n).(findings := Row(t, n).findings + fm[n]) else Row(t, n)
  }

  function WithMaps(t: Table, maps: seq<FindingMap>): Table {
    if maps == [] then t
    else
      var m := maps[|maps| - 1];
      WithFindings(WithMaps(t, maps[..|maps| - 1]), m, m.Keys)
  }

  function GithubTable(repos: seq<GraphqlRepo>, maps: seq<FindingMap>): Table {
    WithMaps(FromGraphql(repos), maps)
  }

  // ----- The result -----

  // Go's comparison: by category, then by severity.
  predicate FindingLess(a: Finding, b: Finding) {
    Less(a.category, b.category) || (a.category == b.category && Less(a.severity, b.severity))
  }

  // out lists the rows of a table: names strictly ascending, each with its findings in order.
  ghost predicate IsListing(out: seq<RepoMetrics>, t: Table) {
    && (forall i, j :: 0 <= i < j < |out| ==> Less(out[i].name, out[j].name))
    && (forall n :: n in t <==> exists i :: 0 <= i < |out| && out[i].name == n)
    && (forall i :: 0 <= i < |out| ==> Lists(out[i], t))
  }

  ghost predicate Lists(r: RepoMetrics, t: Table) {
    && r.name in t && r.openReviewItems == t[r.name].openReviewItems && r.posture == t[r.name].posture
    && multiset(r.findings) == multiset(t[r.name].findings)
    && SortedBy(FindingLess, r.findings)
  }

  lemma FindingLessIsStrictWeakOrder()
    ensures StrictWeakOrder(FindingLess)
  {
    LessIsStrictWeakOrder();
    forall a, b | !Less(a, b) && !Less(b, a) ensures a == b { LessTotal(a, b); }
    hide Less;
  }

  // ----- mergeRepos -----

  method MergeGithub(gqlRepos: seq<GraphqlRepo>, findingMaps: seq<FindingMap>) returns (out: seq<RepoMetrics>)
    ensures IsListing(out, GithubTable(gqlRepos, findingMaps))
  {
    var byName: map<string, Repo> := map[];
    assert View(byName) == map[];
    hide Less, IsListing, WithFindings, WithGraphql, View;
    for i := 0 to |gqlRepos|
      invariant Owned(byName) && forall n :: n in byName ==> fresh(byName[n])
      invariant View(byName) == FromGraphql(gqlRepos[..i])
    {
      assert gqlRepos[..i + 1][..i] == gqlRepos[..i];
      byName := AddGraphql(byName, gqlRepos[i]);
    }
    assert gqlRepos[..|gqlRepos|] == gqlRepos;
    for m := 0 to |findingMaps|
      invariant Owned(byName) && forall n :: n in byName ==> fresh(byName[n])
      invariant View(byName) == WithMaps(FromGraphql(gqlRepos), findingMaps[..m])
    {
      assert findingMaps[..m + 1][..m] == findingMaps[..m];
      byName := AppendFindings(byName, findingMaps[m]);
    }
    assert findingMaps[..|findingMaps|] == findingMaps;
    out := List(byName);
  }

  // The body of the loop over the GraphQL repositories.
  method AddGraphql(byName: map<string, Repo>, g: GraphqlRepo) returns (byName': map<string, Repo>)
    requires Owned(byName)
    modifies set n | n in byName :: byName[n]
    ensures Owned(byName') && forall n :: n in byName' ==> fresh(byName'[n]) || (n in byName && byName'[n] == byName[n])
    ensures View(byName') == WithGraphql(old(View(byName)), g)
  {
    var r;
    byName', r := Get(byName, g.name);
    r.openReviewItems := g.openPRs;
    r.findings := r.findings + g.findings;
    r.posture := g.posture;
  }

  // The body of the loops over a finding map.
  method AppendTo(byName: map<string, Repo>, name: string, fs: seq<Finding>) returns (byName': map<string, Repo>)
    requires Owned(byName)
    modifies set n | n in byName :: byName[n]
    ensures Owned(byName') && forall n :: n in byName' ==> fresh(byName'[n]) || (n in byName && byName'[n] == byName[n])
    ensures var r := old(Row(View(byName), name));
            View(byName') == old(View(byName))[name := r.(findings := r.findings + fs)]
  {
    var r;
    byName', r := Get(byName, name);
    r.findings := r.findings + fs;
  }

  // One pass over a finding map, in whatever order it is iterated.
  method AppendFindings(byName: map<string, Repo>, fm: FindingMap) returns (byName': map<string, Repo>)
    requires Owned(byName)
    modifies set n | n in byName :: byName[n]
    ensures Owned(byName') && forall n :: n in byName' ==> fresh(byName'[n]) || (n in byName && byName'[n] == byName[n])
    ensures View(byName') == WithFindings(old(View(byName)), fm, fm.Keys)
  {
    byName' := byName;
    ghost var start := View(byName);
    var todo := fm.Keys;
    AppendNone(start, fm);
    hide WithFindings, View;
    assert fm.Keys - todo == {};
    while todo != {}
      invariant todo <= fm.Keys && Owned(byName')
      invariant forall n :: n in byName' ==> fresh(byName'[n]) || (n in byName && byName'[n] == byName[n])
      invariant View(byName') == WithFindings(start, fm, fm.Keys - todo)
    {
      var name :| name in todo;
      AppendOne(start, fm, fm.Keys - todo, name);
      assert fm.Keys - (todo - {name}) == fm.Keys - todo + {name};
      byName' := AppendTo(byName', name, fm[name]);
      todo := todo - {name};
    }
    assert fm.Keys - todo == fm.Keys;
  }

  lemma AppendNone(t: Table, fm: FindingMap)
    ensures WithFindings(t, fm, {}) == t
  {
  }

  lemma AppendOne(t: Table, fm: FindingMap, done: set<string>, name: string)
    requires done <= fm.Keys && name in fm && name !in done
    ensures var u := WithFindings(t, fm, done);
      WithFindings(t, fm, done + {name}) == u[name := Row(u, name).(findings := Row(u, name).findings + fm[name])]
  {
  }

  // The final loop: names in order, findings sorted in place.
  method List(byName: map<string, Repo>) returns (out: seq<RepoMetrics>)
    requires Owned(byName)
    modifies set n | n in byName :: byName[n]
    ensures IsListing(out, old(View(byName)))
  {
    hide Less, StrictlySorted, Lists, Owned, View, IsListing, Untouched;
    ghost var t := View(byName);
    ViewRows(byName);
    var names := SortedKeys(byName);
    out := [];
    for i := 0 to |names|
      invariant |out| == i && ListedSoFar(out, names, t)
      invariant forall k :: i <= k < |names| ==> Untouched(byName[names[k]], t[names[k]])
    {
      NamesDiffer(names, i);
      assert names[i] in names && forall k :: i < k < |names| ==> names[k] in names;
      var r := byName[names[i]];
      assert forall k :: i < k < |names| ==> byName[names[k]] != r;
      var m := ListOne(r, t, names[i]);
      hide ListedSoFar;
      ListedOneMore(out, names, t, m);
      out := out + [m];
    }
    ListingOf(out, names, t);
  }

  ghost predicate ListedSoFar(out: seq<RepoMetrics>, names: seq<string>, t: Table) {
    |out| <= |names| && forall k :: 0 <= k < |out| ==> out[k].name == names[k] && Lists(out[k], t)
  }

  lemma ListedOneMore(out: seq<RepoMetrics>, names: seq<string>, t: Table, m: RepoMetrics)
    requires |out| < |names| && ListedSoFar(out, names, t) && m.name == names[|out|] && Lists(m, t)
    ensures ListedSoFar(out + [m], names, t)
  {
    hide Lists;
  }

  lemma ViewRows(byName: map<string, Repo>)
    requires Owned(byName)
    ensures View(byName).Keys == byName.Keys
    ensures forall n :: n in byName ==> byName[n].name == n && Untouched(byName[n], View(byName)[n])
  {
  }

  // One row.
  method ListOne(r: Repo, ghost t: Table, name: string) returns (m: RepoMetrics)
    requires name in t && r.name == name && Untouched(r, t[name])
    modifies r`findings
    ensures m.name == name && Lists(m, t)
  {
    hide Less, SortedBy, FindingLess;
    SortFindings(r);
    m := RepoMetrics(r.name, r.openReviewItems, r.findings, r.posture, [], []);
  }

  ghost predicate Untouched(r: Repo, e: Entry)
    reads r
  {
    Entry(r.openReviewItems, r.findings, r.posture) == e
  }

  // sortFindings, in place.
  method SortFindings(r: Repo)
    modifies r`findings
    ensures multiset(r.findings) == multiset(old(r.findings)) && SortedBy(FindingLess, r.findings)
  {
    FindingLessIsStrictWeakOrder();
    hide Less, SortedBy, StrictWeakOrder;
    r.findings := SortFunc(r.findings, FindingLess);
  }

  lemma NamesDiffer(names: seq<string>, i: nat)
    requires StrictlySorted(names) && i < |names|
    ensures forall k :: i < k < |names| ==> names[k] != names[i]
  {
    LessIrreflexive(names[i]);
    hide Less;
  }

  lemma ListingOf(out: seq<RepoMetrics>, names: seq<string>, t: Table)
    requires StrictlySorted(names) && |out| == |names| && forall n :: n in names <==> n in t
    requires ListedSoFar(out, names, t)
    ensures IsListing(out, t)
  {
    hide Less, Lists;
    forall n ensures n in t <==> exists i :: 0 <= i < |out| && out[i].name == n {
      if n in t {
        var i :| 0 <= i < |names| && names[i] == n;
        assert out[i].name == n;
      }
    }
  }

  // ----- What the merge promises -----

  // All findings of the sources for one name.
  function Contributed(repos: seq<GraphqlRepo>, name: string): multiset<Finding> {
    if repos == [] then multiset{}
    else
      var n := |repos| - 1;
      Contributed(repos[..n], name) + if repos[n].name == name then multiset(repos[n].findings) else multiset{}
  }

  function FromFindingMaps(maps: seq<FindingMap>, name: string): multiset<Finding> {
    if maps == [] then multiset{}
    else
      var n := |maps| - 1;
      FromFindingMaps(maps[..n], name) + if name in maps[n] then multiset(maps[n][name]) else multiset{}
  }

  // The last repository listed under a name.
  function LastListed(repos: seq<GraphqlRepo>, name: string): Option<GraphqlRepo> {
    if repos == [] then None
    else
      var n := |repos| - 1;
      if repos[n].name == name then Some(repos[n]) else LastListed(repos[..n], name)
  }

  lemma {:induction false} GraphqlConserved(repos: seq<GraphqlRepo>, name: string)
    ensures multiset(Row(FromGraphql(repos), name).findings) == Contributed(repos, name)
    ensures var last := LastListed(repos, name);
      && Row(FromGraphql(repos), name).openReviewItems == (if last.Some? then last.value.openPRs else 0)
      && Row(FromGraphql(repos), name).posture == (if last.Some? then last.value.posture else None)
    ensures name in FromGraphql(repos) <==> exists i :: 0 <= i < |repos| && repos[i].name == name
  {
    if repos != [] {
      var n := |repos| - 1;
      GraphqlConserved(repos[..n], name);
      assert forall i :: 0 <= i < n ==> repos[..n][i] == repos[i];
      if name in FromGraphql(repos[..n]) {
        var i :| 0 <= i < n && repos[..n][i].name == name;
        assert repos[i].name == name;
      }
    }
  }

  lemma {:induction false} MapsConserved(t: Table, maps: seq<FindingMap>, name: string)
    ensures multiset(Row(WithMaps(t, maps), name).findings)
         == multiset(Row(t, name).findings) + FromFindingMaps(maps, name)
    ensures Row(WithMaps(t, maps), name).openReviewItems == Row(t, name).openReviewItems
    ensures Row(WithMaps(t, maps), name).posture == Row(t, name).posture
  {
    if maps != [] {
      var n := |maps| - 1;
      MapsConserved(t, maps[..n], name);
      RowWithFindings(WithMaps(t, maps[..n]), maps[n], name);
      hide WithFindings, Row;
    }
  }

  lemma {:induction false} MapNamesConserved(t: Table, maps: seq<FindingMap>, name: string)
    ensures name in WithMaps(t, maps) <==> name in t || exists m :: 0 <= m < |maps| && name in maps[m]
  {
    if maps != [] {
      var n := |maps| - 1;
      MapNamesConserved(t, maps[..n], name);
      RowWithFindings(WithMaps(t, maps[..n]), maps[n], name);
      hide WithFindings, Row;
      assert forall m :: 0 <= m < n ==> maps[..n][m] == maps[m];
    }
  }

  lemma RowWithFindings(t: Table, fm: FindingMap, name: string)
    ensures var r, u := Row(t, name), Row(WithFindings(t, fm, fm.Keys), name);
      && u == (if name in fm then r.(findings := r.findings + fm[name]) else r)
      && (name in WithFindings(t, fm, fm.Keys) <==> name in t || name in fm)
  {
  }

  // The names are exactly those of the sources; every finding of every source is there, under its
  // name, as often as the sources hold it; the findings are in order; and pull requests and posture
  // are those of the last repository listed under the name.
  lemma GithubMergeConserves(repos: seq<GraphqlRepo>, maps: seq<FindingMap>, out: seq<RepoMetrics>, name: string)
    requires IsListing(out, GithubTable(repos, maps))
    ensures (exists i :: 0 <= i < |out| && out[i].name == name) <==>
            ((exists i :: 0 <= i < |repos| && repos[i].name == name) || exists m :: 0 <= m < |maps| && name in maps[m])
    ensures forall i :: 0 <= i < |out| && out[i].name == name ==>
              var last := LastListed(repos, name);
              && multiset(out[i].findings) == Contributed(repos, name) + FromFindingMaps(maps, name)
              && SortedBy(FindingLess, out[i].findings)
              && out[i].openReviewItems == (if last.Some? then last.value.openPRs else 0)
              && out[i].posture == (if last.Some? then last.value.posture else None)
  {
    hide Less, SortedBy, FromGraphql, WithMaps;
    GraphqlConserved(repos, name);
    MapsConserved(FromGraphql(repos), maps, name);
    MapNamesConserved(FromGraphql(repos), maps, name);
  }

  function SortKeys(fs: seq<Finding>): seq<(string, string)> {
    seq(|fs|, i requires 0 <= i < |fs| => (fs[i].category, fs[i].severity))
  }

  // Two sorted lists of the same findings agree at every place in category and severity.
  lemma {:induction false} SortedKeysUnique(a: seq<Finding>, b: seq<Finding>)
    requires SortedBy(FindingLess, a) && SortedBy(FindingLess, b) && multiset(SortKeys(a)) == multiset(SortKeys(b))
    ensures SortKeys(a) == SortKeys(b)
  {
    var x, y := SortKeys(a), SortKeys(b);
    assert |x| == |multiset(x)| == |multiset(y)| == |y|;
    if a != [] {
      HeadKeysAgree(a, b);
      hide SortedBy, FindingLess;
      HeadAndTail(a);
      HeadAndTail(b);
      hide SortKeys;
      TailSorted(a);
      TailSorted(b);
      SortedKeysUnique(a[1..], b[1..]);
    }
  }

  lemma HeadAndTail(a: seq<Finding>)
    requires a != []
    ensures SortKeys(a) == [SortKeys(a)[0]] + SortKeys(a[1..])
    ensures multiset(SortKeys(a[1..])) == multiset(SortKeys(a)) - multiset{SortKeys(a)[0]}
  {
    assert SortKeys(a) == [SortKeys(a)[0]] + SortKeys(a[1..]);
  }

  lemma TailSorted(a: seq<Finding>)
    requires a != [] && SortedBy(FindingLess, a)
    ensures SortedBy(FindingLess, a[1..])
  {
    hide FindingLess;
  }

  lemma HeadKeysAgree(a: seq<Finding>, b: seq<Finding>)
    requires SortedBy(FindingLess, a) && SortedBy(FindingLess, b)
    requires a != [] && b != [] && multiset(SortKeys(a)) == multiset(SortKeys(b))
    ensures SortKeys(a)[0] == SortKeys(b)[0]
  {
    var x, y := SortKeys(a), SortKeys(b);
    assert x[0] in multiset(y) && y[0] in multiset(x);
    var i :| 0 <= i < |y| && y[i] == x[0];
    var j :| 0 <= j < |x| && x[j] == y[0];
    HeadKeyIsLeast(a, j);
    HeadKeyIsLeast(b, i);
    LessTotal(a[0].category, b[0].category);
    LessTotal(a[0].severity, b[0].severity);
    hide Less;
  }

  lemma HeadKeyIsLeast(a: seq<Finding>, j: nat)
    requires SortedBy(FindingLess, a) && j < |a|
    ensures !FindingLess(a[j], a[0])
  {
    LessIrreflexive(a[0].category);
    LessIrreflexive(a[0].severity);
    hide Less;
  }

  lemma {:induction false} SameBagSameKeys(a: seq<Finding>, b: seq<Finding>)
    requires multiset(a) == multiset(b)
    ensures multiset(SortKeys(a)) == multiset(SortKeys(b))
  {
    if a == [] {
      assert |multiset(b)| == 0;
    } else {
      var n := |a| - 1;
      assert a == a[..n] + [a[n]];
      var i := RemoveOne(b, a[n]);
      SameBagSameKeys(a[..n], b[..i] + b[i + 1..]);
      hide SortKeys;
      KeysConcat(a[..n], [a[n]]);
      KeysConcat(b[..i], b[i + 1..]);
      KeysConcat(b[..i], [a[n]]);
      KeysConcat(b[..i] + [a[n]], b[i + 1..]);
    }
  }

  lemma KeysConcat(a: seq<Finding>, b: seq<Finding>)
    ensures SortKeys(a + b) == SortKeys(a) + SortKeys(b)
  {
  }

  // Map iteration order leaves no trace beyond the order of findings that the comparison calls equal:
  // two listings of one table have the same names in the same order, with the same counts and posture,
  // the same findings, and the same category and severity at every place.
  lemma ListingsAgree(out: seq<RepoMetrics>, out': seq<RepoMetrics>, t: Table)
    requires IsListing(out, t) && IsListing(out', t)
    ensures |out| == |out'|
    ensures forall i :: 0 <= i < |out| ==>
              && out[i].name == out'[i].name && out[i].openReviewItems == out'[i].openReviewItems
              && out[i].posture == out'[i].posture && multiset(out[i].findings) == multiset(out'[i].findings)
              && SortKeys(out[i].findings) == SortKeys(out'[i].findings)
  {
    var a, b := NamesOf(out), NamesOf(out');
    hide Less, SortedBy, SortKeys;
    forall n ensures n in a <==> n in b { NameListed(out, t, n); NameListed(out', t, n); }
    StrictlySortedUnique(a, b);
    forall i | 0 <= i < |out|
      ensures out[i].name == out'[i].name && SortKeys(out[i].findings) == SortKeys(out'[i].findings)
    {
      assert a[i] == b[i];
      assert Lists(out[i], t) && Lists(out'[i], t);
      SameBagSameKeys(out[i].findings, out'[i].findings);
      SortedKeysUnique(out[i].findings, out'[i].findings);
    }
  }

  function NamesOf(out: seq<RepoMetrics>): seq<string> {
    seq(|out|, i requires 0 <= i < |out| => out[i].name)
  }

  lemma NameListed(out: seq<RepoMetrics>, t: Table, n: string)
    requires IsListing(out, t)
    ensures n in NamesOf(out) <==> n in t
  {
    hide Less, Lists;
    if n in t {
      var i :| 0 <= i < |out| && out[i].name == n;
      assert NamesOf(out)[i] == n;
    }
  }

  // ----- The GitLab provider -----

  datatype RestProject = RestProject(path: string, openMRs: int)

  type PostureMap = map<string, Option<Posture>>

  function WithProject(t: Table, p: RestProject): Table {
    t[p.path := Row(t, p.path).(openReviewItems := p.openMRs)]
  }

  function FromProjects(projects: seq<RestProject>): Table {
    if projects == [] then map[] else WithProject(FromProjects(projects[..|projects| - 1]), projects[|projects| - 1])
  }

  function WithPostures(t: Table, pm: PostureMap, done: set<string>): Table
    requires done <= pm.Keys
  {
    map n | n in t.Keys + done :: if n in done then Row(t, n).(posture := pm[n]) else Row(t, n)
  }

  function GitlabTable(projects: seq<RestProject>, vulns: FindingMap, posture: PostureMap): Table {
    WithPostures(WithFindings(FromProjects(projects), vulns, vulns.Keys), posture, posture.Keys)
  }

  method MergeGitlab(projects: seq<RestProject>, vulns: FindingMap, posture: PostureMap) returns (out: seq<RepoMetrics>)
    ensures IsListing(out, GitlabTable(projects, vulns, posture))
  {
    var byKey: map<string, Repo> := map[];
    assert View(byKey) == map[];
    hide Less, IsListing, WithFindings, WithProject, WithPostures, View;
    for i := 0 to |projects|
      invariant Owned(byKey) && forall n :: n in byKey ==> fresh(byKey[n])
      invariant View(byKey) == FromProjects(projects[..i])
    {
      assert projects[..i + 1][..i] == projects[..i];
      byKey := SetReviewItems(byKey, projects[i]);
    }
    assert projects[..|projects|] == projects;
    byKey := AppendFindings(byKey, vulns);
    byKey := SetPostures(byKey, posture);
    out := List(byKey);
  }

  method SetReviewItems(byKey: map<string, Repo>, p: RestProject) returns (byKey': map<string, Repo>)
    requires Owned(byKey)
    modifies set n | n in byKey :: byKey[n]
    ensures Owned(byKey') && forall n :: n in byKey' ==> fresh(byKey'[n]) || (n in byKey && byKey'[n] == byKey[n])
    ensures View(byKey') == WithProject(old(View(byKey)), p)
  {
    var r;
    byKey', r := Get(byKey, p.path);
    r.openReviewItems := p.openMRs;
  }

  method SetPosture(byKey: map<string, Repo>, name: string, posture: Option<Posture>)
    returns (byKey': map<string, Repo>)
    requires Owned(byKey)
    modifies set n | n in byKey :: byKey[n]
    ensures Owned(byKey') && forall n :: n in byKey' ==> fresh(byKey'[n]) || (n in byKey && byKey'[n] == byKey[n])
    ensures View(byKey') == old(View(byKey))[name := old(Row(View(byKey), name)).(posture := posture)]
  {
    var r;
    byKey', r := Get(byKey, name);
    r.posture := posture;
  }

  method SetPostures(byKey: map<string, Repo>, pm: PostureMap) returns (byKey': map<string, Repo>)
    requires Owned(byKey)
    modifies set n | n in byKey :: byKey[n]
    ensures Owned(byKey') && forall n :: n in byKey' ==> fresh(byKey'[n]) || (n in byKey && byKey'[n] == byKey[n])
    ensures View(byKey') == WithPostures(old(View(byKey)), pm, pm.Keys)
  {
    byKey' := byKey;
    ghost var start := View(byKey);
    var todo := pm.Keys;
    PostureNone(start, pm);
    hide WithPostures, View;
    assert pm.Keys - todo == {};
    while todo != {}
      invariant todo <= pm.Keys && Owned(byKey')
      invariant forall n :: n in byKey' ==> fresh(byKey'[n]) || (n in byKey && byKey'[n] == byKey[n])
      invariant View(byKey') == WithPostures(start, pm, pm.Keys - todo)
    {
      var name :| name in todo;
      PostureOne(start, pm, pm.Keys - todo, name);
      assert pm.Keys - (todo - {name}) == pm.Keys - todo + {name};
      byKey' := SetPosture(byKey', name, pm[name]);
      todo := todo - {name};
    }
    assert pm.Keys - todo == pm.Keys;
  }

  lemma PostureNone(t: Table, pm: PostureMap)
    ensures WithPostures(t, pm, {}) == t
  {
  }

  lemma PostureOne(t: Table, pm: PostureMap, done: set<string>, name: string)
    requires done <= pm.Keys && name in pm && name !in done
    ensures var u := WithPostures(t, pm, done);
      WithPostures(t, pm, done + {name}) == u[name := Row(u, name).(posture := pm[name])]
  {
  }

  // Open merge requests of the last project listed under a path.
  function LastCount(projects: seq<RestProject>, name: string): int {
    if projects == [] then 0
    else
      var n := |projects| - 1;
      if projects[n].path == name then projects[n].openMRs else LastCount(projects[..n], name)
  }

  lemma {:induction false} ProjectsConserved(projects: seq<RestProject>, name: string)
    ensures Row(FromProjects(projects), name) == Entry(LastCount(projects, name), [], None)
    ensures name in FromProjects(projects) <==> exists i :: 0 <= i < |projects| && projects[i].path == name
  {
    if projects != [] {
      var n := |projects| - 1;
      ProjectsConserved(projects[..n], name);
      assert forall i :: 0 <= i < n ==> projects[..n][i] == projects[i];
      if name in FromProjects(projects[..n]) {
        var i :| 0 <= i < n && projects[..n][i].path == name;
        assert projects[i].path == name;
      }
    }
  }

  lemma RowWithPostures(t: Table, pm: PostureMap, name: string)
    ensures var r, u := Row(t, name), Row(WithPostures(t, pm, pm.Keys), name);
      && u == (if name in pm then r.(posture := pm[name]) else r)
      && (name in WithPostures(t, pm, pm.Keys) <==> name in t || name in pm)
  {
  }

  // The names are exactly those of the three sources, and each row holds exactly what they say of it.
  lemma GitlabMergeConserves(projects: seq<RestProject>, vulns: FindingMap, posture: PostureMap, out: seq<RepoMetrics>,
                             name: string)
    requires IsListing(out, GitlabTable(projects, vulns, posture))
    ensures (exists i :: 0 <= i < |out| && out[i].name == name) <==>
            ((exists i :: 0 <= i < |projects| && projects[i].path == name) || name in vulns || name in posture)
    ensures forall i :: 0 <= i < |out| && out[i].name == name ==>
              && out[i].openReviewItems == LastCount(projects, name)
              && multiset(out[i].findings) == multiset(if name in vulns then vulns[name] else [])
              && out[i].posture == (if name in posture then posture[name] else None)
              && SortedBy(FindingLess, out[i].findings)
  {
    hide Less, SortedBy, FromProjects, WithFindings, WithPostures;
    ProjectsConserved(projects, name);
    RowWithFindings(FromProjects(projects), vulns, name);
    RowWithPostures(WithFindings(FromProjects(projects), vulns, vulns.Keys), posture, name);
  }

  // ----- The order of a listing -----

  // One string does not come after the other.
  predicate NotAfter(a: string, b: string) { a == b || Less(a, b) }

  // Repositories are listed by name, each name once; the findings of each by category, those of one
  // category by severity.
  lemma ListingIsOrdered(out: seq<RepoMetrics>, t: Table)
    requires IsListing(out, t)
    ensures forall i, j :: 0 <= i < j < |out| ==> Less(out[i].name, out[j].name)
    ensures forall r, i, j :: r in out && 0 <= i < j < |r.findings| ==>
              && NotAfter(r.findings[i].category, r.findings[j].category)
              && (r.findings[i].category == r.findings[j].category ==>
                    NotAfter(r.findings[i].severity, r.findings[j].severity))
  {
    hide Less;
    forall r, i, j | r in out && 0 <= i < j < |r.findings|
      ensures NotAfter(r.findings[i].category, r.findings[j].category)
      ensures r.findings[i].category == r.findings[j].category ==>
                NotAfter(r.findings[i].severity, r.findings[j].severity)
    {
      assert Lists(r, t) && !FindingLess(r.findings[j], r.findings[i]);
      LessTotal(r.findings[i].category, r.findings[j].category);
      LessTotal(r.findings[i].severity, r.findings[j].severity);
    }
  }
}
