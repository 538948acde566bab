// What a whole collection of resolved findings hands over, said of the API's own replies: every call that
// a provider makes, every alert or node in its pages, and the fields of each.
module Collection {
  import opened GoStrings
  import opened Provider
  import opened Bags
  import opened Paging
  import opened Collect

  // ----- GitHub -----

  // f is what one alert of a source, listed under a state, is handed over as.
  predicate Gives(source: Source, state: string, since: Time, a: Alert, f: ResolvedFinding) {
    && f.severity == a.severity && f.state == state && f.createdAt == a.createdAt && f.resolvedAt >= since
    && match source
       case CodeScanning =>
         && f.id == "cs-" + FormatInt(a.number) && f.category == "static_analysis"
         && f.resolution == (if state == "fixed" then "fixed" else a.outcome)
         && f.resolvedAt == (if a.fixedAt != ZERO_TIME then a.fixedAt else a.dismissedAt)
       case SecretScanning =>
         && f.id == "ss-" + FormatInt(a.number) && f.category == "secret"
         && f.resolution == a.outcome && f.resolvedAt == a.resolvedAt
       case Dependabot =>
         && f.id == "da-" + FormatInt(a.number) && f.category == "dependency"
         && f.resolution == (if state == "fixed" then "fixed" else a.outcome)
         && f.resolvedAt == (if a.fixedAt != ZERO_TIME then a.fixedAt
                             else if a.autoDismissedAt != ZERO_TIME then a.autoDismissedAt
                             else a.dismissedAt)
  }

  function Giving(source: Source, state: string, since: Time, f: ResolvedFinding): Alert -> bool {
    (a: Alert) => Gives(source, state, since, a, f)
  }

  lemma GivesIsKept(source: Source, state: string, since: Time, a: Alert, f: ResolvedFinding)
    ensures Gives(source, state, since, a, f) <==>
            InWindow(AlertResolvedAt(source, a), since) && f == AlertFinding(source, state, a)
  {
    hide FormatInt;
  }

  lemma {:induction false} KeptAsOftenAsGiven(source: Source, state: string, alerts: seq<Alert>, since: Time,
                                              f: ResolvedFinding)
    ensures multiset(KeptAlerts(source, state, alerts, since))[f] == Times(alerts, Giving(source, state, since, f))
  {
    hide AlertFinding, AlertResolvedAt, Gives, Times;
    if alerts == [] {
      TimesNone(Giving(source, state, since, f));
    } else {
      var n := |alerts| - 1;
      KeptAsOftenAsGiven(source, state, alerts[..n], since, f);
      TimesNext(alerts, Giving(source, state, since, f));
      GivesIsKept(source, state, since, alerts[n], f);
    }
  }

  // The talks about the states of a source, one for each.
  ghost predicate Talks(fetch: Pages, maxPages: nat, states: nat, talks: nat -> Talk<Alert, int>) {
    forall s: nat :: s < states ==> IsTalk(fetch(s), 0, 0, maxPages, talks(s))
  }

  // How often a source gives f, from the s-th state on. A state is listed only when the talk about the one
  // before it was neither denied nor broken.
  ghost function Given(source: Source, states: seq<string>, talks: nat -> Talk<Alert, int>, since: Time,
                       f: ResolvedFinding, s: nat): nat
    decreases |states| - s
  {
    if s >= |states| then 0
    else
      Times(Flatten(talks(s).pages), Giving(source, states[s], since, f)) +
      if talks(s).end == Complete then Given(source, states, talks, since, f, s + 1) else 0
  }

  // A broken call is reached.
  ghost predicate Breaks(states: nat, talks: nat -> Talk<Alert, int>) {
    BreaksFrom(states, talks, 0)
  }

  ghost predicate BreaksFrom(states: nat, talks: nat -> Talk<Alert, int>, s: nat) {
    exists r: nat :: s <= r < states && talks(r).end == Error
      && forall q: nat :: s <= q < r ==> talks(q).end == Complete
  }

  lemma BreaksNext(states: nat, talks: nat -> Talk<Alert, int>, s: nat)
    requires s < states
    ensures BreaksFrom(states, talks, s) <==>
            talks(s).end == Error || (talks(s).end == Complete && BreaksFrom(states, talks, s + 1))
  {
    if talks(s).end == Complete && BreaksFrom(states, talks, s + 1) {
      var r: nat :| s + 1 <= r < states && talks(r).end == Error
        && forall q: nat :: s + 1 <= q < r ==> talks(q).end == Complete;
      assert forall q: nat :: s <= q < r ==> talks(q).end == Complete;
    }
  }

  lemma {:induction false} SourceGives(source: Source, fetch: Pages, maxPages: nat, talks: nat -> Talk<Alert, int>,
                                       since: Time, f: ResolvedFinding, s: nat)
    requires s <= |States(source)| && Talks(fetch, maxPages, |States(source)|, talks)
    ensures var g := FromStates(source, fetch, maxPages, since, s);
      && (g.end == Error <==> BreaksFrom(|States(source)|, talks, s))
      && multiset(g.items)[f] == Given(source, States(source), talks, since, f, s)
    decreases |States(source)| - s
  {
    hide States, KeptAlerts, IsTalk, BreaksFrom, Times, Gather;
    if s < |States(source)| {
      GatherIsTheTalk(fetch(s), FIRST_PAGE, 0, maxPages, talks(s));
      KeptAsOftenAsGiven(source, States(source)[s], Flatten(talks(s).pages), since, f);
      BreaksNext(|States(source)|, talks, s);
      SourceGives(source, fetch, maxPages, talks, since, f, s + 1);
    } else {
      NothingBreaks(|States(source)|, talks);
    }
  }

  lemma NothingBreaks(states: nat, talks: nat -> Talk<Alert, int>)
    ensures !BreaksFrom(states, talks, states)
  {
  }

  // The whole collection, whatever the servers reply: it is lost exactly when a broken call is reached in
  // one of the three sources; otherwise each finding is in it as often as alerts on the pages of the listed
  // states of the three sources give it.
  lemma GithubCollection(cs: Pages, ss: Pages, da: Pages, maxPages: nat, since: Time, csTalks: nat -> Talk<Alert, int>,
                         ssTalks: nat -> Talk<Alert, int>, daTalks: nat -> Talk<Alert, int>, f: ResolvedFinding)
    requires Talks(cs, maxPages, 2, csTalks) && Talks(ss, maxPages, 1, ssTalks) && Talks(da, maxPages, 3, daTalks)
    ensures var r := GithubFindings(cs, ss, da, maxPages, since);
      && (r == None <==> Breaks(2, csTalks) || Breaks(1, ssTalks) || Breaks(3, daTalks))
      && (r.Some? ==>
            multiset(r.value)[f] ==
            Given(CodeScanning, ["fixed", "dismissed"], csTalks, since, f, 0)
            + Given(SecretScanning, ["resolved"], ssTalks, since, f, 0)
            + Given(Dependabot, ["fixed", "dismissed", "auto_dismissed"], daTalks, since, f, 0))
  {
    hide FromStates, Given, BreaksFrom, Talks;
    SourceGives(CodeScanning, cs, maxPages, csTalks, since, f, 0);
    SourceGives(SecretScanning, ss, maxPages, ssTalks, since, f, 0);
    SourceGives(Dependabot, da, maxPages, daTalks, since, f, 0);
  }

  // Some alert on these pages is handed over as f.
  ghost predicate GivenIn(source: Source, state: string, pages: seq<seq<Alert>>, since: Time, f: ResolvedFinding) {
    exists k: nat, i: nat :: k < |pages| && i < |pages[k]| && Gives(source, state, since, pages[k][i], f)
  }

  lemma {:induction false} FlattenHas<T(!new)>(pages: seq<seq<T>>, x: T)
    ensures x in Flatten(pages) <==> exists k: nat, i: nat :: k < |pages| && i < |pages[k]| && pages[k][i] == x
  {
    if pages != [] {
      FlattenHas(pages[1..], x);
      if x in pages[0] {
        var i :| 0 <= i < |pages[0]| && pages[0][i] == x;
      } else if x in Flatten(pages[1..]) {
        var k: nat, i: nat :| k < |pages[1..]| && i < |pages[1..][k]| && pages[1..][k][i] == x;
        assert pages[k + 1][i] == x;
      } else if k: nat, i: nat :| k < |pages| && i < |pages[k]| && pages[k][i] == x {
        assert pages[1..][k - 1][i] == x;
      }
    }
  }

  lemma GivenOnPages(source: Source, state: string, pages: seq<seq<Alert>>, since: Time, f: ResolvedFinding)
    ensures Times(Flatten(pages), Giving(source, state, since, f)) > 0 <==> GivenIn(source, state, pages, since, f)
  {
    hide Times, Gives;
    TimesPositive(Flatten(pages), Giving(source, state, since, f));
    if GivenIn(source, state, pages, since, f) {
      var k: nat, i: nat :| k < |pages| && i < |pages[k]| && Gives(source, state, since, pages[k][i], f);
      FlattenHas(pages, pages[k][i]);
    }
    if a :| a in Flatten(pages) && Gives(source, state, since, a, f) {
      FlattenHas(pages, a);
    }
  }

  lemma {:induction false} GivenOverAll(source: Source, states: seq<string>, talks: nat -> Talk<Alert, int>,
                                        since: Time, f: ResolvedFinding, s: nat)
    requires s <= |states| && forall q: nat :: s <= q < |states| ==> talks(q).end == Complete
    ensures Given(source, states, talks, since, f, s) > 0 <==>
            exists q: nat :: s <= q < |states| && GivenIn(source, states[q], talks(q).pages, since, f)
    decreases |states| - s
  {
    hide Times, GivenIn;
    if s < |states| {
      GivenOnPages(source, states[s], talks(s).pages, since, f);
      GivenOverAll(source, states, talks, since, f, s + 1);
    }
  }

  // When every state of every source is served within the page limit, the collection succeeds and holds
  // exactly the findings that some alert on a page gives.
  lemma GithubIsTheWindow(cs: Pages, ss: Pages, da: Pages, maxPages: nat, since: Time, csTalks: nat -> Talk<Alert, int>,
                          ssTalks: nat -> Talk<Alert, int>, daTalks: nat -> Talk<Alert, int>, f: ResolvedFinding)
    requires Talks(cs, maxPages, 2, csTalks) && Talks(ss, maxPages, 1, ssTalks) && Talks(da, maxPages, 3, daTalks)
    requires forall s: nat :: s < 2 ==> csTalks(s).end == Complete
    requires ssTalks(0).end == Complete && forall s: nat :: s < 3 ==> daTalks(s).end == Complete
    ensures var r := GithubFindings(cs, ss, da, maxPages, since);
      && r.Some?
      && (f in r.value <==>
            || GivenIn(CodeScanning, "fixed", csTalks(0).pages, since, f)
            || GivenIn(CodeScanning, "dismissed", csTalks(1).pages, since, f)
            || GivenIn(SecretScanning, "resolved", ssTalks(0).pages, since, f)
            || GivenIn(Dependabot, "fixed", daTalks(0).pages, since, f)
            || GivenIn(Dependabot, "dismissed", daTalks(1).pages, since, f)
            || GivenIn(Dependabot, "auto_dismissed", daTalks(2).pages, since, f))
  {
    hide GithubFindings, Talks, Times, GivenIn;
    GithubCollection(cs, ss, da, maxPages, since, csTalks, ssTalks, daTalks, f);
    GivenOverAll(CodeScanning, ["fixed", "dismissed"], csTalks, since, f, 0);
    GivenOverAll(SecretScanning, ["resolved"], ssTalks, since, f, 0);
    GivenOverAll(Dependabot, ["fixed", "dismissed", "auto_dismissed"], daTalks, since, f, 0);
    assert f in GithubFindings(cs, ss, da, maxPages, since).value <==>
           multiset(GithubFindings(cs, ss, da, maxPages, since).value)[f] > 0;
  }

  // ----- GitLab -----

  // f is what one node is handed over as.
  predicate NodeGives(since: Time, n: Node, f: ResolvedFinding) {
    && f.id == n.id && f.severity == n.severity && f.createdAt == n.detectedAt && f.resolvedAt >= since
    && (|| (n.reportType == "SAST" && f.category == "static_analysis")
        || (n.reportType == "DEPENDENCY_SCANNING" && f.category == "dependency")
        || (n.reportType == "SECRET_DETECTION" && f.category == "secret")
        || (n.reportType in ["CONTAINER_SCANNING", "CLUSTER_IMAGE_SCANNING", "CONTAINER_SCANNING_FOR_REGISTRY"]
            && f.category == "container"))
    && (if n.resolved then f.state == "resolved" && f.resolution == "fixed"
        else f.state == "dismissed" && f.resolution == n.outcome)
    && (match (n.resolvedAt, n.dismissedAt)
        case (Some(r), Some(d)) => f.resolvedAt == if n.resolved then r else d
        case (Some(r), None) => f.resolvedAt == r
        case (None, Some(d)) => f.resolvedAt == d
        case (None, None) => f.resolvedAt == ZERO_TIME)
  }

  function NodeGiving(since: Time, f: ResolvedFinding): Node -> bool {
    (n: Node) => NodeGives(since, n, f)
  }

  lemma NodeGivesIsKept(since: Time, n: Node, f: ResolvedFinding)
    ensures NodeGives(since, n, f) <==> Keeps(n, since) && f == FindingOf(n, ReportTypeCategory(n.reportType).value)
  {
  }

  lemma {:induction false} NodesKeptAsOftenAsGiven(nodes: seq<Node>, since: Time, f: ResolvedFinding)
    ensures multiset(Kept(nodes, since))[f] == Times(nodes, NodeGiving(since, f))
  {
    hide FindingOf, ReportTypeCategory, Keeps, NodeGives, Times;
    if nodes == [] {
      TimesNone(NodeGiving(since, f));
    } else {
      var n := |nodes| - 1;
      NodesKeptAsOftenAsGiven(nodes[..n], since, f);
      TimesNext(nodes, NodeGiving(since, f));
      NodeGivesIsKept(since, nodes[n], f);
    }
  }

  // The same for a GitLab project: only a broken call loses the collection, a denied one ends it, and each
  // finding is in it as often as nodes on the pages give it.
  lemma GitlabCollection(fetch: Fetch<Node, After>, maxPages: nat, since: Time, t: Talk<Node, After>,
                         f: ResolvedFinding)
    requires IsTalk(fetch, None, 0, maxPages, t)
    ensures var r := GitlabFindings(fetch, maxPages, since);
      && (r == None <==> t.end == Error)
      && (r.Some? ==> multiset(r.value)[f] == Times(Flatten(t.pages), NodeGiving(since, f)))
  {
    hide Kept, NodeGives, Times;
    GatherIsTheTalk(fetch, None, 0, maxPages, t);
    NodesKeptAsOftenAsGiven(Flatten(t.pages), since, f);
  }
}
