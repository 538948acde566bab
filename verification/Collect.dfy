// The collectors of resolved findings: paged, filtered by the resolution window.
module Collect {
  import opened GoStrings
  import opened Provider
  import opened Paging

  // ----- GitLab -----

  // One vulnerability. resolved tells whether its state is RESOLVED in any letter case; the times are
  // parsed, and outcome is the resolution that its dismissal reason maps to.
  datatype Node = Node(id: string, reportType: string, severity: string, resolved: bool, detectedAt: Time,
                       resolvedAt: Option<Time>, dismissedAt: Option<Time>, outcome: string)

  const CATEGORY_STATIC_ANALYSIS := "static_analysis"
  const CATEGORY_DEPENDENCY := "dependency"
  const CATEGORY_SECRET := "secret"
  const CATEGORY_CONTAINER := "container"
  const RESOLUTION_FIXED := "fixed"

  function ReportTypeCategory(reportType: string): Option<string> {
    if reportType == "SAST" then Some(CATEGORY_STATIC_ANALYSIS)
    else if reportType == "DEPENDENCY_SCANNING" then Some(CATEGORY_DEPENDENCY)
    else if reportType == "SECRET_DETECTION" then Some(CATEGORY_SECRET)
    else if reportType == "CONTAINER_SCANNING" || reportType == "CLUSTER_IMAGE_SCANNING"
         || reportType == "CONTAINER_SCANNING_FOR_REGISTRY" then Some(CATEGORY_CONTAINER)
    else None
  }

  function GitlabResolvedAt(n: Node): Time {
    if n.resolved && n.resolvedAt.Some? then n.resolvedAt.value
    else if n.dismissedAt.Some? then n.dismissedAt.value
    else if n.resolvedAt.Some? then n.resolvedAt.value
    else ZERO_TIME
  }

  function FindingOf(n: Node, category: string): ResolvedFinding {
    ResolvedFinding(n.id, category, n.severity, if n.resolved then "resolved" else "dismissed",
                    if n.resolved then RESOLUTION_FIXED else n.outcome, n.detectedAt, GitlabResolvedAt(n))
  }

  predicate Keeps(n: Node, since: Time) {
    ReportTypeCategory(n.reportType).Some? && InWindow(GitlabResolvedAt(n), since)
  }

  // The window filter over a list of nodes.
  function Kept(nodes: seq<Node>, since: Time): seq<ResolvedFinding> {
    if nodes == [] then []
    else
      var n := |nodes| - 1;
      Kept(nodes[..n], since) +
      if Keeps(nodes[n], since) then [FindingOf(nodes[n], ReportTypeCategory(nodes[n].reportType).value)] else []
  }

  lemma {:induction false} KeptConcat(a: seq<Node>, b: seq<Node>, since: Time)
    ensures Kept(a + b, since) == Kept(a, since) + Kept(b, since)
  {
    hide Keeps, FindingOf, ReportTypeCategory;
    if b == [] {
      assert a + b == a;
    } else {
      var n := |b| - 1;
      KeptConcat(a, b[..n], since);
      assert (a + b)[..|a + b| - 1] == a + b[..n];
    }
  }

  // GraphQL cursors: none for the first page, then the end cursor of the page before.
  type After = Option<string>

  // What collectResolvedFindings of the GitLab provider returns; None is the error return.
  function GitlabFindings(fetch: Fetch<Node, After>, maxPages: nat, since: Time): Option<seq<ResolvedFinding>> {
    var g := Gather(fetch, None, 0, maxPages);
    if g.end == Error then None else Some(Kept(g.items, since))
  }

  method CollectGitlab(fetch: Fetch<Node, After>, maxPages: nat, now: Time, window: int)
    returns (result: Option<seq<ResolvedFinding>>)
    ensures result == GitlabFindings(fetch, maxPages, now - window)
  {
    var since := now - window;
    var out := [];
    var after: After := None;
    ghost var read: seq<Node> := [];
    for page := 0 to maxPages
      invariant out == Kept(read, since)
      invariant var rest := Gather(fetch, after, page, maxPages);
        Gather(fetch, None, 0, maxPages) == Gathered(read + rest.items, rest.end)
    {
      hide Kept, Gather;
      var reply := fetch(page, after);
      if !reply.Page? {
        GatherStops(fetch, after, page, maxPages, read);
        return if reply.Broken? then None else Some(out);
      }
      GatherNext(fetch, after, page, maxPages, read);
      var more := KeepNodes(reply.items, since);
      KeptConcat(read, reply.items, since);
      out := out + more;
      read := read + reply.items;
      if reply.next == None {
        return Some(out);
      }
      after := reply.next.value;
    }
    GatherStops(fetch, after, maxPages, maxPages, read);
    return Some(out);
  }

  // The inner loop of the collector.
  method KeepNodes(nodes: seq<Node>, since: Time) returns (out: seq<ResolvedFinding>)
    ensures out == Kept(nodes, since)
  {
    hide ReportTypeCategory, FindingOf;
    out := [];
    for i := 0 to |nodes|
      invariant out == Kept(nodes[..i], since)
    {
      assert nodes[..i + 1][..i] == nodes[..i];
      var category := ReportTypeCategory(nodes[i].reportType);
      if category == None {
        continue;
      }
      if GitlabResolvedAt(nodes[i]) < since {
        continue;
      }
      out := out + [FindingOf(nodes[i], category.value)];
    }
    assert nodes[..|nodes|] == nodes;
  }

  // Along a chain of cursors the collected findings are the window filter over all nodes, wherever the
  // pages were cut.
  lemma PageBoundariesIrrelevant(nodes: seq<Node>, fetch: Fetch<Node, After>, cursors: seq<After>,
                                 pages: seq<seq<Node>>, maxPages: nat, since: Time)
    requires Serves(fetch, cursors, pages) && cursors[0] == None
    requires Flatten(pages) == nodes && |pages| <= maxPages
    ensures GitlabFindings(fetch, maxPages, since) == Some(Kept(nodes, since))
  {
    GatherServed(fetch, cursors, pages, maxPages);
  }

  // A node is kept exactly when its type is mapped and it was resolved in the window.
  lemma {:induction false} KeptIsTheWindow(nodes: seq<Node>, since: Time, f: ResolvedFinding)
    ensures f in Kept(nodes, since) <==>
            exists n :: n in nodes && Keeps(n, since) && f == FindingOf(n, ReportTypeCategory(n.reportType).value)
    ensures f in Kept(nodes, since) ==> InWindow(f.resolvedAt, since)
  {
    hide ReportTypeCategory, GitlabResolvedAt;
    if nodes != [] {
      var k := |nodes| - 1;
      KeptIsTheWindow(nodes[..k], since, f);
      assert nodes == nodes[..k] + [nodes[k]];
    }
  }

  // ----- GitHub -----

  datatype Source = CodeScanning | SecretScanning | Dependabot

  // One alert; a time that the API did not send is the zero time. outcome is the resolution that the
  // dismissal or resolution reason maps to.
  datatype Alert = Alert(number: int, severity: string, createdAt: Time, fixedAt: Time, dismissedAt: Time,
                         autoDismissedAt: Time, resolvedAt: Time, outcome: string)

  function States(source: Source): seq<string> {
    match source
    case CodeScanning => ["fixed", "dismissed"]
    case SecretScanning => ["resolved"]
    case Dependabot => ["fixed", "dismissed", "auto_dismissed"]
  }

  function Prefix(source: Source): string {
    match source
    case CodeScanning => "cs-"
    case SecretScanning => "ss-"
    case Dependabot => "da-"
  }

  function CategoryOf(source: Source): string {
    match source
    case CodeScanning => CATEGORY_STATIC_ANALYSIS
    case SecretScanning => CATEGORY_SECRET
    case Dependabot => CATEGORY_DEPENDENCY
  }

  function AlertResolvedAt(source: Source, a: Alert): Time {
    match source
    case CodeScanning => if !IsZero(a.fixedAt) then a.fixedAt else a.dismissedAt
    case SecretScanning => a.resolvedAt
    case Dependabot =>
      if !IsZero(a.fixedAt) then a.fixedAt else if !IsZero(a.autoDismissedAt) then a.autoDismissedAt else a.dismissedAt
  }

  function IdOf(source: Source, number: int): string {
    Prefix(source) + FormatInt(number)
  }

  function AlertFinding(source: Source, state: string, a: Alert): ResolvedFinding {
    ResolvedFinding(IdOf(source, a.number), CategoryOf(source), a.severity, state,
                    if source != SecretScanning && state == "fixed" then RESOLUTION_FIXED else a.outcome,
                    a.createdAt, AlertResolvedAt(source, a))
  }

  // The deduplication id tells source and number apart.
  lemma IdsNeverClash(s: Source, m: nat, t: Source, n: nat)
    requires IdOf(s, m) == IdOf(t, n)
    ensures s == t && m == n
  {
    var a, b := IdOf(s, m), IdOf(t, n);
    assert a[0] == Prefix(s)[0] && b[0] == Prefix(t)[0];
    assert a[3..] == FormatInt(m) && b[3..] == FormatInt(n);
    FormatIntInjective(m, n);
  }

  function KeptAlerts(source: Source, state: string, alerts: seq<Alert>, since: Time): seq<ResolvedFinding> {
    if alerts == [] then []
    else
      var n := |alerts| - 1;
      KeptAlerts(source, state, alerts[..n], since) +
      if InWindow(AlertResolvedAt(source, alerts[n]), since) then [AlertFinding(source, state, alerts[n])] else []
  }

  lemma {:induction false} KeptAlertsConcat(source: Source, state: string, a: seq<Alert>, b: seq<Alert>, since: Time)
    ensures KeptAlerts(source, state, a + b, since)
         == KeptAlerts(source, state, a, since) + KeptAlerts(source, state, b, since)
  {
    hide AlertFinding, AlertResolvedAt;
    if b == [] {
      assert a + b == a;
    } else {
      var n := |b| - 1;
      KeptAlertsConcat(source, state, a, b[..n], since);
      assert (a + b)[..|a + b| - 1] == a + b[..n];
    }
  }

  // Page numbers: zero for the first page, then the next page of the reply before. fetch(s) answers the
  // calls of the s-th state of a source; each state starts over at the first page.
  type Pages = nat -> Fetch<Alert, int>

  const FIRST_PAGE := 0

  // One source, its states from the s-th on. A denial ends the source with what it had collected,
  // an error loses it.
  function FromStates(source: Source, fetch: Pages, maxPages: nat, since: Time, s: nat): Gathered<ResolvedFinding>
    requires s <= |States(source)|
    decreases |States(source)| - s
  {
    if s == |States(source)| then Gathered([], Complete)
    else
      var g := Gather(fetch(s), FIRST_PAGE, 0, maxPages);
      var kept := KeptAlerts(source, States(source)[s], g.items, since);
      if g.end != Complete then Gathered(kept, g.end)
      else
        var rest := FromStates(source, fetch, maxPages, since, s + 1);
        Gathered(kept + rest.items, rest.end)
  }

  // resolvedCodeScanning, resolvedSecretScanning and resolvedDependabot. None is the error return.
  method CollectSource(source: Source, fetch: Pages, maxPages: nat, since: Time)
    returns (result: Option<seq<ResolvedFinding>>)
    ensures var g := FromStates(source, fetch, maxPages, since, 0);
      result == if g.end == Error then None else Some(g.items)
  {
    hide KeptAlerts, States;
    var out := [];
    var states := States(source);
    for s := 0 to |states|
      invariant var rest := FromStates(source, fetch, maxPages, since, s);
        FromStates(source, fetch, maxPages, since, 0) == Gathered(out + rest.items, rest.end)
    {
      var more, end := CollectState(source, states[s], fetch(s), maxPages, since);
      StatesNext(source, fetch, maxPages, since, s, out);
      hide FromStates, Gather;
      if end == Error {
        return None;
      }
      out := out + more;
      if end == NoAccess {
        return Some(out);
      }
    }
    assert out + [] == out;
    return Some(out);
  }

  lemma StatesNext(source: Source, fetch: Pages, maxPages: nat, since: Time, s: nat, out: seq<ResolvedFinding>)
    requires s < |States(source)|
    ensures var all := FromStates(source, fetch, maxPages, since, s);
      var rest := FromStates(source, fetch, maxPages, since, s + 1);
      var g := Gather(fetch(s), FIRST_PAGE, 0, maxPages);
      var kept := KeptAlerts(source, States(source)[s], g.items, since);
      if g.end == Complete then out + all.items == out + kept + rest.items && all.end == rest.end
      else out + all.items == out + kept && all.end == g.end
  {
    hide KeptAlerts, States, Gather;
  }

  // The paging loop of one state.
  method CollectState(source: Source, state: string, fetch: Fetch<Alert, int>, maxPages: nat, since: Time)
    returns (out: seq<ResolvedFinding>, end: End)
    ensures var g := Gather(fetch, FIRST_PAGE, 0, maxPages);
      end == g.end && out == KeptAlerts(source, state, g.items, since)
  {
    out := [];
    var nextPage := FIRST_PAGE;
    ghost var read: seq<Alert> := [];
    for page := 0 to maxPages
      invariant out == KeptAlerts(source, state, read, since)
      invariant var rest := Gather(fetch, nextPage, page, maxPages);
        Gather(fetch, FIRST_PAGE, 0, maxPages) == Gathered(read + rest.items, rest.end)
    {
      hide KeptAlerts, Gather;
      var reply := fetch(page, nextPage);
      if !reply.Page? {
        GatherStops(fetch, nextPage, page, maxPages, read);
        return out, if reply.Broken? then Error else NoAccess;
      }
      GatherNext(fetch, nextPage, page, maxPages, read);
      var more := KeepAlerts(source, state, reply.items, since);
      KeptAlertsConcat(source, state, read, reply.items, since);
      out := out + more;
      read := read + reply.items;
      if reply.next == None {
        return out, Complete;
      }
      nextPage := reply.next.value;
    }
    GatherStops(fetch, nextPage, maxPages, maxPages, read);
    return out, Complete;
  }

  method KeepAlerts(source: Source, state: string, alerts: seq<Alert>, since: Time) returns (out: seq<ResolvedFinding>)
    ensures out == KeptAlerts(source, state, alerts, since)
  {
    hide AlertFinding, AlertResolvedAt;
    out := [];
    for i := 0 to |alerts|
      invariant out == KeptAlerts(source, state, alerts[..i], since)
    {
      assert alerts[..i + 1][..i] == alerts[..i];
      if AlertResolvedAt(source, alerts[i]) < since {
        continue;
      }
      out := out + [AlertFinding(source, state, alerts[i])];
    }
    assert alerts[..|alerts|] == alerts;
  }

  // What collectResolvedFindings of the GitHub provider returns: the three sources in turn; an error of
  // any of them is the error return, None.
  function GithubFindings(cs: Pages, ss: Pages, da: Pages, maxPages: nat, since: Time): Option<seq<ResolvedFinding>> {
    var a := FromStates(CodeScanning, cs, maxPages, since, 0);
    var b := FromStates(SecretScanning, ss, maxPages, since, 0);
    var c := FromStates(Dependabot, da, maxPages, since, 0);
    if a.end == Error || b.end == Error || c.end == Error then None else Some(a.items + b.items + c.items)
  }

  method CollectGithub(cs: Pages, ss: Pages, da: Pages, maxPages: nat, now: Time, window: int)
    returns (result: Option<seq<ResolvedFinding>>)
    ensures result == GithubFindings(cs, ss, da, maxPages, now - window)
  {
    hide FromStates;
    var since := now - window;
    var first := CollectSource(CodeScanning, cs, maxPages, since);
    if first == None {
      return None;
    }
    var second := CollectSource(SecretScanning, ss, maxPages, since);
    if second == None {
      return None;
    }
    var third := CollectSource(Dependabot, da, maxPages, since);
    if third == None {
      return None;
    }
    return Some(first.value + second.value + third.value);
  }

  lemma {:induction false} KeptAlertsAreTheWindow(source: Source, state: string, alerts: seq<Alert>, since: Time,
                                                  f: ResolvedFinding)
    ensures f in KeptAlerts(source, state, alerts, since) <==>
            exists a :: a in alerts && InWindow(AlertResolvedAt(source, a), since)
               && f == AlertFinding(source, state, a)
    ensures f in KeptAlerts(source, state, alerts, since) ==> InWindow(f.resolvedAt, since)
  {
    hide AlertResolvedAt, IdOf, CategoryOf;
    if alerts != [] {
      var k := |alerts| - 1;
      KeptAlertsAreTheWindow(source, state, alerts[..k], since, f);
      assert alerts == alerts[..k] + [alerts[k]];
    }
  }

  // Everything a GitHub source hands over was resolved in the window: what the store's TTL relies on.
  lemma {:induction false} SourceStaysInWindow(source: Source, fetch: Pages, maxPages: nat, since: Time, s: nat,
                                               f: ResolvedFinding)
    requires s <= |States(source)| && f in FromStates(source, fetch, maxPages, since, s).items
    ensures InWindow(f.resolvedAt, since)
    decreases |States(source)| - s
  {
    hide KeptAlerts, States;
    var g := Gather(fetch(s), FIRST_PAGE, 0, maxPages);
    KeptAlertsAreTheWindow(source, States(source)[s], g.items, since, f);
    if f !in KeptAlerts(source, States(source)[s], g.items, since) {
      SourceStaysInWindow(source, fetch, maxPages, since, s + 1, f);
    }
  }

  // The same of a whole collection of either provider.

  lemma GitlabStaysInWindow(fetch: Fetch<Node, After>, maxPages: nat, since: Time, f: ResolvedFinding)
    requires GitlabFindings(fetch, maxPages, since).Some? && f in GitlabFindings(fetch, maxPages, since).value
    ensures InWindow(f.resolvedAt, since)
  {
    KeptIsTheWindow(Gather(fetch, None, 0, maxPages).items, since, f);
  }

  lemma GithubStaysInWindow(cs: Pages, ss: Pages, da: Pages, maxPages: nat, since: Time, f: ResolvedFinding)
    requires GithubFindings(cs, ss, da, maxPages, since).Some?
    requires f in GithubFindings(cs, ss, da, maxPages, since).value
    ensures InWindow(f.resolvedAt, since)
  {
    hide FromStates;
    if f in FromStates(CodeScanning, cs, maxPages, since, 0).items {
      SourceStaysInWindow(CodeScanning, cs, maxPages, since, 0, f);
    } else if f in FromStates(SecretScanning, ss, maxPages, since, 0).items {
      SourceStaysInWindow(SecretScanning, ss, maxPages, since, 0, f);
    } else {
      SourceStaysInWindow(Dependabot, da, maxPages, since, 0, f);
    }
  }

  // When every state is served within the page limit, along its chain of cursors, a source hands over
  // exactly the alerts of all its states that were resolved in the window, wherever the pages were cut.
  lemma {:induction false} SourceIsTheWindow(source: Source, fetch: Pages, cursors: nat -> seq<int>,
                                             pages: nat -> seq<seq<Alert>>, maxPages: nat, since: Time, s: nat,
                                             f: ResolvedFinding)
    requires s <= |States(source)|
    requires forall k: nat :: k < |States(source)| ==>
               && Serves(fetch(k), cursors(k), pages(k)) && cursors(k)[0] == FIRST_PAGE && |pages(k)| <= maxPages
    ensures FromStates(source, fetch, maxPages, since, s).end == Complete
    ensures f in FromStates(source, fetch, maxPages, since, s).items <==>
            exists k: nat :: s <= k < |States(source)|
               && f in KeptAlerts(source, States(source)[k], Flatten(pages(k)), since)
    decreases |States(source)| - s
  {
    hide KeptAlerts, States, Gather, Flatten;
    if s < |States(source)| {
      GatherServed(fetch(s), cursors(s), pages(s), maxPages);
      SourceIsTheWindow(source, fetch, cursors, pages, maxPages, since, s + 1, f);
    }
  }

  // ----- A source that is denied -----

  // The alerts on all pages that were read before the source ended, from the s-th state on.
  function AlertsRead(source: Source, fetch: Pages, maxPages: nat, s: nat): seq<Alert>
    requires s <= |States(source)|
    decreases |States(source)| - s
  {
    if s == |States(source)| then []
    else
      var g := Gather(fetch(s), FIRST_PAGE, 0, maxPages);
      g.items + if g.end != Complete then [] else AlertsRead(source, fetch, maxPages, s + 1)
  }

  lemma {:induction false} NothingKept(source: Source, state: string, alerts: seq<Alert>, since: Time)
    ensures KeptAlerts(source, state, alerts, since) == [] <==>
            forall a :: a in alerts ==> !InWindow(AlertResolvedAt(source, a), since)
  {
    hide AlertResolvedAt, AlertFinding;
    if alerts != [] {
      var k := |alerts| - 1;
      NothingKept(source, state, alerts[..k], since);
      assert alerts == alerts[..k] + [alerts[k]];
    }
  }

  // A source contributes nothing exactly when no alert on any page it read was resolved in the window.
  lemma {:induction false} ContributesNothingIff(source: Source, fetch: Pages, maxPages: nat, since: Time, s: nat)
    requires s <= |States(source)|
    ensures FromStates(source, fetch, maxPages, since, s).items == [] <==>
            forall a :: a in AlertsRead(source, fetch, maxPages, s) ==> !InWindow(AlertResolvedAt(source, a), since)
    decreases |States(source)| - s
  {
    hide KeptAlerts, States, Gather, AlertResolvedAt;
    if s < |States(source)| {
      NothingKept(source, States(source)[s], Gather(fetch(s), FIRST_PAGE, 0, maxPages).items, since);
      ContributesNothingIff(source, fetch, maxPages, since, s + 1);
    }
  }

  // For a denied source that is the exact condition under which it contributes nothing: the alerts on
  // the pages before the denied call all lie outside the window.
  lemma DeniedContributesNothingIff(source: Source, fetch: Pages, maxPages: nat, since: Time)
    requires FromStates(source, fetch, maxPages, since, 0).end == NoAccess
    ensures FromStates(source, fetch, maxPages, since, 0) == Gathered([], NoAccess) <==>
            forall a :: a in AlertsRead(source, fetch, maxPages, 0) ==> !InWindow(AlertResolvedAt(source, a), since)
  {
    hide FromStates, AlertsRead, AlertResolvedAt;
    ContributesNothingIff(source, fetch, maxPages, since, 0);
  }

  // A denial of the very first call leaves nothing.
  lemma DeniedAtOnce(source: Source, fetch: Pages, maxPages: nat, since: Time)
    requires maxPages > 0 && fetch(0)(0, FIRST_PAGE) == Denied
    ensures FromStates(source, fetch, maxPages, since, 0) == Gathered([], NoAccess)
  {
    assert States(source) != [];
    hide States, KeptAlerts;
    NothingKept(source, States(source)[0], [], since);
  }

  // A denial of the second page keeps what the first one brought in.
  lemma DeniedLaterKeepsEarlierPages(source: Source, fetch: Pages, maxPages: nat, since: Time, a: Alert, next: int)
    requires maxPages >= 2 && InWindow(AlertResolvedAt(source, a), since)
    requires fetch(0)(0, FIRST_PAGE) == Page([a], Some(next)) && fetch(0)(1, next) == Denied
    ensures FromStates(source, fetch, maxPages, since, 0)
         == Gathered([AlertFinding(source, States(source)[0], a)], NoAccess)
  {
    hide AlertResolvedAt, AlertFinding;
    assert Gather(fetch(0), next, 1, maxPages) == Gathered([], NoAccess);
    assert Gather(fetch(0), FIRST_PAGE, 0, maxPages) == Gathered([a] + [], NoAccess);
    assert [a][..0] == [] && [a] + [] == [a];
    assert KeptAlerts(source, States(source)[0], [a], since) == [] + [AlertFinding(source, States(source)[0], a)];
  }
}
