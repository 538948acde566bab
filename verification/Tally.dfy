// Recent CI runs: paged, tallied by (workflow, conclusion) and flattened into a sorted list.
module Tally {
  import opened GoStrings
  import opened Provider
  import opened Paging
  import opened Bags

  // One run as the API sends it. For GitLab, name is the pipeline source and conclusion its status.
  datatype Run = Run(name: string, conclusion: string)

  datatype Label = Label(workflow: string, conclusion: string)

  datatype Platform = GitHub | GitLab

  // Runs without an outcome yet: no conclusion on GitHub, no terminal status on GitLab.
  predicate Counts(platform: Platform, conclusion: string) {
    match platform
    case GitHub => conclusion != ""
    case GitLab =>
      conclusion == "success" || conclusion == "failed" || conclusion == "canceled" || conclusion == "skipped"
  }

  // lower stands for strings.ToLower; nothing is assumed of it.
  function LabelOf(platform: Platform, lower: string -> string, r: Run): Option<Label> {
    if !Counts(platform, lower(r.conclusion)) then None
    else Some(Label(if r.name == "" then "unknown" else r.name, lower(r.conclusion)))
  }

  // The labels of the completed runs, in order.
  function Labels(platform: Platform, lower: string -> string, runs: seq<Run>): seq<Label> {
    if runs == [] then []
    else
      var n := |runs| - 1;
      Labels(platform, lower, runs[..n]) +
      match LabelOf(platform, lower, runs[n])
      case Some(l) => [l]
      case None => []
  }

  lemma {:induction false} LabelsConcat(platform: Platform, lower: string -> string, a: seq<Run>, b: seq<Run>)
    ensures Labels(platform, lower, a + b) == Labels(platform, lower, a) + Labels(platform, lower, b)
  {
    hide LabelOf;
    if b == [] {
      assert a + b == a;
    } else {
      var n := |b| - 1;
      LabelsConcat(platform, lower, a, b[..n]);
      assert (a + b)[..|a + b| - 1] == a + b[..n];
    }
  }

  // ----- The nested tally -----

  type Counters = map<string, map<string, int>>

  function At(tally: Counters, l: Label): int {
    if l.workflow in tally && l.conclusion in tally[l.workflow] then tally[l.workflow][l.conclusion] else 0
  }

  predicate Has(tally: Counters, l: Label) {
    l.workflow in tally && l.conclusion in tally[l.workflow]
  }

  // The tally holds exactly the groups of the bag with their sizes.
  ghost predicate Tallies(tally: Counters, bag: multiset<Label>) {
    && (forall l: Label :: Has(tally, l) <==> l in bag)
    && (forall l: Label :: At(tally, l) == bag[l])
  }

  method Count(tally: Counters, l: Label, ghost bag: multiset<Label>) returns (t: Counters)
    requires Tallies(tally, bag)
    ensures Tallies(t, bag + multiset{l})
  {
    t := tally;
    if l.workflow !in t {
      t := t[l.workflow := map[]];
    }
    var inner := t[l.workflow];
    inner := inner[l.conclusion := (if l.conclusion in inner then inner[l.conclusion] else 0) + 1];
    t := t[l.workflow := inner];
    forall m: Label ensures Has(t, m) <==> m in bag + multiset{l} {
      assert Has(tally, m) <==> m in bag;
    }
    forall m: Label ensures At(t, m) == (bag + multiset{l})[m] {
      assert At(tally, m) == bag[m];
    }
  }

  // The loop over the runs of one page.
  method CountPage(platform: Platform, lower: string -> string, runs: seq<Run>, tally: Counters,
                   ghost bag: multiset<Label>)
    returns (t: Counters)
    requires Tallies(tally, bag)
    ensures Tallies(t, bag + multiset(Labels(platform, lower, runs)))
  {
    t := tally;
    for i := 0 to |runs|
      invariant Tallies(t, bag + multiset(Labels(platform, lower, runs[..i])))
    {
      hide Tallies, LabelOf, Labels, OneOf;
      LabelsNext(platform, lower, runs, i);
      t := CountRun(platform, lower, runs[i], t, bag + multiset(Labels(platform, lower, runs[..i])));
    }
    assert runs[..|runs|] == runs;
  }

  // One round of that loop.
  method CountRun(platform: Platform, lower: string -> string, r: Run, tally: Counters, ghost bag: multiset<Label>)
    returns (t: Counters)
    requires Tallies(tally, bag)
    ensures Tallies(t, bag + OneOf(LabelOf(platform, lower, r)))
  {
    hide Tallies, Counts;
    var conclusion := lower(r.conclusion);
    if !Counts(platform, conclusion) {
      assert bag + multiset{} == bag;
      return tally;
    }
    var name := r.name;
    if name == "" {
      name := "unknown";
    }
    t := Count(tally, Label(name, conclusion), bag);
  }

  lemma LabelsNext(platform: Platform, lower: string -> string, runs: seq<Run>, i: nat)
    requires i < |runs|
    ensures forall bag :: bag + multiset(Labels(platform, lower, runs[..i])) + OneOf(LabelOf(platform, lower, runs[i]))
                       == bag + multiset(Labels(platform, lower, runs[..i + 1]))
  {
    hide LabelOf;
    assert runs[..i + 1][..i] == runs[..i];
    var l := LabelOf(platform, lower, runs[i]);
    assert multiset(Labels(platform, lower, runs[..i + 1])) == multiset(Labels(platform, lower, runs[..i])) + OneOf(l);
  }

  ghost function OneOf(l: Option<Label>): multiset<Label> {
    match l
    case Some(x) => multiset{x}
    case None => multiset{}
  }

  // ----- The flattened statistics -----

  ghost predicate LabelLess(a: Label, b: Label) {
    Less(a.workflow, b.workflow) || (a.workflow == b.workflow && Less(a.conclusion, b.conclusion))
  }

  function StatLabel(s: WorkflowRunStat): Label { Label(s.workflow, s.conclusion) }

  // stats is the sorted list of the groups of a bag, each with its size.
  ghost predicate IsStats(stats: seq<WorkflowRunStat>, bag: multiset<Label>) {
    && (forall i, j :: 0 <= i < j < |stats| ==> LabelLess(StatLabel(stats[i]), StatLabel(stats[j])))
    && (forall i :: 0 <= i < |stats| ==> StatLabel(stats[i]) in bag && stats[i].count == bag[StatLabel(stats[i])])
    && (forall l: Label :: l in bag ==> exists i :: 0 <= i < |stats| && StatLabel(stats[i]) == l)
  }

  // The statistics of one workflow.
  ghost predicate IsGroup(stats: seq<WorkflowRunStat>, w: string, inner: map<string, int>, conclusions: seq<string>,
                          n: nat)
    requires n <= |conclusions|
  {
    && |stats| == n
    && (forall k :: 0 <= k < n ==>
          conclusions[k] in inner && stats[k] == WorkflowRunStat(w, conclusions[k], inner[conclusions[k]]))
  }

  method Group(w: string, inner: map<string, int>) returns (stats: seq<WorkflowRunStat>, ghost conclusions: seq<string>)
    ensures StrictlySorted(conclusions) && forall c :: c in conclusions <==> c in inner
    ensures IsGroup(stats, w, inner, conclusions, |conclusions|)
  {
    var keys := SortedKeys(inner);
    conclusions := keys;
    stats := [];
    for k := 0 to |keys|
      invariant IsGroup(stats, w, inner, keys, k)
    {
      hide StrictlySorted;
      assert keys[k] in keys;
      stats := stats + [WorkflowRunStat(w, keys[k], inner[keys[k]])];
    }
  }

  // What the outer loop has flattened: the groups of the workflows done so far.
  ghost predicate Flattened(stats: seq<WorkflowRunStat>, tally: Counters, done: set<string>) {
    && (forall i, j :: 0 <= i < j < |stats| ==> LabelLess(StatLabel(stats[i]), StatLabel(stats[j])))
    && (forall i :: 0 <= i < |stats| ==>
          stats[i].workflow in done && Has(tally, StatLabel(stats[i]))
          && stats[i].count == At(tally, StatLabel(stats[i])))
    && (forall l: Label :: Has(tally, l) && l.workflow in done ==>
          exists i :: 0 <= i < |stats| && StatLabel(stats[i]) == l)
  }

  lemma FlattenOne(stats: seq<WorkflowRunStat>, tally: Counters, done: set<string>, w: string,
                   group: seq<WorkflowRunStat>, conclusions: seq<string>)
    requires w in tally && forall v :: v in done ==> Less(v, w)
    requires Flattened(stats, tally, done)
    requires StrictlySorted(conclusions) && forall c :: c in conclusions <==> c in tally[w]
    requires IsGroup(group, w, tally[w], conclusions, |conclusions|)
    ensures Flattened(stats + group, tally, done + {w})
  {
    var all := stats + group;
    hide Less;
    forall l: Label | Has(tally, l) && l.workflow in done + {w}
      ensures exists i :: 0 <= i < |all| && StatLabel(all[i]) == l
    {
      if l.workflow in done {
        var i :| 0 <= i < |stats| && StatLabel(stats[i]) == l;
        assert all[i] == stats[i];
      } else {
        assert l.conclusion in conclusions;
        var k :| 0 <= k < |conclusions| && conclusions[k] == l.conclusion;
        assert all[|stats| + k] == group[k];
      }
    }
  }

  // WorkflowRunStatsFromTally.
  method StatsFromTally(tally: Counters, ghost bag: multiset<Label>) returns (stats: seq<WorkflowRunStat>)
    requires Tallies(tally, bag)
    ensures IsStats(stats, bag)
  {
    stats := [];
    var workflows := SortedKeys(tally);
    ghost var done: set<string> := {};
    for n := 0 to |workflows|
      invariant done == set k | 0 <= k < n :: workflows[k]
      invariant Flattened(stats, tally, done)
    {
      hide Flattened, IsGroup, Tallies, Less;
      assert workflows[n] in workflows;
      var group, conclusions := Group(workflows[n], tally[workflows[n]]);
      FlattenOne(stats, tally, done, workflows[n], group, conclusions);
      stats, done := stats + group, done + {workflows[n]};
    }
    assert done == tally.Keys;
    FlattenedIsStats(stats, tally, bag);
  }

  lemma FlattenedIsStats(stats: seq<WorkflowRunStat>, tally: Counters, bag: multiset<Label>)
    requires Tallies(tally, bag) && Flattened(stats, tally, tally.Keys)
    ensures IsStats(stats, bag)
  {
    assert forall l: Label :: Has(tally, l) ==> l.workflow in tally.Keys;
    hide LabelLess, Has, At, StatLabel;
    assert forall l: Label :: l in bag ==> Has(tally, l);
  }

  // collectWorkflowRuns and collectPipelineRuns, the first with page number 0 as its first cursor, the
  // second with the text "1". None is the error return; a denial is an error too.
  method CollectRuns<C(!new)>(platform: Platform, lower: string -> string, fetch: Fetch<Run, C>, first: C,
                              maxPages: nat)
    returns (result: Option<seq<WorkflowRunStat>>)
    ensures var g := Gather(fetch, first, 0, maxPages);
      && (result.Some? <==> g.end == Complete)
      && (result.Some? ==> IsStats(result.value, multiset(Labels(platform, lower, g.items))))
  {
    ghost var read: seq<Run>;
    var complete, tally;
    complete, tally, read := TallyRuns(platform, lower, fetch, first, maxPages);
    if !complete {
      return None;
    }
    var stats := StatsFromTally(tally, multiset(Labels(platform, lower, read)));
    return Some(stats);
  }

  // The paging loop.
  method TallyRuns<C(!new)>(platform: Platform, lower: string -> string, fetch: Fetch<Run, C>, first: C, maxPages: nat)
    returns (complete: bool, tally: Counters, ghost read: seq<Run>)
    ensures var g := Gather(fetch, first, 0, maxPages);
      && (complete <==> g.end == Complete)
      && (complete ==> read == g.items && Tallies(tally, multiset(Labels(platform, lower, read))))
  {
    tally, read := map[], [];
    assert Tallies(tally, multiset(Labels(platform, lower, read)));
    var cursor := first;
    hide Labels, Tallies;
    for page := 0 to maxPages
      invariant Tallies(tally, multiset(Labels(platform, lower, read)))
      invariant var rest := Gather(fetch, cursor, page, maxPages);
        Gather(fetch, first, 0, maxPages) == Gathered(read + rest.items, rest.end)
    {
      hide Gather;
      var reply := fetch(page, cursor);
      if !reply.Page? {
        GatherStops(fetch, cursor, page, maxPages, read);
        return false, tally, read;
      }
      tally := CountPage(platform, lower, reply.items, tally, multiset(Labels(platform, lower, read)));
      LabelsConcat(platform, lower, read, reply.items);
      GatherNext(fetch, cursor, page, maxPages, read);
      assert multiset(Labels(platform, lower, read + reply.items))
          == multiset(Labels(platform, lower, read)) + multiset(Labels(platform, lower, reply.items));
      read := read + reply.items;
      if reply.next == None {
        return true, tally, read;
      }
      cursor := reply.next.value;
    }
    GatherStops(fetch, cursor, maxPages, maxPages, read);
    return true, tally, read;
  }

  // ----- What the statistics promise -----

  function StatLabels(stats: seq<WorkflowRunStat>): seq<Label> {
    seq(|stats|, i requires 0 <= i < |stats| => StatLabel(stats[i]))
  }

  function TotalCount(stats: seq<WorkflowRunStat>): int {
    if stats == [] then 0 else TotalCount(stats[..|stats| - 1]) + stats[|stats| - 1].count
  }

  lemma {:induction false} TotalIsSum(stats: seq<WorkflowRunStat>, bag: multiset<Label>)
    requires forall i :: 0 <= i < |stats| ==> stats[i].count == bag[StatLabel(stats[i])]
    ensures TotalCount(stats) == SumOver(StatLabels(stats), bag)
  {
    if stats != [] {
      var n := |stats| - 1;
      TotalIsSum(stats[..n], bag);
      assert StatLabels(stats)[..n] == StatLabels(stats[..n]);
    }
  }

  lemma LabelLessIsNotEqual(a: Label, b: Label)
    requires LabelLess(a, b)
    ensures a != b
  {
    LessIrreflexive(a.workflow);
    LessIrreflexive(a.conclusion);
  }

  // The counts add up to the number of completed runs.
  lemma StatsConserveRuns(stats: seq<WorkflowRunStat>, labels: seq<Label>)
    requires IsStats(stats, multiset(labels))
    ensures TotalCount(stats) == |labels|
  {
    var bag, keys := multiset(labels), StatLabels(stats);
    forall i, j | 0 <= i < j < |keys| ensures keys[i] != keys[j] { LabelLessIsNotEqual(keys[i], keys[j]); }
    forall l | l in bag ensures l in keys {
      var i :| 0 <= i < |stats| && StatLabel(stats[i]) == l;
      assert keys[i] == l;
    }
    CoverSum(keys, bag);
    TotalIsSum(stats, bag);
  }

  lemma LabelLessTransitive(a: Label, b: Label, c: Label)
    requires LabelLess(a, b) && LabelLess(b, c)
    ensures LabelLess(a, c)
  {
    if Less(a.workflow, b.workflow) && Less(b.workflow, c.workflow) {
      LessTransitive(a.workflow, b.workflow, c.workflow);
    }
    if Less(a.conclusion, b.conclusion) && Less(b.conclusion, c.conclusion) {
      LessTransitive(a.conclusion, b.conclusion, c.conclusion);
    }
    LessIrreflexive(a.workflow);
    hide Less;
  }

  // A bag has one list of statistics: the order in which maps were iterated, and the pages in which
  // the runs came, leave no trace.
  lemma {:induction false} StatsUnique(a: seq<WorkflowRunStat>, b: seq<WorkflowRunStat>, bag: multiset<Label>)
    requires IsStats(a, bag) && IsStats(b, bag)
    ensures a == b
    decreases |a|
  {
    assert b != [] ==> StatLabel(b[0]) in bag;
    if a != [] {
      var x, y := StatLabel(a[0]), StatLabel(b[0]);
      HeadIsLeast(a, b, bag);
      HeadIsLeast(b, a, bag);
      if x != y {
        LabelLessTransitive(x, y, x);
        LabelLessIsNotEqual(x, x);
      }
      assert a[0] == b[0];
      TailIsStats(a, bag);
      TailIsStats(b, bag);
      StatsUnique(a[1..], b[1..], bag[x := 0]);
    }
  }

  lemma HeadIsLeast(a: seq<WorkflowRunStat>, b: seq<WorkflowRunStat>, bag: multiset<Label>)
    requires IsStats(a, bag) && IsStats(b, bag) && a != []
    ensures b != [] && (StatLabel(a[0]) == StatLabel(b[0]) || LabelLess(StatLabel(b[0]), StatLabel(a[0])))
  {
    hide LabelLess;
    assert StatLabel(a[0]) in bag;
    var i :| 0 <= i < |b| && StatLabel(b[i]) == StatLabel(a[0]);
  }

  lemma TailIsStats(a: seq<WorkflowRunStat>, bag: multiset<Label>)
    requires IsStats(a, bag) && a != []
    ensures IsStats(a[1..], bag[StatLabel(a[0]) := 0])
  {
    var x, t := StatLabel(a[0]), a[1..];
    forall i | 0 <= i < |t|
      ensures StatLabel(t[i]) != x && t[i].count == bag[StatLabel(t[i])] && StatLabel(t[i]) in bag
    {
      assert t[i] == a[i + 1];
      LabelLessIsNotEqual(x, StatLabel(a[i + 1]));
    }
    hide LabelLess, StatLabel;
    forall i, j | 0 <= i < j < |t| ensures LabelLess(StatLabel(t[i]), StatLabel(t[j])) {
      assert t[i] == a[i + 1] && t[j] == a[j + 1];
    }
    assert forall l: Label :: l in bag[x := 0] ==> l in bag && l != x;
    forall l: Label | l in bag && l != x ensures exists i :: 0 <= i < |t| && StatLabel(t[i]) == l {
      var i :| 0 <= i < |a| && StatLabel(a[i]) == l;
      assert t[i - 1] == a[i];
    }
  }

  // Any two ways of cutting the same runs into at most maxPages pages, along any two chains of cursors,
  // give the same statistics.
  lemma PagingLeavesNoTrace<C(!new)>(platform: Platform, lower: string -> string,
                                     fetch: Fetch<Run, C>, cursors: seq<C>, pages: seq<seq<Run>>,
                                     fetch': Fetch<Run, C>, cursors': seq<C>, pages': seq<seq<Run>>, maxPages: nat,
                                     stats: seq<WorkflowRunStat>, stats': seq<WorkflowRunStat>)
    requires Serves(fetch, cursors, pages) && Serves(fetch', cursors', pages') && Flatten(pages) == Flatten(pages')
    requires |pages| <= maxPages && |pages'| <= maxPages
    requires IsStats(stats, multiset(Labels(platform, lower, Gather(fetch, cursors[0], 0, maxPages).items)))
    requires IsStats(stats', multiset(Labels(platform, lower, Gather(fetch', cursors'[0], 0, maxPages).items)))
    ensures stats == stats' && TotalCount(stats) == |Labels(platform, lower, Flatten(pages))|
  {
    hide Labels, IsStats, Gather, Flatten;
    GatherServed(fetch, cursors, pages, maxPages);
    GatherServed(fetch', cursors', pages', maxPages);
    StatsUnique(stats, stats', multiset(Labels(platform, lower, Flatten(pages))));
    StatsConserveRuns(stats, Labels(platform, lower, Flatten(pages)));
  }

  // ----- The statistics, said of the runs -----

  // The run has ended, and is one of this workflow with this conclusion.
  function RunOf(platform: Platform, lower: string -> string, workflow: string, conclusion: string): Run -> bool {
    (r: Run) =>
      && lower(r.conclusion) == conclusion
      && (match platform
          case GitHub => conclusion != ""
          case GitLab => conclusion in ["success", "failed", "canceled", "skipped"])
      && workflow == if r.name == "" then "unknown" else r.name
  }

  lemma RunOfIs(platform: Platform, lower: string -> string, r: Run, l: Label)
    ensures RunOf(platform, lower, l.workflow, l.conclusion)(r) <==> LabelOf(platform, lower, r) == Some(l)
  {
  }

  lemma {:induction false} LabelledAsOften(platform: Platform, lower: string -> string, runs: seq<Run>, l: Label)
    ensures multiset(Labels(platform, lower, runs))[l] ==
            Times(runs, RunOf(platform, lower, l.workflow, l.conclusion))
  {
    hide LabelOf, RunOf, Times;
    if runs == [] {
      TimesNone(RunOf(platform, lower, l.workflow, l.conclusion));
    } else {
      var n := |runs| - 1;
      LabelledAsOften(platform, lower, runs[..n], l);
      TimesNext(runs, RunOf(platform, lower, l.workflow, l.conclusion));
      RunOfIs(platform, lower, runs[n], l);
    }
  }

  // What CollectRuns returns, said of the pages that its calls bring: it succeeds exactly when no call is
  // denied or breaks; there is one statistic for each workflow and conclusion of an ended run, with the
  // number of such runs, by workflow and then by conclusion.
  lemma StatsCountTheRuns<C(!new)>(platform: Platform, lower: string -> string, fetch: Fetch<Run, C>, first: C,
                                   maxPages: nat, talk: Talk<Run, C>, stats: seq<WorkflowRunStat>)
    requires IsTalk(fetch, first, 0, maxPages, talk)
    requires IsStats(stats, multiset(Labels(platform, lower, Gather(fetch, first, 0, maxPages).items)))
    ensures Gather(fetch, first, 0, maxPages).end == talk.end
    ensures forall i :: 0 <= i < |stats| ==>
              stats[i].count ==
              Times(Flatten(talk.pages), RunOf(platform, lower, stats[i].workflow, stats[i].conclusion)) > 0
    ensures forall w, c :: Times(Flatten(talk.pages), RunOf(platform, lower, w, c)) > 0 ==>
              exists i :: 0 <= i < |stats| && stats[i].workflow == w && stats[i].conclusion == c
    ensures forall i, j :: 0 <= i < j < |stats| ==>
              || Less(stats[i].workflow, stats[j].workflow)
              || (stats[i].workflow == stats[j].workflow && Less(stats[i].conclusion, stats[j].conclusion))
  {
    hide Labels, Times, Less, RunOf, IsTalk, Gather;
    GatherIsTheTalk(fetch, first, 0, maxPages, talk);
    var runs := Flatten(talk.pages);
    forall l: Label
      ensures multiset(Labels(platform, lower, runs))[l] ==
              Times(runs, RunOf(platform, lower, l.workflow, l.conclusion))
    {
      LabelledAsOften(platform, lower, runs, l);
    }
    forall w, c | Times(runs, RunOf(platform, lower, w, c)) > 0
      ensures exists i :: 0 <= i < |stats| && stats[i].workflow == w && stats[i].conclusion == c
    {
      var l := Label(w, c);
      assert l in multiset(Labels(platform, lower, runs));
    }
  }
}
