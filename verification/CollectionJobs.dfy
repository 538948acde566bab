// Collection Jobs from end to end: collect the findings resolved within the window, then record them,
// the window being the TTL. This joins the collectors' filter to the temporal argument about the store.
module CollectionJobs {
  import opened GoStrings
  import opened Scope
  import opened Valkey
  import opened Protocol
  import opened Provider
  import opened Paging
  import opened Collect
  import opened Collection
  import B = Bags
  import opened RecordPass
  import opened ExactlyOnce
  import C = Client
  import H = Histogram

  datatype Api =
    | Gitlab(fetch: Fetch<Node, After>)
    | Github(cs: Pages, ss: Pages, da: Pages)

  // One Job: it collects at time at. others is all that it collects besides resolved findings.
  datatype Job = Job(api: Api, maxPages: nat, at: Time, window: int, others: RepoMetrics, includeSeverity: bool)
  {
    function ProviderName(): string { if api.Gitlab? then "gitlab" else "github" }

    function Collected(): Option<seq<ResolvedFinding>> {
      match api
      case Gitlab(fetch) => GitlabFindings(fetch, maxPages, at - window)
      case Github(cs, ss, da) => GithubFindings(cs, ss, da, maxPages, at - window)
    }

    // A failed collection leaves the snapshot without resolved findings.
    function Found(): seq<ResolvedFinding> {
      if Collected().Some? then Collected().value else []
    }

    function Snapshot(): seq<RepoMetrics> { [others.(resolvedFindings := Found())] }

    // The calls of its record pass.
    function Calls(): seq<Call> { SnapshotCalls(ProviderName(), Snapshot(), window, includeSeverity) }

    function CallFor(rf: ResolvedFinding): Option<Call> {
      CallOf(ProviderName(), others.name, rf, window, includeSeverity)
    }
  }

  // A run-once Job: the collector and the record pass one after the other, with no other Job between.
  method RunJob(client: C.Client, job: Job, delivery: nat -> Delivery) returns (errs: seq<nat>)
    requires client.server.Valid()
    modifies client.server
    ensures client.server.Valid()
    ensures client.server.db == Run(old(client.server.db), Steps(job.Calls(), delivery))
    ensures errs == FailedCalls(0, |job.Calls()|, delivery)
  {
    var found;
    match job.api {
      case Gitlab(fetch) => found := CollectGitlab(fetch, job.maxPages, job.at, job.window);
      case Github(cs, ss, da) => found := CollectGithub(cs, ss, da, job.maxPages, job.at, job.window);
    }
    hide GitlabFindings, GithubFindings, SnapshotCalls, Run, Steps, FailedCalls;
    var repo := job.others.(resolvedFindings := if found.Some? then found.value else []);
    assert job.Snapshot() == [repo];
    errs := RecordPass.Record(client, job.ProviderName(), [repo], job.window, job.includeSeverity, delivery);
  }

  // Every call of a Job stems from a finding that was resolved within the Job's window, and carries that
  // window.
  lemma CallsAreInWindow(job: Job, c: Call) returns (rf: ResolvedFinding)
    requires c in job.Calls()
    ensures rf in job.Found() && job.CallFor(rf) == Some(c)
    ensures InWindow(rf.resolvedAt, job.at - job.window) && c.window == job.window
  {
    hide CallOf, GitlabFindings, GithubFindings, SnapshotCalls;
    var repo;
    repo, rf := SnapshotCallsGuarded(job.ProviderName(), job.Snapshot(), job.window, job.includeSeverity, c);
    match job.api {
      case Gitlab(fetch) => GitlabStaysInWindow(fetch, job.maxPages, job.at - job.window, rf);
      case Github(cs, ss, da) => GithubStaysInWindow(cs, ss, da, job.maxPages, job.at - job.window, rf);
    }
  }

  // ----- The calls of a Job, said of the API's replies -----

  lemma CallsOfFound(job: Job, c: Call)
    ensures c in job.Calls() <==>
            exists rf :: rf in job.Found() && Measurable(rf)
              && IsCallFor(job.ProviderName(), job.others.name, rf, job.window, job.includeSeverity, c)
  {
    hide Measurable, IsCallFor, SnapshotCalls, CallOf;
    var snapshot := job.Snapshot();
    assert snapshot[0] in snapshot && snapshot[0].resolvedFindings == job.Found();
    if c in job.Calls() {
      var repo, rf := SnapshotCallsGuarded(job.ProviderName(), snapshot, job.window, job.includeSeverity, c);
      CallOfMeasurable(job.ProviderName(), repo.name, rf, job.window, job.includeSeverity);
    }
    if rf :| rf in job.Found() && Measurable(rf)
             && IsCallFor(job.ProviderName(), job.others.name, rf, job.window, job.includeSeverity, c) {
      EveryMeasurableIsSent(job.ProviderName(), snapshot, job.window, job.includeSeverity);
      var d :| d in job.Calls()
               && IsCallFor(job.ProviderName(), job.others.name, rf, job.window, job.includeSeverity, d);
      OneCallFor(job.ProviderName(), job.others.name, rf, job.window, job.includeSeverity, c, d);
    }
  }

  lemma OneCallFor(provider: string, repo: string, rf: ResolvedFinding, window: int, includeSeverity: bool,
                   c: Call, d: Call)
    requires IsCallFor(provider, repo, rf, window, includeSeverity, c)
    requires IsCallFor(provider, repo, rf, window, includeSeverity, d)
    ensures c == d
  {
  }

  // A GitLab Job sends a call if and only if no call of its collection broke and some vulnerability on the
  // pages read, of a known type and resolved within the window, gives a measurable finding for it.
  lemma GitlabJobSends(job: Job, talk: Talk<Node, After>, c: Call)
    requires job.api.Gitlab? && IsTalk(job.api.fetch, None, 0, job.maxPages, talk)
    ensures c in job.Calls() <==>
            talk.end != Error && exists f ::
              && Measurable(f) && IsCallFor("gitlab", job.others.name, f, job.window, job.includeSeverity, c)
              && B.Times(Flatten(talk.pages), NodeGiving(job.at - job.window, f)) > 0
  {
    hide Measurable, IsCallFor, GitlabFindings, IsTalk, B.Times, Job.Calls, NodeGiving;
    CallsOfFound(job, c);
    var found := job.Found();
    forall f
      ensures f in found <==>
              talk.end != Error && B.Times(Flatten(talk.pages), NodeGiving(job.at - job.window, f)) > 0
    {
      GitlabCollection(job.api.fetch, job.maxPages, job.at - job.window, talk, f);
      assert f in found <==> multiset(found)[f] > 0;
    }
  }

  // A GitHub Job sends a call if and only if no broken call was reached and some alert on the pages of the
  // listed states gives a measurable finding for it.
  lemma GithubJobSends(job: Job, csTalks: nat -> Talk<Alert, int>, ssTalks: nat -> Talk<Alert, int>,
                       daTalks: nat -> Talk<Alert, int>, c: Call)
    requires job.api.Github? && Talks(job.api.cs, job.maxPages, 2, csTalks)
    requires Talks(job.api.ss, job.maxPages, 1, ssTalks) && Talks(job.api.da, job.maxPages, 3, daTalks)
    ensures var since := job.at - job.window;
      c in job.Calls() <==>
      && !Breaks(2, csTalks) && !Breaks(1, ssTalks) && !Breaks(3, daTalks)
      && exists f ::
           && Measurable(f) && IsCallFor("github", job.others.name, f, job.window, job.includeSeverity, c)
           && Given(CodeScanning, ["fixed", "dismissed"], csTalks, since, f, 0)
              + Given(SecretScanning, ["resolved"], ssTalks, since, f, 0)
              + Given(Dependabot, ["fixed", "dismissed", "auto_dismissed"], daTalks, since, f, 0) > 0
  {
    hide Measurable, IsCallFor, GithubFindings, Talks, Given, Breaks, Job.Calls;
    CallsOfFound(job, c);
    var found, since := job.Found(), job.at - job.window;
    forall f
      ensures f in found <==>
              && !Breaks(2, csTalks) && !Breaks(1, ssTalks) && !Breaks(3, daTalks)
              && Given(CodeScanning, ["fixed", "dismissed"], csTalks, since, f, 0)
                 + Given(SecretScanning, ["resolved"], ssTalks, since, f, 0)
                 + Given(Dependabot, ["fixed", "dismissed", "auto_dismissed"], daTalks, since, f, 0) > 0
    {
      GithubCollection(job.api.cs, job.api.ss, job.api.da, job.maxPages, since, csTalks, ssTalks, daTalks, f);
      assert f in found <==> multiset(found)[f] > 0;
    }
  }

  // ----- Runs of Jobs -----

  // A run of the store in which the k-th step, if applied, is a call of the Job jobs(k), in any
  // interleaving: within delta of that Job's collection, and no sooner than lag after the finding was
  // resolved.
  ghost predicate RunOf(now: int, es: seq<Step>, jobs: nat -> Job, p: Timing) {
    forall k: nat :: k < |es| && es[k].Applied() ==>
      CallOnTime(Run(Start(now), es[..k]).now, es[k].call, jobs(k), p)
  }

  ghost predicate CallOnTime(at: int, c: Call, job: Job, p: Timing) {
    && c in job.Calls()
    && p.lo <= job.window <= p.hi
    && job.at <= at <= job.at + p.delta
    && (forall rf :: rf in job.Found() && job.CallFor(rf) == Some(c) ==> at >= rf.resolvedAt + p.lag)
  }

  // All Jobs see the same resolution time of an id of a scope.
  ghost predicate ResolvedOnce(jobs: nat -> Job, resolved: (string, string) -> int) {
    forall k: nat, rf :: rf in jobs(k).Found() && jobs(k).CallFor(rf).Some? ==>
      var c := jobs(k).CallFor(rf).value;
      resolved(c.scope, c.id) == rf.resolvedAt
  }

  lemma JobRunIsWellTimed(now: int, es: seq<Step>, jobs: nat -> Job, resolved: (string, string) -> int, p: Timing)
    requires RunOf(now, es, jobs, p) && ResolvedOnce(jobs, resolved)
    ensures WellTimed(now, es, resolved, (k: nat) => jobs(k).at, p)
  {
    forall k: nat | k < |es| && es[k].Applied()
      ensures OnTime(Run(Start(now), es[..k]).now, es[k].call, resolved, jobs(k).at, p)
    {
      assert CallOnTime(Run(Start(now), es[..k]).now, es[k].call, jobs(k), p);
      hide Run, RunOf;
      var rf := CallsAreInWindow(jobs(k), es[k].call);
      assert jobs(k).CallFor(rf).value == es[k].call;
    }
  }

  ghost predicate JobsNeverCountTwice(p: Timing) {
    forall now, es, jobs, resolved ::
      RunOf(now, es, jobs, p) && ResolvedOnce(jobs, resolved) ==> NoDoubleCount(Log(Start(now), es))
  }

  // ----- The converse -----

  // A vulnerability detected a second before time 0 and resolved at time 0, on the only page there is.
  const WITNESS_NODE := Node(WITNESS_ID, "SAST", "high", true, -H.SECOND, Some(0), None, "")

  function WitnessJob(at: Time, window: int): Job {
    Job(Gitlab((k: nat, after: After) => Page([WITNESS_NODE], None)), 1, at, window,
        RepoMetrics("team/app", 0, [], None, [], []), false)
  }

  const WITNESS_FINDING :=
    ResolvedFinding(WITNESS_ID, "static_analysis", "high", "resolved", "fixed", -H.SECOND, 0)

  lemma WitnessFound(at: Time, window: int)
    requires at <= window
    ensures WitnessJob(at, window).Found() == [WITNESS_FINDING]
  {
    var job, nodes := WitnessJob(at, window), [WITNESS_NODE];
    assert Gather(job.api.fetch, None, 0, 1) == Gathered(nodes, Complete);
    assert nodes[..0] == [] && Kept([], at - window) == [];
    assert FindingOf(WITNESS_NODE, CATEGORY_STATIC_ANALYSIS) == WITNESS_FINDING;
    assert Kept(nodes, at - window) == [] + [WITNESS_FINDING];
  }

  lemma WitnessCalls(at: Time, window: int)
    requires at <= window
    ensures WitnessJob(at, window).CallFor(WITNESS_FINDING) == Some(Again(window))
    ensures WitnessJob(at, window).Calls() == [Again(window)]
  {
    var job := WitnessJob(at, window);
    assert job.CallFor(WITNESS_FINDING) == Some(Again(window)) by { hide RemediationScope; }
    WitnessFound(at, window);
    hide CallOf, RemediationScope;
    var repos, rfs := job.Snapshot(), [WITNESS_FINDING];
    assert repos[..0] == [] && rfs[..0] == [];
    assert RepoCalls("gitlab", "team/app", [], window, false) == [];
    assert RepoCalls("gitlab", "team/app", rfs, window, false) == [] + [Again(window)];
    assert SnapshotCalls("gitlab", [], window, false) == [];
    assert SnapshotCalls("gitlab", repos, window, false) == [] + [Again(window)];
  }

  // The run that counts the finding twice is a run of two such Jobs.
  function TwoJobs(p: Timing): nat -> Job {
    (k: nat) => WitnessJob(CollectedAt(p)(k), if k == 0 then p.Shortest() else p.hi)
  }

  lemma WitnessOnTime(t: int, at: Time, window: int, p: Timing)
    requires at <= window && p.lo <= window <= p.hi && at <= t <= at + p.delta && t >= p.lag
    ensures CallOnTime(t, Again(window), WitnessJob(at, window), p)
  {
    WitnessFound(at, window);
    WitnessCalls(at, window);
    hide SnapshotCalls, CallOf, GitlabFindings, Again;
  }

  lemma TwiceTimes(p: Timing)
    requires p.Valid() && p.lag <= p.hi + p.delta
    ensures Run(Start(p.lag), Twice(p)[..0]).now == p.lag
    ensures Run(Start(p.lag), Twice(p)[..2]).now == p.hi + p.delta
  {
    hide Run, Valkey.Record, Log, Again;
    TwiceStates(p);
  }

  lemma TwiceIsAJobRun(p: Timing)
    requires p.Valid() && p.lag <= p.hi + p.delta
    ensures RunOf(p.lag, Twice(p), TwoJobs(p), p)
  {
    hide Run, CallOnTime, Again, WitnessJob, Start;
    TwiceTimes(p);
    forall k: nat | k < 3 && Twice(p)[k].Applied()
      ensures CallOnTime(Run(Start(p.lag), Twice(p)[..k]).now, Twice(p)[k].call, TwoJobs(p)(k), p)
    {
      if k == 0 {
        WitnessOnTime(p.lag, CollectedAt(p)(0), p.Shortest(), p);
        assert TwoJobs(p)(0) == WitnessJob(CollectedAt(p)(0), p.Shortest());
      } else {
        assert k == 2;
        assert CollectedAt(p)(k) == p.hi;
        assert TwoJobs(p)(k) == WitnessJob(p.hi, p.hi);
        WitnessOnTime(p.hi + p.delta, p.hi, p.hi, p);
      }
    }
  }

  lemma TwiceIsResolvedOnce(p: Timing)
    requires p.Valid()
    ensures ResolvedOnce(TwoJobs(p), (s, i) => 0)
  {
    forall k: nat, rf | rf in TwoJobs(p)(k).Found() && TwoJobs(p)(k).CallFor(rf).Some? ensures rf.resolvedAt == 0 {
      WitnessFound(CollectedAt(p)(k), if k == 0 then p.Shortest() else p.hi);
      hide GitlabFindings, CallOf;
    }
  }

  // No run of collection Jobs ever counts a finding twice exactly when the timing is safe.
  lemma JobsNeverCountTwiceIffSafe(p: Timing)
    requires p.Valid()
    ensures JobsNeverCountTwice(p) <==> Safe(p)
  {
    hide Log, NoDoubleCount, Run, RunOf, ResolvedOnce, Safe;
    if Safe(p) {
      forall now, es, jobs, resolved | RunOf(now, es, jobs, p) && ResolvedOnce(jobs, resolved)
        ensures NoDoubleCount(Log(Start(now), es))
      {
        JobRunIsWellTimed(now, es, jobs, resolved, p);
        NeverCountsTwiceIffSafe(p);
      }
    } else {
      UnsafeIsReached(p);
      TwiceIsAJobRun(p);
      TwiceIsResolvedOnce(p);
      TwiceCountsTwice(p);
    }
  }

  lemma UnsafeIsReached(p: Timing)
    requires p.Valid() && !Safe(p)
    ensures p.lag <= p.hi + p.delta
  {
  }
}
