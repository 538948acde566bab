# SCM metrics exporter: verified model

This project models, in Dafny 4.11, the logic of a Kubernetes operator that dispatches collection
Jobs for the repositories of a GitHub or GitLab account, and of the exporter that runs in those
Jobs, and proves properties of that model. Paths below are relative to the root of that repository.

**The remediation histogram.** Many Jobs share one Valkey server. Each collects the findings
resolved within a window and, for every finding, has one atomic script executed: add the id to the
scope's dedup set, refresh the set's time to live, and only for a new id increment the cumulative
buckets, the sum and the count, and list the hash in an index. A reader lists the index and then
fetches one hash after the other. `Valkey` holds the data types and the script, `Protocol` runs of
record calls (applied, applied with the reply lost, not applied) and time, `ExactlyOnce` the
argument that an expired id can no longer be collected, `CollectionJobs` the same for Jobs that
collect and then record, `OrderIndependence` the independence of
order and repetition, `Reader` reads overtaken by records, `Histogram` the histogram itself, `Scope`
the label codec and the key names, and `Client` and `RecordPass` the code that drives all this, as
objects with fields and loops.

**The operator.** `Dispatch` is the capped create loop against a cluster in which Jobs finish, fail
and are deleted meanwhile; `Cap` how far the cap reaches, `Recreation` when a name gets a second Job,
`Failures` when a pass fails at a create call. `Reconcile` is the gated reconcile loop around it, over
arbitrary runs of passes, edits and Job events, and `Verdict` what one pass decides. `JobName` (with
`Bits` and `Bytes`) makes the FNV-1a Job names.

**Collection and emission.** `Paging`, `Collect` and `Tally` are the paging loops, and `Collection`
says what a whole collection hands over; `Merge` is the merging of sources through a map of objects;
`Metrics` (with `Bags`) the counting maps and the open-age histogram; `Rendering`, `Config` and
`RoundTrip` (with `Variables` and `Durations`) the environment that the operator writes and the exporter
reads. `GoStrings` and `Provider` hold what the others share.

Code that works step by step is a method with loops, over a class where the source updates an object
in place; each such method is proved against a function or predicate, and the properties are lemmas
about that. For each main operation there is also a lemma that says its result on what the operation is
given, such as alerts, findings, calls or replies, without the function that computes it. The environment
(other Jobs, the API servers, what becomes of a call on the network, the clock) enters as arbitrary
functions of the step number.

Times and durations are integer nanoseconds, and the sum field is exact.

## Where the code and its documentation differ

The model follows the code. These statements of the documentation or the comments do not hold as
they stand; each has among the members below the exact condition under which it holds, and an input
that fails it (for the shared label the condition is a bound that is reached).

- `docs/how-to-enable-mttr.md:24-25` says that repeated collection never counts a finding twice. The
  dedup set expires a whole number of seconds after its last refresh. Over all runs of collection Jobs
  the statement holds exactly when the kept time to live of the shortest window in use plus the least
  age of a finding at its first record covers the longest window in use plus the longest delay between
  computing the window and recording (`CollectionJobs.JobsNeverCountTwiceIffSafe`); two Jobs that fail
  it are part of the proof. So a window below one second never qualifies, and an edit of
  `resolutionWindow` from a shorter to a longer one has to be covered by that age
  (`ExactlyOnce.WholeSecondWindows`). Premises that remain: one clock, no loss of data, and one
  resolution time for each id of a scope. Counts are per scope: an alert id whose severity or
  resolution label changes is counted once under each scope, in every timing
  (`ExactlyOnce.TwoScopesCountTwice`, `ExactlyOnce.OncePerScope`).
- `internal/controller/render.go:43-45` calls Job names unique per repository. Two legal repository
  names share a Job name under every resource (`JobName.JobNamesDoCollide`);
  `JobName.RepositoriesCollideIff` says exactly when. Names that differ in one byte never collide.
- `internal/controller/common.go:123-124` says that an existing Job is never created again within a
  discovery cycle. Without a deletion it never is, whatever else happens
  (`Recreation.NotRecreatedUnlessRemoved`). In an inventory of distinct names, when nobody else takes the
  name, no earlier pass of the run created it again and its create call is not refused, the next pass with
  room for it when it gets there creates it again exactly when its Job was deleted before that pass lists
  the Jobs (`Recreation.RecreatedIffRemoved`, with the instance `Recreation.RemovedJobIsCreatedAgain`).
- `internal/controller/common.go:120-121` promises at most `parallelism` running or pending Jobs. The code
  counts a Job as active only while no pod of it has succeeded or failed (common.go:144), so one that is
  retrying after a failed pod (render.go:31) is not counted (`Cap.RetryingJobIsNotCounted`), and a cap
  that is lowered below what is active stays exceeded (`Cap.LoweredCapIsExceeded`). An undisturbed pass
  without errors, over distinct names that no other resource holds, ends with the Jobs that were running
  or pending and as many more as names are missing and there is room for; the promise holds at its end if
  and only if that sum is within the cap (`Cap.CapOnUnfinishedIff`). At every moment of any run that starts
  with no more active Jobs than the cap, the running or pending Jobs exceed the largest cap that was in
  force by no more than the retrying ones (`Reconcile.CapHoldsAtEveryMoment`).
- Two resources of the same name, one of each kind, in one namespace share their selector labels
  (render.go:35-41) and count each other's Jobs. A pass then ends with no more active Jobs than the larger
  of the cap and what it found, and the Jobs that the other one creates during the pass
  (`Cap.ExcessIsForeign`); for every cap and every number of such Jobs, a pass ends that far above the cap
  (`Cap.SharedLabelBreaksTheCap`).
- `internal/provider/github/lifecycle.go:15-18` says that an inaccessible source contributes nothing.
  A denied source contributes nothing if and only if no alert on the pages before the denied call was
  resolved in the window (`Collect.DeniedContributesNothingIff`); a denial of the first call leaves
  nothing, one of the second page keeps the first (`Collect.DeniedLaterKeepsEarlierPages`).
- `internal/controller/common.go:41-43` says that the delay after a rate-limit pause reaches past the
  reset. For a reset so far ahead that distance and buffer exceed a 64-bit duration the sum wraps, and
  the delay is the floor (`Reconcile.RateLimitRequeue`, `Reconcile.FarResetIsMissed`).
- The schema admits windows that are zero or negative; every Job of a resource that uses such a window
  fails when it loads its configuration (`RoundTrip.GitHubJobConfig`, `RoundTrip.GitLabJobConfig`; two such
  resources are in `RoundTrip.ZeroWindowsAreAdmitted`).
- A scope with a separator character in one of its labels is recorded but never read back
  (`Scope.ParseEncodedScope`, `Scope.SeparatorIsUnreadable`, `Reader.ReadReportsExactlyTheCounted`).

## Model

| member | source | states |
|---|---|---|
| Valkey.RecordEffect | internal/store/valkey.go:55-68 | Everything one record call changes: the finding is counted exactly when its id is not in the live dedup set; the set then holds the id until now plus the time to live (or is gone at once for a non-positive one); only a counted finding touches its histogram and the index; every other scope is as before |
| Valkey.ScriptEffect | internal/store/valkey.go:55-68 | The same for arbitrary keys, key by key, from well-typed entries |
| Valkey.HIncrEachBumps | internal/store/valkey.go:61-63 | The loop of increments adds to every requested field at once |
| Client.Server.EvalRecordScript | internal/store/valkey.go:55-68 | The script as single commands has the effect of the one atomic step |
| Client.Client.RecordIfNew | internal/store/valkey.go:76-99 | One call is one step of the protocol, for each fate of the call; it reports an error exactly when no reply came, and "counted" exactly when the id was new |
| Client.Client.Remediation | internal/store/valkey.go:102-132 | A read that arbitrary other calls overtake between its commands returns the series of the keys its first command listed, each as its own fetch saw it; any failing command makes it an error |
| Client.Client.Fetch | internal/store/valkey.go:109-129 | One fetched hash gives one series, or none when it is empty or its scope does not parse |
| Client.Decode | internal/store/valkey.go:122-128 | Buckets in the order of the bounds, each read from its own field, the overflow bucket last, sum and count from theirs, missing fields zero |
| Protocol.StoredIsFromScratch | internal/store/valkey.go:44-99 | After any run, each stored hash is the from-scratch histogram of the calls counted in its scope, and the index lists exactly the scopes with a counted call |
| Protocol.StoredIsFirstApplied | internal/store/valkey.go:44-99 | As long as nothing was counted twice, each stored hash is the from-scratch histogram of the first applied duration of each id, whatever calls failed before or after they applied and were retried |
| Protocol.LogIsFirstApplied | internal/store/valkey.go:44-68 | The counted calls of a scope are the first applied call of each id, in order |
| Protocol.EveryIdCounted | internal/store/valkey.go:44-60 | A dedup set never holds an id that was not recorded, and every recorded id was counted at least once: no first call is lost |
| Protocol.NothingForgotten | internal/store/valkey.go:56-60 | While every window outlasts the run, no dedup set is lost and nothing is counted twice |
| Protocol.RunGrows | internal/store/valkey.go:61-66 | Over any run of positive durations no field of any histogram falls or disappears, and the index only grows |
| Protocol.RunWellTyped | internal/store/valkey.go:55-68 | Every step keeps the three key families apart and the histograms and the index without expiry |
| ExactlyOnce.NeverCountsTwiceIffSafe | internal/store/valkey.go:55-68 | Over all runs of records with windows between a shortest and a longest one, each within its window and a delay, with one resolution time for each id of a scope: no (scope, id) is ever counted twice, although dedup sets expire, if and only if the kept whole-second time to live of the shortest window plus the least age at first record covers the longest window plus the delay (or nothing can be recorded at all) |
| ExactlyOnce.RunIsGuarded | internal/store/valkey.go:56-57 | In such a run every counted finding is remembered until it has left the window of every collection that could still record it |
| ExactlyOnce.WholeSecondWindows | internal/store/valkey.go:89 | For windows of whole seconds the condition is that the age of a finding at its first record is at least the difference of the windows plus the delay of a record |
| ExactlyOnce.SubSecondWindowForgets | internal/store/valkey.go:89 | A window below one second is cut to a time to live of zero and always allows a second count |
| ExactlyOnce.TwiceCountsTwice | internal/store/valkey.go:55-68 | In every unsafe timing, one concrete run of two records of one finding counts it twice |
| ExactlyOnce.ExpiryIsHarmless | internal/store/valkey.go:55-68 | In a safe timing the stored histograms are those of the first applied durations, although sets expire during the run |
| ExactlyOnce.TwoScopesCountTwice | internal/lifecycle/record.go:44-49 | An id recorded under two scopes is counted in each of them, in every timing |
| ExactlyOnce.OncePerScope | internal/store/valkey.go:55-68 | In a safe timing each recorded id is counted exactly once in each scope |
| CollectionJobs.RunJob | cmd/exporter/main.go:111-125 | A run-once Job sends exactly the calls of what it collected, once each and in order |
| CollectionJobs.GitlabJobSends | cmd/exporter/main.go:111-125 | The same for the vulnerabilities of a GitLab project |
| CollectionJobs.GithubJobSends | cmd/exporter/main.go:111-125 | From the API's replies to the store: a GitHub Job sends a call if and only if no broken call was reached and some alert on the pages of the listed states, resolved within the window, gives a measurable finding for it |
| CollectionJobs.CallsAreInWindow | internal/provider/gitlab/lifecycle.go:63-95 | Every call of a Job stems from a finding that its collector kept as resolved within the window, and carries that window as its time to live |
| CollectionJobs.JobRunIsWellTimed | internal/lifecycle/record.go:33-55 | Any interleaving of such Jobs, each recording within the delay of its collection, meets the premises of the temporal argument |
| CollectionJobs.TwiceIsAJobRun | internal/provider/gitlab/lifecycle.go:62-106 | In every timing that records anything, the run that counts twice when unsafe is a run of two collection Jobs |
| CollectionJobs.JobsNeverCountTwiceIffSafe | internal/lifecycle/record.go:33-55 | No run of collection Jobs, of either provider and with any pages, ever counts a finding twice if and only if the timing is safe |
| OrderIndependence.RecordingDependsOnTheSetOnly | internal/lifecycle/record.go:35-53 | Two runs within their windows that recorded the same set of findings, each with one duration, in any order and number, hold the same histograms and the same index |
| RecordPass.RetriedPassesEqualOneCleanPass | internal/lifecycle/record.go:33-55 | Any number of passes over a snapshot, cut short, repeated, with calls failing before or after they applied, ends in the same histograms and index as one clean pass |
| RecordPass.Record | internal/lifecycle/record.go:33-55 | The pass sends exactly the calls of the snapshot, once each and in order, goes on after a failed call, and returns one error for each failed call |
| RecordPass.PassSends | internal/lifecycle/record.go:33-55 | The calls of a pass are exactly those of such findings, one each, in the order of the repositories and of the findings in them |
| RecordPass.EveryMeasurableIsSent | internal/lifecycle/record.go:33-55 | Every finding with an id, a resolution, a known creation time and a later resolution time has its call, however long its remediation took: same id, the difference of its times (or the longest duration), the pass's window, the scope of its labels; and there are as many calls as such findings |
| RecordPass.FailedCallsAre | internal/lifecycle/record.go:49-52 | The errors of a pass are the failed calls and no others, each once and in the order of the calls |
| RecordPass.RecordFinding | internal/lifecycle/record.go:36-52 | One finding: a call is attempted if and only if it has an id, a resolution, a known creation time and a later resolution time, with its id, its duration and the scope of its labels |
| RecordPass.SnapshotCallsGuarded | internal/lifecycle/record.go:37-48 | Every call sent stems from a finding of the snapshot with an id, a known creation time, a positive duration, and the scope of its labels |
| RecordPass.PassIsPositive | internal/lifecycle/record.go:40-43 | Every pass keeps all histograms monotone, whatever happens to its calls |
| Reader.EverySeriesIsASnapshot | internal/store/valkey.go:102-131 | Each series of an overtaken read is the exact state of its scope at some moment between start and end of the read |
| Reader.SeriesReportTheCounted | internal/store/valkey.go:102-131 | Every series of an overtaken read reports exactly the durations counted in its scope when its key was fetched: the sum is their total, the count their number, each finite bucket, in the order of the bounds, the number of those up to its bound, and the overflow bucket comes last with the number of all |
| Reader.SuccessiveReadsNeverFall | internal/store/valkey.go:102-131 | Without data loss, every series of one read is in the next one, with no bucket, sum or count lower |
| Reader.ReachableIsConsistent | internal/store/valkey.go:61-65 | In every reachable hash the buckets never fall as the bound grows, the overflow bucket is the count, and the sum lies between what the buckets allow at least and (without overflow) at most |
| Reader.ReadReportsExactlyTheCounted | internal/store/valkey.go:109-129 | A read reports exactly the label tuples under which something was counted when the index was listed, as far as no label holds the separator |
| Reader.IndexedHasHash | internal/store/valkey.go:61-66 | A scope is in the index, has a hash and has counted calls, all three or none |
| Histogram.ObserveExtends | internal/store/valkey.go:76-85 | The incremental histogram after one more observation is the one computed from scratch over the longer list |
| Histogram.CountAtMostIsHowMany | internal/store/valkey.go:76-85 | The count of a bucket is the number of places of the list with a duration up to its bound |
| Histogram.HistogramUnique | internal/store/valkey.go:76-85 | Only one hash is the histogram of a given list of durations |
| Histogram.HistogramIsConsistent | internal/provider/provider.go:258-261 | A histogram of positive durations has nondecreasing buckets, an overflow bucket equal to its count, and a sum within the bounds of its buckets |
| Histogram.HistogramOrderIrrelevant | internal/store/valkey.go:61-65 | Histograms of the same durations in any two orders are the same hash |
| Histogram.ObserveGrows | internal/store/valkey.go:61-65 | An observation of a positive duration lowers no counter and drops no field |
| Histogram.BucketFieldInjective | internal/store/store.go:29-36 | Different bounds have different field names |
| Histogram.BucketFieldNotTotal | internal/store/store.go:29-36 | No bucket field is the sum or count field |
| Scope.ParseEncodedScope | internal/provider/provider.go:272-285 | Encoding then parsing gives the labels back exactly when no label holds the separator; otherwise the scope does not parse |
| Scope.SeparatorIsUnreadable | internal/provider/provider.go:263-285 | Labels with a separator in one of them are encoded into a scope that does not parse |
| Scope.EncodeParsedScope | internal/provider/provider.go:272-285 | Parsing then encoding gives back every string that parses, and its labels are free of the separator |
| Scope.ScopeInjective | internal/provider/provider.go:263-274 | Different label tuples without separators never share a scope, hence never a histogram |
| Scope.ScopeText | internal/provider/provider.go:272-274 | A scope is its five labels in order, with the separator between them |
| Scope.KeysNeverCollide | internal/store/store.go:22-27 | Dedup sets, hashes and the index never share a key, different scopes never share one either, and the scope is read back from the key |
| GoStrings.SplitJoin | internal/provider/provider.go:273-280 | Splitting a joined list gives back pieces that hold no separator |
| GoStrings.JoinSplit | internal/provider/provider.go:273-280 | Joining the pieces of a split gives back the string |
| GoStrings.ParseFormatInt | internal/config/config.go:237-247 | A printed integer is parsed back exactly when it fits 64 bits |
| GoStrings.SortedKeys | internal/provider/provider.go:104-114 | Map keys appended in any iteration order and sorted are the strictly sorted list of the keys |
| GoStrings.StrictlySortedUnique | internal/provider/provider.go:99-114 | A strictly sorted list is fixed by its elements, so iteration order leaves no trace |
| GoStrings.LessIs | internal/provider/provider.go:104-114 | The string order: after a common beginning, the first one ends or has the smaller character |
| Dispatch.DispatchJobs | internal/controller/common.go:125-169 | The loop over a live cluster is the pass that the lemmas below are about, with its result and its effect |
| Dispatch.Census | internal/controller/common.go:139-147 | The names in use and the number of active Jobs, in whatever order Jobs are listed |
| Dispatch.NoCreateAtTheCap | internal/controller/common.go:149-166 | Whatever finishes or is deleted during the loop, no Job is created while parallelism or more Jobs are active in the cluster at that moment |
| Dispatch.PassKeepsCap | internal/controller/common.go:135-168 | A pass never leaves more active Jobs than the larger of the cap and what it found, if nobody else uses the label |
| Dispatch.PassIsGreedy | internal/controller/common.go:139-168 | A pass creates a prefix of the missing names in inventory order within its room; without a failed create it is the longest such prefix, and the pass is pending exactly when missing names remain |
| Failures.CreatedWhenFailed | internal/controller/common.go:149-168 | A failed pass has created exactly the missing names before the first such name, and that name too if and only if its call had applied |
| Failures.StatusOfPass | internal/controller/common.go:149-168 | Over a distinct inventory that nobody else claims, a pass fails if and only if a missing name within its room meets an error of its create call, also one that applied; otherwise it is pending if and only if more names are missing than there is room for |
| Dispatch.LaterPassesCreateTheRest | internal/controller/common.go:149-168 | After a pass that failed or hit the cap, exactly the rest of the missing names is missing |
| Cap.RetryingJobIsNotCounted | internal/controller/common.go:139-166 | With a cap of one and a Job that is retrying after a failed pod, a pass creates another Job: two are running or pending |
| Cap.LoweredCapIsExceeded | internal/controller/common.go:149-166 | With the cap lowered to one, two active Jobs and no retrying one, a pass ends with two running or pending |
| Cap.CapOnUnfinishedIff | internal/controller/common.go:120-168 | An undisturbed pass without errors, over distinct names that no other resource holds, adds to the running or pending Jobs exactly the smaller of the missing names and the room; so at its end these keep the cap if and only if that sum is within it |
| Cap.QuietPassAddsCreated | internal/controller/common.go:149-166 | Whatever becomes of its create calls, an undisturbed pass adds to the running or pending Jobs exactly those it reports as created |
| Cap.CappedPassKeepsCapIff | internal/controller/common.go:120-168 | In particular, an undisturbed pass that starts within the cap and ends at it leaves the cap and the retrying Jobs running or pending; so these keep the cap if and only if no listed Job is retrying |
| Cap.UnfinishedWithinCap | internal/controller/common.go:135-168 | At every moment of every pass, the active Jobs are no more than the larger of the cap and what the pass found active, and the running or pending ones exceed that by no more than the retrying ones |
| Cap.ExcessIsForeign | internal/controller/common.go:135-168 | Whoever else uses the label, a pass ends with no more active Jobs than the larger of the cap and what it found, and the Jobs others create under the label during the pass |
| Cap.SharedLabelBreaksTheCap | internal/controller/render.go:35-41 | That bound is reached: for every cap and every number of Jobs that another resource creates under the label during a pass, a pass that found one Job less than the cap ends that many above it |
| Recreation.CreatedIff | internal/controller/common.go:149-166 | A name is created by a pass if and only if it had no Job at the list, the pass has room when it reaches it, and no Job of that name is in the way then |
| Recreation.NotRecreatedUnlessRemoved | internal/controller/common.go:120-124 | Over any number of passes and whatever happens meanwhile, a name that has a Job is created again only after that Job was deleted |
| Recreation.RecreatedIffRemoved | internal/controller/common.go:120-168 | With distinct names, nobody else taking the name, no earlier pass of the run creating it and its create call not refused: the next pass that has room when it reaches a name creates it again if and only if its Job was deleted before the pass listed the Jobs |
| Recreation.RemovedJobIsCreatedAgain | internal/controller/common.go:120-124 | An instance: a deleted Job is created again by a pass with room for it |
| Dispatch.RoundProgress | internal/controller/common.go:149-168 | A retried pass before which an active Job finished creates at least one missing Job and keeps the cap |
| Dispatch.MissingFalls | internal/controller/common.go:149-168 | Over retried dispatch passes the number of names without a Job falls by at least one a pass, until none is left |
| Dispatch.DispatchConverges | internal/controller/common.go:149-168 | As many retried dispatch passes as names were missing end with a Job for every name and nothing pending |
| Reconcile.Reconcile | internal/controller/githubmetricsexporter_controller.go:61-161 | One pass over the resource and the cluster has the outcome that the lemmas below are about: status, Jobs, requeue delay and error, also when the read fails or the status update fails before or after it applied |
| Verdict.LandsIff | internal/controller/githubmetricsexporter_controller.go:61-67 | When the status is stored, when the pass ends in error, and when it asks to be requeued |
| Verdict.ReadyIff | internal/controller/githubmetricsexporter_controller.go:105-121 | A pass past the gates is Ready if and only if the Jobs can be listed and no name it would create meets an error of its create call; the next pass follows after a minute, after half a minute when names are left over, or after the interval |
| Verdict.GateDecides | internal/controller/githubmetricsexporter_controller.go:67-97 | The first gate that stops a pass gives the reason of the condition and the delay; the pass touches no Job |
| Verdict.InventoryIsFresh | internal/controller/githubmetricsexporter_controller.go:86-103 | Over any run: when a pass past the gates lands and its discovery would succeed, the stored inventory is that of the latest discovery that landed, which is its own or younger than the interval in force |
| Verdict.DiscoversIff | internal/controller/common.go:85-92 | A pass discovers if and only if its Secret holds the credential of the auth mode, its budget is not known to be below the threshold, the discovery succeeds, and nothing was discovered yet, nothing was found, or the interval has passed; what it found is stored with its time, anything else stays |
| Reconcile.GatedRunChangesNothing | internal/controller/githubmetricsexporter_controller.go:67-97 | However many passes in a row are stopped by bad credentials, a known low budget or a failed discovery, they create no Job, change neither inventory nor discovery time, and never make Ready true |
| Reconcile.LoopConverges | internal/controller/githubmetricsexporter_controller.go:67-121 | From an empty status, a due discovery or a stored inventory: as many retried passes of the whole loop as names were missing, through the gates and with status updates that may fail, end with a Job for every repository; the last pass, if its update succeeds, leaves the repositories stored and asks for no early requeue |
| Reconcile.InventoryIsLatestDiscovery | internal/controller/githubmetricsexporter_controller.go:91-121 | Over any run the stored inventory is that of the latest successful discovery whose status update applied |
| Reconcile.ReadyMeansDispatched | internal/controller/gitlabmetricsexporter_controller.go:47-106 | Over any run Ready is true exactly when the latest pass that reached the status dispatched without an error |
| Reconcile.DiscoveriesAreSpaced | internal/controller/common.go:85-92 | However often the loop runs, a discovery is repeated only after the interval, or when the latest one that landed found nothing |
| Reconcile.LoopIsPaced | internal/controller/githubmetricsexporter_controller.go:67-121 | Over any run, through gates, errors, full caps, edits and Job events, the passes that begin when the delay of the one before is over take at least half a minute each, or the shortest discovery interval in force if that is less: the timer never makes the loop busy |
| Reconcile.RateLimitRequeue | internal/controller/common.go:41-50 | The delay after a pause is never below the floor, and reaches past the provider's reset if and only if distance and buffer fit a 64-bit duration; else it is the floor |
| Reconcile.FarResetIsMissed | internal/controller/common.go:41-50 | A reset as far ahead as a duration can express leaves the floor as the delay |
| Reconcile.CapHoldsOverRuns | internal/controller/common.go:135-168 | No run of passes, Job events and edits has more active Jobs than the largest parallelism in force; with a constant one the cap is an invariant |
| Reconcile.CapHoldsAtEveryMoment | internal/controller/common.go:135-168 | The same at every moment within a pass, and no more Jobs are running or pending than that and the retrying ones |
| Reconcile.UnfinishedOverRuns | internal/controller/common.go:120-168 | Over any run the running or pending Jobs exceed the largest parallelism in force by no more than the retrying ones |
| JobName.ComputeJobName | internal/controller/render.go:46-56 | The hash loop, the sanitizer and the cut compute the name that the lemmas below are about |
| JobName.SanitizeName | internal/controller/render.go:58-73 | The builder loop and the trim give the cleaned, trimmed text, or "repo" |
| JobName.JobNameIs | internal/controller/render.go:43-73 | The name in full: lower-case text with a hyphen for each character a label cannot hold, without hyphens around it (or "repo"), cut at 54 characters, a hyphen, and eight hexadecimal digits whose value is the hash |
| JobName.Utf8CharIs | internal/controller/render.go:47-48 | The bytes that are hashed decode to the character, in the form of section 3 of RFC 3629 |
| JobName.JobNameIsDnsLabel | internal/controller/render.go:43-73 | Every name is a label in the sense of section 2.1 of RFC 1123, also when the cut lands on a hyphen or nothing is left to sanitize |
| JobName.FnvStepInjective | internal/controller/render.go:47-49 | One FNV-1a step modulo 2^32 loses neither the state nor the byte |
| JobName.OneByteChangesHash | internal/controller/render.go:47-49 | Byte strings of equal length that differ in one byte have different hashes |
| JobName.Hex8Injective | internal/controller/render.go:49 | Different hashes have different eight-digit texts |
| JobName.OneByteApartNeverCollide | internal/controller/render.go:46-56 | Repository names that differ in exactly one byte never share a Job name |
| JobName.JobNamesCollideIff | internal/controller/render.go:43-56 | For any two resources and repositories: the Job names agree exactly when the cut prefixes and the hashes agree |
| JobName.RepositoriesCollideIff | internal/controller/render.go:43-73 | Two repositories of one resource share a Job name if and only if their names have the same hash and the same cleaned text as far as the name of the resource leaves room |
| JobName.JobNamesDoCollide | internal/controller/render.go:43-56 | Two concrete repository names that share a Job name |
| Paging.GatherServed | internal/provider/github/lifecycle.go:52-79 | However a list is cut into at most maxPages pages along a chain of cursors, following the cursors from reply to reply brings in exactly the list; of a longer cut, the first maxPages pages |
| Paging.TalkOf | internal/provider/gitlab/lifecycle.go:66-102 | Every server has such a list of calls, so nothing is assumed of it |
| Paging.GatherIsTheTalk | internal/provider/gitlab/lifecycle.go:66-102 | Whatever a server replies: a loop makes each call with the cursor of the reply before it and ends at a denial, an error, a last page or the limit; it brings in the pages of its calls, in order |
| Paging.EndlessCursorsEnd | internal/provider/gitlab/lifecycle.go:66-102 | A server that hands out a further cursor with every page, whatever the cursors are, is read for exactly maxPages calls |
| Paging.RepeatedCursor | internal/provider/gitlab/lifecycle.go:66-102 | In particular one that repeats its cursor, whose page is then read that often |
| Collect.CollectGitlab | internal/provider/gitlab/lifecycle.go:62-106 | The paging loop, threading the end cursor, returns the window filter over everything the calls brought in, or an error |
| Collection.GitlabCollection | internal/provider/gitlab/lifecycle.go:62-145 | The same for a GitLab project: only a broken call loses the collection, and each finding is in it exactly as often as vulnerabilities on the pages give it |
| Collect.PageBoundariesIrrelevant | internal/provider/gitlab/lifecycle.go:58-105 | Along a chain of end cursors the collected findings are the window filter over all nodes, wherever the pages were cut |
| Collect.KeptIsTheWindow | internal/provider/gitlab/lifecycle.go:78-95 | A node is kept exactly when its type is mapped and it was resolved within the window |
| Collect.CollectSource | internal/provider/github/lifecycle.go:47-164 | One source over its states and pages, threading the next page; a denial keeps what was collected so far, any other error loses it |
| Collect.CollectGithub | internal/provider/github/lifecycle.go:19-44 | The three sources in turn; an error of one loses all |
| Collection.GithubIsTheWindow | internal/provider/github/lifecycle.go:19-44 | When every state is served within the page limit, the collection succeeds, and a finding is in it if and only if some alert on some page of one of the six lists gives it |
| Collection.GithubCollection | internal/provider/github/lifecycle.go:15-160 | Whatever the API replies: the collection is lost if and only if a broken call is reached in one of the three sources; otherwise each finding is in it exactly as often as alerts on the pages of the listed states of code scanning, secret scanning and Dependabot give it, every field and the window spelled out |
| Collect.SourceStaysInWindow | internal/provider/github/lifecycle.go:60-64 | Everything a source hands over was resolved within the window, which is what the store's time to live relies on |
| Collect.DeniedContributesNothingIff | internal/provider/github/lifecycle.go:15-18 | A denied source contributes nothing if and only if no alert on the pages before the denied call was resolved within the window |
| Collect.DeniedLaterKeepsEarlierPages | internal/provider/github/lifecycle.go:52-59 | A denial of the second page keeps what the first one brought in |
| Collect.DeniedAtOnce | internal/provider/github/lifecycle.go:52-59 | A denial of the very first call leaves nothing |
| Collect.SourceIsTheWindow | internal/provider/github/lifecycle.go:47-164 | When every state fits the page limit, a source hands over exactly the alerts of its states that were resolved within the window |
| Collect.IdsNeverClash | internal/provider/github/lifecycle.go:66-110 | The dedup id tells source and alert number apart |
| Tally.CollectRuns | internal/provider/github/workflows.go:18-54 | The paging loop, threading the cursor, returns the sorted statistics of the completed runs it was given, or an error |
| Tally.StatsCountTheRuns | internal/provider/github/workflows.go:18-54 | Of the pages that the calls bring: one statistic for each workflow ("unknown" without a name) and conclusion of an ended run, with the number of such runs, by workflow and then conclusion; the collection succeeds exactly when no call is denied or breaks |
| Tally.CountPage | internal/provider/gitlab/repo.go:174-187 | The nested tally holds exactly the groups of the completed runs with their sizes |
| Tally.StatsFromTally | internal/provider/provider.go:102-120 | The flattened tally is strictly sorted by workflow and conclusion, and holds every group with its size |
| Tally.StatsConserveRuns | internal/provider/provider.go:99-120 | The counts add up to the number of completed runs |
| Tally.StatsUnique | internal/provider/provider.go:99-120 | The same runs have one list of statistics, whatever the iteration order of the maps |
| Tally.PagingLeavesNoTrace | internal/provider/gitlab/repo.go:158-193 | Any two ways of cutting the same runs into at most maxPages pages, along any chains of cursors, give the same statistics |
| Merge.MergeGithub | internal/provider/github/github.go:291-326 | The merge through a map of objects returns the sorted listing of the merged table |
| Merge.SortFindings | internal/provider/github/github.go:328-335 | Sorting in place keeps the findings and orders them by category and severity |
| Merge.GithubMergeConserves | internal/provider/github/github.go:291-326 | The names are exactly those of the sources; each row holds every finding of every source under its name, as often as the sources do, in order, and the pull requests and posture of the last repository of that name |
| Merge.ListingIsOrdered | internal/provider/github/github.go:308-335 | Repositories ascend by name, each name once; the findings of each ascend by category, and within one by severity |
| Merge.MergeGitlab | internal/provider/gitlab/gitlab.go:201-235 | The same for projects, vulnerabilities and posture |
| Merge.GitlabMergeConserves | internal/provider/gitlab/gitlab.go:201-235 | The names are exactly those of the three sources, and each row holds exactly what they say of it |
| Merge.ListingsAgree | internal/provider/github/github.go:308-325 | Map iteration order leaves no trace but the order of findings that the comparison calls equal |
| Merge.SortedKeysUnique | internal/provider/github/github.go:328-335 | Two sorted lists of the same findings agree at every place in category and severity |
| Metrics.CountFindings | internal/metrics/metrics.go:331-341 | The count map holds exactly the label tuples of the findings, with their numbers |
| Metrics.SeriesCountFindings | internal/metrics/metrics.go:331-356 | Each series counts the findings with its labels, a label that is off being empty, and no series without a finding is emitted |
| Metrics.DroppingLabelsAddsUp | internal/metrics/metrics.go:331-356 | Adding up the series with more labels over the labels dropped gives the series with fewer, in whatever order the map is iterated |
| Metrics.FindingsConserve | internal/metrics/metrics.go:331-356 | The finding counts add up to the number of findings |
| Metrics.CountStates | internal/metrics/metrics.go:367-374 | The by-state map counts open and resolved findings by category and state |
| Metrics.StatesCountFindings | internal/metrics/metrics.go:367-383 | Each by-state count is the number of open findings under "open" and of resolved ones under their own states |
| Metrics.StateKeySplits | internal/metrics/metrics.go:368-381 | The two labels come back from the joined key exactly when the category holds no NUL |
| Metrics.StatesConserve | internal/metrics/metrics.go:367-383 | The by-state counts add up to the open plus the resolved findings |
| Metrics.OpenAge | internal/metrics/metrics.go:409-429 | The accumulators hold, by category, the histogram of the ages of the findings whose creation time is known |
| Metrics.BucketsCountFindings | internal/metrics/metrics.go:409-429 | Each open-age bucket is the number of findings of the category with a known creation time that are at most so old, the overflow bucket and the count the number of all of them; a category without any has no histogram |
| Metrics.OpenAgeAgreesWithStore | internal/metrics/metrics.go:409-429 | After any run, a scope whose counted durations are the ages holds the same buckets, overflow bucket, count and sum as the accumulator |
| Metrics.OpenAgeEqualsRecorded | internal/metrics/metrics.go:409-429 | For any ages, the accumulator and a store that recorded them under distinct ids give the same histogram |
| Durations.ParseDurationString | internal/controller/render.go:133 | The text of every 64-bit duration, whole seconds or not, is parsed back to that duration |
| Durations.ComponentOf | internal/config/config.go:254 | One number and unit of such a text is read as its worth, whatever follows |
| Config.Load | internal/config/config.go:84-145 | Loading fails exactly when the environment describes no valid configuration for the provider, and otherwise returns the one it describes |
| Config.ReadsOne | internal/config/config.go:84-145 | An environment describes at most one configuration |
| Config.SettingsAre | internal/config/config.go:84-211 | What it holds for those that are set, and which must be |
| Config.DefaultsAre | internal/config/config.go:84-145 | What a loaded configuration holds for variables that are unset or empty |
| Config.ParseDimensions | internal/config/config.go:215-228 | A flag is set exactly when its name is an entry of the list, up to white space |
| Config.DimensionsAre | internal/config/config.go:213-228 | A dimension is on exactly when a piece between commas holds its name and otherwise only white space |
| Config.JoinedDimensions | internal/config/config.go:213-228 | A joined list of dimension names sets exactly the flags of its names, repeated or not |
| Config.ValidateGitHub | internal/config/config.go:166-192 | Accepted exactly when the target of the chosen type is set and one authentication method is usable |
| Config.ValidateGitLab | internal/config/config.go:194-211 | Accepted exactly when the target of the chosen type and the token are set |
| Rendering.CommonExporterEnv | internal/controller/render.go:122-147 | Each shared variable, those of the metrics exporter and its endpoint included, is set to the resource's value, or not at all when its feature is off |
| Rendering.LifecycleEnv | internal/controller/render.go:130-145 | The lifecycle variables, with the default key of the password Secret |
| Rendering.GitHubEnv | internal/controller/render.go:170-196 | Each GitHub variable is set to the resource's value or not at all; exactly one authentication method is written |
| Rendering.GitLabEnv | internal/controller/render.go:232-251 | The same for GitLab |
| Rendering.LookupAppendAll | internal/controller/render.go:88-97 | A variable of the appended list overrides an earlier one of the same name, and no other |
| RoundTrip.GitHubJobConfig | internal/controller/render.go:155-196 | For every admitted resource that overrides none of the variables its exporter reads: loading the rendered environment succeeds exactly when the windows in use are positive and a token in use is not empty, and then every setting is the one asked for; the metrics exporter and its endpoint arrive unless the resource sets them itself |
| RoundTrip.GitLabJobConfig | internal/controller/render.go:220-251 | The same for GitLab |
| RoundTrip.ZeroWindowsAreAdmitted | internal/config/config.go:249-262 | A resource of each kind that the schema admits, with a window of zero in use and its token set: neither configuration loads |
| RoundTrip.AskedTargetAndAuth | internal/config/config.go:149-181 | The target polled and the authentication used are those of the resource |

## Left out

- HTTP, GraphQL, JSON decoding, authentication and retry transports: a page, probe or discovery result is an arbitrary value.
- The Kubernetes client, informer caches, leader election, webhooks and generated code: listing, creating and status updates are atomic steps that may fail.
- A failure of SetControllerReference is not told apart from a rejected create call; both end the pass before anything applied.
- A Job counts as running or pending while no pod of it has succeeded and at most two have failed; other ways for Kubernetes to end a Job are deletions here.
- The expiry argument takes for granted one clock for collectors and store, and one resolution time for each id of a scope; a finding that is reopened and resolved again is a new one to it only under a new id.
- Condition messages, transition times and the truncation of stored times to seconds.
- The Redis protocol, the Lua engine, cluster failover and data loss: a script is one atomic step, and the server forgets nothing but expired keys.
- Floating-point rounding of the sum and of bucket comparisons: arithmetic is exact, in integer nanoseconds.
- 64-bit overflow of the counters.
- OpenTelemetry instruments, exporters and resource attributes, logging, the Helm chart and the CRD manifests.
- The collector cache, discovery selectors and globs, NormalizeSeverity, the mappings of resolution reasons and posture, and the partial-failure branches of a snapshot: they are easy; mapped values are inputs here.
- Case folding: `strings.ToLower` is an arbitrary function, one character to one character in Job names; byte sequences that are not well-formed UTF-8 do not occur in names.
- The library sort is known by its contract only (sorted, same elements); the order of findings that compare equal is left open.
- The open-age accumulators are values, updated in a map, where the code holds pointers; nothing else shares them.
- Environment variables are an enumeration with one case for all others: that both binaries spell the same names is taken for granted. Slices of variables are lists that grow at the end.
- The value of fractional digits in a duration is exact; a parsed fraction of more than 18 digits, where the library stops reading, is not modelled.
- Substitution of `$(NAME)` in variable values by the kubelet, and variables set by the container image.
- Error texts of the configuration: an error is the absence of a result.
