// The provider-neutral domain types. Times are nanoseconds since the Unix epoch.
module Provider {
  import opened GoStrings

  type Time = int

  // Go's zero time, 1 January of year 1.
  const ZERO_TIME: Time := -62_135_596_800 * 1_000_000_000

  predicate IsZero(t: Time) { t == ZERO_TIME }

  // Time.Sub: the difference as a duration, saturated at the ends of int64.
  function Sub(a: Time, b: Time): (d: int)
    ensures MIN_INT64 <= d <= MAX_INT64
    ensures d > 0 <==> a > b
    ensures MIN_INT64 <= a - b <= MAX_INT64 ==> d == a - b
    ensures a - b > MAX_INT64 ==> d == MAX_INT64
  {
    if a - b < MIN_INT64 then MIN_INT64 else if a - b > MAX_INT64 then MAX_INT64 else a - b
  }

  // A collector keeps a finding resolved at resolvedAt unless it lies before since.
  predicate InWindow(resolvedAt: Time, since: Time) { !(resolvedAt < since) }

  datatype Finding = Finding(severity: string, category: string, ecosystem: string, tool: string, createdAt: Time)

  datatype ResolvedFinding = ResolvedFinding(
    id: string, category: string, severity: string, state: string, resolution: string,
    createdAt: Time, resolvedAt: Time)

  datatype Posture = Posture(visibility: string, archived: bool, dependabotEnabled: bool,
                             branchProtected: bool, secretScanningEnabled: bool)

  datatype WorkflowRunStat = WorkflowRunStat(workflow: string, conclusion: string, count: int)

  datatype RepoMetrics = RepoMetrics(
    name: string, openReviewItems: int, findings: seq<Finding>, posture: Option<Posture>,
    workflowRuns: seq<WorkflowRunStat>, resolvedFindings: seq<ResolvedFinding>)

  const STATE_OPEN := "open"
}
