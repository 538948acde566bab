// What a custom resource asks for is what the exporter in its collection Jobs runs with.
module RoundTrip {
  import opened GoStrings
  import opened Durations
  import opened Variables
  import opened Config
  import opened Rendering

  // The values in the Secrets of the resource's namespace, by Secret and key.
  type Secrets = map<(string, string), string>

  // A missing key reads as empty here; in a cluster its container would not start.
  function Text(source: Option<Source>, secrets: Secrets): string {
    match source
    case None => ""
    case Some(Value(text)) => text
    case Some(SecretKey(secret, key)) => if (secret, key) in secrets then secrets[(secret, key)] else ""
  }

  // The process environment of a container with these variables.
  function Environment(vars: EnvList, secrets: Secrets): Env {
    match vars
    case Empty => map[]
    case Append(init, last) => Environment(init, secrets)[last.name := Text(Some(last.source), secrets)]
  }

  lemma {:induction false} GetenvIsLookup(vars: EnvList, secrets: Secrets, name: Variable)
    ensures Getenv(Environment(vars, secrets), name) == Text(Lookup(vars, name), secrets)
  {
    if vars.Append? { GetenvIsLookup(vars.init, secrets, name); }
  }

  // ----- What the resource asks for -----

  function LifecycleAsked(s: ExporterSpec, secrets: Secrets): Lifecycle {
    if s.collectLifecycle && s.valkey.Some? then
      var v := s.valkey.value;
      Lifecycle(true, s.resolutionWindow, v.endpoint,
                if v.secretRef.Some? then Text(Some(SecretKey(v.secretRef.value, PasswordKey(v))), secrets) else "")
    else Lifecycle(false, DEFAULT_RESOLUTION_WINDOW, "", "")
  }

  function DimensionsAsked(s: ExporterSpec): Dimensions {
    Dimensions("ecosystem" in s.findingDimensions, "tool" in s.findingDimensions, "severity" in s.findingDimensions)
  }

  function LookbackAsked(s: ExporterSpec): int { if s.collectWorkflows then s.workflowLookback else 0 }

  // Where the private key is mounted.
  const PEM_PATH := "/etc/scm/github-app/app.pem"

  function GitHubAsked(s: GitHubSpec, secrets: Secrets): GitHub {
    var app := s.authMode == "app";
    GitHub(s.targetType, s.org, s.user,
           if app then "" else Text(Some(SecretKey(s.common.credentialsSecret, s.tokenKey)), secrets),
           if app then s.appID else 0,
           if app then s.appInstallationID else 0,
           if app then PEM_PATH else "",
           s.codeScanningTool, s.common.collectWorkflows, LookbackAsked(s.common))
  }

  function GitLabAsked(s: GitLabSpec, secrets: Secrets): GitLab {
    GitLab(s.targetType, s.group, s.user,
           Text(Some(SecretKey(s.common.credentialsSecret, s.tokenKey)), secrets),
           s.baseURL, s.common.collectWorkflows, LookbackAsked(s.common))
  }

  // The windows in use are positive. The schema does not ask for that.
  predicate WindowsPositive(s: ExporterSpec) {
    && (s.collectLifecycle ==> s.resolutionWindow > 0)
    && (s.collectWorkflows ==> s.workflowLookback > 0)
  }

  // ----- Reading single variables back -----

  lemma DurationRead(env: Env, key: Variable, d: int, def: int)
    requires Getenv(env, key) == DurationString(d) && MIN_INT64 <= d <= MAX_INT64
    ensures GetenvDuration(env, key, def) == if d > 0 then Some(d) else None
  {
    ParseDurationString(d);
    MagnitudeIsNumber(if d < 0 then -d else d);
    hide ParseDuration, Magnitude;
  }

  lemma Int64Read(env: Env, key: Variable, n: int)
    requires Getenv(env, key) == FormatInt(n) && MIN_INT64 <= n <= MAX_INT64
    ensures GetenvInt64(env, key) == Some(n)
  {
    ParseFormatInt(n);
    hide ParseInt, FormatNat;
  }

  // env is what vars come to.
  ghost predicate Shows(env: Env, vars: EnvList, secrets: Secrets) {
    forall name {:trigger Getenv(env, name)} :: Getenv(env, name) == Text(Lookup(vars, name), secrets)
  }

  // The text of each shared variable.
  predicate CommonTexts(s: ExporterSpec, secrets: Secrets, env: Env) {
    && Getenv(env, POLL_INTERVAL) == ""
    && Getenv(env, SCM_FINDING_DIMENSIONS) == Join(s.findingDimensions, ',')
    && Getenv(env, SCM_COLLECT_LIFECYCLE) == (if s.collectLifecycle then "true" else "")
    && Getenv(env, SCM_RESOLUTION_WINDOW) == (if s.collectLifecycle then DurationString(s.resolutionWindow) else "")
    && (s.valkey.Some? || !s.collectLifecycle ==>
          && Getenv(env, VALKEY_ADDR) == LifecycleAsked(s, secrets).valkeyAddr
          && Getenv(env, VALKEY_PASSWORD) == LifecycleAsked(s, secrets).valkeyPassword)
  }

  lemma CommonShown(s: ExporterSpec, vars: EnvList, secrets: Secrets, env: Env)
    requires SetsCommon(s, vars) && Lookup(vars, POLL_INTERVAL) == None && Shows(env, vars, secrets)
    ensures CommonTexts(s, secrets, env)
  {
    hide Lookup, DurationString, Getenv;
  }

  lemma WindowRead(s: ExporterSpec, secrets: Secrets, env: Env)
    requires AdmittedCommon(s) && CommonTexts(s, secrets, env)
    ensures GetenvDuration(env, SCM_RESOLUTION_WINDOW, DEFAULT_RESOLUTION_WINDOW)
         == if s.collectLifecycle && s.resolutionWindow <= 0 then None
            else Some(LifecycleAsked(s, secrets).resolutionWindow)
    ensures GetenvDuration(env, POLL_INTERVAL, DEFAULT_POLL_INTERVAL) == Some(DEFAULT_POLL_INTERVAL)
  {
    hide DurationString, ParseDuration, Getenv, Text, Join;
    if s.collectLifecycle {
      DurationRead(env, SCM_RESOLUTION_WINDOW, s.resolutionWindow, DEFAULT_RESOLUTION_WINDOW);
    }
  }

  lemma CommonRead(s: ExporterSpec, secrets: Secrets, env: Env, c: Config)
    requires AdmittedCommon(s) && CommonTexts(s, secrets, env)
    ensures ReadsCommon(env, c) <==>
            && (s.collectLifecycle ==> s.resolutionWindow > 0)
            && c.pollInterval == DEFAULT_POLL_INTERVAL
            && c.dimensions == DimensionsAsked(s)
            && c.lifecycle == LifecycleAsked(s, secrets)
  {
    hide DimensionsOf, DurationString, GetenvDuration, IsDimension, Getenv, Text, Join;
    JoinedDimensions(s.findingDimensions);
    WindowRead(s, secrets, env);
  }

  // The text of each GitHub variable.
  predicate GitHubTexts(s: GitHubSpec, secrets: Secrets, env: Env) {
    var app := s.authMode == "app";
    && Getenv(env, GITHUB_TARGET_TYPE) == s.targetType
    && Getenv(env, GITHUB_ORG) == s.org
    && Getenv(env, GITHUB_USER) == s.user
    && Getenv(env, GITHUB_CODE_SCANNING_TOOL) == s.codeScanningTool
    && Getenv(env, GITHUB_COLLECT_WORKFLOWS) == (if s.common.collectWorkflows then "true" else "")
    && Getenv(env, GITHUB_WORKFLOW_LOOKBACK)
       == (if s.common.collectWorkflows then DurationString(s.common.workflowLookback) else "")
    && Getenv(env, GITHUB_APP_ID) == (if app then FormatInt(s.appID) else "")
    && Getenv(env, GITHUB_APP_INSTALLATION_ID) == (if app then FormatInt(s.appInstallationID) else "")
    && Getenv(env, GITHUB_APP_PRIVATE_KEY_PATH) == GitHubAsked(s, secrets).appPrivateKeyPath
    && Getenv(env, GITHUB_TOKEN) == GitHubAsked(s, secrets).token
  }

  lemma GitHubShown(s: GitHubSpec, vars: EnvList, secrets: Secrets, env: Env)
    requires SetsGitHub(s, vars) && Shows(env, vars, secrets)
    ensures GitHubTexts(s, secrets, env)
  {
    PemPath();
    hide Lookup, SetsCommon, DurationString, FormatInt, Getenv, APP_PEM_MOUNT_PATH, APP_PEM_FILE_NAME, PEM_PATH;
  }

  lemma PemPath()
    ensures APP_PEM_MOUNT_PATH + "/" + APP_PEM_FILE_NAME == PEM_PATH
  {
  }

  lemma GitHubRead(s: GitHubSpec, secrets: Secrets, env: Env, g: GitHub)
    requires AdmittedGitHub(s) && GitHubTexts(s, secrets, env)
    ensures ReadsGitHub(env, g) <==>
            && (s.common.collectWorkflows ==> s.common.workflowLookback > 0)
            && (s.authMode == "token" ==> GitHubAsked(s, secrets).token != "")
            && g == GitHubAsked(s, secrets)
  {
    hide DurationString, FormatInt, ParseInt, ParseDuration, Getenv, Text;
    GitHubParsed(s, secrets, env);
    hide GetenvDuration, GetenvInt64;
  }

  lemma GitHubParsed(s: GitHubSpec, secrets: Secrets, env: Env)
    requires AdmittedGitHub(s) && GitHubTexts(s, secrets, env)
    ensures GetenvInt64(env, GITHUB_APP_ID) == Some(GitHubAsked(s, secrets).appID)
    ensures GetenvInt64(env, GITHUB_APP_INSTALLATION_ID) == Some(GitHubAsked(s, secrets).appInstallationID)
    ensures GetenvDuration(env, GITHUB_WORKFLOW_LOOKBACK, 0)
         == if s.common.collectWorkflows && s.common.workflowLookback <= 0 then None
            else Some(LookbackAsked(s.common))
  {
    hide DurationString, FormatInt, ParseInt, ParseDuration, Getenv, Text;
    if s.common.collectWorkflows {
      DurationRead(env, GITHUB_WORKFLOW_LOOKBACK, s.common.workflowLookback, 0);
    }
    if s.authMode == "app" {
      Int64Read(env, GITHUB_APP_ID, s.appID);
      Int64Read(env, GITHUB_APP_INSTALLATION_ID, s.appInstallationID);
    }
  }

  predicate GitLabTexts(s: GitLabSpec, secrets: Secrets, env: Env) {
    && Getenv(env, GITLAB_TARGET_TYPE) == s.targetType
    && Getenv(env, GITLAB_GROUP) == s.group
    && Getenv(env, GITLAB_USER) == s.user
    && Getenv(env, GITLAB_URL) == s.baseURL
    && Getenv(env, GITLAB_COLLECT_WORKFLOWS) == (if s.common.collectWorkflows then "true" else "")
    && Getenv(env, GITLAB_WORKFLOW_LOOKBACK)
       == (if s.common.collectWorkflows then DurationString(s.common.workflowLookback) else "")
    && Getenv(env, GITLAB_TOKEN) == GitLabAsked(s, secrets).token
  }

  lemma GitLabShown(s: GitLabSpec, vars: EnvList, secrets: Secrets, env: Env)
    requires SetsGitLab(s, vars) && Shows(env, vars, secrets)
    ensures GitLabTexts(s, secrets, env)
  {
    hide Lookup, SetsCommon, DurationString, Getenv;
  }

  lemma GitLabRead(s: GitLabSpec, secrets: Secrets, env: Env, g: GitLab)
    requires AdmittedGitLab(s) && GitLabTexts(s, secrets, env)
    ensures ReadsGitLab(env, g) <==>
            && (s.common.collectWorkflows ==> s.common.workflowLookback > 0)
            && GitLabAsked(s, secrets).token != ""
            && g == GitLabAsked(s, secrets)
  {
    hide DurationString, ParseDuration, Getenv, Text;
    if s.common.collectWorkflows {
      DurationRead(env, GITLAB_WORKFLOW_LOOKBACK, s.common.workflowLookback, 0);
    }
  }

  // ----- The Job -----

  // The parts of which a resource may set variables without touching its configuration: those that
  // neither binary mentions, the OpenTelemetry ones, and those that only the other provider reads.
  predicate MayOverride(github: bool, part: nat) {
    || part == 0 || part == 3
    || (if github then part == 1 || part == 7 || part == 9 else part == 2 || part == 6 || part == 8)
  }

  // The resource's own variables replace none that its exporter reads.
  ghost predicate NoOverride(github: bool, env: EnvList) {
    forall name :: Lookup(env, name).Some? ==> MayOverride(github, Part(name))
  }

  lemma WithOwnVariables(github: bool, vars: EnvList, own: EnvList, low: nat, high: nat)
    requires NoOverride(github, own) && forall part: nat :: low <= part <= high ==> !MayOverride(github, part)
    ensures Agree(vars, AppendAll(vars, own), low, high)
  {
    hide Part;
    forall name | low <= Part(name) <= high ensures Lookup(AppendAll(vars, own), name) == Lookup(vars, name) {
      LookupAppendAll(vars, own, name);
    }
  }

  lemma NoPollInterval(github: bool, vars: EnvList, own: EnvList)
    requires Within(vars, 1, 9) && NoOverride(github, own)
    ensures Lookup(AppendAll(vars, own), POLL_INTERVAL) == None
  {
    LookupAppendAll(vars, own, POLL_INTERVAL);
  }

  // The variables of the SDK reach it unless the resource sets them itself.
  lemma OtelWithOwn(s: ExporterSpec, vars: EnvList, own: EnvList)
    requires SetsOtel(s, vars)
    ensures OtelShown(s, AppendAll(vars, own), own)
  {
    LookupAppendAll(vars, own, OTEL_METRICS_EXPORTER);
    LookupAppendAll(vars, own, OTEL_EXPORTER_OTLP_METRICS_ENDPOINT);
  }

  predicate OtelShown(s: ExporterSpec, vars: EnvList, own: EnvList) {
    && Lookup(vars, OTEL_METRICS_EXPORTER)
       == (if Lookup(own, OTEL_METRICS_EXPORTER).Some? then Lookup(own, OTEL_METRICS_EXPORTER)
           else Some(Value("otlp")))
    && Lookup(vars, OTEL_EXPORTER_OTLP_METRICS_ENDPOINT)
       == (if Lookup(own, OTEL_EXPORTER_OTLP_METRICS_ENDPOINT).Some?
           then Lookup(own, OTEL_EXPORTER_OTLP_METRICS_ENDPOINT) else Some(Value(s.otlpEndpoint)))
  }

  lemma GitHubWithOwn(s: GitHubSpec, vars: EnvList, own: EnvList)
    requires SetsGitHub(s, vars) && Within(vars, 1, 9) && NoOverride(true, own)
    ensures SetsGitHub(s, AppendAll(vars, own)) && Lookup(AppendAll(vars, own), POLL_INTERVAL) == None
  {
    hide Lookup, Agree, AppendAll, Within, Part, NoOverride;
    hide SetsCommon, SetsGitHubTarget, SetsGitHubOptions, SetsGitHubAuth;
    var all := AppendAll(vars, own);
    NoPollInterval(true, vars, own);
    WithOwnVariables(true, vars, own, 2, 2);
    WithOwnVariables(true, vars, own, 4, 5);
    WithOwnVariables(true, vars, own, 6, 6);
    WithOwnVariables(true, vars, own, 8, 8);
    KeepGitHubTarget(s, vars, all);
    KeepCommon(s.common, vars, all);
    KeepGitHubOptions(s, vars, all);
    KeepGitHubAuth(s, vars, all);
  }

  lemma GitLabWithOwn(s: GitLabSpec, vars: EnvList, own: EnvList)
    requires SetsGitLab(s, vars) && Within(vars, 1, 9) && NoOverride(false, own)
    ensures SetsGitLab(s, AppendAll(vars, own)) && Lookup(AppendAll(vars, own), POLL_INTERVAL) == None
  {
    hide Lookup, Agree, AppendAll, Within, Part, NoOverride;
    hide SetsCommon, SetsGitLabTarget, SetsGitLabOptions, SetsGitLabToken;
    var all := AppendAll(vars, own);
    NoPollInterval(false, vars, own);
    WithOwnVariables(false, vars, own, 1, 1);
    WithOwnVariables(false, vars, own, 4, 5);
    WithOwnVariables(false, vars, own, 7, 7);
    WithOwnVariables(false, vars, own, 9, 9);
    KeepGitLabToken(s, vars, all);
    KeepGitLabTarget(s, vars, all);
    KeepCommon(s.common, vars, all);
    KeepGitLabOptions(s, vars, all);
  }

  // What the SDK finds in the environment.
  predicate OtelConfigured(s: ExporterSpec, env: Env) {
    && (Lookup(s.env, OTEL_METRICS_EXPORTER) == None ==> Getenv(env, OTEL_METRICS_EXPORTER) == "otlp")
    && (Lookup(s.env, OTEL_EXPORTER_OTLP_METRICS_ENDPOINT) == None ==>
          Getenv(env, OTEL_EXPORTER_OTLP_METRICS_ENDPOINT) == s.otlpEndpoint)
  }

  lemma OtelReaches(s: ExporterSpec, vars: EnvList, secrets: Secrets, env: Env)
    requires OtelShown(s, vars, s.env) && Shows(env, vars, secrets)
    ensures OtelConfigured(s, env)
  {
    hide Lookup, Getenv;
  }

  lemma EnvironmentShows(vars: EnvList, secrets: Secrets)
    ensures Shows(Environment(vars, secrets), vars, secrets)
  {
    forall name { GetenvIsLookup(vars, secrets, name); }
  }

  function GitHubConfigAsked(s: GitHubSpec, secrets: Secrets): Config {
    Config("github", 5 * MINUTE, DimensionsAsked(s.common), LifecycleAsked(s.common, secrets),
           GitHubAsked(s, secrets), NO_GITLAB)
  }

  function GitLabConfigAsked(s: GitLabSpec, secrets: Secrets): Config {
    Config("gitlab", 5 * MINUTE, DimensionsAsked(s.common), LifecycleAsked(s.common, secrets),
           NO_GITHUB, GitLabAsked(s, secrets))
  }

  lemma GitHubReads(s: GitHubSpec, vars: EnvList, secrets: Secrets, env: Env, c: Config)
    requires AdmittedGitHub(s) && SetsGitHub(s, vars) && Lookup(vars, POLL_INTERVAL) == None
    requires Shows(env, vars, secrets)
    ensures Reads("github", env, c) <==>
            && WindowsPositive(s.common)
            && (s.authMode == "token" ==> GitHubAsked(s, secrets).token != "")
            && c == GitHubConfigAsked(s, secrets)
  {
    GitHubShown(s, vars, secrets, env);
    CommonShown(s.common, vars, secrets, env);
    CommonRead(s.common, secrets, env, c);
    GitHubRead(s, secrets, env, c.github);
    hide Lookup, Shows, SetsGitHub, ReadsCommon, ReadsGitHub, GitHubTexts, CommonTexts;
    hide LifecycleAsked, DimensionsAsked, GitHubAsked, AdmittedGitHub, NO_GITLAB;
  }

  lemma GitLabReads(s: GitLabSpec, vars: EnvList, secrets: Secrets, env: Env, c: Config)
    requires AdmittedGitLab(s) && SetsGitLab(s, vars) && Lookup(vars, POLL_INTERVAL) == None
    requires Shows(env, vars, secrets)
    ensures Reads("gitlab", env, c) <==>
            && WindowsPositive(s.common) && GitLabAsked(s, secrets).token != ""
            && c == GitLabConfigAsked(s, secrets)
  {
    GitLabShown(s, vars, secrets, env);
    CommonShown(s.common, vars, secrets, env);
    CommonRead(s.common, secrets, env, c);
    GitLabRead(s, secrets, env, c.gitlab);
    hide Lookup, Shows, SetsGitLab, ReadsCommon, ReadsGitLab, GitLabTexts, CommonTexts;
    hide LifecycleAsked, DimensionsAsked, GitLabAsked, AdmittedGitLab, NO_GITHUB;
  }

  // The environment of a GitHub resource's Job and the configuration with which the exporter starts in it.
  // Loading fails only for a window in use that is not positive or an empty token; otherwise every setting
  // is exactly the one asked for.
  method GitHubJobConfig(spec: GitHubSpec, secrets: Secrets) returns (r: Option<Config>, env: Env)
    requires AdmittedGitHub(spec) && NoOverride(true, spec.common.env)
    ensures OtelConfigured(spec.common, env)
    ensures r.Some? <==> WindowsPositive(spec.common)
                         && (spec.authMode == "token" ==> GitHubAsked(spec, secrets).token != "")
    ensures r.Some? ==> r.value == GitHubConfigAsked(spec, secrets)
  {
    hide *;
    var vars := GitHubEnv(spec);
    GitHubWithOwn(spec, vars, spec.common.env);
    OtelWithOwn(spec.common, vars, spec.common.env);
    vars := AppendAll(vars, spec.common.env);
    env := Environment(vars, secrets);
    EnvironmentShows(vars, secrets);
    OtelReaches(spec.common, vars, secrets, env);
    r := Load("github", env);
    forall c: Config
      ensures Reads("github", env, c) <==>
              && WindowsPositive(spec.common)
              && (spec.authMode == "token" ==> GitHubAsked(spec, secrets).token != "")
              && c == GitHubConfigAsked(spec, secrets)
    {
      GitHubReads(spec, vars, secrets, env, c);
    }
    assert Reads("github", env, GitHubConfigAsked(spec, secrets)) ==> r.Some?;
  }

  method GitLabJobConfig(spec: GitLabSpec, secrets: Secrets) returns (r: Option<Config>, env: Env)
    requires AdmittedGitLab(spec) && NoOverride(false, spec.common.env)
    ensures OtelConfigured(spec.common, env)
    ensures r.Some? <==> WindowsPositive(spec.common) && GitLabAsked(spec, secrets).token != ""
    ensures r.Some? ==> r.value == GitLabConfigAsked(spec, secrets)
  {
    hide *;
    var vars := GitLabEnv(spec);
    GitLabWithOwn(spec, vars, spec.common.env);
    OtelWithOwn(spec.common, vars, spec.common.env);
    vars := AppendAll(vars, spec.common.env);
    env := Environment(vars, secrets);
    EnvironmentShows(vars, secrets);
    OtelReaches(spec.common, vars, secrets, env);
    r := Load("gitlab", env);
    forall c: Config
      ensures Reads("gitlab", env, c) <==>
              && WindowsPositive(spec.common) && GitLabAsked(spec, secrets).token != ""
              && c == GitLabConfigAsked(spec, secrets)
    {
      GitLabReads(spec, vars, secrets, env, c);
    }
    assert Reads("gitlab", env, GitLabConfigAsked(spec, secrets)) ==> r.Some?;
  }

  // The target that is polled and the authentication that is used are the resource's.
  lemma AskedTargetAndAuth(s: GitHubSpec, t: GitLabSpec, secrets: Secrets)
    requires AdmittedGitHub(s) && AdmittedGitLab(t)
    ensures Target(GitHubConfigAsked(s, secrets)) == (if s.targetType == "user" then s.user else s.org)
    ensures AppComplete(GitHubAsked(s, secrets)) <==> s.authMode == "app"
    ensures Target(GitLabConfigAsked(t, secrets)) == (if t.targetType == "user" then t.user else t.group)
  {
    assert |PEM_PATH| > 0;
  }

  // Two resources that the schema admits and whose Jobs never start: a workflow lookback of zero, and a
  // resolution window of zero, each in use, with a token that is set.
  const ZERO_LOOKBACK := GitHubSpec(
    ExporterSpec("http://otel:4318", [], true, 0, "scm", false, 90 * 24 * HOUR, None, Empty),
    "org", "acme", "", "token", "token", 0, 0, "", "")
  const ZERO_WINDOW := GitLabSpec(
    ExporterSpec("http://otel:4318", [], false, 0, "scm", true, 0, Some(ValkeySpec("valkey:6379", None, "")), Empty),
    "group", "acme", "", "token", "")

  lemma ZeroWindowsFail()
    ensures AdmittedGitHub(ZERO_LOOKBACK) && NoOverride(true, ZERO_LOOKBACK.common.env)
    ensures AdmittedGitLab(ZERO_WINDOW) && NoOverride(false, ZERO_WINDOW.common.env)
    ensures !WindowsPositive(ZERO_LOOKBACK.common) && !WindowsPositive(ZERO_WINDOW.common)
  {
    assert |"acme"| == 4 && |"token"| == 5 && |"valkey:6379"| == 11;
  }

  method ZeroWindowsAreAdmitted() returns (github: Option<Config>, gitlab: Option<Config>)
    ensures AdmittedGitHub(ZERO_LOOKBACK) && AdmittedGitLab(ZERO_WINDOW)
    ensures github == None && gitlab == None
  {
    hide *;
    ZeroWindowsFail();
    var secrets := map[("scm", "token") := "glpat"];
    var env;
    github, env := GitHubJobConfig(ZERO_LOOKBACK, secrets);
    gitlab, env := GitLabJobConfig(ZERO_WINDOW, secrets);
  }
}
