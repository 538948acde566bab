// The environment the operator renders into a collection Job, against the configuration the
// exporter in that Job loads from it: a printer and a parser in two binaries.
module Rendering {
  import opened GoStrings
  import opened Durations
  import opened Config
  import opened Variables

  // ----- The custom resources -----

  // A variable's value: text, or a key of a Secret.
  datatype Source = Value(text: string) | SecretKey(secret: string, key: string)
  datatype EnvVar = EnvVar(name: Variable, source: Source)

  // A slice of variables; append puts one more at the end.
  datatype EnvList = Empty | Append(init: EnvList, last: EnvVar)

  datatype ValkeySpec = ValkeySpec(endpoint: string, secretRef: Option<string>, passwordKey: string)

  datatype ExporterSpec = ExporterSpec(
    otlpEndpoint: string, findingDimensions: seq<string>, collectWorkflows: bool, workflowLookback: int,
    credentialsSecret: string, collectLifecycle: bool, resolutionWindow: int, valkey: Option<ValkeySpec>,
    env: EnvList)

  datatype GitHubSpec = GitHubSpec(
    common: ExporterSpec, targetType: string, org: string, user: string, authMode: string, tokenKey: string,
    appID: int, appInstallationID: int, appPrivateKeyKey: string, codeScanningTool: string)

  datatype GitLabSpec = GitLabSpec(
    common: ExporterSpec, targetType: string, group: string, user: string, tokenKey: string, baseURL: string)

  // What the schema and its CEL rules let through.

  predicate AdmittedCommon(s: ExporterSpec) {
    && (s.collectLifecycle ==> s.valkey.Some?)
    && (s.valkey.Some? ==> s.valkey.value.endpoint != "")
    && (forall i :: 0 <= i < |s.findingDimensions| ==> IsDimension(s.findingDimensions[i]))
    && MIN_INT64 <= s.resolutionWindow <= MAX_INT64
    && MIN_INT64 <= s.workflowLookback <= MAX_INT64
  }

  predicate AdmittedGitHub(s: GitHubSpec) {
    && AdmittedCommon(s.common)
    && ((s.targetType == "org" && s.org != "") || (s.targetType == "user" && s.user != ""))
    && (s.authMode == "token" || s.authMode == "app")
    && (s.authMode == "app" ==> (0 < s.appID <= MAX_INT64 && 0 < s.appInstallationID <= MAX_INT64
                                 && s.appPrivateKeyKey != ""))
    && (s.authMode == "token" ==> s.tokenKey != "")
  }

  predicate AdmittedGitLab(s: GitLabSpec) {
    && AdmittedCommon(s.common)
    && ((s.targetType == "group" && s.group != "") || (s.targetType == "user" && s.user != ""))
    && s.tokenKey != ""
  }

  // ----- The operator's side -----

  // append(a, b...)
  function AppendAll(a: EnvList, b: EnvList): EnvList {
    match b
    case Empty => a
    case Append(init, last) => Append(AppendAll(a, init), last)
  }

  // What a list of variables sets a name to: the last entry of that name counts.
  function Lookup(vars: EnvList, name: Variable): Option<Source> {
    match vars
    case Empty => None
    case Append(init, last) => if last.name == name then Some(last.source) else Lookup(init, name)
  }

  lemma {:induction false} LookupAppendAll(a: EnvList, b: EnvList, name: Variable)
    ensures Lookup(AppendAll(a, b), name) == if Lookup(b, name).Some? then Lookup(b, name) else Lookup(a, name)
  {
    if b.Append? { LookupAppendAll(a, b.init, name); }
  }

  lemma LookupAppend()
    ensures forall name :: Lookup(Empty, name) == None
    ensures forall vars, v, name {:trigger Lookup(Append(vars, v), name)} ::
              Lookup(Append(vars, v), name) == if v.name == name then Some(v.source) else Lookup(vars, name)
  {
  }

  function When(on: bool, source: Source): Option<Source> { if on then Some(source) else None }

  function PasswordKey(v: ValkeySpec): string { if v.passwordKey == "" then "password" else v.passwordKey }

  // The variables of a Job, as they should stand for a custom resource: first those that the exporter's
  // OpenTelemetry SDK reads, then those that the exporter reads.

  predicate SetsOtel(s: ExporterSpec, vars: EnvList) {
    && Lookup(vars, OTEL_METRICS_EXPORTER) == Some(Value("otlp"))
    && Lookup(vars, OTEL_EXPORTER_OTLP_METRICS_ENDPOINT) == Some(Value(s.otlpEndpoint))
  }

  predicate SetsLifecycle(s: ExporterSpec, vars: EnvList) {
    var valkey := s.collectLifecycle && s.valkey.Some?;
    && Lookup(vars, SCM_COLLECT_LIFECYCLE) == When(s.collectLifecycle, Value("true"))
    && Lookup(vars, SCM_RESOLUTION_WINDOW) == When(s.collectLifecycle, Value(DurationString(s.resolutionWindow)))
    && Lookup(vars, VALKEY_ADDR) == (if valkey then Some(Value(s.valkey.value.endpoint)) else None)
    && Lookup(vars, VALKEY_PASSWORD) == (if valkey && s.valkey.value.secretRef.Some?
           then Some(SecretKey(s.valkey.value.secretRef.value, PasswordKey(s.valkey.value))) else None)
  }

  predicate SetsCommon(s: ExporterSpec, vars: EnvList) {
    && Lookup(vars, SCM_FINDING_DIMENSIONS) == When(s.findingDimensions != [], Value(Join(s.findingDimensions, ',')))
    && SetsLifecycle(s, vars)
  }

  predicate SetsGitHubTarget(s: GitHubSpec, vars: EnvList) {
    && Lookup(vars, GITHUB_TARGET_TYPE) == Some(Value(s.targetType))
    && Lookup(vars, GITHUB_ORG) == Some(Value(s.org))
    && Lookup(vars, GITHUB_USER) == Some(Value(s.user))
  }

  predicate SetsGitHubOptions(s: GitHubSpec, vars: EnvList) {
    && Lookup(vars, GITHUB_CODE_SCANNING_TOOL) == When(s.codeScanningTool != "", Value(s.codeScanningTool))
    && Lookup(vars, GITHUB_COLLECT_WORKFLOWS) == When(s.common.collectWorkflows, Value("true"))
    && Lookup(vars, GITHUB_WORKFLOW_LOOKBACK)
       == When(s.common.collectWorkflows, Value(DurationString(s.common.workflowLookback)))
  }

  predicate SetsGitHubAuth(s: GitHubSpec, vars: EnvList) {
    var app := s.authMode == "app";
    && Lookup(vars, GITHUB_APP_ID) == When(app, Value(FormatInt(s.appID)))
    && Lookup(vars, GITHUB_APP_INSTALLATION_ID) == When(app, Value(FormatInt(s.appInstallationID)))
    && Lookup(vars, GITHUB_APP_PRIVATE_KEY_PATH) == When(app, Value(APP_PEM_MOUNT_PATH + "/" + APP_PEM_FILE_NAME))
    && Lookup(vars, GITHUB_TOKEN) == When(!app, SecretKey(s.common.credentialsSecret, s.tokenKey))
  }

  predicate SetsGitHub(s: GitHubSpec, vars: EnvList) {
    SetsCommon(s.common, vars) && SetsGitHubTarget(s, vars) && SetsGitHubOptions(s, vars) && SetsGitHubAuth(s, vars)
  }

  predicate SetsGitLabTarget(s: GitLabSpec, vars: EnvList) {
    && Lookup(vars, GITLAB_TARGET_TYPE) == Some(Value(s.targetType))
    && Lookup(vars, GITLAB_GROUP) == Some(Value(s.group))
    && Lookup(vars, GITLAB_USER) == Some(Value(s.user))
  }

  predicate SetsGitLabOptions(s: GitLabSpec, vars: EnvList) {
    && Lookup(vars, GITLAB_URL) == When(s.baseURL != "", Value(s.baseURL))
    && Lookup(vars, GITLAB_COLLECT_WORKFLOWS) == When(s.common.collectWorkflows, Value("true"))
    && Lookup(vars, GITLAB_WORKFLOW_LOOKBACK)
       == When(s.common.collectWorkflows, Value(DurationString(s.common.workflowLookback)))
  }

  predicate SetsGitLabToken(s: GitLabSpec, vars: EnvList) {
    Lookup(vars, GITLAB_TOKEN) == Some(SecretKey(s.common.credentialsSecret, s.tokenKey))
  }

  predicate SetsGitLab(s: GitLabSpec, vars: EnvList) {
    SetsCommon(s.common, vars) && SetsGitLabTarget(s, vars) && SetsGitLabOptions(s, vars) && SetsGitLabToken(s, vars)
  }

  const APP_PEM_MOUNT_PATH := "/etc/scm/github-app"
  const APP_PEM_FILE_NAME := "app.pem"

  // Which part of the environment a variable belongs to; the operator writes parts 1 to 9, as far as
  // they are the provider's, in this order.
  function Part(name: Variable): nat {
    match name
    case GITLAB_TARGET_TYPE => 1
    case GITLAB_GROUP => 1
    case GITLAB_USER => 1
    case GITHUB_TARGET_TYPE => 2
    case GITHUB_ORG => 2
    case GITHUB_USER => 2
    case OTEL_METRICS_EXPORTER => 3
    case OTEL_EXPORTER_OTLP_METRICS_ENDPOINT => 3
    case SCM_FINDING_DIMENSIONS => 4
    case SCM_COLLECT_LIFECYCLE => 5
    case SCM_RESOLUTION_WINDOW => 5
    case VALKEY_ADDR => 5
    case VALKEY_PASSWORD => 5
    case GITHUB_CODE_SCANNING_TOOL => 6
    case GITHUB_COLLECT_WORKFLOWS => 6
    case GITHUB_WORKFLOW_LOOKBACK => 6
    case GITLAB_URL => 7
    case GITLAB_COLLECT_WORKFLOWS => 7
    case GITLAB_WORKFLOW_LOOKBACK => 7
    case GITHUB_APP_ID => 8
    case GITHUB_APP_INSTALLATION_ID => 8
    case GITHUB_APP_PRIVATE_KEY_PATH => 8
    case GITHUB_TOKEN => 8
    case GITLAB_TOKEN => 9
    case POLL_INTERVAL => 10
    case Other(_) => 0
  }

  ghost predicate Within(vars: EnvList, low: nat, high: nat) {
    forall name :: Lookup(vars, name).Some? ==> low <= Part(name) <= high
  }

  ghost predicate Agree(a: EnvList, b: EnvList, low: nat, high: nat) {
    forall name {:trigger Lookup(b, name)} :: low <= Part(name) <= high ==> Lookup(b, name) == Lookup(a, name)
  }

  // Lists of different parts put together: each part's variables keep their values.
  lemma Parts(a: EnvList, b: EnvList, cut: nat, high: nat)
    requires Within(a, 1, cut) && Within(b, cut + 1, high) && cut <= high
    ensures Within(AppendAll(a, b), 1, high)
    ensures Agree(a, AppendAll(a, b), 1, cut) && Agree(b, AppendAll(a, b), cut + 1, high)
  {
    forall name { LookupAppendAll(a, b, name); }
  }

  lemma Narrow(a: EnvList, b: EnvList, low: nat, high: nat)
    requires Agree(a, b, low, high)
    ensures forall from: nat, to: nat :: low <= from && to <= high ==> Agree(a, b, from, to)
  {
  }

  // Each group of settings depends on its own parts only.

  lemma KeepOtel(s: ExporterSpec, a: EnvList, b: EnvList)
    requires SetsOtel(s, a) && Agree(a, b, 3, 3)
    ensures SetsOtel(s, b)
  {
  }

  lemma KeepCommon(s: ExporterSpec, a: EnvList, b: EnvList)
    requires SetsCommon(s, a) && Agree(a, b, 4, 5)
    ensures SetsCommon(s, b)
  {
  }

  lemma KeepLifecycle(s: ExporterSpec, a: EnvList, b: EnvList)
    requires SetsLifecycle(s, a) && Agree(a, b, 5, 5)
    ensures SetsLifecycle(s, b)
  {
  }

  lemma KeepGitHubTarget(s: GitHubSpec, a: EnvList, b: EnvList)
    requires SetsGitHubTarget(s, a) && Agree(a, b, 2, 2)
    ensures SetsGitHubTarget(s, b)
  {
  }

  lemma KeepGitHubOptions(s: GitHubSpec, a: EnvList, b: EnvList)
    requires SetsGitHubOptions(s, a) && Agree(a, b, 6, 6)
    ensures SetsGitHubOptions(s, b)
  {
  }

  lemma KeepGitHubAuth(s: GitHubSpec, a: EnvList, b: EnvList)
    requires SetsGitHubAuth(s, a) && Agree(a, b, 8, 8)
    ensures SetsGitHubAuth(s, b)
  {
  }

  lemma KeepGitLabTarget(s: GitLabSpec, a: EnvList, b: EnvList)
    requires SetsGitLabTarget(s, a) && Agree(a, b, 1, 1)
    ensures SetsGitLabTarget(s, b)
  {
  }

  lemma KeepGitLabOptions(s: GitLabSpec, a: EnvList, b: EnvList)
    requires SetsGitLabOptions(s, a) && Agree(a, b, 7, 7)
    ensures SetsGitLabOptions(s, b)
  {
  }

  lemma KeepGitLabToken(s: GitLabSpec, a: EnvList, b: EnvList)
    requires SetsGitLabToken(s, a) && Agree(a, b, 9, 9)
    ensures SetsGitLabToken(s, b)
  {
  }

  method LifecycleEnv(spec: ExporterSpec) returns (env: EnvList)
    ensures SetsLifecycle(spec, env)
    ensures Within(env, 5, 5)
  {
    LookupAppend();
    hide Lookup, DurationString;
    env := Empty;
    if spec.collectLifecycle {
      env := Append(env, EnvVar(SCM_COLLECT_LIFECYCLE, Value("true")));
      env := Append(env, EnvVar(SCM_RESOLUTION_WINDOW, Value(DurationString(spec.resolutionWindow))));
      if spec.valkey.Some? {
        env := Append(env, EnvVar(VALKEY_ADDR, Value(spec.valkey.value.endpoint)));
        if spec.valkey.value.secretRef.Some? {
          var key := spec.valkey.value.passwordKey;
          if key == "" { key := "password"; }
          env := Append(env, EnvVar(VALKEY_PASSWORD, SecretKey(spec.valkey.value.secretRef.value, key)));
        }
      }
    }
  }

  method CommonExporterEnv(spec: ExporterSpec) returns (env: EnvList)
    ensures SetsOtel(spec, env) && SetsCommon(spec, env)
    ensures Within(env, 3, 5)
  {
    LookupAppend();
    hide Lookup, Join, DurationString, SetsLifecycle;
    env := Append(Empty, EnvVar(OTEL_METRICS_EXPORTER, Value("otlp")));
    env := Append(env, EnvVar(OTEL_EXPORTER_OTLP_METRICS_ENDPOINT, Value(spec.otlpEndpoint)));
    if |spec.findingDimensions| > 0 {
      env := Append(env, EnvVar(SCM_FINDING_DIMENSIONS, Value(Join(spec.findingDimensions, ','))));
    }
    var lifecycle := LifecycleEnv(spec);
    var before := env;
    assert Within(before, 3, 4) && SetsOtel(spec, before);
    env := AppendAll(before, lifecycle);
    Parts(before, lifecycle, 4, 5);
    hide SetsOtel;
    Narrow(before, env, 1, 4);
    KeepOtel(spec, before, env);
    KeepLifecycle(spec, lifecycle, env);
  }

  method GitHubOptionsEnv(spec: GitHubSpec) returns (env: EnvList)
    ensures SetsGitHubOptions(spec, env)
    ensures Within(env, 6, 6)
  {
    LookupAppend();
    hide Lookup, DurationString;
    env := Empty;
    if spec.codeScanningTool != "" {
      env := Append(env, EnvVar(GITHUB_CODE_SCANNING_TOOL, Value(spec.codeScanningTool)));
    }
    if spec.common.collectWorkflows {
      env := Append(env, EnvVar(GITHUB_COLLECT_WORKFLOWS, Value("true")));
      env := Append(env, EnvVar(GITHUB_WORKFLOW_LOOKBACK, Value(DurationString(spec.common.workflowLookback))));
    }
  }

  method GitHubAuthEnv(spec: GitHubSpec) returns (env: EnvList)
    ensures SetsGitHubAuth(spec, env)
    ensures Within(env, 7, 9)
  {
    LookupAppend();
    hide Lookup, FormatInt, APP_PEM_MOUNT_PATH, APP_PEM_FILE_NAME;
    env := Empty;
    if spec.authMode == "app" {
      env := Append(env, EnvVar(GITHUB_APP_ID, Value(FormatInt(spec.appID))));
      env := Append(env, EnvVar(GITHUB_APP_INSTALLATION_ID, Value(FormatInt(spec.appInstallationID))));
      env := Append(env, EnvVar(GITHUB_APP_PRIVATE_KEY_PATH, Value(APP_PEM_MOUNT_PATH + "/" + APP_PEM_FILE_NAME)));
      return env;
    }
    env := Append(env, EnvVar(GITHUB_TOKEN, SecretKey(spec.common.credentialsSecret, spec.tokenKey)));
  }

  method GitHubTargetEnv(spec: GitHubSpec) returns (env: EnvList)
    ensures SetsGitHubTarget(spec, env)
    ensures Within(env, 1, 2)
  {
    LookupAppend();
    hide Lookup;
    env := Append(Empty, EnvVar(GITHUB_TARGET_TYPE, Value(spec.targetType)));
    env := Append(env, EnvVar(GITHUB_ORG, Value(spec.org)));
    env := Append(env, EnvVar(GITHUB_USER, Value(spec.user)));
  }

  method GitHubEnv(spec: GitHubSpec) returns (env: EnvList)
    ensures SetsOtel(spec.common, env) && SetsGitHub(spec, env)
    ensures Within(env, 1, 9)
  {
    hide Lookup, Part, Agree, Within, AppendAll;
    hide SetsOtel, SetsCommon, SetsGitHubTarget, SetsGitHubOptions, SetsGitHubAuth;
    env := GitHubTargetEnv(spec);
    var common := CommonExporterEnv(spec.common);
    var before := env;
    env := AppendAll(env, common);
    Parts(before, common, 2, 5);
    Narrow(before, env, 1, 2);
    KeepGitHubTarget(spec, before, env);
    Narrow(common, env, 3, 5);
    KeepOtel(spec.common, common, env);
    KeepCommon(spec.common, common, env);
    var options := GitHubOptionsEnv(spec);
    before := env;
    env := AppendAll(env, options);
    Parts(before, options, 5, 6);
    Narrow(before, env, 1, 5);
    KeepGitHubTarget(spec, before, env);
    KeepOtel(spec.common, before, env);
    KeepCommon(spec.common, before, env);
    KeepGitHubOptions(spec, options, env);
    var auth := GitHubAuthEnv(spec);
    before := env;
    env := AppendAll(env, auth);
    Parts(before, auth, 6, 9);
    Narrow(before, env, 1, 6);
    Narrow(auth, env, 7, 9);
    KeepGitHubTarget(spec, before, env);
    KeepOtel(spec.common, before, env);
    KeepCommon(spec.common, before, env);
    KeepGitHubOptions(spec, before, env);
    KeepGitHubAuth(spec, auth, env);
  }

  method GitLabOptionsEnv(spec: GitLabSpec) returns (env: EnvList)
    ensures SetsGitLabOptions(spec, env)
    ensures Within(env, 6, 7)
  {
    LookupAppend();
    hide Lookup, DurationString;
    env := Empty;
    if spec.baseURL != "" {
      env := Append(env, EnvVar(GITLAB_URL, Value(spec.baseURL)));
    }
    if spec.common.collectWorkflows {
      env := Append(env, EnvVar(GITLAB_COLLECT_WORKFLOWS, Value("true")));
      env := Append(env, EnvVar(GITLAB_WORKFLOW_LOOKBACK, Value(DurationString(spec.common.workflowLookback))));
    }
  }

  method GitLabTargetEnv(spec: GitLabSpec) returns (env: EnvList)
    ensures SetsGitLabTarget(spec, env)
    ensures Within(env, 1, 2)
  {
    LookupAppend();
    hide Lookup;
    env := Append(Empty, EnvVar(GITLAB_TARGET_TYPE, Value(spec.targetType)));
    env := Append(env, EnvVar(GITLAB_GROUP, Value(spec.group)));
    env := Append(env, EnvVar(GITLAB_USER, Value(spec.user)));
  }

  method GitLabEnv(spec: GitLabSpec) returns (env: EnvList)
    ensures SetsOtel(spec.common, env) && SetsGitLab(spec, env)
    ensures Within(env, 1, 9)
  {
    hide Lookup, Part, Agree, Within, AppendAll;
    hide SetsOtel, SetsCommon, SetsGitLabTarget, SetsGitLabOptions, SetsGitLabToken;
    env := GitLabTargetEnv(spec);
    var common := CommonExporterEnv(spec.common);
    var before := env;
    env := AppendAll(env, common);
    Parts(before, common, 2, 5);
    Narrow(before, env, 1, 2);
    KeepGitLabTarget(spec, before, env);
    Narrow(common, env, 3, 5);
    KeepOtel(spec.common, common, env);
    KeepCommon(spec.common, common, env);
    var options := GitLabOptionsEnv(spec);
    before := env;
    env := AppendAll(env, options);
    Parts(before, options, 5, 7);
    Narrow(before, env, 1, 5);
    Narrow(options, env, 6, 7);
    KeepGitLabTarget(spec, before, env);
    KeepOtel(spec.common, before, env);
    KeepCommon(spec.common, before, env);
    KeepGitLabOptions(spec, options, env);
    var token := EnvVar(GITLAB_TOKEN, SecretKey(spec.common.credentialsSecret, spec.tokenKey));
    before := env;
    env := Append(env, token);
    Token(spec, before);
    Narrow(before, env, 1, 7);
    KeepGitLabTarget(spec, before, env);
    KeepOtel(spec.common, before, env);
    KeepCommon(spec.common, before, env);
    KeepGitLabOptions(spec, before, env);
  }

  lemma Token(spec: GitLabSpec, vars: EnvList)
    requires Within(vars, 1, 7)
    ensures var env := Append(vars, EnvVar(GITLAB_TOKEN, SecretKey(spec.common.credentialsSecret, spec.tokenKey)));
            SetsGitLabToken(spec, env) && Within(env, 1, 9) && Agree(vars, env, 1, 7)
  {
  }
}
