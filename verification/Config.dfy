// The exporter's configuration, read from environment variables and validated.
module Config {
  import opened GoStrings
  import opened Durations
  import opened Variables

  datatype Dimensions = Dimensions(ecosystem: bool, tool: bool, severity: bool)

  datatype Lifecycle = Lifecycle(enabled: bool, resolutionWindow: int, valkeyAddr: string, valkeyPassword: string)

  datatype GitHub = GitHub(targetType: string, org: string, user: string, token: string, appID: int,
                           appInstallationID: int, appPrivateKeyPath: string, codeScanningTool: string,
                           collectWorkflows: bool, workflowLookback: int)

  datatype GitLab = GitLab(targetType: string, group: string, user: string, token: string, baseURL: string,
                           collectWorkflows: bool, workflowLookback: int)

  datatype Config = Config(provider: string, pollInterval: int, dimensions: Dimensions, lifecycle: Lifecycle,
                           github: GitHub, gitlab: GitLab)

  const NO_GITHUB := GitHub("", "", "", "", 0, 0, "", "", false, 0)
  const NO_GITLAB := GitLab("", "", "", "", "", false, 0)

  const DEFAULT_POLL_INTERVAL := 5 * MINUTE
  const DEFAULT_RESOLUTION_WINDOW := 90 * 24 * HOUR

  type Env = map<Variable, string>

  function Getenv(env: Env, key: Variable): string { if key in env then env[key] else "" }

  function GetenvDefault(env: Env, key: Variable, def: string): string {
    var v := Getenv(env, key);
    if v != "" then v else def
  }

  // None is an error, here and below.
  function GetenvInt64(env: Env, key: Variable): Option<int> {
    var v := Getenv(env, key);
    if v == "" then Some(0) else ParseInt(v)
  }

  function GetenvDuration(env: Env, key: Variable, def: int): Option<int> {
    var v := Getenv(env, key);
    if v == "" then Some(def)
    else
      var d := ParseDuration(v);
      if d.None? || d.value <= 0 then None else d
  }

  // ----- Dimensions -----

  // The white space of strings.TrimSpace.
  predicate IsSpace(c: char) {
    || '\t' <= c <= '\r' || c == ' ' || c == '\U{0085}' || c == '\U{00A0}' || c == '\U{1680}'
    || '\U{2000}' <= c <= '\U{200A}' || c == '\U{2028}' || c == '\U{2029}' || c == '\U{202F}'
    || c == '\U{205F}' || c == '\U{3000}'
  }

  function TrimSpace(s: string): string {
    if s != "" && IsSpace(s[0]) then TrimSpace(s[1..])
    else if s != "" && IsSpace(s[|s| - 1]) then TrimSpace(s[..|s| - 1])
    else s
  }

  // Some entry of the comma-separated list is `word`, up to surrounding white space.
  predicate Lists(raw: string, word: string) {
    exists i :: 0 <= i < |Split(raw, ',')| && TrimSpace(Split(raw, ',')[i]) == word
  }

  function DimensionsOf(raw: string): Dimensions {
    Dimensions(Lists(raw, "ecosystem"), Lists(raw, "tool"), Lists(raw, "severity"))
  }

  method ParseDimensions(raw: string) returns (d: Dimensions)
    ensures d.ecosystem <==> Lists(raw, "ecosystem")
    ensures d.tool <==> Lists(raw, "tool")
    ensures d.severity <==> Lists(raw, "severity")
  {
    d := Dimensions(false, false, false);
    var parts := Split(raw, ',');
    hide TrimSpace, Split;
    for i := 0 to |parts|
      invariant d.ecosystem <==> exists k :: 0 <= k < i && TrimSpace(parts[k]) == "ecosystem"
      invariant d.tool <==> exists k :: 0 <= k < i && TrimSpace(parts[k]) == "tool"
      invariant d.severity <==> exists k :: 0 <= k < i && TrimSpace(parts[k]) == "severity"
    {
      var part := TrimSpace(parts[i]);
      if part == "ecosystem" {
        d := d.(ecosystem := true);
      } else if part == "tool" {
        d := d.(tool := true);
      } else if part == "severity" {
        d := d.(severity := true);
      }
    }
  }

  predicate IsDimension(name: string) { name == "ecosystem" || name == "tool" || name == "severity" }

  // No white space to trim and no comma to split at.
  lemma DimensionIsClean(name: string)
    requires IsDimension(name)
    ensures TrimSpace(name) == name && ',' !in name
  {
    if name == "tool" {
      assert !IsSpace('t') && !IsSpace('l');
    } else if name == "severity" {
      assert !IsSpace('s') && !IsSpace('y');
    } else {
      assert !IsSpace('e') && !IsSpace('m');
    }
    hide IsSpace;
  }

  lemma JoinedList(names: seq<string>, word: string)
    requires word != "" && forall i :: 0 <= i < |names| ==> IsDimension(names[i])
    ensures Lists(Join(names, ','), word) <==> word in names
  {
    forall i | 0 <= i < |names| ensures TrimSpace(names[i]) == names[i] && ',' !in names[i] {
      DimensionIsClean(names[i]);
    }
    hide IsDimension;
    if names == [] {
      assert Split("", ',') == [""] && TrimSpace("") == "";
    } else {
      SplitJoin(names, ',');
      hide Split, Join, TrimSpace;
    }
  }

  // A joined list of dimension names gives back exactly the names in it, however often they are
  // repeated; no other name is read into it.
  lemma JoinedDimensions(names: seq<string>)
    requires forall i :: 0 <= i < |names| ==> IsDimension(names[i])
    ensures DimensionsOf(Join(names, ','))
         == Dimensions("ecosystem" in names, "tool" in names, "severity" in names)
  {
    hide IsDimension, Lists, Join;
    JoinedList(names, "ecosystem");
    JoinedList(names, "tool");
    JoinedList(names, "severity");
  }

  // ----- Validation -----

  predicate AppComplete(c: GitHub) {
    c.appID != 0 && c.appInstallationID != 0 && c.appPrivateKeyPath != ""
  }

  // The target of the chosen type is set, and one authentication method is usable.
  predicate ValidGitHub(c: GitHub) {
    && ((c.targetType == "org" && c.org != "") || (c.targetType == "user" && c.user != ""))
    && (AppComplete(c) || c.token != "")
  }

  predicate ValidGitLab(c: GitLab) {
    && ((c.targetType == "group" && c.group != "") || (c.targetType == "user" && c.user != ""))
    && c.token != ""
  }

  method ValidateGitHub(c: GitHub) returns (ok: bool)
    ensures ok <==> ValidGitHub(c)
  {
    if c.targetType == "org" {
      if c.org == "" { return false; }
    } else if c.targetType == "user" {
      if c.user == "" { return false; }
    } else {
      return false;
    }
    if AppComplete(c) { return true; }
    if c.token != "" { return true; }
    return false;
  }

  method ValidateGitLab(c: GitLab) returns (ok: bool)
    ensures ok <==> ValidGitLab(c)
  {
    if c.targetType == "group" {
      if c.group == "" { return false; }
    } else if c.targetType == "user" {
      if c.user == "" { return false; }
    } else {
      return false;
    }
    return c.token != "";
  }

  // The login that is polled.
  function Target(c: Config): string {
    if c.provider == "gitlab" then
      if c.gitlab.targetType == "user" then c.gitlab.user else c.gitlab.group
    else if c.github.targetType == "user" then c.github.user
    else c.github.org
  }

  // ----- Load -----

  // Each field of a loaded configuration, against the variable it comes from.

  predicate ReadsCommon(env: Env, c: Config) {
    && GetenvDuration(env, POLL_INTERVAL, DEFAULT_POLL_INTERVAL) == Some(c.pollInterval)
    && c.dimensions == DimensionsOf(Getenv(env, SCM_FINDING_DIMENSIONS))
    && c.lifecycle.enabled == (Getenv(env, SCM_COLLECT_LIFECYCLE) == "true")
    && GetenvDuration(env, SCM_RESOLUTION_WINDOW, DEFAULT_RESOLUTION_WINDOW) == Some(c.lifecycle.resolutionWindow)
    && c.lifecycle.valkeyAddr == Getenv(env, VALKEY_ADDR)
    && c.lifecycle.valkeyPassword == Getenv(env, VALKEY_PASSWORD)
    && (c.lifecycle.enabled ==> c.lifecycle.valkeyAddr != "")
  }

  predicate ReadsGitHub(env: Env, g: GitHub) {
    && g.targetType == GetenvDefault(env, GITHUB_TARGET_TYPE, "org")
    && g.org == Getenv(env, GITHUB_ORG)
    && g.user == Getenv(env, GITHUB_USER)
    && g.token == Getenv(env, GITHUB_TOKEN)
    && GetenvInt64(env, GITHUB_APP_ID) == Some(g.appID)
    && GetenvInt64(env, GITHUB_APP_INSTALLATION_ID) == Some(g.appInstallationID)
    && g.appPrivateKeyPath == Getenv(env, GITHUB_APP_PRIVATE_KEY_PATH)
    && g.codeScanningTool == Getenv(env, GITHUB_CODE_SCANNING_TOOL)
    && g.collectWorkflows == (Getenv(env, GITHUB_COLLECT_WORKFLOWS) == "true")
    && GetenvDuration(env, GITHUB_WORKFLOW_LOOKBACK, 0) == Some(g.workflowLookback)
    && ValidGitHub(g)
  }

  predicate ReadsGitLab(env: Env, g: GitLab) {
    && g.targetType == GetenvDefault(env, GITLAB_TARGET_TYPE, "group")
    && g.group == Getenv(env, GITLAB_GROUP)
    && g.user == Getenv(env, GITLAB_USER)
    && g.token == Getenv(env, GITLAB_TOKEN)
    && g.baseURL == Getenv(env, GITLAB_URL)
    && g.collectWorkflows == (Getenv(env, GITLAB_COLLECT_WORKFLOWS) == "true")
    && GetenvDuration(env, GITLAB_WORKFLOW_LOOKBACK, 0) == Some(g.workflowLookback)
    && ValidGitLab(g)
  }

  // c is what env says for this provider, and is valid; at most one configuration is.
  predicate Reads(provider: string, env: Env, c: Config) {
    && c.provider == provider
    && ReadsCommon(env, c)
    && (provider == "github" || provider == "gitlab")
    && (if provider == "github" then ReadsGitHub(env, c.github) else c.github == NO_GITHUB)
    && (if provider == "gitlab" then ReadsGitLab(env, c.gitlab) else c.gitlab == NO_GITLAB)
  }

  lemma ReadsOne(provider: string, env: Env, a: Config, b: Config)
    requires Reads(provider, env, a) && Reads(provider, env, b)
    ensures a == b
  {
    hide Lists, ParseInt, ParseDuration;
    assert a.lifecycle == b.lifecycle;
    assert a.github == b.github;
    assert a.gitlab == b.gitlab;
  }

  // Load fails exactly when the environment describes no valid configuration, and otherwise
  // returns the one it describes.
  method Load(provider: string, env: Env) returns (r: Option<Config>)
    ensures r.Some? ==> Reads(provider, env, r.value)
    ensures r.None? ==> forall c :: !Reads(provider, env, c)
  {
    hide Lists, ParseInt, ParseDuration;
    var cfg := Config(provider, 0, Dimensions(false, false, false), Lifecycle(false, 0, "", ""), NO_GITHUB, NO_GITLAB);
    var interval := GetenvDuration(env, POLL_INTERVAL, DEFAULT_POLL_INTERVAL);
    if interval.None? { return None; }
    cfg := cfg.(pollInterval := interval.value);
    var dimensions := ParseDimensions(Getenv(env, SCM_FINDING_DIMENSIONS));
    cfg := cfg.(dimensions := dimensions);
    cfg := cfg.(lifecycle := cfg.lifecycle.(enabled := Getenv(env, SCM_COLLECT_LIFECYCLE) == "true"));
    var window := GetenvDuration(env, SCM_RESOLUTION_WINDOW, DEFAULT_RESOLUTION_WINDOW);
    if window.None? { return None; }
    cfg := cfg.(lifecycle := cfg.lifecycle.(resolutionWindow := window.value,
                                            valkeyAddr := Getenv(env, VALKEY_ADDR),
                                            valkeyPassword := Getenv(env, VALKEY_PASSWORD)));
    if cfg.lifecycle.enabled && cfg.lifecycle.valkeyAddr == "" { return None; }
    assert ReadsCommon(env, cfg);
    if provider == "github" {
      var g := LoadGitHub(env);
      if g.None? { return None; }
      cfg := cfg.(github := g.value);
    } else if provider == "gitlab" {
      var g := LoadGitLab(env);
      if g.None? { return None; }
      cfg := cfg.(gitlab := g.value);
    } else {
      return None;
    }
    return Some(cfg);
  }

  method LoadGitHub(env: Env) returns (r: Option<GitHub>)
    ensures r.Some? ==> ReadsGitHub(env, r.value)
    ensures r.None? ==> forall g :: !ReadsGitHub(env, g)
  {
    hide ParseInt, ParseDuration;
    var g := NO_GITHUB.(targetType := GetenvDefault(env, GITHUB_TARGET_TYPE, "org"),
                        org := Getenv(env, GITHUB_ORG),
                        user := Getenv(env, GITHUB_USER),
                        token := Getenv(env, GITHUB_TOKEN),
                        appPrivateKeyPath := Getenv(env, GITHUB_APP_PRIVATE_KEY_PATH),
                        codeScanningTool := Getenv(env, GITHUB_CODE_SCANNING_TOOL),
                        collectWorkflows := Getenv(env, GITHUB_COLLECT_WORKFLOWS) == "true");
    var id := GetenvInt64(env, GITHUB_APP_ID);
    if id.None? { return None; }
    g := g.(appID := id.value);
    id := GetenvInt64(env, GITHUB_APP_INSTALLATION_ID);
    if id.None? { return None; }
    g := g.(appInstallationID := id.value);
    var lookback := GetenvDuration(env, GITHUB_WORKFLOW_LOOKBACK, 0);
    if lookback.None? { return None; }
    g := g.(workflowLookback := lookback.value);
    var ok := ValidateGitHub(g);
    if !ok { return None; }
    return Some(g);
  }

  method LoadGitLab(env: Env) returns (r: Option<GitLab>)
    ensures r.Some? ==> ReadsGitLab(env, r.value)
    ensures r.None? ==> forall g :: !ReadsGitLab(env, g)
  {
    hide ParseDuration;
    var g := NO_GITLAB.(targetType := GetenvDefault(env, GITLAB_TARGET_TYPE, "group"),
                        group := Getenv(env, GITLAB_GROUP),
                        user := Getenv(env, GITLAB_USER),
                        token := Getenv(env, GITLAB_TOKEN),
                        baseURL := Getenv(env, GITLAB_URL),
                        collectWorkflows := Getenv(env, GITLAB_COLLECT_WORKFLOWS) == "true");
    var lookback := GetenvDuration(env, GITLAB_WORKFLOW_LOOKBACK, 0);
    if lookback.None? { return None; }
    g := g.(workflowLookback := lookback.value);
    var ok := ValidateGitLab(g);
    if !ok { return None; }
    return Some(g);
  }

  // ----- Lists and defaults, said of the text -----

  // word stands in s between white space only.
  ghost predicate Framed(s: string, word: string) {
    exists i: nat, j: nat :: FramedAt(s, word, i, j)
  }

  ghost predicate FramedAt(s: string, word: string, i: nat, j: nat) {
    && i <= j <= |s| && word == s[i..j]
    && forall k :: 0 <= k < i || j <= k < |s| ==> IsSpace(s[k])
  }

  lemma {:induction false} TrimSpaceFrames(s: string) returns (i: nat, j: nat)
    ensures FramedAt(s, TrimSpace(s), i, j)
    ensures TrimSpace(s) != "" ==> !IsSpace(s[i]) && !IsSpace(s[j - 1])
    decreases |s|
  {
    hide IsSpace;
    if s != "" && IsSpace(s[0]) {
      i, j := TrimSpaceFrames(s[1..]);
      forall k | 0 <= k < i + 1 || j + 1 <= k < |s| ensures IsSpace(s[k]) {
        if k > 0 { assert s[k] == s[1..][k - 1]; }
      }
      i, j := i + 1, j + 1;
    } else if s != "" && IsSpace(s[|s| - 1]) {
      i, j := TrimSpaceFrames(s[..|s| - 1]);
    } else {
      i, j := 0, |s|;
    }
  }

  // For a word without white space at its ends, trimming gives the word exactly when it is so framed.
  lemma TrimSpaceIs(s: string, word: string)
    requires word != "" && !IsSpace(word[0]) && !IsSpace(word[|word| - 1])
    ensures TrimSpace(s) == word <==> Framed(s, word)
  {
    hide IsSpace, TrimSpace;
    var i, j := TrimSpaceFrames(s);
    if Framed(s, word) {
      var p: nat, q: nat :| FramedAt(s, word, p, q);
      assert !IsSpace(s[p]) && !IsSpace(s[q - 1]);
      assert i <= p && q <= j;
      assert TrimSpace(s) != "";
      assert p <= i && j <= q;
    }
  }

  // What a list of dimensions is read as: a flag is set exactly when some piece between commas holds its
  // name and otherwise only white space.
  lemma DimensionsAre(raw: string, word: string)
    requires IsDimension(word)
    ensures Lists(raw, word) <==> exists i :: 0 <= i < |Split(raw, ',')| && Framed(Split(raw, ',')[i], word)
  {
    assert !IsSpace(word[0]) && !IsSpace(word[|word| - 1]);
    hide IsSpace, TrimSpace, Split, Framed;
    forall i | 0 <= i < |Split(raw, ',')|
      ensures TrimSpace(Split(raw, ',')[i]) == word <==> Framed(Split(raw, ',')[i], word)
    {
      TrimSpaceIs(Split(raw, ',')[i], word);
    }
  }

  // The variable is not set, or set to nothing.
  predicate Unset(env: Env, key: Variable) { key !in env || env[key] == "" }

  lemma NoDimensions()
    ensures DimensionsOf("") == Dimensions(false, false, false)
  {
    assert Split("", ',') == [""] && TrimSpace("") == "";
  }

  // The settings of a loaded configuration whose variables are unset: five minutes, ninety days, an
  // organization or a group, no lookback, no App, nothing switched on.
  lemma DefaultsAre(provider: string, env: Env, c: Config)
    requires Reads(provider, env, c)
    ensures Unset(env, POLL_INTERVAL) ==> c.pollInterval == 300 * SECOND
    ensures Unset(env, SCM_RESOLUTION_WINDOW) ==> c.lifecycle.resolutionWindow == 7_776_000 * SECOND
    ensures Unset(env, SCM_FINDING_DIMENSIONS) ==> c.dimensions == Dimensions(false, false, false)
    ensures Unset(env, SCM_COLLECT_LIFECYCLE) ==> !c.lifecycle.enabled
    ensures provider == "github" ==>
              && (Unset(env, GITHUB_TARGET_TYPE) ==> c.github.targetType == "org")
              && (Unset(env, GITHUB_WORKFLOW_LOOKBACK) ==> c.github.workflowLookback == 0)
              && (Unset(env, GITHUB_COLLECT_WORKFLOWS) ==> !c.github.collectWorkflows)
              && (Unset(env, GITHUB_APP_ID) ==> c.github.appID == 0)
    ensures provider == "gitlab" ==>
              && (Unset(env, GITLAB_TARGET_TYPE) ==> c.gitlab.targetType == "group")
              && (Unset(env, GITLAB_WORKFLOW_LOOKBACK) ==> c.gitlab.workflowLookback == 0)
              && (Unset(env, GITLAB_COLLECT_WORKFLOWS) ==> !c.gitlab.collectWorkflows)
  {
    hide ParseInt, ParseDuration, Lists;
    NoDimensions();
  }

  // And those whose variables are set: the text itself, the number it stands for, or a positive duration.
  lemma SettingsAre(provider: string, env: Env, c: Config)
    requires Reads(provider, env, c)
    ensures !Unset(env, POLL_INTERVAL) ==>
              ParseDuration(env[POLL_INTERVAL]) == Some(c.pollInterval) && c.pollInterval > 0
    ensures !Unset(env, SCM_RESOLUTION_WINDOW) ==>
              && ParseDuration(env[SCM_RESOLUTION_WINDOW]) == Some(c.lifecycle.resolutionWindow)
              && c.lifecycle.resolutionWindow > 0
    ensures c.lifecycle.enabled ==> !Unset(env, VALKEY_ADDR) && c.lifecycle.valkeyAddr == env[VALKEY_ADDR]
    ensures provider == "github" ==>
              && c.github.targetType in ["org", "user"]
              && (c.github.targetType == "org" ==> !Unset(env, GITHUB_ORG) && c.github.org == env[GITHUB_ORG])
              && (c.github.targetType == "user" ==> !Unset(env, GITHUB_USER) && c.github.user == env[GITHUB_USER])
              && (!Unset(env, GITHUB_TOKEN) ==> c.github.token == env[GITHUB_TOKEN])
              && (!Unset(env, GITHUB_APP_ID) ==> ParseInt(env[GITHUB_APP_ID]) == Some(c.github.appID))
              && (Unset(env, GITHUB_TOKEN) ==>
                    c.github.appID != 0 && c.github.appInstallationID != 0 && c.github.appPrivateKeyPath != "")
    ensures provider == "gitlab" ==>
              && c.gitlab.targetType in ["group", "user"]
              && (c.gitlab.targetType == "group" ==> !Unset(env, GITLAB_GROUP) && c.gitlab.group == env[GITLAB_GROUP])
              && (c.gitlab.targetType == "user" ==> !Unset(env, GITLAB_USER) && c.gitlab.user == env[GITLAB_USER])
              && !Unset(env, GITLAB_TOKEN) && c.gitlab.token == env[GITLAB_TOKEN]
  {
    hide Lists, ParseInt, ParseDuration;
  }
}
