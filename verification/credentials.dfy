/** What host credentials enter the sandbox: Claude's own authentication
    (API key and session directory) and the external services GitHub,
    Google Cloud and SSH. Each collector yields mounts plus environment
    entries. */
module Credentials {
  import opened Results
  import opened Sequences
  import opened Strings
  import opened FilePath
  import opened Host
  import opened Constants
  import opened Config
  import opened ContainerTypes
  import opened Security

  /** Mounts in the order they were produced, and environment entries. */
  datatype Contribution = Contribution(mounts: seq<Mount>, env: map<string, string>)

  const Nothing: Contribution := Contribution([], map[])

  const ClaudeSessionTarget: string := "/tmp/.claude"
  const GhHostsTarget: string := "/root/.config/gh/hosts.yml"
  const AdcTarget: string := "/root/.config/gcloud/application_default_credentials.json"
  const SshTargetDir: string := "/root/.ssh"
  const KnownHostsTarget: string := "/root/.ssh/known_hosts"
  const AgentSocketTarget: string := "/tmp/ssh-agent.sock"

  /** Contributions are combined in order; a later environment entry
      replaces an earlier one. */
  function Combine(a: Contribution, b: Contribution): Contribution {
    Contribution(a.mounts + b.mounts, a.env + b.env)
  }

  /** The authentication mode, with the empty setting read as `auto`. */
  function EffectiveAuth(auth: string): string {
    if auth == "" then AuthAuto else auth
  }

  /** The session-directory mode, with the empty setting read as
      `readonly`. */
  function EffectiveSessionDir(sessionDir: string): string {
    if sessionDir == "" then SessionReadOnly else sessionDir
  }

  function ClaudeSessionSource(home: string): string {
    Join([home, ".claude"])
  }

  /** `CollectClaudeAuth`. Without a home directory nothing is collected. */
  function CollectClaudeAuth(cfg: Config, h: Host): (r: Contribution)
    ensures h.home.None? ==> r == Nothing
    ensures r.env.Keys <= {"ANTHROPIC_API_KEY"}
    ensures "ANTHROPIC_API_KEY" in r.env <==>
              h.home.Some? && EffectiveAuth(cfg.claude.auth) in {AuthAuto, AuthApiKey} &&
              Getenv(h, "ANTHROPIC_API_KEY") != ""
    ensures "ANTHROPIC_API_KEY" in r.env ==> r.env["ANTHROPIC_API_KEY"] == Getenv(h, "ANTHROPIC_API_KEY")
    ensures |r.mounts| <= 1
    ensures |r.mounts| == 1 <==>
              h.home.Some? && EffectiveAuth(cfg.claude.auth) in {AuthAuto, AuthSession} &&
              EffectiveSessionDir(cfg.claude.sessionDir) != SessionNone &&
              DirExists(h, ClaudeSessionSource(h.home.value))
    ensures |r.mounts| == 1 ==>
              r.mounts[0] == Mount(ClaudeSessionSource(h.home.value), ClaudeSessionTarget,
                                   EffectiveSessionDir(cfg.claude.sessionDir) == SessionReadOnly)
  {
    if h.home.None? then Nothing
    else
      var home := h.home.value;
      var auth := EffectiveAuth(cfg.claude.auth);
      var key := Getenv(h, "ANTHROPIC_API_KEY");
      var env := if (auth == AuthAuto || auth == AuthApiKey) && key != "" then map["ANTHROPIC_API_KEY" := key]
                 else map[];
      var sessionDir := EffectiveSessionDir(cfg.claude.sessionDir);
      var source := ClaudeSessionSource(home);
      var mounts := if (auth == AuthAuto || auth == AuthSession) && sessionDir != SessionNone && DirExists(h, source)
                    then [Mount(source, ClaudeSessionTarget, sessionDir == SessionReadOnly)]
                    else [];
      Contribution(mounts, env)
  }

  /** The session mode decides the mount's access: the empty mode and
      `readonly` give a read-only mount, `none` gives none, and any other
      value, known or not, gives a writable one. */
  lemma SessionModes(cfg: Config, h: Host)
    requires h.home.Some? && EffectiveAuth(cfg.claude.auth) in {AuthAuto, AuthSession}
    requires DirExists(h, ClaudeSessionSource(h.home.value))
    ensures cfg.claude.sessionDir in {"", SessionReadOnly} ==>
              CollectClaudeAuth(cfg, h).mounts == [Mount(ClaudeSessionSource(h.home.value), ClaudeSessionTarget, true)]
    ensures cfg.claude.sessionDir == SessionNone ==> CollectClaudeAuth(cfg, h).mounts == []
    ensures cfg.claude.sessionDir !in {"", SessionReadOnly, SessionNone} ==>
              CollectClaudeAuth(cfg, h).mounts == [Mount(ClaudeSessionSource(h.home.value), ClaudeSessionTarget, false)]
  {
    var r := CollectClaudeAuth(cfg, h);
    assert |r.mounts| == 1 ==> r.mounts == [r.mounts[0]];
  }

  /** `shouldEnable`: only `disabled` turns a credential off. The `auto`
      case looks at the named variables but enables either way. */
  function ShouldEnable(setting: string, vars: seq<string>, h: Host): (r: bool)
    ensures r <==> setting != CredentialDisabled
  {
    if setting == CredentialEnabled then true
    else if setting == CredentialDisabled then false
    else if setting == CredentialAuto then
      // the named variables are looked up, but either outcome enables
      true
    else true
  }

  function GhHostsSource(home: string): string {
    Join([home, ".config", "gh", "hosts.yml"])
  }

  /** GitHub: a token from `GH_TOKEN`, else from `GITHUB_TOKEN`, always
      exported as `GH_TOKEN`; with neither, the gh hosts file read-only. */
  function GitHub(cfg: Config, h: Host, home: string): (r: Contribution)
    ensures cfg.credentials.github == CredentialDisabled ==> r == Nothing
    ensures r.env.Keys <= {"GH_TOKEN"}
    ensures !(r.env != map[] && r.mounts != [])
    ensures "GH_TOKEN" in r.env <==>
              cfg.credentials.github != CredentialDisabled &&
              (Getenv(h, "GH_TOKEN") != "" || Getenv(h, "GITHUB_TOKEN") != "")
    ensures "GH_TOKEN" in r.env ==>
              r.env["GH_TOKEN"] == (if Getenv(h, "GH_TOKEN") != "" then Getenv(h, "GH_TOKEN") else Getenv(h, "GITHUB_TOKEN"))
    ensures r.mounts != [] <==>
              cfg.credentials.github != CredentialDisabled &&
              Getenv(h, "GH_TOKEN") == "" && Getenv(h, "GITHUB_TOKEN") == "" &&
              FileExists(h, GhHostsSource(home))
    ensures r.mounts != [] ==> r.mounts == [Mount(GhHostsSource(home), GhHostsTarget, true)]
  {
    if !ShouldEnable(cfg.credentials.github, ["GH_TOKEN", "GITHUB_TOKEN"], h) then Nothing
    else if Getenv(h, "GH_TOKEN") != "" then Contribution([], map["GH_TOKEN" := Getenv(h, "GH_TOKEN")])
    else if Getenv(h, "GITHUB_TOKEN") != "" then Contribution([], map["GH_TOKEN" := Getenv(h, "GITHUB_TOKEN")])
    else if FileExists(h, GhHostsSource(home)) then
      Contribution([Mount(GhHostsSource(home), GhHostsTarget, true)], map[])
    else Nothing
  }

  function AdcSource(home: string): string {
    Join([home, ".config", "gcloud", "application_default_credentials.json"])
  }

  /** Google Cloud: the default application credentials file and a file
      named by `GOOGLE_APPLICATION_CREDENTIALS`, each mounted read-only at
      the same sandbox path, which the variable is then set to. */
  function GCloud(cfg: Config, h: Host, home: string): (r: Contribution)
    ensures cfg.credentials.gcloud == CredentialDisabled ==> r == Nothing
    ensures |r.mounts| <= 2
    ensures cfg.credentials.gcloud != CredentialDisabled ==>
              |r.mounts| == (if FileExists(h, AdcSource(home)) then 1 else 0) +
                            (if Getenv(h, "GOOGLE_APPLICATION_CREDENTIALS") != "" &&
                                FileExists(h, Getenv(h, "GOOGLE_APPLICATION_CREDENTIALS")) then 1 else 0)
    ensures forall i :: 0 <= i < |r.mounts| ==> r.mounts[i].target == AdcTarget && r.mounts[i].readOnly
    ensures r.env.Keys <= {"GOOGLE_APPLICATION_CREDENTIALS"}
    ensures "GOOGLE_APPLICATION_CREDENTIALS" in r.env <==> r.mounts != []
    ensures "GOOGLE_APPLICATION_CREDENTIALS" in r.env ==> r.env["GOOGLE_APPLICATION_CREDENTIALS"] == AdcTarget
    ensures cfg.credentials.gcloud != CredentialDisabled && FileExists(h, AdcSource(home)) ==>
              |r.mounts| >= 1 && r.mounts[0] == Mount(AdcSource(home), AdcTarget, true)
    ensures cfg.credentials.gcloud != CredentialDisabled &&
            Getenv(h, "GOOGLE_APPLICATION_CREDENTIALS") != "" &&
            FileExists(h, Getenv(h, "GOOGLE_APPLICATION_CREDENTIALS")) ==>
              |r.mounts| >= 1 && r.mounts[|r.mounts| - 1] == Mount(Getenv(h, "GOOGLE_APPLICATION_CREDENTIALS"), AdcTarget, true)
    ensures forall i :: 0 <= i < |r.mounts| ==>
              (r.mounts[i].source == AdcSource(home) && FileExists(h, AdcSource(home))) ||
              (r.mounts[i].source == Getenv(h, "GOOGLE_APPLICATION_CREDENTIALS") &&
               r.mounts[i].source != "" && FileExists(h, r.mounts[i].source))
  {
    if !ShouldEnable(cfg.credentials.gcloud, ["GOOGLE_APPLICATION_CREDENTIALS"], h) then Nothing
    else
      var adc := AdcSource(home);
      var first := if FileExists(h, adc) then [Mount(adc, AdcTarget, true)] else [];
      var custom := Getenv(h, "GOOGLE_APPLICATION_CREDENTIALS");
      var second := if custom != "" && FileExists(h, custom) then [Mount(custom, AdcTarget, true)] else [];
      var mounts := first + second;
      Contribution(mounts, if mounts != [] then map["GOOGLE_APPLICATION_CREDENTIALS" := AdcTarget] else map[])
  }

  /** The mount for one configured SSH key: its expansion, when that
      succeeds and names a file, read-only under `/root/.ssh` by base
      name. */
  function KeyMount(key: string, h: Host): (m: Option<Mount>)
    ensures m.Some? <==> ExpandPath(key, h).Success? && FileExists(h, ExpandPath(key, h).value)
    ensures m.Some? ==> m.value == Mount(ExpandPath(key, h).value, Join([SshTargetDir, Base(ExpandPath(key, h).value)]), true)
  {
    match ExpandPath(key, h)
    case Failure(_) => None
    case Success(expanded) =>
      if FileExists(h, expanded) then Some(Mount(expanded, Join([SshTargetDir, Base(expanded)]), true))
      else None
  }

  /** The key mounts in configuration order; keys that fail to expand or
      are not files are skipped. */
  function KeyMounts(keys: seq<string>, h: Host): (r: seq<Mount>)
    ensures |r| <= |keys|
    ensures forall i :: 0 <= i < |r| ==>
              r[i].readOnly && FileExists(h, r[i].source) &&
              r[i].target == Join([SshTargetDir, Base(r[i].source)])
    ensures forall i :: 0 <= i < |keys| && KeyMount(keys[i], h).Some? ==> KeyMount(keys[i], h).value in r
    ensures forall i :: 0 <= i < |r| ==> exists j :: 0 <= j < |keys| && KeyMount(keys[j], h) == Some(r[i])
  {
    SiftMembers(keys, KeyMountOf(h));
    Sift(keys, KeyMountOf(h)).0
  }

  function KeyMountOf(h: Host): string -> Option<Mount> {
    (k: string) => KeyMount(k, h)
  }

  /** The key mounts follow the configured keys in order: those of a
      concatenation are those of its parts. */
  lemma KeyMountsAppend(xs: seq<string>, ys: seq<string>, h: Host)
    ensures KeyMounts(xs + ys, h) == KeyMounts(xs, h) + KeyMounts(ys, h)
  {
    SiftAppend(xs, ys, KeyMountOf(h));
  }

  /** One key yields its mount or nothing. */
  lemma KeyMountsSingle(key: string, h: Host)
    ensures KeyMounts([key], h) == if KeyMount(key, h).Some? then [KeyMount(key, h).value] else []
  {
    SiftSingle(key, KeyMountOf(h));
  }

  function KnownHostsSource(home: string): string {
    Join([home, ".ssh", "known_hosts"])
  }

  /** `collectSSHCredentials`: key mounts, then known_hosts, then the agent
      socket (the only writable mount), whose variable is rewritten. */
  function CollectSsh(cfg: Config, h: Host, home: string): (r: Contribution)
    ensures r.env.Keys <= {"SSH_AUTH_SOCK"}
    ensures "SSH_AUTH_SOCK" in r.env <==> cfg.credentials.ssh.agentForwarding && Getenv(h, "SSH_AUTH_SOCK") != ""
    ensures "SSH_AUTH_SOCK" in r.env ==> r.env["SSH_AUTH_SOCK"] == AgentSocketTarget
    ensures forall i :: 0 <= i < |r.mounts| && !r.mounts[i].readOnly ==>
              r.mounts[i] == Mount(Getenv(h, "SSH_AUTH_SOCK"), AgentSocketTarget, false) &&
              i == |r.mounts| - 1 && "SSH_AUTH_SOCK" in r.env
  {
    var ssh := cfg.credentials.ssh;
    var keys := KeyMounts(ssh.keys, h);
    var kh := if ssh.knownHosts && FileExists(h, KnownHostsSource(home))
              then [Mount(KnownHostsSource(home), KnownHostsTarget, true)] else [];
    var sock := Getenv(h, "SSH_AUTH_SOCK");
    var agent := if ssh.agentForwarding && sock != "" then [Mount(sock, AgentSocketTarget, false)] else [];
    Contribution(keys + kh + agent,
                 if ssh.agentForwarding && sock != "" then map["SSH_AUTH_SOCK" := AgentSocketTarget] else map[])
  }

  /** The SSH mounts exactly: the key mounts, then one known_hosts mount
      when it is asked for and present, then one agent socket mount when
      forwarding is on and `SSH_AUTH_SOCK` is set; nothing else. */
  lemma CollectSshLayout(cfg: Config, h: Host, home: string)
    ensures var r := CollectSsh(cfg, h, home);
            var keys := KeyMounts(cfg.credentials.ssh.keys, h);
            var knownHosts := cfg.credentials.ssh.knownHosts && FileExists(h, KnownHostsSource(home));
            var agent := cfg.credentials.ssh.agentForwarding && Getenv(h, "SSH_AUTH_SOCK") != "";
            && |r.mounts| == |keys| + (if knownHosts then 1 else 0) + (if agent then 1 else 0)
            && r.mounts[..|keys|] == keys
            && (knownHosts ==> r.mounts[|keys|] == Mount(KnownHostsSource(home), KnownHostsTarget, true))
            && (agent ==> r.mounts[|r.mounts| - 1] == Mount(Getenv(h, "SSH_AUTH_SOCK"), AgentSocketTarget, false))
    ensures Mount(KnownHostsSource(home), KnownHostsTarget, true) in CollectSsh(cfg, h, home).mounts <==>
              (cfg.credentials.ssh.knownHosts && FileExists(h, KnownHostsSource(home))) ||
              Mount(KnownHostsSource(home), KnownHostsTarget, true) in KeyMounts(cfg.credentials.ssh.keys, h)
  {
    var r := CollectSsh(cfg, h, home);
    var keys := KeyMounts(cfg.credentials.ssh.keys, h);
    assert r.mounts[..|keys|] == keys;
  }

  datatype CredentialError = NoHomeDirectory

  /** `CollectExternalCredentials`: GitHub, then Google Cloud, then SSH
      when it is enabled. Unlike `CollectClaudeAuth`, a missing home
      directory is an error. */
  function CollectExternalCredentials(cfg: Config, h: Host): (r: Result<Contribution, CredentialError>)
    ensures r.Failure? <==> h.home.None?
    ensures r.Success? && !cfg.credentials.ssh.enabled ==>
              r.value == Combine(GitHub(cfg, h, h.home.value), GCloud(cfg, h, h.home.value))
    ensures r.Success? && cfg.credentials.ssh.enabled ==>
              r.value == Combine(Combine(GitHub(cfg, h, h.home.value), GCloud(cfg, h, h.home.value)),
                                 CollectSsh(cfg, h, h.home.value))
    ensures r.Success? && cfg.credentials.github == CredentialDisabled &&
            cfg.credentials.gcloud == CredentialDisabled && !cfg.credentials.ssh.enabled ==>
              r.value == Nothing
    ensures r.Success? ==> forall i :: 0 <= i < |r.value.mounts| && !r.value.mounts[i].readOnly ==>
              cfg.credentials.ssh.enabled && r.value.mounts[i].target == AgentSocketTarget &&
              r.value.mounts[i].source == Getenv(h, "SSH_AUTH_SOCK")
  {
    if h.home.None? then Failure(NoHomeDirectory)
    else
      var home := h.home.value;
      var gh := GitHub(cfg, h, home);
      var gc := GCloud(cfg, h, home);
      var base := Combine(gh, gc);
      WritableAfterReadOnly([], gh.mounts);
      WritableAfterReadOnly(gh.mounts, gc.mounts);
      if cfg.credentials.ssh.enabled then
        var ssh := CollectSsh(cfg, h, home);
        WritableAfterReadOnly(base.mounts, ssh.mounts);
        Success(Combine(base, ssh))
      else Success(base)
  }

  /** A writable mount of `a + b`, where `a` is all read-only, comes from
      `b`. */
  lemma WritableAfterReadOnly(a: seq<Mount>, b: seq<Mount>)
    requires forall i :: 0 <= i < |a| ==> a[i].readOnly
    ensures forall i :: 0 <= i < |a + b| && !(a + b)[i].readOnly ==> i >= |a| && (a + b)[i] == b[i - |a|]
  {
  }
}
