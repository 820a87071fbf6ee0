/** The configuration record, its built-in defaults, the defaults
    registered with the settings store, and the load-time migration of the
    deprecated `mounts.claude_dir` key. */
module Config {
  import opened Results
  import opened Constants

  datatype ImageConfig = ImageConfig(name: string, dockerfile: string, buildContext: string)

  datatype MountEntry = MountEntry(path: string, readOnly: bool)

  /** `claudeDir` is the deprecated spelling of `claude.session_dir`. */
  datatype MountsConfig = MountsConfig(defaults: seq<MountEntry>, claudeDir: string)

  datatype ClaudeConfig = ClaudeConfig(auth: string, sessionDir: string, defaultArgs: seq<string>)

  datatype SshConfig = SshConfig(
    enabled: bool,
    keys: seq<string>,
    knownHosts: bool,
    agentForwarding: bool)

  datatype CredentialsConfig = CredentialsConfig(github: string, gcloud: string, ssh: SshConfig)

  datatype EnvironmentConfig = EnvironmentConfig(passthrough: seq<string>, custom: map<string, string>)

  datatype ContainerConfig = ContainerConfig(user: string, memoryLimit: string, network: string)

  datatype SecurityConfig = SecurityConfig(
    dropCapabilities: bool,
    noNewPrivileges: bool,
    readOnlyRoot: bool,
    caCerts: seq<string>)

  datatype Config = Config(
    image: ImageConfig,
    mounts: MountsConfig,
    claude: ClaudeConfig,
    credentials: CredentialsConfig,
    environment: EnvironmentConfig,
    container: ContainerConfig,
    security: SecurityConfig)

  const DefaultPassthrough: seq<string> := ["TERM", "COLORTERM", "EDITOR"]

  /** `defaultConfig`: every security switch on, no extra CA certificates,
      SSH off with known_hosts and agent forwarding on, automatic
      authentication and credentials, and the automatic user. */
  function DefaultConfig(): (c: Config)
    ensures c.security.dropCapabilities && c.security.noNewPrivileges && c.security.readOnlyRoot
    ensures c.security.caCerts == []
    ensures !c.credentials.ssh.enabled && c.credentials.ssh.keys == []
    ensures c.credentials.ssh.knownHosts && c.credentials.ssh.agentForwarding
    ensures c.claude.auth == AuthAuto && c.claude.sessionDir == SessionReadOnly
    ensures c.credentials.github == CredentialAuto && c.credentials.gcloud == CredentialAuto
    ensures c.container.user == UserAuto
  {
    Config(
      ImageConfig("enclaude:latest", "", ""),
      MountsConfig([], ""),
      ClaudeConfig(AuthAuto, SessionReadOnly, []),
      CredentialsConfig(CredentialAuto, CredentialAuto, SshConfig(false, [], true, true)),
      EnvironmentConfig(DefaultPassthrough, map[]),
      ContainerConfig(UserAuto, "4g", NetworkBridge),
      SecurityConfig(true, true, true, []))
  }

  /** `setDefaults`, read as the record a configuration file that sets
      nothing decodes to. */
  function StoreDefaults(): (c: Config)
    ensures c.container.user == ""
    ensures c == DefaultConfig().(container := DefaultConfig().container.(user := ""))
  {
    Config(
      ImageConfig("enclaude:latest", "", ""),
      MountsConfig([], ""),
      ClaudeConfig("auto", "readonly", []),
      CredentialsConfig("auto", "auto", SshConfig(false, [], true, true)),
      EnvironmentConfig(["TERM", "COLORTERM", "EDITOR"], map[]),
      ContainerConfig("", "4g", "bridge"),
      SecurityConfig(true, true, true, []))
  }

  /** Copy the deprecated `mounts.claude_dir` into an empty
      `claude.session_dir`; nothing else changes. */
  function Migrate(c: Config): (r: Config)
    ensures r == c.(claude := c.claude.(sessionDir := r.claude.sessionDir))
    ensures c.claude.sessionDir != "" ==> r == c
    ensures r.claude.sessionDir == "" <==> c.claude.sessionDir == "" && c.mounts.claudeDir == ""
    ensures r.claude.sessionDir != c.claude.sessionDir ==> r.claude.sessionDir == c.mounts.claudeDir
  {
    if c.claude.sessionDir == "" && c.mounts.claudeDir != "" then
      c.(claude := c.claude.(sessionDir := c.mounts.claudeDir))
    else c
  }

  /** `LoadConfig`, given what decoding the settings produced: `None` when
      decoding failed, which yields exactly the built-in defaults. */
  function LoadConfig(decoded: Option<Config>): (c: Config)
    ensures decoded.None? ==> c == DefaultConfig()
    ensures decoded.Some? ==> c == Migrate(decoded.value)
  {
    match decoded
    case None => DefaultConfig()
    case Some(d) => Migrate(d)
  }

  /** Loading what was loaded changes nothing more. */
  lemma MigrateIdempotent(c: Config)
    ensures Migrate(Migrate(c)) == Migrate(c)
  {
  }
}
