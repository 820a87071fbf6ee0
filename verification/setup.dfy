/** The `setup` wizard: detection of the Claude authentication methods
    available on the host, the prompt loops that classify the answers read
    from standard input, and the configuration file it writes.

    The input is the sequence of complete lines still to be read, each
    without its newline. Reaching the end of the sequence stands for the
    read error `ReadString('\n')` reports: end of input, a last line that
    lacks its newline, or any other failure. */
module Setup {
  import opened Results
  import opened Strings
  import opened Host
  import opened Constants
  import opened Credentials
  import ConfigCommand

  // ---------------------------------------------------------------------
  // The prompt loop

  /** What one answer line means to a prompt: a value, or a reason to ask
      again. */
  datatype Answer<T> = Take(value: T) | Again

  /** A prompt loop: lines are read until one is accepted; a read error
      ends the loop with `onError`. The result holds the value and the
      input left for the next prompt. */
  function Ask<T>(input: seq<string>, answer: string -> Answer<T>, onError: T): (r: (T, seq<string>))
    ensures |r.1| <= |input| && r.1 == input[|input| - |r.1|..]
    ensures r.0 == onError || exists i :: 0 <= i < |input| && answer(input[i]) == Take(r.0)
    ensures (forall i :: 0 <= i < |input| ==> answer(input[i]).Again?) ==> r == (onError, [])
    ensures forall i ::
              (0 <= i < |input| && answer(input[i]).Take? && forall j :: 0 <= j < i ==> answer(input[j]).Again?) ==>
              r == (answer(input[i]).value, input[i + 1..])
    decreases |input|
  {
    if input == [] then (onError, [])
    else
      match answer(input[0])
      case Take(v) => (v, input[1..])
      case Again =>
        assert forall i :: 1 <= i < |input| ==> input[1..][i - 1] == input[i];
        assert forall i :: 1 <= i < |input| ==> input[1..][i - 1..] == input[i..];
        Ask(input[1..], answer, onError)
  }

  /** The loop read as a whole: after any run of rejected lines, the first
      accepted line decides and what follows it is left unread; if no line
      is accepted the read error gives `onError`. */
  lemma AskDecides<T>(bad: seq<string>, line: string, rest: seq<string>, answer: string -> Answer<T>, onError: T)
    requires forall i :: 0 <= i < |bad| ==> answer(bad[i]).Again?
    ensures Ask(bad, answer, onError) == (onError, [])
    ensures answer(line).Take? ==> Ask(bad + [line] + rest, answer, onError) == (answer(line).value, rest)
  {
    var input := bad + [line] + rest;
    assert input[|bad|] == line;
    assert input[|bad| + 1..] == rest;
    assert forall j :: 0 <= j < |bad| ==> input[j] == bad[j];
  }

  /** An accepted first line answers the prompt and leaves the rest. */
  lemma AskFirst<T>(line: string, rest: seq<string>, answer: string -> Answer<T>, onError: T)
    requires answer(line).Take?
    ensures Ask([line] + rest, answer, onError) == (answer(line).value, rest)
  {
    assert ([line] + rest)[0] == line && ([line] + rest)[1..] == rest;
  }

  // ---------------------------------------------------------------------
  // detectClaudeAuth

  /** `detectClaudeAuth`, as the set of methods recorded in its map. */
  function DetectClaudeAuth(h: Host): (r: set<string>)
    ensures r <= {AuthApiKey, AuthSession}
    ensures AuthApiKey in r <==> Getenv(h, "ANTHROPIC_API_KEY") != ""
    ensures AuthSession in r <==> h.home.Some? && DirExists(h, ClaudeSessionSource(h.home.value))
  {
    (if Getenv(h, "ANTHROPIC_API_KEY") != "" then {AuthApiKey} else {}) +
    (if h.home.Some? && DirExists(h, ClaudeSessionSource(h.home.value)) then {AuthSession} else {})
  }

  /** With a home directory and automatic authentication, detection agrees
      with what a run collects: the key is detected exactly when the run
      passes it in, and the session directory exactly when the run mounts
      it. Without a home directory a key is still detected, but a run
      passes nothing. */
  lemma DetectionMatchesCollection(cfg: Config.Config, h: Host)
    requires EffectiveAuth(cfg.claude.auth) == AuthAuto
    requires EffectiveSessionDir(cfg.claude.sessionDir) != SessionNone
    ensures h.home.Some? ==>
              (AuthApiKey in DetectClaudeAuth(h) <==> "ANTHROPIC_API_KEY" in CollectClaudeAuth(cfg, h).env)
    ensures h.home.Some? ==>
              (AuthSession in DetectClaudeAuth(h) <==> |CollectClaudeAuth(cfg, h).mounts| == 1)
    ensures h.home.None? ==>
              (AuthApiKey in DetectClaudeAuth(h) <==> Getenv(h, "ANTHROPIC_API_KEY") != "") &&
              CollectClaudeAuth(cfg, h) == Nothing
  {
  }

  // ---------------------------------------------------------------------
  // selectAuthMethod

  /** The chosen method, and whether the wizard warned that it was not
      detected. */
  datatype AuthChoice = AuthChoice(mode: string, warned: bool)

  function AuthAnswer(detected: set<string>, line: string): (a: Answer<AuthChoice>)
    ensures a.Take? ==> a.value.mode in {AuthAuto, AuthApiKey, AuthSession}
    ensures a.Take? ==> (a.value.warned <==> a.value.mode != AuthAuto && a.value.mode !in detected)
  {
    var s := TrimSpace(line);
    if s == "" || s == "1" then Take(AuthChoice(AuthAuto, false))
    else if s == "2" then Take(AuthChoice(AuthApiKey, AuthApiKey !in detected))
    else if s == "3" then Take(AuthChoice(AuthSession, AuthSession !in detected))
    else Again
  }

  function AuthAnswers(detected: set<string>): string -> Answer<AuthChoice> {
    (line: string) => AuthAnswer(detected, line)
  }

  /** `selectAuthMethod`: one of the three modes; a warning is given exactly
      when a specific method was chosen that was not detected. */
  function SelectAuthMethod(input: seq<string>, detected: set<string>): (r: (AuthChoice, seq<string>))
    ensures r.0.mode in {AuthAuto, AuthApiKey, AuthSession}
    ensures r.0.warned <==> r.0.mode != AuthAuto && r.0.mode !in detected
    ensures |r.1| <= |input|
  {
    Ask(input, AuthAnswers(detected), AuthChoice(AuthAuto, false))
  }

  /** Each answer of `selectAuthMethod`, after any number of rejected
      lines. */
  lemma SelectAuthMethodDecides(bad: seq<string>, line: string, rest: seq<string>, detected: set<string>)
    requires forall i :: 0 <= i < |bad| ==> TrimSpace(bad[i]) !in {"", "1", "2", "3"}
    ensures SelectAuthMethod(bad, detected) == (AuthChoice(AuthAuto, false), [])
    ensures TrimSpace(line) in {"", "1"} ==>
              SelectAuthMethod(bad + [line] + rest, detected) == (AuthChoice(AuthAuto, false), rest)
    ensures TrimSpace(line) == "2" ==>
              SelectAuthMethod(bad + [line] + rest, detected) == (AuthChoice(AuthApiKey, AuthApiKey !in detected), rest)
    ensures TrimSpace(line) == "3" ==>
              SelectAuthMethod(bad + [line] + rest, detected) == (AuthChoice(AuthSession, AuthSession !in detected), rest)
  {
    AskDecides(bad, line, rest, AuthAnswers(detected), AuthChoice(AuthAuto, false));
  }

  /** Detection never changes the outcome: the same answers choose the same
      method whatever was detected, and leave the same input unread. */
  lemma {:induction false} MethodIgnoresDetection(input: seq<string>, d1: set<string>, d2: set<string>)
    ensures SelectAuthMethod(input, d1).0.mode == SelectAuthMethod(input, d2).0.mode
    ensures SelectAuthMethod(input, d1).1 == SelectAuthMethod(input, d2).1
    decreases |input|
  {
    if input != [] {
      AnswerIgnoresDetection(input[0], d1, d2);
      if AuthAnswer(d1, input[0]).Again? {
        MethodIgnoresDetection(input[1..], d1, d2);
      }
    }
  }

  lemma AnswerIgnoresDetection(line: string, d1: set<string>, d2: set<string>)
    ensures AuthAnswer(d1, line).Again? == AuthAnswer(d2, line).Again?
    ensures AuthAnswer(d1, line).Take? ==> AuthAnswer(d1, line).value.mode == AuthAnswer(d2, line).value.mode
  {
  }

  // ---------------------------------------------------------------------
  // configureCredential

  function CredentialAnswer(default: string, line: string): (a: Answer<string>)
    ensures a.Take? ==> a.value in {default, CredentialAuto, CredentialEnabled, CredentialDisabled}
  {
    var s := TrimSpace(line);
    if s == "" then Take(default)
    else if s == "1" then Take(CredentialAuto)
    else if s == "2" then Take(CredentialEnabled)
    else if s == "3" then Take(CredentialDisabled)
    else Again
  }

  function CredentialAnswers(default: string): string -> Answer<string> {
    (line: string) => CredentialAnswer(default, line)
  }

  /** `configureCredential`: the default or one of the three credential
      modes. */
  function ConfigureCredential(input: seq<string>, default: string): (r: (string, seq<string>))
    ensures r.0 in {default, CredentialAuto, CredentialEnabled, CredentialDisabled}
    ensures |r.1| <= |input|
  {
    Ask(input, CredentialAnswers(default), default)
  }

  /** Each answer of `configureCredential`, after any number of rejected
      lines; a read error, a final line without a newline included, gives
      the default. */
  lemma ConfigureCredentialDecides(bad: seq<string>, line: string, rest: seq<string>, default: string)
    requires forall i :: 0 <= i < |bad| ==> TrimSpace(bad[i]) !in {"", "1", "2", "3"}
    ensures ConfigureCredential(bad, default) == (default, [])
    ensures TrimSpace(line) == "" ==> ConfigureCredential(bad + [line] + rest, default) == (default, rest)
    ensures TrimSpace(line) == "1" ==> ConfigureCredential(bad + [line] + rest, default) == (CredentialAuto, rest)
    ensures TrimSpace(line) == "2" ==> ConfigureCredential(bad + [line] + rest, default) == (CredentialEnabled, rest)
    ensures TrimSpace(line) == "3" ==> ConfigureCredential(bad + [line] + rest, default) == (CredentialDisabled, rest)
  {
    AskDecides(bad, line, rest, CredentialAnswers(default), default);
  }

  // ---------------------------------------------------------------------
  // configureMemory

  const DefaultMemory: string := "4g"

  /** The wizard's only check on a memory limit: at least two characters,
      the last a lower-case `g` or `m`. */
  predicate MemoryShape(s: string) {
    |s| >= 2 && (s[|s| - 1] == 'g' || s[|s| - 1] == 'm')
  }

  function MemoryAnswer(line: string): (a: Answer<string>)
    ensures a.Take? ==> a.value == DefaultMemory || (MemoryShape(a.value) && a.value == TrimSpace(line))
    ensures a.Take? && a.value != DefaultMemory ==> !IsSpace(a.value[0]) && !IsSpace(a.value[|a.value| - 1])
  {
    var s := TrimSpace(line);
    if s == "" then Take(DefaultMemory)
    else if |s| >= 2 && (HasSuffix(s, "g") || HasSuffix(s, "m")) then Take(s)
    else Again
  }

  /** `configureMemory`: the default, or a trimmed answer of the accepted
      shape. */
  function ConfigureMemory(input: seq<string>): (r: (string, seq<string>))
    ensures r.0 == DefaultMemory || (MemoryShape(r.0) && !IsSpace(r.0[0]) && !IsSpace(r.0[|r.0| - 1]))
    ensures |r.1| <= |input|
  {
    Ask(input, MemoryAnswer, DefaultMemory)
  }

  lemma MemoryAnswerShape(line: string)
    ensures MemoryAnswer(line) == Again <==> TrimSpace(line) != "" && !MemoryShape(TrimSpace(line))
    ensures TrimSpace(line) != "" && MemoryShape(TrimSpace(line)) ==> MemoryAnswer(line) == Take(TrimSpace(line))
  {
    var s := TrimSpace(line);
    if |s| >= 1 {
      assert HasSuffix(s, "g") <==> s[|s| - 1] == 'g';
      assert HasSuffix(s, "m") <==> s[|s| - 1] == 'm';
    }
  }

  /** Each answer of `configureMemory`: an empty line or a read error gives
      `4g`, an answer of the accepted shape is kept as trimmed, and
      anything else (a `k` suffix, an upper-case unit, a bare unit) is asked
      again. */
  lemma ConfigureMemoryDecides(bad: seq<string>, line: string, rest: seq<string>)
    requires forall i :: 0 <= i < |bad| ==> TrimSpace(bad[i]) != "" && !MemoryShape(TrimSpace(bad[i]))
    ensures ConfigureMemory(bad) == (DefaultMemory, [])
    ensures TrimSpace(line) == "" ==> ConfigureMemory(bad + [line] + rest) == (DefaultMemory, rest)
    ensures MemoryShape(TrimSpace(line)) ==> ConfigureMemory(bad + [line] + rest) == (TrimSpace(line), rest)
  {
    forall i | 0 <= i < |bad|
      ensures MemoryAnswer(bad[i]).Again?
    {
      MemoryAnswerShape(bad[i]);
    }
    MemoryAnswerShape(line);
    AskDecides(bad, line, rest, MemoryAnswer, DefaultMemory);
  }

  // ---------------------------------------------------------------------
  // configureNetwork

  function NetworkAnswer(line: string): (a: Answer<string>)
    ensures a.Take? ==> a.value in {NetworkBridge, NetworkHost, NetworkNone}
  {
    var s := TrimSpace(line);
    if s == "" || s == "1" then Take(NetworkBridge)
    else if s == "2" then Take(NetworkHost)
    else if s == "3" then Take(NetworkNone)
    else Again
  }

  /** `configureNetwork`: one of the three network modes, `bridge` by
      default. */
  function ConfigureNetwork(input: seq<string>): (r: (string, seq<string>))
    ensures r.0 in {NetworkBridge, NetworkHost, NetworkNone}
    ensures |r.1| <= |input|
  {
    Ask(input, NetworkAnswer, NetworkBridge)
  }

  lemma ConfigureNetworkDecides(bad: seq<string>, line: string, rest: seq<string>)
    requires forall i :: 0 <= i < |bad| ==> TrimSpace(bad[i]) !in {"", "1", "2", "3"}
    ensures ConfigureNetwork(bad) == (NetworkBridge, [])
    ensures TrimSpace(line) in {"", "1"} ==> ConfigureNetwork(bad + [line] + rest) == (NetworkBridge, rest)
    ensures TrimSpace(line) == "2" ==> ConfigureNetwork(bad + [line] + rest) == (NetworkHost, rest)
    ensures TrimSpace(line) == "3" ==> ConfigureNetwork(bad + [line] + rest) == (NetworkNone, rest)
  {
    AskDecides(bad, line, rest, NetworkAnswer, NetworkBridge);
  }

  // ---------------------------------------------------------------------
  // confirm

  function ConfirmAnswer(line: string): (a: Answer<bool>)
    ensures a == Take(true) ==> ToLower(TrimSpace(line)) in {"y", "yes"}
  {
    var s := ToLower(TrimSpace(line));
    if s == "" || s == "n" || s == "no" then Take(false)
    else if s == "y" || s == "yes" then Take(true)
    else Again
  }

  /** `confirm`: yes only on an explicit `y` or `yes`, in any letter case
      and with any surrounding white space. */
  function Confirm(input: seq<string>): (r: (bool, seq<string>))
    ensures r.0 ==> exists i :: 0 <= i < |input| && ToLower(TrimSpace(input[i])) in {"y", "yes"}
    ensures |r.1| <= |input|
  {
    Ask(input, ConfirmAnswer, false)
  }

  lemma ConfirmDecides(bad: seq<string>, line: string, rest: seq<string>)
    requires forall i :: 0 <= i < |bad| ==> ToLower(TrimSpace(bad[i])) !in {"", "n", "no", "y", "yes"}
    ensures Confirm(bad) == (false, [])
    ensures ToLower(TrimSpace(line)) in {"", "n", "no"} ==> Confirm(bad + [line] + rest) == (false, rest)
    ensures ToLower(TrimSpace(line)) in {"y", "yes"} ==> Confirm(bad + [line] + rest) == (true, rest)
  {
    assert forall i :: 0 <= i < |bad| ==> ConfirmAnswer(bad[i]).Again?;
    AskDecides(bad, line, rest, ConfirmAnswer, false);
  }

  // ---------------------------------------------------------------------
  // generateConfig

  /** The fixed text pieces interleaved with the substituted ones:
      `fixed[0] + values[0] + fixed[1] + … + fixed[n]`. */
  function Fill(fixed: seq<string>, values: seq<string>): string
    requires |fixed| == |values| + 1
  {
    if values == [] then fixed[0] else fixed[0] + values[0] + Fill(fixed[1..], values[1..])
  }

  lemma ContainsAfter(a: string, s: string, sub: string)
    requires Contains(s, sub)
    ensures Contains(a + s, sub)
  {
    var i :| 0 <= i <= |s| && sub <= s[i..];
    assert (a + s)[|a| + i..] == s[i..];
  }

  /** Every substituted piece appears in the filled text. */
  lemma {:induction false} FillContains(fixed: seq<string>, values: seq<string>)
    requires |fixed| == |values| + 1
    ensures forall i :: 0 <= i < |values| ==> Contains(Fill(fixed, values), values[i])
  {
    if values != [] {
      FillContains(fixed[1..], values[1..]);
      var rest := Fill(fixed[1..], values[1..]);
      assert Fill(fixed, values) == fixed[0] + values[0] + rest;
      ContainsInfix(fixed[0], values[0], rest);
      forall i | 1 <= i < |values|
        ensures Contains(Fill(fixed, values), values[i])
      {
        assert values[1..][i - 1] == values[i];
        ContainsAfter(fixed[0] + values[0], rest, values[i]);
        assert fixed[0] + values[0] + rest == Fill(fixed, values);
      }
    }
  }

  function BoolText(b: bool): string {
    if b then "true" else "false"
  }

  const TemplateHead: string :=
    "# Enclaude configuration\n" +
    "# Generated by 'enclaude setup'\n" +
    "# See https://github.com/jakenelson/enclaude for documentation\n" +
    "\n" +
    "# Image settings\n" +
    "image:\n" +
    "  name: enclaude:latest\n" +
    "\n" +
    "# Default mounts (in addition to working directory)\n" +
    "mounts:\n" +
    "  defaults: []\n" +
    "\n" +
    "# Claude Code authentication\n" +
    "claude:\n" +
    "  "

  const TemplateAfterAuth: string :=
    "              # auto | session | api-key\n" +
    "  session_dir: readonly   # none | readonly | readwrite\n" +
    "  default_args: []\n" +
    "\n" +
    "# External service credentials\n" +
    "credentials:\n" +
    "  "

  const TemplateAfterGithub: string := "       # auto | enabled | disabled\n  "

  const TemplateAfterGcloud: string := "       # auto | enabled | disabled\n  ssh:\n    "

  const TemplateAfterSsh: string :=
    "   # Explicit opt-in for SSH\n" +
    "    keys: []         # Specific keys to mount (read-only)\n" +
    "    known_hosts: true       # Include ~/.ssh/known_hosts\n" +
    "    agent_forwarding: true  # Forward SSH_AUTH_SOCK\n" +
    "\n" +
    "# Environment variables to pass through\n" +
    "environment:\n" +
    "  passthrough:\n" +
    "    - TERM\n" +
    "    - COLORTERM\n" +
    "    - EDITOR\n" +
    "  custom: {}\n" +
    "\n" +
    "# Container settings\n" +
    "container:\n" +
    "  user: auto          # auto | uid:gid\n" +
    "  "

  const TemplateAfterMemory: string := "\n  "

  const TemplateAfterNetwork: string :=
    "     # bridge | none | host\n" +
    "\n" +
    "# Security settings\n" +
    "security:\n" +
    "  drop_capabilities: true\n" +
    "  no_new_privileges: true\n" +
    "  read_only_root: true\n" +
    "  "

  const TemplateTail: string := "        # Additional CA certificates to mount (e.g., corporate CA)\n"

  /** The fixed text of the template, around the substituted pieces. */
  function Template(): (fixed: seq<string>)
    ensures |fixed| == 8
  {
    [TemplateHead, TemplateAfterAuth, TemplateAfterGithub, TemplateAfterGcloud,
     TemplateAfterSsh, TemplateAfterMemory, TemplateAfterNetwork, TemplateTail]
  }

  /** The substituted pieces: each value behind its key, and the empty CA
      certificate list. */
  function ConfigEntries(auth: string, github: string, gcloud: string, sshEnabled: bool,
                         memory: string, network: string): (entries: seq<string>)
    ensures |entries| == 7
  {
    ["auth: " + auth, "github: " + github, "gcloud: " + gcloud, "enabled: " + BoolText(sshEnabled),
     "memory_limit: " + memory, "network: " + network, "ca_certs: []"]
  }

  /** `generateConfig`: the template carrying every chosen value on its
      own key, the SSH switch written as `true` or `false`, and an empty
      CA certificate list. */
  function GenerateConfig(auth: string, github: string, gcloud: string, sshEnabled: bool,
                          memory: string, network: string): (text: string)
    ensures Contains(text, "auth: " + auth)
    ensures Contains(text, "github: " + github)
    ensures Contains(text, "gcloud: " + gcloud)
    ensures Contains(text, "enabled: " + (if sshEnabled then "true" else "false"))
    ensures Contains(text, "memory_limit: " + memory)
    ensures Contains(text, "network: " + network)
    ensures Contains(text, "ca_certs: []")
  {
    var entries := ConfigEntries(auth, github, gcloud, sshEnabled, memory, network);
    FillContains(Template(), entries);
    assert entries[0] == "auth: " + auth && entries[1] == "github: " + github;
    assert entries[2] == "gcloud: " + gcloud && entries[3] == "enabled: " + BoolText(sshEnabled);
    assert entries[4] == "memory_limit: " + memory && entries[5] == "network: " + network;
    assert entries[6] == "ca_certs: []";
    Fill(Template(), entries)
  }

  // ---------------------------------------------------------------------
  // runSetup

  /** The answers of steps 2 to 4. */
  datatype Choices = Choices(auth: AuthChoice, github: string, gcloud: string, ssh: bool,
                             memory: string, network: string)

  /** Steps 2 to 4, each prompt reading on from where the previous one
      stopped. */
  function Interview(input: seq<string>, detected: set<string>): (r: (Choices, seq<string>))
    ensures |r.1| <= |input|
    ensures input == [] ==>
              r == (Choices(AuthChoice(AuthAuto, false), CredentialAuto, CredentialAuto, false,
                            DefaultMemory, NetworkBridge), [])
  {
    var (auth, in1) := SelectAuthMethod(input, detected);
    var (github, in2) := ConfigureCredential(in1, CredentialAuto);
    var (gcloud, in3) := ConfigureCredential(in2, CredentialAuto);
    var (ssh, in4) := Confirm(in3);
    var (memory, in5) := ConfigureMemory(in4);
    var (network, in6) := ConfigureNetwork(in5);
    (Choices(auth, github, gcloud, ssh, memory, network), in6)
  }

  /** Every value the wizard writes is one `config set` accepts for its
      key, and the memory limit is `4g` or of the accepted shape. */
  lemma InterviewValid(input: seq<string>, detected: set<string>)
    ensures var c := Interview(input, detected).0;
      && ConfigCommand.ValidateConfigKey("claude.auth", c.auth.mode) == Pass
      && ConfigCommand.ValidateConfigKey("credentials.github", c.github) == Pass
      && ConfigCommand.ValidateConfigKey("credentials.gcloud", c.gcloud) == Pass
      && ConfigCommand.ValidateConfigKey("container.network", c.network) == Pass
      && (c.memory == DefaultMemory || MemoryShape(c.memory))
  {
    var (auth, in1) := SelectAuthMethod(input, detected);
    var (github, in2) := ConfigureCredential(in1, CredentialAuto);
    var (gcloud, in3) := ConfigureCredential(in2, CredentialAuto);
    var (ssh, in4) := Confirm(in3);
    var (memory, in5) := ConfigureMemory(in4);
    var (network, in6) := ConfigureNetwork(in5);
    assert Interview(input, detected).0 == Choices(auth, github, gcloud, ssh, memory, network);
    ConfigCommand.AuthModesAccepted(auth.mode);
    ConfigCommand.CredentialModesAccepted("credentials.github", github);
    ConfigCommand.CredentialModesAccepted("credentials.gcloud", gcloud);
    ConfigCommand.NetworkModesAccepted(network);
  }

  /** The prompts read in program order: six lines, each accepted by its
      own prompt, answer authentication, GitHub, Google Cloud, SSH, memory
      and network in that order, and whatever follows is left unread. */
  lemma InterviewDecides(l1: string, l2: string, l3: string, l4: string, l5: string, l6: string,
                         rest: seq<string>, detected: set<string>)
    requires AuthAnswer(detected, l1).Take? && CredentialAnswer(CredentialAuto, l2).Take?
    requires CredentialAnswer(CredentialAuto, l3).Take? && ConfirmAnswer(l4).Take?
    requires MemoryAnswer(l5).Take? && NetworkAnswer(l6).Take?
    ensures Interview([l1, l2, l3, l4, l5, l6] + rest, detected) ==
            (Choices(AuthAnswer(detected, l1).value, CredentialAnswer(CredentialAuto, l2).value,
                     CredentialAnswer(CredentialAuto, l3).value, ConfirmAnswer(l4).value,
                     MemoryAnswer(l5).value, NetworkAnswer(l6).value), rest)
  {
    var r5 := [l6] + rest;
    var r4 := [l5] + r5;
    var r3 := [l4] + r4;
    var r2 := [l3] + r3;
    var r1 := [l2] + r2;
    assert [l1, l2, l3, l4, l5, l6] + rest == [l1] + r1;
    AskFirst(l1, r1, AuthAnswers(detected), AuthChoice(AuthAuto, false));
    assert SelectAuthMethod([l1] + r1, detected) == (AuthAnswer(detected, l1).value, r1);
    AskFirst(l2, r2, CredentialAnswers(CredentialAuto), CredentialAuto);
    assert ConfigureCredential(r1, CredentialAuto) == (CredentialAnswer(CredentialAuto, l2).value, r2);
    AskFirst(l3, r3, CredentialAnswers(CredentialAuto), CredentialAuto);
    assert ConfigureCredential(r2, CredentialAuto) == (CredentialAnswer(CredentialAuto, l3).value, r3);
    AskFirst(l4, r4, ConfirmAnswer, false);
    assert Confirm(r3) == (ConfirmAnswer(l4).value, r4);
    AskFirst(l5, r5, MemoryAnswer, DefaultMemory);
    assert ConfigureMemory(r4) == (MemoryAnswer(l5).value, r5);
    AskFirst(l6, rest, NetworkAnswer, NetworkBridge);
    assert ConfigureNetwork(r5) == (NetworkAnswer(l6).value, rest);
  }

  datatype SetupOutcome = Cancelled | Written(path: string, content: string)

  /** `runSetup` without its console output: the interview, then, when a
      configuration file already exists, the overwrite question; declining
      it leaves everything as it was. */
  function RunSetup(input: seq<string>, h: Host): (r: SetupOutcome)
    ensures r.Written? ==> r.path == ConfigCommand.ConfigPath(h.home)
    ensures !h.stat(ConfigCommand.ConfigPath(h.home)).Found? ==> r.Written?
    ensures r.Cancelled? ==> h.stat(ConfigCommand.ConfigPath(h.home)).Found?
    ensures h.stat(ConfigCommand.ConfigPath(h.home)).Found? ==>
              (r.Written? <==> Confirm(Interview(input, DetectClaudeAuth(h)).1).0)
    ensures r.Written? ==>
              var c := Interview(input, DetectClaudeAuth(h)).0;
              r.content == GenerateConfig(c.auth.mode, c.github, c.gcloud, c.ssh, c.memory, c.network)
  {
    var iv := Interview(input, DetectClaudeAuth(h));
    var path := ConfigCommand.ConfigPath(h.home);
    Conclude(iv.0, iv.1, path, h.stat(path).Found?)
  }

  /** Step 5: with a file already at `path`, the overwrite question read
      from `rest` decides; the file written holds the chosen settings. */
  function Conclude(c: Choices, rest: seq<string>, path: string, present: bool): (r: SetupOutcome)
    ensures r.Written? ==> r.path == path
    ensures r.Written? ==> r.content == GenerateConfig(c.auth.mode, c.github, c.gcloud, c.ssh, c.memory, c.network)
    ensures !present ==> r.Written?
    ensures present ==> (r.Written? <==> Confirm(rest).0)
  {
    if present && !Confirm(rest).0 then Cancelled
    else Written(path, GenerateConfig(c.auth.mode, c.github, c.gcloud, c.ssh, c.memory, c.network))
  }

  /** What the wizard writes holds each of its choices on its own key,
      and every one of them is a value `config set` accepts. */
  lemma GeneratedSettings(input: seq<string>, h: Host)
    ensures RunSetup(input, h).Written? ==>
              var c := Interview(input, DetectClaudeAuth(h)).0;
              var text := RunSetup(input, h).content;
              && Contains(text, "auth: " + c.auth.mode)
              && Contains(text, "github: " + c.github)
              && Contains(text, "gcloud: " + c.gcloud)
              && Contains(text, "enabled: " + (if c.ssh then "true" else "false"))
              && Contains(text, "memory_limit: " + c.memory)
              && Contains(text, "network: " + c.network)
              && ConfigCommand.ValidateConfigKey("claude.auth", c.auth.mode) == Pass
              && ConfigCommand.ValidateConfigKey("credentials.github", c.github) == Pass
              && ConfigCommand.ValidateConfigKey("credentials.gcloud", c.gcloud) == Pass
              && ConfigCommand.ValidateConfigKey("container.network", c.network) == Pass
  {
    InterviewValid(input, DetectClaudeAuth(h));
  }
}
