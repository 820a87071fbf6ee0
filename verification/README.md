# enclaude, modelled in Dafny

enclaude runs Claude Code inside a Docker container and decides what crosses
from the host into that sandbox. This project models those decisions as pure
functions and proves what they guarantee:

- **Path authorisation** (module `Security`). It covers tilde expansion and
  canonicalisation, the equal-or-descendant test `pathMatches`, and the two
  rule tiers. `ValidateMountPath` checks the hard-denied list.
  `ValidateMountPathStrict` also checks the credential-controlled list.
- **Credential collection** (module `Credentials`). It covers Claude
  authentication (API key and session directory), the `shouldEnable`
  tri-state, GitHub, Google Cloud and SSH. Each yields mounts plus an
  environment delta.
- **Session assembly** (module `RunCommand`). This is `runContainer` up to
  the runner call: the mount order, which errors are fatal and which are
  skipped with a warning, the environment layering, and the CA certificates.
- **The container runner** (module `Runner`). It covers:
  - the container and host configuration built by `Runner.Run`;
  - the engine call sequence and exit outcome;
  - the stdin relay with its Ctrl+C filter;
  - `parseMemoryLimit`;
  - the build-context walk filter.
- **Configuration** (modules `Config` and `ConfigCommand`). It covers the
  `Config` record, `defaultConfig`, the defaults table, and the deprecated-key
  migration. From `config set` and `config list` it covers key validation,
  `true`/`false` coercion, the sorted dot-flattening of nested settings, and
  the configuration file path.
- **The setup wizard** (module `Setup`). Each prompt loop is a function over
  the remaining input lines, and the end of the sequence stands for a read
  error or end of input. The module also covers authentication detection,
  the generated file, and the wizard as a whole.

The host is data, in module `Host`:

- the home and working directories are options;
- the environment is a map, so "set but empty" differs from "unset";
- `os.Stat` is a function returning `Found(isDir)`, `NotFound` or
  `StatFailed`;
- `filepath.EvalSymlinks` is a function returning `Resolved`, `Dangling` or
  `ResolveFailed`.

Module `FilePath` models the lexical functions of Go's `path/filepath`
(`Clean`, `Join`, `Rel`, `Base`, `Dir`, `IsAbs`) on Unix paths.
Module `Strings` models the parts of `strings` and `strconv` that the core
uses.

Where the code's own comments and the code disagree, the model follows the
code:

- The comment at `internal/cli/run.go:38` says the working directory is
  expanded and validated, but lines 39-42 only expand it. `RunCommand.WorkDirNotValidated`
  shows that a working directory of `~/.gnupg` is accepted even though the
  hard-denied list rejects it as a mount.
- `SecurityOptions` in `internal/container/types.go:24-28` has no CA
  certificate field, yet `internal/container/runner.go:95` reads one. The
  model's `SecurityOptions` carries `caCerts`.

## Model

| member | source | states |
|---|---|---|
| Security.HardRule | internal/security/mounts.go:11-17 | every hard-denied entry is `~/` followed by plain path components, listed per entry |
| Security.CredentialRule | internal/security/mounts.go:21-26 | every credential-controlled entry is `~/` followed by plain path components, listed per entry |
| Security.ExpandTildeRule | internal/security/mounts.go:132-135 | with a non-empty home, a `~/` rule expands to the home path with the rule's components appended |
| Security.ExpandTildeOthers | internal/security/mounts.go:132-140 | `~` expands to the home, any path not starting with `~/` is left unchanged, and `~/x` is rooted like the home |
| Security.ExpandHome | internal/security/mounts.go:34-47 | tilde expansion fails, with the home-directory error, exactly when the path is `~` or starts with `~/` and there is no home |
| Security.Canonical | internal/security/mounts.go:29-57 | empty input is an error; the home error arises exactly for tilde paths without a home; the working-directory error arises exactly for a relative expansion without a working directory; otherwise the result is the tilde expansion anchored as `Security.Anchor` states; a result is clean, and absolute when the working directory is; an absolute input gives its cleaned form |
| Security.Anchor | internal/security/mounts.go:49-57 | an absolute path becomes its cleaned form; a relative one is an error without a working directory and otherwise the working directory joined with its cleaned form; the result is clean, and absolute when the working directory is |
| Security.CanonicalRelative | internal/security/mounts.go:29-57 | a relative path that is not a tilde form fails without a working directory and otherwise becomes the working directory joined with the cleaned path |
| Security.CanonicalTilde | internal/security/mounts.go:34-47 | with an absolute home, `~` becomes the cleaned home and `~/rest` becomes the home joined with `rest` |
| Security.CanonicalIdempotent | internal/security/mounts.go:29-57 | when the working directory is absolute or absent, canonicalising a canonical path gives it back |
| Security.ExpandPath | internal/security/mounts.go:29-70 | canonicalisation errors propagate; symlink resolution replaces the path; a not-exist answer keeps the canonical path; any other resolution failure is an error |
| Security.PathMatches | internal/security/mounts.go:117-130 | a path matches a target exactly when it equals it, or its components extend the target's and the first extra component does not begin with `..` |
| Security.IsPathInDirectory | internal/security/mounts.go:143-145 | the same equal-or-descendant relation as `pathMatches` |
| Security.MatchNames | internal/security/mounts.go:123-129 | below one home, a path matches a rule exactly when the rule's components are a prefix of the path's and the next path component does not begin with `..` |
| Security.NestedChildMatches | internal/security/mounts.go:123-129 | a path nested below the target, whose first extra component does not begin with `..`, matches |
| Security.SiblingDoesNotMatch | internal/security/mounts.go:123-129 | two different entries of one directory never match each other |
| Security.NetrcBackupDoesNotMatch | internal/security/mounts.go:123-129 | `~/.netrc.bak` does not match `~/.netrc` |
| Security.DotDotNamedChildQuirk | internal/security/mounts.go:129 | a child whose name begins with `..` is a real child of the target and still does not match it, because the test is on the relative path's text |
| Security.FirstMatch | internal/security/mounts.go:80-85 | the index of the first rule the path matches; none exactly when no rule matches |
| Security.FirstMatchIs | internal/security/mounts.go:80-85 | a matching rule with no matching rule before it is the one reported |
| Security.ValidateMountPath | internal/security/mounts.go:73-91 | without a home it fails with the home error; otherwise it passes exactly when no hard-denied rule matches, and a failure names the first matching hard-denied rule |
| Security.ValidateMountPathStrict | internal/security/mounts.go:95-114 | hard-denied failures come first and unchanged; otherwise it passes exactly when no credential-controlled rule matches either, and when one does, the failure is a credential-controlled one naming the first matching rule |
| Security.RuleMatches | internal/security/mounts.go:80-85 | a path below the home matches rule `j` exactly when rule `j`'s components are a prefix of the path's, with the `..` condition on the next component |
| Security.HardRuleDenies | internal/security/mounts.go:79-85 | every hard-denied path, and everything nested below it, fails tier-one validation |
| Security.SshKeyTiers | internal/security/mounts.go:95-113 | a key file in `~/.ssh` passes `ValidateMountPath` and fails `ValidateMountPathStrict` with the `~/.ssh` rule |
| Security.AwsCredentialsReportsHardRule | internal/security/mounts.go:95-98 | `~/.aws/credentials` matches the controlled `~/.aws` rule, yet the strict check reports the hard-denied `~/.aws/credentials` rule |
| Security.AwsCredentialsFirstMatch | internal/security/mounts.go:80-85 | `~/.aws/credentials` is first matched by the fifth hard-denied rule |
| Host.ExistsExclusive | internal/credentials/passthrough.go:198-212 | a path is never both an existing file and an existing directory, and a failed stat gives neither |
| Host.GetenvLookupEnv | internal/cli/run.go:93-97 | `Getenv` agrees with a successful `LookupEnv`, and is empty exactly when the variable is unset or set to the empty string |
| Credentials.CollectClaudeAuth | internal/credentials/passthrough.go:14-56 | nothing without a home; the API key is copied exactly in `auto`/`api-key` mode (empty meaning `auto`) when non-empty; at most one session mount, present exactly in `auto`/`session` mode with a session setting other than `none` and `~/.claude` a directory, at `/tmp/.claude`, read-only exactly for `readonly` (empty meaning `readonly`) |
| Credentials.SessionModes | internal/credentials/passthrough.go:36-53 | with `~/.claude` present: `""`/`readonly` give one read-only mount, `none` gives none, and any other value gives one writable mount |
| Credentials.ShouldEnable | internal/credentials/passthrough.go:177-194 | a credential is enabled for every setting except `disabled`, whatever the environment |
| Credentials.GitHub | internal/credentials/passthrough.go:69-87 | nothing when disabled; a non-empty `GH_TOKEN` wins over `GITHUB_TOKEN` and either is exported as `GH_TOKEN`; with neither, the hosts file is mounted read-only when it exists; never both a variable and a mount |
| Credentials.GCloud | internal/credentials/passthrough.go:89-111 | nothing when disabled; otherwise one read-only mount at the sandbox ADC path for the default file when it exists and one for an existing file named by the variable, the default first, and no others; the variable is set to the sandbox path exactly when something is mounted |
| Credentials.KeyMount | internal/credentials/passthrough.go:130-145 | a key is mounted exactly when it expands and is an existing file, read-only at `/root/.ssh/<basename>` |
| Credentials.KeyMounts | internal/credentials/passthrough.go:130-145 | the key mounts are exactly the admitted keys' mounts, each read-only at `/root/.ssh/<basename>`; the others are skipped |
| Credentials.KeyMountsAppend | internal/credentials/passthrough.go:130-145 | the keys are handled one by one in order: the mounts for a concatenation of key lists are the two lists' mounts concatenated |
| Credentials.KeyMountsSingle | internal/credentials/passthrough.go:131-144 | one key yields its mount when it expands to an existing file, and nothing otherwise |
| Credentials.CollectSsh | internal/credentials/passthrough.go:125-174 | the only variable it sets is `SSH_AUTH_SOCK`, rewritten to the sandbox socket exactly with forwarding and a non-empty socket; the agent socket is the only writable mount, and it comes last |
| Credentials.CollectSshLayout | internal/credentials/passthrough.go:129-171 | the mounts are exactly the key mounts, then known_hosts when enabled and present, then the agent socket when forwarding with a non-empty socket; the known_hosts mount appears exactly when enabled and present or when a key maps onto it |
| Credentials.CollectExternalCredentials | internal/credentials/passthrough.go:60-123 | fails exactly without a home; with a home it is GitHub then Google Cloud, followed by SSH exactly when SSH is enabled; all disabled gives nothing; every writable mount is the SSH agent socket |
| RunCommand.WorkDirectory | internal/cli/run.go:28-42 | the flag, or the current directory when the flag is empty, expanded; the missing-current-directory error arises exactly when the flag is empty and there is no current directory; expansion errors are reported as such |
| RunCommand.AdmitMount | internal/cli/run.go:51-59 | a flag mount is admitted exactly when it expands and passes tier-one validation; its source and target are both the expanded path |
| RunCommand.Refusal | internal/cli/run.go:52-58 | a refused mount is reported with the path as given: as an invalid path carrying the expansion error exactly when expansion fails, and otherwise as a denied path carrying the validation error |
| RunCommand.FlagMounts | internal/cli/run.go:50-73 | succeeds exactly when every path is admitted; then one vetted mount per path, in order, with the given access; otherwise the refusal of the first path that is not admitted |
| RunCommand.Mounted | internal/cli/run.go:51-60 | one flag mount: success exactly when admitted, with the admitted mount; otherwise the path's refusal |
| RunCommand.DefaultMounts | internal/cli/run.go:76-87 | each default mount is kept or produces one warning; every kept mount is vetted; every admitted entry is kept |
| RunCommand.DefaultMountsAppend | internal/cli/run.go:76-87 | the entries are handled one by one in order: mounts and warnings for a concatenation are those of the parts, concatenated |
| RunCommand.DefaultMountsSingle | internal/cli/run.go:77-86 | one entry yields its admitted mount with the configured access, or exactly one warning, invalid when expansion fails and denied otherwise |
| RunCommand.SiftedEntries | internal/cli/run.go:76-87 | the kept default mounts are vetted, and include every admitted entry's mount |
| RunCommand.MountWarning | internal/cli/run.go:77-85 | a skipped default mount warns of an invalid path exactly when expansion failed, otherwise of a denied path; either warning carries the path as configured |
| RunCommand.Passthrough | internal/cli/run.go:93-97 | exactly the listed variables that are set, including set-but-empty ones, with their host values |
| RunCommand.AdmitCert | internal/cli/run.go:132-146 | a certificate is kept exactly when it expands, passes tier-one validation and is not reported missing; its expanded path is kept |
| RunCommand.CaCerts | internal/cli/run.go:131-147 | each certificate is kept or produces one warning; every kept path is validated and not missing; every admitted certificate is kept; the warnings are certificate warnings |
| RunCommand.CaCertsAppend | internal/cli/run.go:131-147 | the paths are handled one by one in order: certificates and warnings for a concatenation are those of the parts, concatenated |
| RunCommand.CaCertsSingle | internal/cli/run.go:132-147 | one path yields its expanded certificate when admitted and not missing, or exactly its one warning |
| RunCommand.SiftedCerts | internal/cli/run.go:131-147 | the kept certificates are validated and not missing and include every admitted one; every skipped path is one that is not admitted |
| RunCommand.CertWarning | internal/cli/run.go:133-145 | a skipped certificate warns of an invalid path, carrying the path as configured, exactly when expansion failed; otherwise the warning carries the expanded path, and it reports a denied path exactly when validation fails, so a denied file is reported as denied rather than missing; a missing-file warning names a path the stat reports missing |
| RunCommand.External | internal/cli/run.go:111-122 | `--no-external-credentials` contributes nothing and cannot fail; otherwise it fails exactly without a home |
| RunCommand.MountList | internal/cli/run.go:45-122 | the workspace mount comes first, then the `-m` mounts, the `--mount-ro` mounts, the defaults and the credential mounts, each block kept whole and in order |
| RunCommand.PlanMounts | internal/cli/run.go:28-87 | succeeds exactly when the working directory and all flag mounts are admitted; the first failure in source order is the error; flag mounts are vetted with their access; defaults are sifted |
| RunCommand.Assemble | internal/cli/run.go:89-165 | the mount order is workspace, `-m`, `--mount-ro`, defaults, Claude, external; a non-empty `--image` overrides the configured image; the security flags, user, memory and network are copied; for the environment, external wins over Claude, Claude over custom, and custom over passthrough |
| RunCommand.RunContainer | internal/cli/run.go:16-165 | succeeds exactly when mount planning and external collection succeed, reporting the first failure; the session is the assembly of those parts |
| RunCommand.EnvironmentLayers | internal/cli/run.go:90-122 | a variable is in the session exactly when some layer sets it, and its value comes from the latest layer that sets it |
| RunCommand.WorkDirNotValidated | internal/cli/run.go:38-42 | with an absolute home, `~/.gnupg` canonicalises, is denied by tier-one validation as a mount, and, when it does not resolve further, is still accepted as the working directory |
| RunCommand.NoHomeExternalCredentials | internal/cli/run.go:112-122 | without a home, Claude contributes nothing; external collection fails, unless the flag skips it |
| Runner.EnvEntries | internal/container/runner.go:54-57 | one `KEY=value` entry per key, in iteration order |
| Runner.EntryRoundTrip | internal/container/runner.go:56 | for a key without `=`, splitting an entry at its first `=` gives back the key and value |
| Runner.EnvEntriesDenoteMap | internal/container/runner.go:54-57 | read back at the first `=`, the entries are exactly the map: every entry is a binding of the map, and every binding has an entry |
| Runner.CertTargetsCollide | internal/container/runner.go:96-103 | two certificates get the same sandbox path exactly when their base names agree |
| Runner.ContainerEnv | internal/container/runner.go:53-113 | the map entries, then `PATH`, then `HOME=/tmp`, then `NODE_EXTRA_CA_CERTS` for the certificate's sandbox path exactly when one certificate is given |
| Runner.Binds | internal/container/runner.go:72-81 | one bind per request mount, in order, with the same source, target and access |
| Runner.TmpfsMounts | internal/container/runner.go:83-92 | `/tmp`, `/run` and `/var/tmp` with a read-only root, nothing otherwise |
| Runner.CertBinds | internal/container/runner.go:94-104 | one read-only bind per certificate at the CA directory plus its base name |
| Runner.EngineMounts | internal/container/runner.go:72-104 | the request binds, then the tmpfs areas, then the certificate binds |
| Runner.WritableBinds | internal/container/runner.go:72-104 | every writable engine bind is a writable request mount at the same position, and tmpfs areas appear only with a read-only root |
| Runner.ContainerUser | internal/container/runner.go:115-121 | every setting other than `auto` is passed through unchanged |
| Runner.AutoUserIds | internal/container/runner.go:117-118 | `auto` gives the decimal uid and gid separated by the first `:` |
| Runner.MemoryBytes | internal/container/runner.go:123-131 | zero when unset; otherwise the size parser's value, or the invalid-limit error exactly when it rejects the setting |
| Runner.Configure | internal/container/runner.go:136-169 | fails exactly when the memory limit is invalid; otherwise the configuration carries the image, arguments, environment, working directory, user, terminal flags, mounts, network, read-only root, manual removal and memory; capabilities are dropped and no-new-privileges is set exactly when requested |
| Runner.CreateError | internal/container/runner.go:172-179 | a creation error is reported as a missing image exactly when its message contains `No such image` |
| Runner.WhileCreated | internal/container/runner.go:198-304 | the calls are exactly attach, then start once attached, then a stop with a 5-second timeout exactly when attach, start and raw mode succeed and the context ends the wait; a failed attach, start or raw-mode switch ends it with that step's own error |
| Runner.Lifecycle | internal/container/runner.go:171-304 | nothing reaches the engine when configuration fails; creation comes first; a failed creation is the only call; once created, the calls are creation, then the steps while the container exists, then the forced removal, with those steps' outcome; a non-zero exit is an error with its code; a wait error counts only when the context is not cancelled; cancellation stops once and reports the context error |
| Runner.Created | internal/container/runner.go:180-188 | once created, the deferred forced removal is the last call and the only removal, whatever follows creation; a stop appears exactly when the wait is reached and the context ends it, and then once |
| Runner.LifecycleEarlyFailures | internal/container/runner.go:171-304 | the full call list of a created container: create, attach, remove when attaching fails; create, attach, start, remove when starting or raw mode fails, each with its own error; create, attach, start, an optional stop, remove when the wait is reached |
| Runner.Run | internal/container/runner.go:52-307 | no engine call happens exactly when the memory limit is invalid, which is the reported error; otherwise the first call creates a container with the requested image and arguments |
| Runner.RelayFrom | internal/container/runner.go:262-283 | forwards an unchanged prefix of the chunks; with the filter, a chunk holding Ctrl+C ends the relay with cancellation and is not forwarded; otherwise the write side is closed at the end of input or at the first failing write |
| Runner.Relay | internal/container/runner.go:262-283 | the forwarded chunks are an unchanged prefix of the input, none of them one whose write failed; only with a terminal and a cancel function does a chunk holding Ctrl+C end the relay with cancellation, and then no forwarded chunk holds Ctrl+C; otherwise the write side is closed at the end of input or at the first failing write |
| Runner.RelayForwardsAll | internal/container/runner.go:262-283 | without filtering, or without Ctrl+C, every chunk is forwarded verbatim and the write side is closed |
| Runner.CtrlCDropsWholeChunk | internal/container/runner.go:269-276 | in terminal mode with a cancel function, everything before the first Ctrl+C chunk is forwarded; none of that chunk is forwarded, not even its bytes before the Ctrl+C; the relay ends by cancelling, without closing the write side |
| Runner.UnitOf | internal/container/runner.go:466-476 | the unit is the one suffix `g`, `m` or `k` the text ends in, and bytes when it ends in none of them |
| Runner.ParseMemoryLimit | internal/container/runner.go:460-484 | every value it returns is in the int64 range, including wrapped-around products |
| Runner.ParseNormalized | internal/container/runner.go:462-483 | empty is zero; otherwise it succeeds exactly when the text without its one unit is a base-10 int64, and the value is that number times the unit's factor, wrapped around to int64 as Go's multiplication does |
| Runner.MemoryLimitRoundTrip | internal/container/runner.go:460-484 | a number printed with any unit, in either case and with surrounding white space, parses back to the number times the unit's factor |
| Runner.ParseNumberWithUnit | internal/container/runner.go:466-483 | digits followed by one unit parse to their value times 1024³, 1024² or 1024 |
| Runner.LoneUnitRejected | internal/container/runner.go:478-481 | `g` alone is rejected |
| Runner.TrailingByteRejected | internal/container/runner.go:478-481 | `4gb` is rejected |
| Runner.SecondUnitRejected | internal/container/runner.go:466-481 | only one unit is stripped, so `1kg` is rejected |
| Runner.MemoryLimitNormalizes | internal/container/runner.go:461 | surrounding white space does not change the result |
| Runner.IncludeAsWritten | internal/container/runner.go:369-386 | whatever the callback adds is named by its path relative to the context; `Runner.ChildDecisionAsWritten` fixes every decision below the root |
| Runner.ChildDecisionAsWritten | internal/container/runner.go:369-386 | under the callback as written, a child entry is omitted if it is the top-level `Dockerfile` and the context is given in clean form; it is pruned or omitted if it is hidden and not `.dockerignore`; otherwise it is added under its slash-separated relative path |
| Runner.Include | internal/container/runner.go:369-386 | whatever the corrected callback adds is named by its path relative to the context |
| Runner.ChildDecision | internal/container/runner.go:369-386 | under the corrected callback, a child entry is omitted if it is the top-level `Dockerfile`; it is pruned or omitted if it is hidden and not `.dockerignore`; otherwise it is added under its relative path |
| Runner.HiddenChildLeftOut | internal/container/runner.go:380-386 | below the root, a hidden directory is pruned whole and a hidden file is left out, under either callback |
| Runner.Walk | internal/container/runner.go:364-413 | on a tree of plain entry names the walk from the context never aborts, and under the corrected callback it never archives an entry named `Dockerfile` |
| Runner.VisitWellNamed | internal/container/runner.go:364-413 | on a tree of plain names the walk never aborts, and under the corrected callback no entry is named `Dockerfile` |
| Runner.TopLevelFileAdded | internal/container/runner.go:374-393 | under the corrected callback, a visible top-level file other than `Dockerfile` is in the archive, whatever the context directory |
| Runner.DefaultContextIsDot | internal/cli/build.go:78-81 | the default context of a Dockerfile named without a directory, bare like `Dockerfile` or as `./Dockerfile.custom`, is `.` |
| Runner.DotIsHidden | internal/container/runner.go:381 | the context root `.` passes the hidden test |
| Runner.HiddenContextPrunedAsWritten | internal/container/runner.go:380-386 | as written, a context directory that looks hidden yields an empty archive apart from the Dockerfile |
| Runner.RootAdded | internal/container/runner.go:380-386 | under the corrected callback, the root is added as `.`, so the walk goes on |
| Runner.TopDockerfileAsWritten | internal/container/runner.go:369-372 | as written, the top-level `Dockerfile` is skipped exactly when the context directory is given in clean form |
| Runner.DockerfileDuplicatedAsWritten | internal/container/runner.go:369-372 | as written, an unclean context such as `docker/` archives its `Dockerfile` a second time |
| Runner.TopDockerfileOmitted | internal/container/runner.go:369-372 | under the corrected callback, the top-level `Dockerfile` is skipped for every spelling of the context |
| Config.DefaultConfig | internal/config/config.go:136-175 | all three security switches are on and no CA certificates are listed; SSH is off, with no keys and with known_hosts and agent forwarding on; auth and both credentials are `auto`; the session directory is `readonly`; the user is `auto` |
| Config.StoreDefaults | internal/config/config.go:98-134 | the defaults table equals `defaultConfig` except that the user is empty |
| Config.Migrate | internal/config/config.go:90-93 | only the session directory can change; it takes the deprecated value exactly when it was empty and the deprecated one is not |
| Config.LoadConfig | internal/config/config.go:81-96 | a decoding failure gives exactly the built-in defaults; otherwise the migrated decoding |
| Config.MigrateIdempotent | internal/config/config.go:90-93 | migrating twice is migrating once |
| ConfigCommand.ValidateConfigKey | internal/cli/config.go:241-259 | unknown keys pass; a known key passes exactly when the value is one of its allowed values; a failure names the key, the value and the allowed list joined by `, ` |
| ConfigCommand.AuthModesAccepted | internal/cli/config.go:243 | `auto`, `session` and `api-key` are accepted for `claude.auth` |
| ConfigCommand.CredentialModesAccepted | internal/cli/config.go:245-246 | `auto`, `enabled` and `disabled` are accepted for both credential keys |
| ConfigCommand.NetworkModesAccepted | internal/cli/config.go:247 | `bridge`, `none` and `host` are accepted for `container.network` |
| ConfigCommand.CaseSensitive | internal/cli/config.go:250-256 | a value that differs from an allowed value only in letter case is rejected |
| ConfigCommand.Coerce | internal/cli/config.go:97-103 | exactly `true` and `false` become booleans with that truth value; everything else is kept as the string |
| ConfigCommand.CoerceShow | internal/cli/config.go:97-103 | rendering a coerced value gives back the input, and coercion inverts rendering for every value except the strings `true`/`false` |
| ConfigCommand.ConfigPath | internal/cli/config.go:235-238 | with a home, the path is the home followed by `.config`, `enclaude`, `config.yaml`, in clean form and absolute when the home is; without a home, it is the relative `.config/enclaude/config.yaml` |
| ConfigCommand.Sort | internal/cli/config.go:213-217 | the keys are permuted into non-decreasing byte order |
| ConfigCommand.SortDistinct | internal/cli/config.go:213-217 | sorting distinct keys gives a strictly increasing list |
| ConfigCommand.PrintSettingsFlat | internal/cli/config.go:211-232 | under a non-empty prefix every printed line starts with the prefix and a dot, so nested keys are always printed fully qualified |
| ConfigCommand.PrintIsFlat | internal/cli/config.go:211-232 | the printed lines are, in order, `prefix.path: value` for each leaf of the flattening |
| ConfigCommand.FlatIncreasing | internal/cli/config.go:211-232 | the flattened key paths are strictly increasing: keys are sorted at every level and each nested map's lines stay together |
| ConfigCommand.FlatLeaves | internal/cli/config.go:211-232 | a key path and value are flattened exactly when the settings hold that leaf at that path; only nested maps are recursed into |
| Setup.Ask | internal/cli/setup.go:161-190 | a prompt loop consumes a prefix of the input; its answer is the first line's answer that is not a re-prompt, or the fallback when the input ends first |
| Setup.AskDecides | internal/cli/setup.go:161-190 | re-prompting lines followed by an accepted line give that line's answer and leave the rest unread; re-prompting lines alone give the fallback |
| Setup.DetectClaudeAuth | internal/cli/setup.go:114-132 | `api-key` is detected exactly when the key is non-empty; `session` exactly when there is a home and `~/.claude` is a directory |
| Setup.DetectionMatchesCollection | internal/cli/setup.go:114-132 | in `auto` mode, each detection holds exactly when collection would pass that credential on |
| Setup.AuthAnswer | internal/cli/setup.go:168-189 | an accepted answer is one of the three modes, with a warning exactly for a chosen mode that was not detected |
| Setup.SelectAuthMethod | internal/cli/setup.go:152-191 | the chosen mode is one of the three, and the warning is given exactly for an undetected mode other than `auto` |
| Setup.SelectAuthMethodDecides | internal/cli/setup.go:161-190 | after invalid lines, empty or `1` gives `auto`, `2` gives `api-key` and `3` gives `session`; input that ends first gives `auto` |
| Setup.MethodIgnoresDetection | internal/cli/setup.go:174-186 | detection changes only the warnings, never the chosen mode or the input consumed |
| Setup.CredentialAnswer | internal/cli/setup.go:207-222 | an accepted credential answer is the default or one of the three settings |
| Setup.ConfigureCredential | internal/cli/setup.go:194-224 | the result is the default or one of `auto`, `enabled`, `disabled` |
| Setup.ConfigureCredentialDecides | internal/cli/setup.go:200-223 | after invalid lines, empty gives the default and `1`/`2`/`3` give `auto`/`enabled`/`disabled`; input that ends first gives the default |
| Setup.MemoryAnswer | internal/cli/setup.go:246-257 | an accepted memory answer is `4g` or the trimmed line, which then has the accepted shape |
| Setup.MemoryAnswerShape | internal/cli/setup.go:246-257 | a line is re-prompted exactly when its trimmed form is non-empty and lacks the shape: at least two characters ending in `g` or `m` |
| Setup.ConfigureMemory | internal/cli/setup.go:235-259 | the result is `4g` or a trimmed limit of the accepted shape |
| Setup.ConfigureMemoryDecides | internal/cli/setup.go:239-258 | after invalid lines, empty gives `4g` and a line of the accepted shape gives its trimmed form; input that ends first gives `4g` |
| Setup.NetworkAnswer | internal/cli/setup.go:275-290 | an accepted network answer is `bridge`, `host` or `none` |
| Setup.ConfigureNetwork | internal/cli/setup.go:262-292 | the result is `bridge`, `host` or `none` |
| Setup.ConfigureNetworkDecides | internal/cli/setup.go:268-291 | after invalid lines, empty or `1` gives `bridge`, `2` gives `host` and `3` gives `none`; input that ends first gives `bridge` |
| Setup.ConfirmAnswer | internal/cli/setup.go:303-312 | a yes answer comes only from a line that trims and lower-cases to `y` or `yes` |
| Setup.Confirm | internal/cli/setup.go:295-314 | a yes needs some line that trims and lower-cases to `y` or `yes` |
| Setup.ConfirmDecides | internal/cli/setup.go:296-313 | after other lines, empty, `n` or `no` gives no and `y` or `yes` gives yes (trimmed, any case); input that ends first gives no |
| Setup.GenerateConfig | internal/cli/setup.go:317-372 | the generated file contains the `auth`, `github`, `gcloud`, `memory_limit` and `network` lines with the given values, the SSH switch rendered as `true`/`false`, and `ca_certs: []` |
| Setup.GeneratedSettings | internal/cli/setup.go:49-92 | a file the wizard writes holds each interview choice on its own key, and every one of those values is one `config set` accepts |
| Setup.Interview | internal/cli/setup.go:46-62 | the prompts together consume at most the input; at end of input every choice is its default (automatic authentication without warning, `auto` credentials, SSH off, `4g`, `bridge`); `Setup.InterviewValid` states that each choice is an accepted value, and `Setup.InterviewDecides` the order in which the prompts read |
| Setup.InterviewDecides | internal/cli/setup.go:49-62 | six lines, each one its prompt accepts, answer authentication, GitHub, Google Cloud, SSH, memory and network in that order, and the input after them is left for the overwrite question |
| Setup.InterviewValid | internal/cli/setup.go:49-62 | every mode the wizard records is accepted by `config set`, and its memory limit is `4g` or of the accepted shape |
| Setup.RunSetup | internal/cli/setup.go:34-92 | the file is written at the configuration path; it is always written when nothing exists there; when a file exists it is overwritten exactly when the overwrite question read after the interview is confirmed; the content is the generated configuration of the interview's choices |
| Setup.Conclude | internal/cli/setup.go:64-92 | step 5: with no existing file the configuration is written; with one, it is written exactly when the overwrite question is confirmed; what is written is the generated file of the choices at the given path |

## Left out

- The Docker engine calls are left out. These are create, attach, start,
  logs, wait, stop, remove, resize, image build and inspect. They are foreign
  RPCs, so their answers are inputs (`Runner.EngineAnswers`) and only the
  decisions taken from them are modelled.
- Goroutines, channels and the output relays are left out because they are
  concurrency. So are draining the output before judging the exit, signal
  handling, terminal resize and raw-mode state, which are terminal I/O. The
  wait's three-way `select` is a given event.
- Tar writing and file reading in `Build` are left out because they are I/O.
  The walk keeps only the callback's decisions and the archive names, and the
  tree is given as a value. I/O errors reported to the walk callback are not
  modelled.
- `units.RAMInBytes` is a library whose source is not part of this model. It
  is a function parameter of `Runner.MemoryBytes`.
- The iteration order of Go maps is unspecified, so it is a parameter that
  lists each key once.
- `os.Getuid`/`os.Getgid`, `os.UserHomeDir`, `os.Getwd`, `os.Stat`,
  `filepath.EvalSymlinks` and `term.IsTerminal` are OS queries. They are
  parameters or `Host` fields.
- `strings.ToLower` is modelled for ASCII letters and for the two non-ASCII
  letters whose lower case is ASCII (U+0130 to `i`, the Kelvin sign to `k`).
  Other letters are kept as they are: full Unicode case mapping is out of
  scope, and no allowed configuration value, answer or memory unit depends
  on it.
- `config set`, `config init` and `setup` create directories and write
  files. That is I/O, left out; `Setup.RunSetup` returns the path and content
  it would write. The `config init` template is a literal printed to a file,
  and is not modelled.
- `config get` and `config list` read from viper (`IsSet`, `Get`,
  `AllSettings`). viper is a library: the settings are given as a
  `ConfigCommand.Setting` tree whose leaves hold the already formatted `%v`
  text.
- Console output is left out because it is UI: prompts, warnings and the
  display of detected methods. The warnings of `runContainer` are returned as
  data instead.
- cobra and viper plumbing is left out because it is library behaviour. This
  covers flag binding, `initConfig`, `ReadInConfig`, `WriteConfigAs` and
  YAML decoding. `Config.LoadConfig` takes the decoding result as an option.
- `version.go`, `completion.go`, `root.go` and `cmd/enclaude/main.go` are
  entry points with no decision logic, and are left out.
- The `Build` Dockerfile location search in `build.go` probes the
  filesystem and the executable path. Only the default context directory
  rule is modelled.

## Findings

| source | as written | input that shows it | evidently intended | confidence | as-written member | corrected member |
|---|---|---|---|---|---|---|
| internal/container/runner.go:380-386 | the hidden test also applies to the walk root, and `filepath.Base(".")` is `.`, so the default context `.` is skipped whole with `SkipDir` | `enclaude build -f Dockerfile` with no context: the context is `.` (build.go:78-81) and the archive holds only the separately added Dockerfile | the root is added as `.` and the walk descends into the context | not executed | Runner.HiddenContextPrunedAsWritten | Runner.RootAdded |
| internal/container/runner.go:369-372 | the Dockerfile skip compares `filepath.Dir(path)`, which is always clean, with the context directory as given | `--context docker/` (or `./docker`) holding `Dockerfile`: `Dir` gives `docker`, which is not `docker/`, so the Dockerfile is archived a second time under the same name | compare with the cleaned context directory | not executed | Runner.DockerfileDuplicatedAsWritten | Runner.TopDockerfileOmitted |
