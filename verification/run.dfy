/** Assembly of one sandbox session from the command-line flags, the
    configuration and the host: the mount list, the environment and the CA
    certificates handed to the runner. Signal handling and runner creation
    are not part of this module. */
module RunCommand {
  import opened Results
  import opened Sequences
  import opened Strings
  import opened FilePath
  import opened Host
  import opened Config
  import opened ContainerTypes
  import opened Security
  import opened Credentials

  datatype RunFlags = RunFlags(
    workdir: string,
    mounts: seq<string>,
    mountsRo: seq<string>,
    noExternalCredentials: bool,
    image: string)

  /** Errors that abort the run. */
  datatype RunError =
    | NoCurrentDirectory
    | InvalidWorkDir(err: PathError)
    | InvalidMount(path: string, err: PathError)
    | MountDenied(path: string, err: PathError)
    | CredentialsFailed

  /** Problems that only skip an entry. */
  datatype Warning =
    | SkippedInvalidMount(path: string)
    | SkippedDeniedMount(path: string)
    | SkippedInvalidCert(path: string)
    | SkippedDeniedCert(path: string)
    | CertNotFound(path: string)

  /** The resolved mounts before the credential mounts are added. */
  datatype MountPlan = MountPlan(
    workDir: string,
    writable: seq<Mount>,
    readOnly: seq<Mount>,
    defaults: seq<Mount>,
    skipped: seq<Warning>)

  datatype Session = Session(opts: RunOptions, warnings: seq<Warning>)

  const Workspace: string := "/workspace"

  /** A requested host path that expands and passes the first-tier check. */
  predicate Admitted(path: string, h: Host) {
    ExpandPath(path, h).Success? && ValidateMountPath(ExpandPath(path, h).value, h.home).Pass?
  }

  /** A mount the first-tier check allows, bound at its own path. */
  predicate Vetted(m: Mount, h: Host) {
    m.source == m.target && ValidateMountPath(m.source, h.home).Pass?
  }

  /** The working directory: the flag, or the current directory when the
      flag is empty, expanded but never checked against the rules. */
  function WorkDirectory(flag: string, h: Host): (r: Result<string, RunError>)
    ensures r == Failure(NoCurrentDirectory) <==> flag == "" && h.cwd.None?
    ensures r.Success? ==>
              var requested := if flag == "" then h.cwd.value else flag;
              ExpandPath(requested, h) == Success(r.value)
    ensures r.Failure? && r.error != NoCurrentDirectory ==>
              r.error.InvalidWorkDir? &&
              ExpandPath(if flag == "" then h.cwd.value else flag, h) == Failure(r.error.err)
  {
    var requested :- if flag != "" then Success(flag)
                     else if h.cwd.None? then Failure(NoCurrentDirectory)
                     else Success(h.cwd.value);
    match ExpandPath(requested, h)
    case Failure(e) => Failure(InvalidWorkDir(e))
    case Success(p) => Success(p)
  }

  /** The mount a requested path yields once it is admitted: the
      expanded path as both source and target. */
  function AdmitMount(path: string, readOnly: bool, h: Host): (r: Option<Mount>)
    ensures r.Some? <==> Admitted(path, h)
    ensures r.Some? ==> r.value == Mount(ExpandPath(path, h).value, ExpandPath(path, h).value, readOnly)
    ensures r.Some? ==> ValidateMountPath(r.value.source, h.home).Pass?
  {
    match ExpandPath(path, h)
    case Failure(_) => None
    case Success(expanded) =>
      if ValidateMountPath(expanded, h.home).Fail? then None
      else Some(Mount(expanded, expanded, readOnly))
  }

  /** Why a path that is not admitted aborts the run. */
  function Refusal(path: string, h: Host): (e: RunError)
    requires !Admitted(path, h)
    ensures e.InvalidMount? || e.MountDenied?
    ensures e.path == path
    ensures e.InvalidMount? <==> ExpandPath(path, h).Failure?
    ensures e.InvalidMount? ==> Failure(e.err) == ExpandPath(path, h)
    ensures e.MountDenied? ==> ValidateMountPath(ExpandPath(path, h).value, h.home) == Fail(e.err)
  {
    match ExpandPath(path, h)
    case Failure(e) => InvalidMount(path, e)
    case Success(expanded) => MountDenied(path, ValidateMountPath(expanded, h.home).error)
  }

  /** The `-m` or `--mount-ro` mounts: each path expanded and used as both
      source and target; the first path that fails aborts the run. */
  function FlagMounts(paths: seq<string>, readOnly: bool, h: Host): (r: Result<seq<Mount>, RunError>)
    ensures r.Success? <==> forall i :: 0 <= i < |paths| ==> Admitted(paths[i], h)
    ensures r.Success? ==> |r.value| == |paths|
    ensures r.Success? ==> forall i :: 0 <= i < |paths| ==> AdmitMount(paths[i], readOnly, h) == Some(r.value[i])
    ensures r.Success? ==> forall i :: 0 <= i < |paths| ==> Vetted(r.value[i], h) && r.value[i].readOnly == readOnly
    ensures r.Failure? ==> r.error.InvalidMount? || r.error.MountDenied?
    ensures r.Failure? ==> exists i :: 0 <= i < |paths| && !Admitted(paths[i], h) &&
                                       (forall j :: 0 <= j < i ==> Admitted(paths[j], h)) &&
                                       r.error == Refusal(paths[i], h)
  {
    Traverse(paths, (p: string) => Mounted(p, readOnly, h))
  }

  /** A flag mount, or the refusal that aborts the run. */
  function Mounted(path: string, readOnly: bool, h: Host): (r: Result<Mount, RunError>)
    ensures r.Success? <==> Admitted(path, h)
    ensures r.Success? ==> AdmitMount(path, readOnly, h) == Some(r.value)
    ensures r.Failure? ==> r.error == Refusal(path, h)
  {
    match AdmitMount(path, readOnly, h)
    case Some(m) => Success(m)
    case None => Failure(Refusal(path, h))
  }

  /** The configured default mounts; an entry that fails is skipped with a
      warning. */
  function DefaultMounts(entries: seq<MountEntry>, h: Host): (r: (seq<Mount>, seq<Warning>))
    ensures |r.0| + |r.1| == |entries|
    ensures forall i :: 0 <= i < |r.0| ==> Vetted(r.0[i], h)
    ensures forall i :: 0 <= i < |entries| && AdmitMount(entries[i].path, entries[i].readOnly, h).Some? ==>
              AdmitMount(entries[i].path, entries[i].readOnly, h).value in r.0
    ensures forall i :: 0 <= i < |r.1| ==> r.1[i].SkippedInvalidMount? || r.1[i].SkippedDeniedMount?
  {
    SiftedEntries(entries, h);
    var s := Sift(entries, AdmitEntry(h));
    (s.0, MountWarnings(s.1, h))
  }

  function AdmitEntry(h: Host): MountEntry -> Option<Mount> {
    (e: MountEntry) => AdmitMount(e.path, e.readOnly, h)
  }

  /** What sifting the default entries keeps: vetted mounts, among them
      every admitted entry's mount. */
  lemma SiftedEntries(entries: seq<MountEntry>, h: Host)
    ensures var kept := Sift(entries, AdmitEntry(h)).0;
            && (forall i :: 0 <= i < |kept| ==> Vetted(kept[i], h))
            && (forall i :: 0 <= i < |entries| && AdmitMount(entries[i].path, entries[i].readOnly, h).Some? ==>
                  AdmitMount(entries[i].path, entries[i].readOnly, h).value in kept)
  {
    var kept := Sift(entries, AdmitEntry(h)).0;
    SiftMembers(entries, AdmitEntry(h));
    forall i | 0 <= i < |kept| ensures Vetted(kept[i], h) {
      var j :| 0 <= j < |entries| && AdmitEntry(h)(entries[j]) == Some(kept[i]);
      assert AdmitMount(entries[j].path, entries[j].readOnly, h) == Some(kept[i]);
    }
    forall i | 0 <= i < |entries| && AdmitMount(entries[i].path, entries[i].readOnly, h).Some?
      ensures AdmitMount(entries[i].path, entries[i].readOnly, h).value in kept
    {
      assert AdmitEntry(h)(entries[i]) == AdmitMount(entries[i].path, entries[i].readOnly, h);
    }
  }

  function MountWarnings(skipped: seq<MountEntry>, h: Host): (ws: seq<Warning>)
    ensures |ws| == |skipped|
    ensures forall i :: 0 <= i < |ws| ==> ws[i] == MountWarning(skipped[i].path, h)
  {
    seq(|skipped|, i requires 0 <= i < |skipped| => MountWarning(skipped[i].path, h))
  }

  /** The default mounts are resolved entry by entry, in configuration
      order: those of a concatenation are those of its parts, mounts and
      warnings alike. */
  lemma DefaultMountsAppend(xs: seq<MountEntry>, ys: seq<MountEntry>, h: Host)
    ensures DefaultMounts(xs + ys, h) ==
            (DefaultMounts(xs, h).0 + DefaultMounts(ys, h).0, DefaultMounts(xs, h).1 + DefaultMounts(ys, h).1)
  {
    var sx, sy := Sift(xs, AdmitEntry(h)), Sift(ys, AdmitEntry(h));
    SiftAppend(xs, ys, AdmitEntry(h));
    MountWarningsAppend(sx.1, sy.1, h);
    assert DefaultMounts(xs, h) == (sx.0, MountWarnings(sx.1, h));
    assert DefaultMounts(ys, h) == (sy.0, MountWarnings(sy.1, h));
    assert DefaultMounts(xs + ys, h) == (sx.0 + sy.0, MountWarnings(sx.1 + sy.1, h));
  }

  lemma MountWarningsAppend(a: seq<MountEntry>, b: seq<MountEntry>, h: Host)
    ensures MountWarnings(a + b, h) == MountWarnings(a, h) + MountWarnings(b, h)
  {
    assert forall i :: 0 <= i < |a + b| ==> (a + b)[i] == if i < |a| then a[i] else b[i - |a|];
  }

  /** One entry yields its admitted mount, or the warning for it. */
  lemma DefaultMountsSingle(e: MountEntry, h: Host)
    ensures DefaultMounts([e], h) ==
            match AdmitMount(e.path, e.readOnly, h)
            case Some(m) => ([m], [])
            case None => ([], [MountWarning(e.path, h)])
  {
    SiftSingle(e, AdmitEntry(h));
    assert AdmitEntry(h)(e) == AdmitMount(e.path, e.readOnly, h);
    var s := Sift([e], AdmitEntry(h));
    assert DefaultMounts([e], h) == (s.0, MountWarnings(s.1, h));
    match AdmitMount(e.path, e.readOnly, h)
    case Some(m) =>
      assert s == ([m], []);
    case None =>
      assert s == ([], [e]);
      assert MountWarnings([e], h) == [MountWarning(e.path, h)];
  }

  /** The warning for a default mount that is skipped. */
  function MountWarning(path: string, h: Host): (w: Warning)
    ensures w.SkippedInvalidMount? || w.SkippedDeniedMount?
    ensures w.SkippedInvalidMount? <==> ExpandPath(path, h).Failure?
    ensures w.path == path
  {
    if ExpandPath(path, h).Failure? then SkippedInvalidMount(path) else SkippedDeniedMount(path)
  }

  /** The passthrough variables: every listed variable that is set, even
      to the empty string, with its host value. */
  function Passthrough(names: seq<string>, h: Host): (env: map<string, string>)
    ensures forall k :: k in env <==> k in names && k in h.env
    ensures forall k :: k in env ==> env[k] == h.env[k]
  {
    if names == [] then map[]
    else
      var rest := Passthrough(names[1..], h);
      match LookupEnv(h, names[0])
      case None => rest
      case Some(v) => rest[names[0] := v]
  }

  /** The certificate a configured path yields: its expansion, when that
      is admitted and `os.Stat` does not report it missing. Any other stat
      error keeps the certificate. */
  function AdmitCert(path: string, h: Host): (r: Option<string>)
    ensures r.Some? <==> Admitted(path, h) && !h.stat(ExpandPath(path, h).value).NotFound?
    ensures r.Some? ==> r.value == ExpandPath(path, h).value
    ensures r.Some? ==> ValidateMountPath(r.value, h.home).Pass? && !h.stat(r.value).NotFound?
  {
    match ExpandPath(path, h)
    case Failure(_) => None
    case Success(expanded) =>
      if ValidateMountPath(expanded, h.home).Fail? || h.stat(expanded).NotFound? then None
      else Some(expanded)
  }

  /** The CA certificates in configuration order, with a warning for each
      path skipped. */
  function CaCerts(paths: seq<string>, h: Host): (r: (seq<string>, seq<Warning>))
    ensures |r.0| + |r.1| == |paths|
    ensures forall i :: 0 <= i < |r.0| ==>
              ValidateMountPath(r.0[i], h.home).Pass? && !h.stat(r.0[i]).NotFound?
    ensures forall i :: 0 <= i < |paths| && AdmitCert(paths[i], h).Some? ==> AdmitCert(paths[i], h).value in r.0
    ensures forall i :: 0 <= i < |r.1| ==> !r.1[i].SkippedInvalidMount? && !r.1[i].SkippedDeniedMount?
  {
    var s := Sift(paths, AdmitCertOf(h));
    SiftedCerts(paths, h);
    (s.0, CertWarnings(s.1, h))
  }

  function AdmitCertOf(h: Host): string -> Option<string> {
    (p: string) => AdmitCert(p, h)
  }

  /** What sifting the certificate paths keeps and refuses: usable
      certificates, among them every admitted one, and paths none of
      which is admitted. */
  lemma SiftedCerts(paths: seq<string>, h: Host)
    ensures forall i :: 0 <= i < |Sift(paths, AdmitCertOf(h)).0| ==>
              ValidateMountPath(Sift(paths, AdmitCertOf(h)).0[i], h.home).Pass? &&
              !h.stat(Sift(paths, AdmitCertOf(h)).0[i]).NotFound?
    ensures forall i :: 0 <= i < |paths| && AdmitCert(paths[i], h).Some? ==>
              AdmitCert(paths[i], h).value in Sift(paths, AdmitCertOf(h)).0
    ensures forall i :: 0 <= i < |Sift(paths, AdmitCertOf(h)).1| ==> AdmitCert(Sift(paths, AdmitCertOf(h)).1[i], h).None?
  {
    var s := Sift(paths, AdmitCertOf(h));
    SiftMembers(paths, AdmitCertOf(h));
    forall i | 0 <= i < |s.0| ensures ValidateMountPath(s.0[i], h.home).Pass? && !h.stat(s.0[i]).NotFound? {
      var j :| 0 <= j < |paths| && AdmitCertOf(h)(paths[j]) == Some(s.0[i]);
      assert AdmitCert(paths[j], h) == Some(s.0[i]);
    }
    forall i | 0 <= i < |paths| && AdmitCert(paths[i], h).Some? ensures AdmitCert(paths[i], h).value in s.0 {
      assert AdmitCertOf(h)(paths[i]) == AdmitCert(paths[i], h);
    }
    forall i | 0 <= i < |s.1| ensures AdmitCert(s.1[i], h).None? {
      assert AdmitCertOf(h)(s.1[i]) == AdmitCert(s.1[i], h);
    }
  }

  function CertWarnings(skipped: seq<string>, h: Host): (ws: seq<Warning>)
    requires forall i :: 0 <= i < |skipped| ==> AdmitCert(skipped[i], h).None?
    ensures |ws| == |skipped|
    ensures forall i :: 0 <= i < |ws| ==> ws[i] == CertWarning(skipped[i], h)
  {
    seq(|skipped|, i requires 0 <= i < |skipped| => CertWarning(skipped[i], h))
  }

  /** The certificates are vetted path by path, in configuration order:
      those of a concatenation are those of its parts, certificates and
      warnings alike. */
  lemma CaCertsAppend(xs: seq<string>, ys: seq<string>, h: Host)
    ensures CaCerts(xs + ys, h) == (CaCerts(xs, h).0 + CaCerts(ys, h).0, CaCerts(xs, h).1 + CaCerts(ys, h).1)
  {
    var sx, sy := Sift(xs, AdmitCertOf(h)), Sift(ys, AdmitCertOf(h));
    SiftAppend(xs, ys, AdmitCertOf(h));
    SiftedCerts(xs, h);
    SiftedCerts(ys, h);
    CertWarningsAppend(sx.1, sy.1, h);
    assert CaCerts(xs, h) == (sx.0, CertWarnings(sx.1, h));
    assert CaCerts(ys, h) == (sy.0, CertWarnings(sy.1, h));
    assert CaCerts(xs + ys, h) == (sx.0 + sy.0, CertWarnings(sx.1 + sy.1, h));
  }

  lemma CertWarningsAppend(a: seq<string>, b: seq<string>, h: Host)
    requires forall i :: 0 <= i < |a| ==> AdmitCert(a[i], h).None?
    requires forall i :: 0 <= i < |b| ==> AdmitCert(b[i], h).None?
    ensures forall i :: 0 <= i < |a + b| ==> AdmitCert((a + b)[i], h).None?
    ensures CertWarnings(a + b, h) == CertWarnings(a, h) + CertWarnings(b, h)
  {
    assert forall i :: 0 <= i < |a + b| ==> (a + b)[i] == if i < |a| then a[i] else b[i - |a|];
  }

  /** One path yields its certificate, or the warning for it. */
  lemma CaCertsSingle(path: string, h: Host)
    ensures CaCerts([path], h) ==
            match AdmitCert(path, h)
            case Some(c) => ([c], [])
            case None => ([], [CertWarning(path, h)])
  {
    SiftSingle(path, AdmitCertOf(h));
    assert AdmitCertOf(h)(path) == AdmitCert(path, h);
    if AdmitCert(path, h).None? {
      assert CertWarnings([path], h) == [CertWarning(path, h)];
    }
  }

  /** The warning for a CA certificate that is skipped. */
  function CertWarning(path: string, h: Host): (w: Warning)
    requires AdmitCert(path, h).None?
    ensures w.SkippedInvalidCert? || w.SkippedDeniedCert? || w.CertNotFound?
    ensures w.SkippedInvalidCert? <==> ExpandPath(path, h).Failure?
    ensures w.CertNotFound? ==> h.stat(w.path).NotFound?
    ensures w.SkippedInvalidCert? ==> w.path == path
    ensures !w.SkippedInvalidCert? ==> w.path == ExpandPath(path, h).value
    ensures ExpandPath(path, h).Success? ==>
              (w.SkippedDeniedCert? <==> ValidateMountPath(ExpandPath(path, h).value, h.home).Fail?)
  {
    match ExpandPath(path, h)
    case Failure(_) => SkippedInvalidCert(path)
    case Success(expanded) =>
      if ValidateMountPath(expanded, h.home).Fail? then SkippedDeniedCert(expanded)
      else CertNotFound(expanded)
  }

  /** The external credentials unless the flag turns them off. */
  function External(flags: RunFlags, cfg: Config, h: Host): (r: Result<Contribution, RunError>)
    ensures flags.noExternalCredentials ==> r == Success(Nothing)
    ensures !flags.noExternalCredentials ==> (r.Failure? <==> h.home.None?)
    ensures r.Failure? ==> r.error == CredentialsFailed
  {
    if flags.noExternalCredentials then Success(Nothing)
    else
      match CollectExternalCredentials(cfg, h)
      case Failure(_) => Failure(CredentialsFailed)
      case Success(c) => Success(c)
  }

  /** The session's mount list: the working directory at the workspace,
      then the writable and read-only flag mounts, the default mounts and
      the credential mounts, in that order. */
  function MountList(wd: string, rw: seq<Mount>, ro: seq<Mount>, defaults: seq<Mount>, creds: seq<Mount>): (m: seq<Mount>)
    ensures |m| == 1 + |rw| + |ro| + |defaults| + |creds|
    ensures m[0] == Mount(wd, Workspace, false)
    ensures m[1..1 + |rw|] == rw
    ensures m[1 + |rw|..1 + |rw| + |ro|] == ro
    ensures m[1 + |rw| + |ro|..1 + |rw| + |ro| + |defaults|] == defaults
    ensures m[1 + |rw| + |ro| + |defaults|..] == creds
  {
    [Mount(wd, Workspace, false)] + rw + ro + defaults + creds
  }

  /** The mounts the flags and the configuration ask for, resolved in the
      order `runContainer` resolves them; the first error aborts. */
  function PlanMounts(flags: RunFlags, cfg: Config, h: Host): (r: Result<MountPlan, RunError>)
    ensures r.Success? <==> WorkDirectory(flags.workdir, h).Success? &&
                            FlagMounts(flags.mounts, false, h).Success? &&
                            FlagMounts(flags.mountsRo, true, h).Success?
    ensures WorkDirectory(flags.workdir, h).Failure? ==> r == Failure(WorkDirectory(flags.workdir, h).error)
    ensures WorkDirectory(flags.workdir, h).Success? && FlagMounts(flags.mounts, false, h).Failure? ==>
              r == Failure(FlagMounts(flags.mounts, false, h).error)
    ensures WorkDirectory(flags.workdir, h).Success? && FlagMounts(flags.mounts, false, h).Success? &&
            FlagMounts(flags.mountsRo, true, h).Failure? ==>
              r == Failure(FlagMounts(flags.mountsRo, true, h).error)
    ensures r.Success? ==> r.value.workDir == WorkDirectory(flags.workdir, h).value
    ensures r.Success? ==> |r.value.writable| == |flags.mounts| && |r.value.readOnly| == |flags.mountsRo|
    ensures r.Success? ==> forall i :: 0 <= i < |r.value.writable| ==>
              Vetted(r.value.writable[i], h) && !r.value.writable[i].readOnly &&
              AdmitMount(flags.mounts[i], false, h) == Some(r.value.writable[i])
    ensures r.Success? ==> forall i :: 0 <= i < |r.value.readOnly| ==>
              Vetted(r.value.readOnly[i], h) && r.value.readOnly[i].readOnly &&
              AdmitMount(flags.mountsRo[i], true, h) == Some(r.value.readOnly[i])
    ensures r.Success? ==> forall i :: 0 <= i < |r.value.defaults| ==> Vetted(r.value.defaults[i], h)
    ensures r.Success? ==> (r.value.defaults, r.value.skipped) == DefaultMounts(cfg.mounts.defaults, h)
  {
    var wd :- WorkDirectory(flags.workdir, h);
    var rw :- FlagMounts(flags.mounts, false, h);
    var ro :- FlagMounts(flags.mountsRo, true, h);
    var defaults := DefaultMounts(cfg.mounts.defaults, h);
    Success(MountPlan(wd, rw, ro, defaults.0, defaults.1))
  }

  /** The session handed to the runner, from the resolved mounts, the
      environment, the two credential contributions and the certificates. */
  function Assemble(flags: RunFlags, args: seq<string>, cfg: Config, plan: MountPlan, env: map<string, string>,
                    claude: Contribution, ext: Contribution, certs: (seq<string>, seq<Warning>)): (s: Session)
    ensures var m := s.opts.mounts;
            var a := 1 + |plan.writable|;
            var b := a + |plan.readOnly|;
            var c := b + |plan.defaults|;
            && c <= |m|
            && m[0] == Mount(plan.workDir, Workspace, false)
            && m[1..a] == plan.writable
            && m[a..b] == plan.readOnly
            && m[b..c] == plan.defaults
            && m[c..] == claude.mounts + ext.mounts
    ensures s.opts.workDir == Workspace && s.opts.claudeArgs == args
    ensures s.opts.image == (if flags.image != "" then flags.image else cfg.image.name)
    ensures s.opts.security.caCerts == certs.0 && s.warnings == plan.skipped + certs.1
    ensures s.opts.user == cfg.container.user && s.opts.memoryLimit == cfg.container.memoryLimit &&
            s.opts.network == cfg.container.network
    ensures s.opts.security.dropCapabilities == cfg.security.dropCapabilities &&
            s.opts.security.noNewPrivileges == cfg.security.noNewPrivileges &&
            s.opts.security.readOnlyRoot == cfg.security.readOnlyRoot
    ensures forall k :: k in s.opts.environment <==> k in ext.env || k in claude.env || k in env
    ensures forall k :: k in s.opts.environment ==>
              s.opts.environment[k] == (if k in ext.env then ext.env[k] else if k in claude.env then claude.env[k] else env[k])
  {
    var image := if flags.image != "" then flags.image else cfg.image.name;
    var mounts := MountList(plan.workDir, plan.writable, plan.readOnly, plan.defaults, claude.mounts + ext.mounts);
    var opts := RunOptions(
      image, mounts, env + claude.env + ext.env, args, Workspace,
      cfg.container.user, cfg.container.memoryLimit, cfg.container.network,
      SecurityOptions(cfg.security.dropCapabilities, cfg.security.noNewPrivileges,
                      cfg.security.readOnlyRoot, certs.0));
    Session(opts, plan.skipped + certs.1)
  }

  /** `runContainer` up to the runner call: the mounts are resolved first,
      then the environment and the credentials; the first error aborts. */
  function RunContainer(flags: RunFlags, args: seq<string>, cfg: Config, h: Host): (r: Result<Session, RunError>)
    ensures r.Success? <==> PlanMounts(flags, cfg, h).Success? && External(flags, cfg, h).Success?
    ensures r.Failure? ==> r.error == (if PlanMounts(flags, cfg, h).Failure? then PlanMounts(flags, cfg, h).error
                                       else CredentialsFailed)
    ensures r.Success? ==>
              r.value == Assemble(flags, args, cfg, PlanMounts(flags, cfg, h).value,
                                  Passthrough(cfg.environment.passthrough, h) + cfg.environment.custom,
                                  CollectClaudeAuth(cfg, h), External(flags, cfg, h).value,
                                  CaCerts(cfg.security.caCerts, h))
  {
    var plan :- PlanMounts(flags, cfg, h);
    var env := Passthrough(cfg.environment.passthrough, h) + cfg.environment.custom;
    var claude := CollectClaudeAuth(cfg, h);
    var ext :- External(flags, cfg, h);
    Success(Assemble(flags, args, cfg, plan, env, claude, ext, CaCerts(cfg.security.caCerts, h)))
  }

  /** The environment layers: passthrough, then custom, then Claude's,
      then the external credentials'; a later layer wins. */
  lemma EnvironmentLayers(flags: RunFlags, args: seq<string>, cfg: Config, h: Host, k: string)
    ensures RunContainer(flags, args, cfg, h).Success? ==>
            var env := RunContainer(flags, args, cfg, h).value.opts.environment;
            var claude := CollectClaudeAuth(cfg, h).env;
            var ext := External(flags, cfg, h).value.env;
            var custom := cfg.environment.custom;
            && (k in env <==> k in ext || k in claude || k in custom ||
                              (k in cfg.environment.passthrough && k in h.env))
            && (k in ext ==> env[k] == ext[k])
            && (k !in ext && k in claude ==> env[k] == claude[k])
            && (k !in ext && k !in claude && k in custom ==> env[k] == custom[k])
            && (k !in ext && k !in claude && k !in custom && k in env ==> env[k] == h.env[k])
  {
  }

  /** The working directory is expanded but not checked: a home directory
      whose `~/.gnupg` does not resolve further is mounted at the
      workspace although it is hard-denied for any other mount. */
  lemma WorkDirNotValidated(cfg: Config, h: Host, home: string)
    requires h.home == Some(home) && IsAbs(home)
    ensures Canonical("~/.gnupg", h).Success?
    ensures ValidateMountPath(Canonical("~/.gnupg", h).value, h.home) == Fail(HardDenied("~/.gnupg"))
    ensures h.evalSymlinks(Canonical("~/.gnupg", h).value).Dangling? ==>
              WorkDirectory("~/.gnupg", h) == Success(Canonical("~/.gnupg", h).value)
  {
    GnupgCanonical(h, home);
    GnupgDenied(home);
    if h.evalSymlinks(Canonical("~/.gnupg", h).value).Dangling? {
      assert "~/.gnupg"[0] == '~';
      WorkDirDangling("~/.gnupg", h);
    }
  }

  /** A requested directory whose canonical form does not resolve further
      is used in that canonical form. */
  lemma WorkDirDangling(flag: string, h: Host)
    requires flag != "" && Canonical(flag, h).Success?
    requires h.evalSymlinks(Canonical(flag, h).value).Dangling?
    ensures WorkDirectory(flag, h) == Success(Canonical(flag, h).value)
  {
  }

  /** `~/.gnupg` canonicalises to the home directory extended by `.gnupg`. */
  lemma GnupgCanonical(h: Host, home: string)
    requires h.home == Some(home) && IsAbs(home)
    ensures Canonical("~/.gnupg", h) == Success(Under(home, [".gnupg"]))
  {
    var p := ExpandTilde("~/.gnupg", home);
    HardRule(0);
    ExpandTildeRule(HardcodedDeniedPaths[0], HardcodedDeniedNames[0], home);
    assert p == Under(home, [".gnupg"]);
    ParseUnder(home, [".gnupg"]);
    ExpandTildeOthers("~/.gnupg", home);
    assert IsAbs(p);
    ParseClean(p);
    CleanIdempotent(p);
    ParseIsClean(home);
    ParseRender(Lexical(Parse(home).rooted, Parse(home).elems + [".gnupg"]));
    assert Clean(p) == p;
  }

  /** The first hard rule denies `~/.gnupg` itself. */
  lemma GnupgDenied(home: string)
    requires home != ""
    ensures ValidateMountPath(Under(home, [".gnupg"]), Some(home)) == Fail(HardDenied("~/.gnupg"))
  {
    var p := Under(home, [".gnupg"]);
    HardRule(0);
    ExpandTildeRule(HardcodedDeniedPaths[0], HardcodedDeniedNames[0], home);
    assert PathMatches(p, ExpandTilde(HardcodedDeniedPaths[0], home));
    FirstMatchIs(p, HardcodedDeniedPaths, home, 0);
  }

  /** Without a home directory the external collector fails the run
      unless the flag skips it. */
  lemma NoHomeExternalCredentials(flags: RunFlags, cfg: Config, h: Host)
    requires h.home.None?
    ensures flags.noExternalCredentials ==> External(flags, cfg, h) == Success(Nothing)
    ensures !flags.noExternalCredentials ==> External(flags, cfg, h) == Failure(CredentialsFailed)
    ensures CollectClaudeAuth(cfg, h) == Nothing
  {
  }

}
