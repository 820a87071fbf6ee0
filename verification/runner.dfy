/** The container runner's own decisions: how a session request becomes an
    engine configuration, how the stdin relay reacts to Ctrl+C, how the
    waiting ends, which entries of a build context enter the archive, and
    the standalone memory-limit parser. The engine itself is represented
    only by the answers it gives. */
module Runner {
  import opened Results
  import opened Strings
  import opened FilePath
  import opened ContainerTypes

  // ---------------------------------------------------------------------
  // Engine configuration

  const PathEntry: string := "PATH=/usr/local/bin:/usr/bin:/bin"
  const HomeEntry: string := "HOME=/tmp"
  const CaDir: string := "/usr/local/share/ca-certificates/"
  const NodeCaVariable: string := "NODE_EXTRA_CA_CERTS="
  const TmpfsTargets: seq<string> := ["/tmp", "/run", "/var/tmp"]
  const UserAuto: string := "auto"
  const CapabilityAll: string := "ALL"
  const NoNewPrivilegesOption: string := "no-new-privileges"

  /** A mount as the engine receives it. */
  datatype EngineMount =
    | Bind(source: string, target: string, readOnly: bool)
    | Tmpfs(target: string)

  datatype ContainerConfig = ContainerConfig(
    image: string,
    cmd: seq<string>,
    env: seq<string>,
    workingDir: string,
    user: string,
    tty: bool,
    openStdin: bool,
    attachStdin: bool,
    attachStdout: bool,
    attachStderr: bool)

  datatype HostConfig = HostConfig(
    mounts: seq<EngineMount>,
    networkMode: string,
    readonlyRootfs: bool,
    autoRemove: bool,
    memory: int,
    capDrop: seq<string>,
    securityOpt: seq<string>)

  /** The order in which the environment map is iterated: every key
      exactly once. Go leaves the order unspecified, so it is a parameter. */
  ghost predicate ListsKeys(env: map<string, string>, order: seq<string>) {
    && (forall k :: k in env <==> k in order)
    && (forall i, j :: 0 <= i < j < |order| ==> order[i] != order[j])
  }

  /** One `KEY=value` entry per map key, in the iteration order. */
  function EnvEntries(env: map<string, string>, order: seq<string>): (r: seq<string>)
    requires forall k :: k in order ==> k in env
    ensures |r| == |order|
    ensures forall i :: 0 <= i < |order| ==> r[i] == order[i] + "=" + env[order[i]]
  {
    if order == [] then []
    else [order[0] + "=" + env[order[0]]] + EnvEntries(env, order[1..])
  }

  /** How the engine reads an entry back: the name up to the first `=`,
      the value after it. */
  function SplitEntry(e: string): (string, string) {
    if '=' in e then (e[..IndexOf(e, '=')], e[IndexOf(e, '=') + 1..]) else (e, "")
  }

  lemma EntryRoundTrip(k: string, v: string)
    requires '=' !in k
    ensures SplitEntry(k + "=" + v) == (k, v)
  {
    IndexOfAfter(k, "=" + v, '=');
    assert k + "=" + v == k + ("=" + v);
  }

  /** For keys without `=`, the entries read back as exactly the map: each
      names a key with its value, and each key has an entry. */
  lemma {:induction false} EnvEntriesDenoteMap(env: map<string, string>, order: seq<string>)
    requires ListsKeys(env, order)
    requires forall k :: k in env ==> '=' !in k
    ensures var r := EnvEntries(env, order);
            forall i :: 0 <= i < |r| ==>
              SplitEntry(r[i]).0 in env && env[SplitEntry(r[i]).0] == SplitEntry(r[i]).1
    ensures var r := EnvEntries(env, order);
            forall k :: k in env ==> exists i :: 0 <= i < |r| && SplitEntry(r[i]) == (k, env[k])
  {
    var r := EnvEntries(env, order);
    forall i | 0 <= i < |r|
      ensures SplitEntry(r[i]).0 in env && env[SplitEntry(r[i]).0] == SplitEntry(r[i]).1
    {
      EntryRoundTrip(order[i], env[order[i]]);
    }
    forall k | k in env
      ensures exists i :: 0 <= i < |r| && SplitEntry(r[i]) == (k, env[k])
    {
      var i :| 0 <= i < |order| && order[i] == k;
      EntryRoundTrip(k, env[k]);
      assert SplitEntry(r[i]) == (k, env[k]);
    }
  }

  /** The in-sandbox path of a CA certificate: the CA directory plus the
      certificate's base name. */
  function CertTarget(cert: string): string {
    CaDir + Base(cert)
  }

  /** Two certificates land on the same sandbox path exactly when their
      base names agree. */
  lemma CertTargetsCollide(a: string, b: string)
    ensures CertTarget(a) == CertTarget(b) <==> Base(a) == Base(b)
  {
    if CertTarget(a) == CertTarget(b) {
      assert Base(a) == CertTarget(a)[|CaDir|..];
      assert Base(b) == CertTarget(b)[|CaDir|..];
    }
  }

  /** The environment list: the map's entries, then `PATH`, then `HOME`,
      then `NODE_EXTRA_CA_CERTS` when exactly one certificate is given. */
  function ContainerEnv(opts: RunOptions, order: seq<string>): (r: seq<string>)
    requires ListsKeys(opts.environment, order)
    ensures |r| == |order| + 2 + (if |opts.security.caCerts| == 1 then 1 else 0)
    ensures r[..|order|] == EnvEntries(opts.environment, order)
    ensures r[|order|] == PathEntry && r[|order| + 1] == HomeEntry
    ensures |opts.security.caCerts| == 1 ==>
              r[|order| + 2] == NodeCaVariable + CertTarget(opts.security.caCerts[0])
    ensures forall i :: |order| + 2 <= i < |r| ==> HasPrefix(r[i], NodeCaVariable)
  {
    var base := EnvEntries(opts.environment, order) + [PathEntry, HomeEntry];
    if |opts.security.caCerts| == 1 then
      var out := base + [NodeCaVariable + CertTarget(opts.security.caCerts[0])];
      assert out[..|order|] == base[..|order|];
      out
    else base
  }

  /** The request's mounts as binds, in order. */
  function Binds(ms: seq<Mount>): (r: seq<EngineMount>)
    ensures |r| == |ms|
    ensures forall i :: 0 <= i < |ms| ==> r[i] == Bind(ms[i].source, ms[i].target, ms[i].readOnly)
  {
    if ms == [] then [] else [Bind(ms[0].source, ms[0].target, ms[0].readOnly)] + Binds(ms[1..])
  }

  /** One read-only bind per certificate into the CA directory. */
  function CertBinds(certs: seq<string>): (r: seq<EngineMount>)
    ensures |r| == |certs|
    ensures forall i :: 0 <= i < |certs| ==> r[i] == Bind(certs[i], CertTarget(certs[i]), true)
  {
    if certs == [] then [] else [Bind(certs[0], CertTarget(certs[0]), true)] + CertBinds(certs[1..])
  }

  function TmpfsMounts(readOnlyRoot: bool): (r: seq<EngineMount>)
    ensures readOnlyRoot ==> r == [Tmpfs("/tmp"), Tmpfs("/run"), Tmpfs("/var/tmp")]
    ensures !readOnlyRoot ==> r == []
  {
    if readOnlyRoot then [Tmpfs(TmpfsTargets[0]), Tmpfs(TmpfsTargets[1]), Tmpfs(TmpfsTargets[2])] else []
  }

  /** The engine mounts: the request's binds, the tmpfs areas when the
      root is read-only, then the certificate binds. */
  function EngineMounts(opts: RunOptions): (r: seq<EngineMount>)
    ensures var n := |opts.mounts|;
            var t := if opts.security.readOnlyRoot then 3 else 0;
            && |r| == n + t + |opts.security.caCerts|
            && r[..n] == Binds(opts.mounts)
            && r[n..n + t] == TmpfsMounts(opts.security.readOnlyRoot)
            && r[n + t..] == CertBinds(opts.security.caCerts)
  {
    Binds(opts.mounts) + TmpfsMounts(opts.security.readOnlyRoot) + CertBinds(opts.security.caCerts)
  }

  /** The only writable binds are the request's writable mounts, and every
      tmpfs area exists only with a read-only root. */
  lemma WritableBinds(opts: RunOptions, i: nat)
    requires i < |EngineMounts(opts)|
    ensures var m := EngineMounts(opts)[i];
            m.Bind? && !m.readOnly ==> i < |opts.mounts| && !opts.mounts[i].readOnly
    ensures EngineMounts(opts)[i].Tmpfs? ==> opts.security.readOnlyRoot
  {
    var r := EngineMounts(opts);
    var n := |opts.mounts|;
    var t := if opts.security.readOnlyRoot then 3 else 0;
    if i < n {
      assert r[i] == r[..n][i];
    } else if i < n + t {
      assert r[i] == r[n..n + t][i - n];
    } else {
      assert r[i] == r[n + t..][i - n - t];
    }
  }

  /** The user the container runs as: `auto` is the host's `uid:gid`, any
      other setting is passed on as it is (the empty one meaning the
      image's default). */
  function ContainerUser(user: string, uid: nat, gid: nat): (r: string)
    ensures user != UserAuto ==> r == user
  {
    if user == UserAuto then NatToString(uid) + ":" + NatToString(gid) else user
  }

  /** `auto` yields two decimal numbers separated by the first `:`, and
      they read back as the host's ids. */
  lemma AutoUserIds(uid: nat, gid: nat)
    ensures var r := ContainerUser(UserAuto, uid, gid);
            && ':' in r
            && var i := IndexOf(r, ':');
            && AllDigits(r[..i]) && DecimalValue(r[..i]) == uid
            && AllDigits(r[i + 1..]) && DecimalValue(r[i + 1..]) == gid
  {
    var a := NatToString(uid);
    var b := NatToString(gid);
    var r := a + ":" + b;
    assert ':' !in a by {
      assert forall j :: 0 <= j < |a| ==> IsDigit(a[j]);
    }
    IndexOfAfter(a, ":" + b, ':');
    assert r == a + (":" + b);
    assert r[..|a|] == a;
    assert r[|a| + 1..] == b;
    DecimalRoundTrip(uid);
    DecimalRoundTrip(gid);
  }

  datatype RunnerError =
    | InvalidMemoryLimit(limit: string)
    | ImageNotFound(image: string)
    | CreateFailed(message: string)
    | AttachFailed
    | StartFailed
    | RawTerminalFailed
    | WaitFailed
    | NonZeroExit(code: int)
    | ContextCancelled

  /** The memory limit in bytes: zero when unset, otherwise what the
      engine library's size parser `ram` makes of the setting. */
  function MemoryBytes(limit: string, ram: string -> Option<int>): (r: Result<int, RunnerError>)
    ensures limit == "" ==> r == Success(0)
    ensures limit != "" ==> (r.Success? <==> ram(limit).Some?)
    ensures limit != "" && r.Success? ==> r.value == ram(limit).value
    ensures r.Failure? ==> r.error == InvalidMemoryLimit(limit)
  {
    if limit == "" then Success(0)
    else match ram(limit)
      case None => Failure(InvalidMemoryLimit(limit))
      case Some(n) => Success(n)
  }

  /** The container and host configuration for a request. `order` is the
      environment iteration order, `tty` whether stdin is a terminal. */
  function Configure(opts: RunOptions, order: seq<string>, uid: nat, gid: nat, tty: bool,
                     ram: string -> Option<int>): (r: Result<(ContainerConfig, HostConfig), RunnerError>)
    requires ListsKeys(opts.environment, order)
    ensures r.Failure? <==> MemoryBytes(opts.memoryLimit, ram).Failure?
    ensures r.Success? ==> (
              var (c, hc) := r.value;
              && c.image == opts.image && c.cmd == opts.claudeArgs
              && c.env == ContainerEnv(opts, order)
              && c.workingDir == opts.workDir
              && c.user == ContainerUser(opts.user, uid, gid)
              && c.tty == tty && c.attachStdout == tty && c.attachStderr == tty
              && c.openStdin && c.attachStdin
              && hc.mounts == EngineMounts(opts)
              && hc.networkMode == opts.network
              && hc.readonlyRootfs == opts.security.readOnlyRoot
              && !hc.autoRemove
              && hc.memory == MemoryBytes(opts.memoryLimit, ram).value
              && (hc.capDrop == if opts.security.dropCapabilities then [CapabilityAll] else [])
              && (hc.securityOpt == if opts.security.noNewPrivileges then [NoNewPrivilegesOption] else []))
  {
    var memory :- MemoryBytes(opts.memoryLimit, ram);
    var c := ContainerConfig(opts.image, opts.claudeArgs, ContainerEnv(opts, order), opts.workDir,
                             ContainerUser(opts.user, uid, gid), tty, true, true, tty, tty);
    var hc := HostConfig(EngineMounts(opts), opts.network, opts.security.readOnlyRoot, false, memory,
                         if opts.security.dropCapabilities then [CapabilityAll] else [],
                         if opts.security.noNewPrivileges then [NoNewPrivilegesOption] else []);
    Success((c, hc))
  }

  // ---------------------------------------------------------------------
  // Container lifecycle

  /** Which branch of the final wait fires: the wait's error channel (with
      whether an error was delivered and whether the context was already
      cancelled), the exit status, or the context. */
  datatype WaitEvent =
    | WaitError(failed: bool, contextCancelled: bool)
    | Exited(code: int)
    | ContextDone

  /** The engine's answers: the created container's id or the creation
      error's message, whether attach, start and raw terminal mode succeed,
      and how the wait ends. */
  datatype EngineAnswers = EngineAnswers(
    create: Result<string, string>,
    attachOk: bool,
    startOk: bool,
    rawTerminalOk: bool,
    event: WaitEvent)

  /** The engine calls that change the container's state. */
  datatype Call =
    | Create(config: ContainerConfig, host: HostConfig)
    | Attach
    | Start
    | Stop(timeout: int)
    | Remove(force: bool)

  const StopTimeout: int := 5
  const NoSuchImage: string := "No such image"

  /** A failed creation: a missing image is reported as such. */
  function CreateError(image: string, message: string): (r: RunnerError)
    ensures r.ImageNotFound? <==> Contains(message, NoSuchImage)
    ensures r.ImageNotFound? ==> r.image == image
    ensures !r.ImageNotFound? ==> r == CreateFailed(message)
  {
    if Contains(message, NoSuchImage) then ImageNotFound(image) else CreateFailed(message)
  }

  /** The steps while the container exists, up to the end of the wait. */
  function WhileCreated(tty: bool, e: EngineAnswers): (r: (seq<Call>, Outcome<RunnerError>))
    ensures r.0 == [Attach] + (if e.attachOk then [Start] else []) +
                   (if e.attachOk && e.startOk && (tty ==> e.rawTerminalOk) && e.event.ContextDone?
                    then [Stop(StopTimeout)] else [])
    ensures !e.attachOk ==> r.1 == Fail(AttachFailed)
    ensures e.attachOk && !e.startOk ==> r.1 == Fail(StartFailed)
    ensures e.attachOk && e.startOk && tty && !e.rawTerminalOk ==> r.1 == Fail(RawTerminalFailed)
    ensures forall i :: 0 <= i < |r.0| ==> !r.0[i].Remove? && !r.0[i].Create?
    ensures (exists i :: 0 <= i < |r.0| && r.0[i].Stop?) <==>
              e.attachOk && e.startOk && (tty ==> e.rawTerminalOk) && e.event.ContextDone?
    ensures forall i, j :: 0 <= i < |r.0| && 0 <= j < |r.0| && r.0[i].Stop? && r.0[j].Stop? ==>
              i == j && r.0[i] == Stop(StopTimeout)
  {
    if !e.attachOk then ([Attach], Fail(AttachFailed))
    else if !e.startOk then ([Attach, Start], Fail(StartFailed))
    else if tty && !e.rawTerminalOk then ([Attach, Start], Fail(RawTerminalFailed))
    else match e.event
      case WaitError(failed, cancelled) =>
        ([Attach, Start], if failed && !cancelled then Fail(WaitFailed) else Pass)
      case Exited(code) =>
        ([Attach, Start], if code != 0 then Fail(NonZeroExit(code)) else Pass)
      case ContextDone =>
        var calls := [Attach, Start, Stop(StopTimeout)];
        assert calls[2].Stop?;
        (calls, Fail(ContextCancelled))
  }

  /** Whether a run gets as far as waiting for the container. */
  predicate ReachesWait(tty: bool, e: EngineAnswers) {
    e.create.Success? && e.attachOk && e.startOk && (tty ==> e.rawTerminalOk)
  }

  /** The calls and outcome once the configuration is known: nothing
      reaches the engine when it could not be built; once the container is
      created its forced removal is deferred, so it is the last call
      whatever happens next. */
  function Lifecycle(cfg: Result<(ContainerConfig, HostConfig), RunnerError>, image: string, tty: bool,
                     e: EngineAnswers): (r: (seq<Call>, Outcome<RunnerError>))
    ensures cfg.Failure? ==> r == ([], Fail(cfg.error))
    ensures cfg.Success? ==> |r.0| >= 1 && r.0[0] == Create(cfg.value.0, cfg.value.1)
    ensures (exists i :: 0 <= i < |r.0| && r.0[i].Remove?) <==> cfg.Success? && e.create.Success?
    ensures (exists i :: 0 <= i < |r.0| && r.0[i].Remove?) ==>
              r.0[|r.0| - 1] == Remove(true) && forall i :: 0 <= i < |r.0| - 1 ==> !r.0[i].Remove?
    ensures (exists i :: 0 <= i < |r.0| && r.0[i].Stop?) <==>
              cfg.Success? && ReachesWait(tty, e) && e.event.ContextDone?
    ensures forall i, j :: 0 <= i < |r.0| && 0 <= j < |r.0| && r.0[i].Stop? && r.0[j].Stop? ==>
              i == j && r.0[i] == Stop(StopTimeout)
    ensures cfg.Success? && e.create.Failure? ==> |r.0| == 1 && r.1 == Fail(CreateError(image, e.create.error))
    ensures cfg.Success? && e.create.Success? ==>
              r.0 == [Create(cfg.value.0, cfg.value.1)] + WhileCreated(tty, e).0 + [Remove(true)] &&
              r.1 == WhileCreated(tty, e).1
    ensures cfg.Success? && ReachesWait(tty, e) ==>
              match e.event
              case Exited(code) => (r.1.Fail? <==> code != 0) && (r.1.Fail? ==> r.1.error == NonZeroExit(code))
              case WaitError(failed, cancelled) =>
                (r.1.Fail? <==> failed && !cancelled) && (r.1.Fail? ==> r.1.error == WaitFailed)
              case ContextDone => r.1 == Fail(ContextCancelled)
    ensures r.1.Pass? ==> cfg.Success? && ReachesWait(tty, e) && !e.event.ContextDone?
  {
    match cfg
    case Failure(err) => ([], Fail(err))
    case Success(c) =>
      match e.create
      case Failure(message) => ([Create(c.0, c.1)], Fail(CreateError(image, message)))
      case Success(_) => (Created(c, tty, e), WhileCreated(tty, e).1)
  }

  /** The calls made once the container exists: its creation, the steps
      while it exists, and the deferred forced removal last. */
  function Created(c: (ContainerConfig, HostConfig), tty: bool, e: EngineAnswers): (trace: seq<Call>)
    ensures trace == [Create(c.0, c.1)] + WhileCreated(tty, e).0 + [Remove(true)]
    ensures trace[|trace| - 1] == Remove(true) && forall i :: 0 <= i < |trace| - 1 ==> !trace[i].Remove?
    ensures (exists i :: 0 <= i < |trace| && trace[i].Stop?) <==>
              e.attachOk && e.startOk && (tty ==> e.rawTerminalOk) && e.event.ContextDone?
    ensures forall i, j :: 0 <= i < |trace| && 0 <= j < |trace| && trace[i].Stop? && trace[j].Stop? ==>
              i == j && trace[i] == Stop(StopTimeout)
  {
    var calls := WhileCreated(tty, e).0;
    var trace := [Create(c.0, c.1)] + calls + [Remove(true)];
    assert forall i :: 1 <= i < |trace| - 1 ==> trace[i] == calls[i - 1];
    assert (exists i :: 0 <= i < |calls| && calls[i].Stop?) ==> exists i :: 0 <= i < |trace| && trace[i].Stop? by {
      if exists i :: 0 <= i < |calls| && calls[i].Stop? {
        var i :| 0 <= i < |calls| && calls[i].Stop?;
        assert trace[i + 1].Stop?;
      }
    }
    trace
  }

  /** The engine calls of a created container in order: attach, then
      start once attached, then the wait, with the forced removal last;
      each early failure ends the run with its own error. */
  lemma LifecycleEarlyFailures(c: (ContainerConfig, HostConfig), image: string, tty: bool, e: EngineAnswers)
    requires e.create.Success?
    ensures var r := Lifecycle(Success(c), image, tty, e);
            && (!e.attachOk ==> r == ([Create(c.0, c.1), Attach, Remove(true)], Fail(AttachFailed)))
            && (e.attachOk && !e.startOk ==>
                  r == ([Create(c.0, c.1), Attach, Start, Remove(true)], Fail(StartFailed)))
            && (e.attachOk && e.startOk && tty && !e.rawTerminalOk ==>
                  r == ([Create(c.0, c.1), Attach, Start, Remove(true)], Fail(RawTerminalFailed)))
            && (ReachesWait(tty, e) ==>
                  r.0 == [Create(c.0, c.1), Attach, Start] +
                         (if e.event.ContextDone? then [Stop(StopTimeout)] else []) + [Remove(true)])
  {
    var w := WhileCreated(tty, e);
    var cr := Create(c.0, c.1);
    assert Lifecycle(Success(c), image, tty, e) == ([cr] + w.0 + [Remove(true)], w.1);
    if !e.attachOk {
      assert w.0 == [Attach];
      assert [cr] + [Attach] + [Remove(true)] == [cr, Attach, Remove(true)];
    } else if !e.startOk || (tty && !e.rawTerminalOk) {
      assert w.0 == [Attach, Start];
      assert [cr] + [Attach, Start] + [Remove(true)] == [cr, Attach, Start, Remove(true)];
    } else {
      var stop: seq<Call> := if e.event.ContextDone? then [Stop(StopTimeout)] else [];
      assert w.0 == [Attach, Start] + stop;
      assert [cr] + ([Attach, Start] + stop) + [Remove(true)] == [cr, Attach, Start] + stop + [Remove(true)];
    }
  }

  /** `Runner.Run`: the configuration, then the container's lifecycle. */
  function Run(opts: RunOptions, order: seq<string>, uid: nat, gid: nat, tty: bool,
               ram: string -> Option<int>, e: EngineAnswers): (r: (seq<Call>, Outcome<RunnerError>))
    requires ListsKeys(opts.environment, order)
    ensures r.0 == [] <==> MemoryBytes(opts.memoryLimit, ram).Failure?
    ensures r.0 == [] ==> r.1 == Fail(InvalidMemoryLimit(opts.memoryLimit))
    ensures MemoryBytes(opts.memoryLimit, ram).Success? ==>
              r.0[0].Create? && r.0[0].config.image == opts.image && r.0[0].config.cmd == opts.claudeArgs
  {
    Lifecycle(Configure(opts, order, uid, gid, tty, ram), opts.image, tty, e)
  }

  // ---------------------------------------------------------------------
  // Stdin relay

  const CtrlC: bv8 := 3

  datatype RelayEnd = ClosedWrite | CancelRequested

  /** The stdin relay from the `k`-th read on: with `filter` (a terminal
      and a cancel function) a chunk holding Ctrl+C requests cancellation
      and is not forwarded, and the relay stops without closing the write
      side; otherwise each chunk is forwarded verbatim until input ends or
      a write fails (the chunks whose write fails are `failing`), and the
      write side is closed. */
  function RelayFrom(chunks: seq<seq<bv8>>, filter: bool, failing: set<nat>, k: nat): (r: (seq<seq<bv8>>, RelayEnd))
    requires k <= |chunks|
    ensures k + |r.0| <= |chunks| && r.0 == chunks[k..k + |r.0|]
    ensures forall j :: k <= j < k + |r.0| ==> j !in failing
    ensures filter ==> forall j :: 0 <= j < |r.0| ==> CtrlC !in r.0[j]
    ensures !filter ==> r.1 == ClosedWrite
    ensures r.1 == CancelRequested ==> k + |r.0| < |chunks| && CtrlC in chunks[k + |r.0|]
    ensures r.1 == ClosedWrite ==> k + |r.0| == |chunks| || (k + |r.0| in failing && !(filter && CtrlC in chunks[k + |r.0|]))
    decreases |chunks| - k
  {
    if k == |chunks| then ([], ClosedWrite)
    else if filter && CtrlC in chunks[k] then ([], CancelRequested)
    else if k in failing then ([], ClosedWrite)
    else
      var rest := RelayFrom(chunks, filter, failing, k + 1);
      assert chunks[k..k + 1 + |rest.0|] == [chunks[k]] + chunks[k + 1..k + 1 + |rest.0|];
      ([chunks[k]] + rest.0, rest.1)
  }

  function Relay(chunks: seq<seq<bv8>>, tty: bool, hasCancel: bool, failing: set<nat>): (r: (seq<seq<bv8>>, RelayEnd))
    ensures |r.0| <= |chunks| && r.0 == chunks[..|r.0|]
    ensures forall j :: 0 <= j < |r.0| ==> j !in failing
    ensures tty && hasCancel ==> forall j :: 0 <= j < |r.0| ==> CtrlC !in r.0[j]
    ensures r.1 == CancelRequested ==> tty && hasCancel && |r.0| < |chunks| && CtrlC in chunks[|r.0|]
    ensures r.1 == ClosedWrite ==>
              |r.0| == |chunks| || (|r.0| in failing && !(tty && hasCancel && CtrlC in chunks[|r.0|]))
  {
    RelayFrom(chunks, tty && hasCancel, failing, 0)
  }

  /** With no failing write and no Ctrl+C filtering, the relay forwards
      every chunk and closes the write side. */
  lemma RelayForwardsAll(chunks: seq<seq<bv8>>, tty: bool, hasCancel: bool)
    requires !(tty && hasCancel) || forall j :: 0 <= j < |chunks| ==> CtrlC !in chunks[j]
    ensures Relay(chunks, tty, hasCancel, {}) == (chunks, ClosedWrite)
  {
    var r := Relay(chunks, tty, hasCancel, {});
    assert chunks[0..|chunks|] == chunks;
  }

  /** The first chunk holding Ctrl+C ends the relay: everything before it
      is forwarded, nothing of it, including its bytes before the Ctrl+C,
      and the write side stays open. */
  lemma {:induction false} CtrlCDropsWholeChunk(chunks: seq<seq<bv8>>, j: nat)
    requires j < |chunks| && CtrlC in chunks[j]
    requires forall i :: 0 <= i < j ==> CtrlC !in chunks[i]
    ensures Relay(chunks, true, true, {}) == (chunks[..j], CancelRequested)
  {
    var r := Relay(chunks, true, true, {});
    assert forall i :: 0 <= i < |r.0| ==> r.0[i] == chunks[i];
    assert |r.0| == j;
  }

  // ---------------------------------------------------------------------
  // Memory limits

  /** A unit suffix of a memory limit. */
  datatype Unit = Bytes | Kibi | Mebi | Gibi

  function Suffix(u: Unit): string {
    match u
    case Bytes => ""
    case Kibi => "k"
    case Mebi => "m"
    case Gibi => "g"
  }

  function Factor(u: Unit): (f: int)
    ensures f >= 1
  {
    match u
    case Bytes => 1
    case Kibi => 1024
    case Mebi => 1024 * 1024
    case Gibi => 1024 * 1024 * 1024
  }

  /** The unit a lower-cased limit ends in, at most one suffix. */
  function UnitOf(t: string): (u: Unit)
    ensures u != Bytes ==> HasSuffix(t, Suffix(u))
    ensures u == Bytes ==> !HasSuffix(t, "g") && !HasSuffix(t, "m") && !HasSuffix(t, "k")
  {
    if HasSuffix(t, "g") then Gibi
    else if HasSuffix(t, "m") then Mebi
    else if HasSuffix(t, "k") then Kibi
    else Bytes
  }

  /** `parseMemoryLimit`: trimmed and lower-cased, empty means zero, one
      unit suffix at most, the rest a base-10 int64, and the product
      wrapping around as int64 multiplication does. */
  function ParseMemoryLimit(limit: string): (r: Result<int, NumError>)
    ensures r.Success? ==> InInt64(r.value)
  {
    ParseNormalized(ToLower(TrimSpace(limit)))
  }

  /** The parse of an already trimmed, lower-cased limit. */
  function ParseNormalized(t: string): (r: Result<int, NumError>)
    ensures r.Success? ==> InInt64(r.value)
    ensures t == "" ==> r == Success(0)
    ensures t != "" ==>
              var digits := TrimSuffix(t, Suffix(UnitOf(t)));
              && (r.Success? <==> ParseInt64(digits).Success?)
              && (r.Success? ==> r.value == WrapInt64(ParseInt64(digits).value * Factor(UnitOf(t))))
  {
    if t == "" then Success(0)
    else
      var u := UnitOf(t);
      var v :- ParseInt64(TrimSuffix(t, Suffix(u)));
      Success(WrapInt64(v * Factor(u)))
  }

  function UpperSuffix(u: Unit): string {
    match u
    case Bytes => ""
    case Kibi => "K"
    case Mebi => "M"
    case Gibi => "G"
  }

  lemma ToLowerConcat(a: string, b: string)
    ensures ToLower(a + b) == ToLower(a) + ToLower(b)
  {
    var l := ToLower(a + b);
    assert forall i :: 0 <= i < |a + b| ==> l[i] == (ToLower(a) + ToLower(b))[i];
  }

  lemma ToLowerDigits(s: string)
    requires AllDigits(s)
    ensures ToLower(s) == s
  {
    assert forall i :: 0 <= i < |s| ==> ToLower(s)[i] == s[i];
  }

  /** Trimming and lower-casing a number with a unit in either case and
      surrounding white space leaves the number and the lower-case unit. */
  lemma NormalizeNumber(pre: string, d: string, u: Unit, upper: bool, post: string)
    requires AllSpace(pre) && AllSpace(post) && d != [] && AllDigits(d)
    ensures ToLower(TrimSpace(pre + d + (if upper then UpperSuffix(u) else Suffix(u)) + post)) == d + Suffix(u)
  {
    var suf := if upper then UpperSuffix(u) else Suffix(u);
    var core := d + suf;
    assert pre + d + suf + post == pre + core + post;
    EdgesNotSpace(d, suf);
    TrimSpaceOf(pre, core, post);
    LowerNumber(d, u, upper);
  }

  lemma EdgesNotSpace(d: string, suf: string)
    requires d != [] && AllDigits(d) && |suf| <= 1
    requires suf != [] ==> !IsSpace(suf[0])
    ensures var core := d + suf; !IsSpace(core[0]) && !IsSpace(core[|core| - 1])
  {
    assert IsDigit(d[0]) && IsDigit(d[|d| - 1]);
  }

  lemma LowerNumber(d: string, u: Unit, upper: bool)
    requires AllDigits(d)
    ensures ToLower(d + (if upper then UpperSuffix(u) else Suffix(u))) == d + Suffix(u)
  {
    var suf := if upper then UpperSuffix(u) else Suffix(u);
    ToLowerConcat(d, suf);
    ToLowerDigits(d);
    assert ToLower(suf) == Suffix(u);
  }

  lemma UnitOfNumber(d: string, u: Unit)
    requires d != [] && AllDigits(d)
    ensures UnitOf(d + Suffix(u)) == u
    ensures TrimSuffix(d + Suffix(u), Suffix(u)) == d
  {
    var t := d + Suffix(u);
    assert t[|t| - 1] == if u == Bytes then d[|d| - 1] else Suffix(u)[0];
    assert t[..|t| - |Suffix(u)|] == d;
  }

  /** A number followed by a unit, in either case and with surrounding
      white space, parses to the number times the unit's factor. */
  lemma MemoryLimitRoundTrip(pre: string, n: nat, u: Unit, upper: bool, post: string)
    requires AllSpace(pre) && AllSpace(post)
    requires n * Factor(u) <= Int64Max
    ensures ParseMemoryLimit(pre + NatToString(n) + (if upper then UpperSuffix(u) else Suffix(u)) + post)
            == Success(n * Factor(u))
  {
    var d := NatToString(n);
    NormalizeNumber(pre, d, u, upper, post);
    DecimalRoundTrip(n);
    ParseNumberWithUnit(d, n, u);
  }

  lemma ParseNumberWithUnit(d: string, n: nat, u: Unit)
    requires d != [] && AllDigits(d) && DecimalValue(d) == n
    requires n * Factor(u) <= Int64Max
    ensures ParseNormalized(d + Suffix(u)) == Success(n * Factor(u))
  {
    UnitOfNumber(d, u);
    var v := n * Factor(u);
    assert n <= v by {
      assert n * Factor(u) == n * (Factor(u) - 1) + n;
    }
    assert ParseInt64(d) == Success(n);
    assert InInt64(v);
  }

  /** A lone unit has no number before it. */
  lemma LoneUnitRejected()
    ensures ParseNormalized("g").Failure?
  {
    assert HasSuffix("g", "g");
    assert TrimSuffix("g", "g") == "";
  }

  /** `b` is not a unit, so the whole text must be a number. */
  lemma TrailingByteRejected()
    ensures ParseNormalized("4gb").Failure?
  {
    assert !HasSuffix("4gb", "g") && !HasSuffix("4gb", "m") && !HasSuffix("4gb", "k");
    assert !IsDigit("4gb"[1]);
  }

  /** Only one unit is stripped. */
  lemma SecondUnitRejected()
    ensures ParseNormalized("1kg").Failure?
  {
    assert HasSuffix("1kg", "g");
    assert TrimSuffix("1kg", "g") == "1k";
    assert !IsDigit("1k"[1]);
  }

  /** Input is trimmed and lower-cased before it is read. */
  lemma MemoryLimitNormalizes(pre: string, core: string, post: string)
    requires AllSpace(pre) && AllSpace(post)
    requires core != [] ==> !IsSpace(core[0]) && !IsSpace(core[|core| - 1])
    ensures ParseMemoryLimit(pre + core + post) == ParseNormalized(ToLower(core))
  {
    TrimSpaceOf(pre, core, post);
  }

  // ---------------------------------------------------------------------
  // Build context

  /** A directory tree as the walk reads it; children in lexical order. */
  datatype Entry = File(name: string) | Directory(name: string, children: seq<Entry>)

  /** What the walk callback decides for one visited path: leave it out,
      leave out the directory with everything below it, add it to the
      archive under a relative name, or abort the build. */
  datatype Inclusion = Omit | Prune | Add(name: string) | Abort

  const DockerfileName: string := "Dockerfile"
  const DockerIgnore: string := ".dockerignore"

  /** A hidden entry, as the callback tests it: its base name starts with
      a dot and it is not `.dockerignore`. */
  predicate Hidden(path: string) {
    HasPrefix(Base(path), ".") && Base(path) != DockerIgnore
  }

  /** The walk callback as written: a `Dockerfile` whose directory equals
      the context directory as given is skipped, anything hidden is skipped
      (a directory with its contents), even the context root itself. */
  function IncludeAsWritten(ctx: string, path: string, isDir: bool): (r: Inclusion)
    ensures r.Add? ==> Rel(ctx, path) == Success(r.name)
  {
    if Base(path) == DockerfileName && Dir(path) == ctx then Omit
    else
      match Rel(ctx, path)
      case Failure(_) => Abort
      case Success(rel) => if Hidden(path) then (if isDir then Prune else Omit) else Add(rel)
  }

  /** The callback as intended: both tests apply only below the context
      root, and the `Dockerfile` test compares with the cleaned context
      directory, the form `filepath.Dir` returns. */
  function Include(ctx: string, path: string, isDir: bool): (r: Inclusion)
    ensures r.Add? ==> Rel(ctx, path) == Success(r.name)
  {
    if path != ctx && Base(path) == DockerfileName && Dir(path) == Clean(ctx) then Omit
    else
      match Rel(ctx, path)
      case Failure(_) => Abort
      case Success(rel) => if path != ctx && Hidden(path) then (if isDir then Prune else Omit) else Add(rel)
  }

  function Decide(ctx: string, path: string, isDir: bool, intended: bool): Inclusion {
    if intended then Include(ctx, path, isDir) else IncludeAsWritten(ctx, path, isDir)
  }

  /** `filepath.Walk` under one callback: the archive names added, in walk
      order. A directory the callback omits is still descended into; one
      it prunes is not. */
  function Visit(ctx: string, path: string, e: Entry, intended: bool): Result<seq<string>, RelError>
    decreases e, 1
  {
    match Decide(ctx, path, e.Directory?, intended)
    case Abort => Failure(CannotMakeRelative)
    case Prune => Success([])
    case Omit => if e.Directory? then VisitChildren(ctx, path, e, 0, intended) else Success([])
    case Add(n) =>
      if e.Directory? then
        var rest :- VisitChildren(ctx, path, e, 0, intended);
        Success([n] + rest)
      else Success([n])
  }

  function VisitChildren(ctx: string, path: string, e: Entry, i: nat, intended: bool): Result<seq<string>, RelError>
    requires e.Directory? && i <= |e.children|
    decreases e, 0, |e.children| - i
  {
    if i == |e.children| then Success([])
    else
      var first :- Visit(ctx, Join([path, e.children[i].name]), e.children[i], intended);
      var rest :- VisitChildren(ctx, path, e, i + 1, intended);
      Success(first + rest)
  }

  /** The archive entries of a build context besides the separately added
      Dockerfile. */
  function Walk(ctx: string, root: Entry, intended: bool): (r: Result<seq<string>, RelError>)
    ensures WellNamed(root) ==> r.Success?
    ensures WellNamed(root) && intended ==> DockerfileName !in r.value
  {
    if WellNamed(root) then
      assert Reached(ctx, ctx, []);
      VisitWellNamed(ctx, ctx, root, [], intended);
      Visit(ctx, ctx, root, intended)
    else Visit(ctx, ctx, root, intended)
  }

  /** The context directory `build` uses when none is given: the
      Dockerfile's directory, which is `.` for a Dockerfile named without
      a directory, bare (`Dockerfile`) or under `./` (`./Dockerfile.custom`). */
  lemma DefaultContextIsDot(name: string)
    requires Separator !in name
    ensures Dir(name) == "." && Dir("./" + name) == "."
  {
    DirOfBareName(name);
    DirOfDotSlashName(name);
  }

  lemma DirOfBareName(n: string)
    requires Separator !in n
    ensures Dir(n) == "."
  {
    assert Split("") == [""];
  }

  lemma DirOfDotSlashName(n: string)
    requires Separator !in n
    ensures Dir("./" + n) == "."
  {
    var s := "./" + n;
    assert s[1] == Separator && s[2..] == n;
    LastIndexOfBefore("./", n, Separator);
    assert s[..2] == "./";
    SplitConcat(".", "");
    assert "./" == "." + "/" + "";
    assert Split(".") == ["."];
    assert Split("") == [""];
  }

  /** As written, a context directory that looks hidden, `.` above all,
      is pruned at its root: nothing of the context enters the archive. */
  lemma HiddenContextPrunedAsWritten(ctx: string, root: Entry)
    requires root.Directory? && Hidden(ctx)
    ensures Walk(ctx, root, false) == Success([])
  {
    assert Rel(ctx, ctx) == Success(".");
  }

  lemma DotIsHidden()
    ensures Hidden(".")
  {
    assert TrimTrailingSeparators(".") == ".";
  }

  /** As intended, the root is always added as `.`, so the walk goes on
      below it. */
  lemma RootAdded(ctx: string, isDir: bool)
    ensures Include(ctx, ctx, isDir) == Add(".")
  {
  }

  /** As written, the context's own top-level `Dockerfile` is skipped only
      when the context directory is given in clean form; otherwise it is
      added a second time. */
  lemma TopDockerfileAsWritten(ctx: string, isDir: bool)
    ensures Clean(ctx) == ctx ==> IncludeAsWritten(ctx, Join([ctx, DockerfileName]), isDir) == Omit
    ensures Clean(ctx) != ctx ==> IncludeAsWritten(ctx, Join([ctx, DockerfileName]), isDir) == Add(DockerfileName)
  {
    var p := Join([ctx, DockerfileName]);
    BaseOfJoin(ctx, DockerfileName);
    DirOfJoin(ctx, DockerfileName);
    ParseJoinedName(ctx, DockerfileName);
    RelOfExtension(ctx, p, [DockerfileName]);
    assert !HasPrefix(DockerfileName, ".");
  }

  /** `docker/` and `./docker` are not in clean form. */
  lemma TrailingSlashUnclean()
    ensures Clean("docker/") == "docker"
  {
    CleanTrailingSlash("docker");
    assert "docker" + "/" == "docker/";
  }

  lemma LeadingDotUnclean()
    ensures Clean("./docker") == "docker"
  {
    CleanDotSlash("docker");
    assert "./" + "docker" == "./docker";
  }

  lemma CleanTrailingSlash(n: string)
    requires IsName(n)
    ensures Clean(n + "/") == n
  {
    SplitConcat(n, "");
    assert n + "/" == n + "/" + "";
    assert Split(n) == [n];
    assert Split("") == [""];
    assert [n, ""][1..] == [""];
    assert Fold([], [n, ""], false) == Fold([n], [""], false) == [n];
    assert n[0] != Separator;
  }

  lemma CleanDotSlash(n: string)
    requires IsName(n)
    ensures Clean("./" + n) == n
  {
    SplitConcat(".", n);
    assert "./" + n == "." + "/" + n;
    assert Split(".") == ["."];
    assert Split(n) == [n];
    assert [".", n][1..] == [n];
    assert Fold([], [".", n], false) == Fold([], [n], false) == [n];
  }

  /** As intended, the top-level `Dockerfile` is skipped for every context
      directory. */
  lemma TopDockerfileOmitted(ctx: string, isDir: bool)
    ensures Include(ctx, Join([ctx, DockerfileName]), isDir) == Omit
  {
    var p := Join([ctx, DockerfileName]);
    BaseOfJoin(ctx, DockerfileName);
    DirOfJoin(ctx, DockerfileName);
    ParseJoinedName(ctx, DockerfileName);
    assert |Parse(p).elems| != |Parse(ctx).elems|;
  }

  /** Every name in the tree is a plain entry name, as directory listings
      give them. */
  predicate WellNamed(e: Entry)
    decreases e
  {
    e.Directory? ==> forall i :: 0 <= i < |e.children| ==>
      IsName(e.children[i].name) && WellNamed(e.children[i])
  }

  lemma {:induction false} SeparatorInJoin(ns: seq<string>)
    requires |ns| >= 2
    ensures Separator in JoinWith(ns, "/")
  {
    assert JoinWith(ns, "/") == ns[0] + "/" + JoinWith(ns[1..], "/");
    assert JoinWith(ns, "/")[|ns[0]|] == '/';
  }

  /** Where a visited path sits: `ns` are the names leading to it from the
      context directory, its base name is the last of them, and a
      top-level entry's directory is the cleaned context directory. */
  predicate Reached(ctx: string, path: string, ns: seq<string>) {
    && AllNames(ns)
    && Parse(path) == Lexical(Parse(ctx).rooted, Parse(ctx).elems + ns)
    && (ns == [] ==> path == ctx)
    && (ns != [] ==> Base(path) == ns[|ns| - 1])
    && (|ns| == 1 ==> Dir(path) == Clean(ctx))
  }

  lemma ReachedChild(ctx: string, path: string, ns: seq<string>, name: string)
    requires Reached(ctx, path, ns) && IsName(name)
    ensures Reached(ctx, Join([path, name]), ns + [name])
  {
    var c := Join([path, name]);
    var longer := ns + [name];
    assert AllNames(longer) by {
      assert forall i :: 0 <= i < |longer| ==> longer[i] == if i < |ns| then ns[i] else name;
    }
    assert Parse(c) == Lexical(Parse(ctx).rooted, Parse(ctx).elems + longer) by {
      ParseJoinedName(path, name);
      assert Parse(ctx).elems + ns + [name] == Parse(ctx).elems + longer;
    }
    assert Base(c) == longer[|longer| - 1] by {
      BaseOfJoin(path, name);
    }
    if |longer| == 1 {
      assert ns == [];
      DirOfJoin(path, name);
    }
  }

  /** On a well-named tree the walk never aborts under either callback,
      and under the intended one the name `Dockerfile` never reaches the
      archive a second time. */
  lemma {:induction false} VisitWellNamed(ctx: string, path: string, e: Entry, ns: seq<string>, intended: bool)
    requires WellNamed(e) && Reached(ctx, path, ns)
    ensures Visit(ctx, path, e, intended).Success?
    ensures intended ==> DockerfileName !in Visit(ctx, path, e, intended).value
    decreases e, 1
  {
    DecideAt(ctx, path, ns, e.Directory?, intended);
    if e.Directory? {
      ChildrenWellNamed(ctx, path, e, 0, ns, intended);
    }
  }

  /** The callback's decision at a reached path never aborts, and the
      intended one never adds the name `Dockerfile`. */
  lemma DecideAt(ctx: string, path: string, ns: seq<string>, isDir: bool, intended: bool)
    requires Reached(ctx, path, ns)
    ensures Decide(ctx, path, isDir, intended) != Abort
    ensures intended ==> Decide(ctx, path, isDir, intended) != Add(DockerfileName)
  {
    RelOfExtension(ctx, path, ns);
    if ns != [] {
      DecideBelow(ctx, path, ns, isDir, intended);
    }
  }

  lemma DecideBelow(ctx: string, path: string, ns: seq<string>, isDir: bool, intended: bool)
    requires Reached(ctx, path, ns) && ns != []
    requires Rel(ctx, path) == Success(JoinWith(ns, "/"))
    ensures Decide(ctx, path, isDir, intended) != Abort
    ensures intended ==> Decide(ctx, path, isDir, intended) != Add(DockerfileName)
  {
    if intended {
      IncludeBelow(ctx, path, ns, isDir);
    }
  }

  lemma IncludeBelow(ctx: string, path: string, ns: seq<string>, isDir: bool)
    requires Reached(ctx, path, ns) && ns != []
    requires Rel(ctx, path) == Success(JoinWith(ns, "/"))
    ensures Include(ctx, path, isDir) != Abort && Include(ctx, path, isDir) != Add(DockerfileName)
  {
    assert path != ctx by {
      assert |Parse(path).elems| != |Parse(ctx).elems|;
    }
    if |ns| >= 2 {
      SeparatorInJoin(ns);
      assert Separator !in DockerfileName;
    } else {
      assert JoinWith(ns, "/") == ns[0];
    }
  }

  lemma {:induction false} ChildrenWellNamed(ctx: string, path: string, e: Entry, i: nat, ns: seq<string>, intended: bool)
    requires e.Directory? && i <= |e.children|
    requires WellNamed(e) && Reached(ctx, path, ns)
    ensures VisitChildren(ctx, path, e, i, intended).Success?
    ensures intended ==> DockerfileName !in VisitChildren(ctx, path, e, i, intended).value
    decreases e, 0, |e.children| - i
  {
    if i < |e.children| {
      var c := e.children[i];
      ReachedChild(ctx, path, ns, c.name);
      VisitWellNamed(ctx, Join([path, c.name]), c, ns + [c.name], intended);
      ChildrenWellNamed(ctx, path, e, i + 1, ns, intended);
    }
  }

  /** What a later child adds is part of what its directory's children
      add. */
  lemma {:induction false} ChildrenContain(ctx: string, path: string, e: Entry, j: nat, i: nat, intended: bool)
    requires e.Directory? && j <= i < |e.children|
    ensures VisitChildren(ctx, path, e, j, intended).Success? ==>
              Visit(ctx, Join([path, e.children[i].name]), e.children[i], intended).Success?
    ensures VisitChildren(ctx, path, e, j, intended).Success? ==>
              forall x :: x in Visit(ctx, Join([path, e.children[i].name]), e.children[i], intended).value ==>
                x in VisitChildren(ctx, path, e, j, intended).value
    decreases i - j
  {
    if VisitChildren(ctx, path, e, j, intended).Failure? {
      return;
    }
    var first := Visit(ctx, Join([path, e.children[j].name]), e.children[j], intended);
    var rest := VisitChildren(ctx, path, e, j + 1, intended);
    assert first.Success? && rest.Success?;
    assert VisitChildren(ctx, path, e, j, intended).value == first.value + rest.value;
    if j < i {
      ChildrenContain(ctx, path, e, j + 1, i, intended);
    }
  }

  /** The intended decision for a child entry `n` of a reached directory:
      the top-level `Dockerfile` is left out, a hidden entry is left out
      (a directory with its contents), anything else is added under its
      path relative to the context directory. */
  lemma ChildDecision(ctx: string, dir: string, ns: seq<string>, n: string, isDir: bool)
    requires Reached(ctx, dir, ns) && IsName(n)
    ensures Include(ctx, Join([dir, n]), isDir) ==
            if ns == [] && n == DockerfileName then Omit
            else if HasPrefix(n, ".") && n != DockerIgnore then (if isDir then Prune else Omit)
            else Add(JoinWith(ns + [n], "/"))
  {
    var c := Join([dir, n]);
    ReachedChild(ctx, dir, ns, n);
    assert c != ctx by {
      assert |Parse(c).elems| != |Parse(ctx).elems|;
    }
    assert Base(c) == n;
    RelOfExtension(ctx, c, ns + [n]);
    if ns != [] {
      DirOfJoin(dir, n);
      ParseClean(dir);
      ParseClean(ctx);
      assert Parse(Clean(dir)) != Parse(Clean(ctx)) by {
        assert |Parse(dir).elems| != |Parse(ctx).elems|;
      }
      assert Dir(c) != Clean(ctx);
    }
  }

  /** Every decision of the callback as written below the context root: a
      top-level `Dockerfile` is left out only when the context is given in
      clean form, hidden entries are pruned or left out, and every other
      entry is added under its slash-separated relative name. */
  lemma ChildDecisionAsWritten(ctx: string, dir: string, ns: seq<string>, n: string, isDir: bool)
    requires Reached(ctx, dir, ns) && IsName(n)
    ensures IncludeAsWritten(ctx, Join([dir, n]), isDir) ==
            if ns == [] && n == DockerfileName && Clean(ctx) == ctx then Omit
            else if HasPrefix(n, ".") && n != DockerIgnore then (if isDir then Prune else Omit)
            else Add(JoinWith(ns + [n], "/"))
  {
    var c := Join([dir, n]);
    ReachedChild(ctx, dir, ns, n);
    assert Base(c) == n;
    RelOfExtension(ctx, c, ns + [n]);
    DirOfJoin(dir, n);
    if ns != [] {
      ParseClean(dir);
      ParseClean(ctx);
      assert Parse(Clean(dir)) != Parse(Clean(ctx)) by {
        assert |Parse(dir).elems| != |Parse(ctx).elems|;
      }
      assert Dir(c) != ctx;
    }
  }

  /** A visible top-level file other than `Dockerfile` is added under its
      name by the intended walk, whatever the context directory. */
  lemma TopLevelFileAdded(ctx: string, root: Entry, i: nat)
    requires root.Directory? && WellNamed(root) && i < |root.children|
    requires root.children[i].File?
    requires var n := root.children[i].name; n != DockerfileName && !(HasPrefix(n, ".") && n != DockerIgnore)
    ensures Walk(ctx, root, true).Success? && root.children[i].name in Walk(ctx, root, true).value
  {
    var n := root.children[i].name;
    assert Reached(ctx, ctx, []);
    ChildrenWellNamed(ctx, ctx, root, 0, [], true);
    ChildrenContain(ctx, ctx, root, 0, i, true);
    ChildDecision(ctx, ctx, [], n, false);
    assert [] + [n] == [n];
    assert JoinWith([n], "/") == n;
    assert Visit(ctx, Join([ctx, n]), root.children[i], true) == Success([n]);
    RootAdded(ctx, true);
  }

  /** As written, a context directory given in unclean form that does not
      itself look hidden sends its top-level `Dockerfile` into the archive
      as a second `Dockerfile` entry. */
  lemma DockerfileDuplicatedAsWritten(ctx: string, root: Entry, i: nat)
    requires root.Directory? && WellNamed(root) && i < |root.children|
    requires root.children[i] == File(DockerfileName)
    requires Clean(ctx) != ctx && !Hidden(ctx) && Base(ctx) != DockerfileName
    ensures Walk(ctx, root, false).Success? && DockerfileName in Walk(ctx, root, false).value
  {
    assert Reached(ctx, ctx, []);
    VisitWellNamed(ctx, ctx, root, [], false);
    assert Rel(ctx, ctx) == Success(".");
    ChildrenWellNamed(ctx, ctx, root, 0, [], false);
    ChildrenContain(ctx, ctx, root, 0, i, false);
    TopDockerfileAsWritten(ctx, false);
  }

  /** Hidden entries below the root: a directory is pruned whole, a file
      left out, under either callback; `.dockerignore` is kept. */
  lemma HiddenChildLeftOut(ctx: string, dir: string, ns: seq<string>, n: string, isDir: bool, intended: bool)
    requires Reached(ctx, dir, ns) && IsName(n)
    requires HasPrefix(n, ".") && n != DockerIgnore
    ensures Decide(ctx, Join([dir, n]), isDir, intended) == if isDir then Prune else Omit
  {
    if intended {
      ChildDecision(ctx, dir, ns, n, isDir);
    } else {
      var c := Join([dir, n]);
      ReachedChild(ctx, dir, ns, n);
      assert Base(c) == n;
      assert Base(c) != DockerfileName by {
        assert n[0] == '.' && DockerfileName[0] == 'D';
      }
      RelOfExtension(ctx, c, ns + [n]);
      assert Hidden(c);
    }
  }
}
