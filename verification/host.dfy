/** What the host tells the program: home and working directory, the
    process environment, `os.Stat` and `filepath.EvalSymlinks`, and the
    process's user and group ids. Every query the rest of the model makes
    goes through a `Host` value passed in explicitly. */
module Host {
  import opened Results

  /** The outcome of `os.Stat`: found (a directory or not), a not-exist
      error, or any other error. */
  datatype StatResult = Found(isDir: bool) | NotFound | StatFailed

  /** The outcome of `filepath.EvalSymlinks`: the resolved path, a
      not-exist error, or any other error. */
  datatype Resolution = Resolved(path: string) | Dangling | ResolveFailed

  /** `home` is `None` when `os.UserHomeDir` fails and `cwd` is `None` when
      `os.Getwd` fails; `env` holds exactly the variables that are set, so
      a variable set to the empty string is kept apart from an unset one. */
  datatype Host = Host(
    home: Option<string>,
    cwd: Option<string>,
    env: map<string, string>,
    stat: string -> StatResult,
    evalSymlinks: string -> Resolution,
    uid: nat,
    gid: nat)

  /** `os.Getenv`: the empty string for an unset variable. */
  function Getenv(h: Host, name: string): (v: string)
    ensures name !in h.env ==> v == ""
  {
    if name in h.env then h.env[name] else ""
  }

  /** `os.LookupEnv`: unset and set-but-empty are distinct. */
  function LookupEnv(h: Host, name: string): (v: Option<string>)
    ensures v.Some? <==> name in h.env
  {
    if name in h.env then Some(h.env[name]) else None
  }

  /** `pathExists`: the path can be stat'ed and is a directory exactly
      when one is expected. */
  predicate PathExists(h: Host, path: string, expectDir: bool) {
    h.stat(path).Found? && h.stat(path).isDir == expectDir
  }

  predicate FileExists(h: Host, path: string) {
    PathExists(h, path, false)
  }

  predicate DirExists(h: Host, path: string) {
    PathExists(h, path, true)
  }

  /** A file is never a directory, neither exists when `os.Stat` fails,
      and a path that stats successfully is one of the two. */
  lemma ExistsExclusive(h: Host, path: string)
    ensures !(FileExists(h, path) && DirExists(h, path))
    ensures !h.stat(path).Found? ==> !FileExists(h, path) && !DirExists(h, path)
    ensures h.stat(path).Found? ==> FileExists(h, path) || DirExists(h, path)
  {
  }

  /** `Getenv` and `LookupEnv` agree on every set variable, and `Getenv`
      alone cannot tell unset from set-but-empty. */
  lemma GetenvLookupEnv(h: Host, name: string)
    ensures LookupEnv(h, name).Some? ==> Getenv(h, name) == LookupEnv(h, name).value
    ensures Getenv(h, name) == "" <==> LookupEnv(h, name) == None || LookupEnv(h, name) == Some("")
  {
  }
}
