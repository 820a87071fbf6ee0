/** The request records handed from the command layer to the container
    runner. */
module ContainerTypes {
  /** A bind mount: host path, sandbox path, and whether it is read-only. */
  datatype Mount = Mount(source: string, target: string, readOnly: bool)

  /** Security switches for one session. `caCerts` lists host paths of
      extra CA certificates; the runner reads it although the Go record
      declaration omits the field. */
  datatype SecurityOptions = SecurityOptions(
    dropCapabilities: bool,
    noNewPrivileges: bool,
    readOnlyRoot: bool,
    caCerts: seq<string>)

  datatype RunOptions = RunOptions(
    image: string,
    mounts: seq<Mount>,
    environment: map<string, string>,
    claudeArgs: seq<string>,
    workDir: string,
    user: string,
    memoryLimit: string,
    network: string,
    security: SecurityOptions)

  datatype BuildOptions = BuildOptions(
    dockerfile: string,
    contextDir: string,
    tag: string,
    noCache: bool,
    platform: string)
}
