/** The enumerated setting values shared by the configuration, the
    credential collector and the setup wizard. */
module Constants {
  const AuthAuto: string := "auto"
  const AuthSession: string := "session"
  const AuthApiKey: string := "api-key"

  const CredentialAuto: string := "auto"
  const CredentialEnabled: string := "enabled"
  const CredentialDisabled: string := "disabled"

  const SessionNone: string := "none"
  const SessionReadOnly: string := "readonly"
  const SessionReadWrite: string := "readwrite"

  const NetworkBridge: string := "bridge"
  const NetworkHost: string := "host"
  const NetworkNone: string := "none"

  const UserAuto: string := "auto"
}
