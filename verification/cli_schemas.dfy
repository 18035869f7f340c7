/** The secrets response and project configuration the CLI validates. */
module CliSchemas {
  import opened Wrappers

  datatype SecretType = Text | Password | Token

  /** A secret as the CLI receives it: `key`, `value` and one of three types. */
  datatype Secret = Secret(key: string, value: string, secretType: SecretType)

  datatype SecretsResponse = SecretsResponse(secrets: seq<Secret>)

  /** `picovault.json`: exactly three optional fields. */
  datatype PicoVaultConfig = PicoVaultConfig(
    defaultInstance: Option<string>,
    projectId: Option<string>,
    organisationSlug: Option<string>)

  /**
   * A command-line option as the commands' option schemas see it: not given,
   * given with the expected type, or given with another type (rejected).
   */
  datatype OptionArg<T> = Unset | Given(value: T) | Mistyped

  /** The wire name of a secret type, as the `type` field carries it. */
  function TypeName(t: SecretType): (r: string)
    ensures r in {"text", "password", "token"}
  {
    match t
    case Text => "text"
    case Password => "password"
    case Token => "token"
  }

  /** The enum check: only the three names parse, each back to its own type. */
  function ParseType(name: string): (r: Option<SecretType>)
    ensures r.Some? <==> name in {"text", "password", "token"}
    ensures r.Some? ==> TypeName(r.value) == name
  {
    if name == "text" then Some(Text)
    else if name == "password" then Some(Password)
    else if name == "token" then Some(Token)
    else None
  }

  lemma TypeNameRoundTrip(t: SecretType)
    ensures ParseType(TypeName(t)) == Some(t)
  {
  }

  /** A configuration is valid when `defaultInstance`, if present, is a URL. */
  predicate ValidConfig(c: PicoVaultConfig, isUrl: string -> bool) {
    c.defaultInstance.Some? ==> isUrl(c.defaultInstance.value)
  }

  function EmptyConfig(): (c: PicoVaultConfig)
    ensures forall isUrl: string -> bool :: ValidConfig(c, isUrl)
  {
    PicoVaultConfig(None, None, None)
  }
}
