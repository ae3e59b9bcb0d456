/** `Config`: the client's immutable settings and the one check its constructor makes. */
module Config {
  import opened Wrappers

  const DefaultBaseUrl := "https://api.cerebras.ai"
  const DefaultTimeoutSeconds := 60
  const DefaultConnectTimeoutSeconds := 10
  const EmptyKeyMessage := "API key must not be empty."

  /** The readonly promoted constructor properties; a datatype value never changes once built. */
  datatype Config = Config(
    apiKey: string,
    baseUrl: string,
    organization: Option<string>,
    timeoutSeconds: int,
    connectTimeoutSeconds: int)

  datatype ConfigError = InvalidArgument(message: string)

  /** The class invariant: a constructed configuration never has an empty API key. */
  predicate Valid(c: Config) {
    c.apiKey != ""
  }

  /**
   * `new Config(...)`: an empty API key throws `InvalidArgumentException`;
   * any other key gives a configuration holding exactly the arguments.
   */
  function NewConfig(apiKey: string, baseUrl: string, organization: Option<string>,
                     timeoutSeconds: int, connectTimeoutSeconds: int): (r: Result<Config, ConfigError>)
    ensures r.Ok? <==> apiKey != ""
    ensures r.Err? ==> r.error == InvalidArgument(EmptyKeyMessage)
    ensures r.Ok? ==> Valid(r.value)
    ensures r.Ok? ==> r.value.apiKey == apiKey && r.value.baseUrl == baseUrl && r.value.organization == organization
    ensures r.Ok? ==> r.value.timeoutSeconds == timeoutSeconds && r.value.connectTimeoutSeconds == connectTimeoutSeconds
  {
    if apiKey == "" then Err(InvalidArgument(EmptyKeyMessage))
    else Ok(Config(apiKey, baseUrl, organization, timeoutSeconds, connectTimeoutSeconds))
  }

  /** `new Config($apiKey)`, every other argument left at its default. */
  function DefaultConfig(apiKey: string): (r: Result<Config, ConfigError>)
    ensures r.Ok? <==> apiKey != ""
    ensures r.Ok? ==> r.value == Config(apiKey, DefaultBaseUrl, None, DefaultTimeoutSeconds, DefaultConnectTimeoutSeconds)
  {
    NewConfig(apiKey, DefaultBaseUrl, None, DefaultTimeoutSeconds, DefaultConnectTimeoutSeconds)
  }

  /** The two construction tests: `new Config('')` throws and `new Config('test-key')` succeeds. */
  lemma ConstructionExamples()
    ensures DefaultConfig("") == Err(InvalidArgument(EmptyKeyMessage))
    ensures DefaultConfig("test-key").Ok?
  {
  }
}
