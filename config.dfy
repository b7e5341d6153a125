/** internal/config: where the TinyPNG API key comes from. */
module Config {
  import opened Wrappers

  /** The environment variable consulted when the `--api-key` flag is empty. */
  const EnvKeyName: string := "TINYPNG_API_KEY"

  /** os.Getenv: the variable's value, or "" when it is not set. */
  function Getenv(environ: map<string, string>, name: string): (r: string)
    ensures r != "" ==> name in environ
  {
    if name in environ then environ[name] else ""
  }

  /** Setting a variable is seen by os.Getenv for that name, and by no other. */
  lemma GetenvAfterSetenv(environ: map<string, string>, name: string, value: string, other: string)
    ensures Getenv(environ[name := value], name) == value
    ensures other != name ==> Getenv(environ[name := value], other) == Getenv(environ, other)
  {
  }

  /** GetAPIKey: the flag value `apiKey` (the package variable `APIKey`) when it
      is non-empty, otherwise TINYPNG_API_KEY from the environment; with both
      empty the source panics, which is `Failure(ApiKeyNotSet)` here.  The
      function only reads its inputs, so `APIKey` is left as it was. */
  function GetAPIKey(apiKey: string, environ: map<string, string>): (r: Result<string, Error>)
    ensures r.Success? <==> apiKey != "" || Getenv(environ, EnvKeyName) != ""
    ensures r.Success? ==> r.value != ""
    ensures r.Success? ==> r.value == apiKey || r.value == Getenv(environ, EnvKeyName)
    ensures apiKey != "" ==> r == Success(apiKey)
    ensures r.Failure? ==> r.error == ApiKeyNotSet
  {
    if apiKey != "" then Success(apiKey)
    else
      var key := Getenv(environ, EnvKeyName);
      if key != "" then Success(key)
      else Failure(ApiKeyNotSet)
  }

  /** The environment is consulted only when the flag is empty, and then only
      for TINYPNG_API_KEY: the key wins over the environment and no other
      variable matters. */
  lemma EnvironmentOnlyBacksUpFlag(apiKey: string, e1: map<string, string>, e2: map<string, string>)
    requires apiKey != "" || Getenv(e1, EnvKeyName) == Getenv(e2, EnvKeyName)
    ensures GetAPIKey(apiKey, e1) == GetAPIKey(apiKey, e2)
  {
  }

  /** With an empty flag the environment's key is the result. */
  lemma EnvironmentKeyUsed(environ: map<string, string>)
    requires EnvKeyName in environ && environ[EnvKeyName] != ""
    ensures GetAPIKey("", environ) == Success(environ[EnvKeyName])
  {
  }
}
