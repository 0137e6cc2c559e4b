/** Database client configuration (lib/supabase.ts): the URL and the
    anonymous key come from an explicit configuration or from the first
    non-blank environment variable in a fixed priority order, and clients
    built from the environment alone are created once and then shared. */
module ClientConfig {
  import opened Basics
  import opened Text

  /** The process environment; every present variable holds a string. */
  type Env = map<string, string>

  const UrlEnvPriority: seq<string> := ["SUPABASE_URL", "NEXT_PUBLIC_SUPABASE_URL", "DEFAULT_SUPABASE_URL"]
  const KeyEnvPriority: seq<string> :=
    ["SUPABASE_ANON_KEY", "NEXT_PUBLIC_SUPABASE_ANON_KEY", "DEFAULT_SUPABASE_ANON_KEY"]

  /** A variable's trimmed value, when it is set and not blank. */
  function EnvValue(env: Env, key: string): (r: Option<string>)
    ensures r.Some? <==> key in env && !IsBlank(env[key])
    ensures r.Some? ==> r.value == Trim(env[key]) && |r.value| > 0
  {
    if key in env && |Trim(env[key])| > 0 then Some(Trim(env[key])) else None
  }

  /** `getFirstEnvValue`: the trimmed value of the first variable, in
      priority order, that is set and not blank. */
  function GetFirstEnvValue(env: Env, keys: seq<string>): (r: Option<string>)
    ensures r.None? <==> forall i :: 0 <= i < |keys| ==> keys[i] !in env || IsBlank(env[keys[i]])
    ensures r.Some? ==> exists i :: 0 <= i < |keys| && keys[i] in env && r.value == Trim(env[keys[i]])
                                    && !IsBlank(env[keys[i]])
                                    && forall j :: 0 <= j < i ==> keys[j] !in env || IsBlank(env[keys[j]])
  {
    var r := FirstSome(keys, k => EnvValue(env, k));
    assert r.Some? ==> exists i :: 0 <= i < |keys| && EnvValue(env, keys[i]) == r
                                   && forall j :: 0 <= j < i ==> EnvValue(env, keys[j]).None?;
    r
  }

  /** A value from the environment is non-empty and has nothing left to
      trim. */
  lemma EnvValueIsTrimmed(env: Env, keys: seq<string>)
    ensures var r := GetFirstEnvValue(env, keys);
            r.Some? ==> |r.value| > 0 && Trim(r.value) == r.value
  {
    var r := GetFirstEnvValue(env, keys);
    if r.Some? {
      var i :| 0 <= i < |keys| && keys[i] in env && r.value == Trim(env[keys[i]]) && !IsBlank(env[keys[i]]);
      TrimIdempotent(env[keys[i]]);
    }
  }

  /** The optional `{ url, anonKey }` argument; a missing argument is both
      fields absent. */
  datatype ConfigInput = ConfigInput(url: Option<string>, anonKey: Option<string>)

  const NoConfig := ConfigInput(None, None)

  datatype Resolved = Resolved(url: string, anonKey: string)

  /** A field is truthy when it is present and non-empty. */
  predicate Given(x: Option<string>)
  {
    x.Some? && |x.value| > 0
  }

  /** `resolveConfig`. Both fields given: taken verbatim. Otherwise each
      field is the explicit value when present (even empty) and the
      environment's otherwise; the result fails when either is missing or
      empty. */
  function ResolveConfig(config: ConfigInput, env: Env): (r: Option<Resolved>)
    ensures Given(config.url) && Given(config.anonKey) ==> r == Some(Resolved(config.url.value, config.anonKey.value))
    ensures config.url.Some? ==> (r.Some? ==> r.value.url == config.url.value)
    ensures config.url.None? ==> (r.Some? ==> Some(r.value.url) == GetFirstEnvValue(env, UrlEnvPriority))
    ensures config.anonKey.Some? ==> (r.Some? ==> r.value.anonKey == config.anonKey.value)
    ensures config.anonKey.None? ==> (r.Some? ==> Some(r.value.anonKey) == GetFirstEnvValue(env, KeyEnvPriority))
    ensures r.Some? ==> |r.value.url| > 0 && |r.value.anonKey| > 0
  {
    if Given(config.url) && Given(config.anonKey) then Some(Resolved(config.url.value, config.anonKey.value))
    else
      var url := config.url.OrElse(GetFirstEnvValue(env, UrlEnvPriority));
      var anonKey := config.anonKey.OrElse(GetFirstEnvValue(env, KeyEnvPriority));
      if !Given(url) || !Given(anonKey) then None
      else Some(Resolved(url.value, anonKey.value))
  }

  /** The resolution fails exactly when one field, after falling back to
      the environment, is missing or empty; in particular an explicit
      empty string is never replaced by the environment's value. */
  lemma ResolveFailsExactly(config: ConfigInput, env: Env)
    ensures ResolveConfig(config, env).None? <==>
              !Given(config.url.OrElse(GetFirstEnvValue(env, UrlEnvPriority)))
              || !Given(config.anonKey.OrElse(GetFirstEnvValue(env, KeyEnvPriority)))
    ensures config.url == Some("") || config.anonKey == Some("") ==> ResolveConfig(config, env).None?
  {
  }

  /** The shortcut for two given fields changes nothing: the general path
      would resolve them the same way. */
  lemma ShortcutAgreesWithGeneralPath(config: ConfigInput, env: Env)
    requires Given(config.url) && Given(config.anonKey)
    ensures var url := config.url.OrElse(GetFirstEnvValue(env, UrlEnvPriority));
            var anonKey := config.anonKey.OrElse(GetFirstEnvValue(env, KeyEnvPriority));
            Given(url) && Given(anonKey)
            && ResolveConfig(config, env) == Some(Resolved(url.value, anonKey.value))
  {
  }

  /** A client made by `createClient`; `serial` tells apart clients made by
      different calls. */
  datatype Client = Client(serial: nat, url: string, anonKey: string)

  /** The module's cache and the number of clients made so far. */
  datatype Cache = Cache(cached: Option<Client>, made: nat)

  /** Every cached client was made earlier. */
  predicate Valid(c: Cache)
  {
    c.cached.Some? ==> c.cached.value.serial < c.made
  }

  /** `getSupabaseClient`: the client returned and the cache afterwards. */
  function GetClient(c: Cache, config: ConfigInput, env: Env): (r: (Option<Client>, Cache))
    ensures ResolveConfig(config, env).None? ==> r == (None, c)
    ensures ResolveConfig(config, env).Some? && (Given(config.url) || Given(config.anonKey)) ==>
              r.0 == Some(Client(c.made, ResolveConfig(config, env).value.url, ResolveConfig(config, env).value.anonKey))
              && r.1 == Cache(c.cached, c.made + 1)
    ensures ResolveConfig(config, env).Some? && !Given(config.url) && !Given(config.anonKey) ==>
              r.0.Some? && r.1.cached == r.0 && (c.cached.Some? ==> r == (c.cached, c))
    ensures ResolveConfig(config, env).Some? && !Given(config.url) && !Given(config.anonKey) && c.cached.None? ==>
              r.0 == Some(Client(c.made, ResolveConfig(config, env).value.url, ResolveConfig(config, env).value.anonKey))
              && r.1.made == c.made + 1
    ensures Valid(c) ==> Valid(r.1)
  {
    match ResolveConfig(config, env)
    case None => (None, c)
    case Some(res) =>
      if Given(config.url) || Given(config.anonKey) then
        (Some(Client(c.made, res.url, res.anonKey)), c.(made := c.made + 1))
      else if c.cached.None? then
        var client := Client(c.made, res.url, res.anonKey);
        (Some(client), Cache(Some(client), c.made + 1))
      else (c.cached, c)
  }

  /** The shared client is reached only without any explicit field. */
  lemma CachePathNeedsNoConfig(c: Cache, config: ConfigInput, env: Env)
    requires ResolveConfig(config, env).Some? && !Given(config.url) && !Given(config.anonKey)
    ensures config == NoConfig
  {
  }

  /** Explicit configuration gives a client no earlier call returned, and
      leaves the shared client alone. */
  lemma ExplicitGivesFreshClient(c: Cache, config: ConfigInput, env: Env)
    requires Valid(c) && config != NoConfig
    ensures var (client, c') := GetClient(c, config, env);
            c'.cached == c.cached
            && (client.Some? ==> client.value.serial == c.made && client != c.cached)
  {
  }

  /** Once made, the shared client is returned by every later call without
      explicit configuration that resolves at all, even when the
      environment has changed in between. */
  lemma SharedClientIsReused(c: Cache, env1: Env, env2: Env)
    requires ResolveConfig(NoConfig, env1).Some? && ResolveConfig(NoConfig, env2).Some?
    ensures var (first, c1) := GetClient(c, NoConfig, env1);
            GetClient(c1, NoConfig, env2) == (first, c1)
  {
  }
}
