/** The start-up check of the environment: which required variables are
    unset, which optional ones only earn a warning, and reading one
    variable with a fallback. The process environment is the parameter
    `env`; a name absent from it is unset. */
module Env {
  import opened Wrappers

  const RequiredEnvVars: seq<string> :=
    ["NEXT_PUBLIC_SUPABASE_URL", "NEXT_PUBLIC_SUPABASE_ANON_KEY", "SUPABASE_SERVICE_ROLE_KEY", "FAL_KEY"]

  const OptionalEnvVars: seq<string> := ["NEXT_PUBLIC_APP_URL"]

  /** `process.env[name]` is truthy: present and not empty. */
  predicate IsSet(env: map<string, string>, name: string) {
    name in env && env[name] != ""
  }

  /** The names that are not set, in the order given. */
  function MissingVars(env: map<string, string>, names: seq<string>): (r: seq<string>)
    ensures |r| <= |names|
    ensures forall i :: 0 <= i < |r| ==> r[i] in names && !IsSet(env, r[i])
  {
    if names == [] then []
    else (if IsSet(env, names[0]) then [] else [names[0]]) + MissingVars(env, names[1..])
  }

  /** validateEnv. `missing` lists the required names that are not set;
      only when there are none are the optional names looked at, and
      `warned` lists those not set, each of which is a console warning. */
  method ValidateEnv(env: map<string, string>) returns (valid: bool, missing: seq<string>, warned: seq<string>)
    ensures missing == MissingVars(env, RequiredEnvVars)
    ensures valid <==> forall i :: 0 <= i < |RequiredEnvVars| ==> IsSet(env, RequiredEnvVars[i])
    ensures valid ==> missing == [] && warned == MissingVars(env, OptionalEnvVars)
    ensures !valid ==> warned == []
  {
    missing := [];
    var i := 0;
    while i < |RequiredEnvVars|
      invariant 0 <= i <= |RequiredEnvVars|
      invariant missing == MissingVars(env, RequiredEnvVars[..i])
    {
      var name := RequiredEnvVars[i];
      MissingAppend(env, RequiredEnvVars[..i], name);
      if !IsSet(env, name) {
        missing := missing + [name];
      }
      assert RequiredEnvVars[..i + 1] == RequiredEnvVars[..i] + [name];
      i := i + 1;
    }
    assert RequiredEnvVars[..i] == RequiredEnvVars;
    MissingEmptyIff(env, RequiredEnvVars);
    warned := [];
    if |missing| > 0 {
      return false, missing, warned;
    }
    var j := 0;
    while j < |OptionalEnvVars|
      invariant 0 <= j <= |OptionalEnvVars|
      invariant warned == MissingVars(env, OptionalEnvVars[..j])
    {
      var name := OptionalEnvVars[j];
      MissingAppend(env, OptionalEnvVars[..j], name);
      if !IsSet(env, name) {
        warned := warned + [name];
      }
      assert OptionalEnvVars[..j + 1] == OptionalEnvVars[..j] + [name];
      j := j + 1;
    }
    assert OptionalEnvVars[..j] == OptionalEnvVars;
    return true, [], warned;
  }

  /** The message getEnv throws. */
  function NotSetMessage(key: string): string {
    "Environment variable " + key + " is not set"
  }

  /** getEnv: the value when it is set, else the fallback when that is
      given and not empty, else an error. */
  function GetEnv(env: map<string, string>, key: string, fallback: Option<string>): (r: Result<string, string>)
    ensures r.Ok? ==> r.value != ""
    ensures r.Err? ==> r.error == NotSetMessage(key)
  {
    var value := if key in env then env[key] else "";
    var fallbackSet := fallback.Some? && fallback.value != "";
    if value == "" && !fallbackSet then Err(NotSetMessage(key))
    else if value != "" then Ok(value)
    else if fallbackSet then Ok(fallback.value)
    else Ok("")
  }

  // ---------------------------------------------------------------------
  // Properties of the missing list

  /** Checking one more name adds it at the end when it is not set. */
  lemma {:induction false} MissingAppend(env: map<string, string>, names: seq<string>, name: string)
    ensures MissingVars(env, names + [name])
      == MissingVars(env, names) + (if IsSet(env, name) then [] else [name])
  {
    if names != [] {
      assert (names + [name])[1..] == names[1..] + [name];
      MissingAppend(env, names[1..], name);
    }
  }

  /** A name is missing exactly when it is one of the names and not set. */
  lemma {:induction false} MissingIff(env: map<string, string>, names: seq<string>, name: string)
    ensures name in MissingVars(env, names) <==> name in names && !IsSet(env, name)
  {
    if names != [] {
      MissingIff(env, names[1..], name);
      assert names == [names[0]] + names[1..];
    }
  }

  /** Nothing is missing exactly when every name is set. */
  lemma {:induction false} MissingEmptyIff(env: map<string, string>, names: seq<string>)
    ensures MissingVars(env, names) == [] <==> forall i :: 0 <= i < |names| ==> IsSet(env, names[i])
  {
    if names != [] {
      MissingEmptyIff(env, names[1..]);
      assert forall i :: 1 <= i < |names| ==> names[i] == names[1..][i - 1];
    }
  }

  /** Setting or clearing a variable that is not checked changes nothing:
      the optional variables never decide whether the environment is
      valid. */
  lemma {:induction false} OtherVariablesDoNotMatter(env: map<string, string>, names: seq<string>, key: string, v: string)
    requires key !in names
    ensures MissingVars(env[key := v], names) == MissingVars(env, names)
    ensures MissingVars(env - {key}, names) == MissingVars(env, names)
  {
    if names != [] {
      OtherVariablesDoNotMatter(env, names[1..], key, v);
    }
  }

  /** In particular an optional variable, set or not, leaves the missing
      list and so the verdict as they are. */
  lemma OptionalNeverDecides(env: map<string, string>, key: string, v: string)
    requires key in OptionalEnvVars
    ensures MissingVars(env[key := v], RequiredEnvVars) == MissingVars(env, RequiredEnvVars)
    ensures MissingVars(env - {key}, RequiredEnvVars) == MissingVars(env, RequiredEnvVars)
  {
    OtherVariablesDoNotMatter(env, RequiredEnvVars, key, v);
  }

  // ---------------------------------------------------------------------
  // Properties of getEnv

  /** getEnv fails exactly when neither the variable nor the fallback is a
      non-empty string; otherwise the variable wins over the fallback, and
      the answer is never empty. */
  lemma GetEnvOutcomes(env: map<string, string>, key: string, fallback: Option<string>)
    ensures GetEnv(env, key, fallback).Err? <==> !IsSet(env, key) && (fallback.None? || fallback.value == "")
    ensures GetEnv(env, key, fallback).Err? ==> GetEnv(env, key, fallback).error == NotSetMessage(key)
    ensures IsSet(env, key) ==> GetEnv(env, key, fallback) == Ok(env[key])
    ensures !IsSet(env, key) && fallback.Some? && fallback.value != "" ==> GetEnv(env, key, fallback) == Ok(fallback.value)
    ensures GetEnv(env, key, fallback).Ok? ==> GetEnv(env, key, fallback).value != ""
  {
  }
}
