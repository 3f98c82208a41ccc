/** Which runner profile may record a result for which staging gate. */
module Profiles {
  import opened Common
  import opened Strings
  import opened Permutations

  const RELEASE := "P37"

  const GATES: seq<string> :=
    ["otlp-local", "postgres-rls", "postgres-dr", "redis-distributed", "registry-upstream",
     "live-providers", "protocol-adapters", "archive-history", "dependency-gates"]

  /** The profiles that make up a production execution, each run on its own machine. */
  const PRODUCTION: seq<string> :=
    ["local", "postgres-rls", "postgres-dr", "redis", "registry", "providers", "protocol", "history", "dependencies"]

  /** `PROFILE_GATES`; an unknown profile has no gates. */
  function GatesOf(profile: string): seq<string> {
    if profile == "local" then ["otlp-local", "dependency-gates"]
    else if profile == "postgres-rls" then ["postgres-rls"]
    else if profile == "postgres-dr" then ["postgres-dr"]
    else if profile == "redis" then ["redis-distributed"]
    else if profile == "registry" then ["registry-upstream"]
    else if profile == "providers" then ["live-providers"]
    else if profile == "protocol" then ["protocol-adapters"]
    else if profile == "history" then ["archive-history"]
    else if profile == "dependencies" then ["dependency-gates"]
    else if profile == "full" then GATES
    else []
  }

  /** `GATE_SPECS[gate]["prerequisites"]` */
  function Prerequisites(gate: string): seq<string> {
    if gate == "postgres-rls" then
      ["RIVEXIS_RLS_ADMIN_DATABASE_URL", "RIVEXIS_RLS_APP_DATABASE_URL", "RIVEXIS_RLS_WORKER_DATABASE_URL"]
    else if gate == "postgres-dr" then
      ["RIVEXIS_BACKUP_SOURCE_DATABASE_URL", "RIVEXIS_BACKUP_RESTORE_DATABASE_URL", "RIVEXIS_BACKUP_RESTORE_ALLOW_APPLY"]
    else if gate == "redis-distributed" then ["REDIS_URL"]
    else if gate == "registry-upstream" then ["RIVEXIS_CERTIFY_REGISTRY_UPSTREAM"]
    else if gate == "live-providers" then ["RIVEXIS_CERTIFY_LIVE_PROVIDERS"]
    else if gate == "protocol-adapters" then
      ["RIVEXIS_CERT_AAVE_ASSET", "RIVEXIS_CERT_COMPOUND_ASSET", "RIVEXIS_CERT_MORPHO_MARKET_ID"]
    else if gate == "archive-history" then ["RIVEXIS_CERT_HISTORY_ADAPTER"]
    else []
  }

  predicate IsDestructive(gate: string) { gate == "postgres-dr" }

  predicate IsProfile(profile: string) { GatesOf(profile) != [] }

  /** `normalize_profile`; `None` stands for its `ValueError`. */
  function NormalizeProfile(value: string): Option<string> {
    var profile := Lower(Strip(if value == "" then "local" else value));
    if IsProfile(profile) then Some(profile) else None
  }

  /** `profile_allows` for a profile that is already normalized. */
  predicate Allows(profile: string, gate: string) { gate in GatesOf(profile) }

  lemma {:induction false} LowerIsFixed(s: string)
    ensures Lower(Lower(s)) == Lower(s)
  {
    if s != "" {
      LowerIsFixed(s[1..]);
      assert Lower(s)[1..] == Lower(s[1..]);
    }
  }

  lemma {:induction false} LowerAt(s: string, i: nat)
    requires i < |s|
    ensures Lower(s)[i] == LowerChar(s[i])
  {
    if i > 0 {
      LowerAt(s[1..], i - 1);
    }
  }

  lemma LowerKeepsStripped(s: string)
    requires Stripped(s)
    ensures Stripped(Lower(s))
  {
    if s != "" {
      LowerAt(s, 0);
      LowerAt(s, |s| - 1);
    }
  }

  /** Normalizing twice changes nothing. */
  lemma NormalizeIsIdempotent(value: string)
    requires NormalizeProfile(value).Some?
    ensures NormalizeProfile(NormalizeProfile(value).value) == NormalizeProfile(value)
  {
    var text := if value == "" then "local" else value;
    var profile := NormalizeProfile(value).value;
    StripStrips(text);
    LowerKeepsStripped(Strip(text));
    StrippedIsFixed(profile);
    LowerIsFixed(Strip(text));
  }

  /** No capital letter and no blank at either end. */
  predicate Plain(s: string) {
    Stripped(s) && forall i :: 0 <= i < |s| ==> LowerChar(s[i]) == s[i]
  }

  lemma {:induction false} LowerOfPlain(s: string)
    requires forall i :: 0 <= i < |s| ==> LowerChar(s[i]) == s[i]
    ensures Lower(s) == s
  {
    if s != "" {
      LowerOfPlain(s[1..]);
    }
  }

  lemma PlainIsNormalized(s: string)
    requires Plain(s) && IsProfile(s) && s != ""
    ensures NormalizeProfile(s) == Some(s)
  {
    LowerOfPlain(s);
    StrippedIsFixed(s);
  }

  lemma ProductionIsPlain(i: nat)
    requires i < |PRODUCTION|
    ensures Plain(PRODUCTION[i]) && IsProfile(PRODUCTION[i]) && PRODUCTION[i] != ""
  {
  }

  lemma ProductionIsNormalized(i: nat)
    requires i < |PRODUCTION|
    ensures NormalizeProfile(PRODUCTION[i]) == Some(PRODUCTION[i])
  {
    ProductionIsPlain(i);
    PlainIsNormalized(PRODUCTION[i]);
  }

  lemma ConstantsAreDistinct()
    ensures Distinct(PRODUCTION) && Distinct(GATES)
  {
  }

  /** Every gate is recorded by some production profile. */
  lemma ProductionCoversGates(gate: string)
    ensures (exists p :: p in PRODUCTION && gate in GatesOf(p)) <==> gate in GATES
  {
    if gate in GATES {
      var p := if gate == "otlp-local" then "local" else if gate == "postgres-rls" then "postgres-rls"
        else if gate == "postgres-dr" then "postgres-dr" else if gate == "redis-distributed" then "redis"
        else if gate == "registry-upstream" then "registry" else if gate == "live-providers" then "providers"
        else if gate == "protocol-adapters" then "protocol" else if gate == "archive-history" then "history"
        else "dependencies";
      assert p in PRODUCTION && gate in GatesOf(p);
    }
  }
}
