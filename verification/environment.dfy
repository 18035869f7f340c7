/** Turning fetched secrets into environment variables for the child process. */
module Environment {
  import opened Text
  import opened CliSchemas

  /** A character allowed in a sanitised variable name: [A-Z0-9_]. */
  predicate IsEnvChar(c: char) {
    IsAsciiUpper(c) || IsDigit(c) || c == '_'
  }

  /** Names of the form [A-Z_][A-Z0-9_]*, which sanitising leaves alone. */
  predicate IsCanonicalKey(k: string) {
    && (forall i :: 0 <= i < |k| ==> IsEnvChar(k[i]))
    && (|k| > 0 ==> !IsDigit(k[0]))
  }

  /** `replace(/[^A-Z0-9_]/g, "_")`. */
  function ReplaceInvalid(s: string): (r: string)
    ensures |r| == |s|
    ensures forall i :: 0 <= i < |r| ==> IsEnvChar(r[i])
    ensures forall i :: 0 <= i < |s| && IsEnvChar(s[i]) ==> r[i] == s[i]
    ensures forall i :: 0 <= i < |s| && !IsEnvChar(s[i]) ==> r[i] == '_'
    ensures r == s <==> forall i :: 0 <= i < |s| ==> IsEnvChar(s[i])
  {
    seq(|s|, i requires 0 <= i < |s| => if IsEnvChar(s[i]) then s[i] else '_')
  }

  /** `sanitiseEnvKey`: upper-case, replace invalid characters, prefix '_' before a leading digit. */
  function SanitiseEnvKey(key: string): (r: string)
    ensures forall i :: 0 <= i < |r| ==> IsEnvChar(r[i])
    ensures |r| > 0 ==> !IsDigit(r[0])
    ensures |r| == |key| || |r| == |key| + 1
    ensures |r| == |key| + 1 <==> |key| > 0 && IsDigit(key[0])
  {
    var s := ReplaceInvalid(UpperCase(key));
    if |s| > 0 && IsDigit(s[0]) then "_" + s else s
  }

  /** Sanitising leaves a canonical name unchanged. */
  lemma CanonicalUnchanged(k: string)
    requires IsCanonicalKey(k)
    ensures SanitiseEnvKey(k) == k
  {
    var s := ReplaceInvalid(UpperCase(k));
    assert s == k;
  }

  /** Sanitising is idempotent. */
  lemma SanitiseIdempotent(k: string)
    ensures SanitiseEnvKey(SanitiseEnvKey(k)) == SanitiseEnvKey(k)
  {
    CanonicalUnchanged(SanitiseEnvKey(k));
  }

  /** A name is a fixed point of sanitising exactly when it is canonical. */
  lemma FixedPointIffCanonical(k: string)
    ensures SanitiseEnvKey(k) == k <==> IsCanonicalKey(k)
  {
    if IsCanonicalKey(k) {
      CanonicalUnchanged(k);
    }
  }

  /** Keys valid for the web form ([a-zA-Z0-9_]+) keep their length unless they start with a digit. */
  lemma SanitiseExamples()
    ensures SanitiseEnvKey("database_url") == "DATABASE_URL"
    ensures SanitiseEnvKey("api-key") == "API_KEY"
    ensures SanitiseEnvKey("1password") == "_1PASSWORD"
  {
    SanitiseDatabaseUrl();
    SanitiseApiKey();
    SanitisePassword();
  }

  lemma SanitiseDatabaseUrl()
    ensures SanitiseEnvKey("database_url") == "DATABASE_URL"
  {
    assert UpperCase("database_url") == "DATABASE_URL";
    assert IsCanonicalKey("DATABASE_URL");
    CanonicalUnchanged("DATABASE_URL");
  }

  lemma SanitiseApiKey()
    ensures SanitiseEnvKey("api-key") == "API_KEY"
  {
    assert UpperCase("api-key") == "API-KEY";
    var r := ReplaceInvalid("API-KEY");
    assert !IsEnvChar("API-KEY"[3]);
    assert forall i :: 0 <= i < 7 && i != 3 ==> IsEnvChar("API-KEY"[i]);
    assert r == "API_KEY";
  }

  lemma SanitisePassword()
    ensures SanitiseEnvKey("1password") == "_1PASSWORD"
  {
    assert UpperCase("1password") == "1PASSWORD";
    assert forall i :: 0 <= i < 9 ==> IsEnvChar("1PASSWORD"[i]);
    assert ReplaceInvalid("1PASSWORD") == "1PASSWORD";
  }

  /** The sanitised names of a list of secrets. */
  function SanitisedKeys(secrets: seq<Secret>): set<string> {
    set i | 0 <= i < |secrets| :: SanitiseEnvKey(secrets[i].key)
  }

  /** The secret at `i` is the last one whose key sanitises to the same name. */
  predicate LastWithName(secrets: seq<Secret>, i: int)
    requires 0 <= i < |secrets|
  {
    forall j :: i < j < |secrets| ==> SanitiseEnvKey(secrets[j].key) != SanitiseEnvKey(secrets[i].key)
  }

  /** Reference definition: assign the secrets one after the other, left to right. */
  function Inject(base: map<string, string>, secrets: seq<Secret>): map<string, string>
    decreases |secrets|
  {
    if |secrets| == 0 then base
    else
      var last := secrets[|secrets| - 1];
      Inject(base, secrets[..|secrets| - 1])[SanitiseEnvKey(last.key) := last.value]
  }

  lemma SanitisedKeysSnoc(secrets: seq<Secret>)
    requires |secrets| > 0
    ensures SanitisedKeys(secrets) ==
      SanitisedKeys(secrets[..|secrets| - 1]) + {SanitiseEnvKey(secrets[|secrets| - 1].key)}
  {
    var init := secrets[..|secrets| - 1];
    assert forall i :: 0 <= i < |init| ==> init[i] == secrets[i];
  }

  /** The variables defined are the base ones plus one per distinct sanitised name. */
  lemma {:induction false} InjectKeys(base: map<string, string>, secrets: seq<Secret>)
    ensures Inject(base, secrets).Keys == base.Keys + SanitisedKeys(secrets)
    decreases |secrets|
  {
    if |secrets| > 0 {
      InjectKeys(base, secrets[..|secrets| - 1]);
      SanitisedKeysSnoc(secrets);
    }
  }

  /** A base variable no secret maps onto keeps its value. */
  lemma {:induction false} InjectKeepsBase(base: map<string, string>, secrets: seq<Secret>, k: string)
    requires k in base && k !in SanitisedKeys(secrets)
    ensures k in Inject(base, secrets) && Inject(base, secrets)[k] == base[k]
    decreases |secrets|
  {
    if |secrets| > 0 {
      SanitisedKeysSnoc(secrets);
      InjectKeepsBase(base, secrets[..|secrets| - 1], k);
    }
  }

  /** When several secrets sanitise to the same name, the last one wins. */
  lemma {:induction false} InjectLastWins(base: map<string, string>, secrets: seq<Secret>, i: int)
    requires 0 <= i < |secrets| && LastWithName(secrets, i)
    ensures SanitiseEnvKey(secrets[i].key) in Inject(base, secrets)
    ensures Inject(base, secrets)[SanitiseEnvKey(secrets[i].key)] == secrets[i].value
    decreases |secrets|
  {
    var init := secrets[..|secrets| - 1];
    if i < |secrets| - 1 {
      assert init[i] == secrets[i];
      assert LastWithName(init, i) by {
        forall j | i < j < |init|
          ensures SanitiseEnvKey(init[j].key) != SanitiseEnvKey(init[i].key)
        {
          assert init[j] == secrets[j];
        }
      }
      InjectLastWins(base, init, i);
    }
  }

  /**
   * `prepareEnvironment`: copy the base environment and set each secret's
   * sanitised name to its value, later secrets overwriting earlier ones.
   */
  method PrepareEnvironment(base: map<string, string>, secrets: seq<Secret>) returns (env: map<string, string>)
    ensures env == Inject(base, secrets)
    ensures env.Keys == base.Keys + SanitisedKeys(secrets)
    ensures forall k :: k in base && k !in SanitisedKeys(secrets) ==> env[k] == base[k]
    ensures forall i :: 0 <= i < |secrets| && LastWithName(secrets, i) ==>
      env[SanitiseEnvKey(secrets[i].key)] == secrets[i].value
  {
    env := base;
    var n := 0;
    while n < |secrets|
      invariant n <= |secrets|
      invariant env == Inject(base, secrets[..n])
    {
      assert secrets[..n + 1][..n] == secrets[..n];
      env := env[SanitiseEnvKey(secrets[n].key) := secrets[n].value];
      n := n + 1;
    }
    assert secrets[..n] == secrets;
    InjectKeys(base, secrets);
    forall k | k in base && k !in SanitisedKeys(secrets)
      ensures env[k] == base[k]
    {
      InjectKeepsBase(base, secrets, k);
    }
    forall i | 0 <= i < |secrets| && LastWithName(secrets, i)
      ensures env[SanitiseEnvKey(secrets[i].key)] == secrets[i].value
    {
      InjectLastWins(base, secrets, i);
    }
  }
}
