/** `SecretsManager` (databricks_ops/secrets.py): the secret scope holding the
    Skyflow credentials. The workspace's answers are inputs: the scope
    listing (`None` when listing raised), whether the create, delete and put
    calls succeed, and the secret keys listed in a scope. */
module Secrets {
  import opened Wrappers
  import opened Strings

  datatype Backend = DatabricksBackend | AzureKeyVault

  /** The backend mapping of `create_secret_scope`. */
  function BackendFor(backendType: string): (b: Backend) {
    if Upper(backendType) == "AZURE_KEYVAULT" then AzureKeyVault else DatabricksBackend
  }

  /** The backend name is matched without regard to letter case: a name and
      its lower-cased form select the same backend, and `azure_keyvault`
      selects Azure Key Vault. */
  lemma BackendIgnoresCase(backendType: string)
    ensures BackendFor(Lower(backendType)) == BackendFor(backendType)
    ensures BackendFor("azure_keyvault") == AzureKeyVault
    ensures BackendFor("DATABRICKS") == DatabricksBackend
  {
    UpperOfLower(backendType);
    assert Upper("azure_keyvault") == "AZURE_KEYVAULT";
    assert Upper("DATABRICKS") != "AZURE_KEYVAULT";
  }

  /** The result of a guarded scope call, and the call made, if any. */
  datatype ScopeOutcome<A> = ScopeOutcome(ok: bool, call: Option<A>)

  /** `create_secret_scope`: an existing scope is kept as is; otherwise the
      scope is created with the mapped backend. A failing listing or create
      is `False`. */
  function CreateSecretScope(scopes: Option<seq<string>>, name: string, backendType: string, createOk: bool)
    : (r: ScopeOutcome<Backend>)
    ensures scopes.None? ==> !r.ok && r.call.None?
    ensures scopes.Some? && name in scopes.value ==> r.ok && r.call.None?
    ensures scopes.Some? && name !in scopes.value ==> r.call == Some(BackendFor(backendType)) && r.ok == createOk
  {
    match scopes
    case None => ScopeOutcome(false, None)
    case Some(existing) =>
      if name in existing then ScopeOutcome(true, None)
      else ScopeOutcome(createOk, Some(BackendFor(backendType)))
  }

  /** `delete_secret_scope`: an absent scope counts as deleted. */
  function DeleteSecretScope(scopes: Option<seq<string>>, name: string, deleteOk: bool): (r: ScopeOutcome<string>)
    ensures scopes.None? ==> !r.ok && r.call.None?
    ensures scopes.Some? && name !in scopes.value ==> r.ok && r.call.None?
    ensures scopes.Some? && name in scopes.value ==> r.call == Some(name) && r.ok == deleteOk
  {
    match scopes
    case None => ScopeOutcome(false, None)
    case Some(existing) =>
      if name !in existing then ScopeOutcome(true, None)
      else ScopeOutcome(deleteOk, Some(name))
  }

  /** Creating and deleting are idempotent: once the scope is listed,
      creating it again makes no call and succeeds, whatever the create call
      would do; once it is gone, deleting it again makes no call and
      succeeds. */
  lemma ScopeGuardsIdempotent(scopes: seq<string>, name: string, backendType: string, ok: bool)
    ensures CreateSecretScope(Some(scopes + [name]), name, backendType, ok) == ScopeOutcome(true, None)
    ensures name !in scopes ==> DeleteSecretScope(Some(scopes), name, ok) == ScopeOutcome(true, None)
  {
    assert (scopes + [name])[|scopes|] == name;
  }

  const ScopeName: string := "skyflow-secrets"
  const DefaultTableColumn: string := "pii_values"

  /** The secret keys written, in the order they are written. */
  const SecretKeys: seq<string> := ["skyflow_pat_token", "skyflow_vault_id", "skyflow_table", "skyflow_table_column"]

  /** The configuration keys the secrets are read from, in the same order. */
  const RequiredConfigKeys: seq<string> := ["pat_token", "vault_id", "table"]

  /** The first configuration key `setup_skyflow_secrets` needs and does not
      find; the lookup raises `KeyError` for it. */
  function FirstMissingConfigKey(config: map<string, string>): (k: Option<string>)
    ensures k.None? <==> forall i :: 0 <= i < 3 ==> RequiredConfigKeys[i] in config
    ensures k.Some? ==> exists i :: && 0 <= i < 3 && k.value == RequiredConfigKeys[i] && k.value !in config
                                    && forall j :: 0 <= j < i ==> RequiredConfigKeys[j] in config
  {
    assert RequiredConfigKeys[0] == "pat_token" && RequiredConfigKeys[1] == "vault_id"
           && RequiredConfigKeys[2] == "table";
    if "pat_token" !in config then Some("pat_token")
    else if "vault_id" !in config then Some("vault_id")
    else if "table" !in config then Some("table")
    else None
  }

  /** The secrets mapping built from the configuration. */
  function SecretValues(config: map<string, string>): (entries: seq<(string, string)>)
    requires FirstMissingConfigKey(config).None?
    ensures |entries| == 4 && forall i :: 0 <= i < 4 ==> entries[i].0 == SecretKeys[i]
    ensures forall i :: 0 <= i < 3 ==> entries[i].1 == config[RequiredConfigKeys[i]]
    ensures entries[3].1 == if "table_column" in config then config["table_column"] else DefaultTableColumn
  {
    [("skyflow_pat_token", config["pat_token"]),
     ("skyflow_vault_id", config["vault_id"]),
     ("skyflow_table", config["table"]),
     ("skyflow_table_column", if "table_column" in config then config["table_column"] else DefaultTableColumn)]
  }

  /** `setup_skyflow_secrets`. `result` is `Err(key)` when the configuration
      lookup raised `KeyError` for `key`, else the returned boolean; `writes`
      are the put calls, in order; `putOk(i)` is the outcome of the i-th. */
  datatype SecretsSetup = SecretsSetup(
    scope: ScopeOutcome<Backend>, result: Result<bool, string>, writes: seq<(string, string)>)

  method SetupSkyflowSecrets(config: map<string, string>, scopes: Option<seq<string>>, createOk: bool,
                             putOk: nat -> bool)
    returns (out: SecretsSetup)
    ensures out.scope == CreateSecretScope(scopes, ScopeName, "DATABRICKS", createOk)
    ensures !out.scope.ok ==> out.result == Ok(false) && out.writes == []
    ensures out.scope.ok && FirstMissingConfigKey(config).Some? ==>
              out.result == Err(FirstMissingConfigKey(config).value) && out.writes == []
    ensures out.scope.ok && FirstMissingConfigKey(config).None? ==>
              && out.writes == SecretValues(config)
              && (out.result == Ok(true) <==> forall i :: 0 <= i < 4 ==> putOk(i))
              && out.result.Ok?
  {
    var scope := CreateSecretScope(scopes, ScopeName, "DATABRICKS", createOk);
    if !scope.ok {
      return SecretsSetup(scope, Ok(false), []);
    }
    var missing := FirstMissingConfigKey(config);
    if missing.Some? {
      return SecretsSetup(scope, Err(missing.value), []);
    }
    var entries := SecretValues(config);
    var success := true;
    var writes: seq<(string, string)> := [];
    var i := 0;
    while i < |entries|
      invariant 0 <= i <= |entries|
      invariant writes == entries[..i]
      invariant success <==> forall j :: 0 <= j < i ==> putOk(j)
    {
      writes := writes + [entries[i]];
      if !putOk(i) {
        success := false;
      }
      i := i + 1;
    }
    return SecretsSetup(scope, Ok(success), writes);
  }

  /** `list_secrets_in_scope`: a failed listing is the empty list. */
  function ListSecretsInScope(listing: Option<seq<string>>): (keys: seq<string>) {
    listing.GetOr([])
  }

  /** The required keys not among the existing ones, in required order. */
  function MissingSecrets(required: seq<string>, existing: seq<string>): (missing: seq<string>)
    ensures |missing| <= |required|
    ensures forall k :: k in missing <==> k in required && k !in existing
  {
    if |required| == 0 then []
    else
      var rest := MissingSecrets(required[1..], existing);
      assert forall k :: k in required <==> k == required[0] || k in required[1..];
      if required[0] in existing then rest else [required[0]] + rest
  }

  /** The report keeps the order of the required keys. */
  lemma {:induction false} MissingSecretsKeepOrder(a: seq<string>, b: seq<string>, existing: seq<string>)
    ensures MissingSecrets(a + b, existing) == MissingSecrets(a, existing) + MissingSecrets(b, existing)
    decreases |a|
  {
    if |a| == 0 {
      assert a + b == b;
    } else {
      assert (a + b)[0] == a[0];
      assert (a + b)[1..] == a[1..] + b;
      MissingSecretsKeepOrder(a[1..], b, existing);
    }
  }

  /** `verify_secrets`: true exactly when every required key is listed; the
      missing keys are what it reports. */
  function VerifySecrets(listing: Option<seq<string>>, required: seq<string>): (r: (bool, seq<string>))
    ensures r.0 <==> forall i :: 0 <= i < |required| ==> required[i] in ListSecretsInScope(listing)
    ensures r.1 == MissingSecrets(required, ListSecretsInScope(listing))
    ensures r.0 <==> |r.1| == 0
  {
    var missing := MissingSecrets(required, ListSecretsInScope(listing));
    if |missing| > 0 then
      assert missing[0] in missing;
      (false, missing)
    else
      assert forall i :: 0 <= i < |required| ==> required[i] in ListSecretsInScope(listing) by {
        forall i | 0 <= i < |required| ensures required[i] in ListSecretsInScope(listing) {
          assert required[i] in required;
          assert required[i] !in missing;
        }
      }
      (true, missing)
  }

  /** With the scope listing failing, verification fails exactly when keys
      are required, and reports all of them. */
  lemma VerifyWithoutListing(required: seq<string>)
    ensures VerifySecrets(None, required).0 <==> |required| == 0
    ensures VerifySecrets(None, required).1 == required
  {
    MissingSecretsNoneExist(required);
  }

  lemma {:induction false} MissingSecretsNoneExist(required: seq<string>)
    ensures MissingSecrets(required, []) == required
    decreases |required|
  {
    if |required| > 0 {
      MissingSecretsNoneExist(required[1..]);
    }
  }
}
