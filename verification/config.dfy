/** `SetupConfig` (config/config.py): the validated configuration sections,
    each built from the environment on first use and cached, configuration
    validation, and the substitutions handed to the SQL templates.

    The pydantic models are modelled by what they check: a `str` field must
    not be `None`, an `int` field must hold a decimal numeral, and a field
    with a default takes the default only when its key is absent. */
module Config {
  import opened Wrappers
  import opened Strings
  import opened Templates
  import opened EnvLoader

  datatype DatabricksConfig = DatabricksConfig(host: string, token: string, warehouseId: string, httpPath: Option<string>)

  datatype SkyflowConfig = SkyflowConfig(vaultUrl: string, vaultId: string, patToken: string, table: string, batchSize: int)

  datatype GroupConfig = GroupConfig(plainTextGroups: string, maskedGroups: string, redactedGroups: string)

  const DefaultBatchSize: int := 25
  const DefaultPlainTextGroups: string := "auditor"
  const DefaultMaskedGroups: string := "customer_service"
  const DefaultRedactedGroups: string := "marketing"

  // ---------------------------------------------------------------------------
  // Building the sections
  // ---------------------------------------------------------------------------

  /** `DatabricksConfig(**config_data)`: host, token and warehouse id are
      required strings; the HTTP path is optional. */
  function ToDatabricksConfig(s: DatabricksSettings): (r: Result<DatabricksConfig, string>)
    ensures r.Ok? <==> s.host.Some? && s.token.Some? && s.warehouseId.Some?
    ensures r.Ok? ==> r.value.httpPath == s.httpPath
                      && [r.value.host, r.value.token, r.value.warehouseId]
                         == [s.host.value, s.token.value, s.warehouseId.value]
  {
    if s.host.Some? && s.token.Some? && s.warehouseId.Some? then
      Ok(DatabricksConfig(s.host.value, s.token.value, s.warehouseId.value, s.httpPath))
    else Err("Invalid Databricks configuration")
  }

  predicate SkyflowRequiredPresent(s: SkyflowSettings) {
    s.vaultUrl.Some? && s.vaultId.Some? && s.patToken.Some? && s.table.Some?
  }

  /** `SkyflowConfig(**config_data)` as the code runs it: `get_skyflow_config`
      always passes `batch_size`, as `None` when the variable is unset, and
      pydantic rejects an explicit `None` for an `int` field, default or not. */
  function ToSkyflowConfigAsWritten(s: SkyflowSettings): (r: Result<SkyflowConfig, string>)
    ensures r.Ok? <==> SkyflowRequiredPresent(s) && s.batchSize.Some? && ParseInt(s.batchSize.value).Some?
    ensures r.Ok? ==> && r.value.vaultUrl == s.vaultUrl.value && r.value.vaultId == s.vaultId.value
                      && r.value.patToken == s.patToken.value && r.value.table == s.table.value
                      && r.value.batchSize == ParseInt(s.batchSize.value).value
  {
    if SkyflowRequiredPresent(s) && s.batchSize.Some? && ParseInt(s.batchSize.value).Some? then
      Ok(SkyflowConfig(s.vaultUrl.value, s.vaultId.value, s.patToken.value, s.table.value,
                       ParseInt(s.batchSize.value).value))
    else Err("Invalid Skyflow configuration")
  }

  /** `SkyflowConfig(**config_data)` as evidently intended: an unset batch
      size takes the default of 25. */
  function ToSkyflowConfig(s: SkyflowSettings): (r: Result<SkyflowConfig, string>)
    ensures r.Ok? <==> SkyflowRequiredPresent(s) && (s.batchSize.None? || ParseInt(s.batchSize.value).Some?)
    ensures r.Ok? ==> && r.value.vaultUrl == s.vaultUrl.value && r.value.vaultId == s.vaultId.value
                      && r.value.patToken == s.patToken.value && r.value.table == s.table.value
                      && r.value.batchSize == (if s.batchSize.None? then DefaultBatchSize
                                               else ParseInt(s.batchSize.value).value)
  {
    if !SkyflowRequiredPresent(s) then Err("Invalid Skyflow configuration")
    else
      var batchSize := if s.batchSize.None? then Some(DefaultBatchSize) else ParseInt(s.batchSize.value);
      if batchSize.None? then Err("Invalid Skyflow configuration")
      else Ok(SkyflowConfig(s.vaultUrl.value, s.vaultId.value, s.patToken.value, s.table.value, batchSize.value))
  }

  /** `GroupConfig(**config_data)` as the code runs it: every key is passed,
      as `None` when unset, and pydantic rejects an explicit `None` for a
      `str` field, so a default is never used. */
  function ToGroupConfigAsWritten(g: GroupSettings): (r: Result<GroupConfig, string>)
    ensures r.Ok? <==> g.plainTextGroups.Some? && g.maskedGroups.Some? && g.redactedGroups.Some?
    ensures r.Ok? ==> r.value == GroupConfig(g.plainTextGroups.value, g.maskedGroups.value, g.redactedGroups.value)
  {
    if g.plainTextGroups.Some? && g.maskedGroups.Some? && g.redactedGroups.Some? then
      Ok(GroupConfig(g.plainTextGroups.value, g.maskedGroups.value, g.redactedGroups.value))
    else Err("Invalid group configuration")
  }

  /** `GroupConfig(**config_data)` as evidently intended: an unset mapping
      takes its default, `auditor`, `customer_service` or `marketing`. */
  function ToGroupConfig(g: GroupSettings): (r: GroupConfig)
    ensures r.plainTextGroups == g.plainTextGroups.GetOr(DefaultPlainTextGroups)
    ensures r.maskedGroups == g.maskedGroups.GetOr(DefaultMaskedGroups)
    ensures r.redactedGroups == g.redactedGroups.GetOr(DefaultRedactedGroups)
  {
    GroupConfig(g.plainTextGroups.GetOr(DefaultPlainTextGroups),
                g.maskedGroups.GetOr(DefaultMaskedGroups),
                g.redactedGroups.GetOr(DefaultRedactedGroups))
  }

  /** As written, the batch-size default is unreachable from the environment:
      with `SKYFLOW_BATCH_SIZE` unset the Skyflow section fails to build even
      when every required variable is set, where the intended model yields
      a batch size of 25. */
  lemma BatchSizeDefaultUnreachable(env: Env)
    requires "SKYFLOW_BATCH_SIZE" !in env
    requires "SKYFLOW_VAULT_URL" in env && "SKYFLOW_VAULT_ID" in env
    requires "SKYFLOW_PAT_TOKEN" in env && "SKYFLOW_TABLE" in env
    ensures ToSkyflowConfigAsWritten(GetSkyflowConfig(env)).Err?
    ensures ToSkyflowConfig(GetSkyflowConfig(env)).Ok?
    ensures ToSkyflowConfig(GetSkyflowConfig(env)).value.batchSize == 25
    ensures Skyflow(Fresh, env, AsWritten).result.Err?
    ensures Skyflow(Fresh, env, Intended).result == ToSkyflowConfig(GetSkyflowConfig(env))
  {
  }

  /** As written, an unset group variable makes the group section fail; the
      intended model falls back to the default groups. */
  lemma GroupDefaultsUnreachable(env: Env)
    requires "PLAIN_TEXT_GROUPS" !in env
    ensures ToGroupConfigAsWritten(GetGroupMappings(env)).Err?
    ensures ToGroupConfig(GetGroupMappings(env)).plainTextGroups == "auditor"
  {
  }

  // ---------------------------------------------------------------------------
  // Lazily loaded, cached sections
  // ---------------------------------------------------------------------------

  /** Which builders the sections are made with: pydantic as the code runs it
      (`AsWritten`), where an unset batch size or group variable makes its
      section fail, or as evidently intended (`Intended`), where it takes its
      default. */
  datatype Reading = AsWritten | Intended

  /** `SkyflowConfig(**config_data)` under either reading: a set batch size
      must be a numeral; an unset one fails as written and is 25 as
      intended. The other fields are carried over. */
  function BuildSkyflow(reading: Reading, s: SkyflowSettings): (r: Result<SkyflowConfig, string>)
    ensures reading == AsWritten ==>
              (r.Ok? <==> SkyflowRequiredPresent(s) && s.batchSize.Some? && ParseInt(s.batchSize.value).Some?)
    ensures reading == Intended ==>
              (r.Ok? <==> SkyflowRequiredPresent(s) && (s.batchSize.None? || ParseInt(s.batchSize.value).Some?))
    ensures r.Ok? ==> && [r.value.vaultUrl, r.value.vaultId, r.value.patToken, r.value.table]
                         == [s.vaultUrl.value, s.vaultId.value, s.patToken.value, s.table.value]
                      && r.value.batchSize == (if s.batchSize.None? then DefaultBatchSize
                                               else ParseInt(s.batchSize.value).value)
  {
    if reading == AsWritten then ToSkyflowConfigAsWritten(s) else ToSkyflowConfig(s)
  }

  /** `GroupConfig(**config_data)` under either reading: as written, every
      variable must be set; as intended, an unset one takes its default. */
  function BuildGroups(reading: Reading, g: GroupSettings): (r: Result<GroupConfig, string>)
    ensures reading == Intended ==>
              r == Ok(GroupConfig(g.plainTextGroups.GetOr(DefaultPlainTextGroups),
                                  g.maskedGroups.GetOr(DefaultMaskedGroups),
                                  g.redactedGroups.GetOr(DefaultRedactedGroups)))
    ensures reading == AsWritten ==>
              (r.Ok? <==> g.plainTextGroups.Some? && g.maskedGroups.Some? && g.redactedGroups.Some?)
    ensures reading == AsWritten && r.Ok? ==>
              r.value == GroupConfig(g.plainTextGroups.value, g.maskedGroups.value, g.redactedGroups.value)
  {
    if reading == AsWritten then ToGroupConfigAsWritten(g) else Ok(ToGroupConfig(g))
  }

  /** The `SetupConfig` object: the sections loaded so far. */
  datatype SetupConfig = SetupConfig(
    databricks: Option<DatabricksConfig>, skyflow: Option<SkyflowConfig>, groups: Option<GroupConfig>)

  const Fresh: SetupConfig := SetupConfig(None, None, None)

  /** What reading a section returns, and the object afterwards. */
  datatype Access<T> = Access(result: Result<T, string>, config: SetupConfig)

  /** The `databricks` property. */
  function Databricks(cfg: SetupConfig, env: Env): (a: Access<DatabricksConfig>)
    ensures cfg.databricks.Some? ==> a == Access(Ok(cfg.databricks.value), cfg)
    ensures a.result.Err? ==> a.config == cfg
    ensures a.result.Ok? ==> a.config == cfg.(databricks := Some(a.result.value))
    ensures cfg.databricks.None? ==> a.result == ToDatabricksConfig(GetDatabricksConfig(env))
  {
    if cfg.databricks.Some? then Access(Ok(cfg.databricks.value), cfg)
    else match ToDatabricksConfig(GetDatabricksConfig(env))
      case Ok(c) => Access(Ok(c), cfg.(databricks := Some(c)))
      case Err(e) => Access(Err(e), cfg)
  }

  /** The `skyflow` property. As written, it raises when `SKYFLOW_BATCH_SIZE`
      is unset; as intended, it builds whenever the required settings are
      present and any batch size is a numeral. */
  function Skyflow(cfg: SetupConfig, env: Env, reading: Reading): (a: Access<SkyflowConfig>)
    ensures cfg.skyflow.Some? ==> a == Access(Ok(cfg.skyflow.value), cfg)
    ensures a.result.Err? ==> a.config == cfg
    ensures a.result.Ok? ==> a.config == cfg.(skyflow := Some(a.result.value))
    ensures cfg.skyflow.None? ==> a.result == BuildSkyflow(reading, GetSkyflowConfig(env))
    ensures cfg.skyflow.None? && a.result.Ok? ==> SkyflowRequiredPresent(GetSkyflowConfig(env))
    ensures cfg.skyflow.None? && reading == AsWritten && a.result.Ok? ==> "SKYFLOW_BATCH_SIZE" in env
    ensures cfg.skyflow.None? && reading == Intended ==>
              (a.result.Ok? <==> var s := GetSkyflowConfig(env);
                                 SkyflowRequiredPresent(s) && (s.batchSize.None? || ParseInt(s.batchSize.value).Some?))
  {
    if cfg.skyflow.Some? then Access(Ok(cfg.skyflow.value), cfg)
    else match BuildSkyflow(reading, GetSkyflowConfig(env))
      case Ok(c) => Access(Ok(c), cfg.(skyflow := Some(c)))
      case Err(e) => Access(Err(e), cfg)
  }

  /** The `groups` property. As written, an unset group variable makes it
      raise; as intended, it always builds. */
  function Groups(cfg: SetupConfig, env: Env, reading: Reading): (a: Access<GroupConfig>)
    ensures cfg.groups.Some? ==> a == Access(Ok(cfg.groups.value), cfg)
    ensures a.result.Err? ==> a.config == cfg
    ensures a.result.Ok? ==> a.config == cfg.(groups := Some(a.result.value))
    ensures cfg.groups.None? ==> a.result == BuildGroups(reading, GetGroupMappings(env))
    ensures reading == Intended ==> a.result.Ok?
    ensures cfg.groups.None? && reading == AsWritten ==>
              (a.result.Ok? <==> var g := GetGroupMappings(env);
                                 g.plainTextGroups.Some? && g.maskedGroups.Some? && g.redactedGroups.Some?)
  {
    if cfg.groups.Some? then Access(Ok(cfg.groups.value), cfg)
    else match BuildGroups(reading, GetGroupMappings(env))
      case Ok(c) => Access(Ok(c), cfg.(groups := Some(c)))
      case Err(e) => Access(Err(e), cfg)
  }

  /** Each section is read from the environment at most once: after a
      successful read, reading again, whatever the environment has become,
      returns the same section and leaves the object as it was. */
  lemma SectionsLoadedOnce(cfg: SetupConfig, env: Env, later: Env, reading: Reading)
    ensures var a := Databricks(cfg, env);
            a.result.Ok? ==> Databricks(a.config, later) == a
    ensures var a := Skyflow(cfg, env, reading);
            a.result.Ok? ==> Skyflow(a.config, later, reading) == a
    ensures var a := Groups(cfg, env, reading);
            a.result.Ok? ==> Groups(a.config, later, reading) == a
  {
  }

  // ---------------------------------------------------------------------------
  // validate
  // ---------------------------------------------------------------------------

  /** The keys whose entry is false, in order. */
  function MissingKeys(v: seq<(string, bool)>): seq<string> {
    if |v| == 0 then [] else (if v[0].1 then [] else [v[0].0]) + MissingKeys(v[1..])
  }

  /** The missing keys are exactly the keys of the false entries; there are
      none exactly when every entry is true. */
  lemma {:induction false} MissingKeysAreFalseEntries(v: seq<(string, bool)>)
    ensures |MissingKeys(v)| <= |v|
    ensures |MissingKeys(v)| == 0 <==> forall i :: 0 <= i < |v| ==> v[i].1
    ensures forall k :: k in MissingKeys(v) <==> exists i :: 0 <= i < |v| && v[i] == (k, false)
    decreases |v|
  {
    if |v| > 0 {
      MissingKeysAreFalseEntries(v[1..]);
      assert forall i :: 1 <= i < |v| ==> v[i] == v[1..][i - 1];
      forall k | k in MissingKeys(v)
        ensures exists i :: 0 <= i < |v| && v[i] == (k, false)
      {
        if !(v[0] == (k, false)) {
          assert k in MissingKeys(v[1..]);
          var i :| 0 <= i < |v[1..]| && v[1..][i] == (k, false);
          assert v[i + 1] == (k, false);
        }
      }
    }
  }

  /** The missing keys keep the order of the validation entries. */
  lemma {:induction false} MissingKeysKeepOrder(a: seq<(string, bool)>, b: seq<(string, bool)>)
    ensures MissingKeys(a + b) == MissingKeys(a) + MissingKeys(b)
    decreases |a|
  {
    if |a| == 0 {
      assert a + b == b;
    } else {
      assert (a + b)[0] == a[0];
      assert (a + b)[1..] == a[1..] + b;
      MissingKeysKeepOrder(a[1..], b);
    }
  }

  datatype Validation =
    | Validated
    | MissingConfiguration(keys: seq<string>)   // ValueError: Missing required configuration
    | AuthenticationFailed                      // ValueError: Failed to authenticate

  /** `validate`: missing settings are reported, by key in order, before any
      attempt to authenticate; `authenticates` is the outcome of the
      `current_user.me()` call. */
  function Validate(env: Env, authenticates: bool): (r: Validation)
    ensures r.MissingConfiguration? <==> exists i :: 0 <= i < 7 && !ValidateConfig(env)[i].1
    ensures r.MissingConfiguration? ==> |r.keys| > 0 && r.keys == MissingKeys(ValidateConfig(env))
    ensures r == Validated <==> authenticates && forall i :: 0 <= i < 7 ==> ValidateConfig(env)[i].1
  {
    var missing := MissingKeys(ValidateConfig(env));
    MissingKeysAreFalseEntries(ValidateConfig(env));
    if |missing| > 0 then MissingConfiguration(missing)
    else if !authenticates then AuthenticationFailed
    else Validated
  }

  /** Authentication is attempted only when nothing is missing: otherwise its
      outcome cannot change the result. */
  lemma AuthenticationOnlyWhenComplete(env: Env)
    requires Validate(env, true).MissingConfiguration?
    ensures Validate(env, false) == Validate(env, true)
  {
  }

  /** The message of the `ValueError` raised for missing settings. */
  function MissingMessage(keys: seq<string>): (message: string) {
    "Missing required configuration: " + Join(keys, ", ")
  }

  /** The error raised for missing settings names every missing key. */
  lemma MissingMessageNamesEveryKey(env: Env, authenticates: bool)
    requires Validate(env, authenticates).MissingConfiguration?
    ensures var keys := Validate(env, authenticates).keys;
            forall i :: 0 <= i < |keys| ==> Contains(MissingMessage(keys), keys[i])
  {
    var keys := Validate(env, authenticates).keys;
    JoinHoldsParts(keys, ", ");
    forall i | 0 <= i < |keys|
      ensures Contains(MissingMessage(keys), keys[i])
    {
      ContainsAfterText("Missing required configuration: ", Join(keys, ", "), keys[i]);
    }
  }

  // ---------------------------------------------------------------------------
  // get_substitutions
  // ---------------------------------------------------------------------------

  const SubstitutionKeys: seq<string> := [
    "PREFIX", "SKYFLOW_VAULT_URL", "SKYFLOW_VAULT_ID", "SKYFLOW_TABLE",
    "PLAIN_TEXT_GROUPS", "MASKED_GROUPS", "REDACTED_GROUPS"]

  /** `get_substitutions`: seven keys, `PREFIX` bound to the prefix and the
      rest to the Skyflow and group sections, read in that order; it fails
      when either section does. */
  function GetSubstitutions(cfg: SetupConfig, env: Env, prefix: string, reading: Reading)
    : (a: Access<Substitutions>)
    ensures var sky := Skyflow(cfg, env, reading);
            a.result.Ok? <==> sky.result.Ok? && Groups(sky.config, env, reading).result.Ok?
    ensures a.result.Ok? ==> var subs := a.result.value;
              var sky := Skyflow(cfg, env, reading);
              var s, g := sky.result.value, Groups(sky.config, env, reading).result.value;
              && |subs| == 7
              && (forall i :: 0 <= i < 7 ==> subs[i].0 == SubstitutionKeys[i])
              && subs[0].1 == prefix
              && [subs[1].1, subs[2].1, subs[3].1] == [s.vaultUrl, s.vaultId, s.table]
              && [subs[4].1, subs[5].1, subs[6].1] == [g.plainTextGroups, g.maskedGroups, g.redactedGroups]
              && DistinctKeys(subs)
    ensures reading == Intended ==> (a.result.Ok? <==> Skyflow(cfg, env, Intended).result.Ok?)
  {
    var sky := Skyflow(cfg, env, reading);
    match sky.result
    case Err(e) => Access(Err(e), sky.config)
    case Ok(s) =>
      var grp := Groups(sky.config, env, reading);
      match grp.result
      case Err(e) => Access(Err(e), grp.config)
      case Ok(g) =>
        var subs := [("PREFIX", prefix),
                     ("SKYFLOW_VAULT_URL", s.vaultUrl),
                     ("SKYFLOW_VAULT_ID", s.vaultId),
                     ("SKYFLOW_TABLE", s.table),
                     ("PLAIN_TEXT_GROUPS", g.plainTextGroups),
                     ("MASKED_GROUPS", g.maskedGroups),
                     ("REDACTED_GROUPS", g.redactedGroups)];
        Access(Ok(subs), grp.config)
  }

  /** As written, a fresh configuration with `PLAIN_TEXT_GROUPS` unset cannot
      produce substitutions, even when the Skyflow section builds; as
      intended, the same environment yields them, with the `auditor` group. */
  lemma SubstitutionsNeedGroupsAsWritten(env: Env, prefix: string)
    requires "PLAIN_TEXT_GROUPS" !in env
    ensures GetSubstitutions(Fresh, env, prefix, AsWritten).result.Err?
    ensures Skyflow(Fresh, env, Intended).result.Ok? ==>
              && GetSubstitutions(Fresh, env, prefix, Intended).result.Ok?
              && GetSubstitutions(Fresh, env, prefix, Intended).result.value[4].1 == DefaultPlainTextGroups
  {
  }

  /** The keys of the substitutions are plain. */
  lemma SubstitutionKeysArePlain()
    ensures forall j :: 0 <= j < 7 ==> PlainKey(SubstitutionKeys[j])
  {
  }

  /** From a fresh object, the substitutions are the environment's values:
      the Skyflow settings as set, each group as set or else its default,
      under either reading. */
  lemma SubstitutionsFromEnvironment(env: Env, prefix: string, reading: Reading)
    ensures var a := GetSubstitutions(Fresh, env, prefix, reading);
            a.result.Ok? ==>
              && "SKYFLOW_VAULT_URL" in env && "SKYFLOW_VAULT_ID" in env && "SKYFLOW_TABLE" in env
              && [a.result.value[1].1, a.result.value[2].1, a.result.value[3].1]
                 == [env["SKYFLOW_VAULT_URL"], env["SKYFLOW_VAULT_ID"], env["SKYFLOW_TABLE"]]
              && a.result.value[4].1 == GetEnv(env, "PLAIN_TEXT_GROUPS").GetOr(DefaultPlainTextGroups)
              && a.result.value[5].1 == GetEnv(env, "MASKED_GROUPS").GetOr(DefaultMaskedGroups)
              && a.result.value[6].1 == GetEnv(env, "REDACTED_GROUPS").GetOr(DefaultRedactedGroups)
  {
  }

  /** Filling the SQL templates: a placeholder standing in a text that holds
      no other `$` becomes its key's value, provided the filled text holds no
      `${`. */
  lemma SubstitutionsFillPlaceholders(cfg: SetupConfig, env: Env, prefix: string, reading: Reading, i: int,
                                      before: string, after: string)
    requires GetSubstitutions(cfg, env, prefix, reading).result.Ok?
    requires 0 <= i < 7
    requires '$' !in before && '$' !in after
    requires !Contains(before + GetSubstitutions(cfg, env, prefix, reading).result.value[i].1 + after, "${")
    ensures var subs := GetSubstitutions(cfg, env, prefix, reading).result.value;
            ApplySubstitutions(before + Placeholder(SubstitutionKeys[i]) + after, Some(subs))
              == before + subs[i].1 + after
  {
    var subs := GetSubstitutions(cfg, env, prefix, reading).result.value;
    SubstitutionKeysArePlain();
    PlaceholderBecomesValue(before, after, subs, i);
  }
}
