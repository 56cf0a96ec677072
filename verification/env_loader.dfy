/** `EnvLoader` (config/env_loader.py): reading the integration's settings
    from the process environment. The environment, after the optional
    `.env.local` file has been loaded into it, is a map from variable name to
    value; a missing name is `os.getenv` returning `None`. */
module EnvLoader {
  import opened Wrappers
  import opened Strings

  type Env = map<string, string>

  function GetEnv(env: Env, name: string): (value: Option<string>) {
    if name in env then Some(env[name]) else None
  }

  datatype DatabricksSettings = DatabricksSettings(
    host: Option<string>, token: Option<string>, warehouseId: Option<string>, httpPath: Option<string>)

  datatype SkyflowSettings = SkyflowSettings(
    vaultUrl: Option<string>, vaultId: Option<string>, patToken: Option<string>,
    table: Option<string>, tableColumn: Option<string>, batchSize: Option<string>)

  datatype GroupSettings = GroupSettings(
    plainTextGroups: Option<string>, maskedGroups: Option<string>, redactedGroups: Option<string>)

  const WarehousesSeparator: string := "/warehouses/"

  /** The warehouse id of an HTTP path: the last piece of
      `http_path.split("/warehouses/")`, when the path holds the separator.
      The id follows a separator at the very end of the path and holds no
      separator itself. */
  function WarehouseIdFromPath(httpPath: Option<string>): (id: Option<string>)
    ensures id.Some? <==> httpPath.Some? && Contains(httpPath.value, WarehousesSeparator)
    ensures id.Some? ==> var path, tail := httpPath.value, WarehousesSeparator + id.value;
                         && !Contains(id.value, WarehousesSeparator)
                         && |tail| <= |path| && path[|path| - |tail|..] == tail
  {
    // An empty path is falsy in Python, and it holds no separator either.
    if httpPath.Some? && Contains(httpPath.value, WarehousesSeparator) then
      var path := httpPath.value;
      var parts := Split(path, WarehousesSeparator);
      SplitLastPiece(path, WarehousesSeparator);
      Some(parts[|parts| - 1])
    else None
  }

  /** `get_databricks_config`. */
  function GetDatabricksConfig(env: Env): (c: DatabricksSettings)
    ensures c.host.Some? <==> "DATABRICKS_SERVER_HOSTNAME" in env && |env["DATABRICKS_SERVER_HOSTNAME"]| > 0
    ensures c.host.Some? ==> c.host.value == "https://" + env["DATABRICKS_SERVER_HOSTNAME"]
    ensures c.token == GetEnv(env, "DATABRICKS_PAT_TOKEN")
    ensures c.httpPath == GetEnv(env, "DATABRICKS_HTTP_PATH")
    ensures c.warehouseId.Some? <==> "DATABRICKS_HTTP_PATH" in env
                                     && Contains(env["DATABRICKS_HTTP_PATH"], WarehousesSeparator)
    ensures c.warehouseId == WarehouseIdFromPath(GetEnv(env, "DATABRICKS_HTTP_PATH"))
  {
    var hostname := GetEnv(env, "DATABRICKS_SERVER_HOSTNAME");
    var host := if hostname.Some? && |hostname.value| > 0 then Some("https://" + hostname.value) else None;
    var httpPath := GetEnv(env, "DATABRICKS_HTTP_PATH");
    DatabricksSettings(host, GetEnv(env, "DATABRICKS_PAT_TOKEN"), WarehouseIdFromPath(httpPath), httpPath)
  }

  /** `get_skyflow_config`: every key is present, `None` when unset. */
  function GetSkyflowConfig(env: Env): (s: SkyflowSettings)
    ensures s.vaultUrl.Some? <==> "SKYFLOW_VAULT_URL" in env
    ensures s.vaultId.Some? <==> "SKYFLOW_VAULT_ID" in env
    ensures s.patToken.Some? <==> "SKYFLOW_PAT_TOKEN" in env
    ensures s.table.Some? <==> "SKYFLOW_TABLE" in env
    ensures s.tableColumn.Some? <==> "SKYFLOW_TABLE_COLUMN" in env
    ensures s.batchSize.Some? <==> "SKYFLOW_BATCH_SIZE" in env
    ensures s.vaultUrl.Some? ==> s.vaultUrl.value == env["SKYFLOW_VAULT_URL"]
    ensures s.vaultId.Some? ==> s.vaultId.value == env["SKYFLOW_VAULT_ID"]
    ensures s.patToken.Some? ==> s.patToken.value == env["SKYFLOW_PAT_TOKEN"]
    ensures s.table.Some? ==> s.table.value == env["SKYFLOW_TABLE"]
    ensures s.tableColumn.Some? ==> s.tableColumn.value == env["SKYFLOW_TABLE_COLUMN"]
    ensures s.batchSize.Some? ==> s.batchSize.value == env["SKYFLOW_BATCH_SIZE"]
  {
    SkyflowSettings(
      GetEnv(env, "SKYFLOW_VAULT_URL"), GetEnv(env, "SKYFLOW_VAULT_ID"), GetEnv(env, "SKYFLOW_PAT_TOKEN"),
      GetEnv(env, "SKYFLOW_TABLE"), GetEnv(env, "SKYFLOW_TABLE_COLUMN"), GetEnv(env, "SKYFLOW_BATCH_SIZE"))
  }

  /** `get_group_mappings`: every key is present, `None` when unset. */
  function GetGroupMappings(env: Env): (g: GroupSettings)
    ensures g.plainTextGroups.Some? <==> "PLAIN_TEXT_GROUPS" in env
    ensures g.maskedGroups.Some? <==> "MASKED_GROUPS" in env
    ensures g.redactedGroups.Some? <==> "REDACTED_GROUPS" in env
    ensures g.plainTextGroups.Some? ==> g.plainTextGroups.value == env["PLAIN_TEXT_GROUPS"]
    ensures g.maskedGroups.Some? ==> g.maskedGroups.value == env["MASKED_GROUPS"]
    ensures g.redactedGroups.Some? ==> g.redactedGroups.value == env["REDACTED_GROUPS"]
  {
    GroupSettings(GetEnv(env, "PLAIN_TEXT_GROUPS"), GetEnv(env, "MASKED_GROUPS"), GetEnv(env, "REDACTED_GROUPS"))
  }

  /** The keys `validate_config` reports, in order. */
  const ValidationKeys: seq<string> := [
    "databricks_host", "databricks_token", "warehouse_id",
    "skyflow_vault_url", "skyflow_vault_id", "skyflow_pat_token", "skyflow_table"]

  /** `validate_config`: seven entries, each true exactly when its setting is
      present. A variable set to the empty string is present, except the
      hostname, which empty yields no host. */
  function ValidateConfig(env: Env): (v: seq<(string, bool)>)
    ensures |v| == 7 && forall i :: 0 <= i < 7 ==> v[i].0 == ValidationKeys[i]
    ensures v[0].1 <==> "DATABRICKS_SERVER_HOSTNAME" in env && |env["DATABRICKS_SERVER_HOSTNAME"]| > 0
    ensures v[1].1 <==> "DATABRICKS_PAT_TOKEN" in env
    ensures v[2].1 <==> "DATABRICKS_HTTP_PATH" in env && Contains(env["DATABRICKS_HTTP_PATH"], WarehousesSeparator)
    ensures v[3].1 <==> "SKYFLOW_VAULT_URL" in env
    ensures v[4].1 <==> "SKYFLOW_VAULT_ID" in env
    ensures v[5].1 <==> "SKYFLOW_PAT_TOKEN" in env
    ensures v[6].1 <==> "SKYFLOW_TABLE" in env
  {
    var databricks := GetDatabricksConfig(env);
    var skyflow := GetSkyflowConfig(env);
    [("databricks_host", databricks.host.Some?),
     ("databricks_token", databricks.token.Some?),
     ("warehouse_id", databricks.warehouseId.Some?),
     ("skyflow_vault_url", skyflow.vaultUrl.Some?),
     ("skyflow_vault_id", skyflow.vaultId.Some?),
     ("skyflow_pat_token", skyflow.patToken.Some?),
     ("skyflow_table", skyflow.table.Some?)]
  }

  /** The variables validation never looks at. */
  predicate NeverRequired(name: string) {
    name in {"SKYFLOW_TABLE_COLUMN", "SKYFLOW_BATCH_SIZE", "PLAIN_TEXT_GROUPS", "MASKED_GROUPS", "REDACTED_GROUPS"}
  }

  /** The table column, the batch size and the group mappings are never
      required: setting or unsetting them does not change the validation. */
  lemma OptionalSettingsNeverValidated(env: Env, name: string, value: string)
    requires NeverRequired(name)
    ensures ValidateConfig(env[name := value]) == ValidateConfig(env)
    ensures ValidateConfig(env - {name}) == ValidateConfig(env)
  {
    OnlyRequiredNamesValidated(env, env[name := value], name);
    OnlyRequiredNamesValidated(env, env - {name}, name);
  }

  /** Two environments that differ at most in one variable validation never
      looks at validate alike. */
  lemma OnlyRequiredNamesValidated(env: Env, env': Env, name: string)
    requires NeverRequired(name)
    requires forall other :: other != name ==> GetEnv(env', other) == GetEnv(env, other)
    ensures ValidateConfig(env') == ValidateConfig(env)
  {
    assert GetEnv(env', "DATABRICKS_SERVER_HOSTNAME") == GetEnv(env, "DATABRICKS_SERVER_HOSTNAME");
    assert GetEnv(env', "DATABRICKS_PAT_TOKEN") == GetEnv(env, "DATABRICKS_PAT_TOKEN");
    assert GetEnv(env', "DATABRICKS_HTTP_PATH") == GetEnv(env, "DATABRICKS_HTTP_PATH");
    assert GetDatabricksConfig(env') == GetDatabricksConfig(env);
    assert GetEnv(env', "SKYFLOW_VAULT_URL") == GetEnv(env, "SKYFLOW_VAULT_URL");
    assert GetEnv(env', "SKYFLOW_VAULT_ID") == GetEnv(env, "SKYFLOW_VAULT_ID");
    assert GetEnv(env', "SKYFLOW_PAT_TOKEN") == GetEnv(env, "SKYFLOW_PAT_TOKEN");
    assert GetEnv(env', "SKYFLOW_TABLE") == GetEnv(env, "SKYFLOW_TABLE");
  }

  /** The usual SQL warehouse path yields the id that ends it. */
  lemma StandardHttpPathWarehouseId(id: string)
    requires !Contains(id, WarehousesSeparator)
    ensures WarehouseIdFromPath(Some("/sql/1.0" + WarehousesSeparator + id)) == Some(id)
  {
    SqlPrefixHoldsNoSeparator(WarehousesSeparator + id);
    SplitAfterCleanPrefix("/sql/1.0", WarehousesSeparator, id);
    ContainsInfix("/sql/1.0", WarehousesSeparator, id);
  }

  /** `/warehouses/` does not begin inside `/sql/1.0`. */
  lemma SqlPrefixHoldsNoSeparator(b: string)
    ensures forall k :: 0 <= k < 8 ==> !IsPrefix(WarehousesSeparator, ("/sql/1.0" + b)[k..])
  {
    var path := "/sql/1.0" + b;
    forall k | 0 <= k < 8
      ensures !IsPrefix(WarehousesSeparator, path[k..])
    {
      var t := path[k..];
      if k == 0 { assert t[1] == 's'; }
      else if k == 1 { assert t[0] == 's'; }
      else if k == 2 { assert t[0] == 'q'; }
      else if k == 3 { assert t[0] == 'l'; }
      else if k == 4 { assert t[1] == '1'; }
      else if k == 5 { assert t[0] == '1'; }
      else if k == 6 { assert t[0] == '.'; }
      else { assert t[0] == '0'; }
    }
  }

  /** A separator that no earlier occurrence can overlap, followed by a text
      free of it, splits the text in two. */
  lemma SplitAfterCleanPrefix(a: string, p: string, id: string)
    requires |p| > 0 && !Contains(id, p)
    requires forall k :: 0 <= k < |a| ==> !IsPrefix(p, (a + (p + id))[k..])
    ensures Split(a + p + id, p) == [a, id]
  {
    SplitSkipsPrefix(a, p + id, p);
    SplitSeparatorThenFree(p, id);
    assert a + "" == a;
    assert a + p + id == a + (p + id);
  }

  lemma SplitSeparatorThenFree(p: string, id: string)
    requires |p| > 0 && !Contains(id, p)
    ensures Split(p + id, p) == ["", id]
  {
    assert (p + id)[..|p|] == p && (p + id)[|p|..] == id;
    SplitAtSeparator(p + id, p);
    SplitOfFree(id, p);
  }

  /** No occurrence of `p` starts inside `a`: the first piece of `a + b`
      begins with all of `a`. */
  lemma {:induction false} SplitSkipsPrefix(a: string, b: string, p: string)
    requires |p| > 0
    requires forall k :: 0 <= k < |a| ==> !IsPrefix(p, (a + b)[k..])
    ensures Split(a + b, p) == [a + Split(b, p)[0]] + Split(b, p)[1..]
    decreases |a|
  {
    var s := a + b;
    if |a| == 0 {
      assert s == b;
      assert a + Split(b, p)[0] == Split(b, p)[0];
      assert [Split(b, p)[0]] + Split(b, p)[1..] == Split(b, p);
    } else if |s| < |p| {
      assert Split(b, p) == [b];
    } else {
      assert s[0..] == s;
      assert s[1..] == a[1..] + b;
      forall k | 0 <= k < |a[1..]|
        ensures !IsPrefix(p, (a[1..] + b)[k..])
      {
        assert (a[1..] + b)[k..] == s[k + 1..];
      }
      SplitSkipsPrefix(a[1..], b, p);
      assert [a[0]] + (a[1..] + Split(b, p)[0]) == a + Split(b, p)[0];
    }
  }
}
