# Skyflow–Databricks setup glue, modelled in Dafny

The system sets up a Skyflow tokenization integration in a Databricks
workspace. It reads settings from the environment, creates a secret scope
holding the Skyflow credentials, runs SQL template scripts statement by
statement, creates a Lakeview dashboard from a JSON template, and watches a
notebook job run until it finishes. Nearly all of it is calls into the
Databricks SDK. This project models the small rules around those calls:

- `${KEY}` placeholder substitution, shared by SQL scripts and dashboards
  (`Templates`);
- the naive `;` split of SQL scripts, the stop-at-first-failure statement
  loop, and the shaping of query results into column → value rows
  (`SqlExecutor`);
- the dashboard lookup by name, the "not found" classification of delete
  errors, and the create/setup flow (`Dashboards`);
- how settings come from the environment: the `https://` host, the warehouse
  id taken from the HTTP path, and the presence check (`EnvLoader`);
- the configuration sections with their defaults, the per-section cache,
  `validate` and the seven template substitutions (`Config`);
- the secret scope guards, the four Skyflow secrets, and the check that
  required secrets exist (`Secrets`);
- the job-run polling state machine with its 30-second clock, the workspace
  id found in the host name, and the guarded notebook delete and listing
  (`Notebooks`);
- the scheme stripping of the vault URL for the Skyflow connection
  (`UnityCatalog`).

`Strings` models the Python string operations these rules use: `replace`,
`split`, `strip`, `upper`, `lower`, `in`, `str(int)` and `int(str)`.
Whitespace and letter case are ASCII. `Wrappers` holds `Option` and `Result`.

The SDK, the file system, the clock and the JSON parser are inputs. A
workspace answer is a value such as a listing, or `None` when the call
raised. A sequence of outcomes is a function from the call's index to its
outcome. `succeeds(i)` says whether the i-th SQL statement got a response.
`observe(i)` is what the i-th job-status poll saw. `isJson` says whether a
text parses. Reading a file is its text, or `None` when the file is missing.
Every dashboard listing is its own input, because each lookup lists the
dashboards again.

The configuration sections can be built two ways. `AsWritten` follows
pydantic as the code calls it, so an unset batch size or group variable makes
its section fail. `Intended` gives that setting its default, as the models
declare. Both are modelled; see "## Findings".

The warehouse id is the last piece of `http_path.split("/warehouses/")`.
Python's `split` works left to right, so for `/a/warehouses/warehouses/` the
last piece is `warehouses/`, not the text after the last separator. The
model follows the code. `WarehouseIdFromPath` states what holds either way:
the id holds no separator, and a separator followed by the id ends the path.

## Model

| member | source | states |
|---|---|---|
| Strings.ReplaceLoneOccurrence | skyflow_databricks/databricks_ops/sql.py:30 | an occurrence whose first character appears nowhere else in the text is the one `replace` replaces |
| Strings.ReplaceIsJoinOfSplit | skyflow_databricks/databricks_ops/sql.py:30 | `replace` cuts the text at every non-overlapping, left-to-right occurrence of the pattern and puts the value into each cut |
| Strings.JoinSplit | skyflow_databricks/databricks_ops/sql.py:90 | rejoining the pieces of a split with the separator gives back the text |
| Strings.SplitAtChar | skyflow_databricks/databricks_ops/sql.py:90 | a one-character separator between two texts splits exactly there: the pieces are those of the left text followed by those of the right |
| Strings.SplitLastPiece | skyflow_databricks/config/env_loader.py:34 | when the separator occurs, the last piece of the split holds no separator, and the separator followed by it ends the text |
| Strings.ParseIntOfIntToString | skyflow_databricks/databricks_ops/sql.py:150 | `int(str(i)) == i` for every integer |
| Templates.ApplySubstitutions | skyflow_databricks/databricks_ops/sql.py:24-32 | absent or empty substitutions return the text unchanged |
| Templates.SubstitutionIsSequential | skyflow_databricks/databricks_ops/sql.py:29-30 | substituting a mapping `a + b` is substituting `a`, then `b` into the result, so keys apply one after another in mapping order |
| Templates.SingleKeyReplacesEveryOccurrence | skyflow_databricks/databricks_ops/sql.py:29-30 | one key replaces every non-overlapping occurrence of `${KEY}` with its value; the text between replacements holds no `${KEY}` |
| Templates.PlaceholderFreeTextUnchanged | skyflow_databricks/databricks_ops/sql.py:29-30 | text in which `${` never occurs is unchanged by every mapping |
| Templates.PlaceholderInTextIsOwn | skyflow_databricks/databricks_ops/sql.py:29-30 | in a text whose only `$` opens the placeholder of a key without `$` or `}`, no other such key's placeholder occurs |
| Templates.PlaceholderBecomesValue | skyflow_databricks/databricks_ops/sql.py:29-30 | with distinct keys, a `${KEY}` standing in a text `before + ${KEY} + after` with no other `$` becomes its value, giving `before + value + after`, provided the keys up to it hold no `$` or `}` and the result holds no `${` |
| SqlExecutor.SplitStatements | skyflow_databricks/databricks_ops/sql.py:90 | every statement is non-empty, has no surrounding whitespace and holds no `;` |
| SqlExecutor.NonBlankStrippedAppend | skyflow_databricks/databricks_ops/sql.py:90 | the blank-dropping comprehension keeps the order of the pieces |
| SqlExecutor.SplitStatementsAtSemicolon | skyflow_databricks/databricks_ops/sql.py:89-90 | the split is naive: any `;`, even in a literal or a comment, ends a statement, and the statements of the two sides follow each other in source order |
| SqlExecutor.SplitStatementsWithoutSemicolon | skyflow_databricks/databricks_ops/sql.py:90 | text without `;` is one statement, its stripped self, or none when blank |
| Strings.StripIsSlice | skyflow_databricks/databricks_ops/sql.py:90 | `strip` keeps a contiguous slice of the text and removes only whitespace before and after it |
| SqlExecutor.RunStatements | skyflow_databricks/databricks_ops/sql.py:92-107 | statements are submitted in order; the first without a response ends the run with false and nothing after it is submitted; true iff every statement succeeds |
| SqlExecutor.ExecuteSqlFile | skyflow_databricks/databricks_ops/sql.py:66-111 | a missing file is false with nothing submitted; otherwise the substituted script's statements run as above; a script with no statements succeeds |
| SqlExecutor.SliceTo | skyflow_databricks/databricks_ops/sql.py:122 | Python's `s[:n]`: a prefix of length `min(n, len)` for `n >= 0` and `len + n` (at least 0) for negative `n` |
| SqlExecutor.RowDict | skyflow_databricks/databricks_ops/sql.py:123 | a row's keys are exactly the column names, and each name holds the cell of the last column so named |
| SqlExecutor.RowMatchesExtend | skyflow_databricks/databricks_ops/sql.py:123 | adding a column to the dict overrides an earlier column of the same name |
| SqlExecutor.ExecuteQueryWithResults | skyflow_databricks/databricks_ops/sql.py:113-128 | `None` iff the reply has no data rows; at most `max_rows` rows (Python slice semantics); an index error iff a kept row is shorter than the column list; otherwise one column → cell map per kept row |
| SqlExecutor.GetTableRowCount | skyflow_databricks/databricks_ops/sql.py:142-152 | no data gives `None` |
| SqlExecutor.RowCountReadsCountColumn | skyflow_databricks/databricks_ops/sql.py:147-150 | the single-cell answer `str(n)` under `count` reads back as `n`, and a null count as 0 |
| Dashboards.FirstNamed | skyflow_databricks/databricks_ops/dashboards.py:125-128 | the id of the first dashboard whose name equals the argument exactly, or none when no name matches |
| Dashboards.FindDashboardByName | skyflow_databricks/databricks_ops/dashboards.py:106-128 | a failed listing counts as empty, so the lookup finds nothing; otherwise the first exact-name match |
| Dashboards.DeleteDashboardNotFound | skyflow_databricks/databricks_ops/dashboards.py:99-104 | an error message holding `not found` in any letter case, anywhere, counts as deleted; upper- or lower-casing a message never changes whether it counts |
| Dashboards.CreateDashboardFromFile | skyflow_databricks/databricks_ops/dashboards.py:22-87 | a missing file or non-JSON substituted text creates nothing and gives `None`; otherwise the dashboard its own listing finds under the name is trashed first, the substituted dashboard is created under `/Shared`, and the URL is `host/sql/dashboardsv3/id` iff the create returned an id |
| Dashboards.CustomerInsightsSubstitutions | skyflow_databricks/databricks_ops/dashboards.py:138-142 | the three keys are `PREFIX` (bound to the prefix), `<PREFIX>_CATALOG` and `<PREFIX>_CUSTOMER_DATASET` under the upper-cased prefix, and they are distinct |
| Dashboards.SetupCustomerInsightsDashboard | skyflow_databricks/databricks_ops/dashboards.py:130-158 | a `<prefix>_customer_insights_dashboard` found by setup's own listing gives its URL and changes nothing. Otherwise, a missing or non-JSON substituted template gives no URL and no call; a valid one ends with the create of that name, the warehouse and the template filled with the three customer-insights substitutions, and a URL comes back iff the create returned an id. At most two calls, every create under that name |
| Dashboards.SetupNeverTrashes | skyflow_databricks/databricks_ops/dashboards.py:130-158 | when setup's listing and the create step's listing agree on the dashboard of that name, setup never trashes and creates at most one dashboard |
| Dashboards.SetupTrashesWhatSecondListingFinds | skyflow_databricks/databricks_ops/dashboards.py:130-158 | when setup's own lookup finds nothing, a trash happens iff the template is valid and the second listing finds a dashboard of that name, and it trashes that one |
| Dashboards.SetupTrashesAfterFailedLookup | skyflow_databricks/databricks_ops/dashboards.py:130-158 | when setup's listing raises and the second listing shows the dashboard, setup trashes it before creating |
| Dashboards.PrefixPlaceholderBecomesPrefix | skyflow_databricks/databricks_ops/dashboards.py:36-38 | a `${PREFIX}` in a template `before + ${PREFIX} + after` with no other `$` becomes the prefix, provided `before + prefix + after` holds no `${` |
| EnvLoader.WarehouseIdFromPath | skyflow_databricks/config/env_loader.py:30-34 | an id exists iff the path is set and holds `/warehouses/`; it holds no separator, and the separator followed by it ends the path |
| EnvLoader.GetDatabricksConfig | skyflow_databricks/config/env_loader.py:25-41 | the host is `https://` + hostname iff the hostname is set and non-empty; the token and HTTP path are passed through; the warehouse id is the one `WarehouseIdFromPath` takes from the path, present iff the path holds `/warehouses/` |
| EnvLoader.GetSkyflowConfig | skyflow_databricks/config/env_loader.py:43-52 | all six Skyflow keys are passed, each `None` exactly when its variable is unset and otherwise its value |
| EnvLoader.GetGroupMappings | skyflow_databricks/config/env_loader.py:54-60 | all three group keys are passed, each `None` exactly when its variable is unset and otherwise its value |
| EnvLoader.StandardHttpPathWarehouseId | skyflow_databricks/config/env_loader.py:33-34 | `/sql/1.0/warehouses/<id>` yields `<id>` |
| EnvLoader.ValidateConfig | skyflow_databricks/config/env_loader.py:62-75 | seven keys in a fixed order, each true iff its setting is present; an empty value counts as present, except the hostname |
| EnvLoader.OptionalSettingsNeverValidated | skyflow_databricks/config/env_loader.py:62-75 | setting or unsetting the table column, batch size or group variables never changes validation |
| Config.ToDatabricksConfig | skyflow_databricks/config/config.py:9-14 | the section builds iff host, token and warehouse id are present, and carries them unchanged |
| Config.ToSkyflowConfigAsWritten | skyflow_databricks/config/config.py:17-23 | as written, the section builds iff the four required settings are present and a batch size is set and is a numeral; it carries the settings and the parsed batch size |
| Config.ToSkyflowConfig | skyflow_databricks/config/config.py:17-23 | the section builds iff the four required settings are present and any batch size is a numeral; an unset batch size is 25 |
| Config.BatchSizeDefaultUnreachable | skyflow_databricks/config/config.py:23 | with every required Skyflow variable set and `SKYFLOW_BATCH_SIZE` unset, the as-written section fails where the intended one has batch size 25 |
| Config.ToGroupConfigAsWritten | skyflow_databricks/config/config.py:26-30 | as written, the group section builds iff all three variables are set, and then carries their values |
| Config.ToGroupConfig | skyflow_databricks/config/config.py:26-30 | each unset group mapping takes its default: `auditor`, `customer_service`, `marketing` |
| Config.GroupDefaultsUnreachable | skyflow_databricks/config/config.py:28 | with `PLAIN_TEXT_GROUPS` unset, the as-written section fails where the intended one uses `auditor` |
| Config.BuildSkyflow | skyflow_databricks/config/config.py:58-62 | as written, the section builds iff the required settings are present and a numeral batch size is set; as intended, iff the required settings are present and any batch size is a numeral; a built section carries the settings and the parsed batch size, or 25 when none is set |
| Config.BuildGroups | skyflow_databricks/config/config.py:68-70 | as intended, the section always builds, each unset mapping taking its default; as written, it builds iff all three are set, carrying their values |
| Config.Databricks | skyflow_databricks/config/config.py:43-52 | a cached section is returned without reading the environment; from an empty cache the result is the section built from `get_databricks_config`; a built section is cached; a failure caches nothing |
| Config.Skyflow | skyflow_databricks/config/config.py:54-63 | a cached section is returned and a built one cached; from an empty cache the result is `BuildSkyflow` of `get_skyflow_config`; a failure caches nothing; as written, it raises without `SKYFLOW_BATCH_SIZE`; as intended, it builds iff the required settings are present and any batch size is a numeral |
| Config.Groups | skyflow_databricks/config/config.py:65-71 | a cached section is returned and a built one cached; from an empty cache the result is `BuildGroups` of `get_group_mappings`; as written, it builds iff all three group variables are set; as intended, it always builds |
| Config.SectionsLoadedOnce | skyflow_databricks/config/config.py:43-71 | after a successful read, reading again under any later environment returns the same section and leaves the cache unchanged, under either builder |
| Config.MissingKeysAreFalseEntries | skyflow_databricks/config/config.py:86 | the missing keys are exactly the keys of false entries, and there are none iff every entry is true |
| Config.MissingKeysKeepOrder | skyflow_databricks/config/config.py:86 | missing keys are reported in the order of the validation entries |
| Config.Validate | skyflow_databricks/config/config.py:83-97 | raises for missing settings iff some entry is false, listing those keys in order; passes iff nothing is missing and authentication succeeds |
| Config.AuthenticationOnlyWhenComplete | skyflow_databricks/config/config.py:88-95 | when settings are missing, the authentication outcome cannot change the result |
| Config.MissingMessageNamesEveryKey | skyflow_databricks/config/config.py:86-89 | the error raised for missing settings names every missing key |
| Config.GetSubstitutions | skyflow_databricks/config/config.py:99-109 | exactly seven distinct keys in a fixed order: `PREFIX` bound to the prefix, the vault URL, vault id and table to the Skyflow section and the three group values to the group section; fails iff either section does |
| Config.SubstitutionsNeedGroupsAsWritten | skyflow_databricks/config/config.py:99-109 | as written, with `PLAIN_TEXT_GROUPS` unset, no substitutions come out of a fresh configuration; as intended, they do whenever the Skyflow section builds, with the `auditor` group |
| Config.SubstitutionsFromEnvironment | skyflow_databricks/config/config.py:99-109 | from a fresh configuration, under either reading, the substitutions carry the environment's vault URL, vault id and table, and each group as set or else its default |
| Config.SubstitutionsFillPlaceholders | skyflow_databricks/config/config.py:99-109 | in a template `before + ${KEY} + after` with no other `$`, each key's placeholder becomes that key's value, provided the filled text holds no `${` |
| Secrets.BackendIgnoresCase | skyflow_databricks/databricks_ops/secrets.py:30-32 | the backend name is matched regardless of letter case; `azure_keyvault` selects Azure Key Vault |
| Secrets.CreateSecretScope | skyflow_databricks/databricks_ops/secrets.py:20-46 | an existing scope succeeds without a create call; a failed listing is false; otherwise one create call with the mapped backend decides the result |
| Secrets.DeleteSecretScope | skyflow_databricks/databricks_ops/secrets.py:66-84 | an absent scope succeeds without a delete call; a failed listing is false; otherwise one delete call decides the result |
| Secrets.ScopeGuardsIdempotent | skyflow_databricks/databricks_ops/secrets.py:24-27 | once a scope is listed, creating it again makes no call and succeeds; once gone, deleting it again makes no call and succeeds |
| Secrets.FirstMissingConfigKey | skyflow_databricks/databricks_ops/secrets.py:95-98 | the lookup fails on the first of `pat_token`, `vault_id`, `table` that is absent |
| Secrets.SecretValues | skyflow_databricks/databricks_ops/secrets.py:95-100 | exactly four secrets in a fixed order, with `skyflow_table_column` defaulting to `pii_values` |
| Secrets.SetupSkyflowSecrets | skyflow_databricks/databricks_ops/secrets.py:86-107 | the scope is created first, and its failure is false with no writes; then every put is attempted in order, even after a failure, and the result is true iff all succeed |
| Secrets.MissingSecrets | skyflow_databricks/databricks_ops/secrets.py:120 | the missing keys are exactly the required keys not listed |
| Secrets.MissingSecretsKeepOrder | skyflow_databricks/databricks_ops/secrets.py:120 | missing keys are reported in the order of the required keys |
| Secrets.VerifySecrets | skyflow_databricks/databricks_ops/secrets.py:117-127 | true iff every required key is listed, which is iff nothing is reported missing |
| Secrets.VerifyWithoutListing | skyflow_databricks/databricks_ops/secrets.py:109-127 | a failed listing reports every required key, so it passes only when none is required |
| Notebooks.ClassifyVerdicts | skyflow_databricks/databricks_ops/notebooks.py:142-171 | a poll succeeds iff it sees `TERMINATED` with `SUCCESS`; `TERMINATED` with another or no result fails; each listed failure state fails; a poll that raised, a missing state and any other state keep waiting |
| Notebooks.MonitorJobExecution | skyflow_databricks/databricks_ops/notebooks.py:123-176 | at most `ceil(timeout_minutes * 60 / 30)` polls; true iff within that limit a successful poll follows nothing but waiting; each waiting or raising poll adds exactly 30 seconds |
| Notebooks.NoLaterSuccess | skyflow_databricks/databricks_ops/notebooks.py:135-176 | once a poll fails, or the limit passes with nothing but waiting, no poll within the limit can succeed |
| Notebooks.SearchFrom | skyflow_databricks/databricks_ops/notebooks.py:118-119 | `re.search(r'dbc-([a-f0-9]+)-')`: nothing iff no position matches; otherwise the group of the leftmost match, which is non-empty lower-case hex |
| Notebooks.ExtractWorkspaceId | skyflow_databricks/databricks_ops/notebooks.py:112-121 | a missing host gives nothing; for a host, nothing iff no position matches, otherwise the group of the leftmost match, which is non-empty lower-case hex that the host holds between `dbc-` and `-` |
| Notebooks.WorkspaceIdOfStandardHost | skyflow_databricks/databricks_ops/notebooks.py:117-119 | `https://dbc-<id>-<rest>` yields `<id>` |
| Notebooks.DeleteNotebook | skyflow_databricks/databricks_ops/notebooks.py:178-195 | a path that is not an existing notebook succeeds without a delete call; otherwise one delete call decides the result |
| Notebooks.DeleteOnlyNotebooks | skyflow_databricks/databricks_ops/notebooks.py:208-214 | only a notebook is ever deleted, and a failed status lookup counts as done |
| Notebooks.NotebookPaths | skyflow_databricks/databricks_ops/notebooks.py:201-204 | the paths kept are exactly those of listed notebooks |
| Notebooks.NotebookPathsKeepOrder | skyflow_databricks/databricks_ops/notebooks.py:201-204 | the filter keeps listing order |
| Notebooks.ListNotebooks | skyflow_databricks/databricks_ops/notebooks.py:197-206 | a failed listing is empty; otherwise the notebook paths |
| UnityCatalog.ConnectionHostStripsScheme | skyflow_databricks/databricks_ops/unity_catalog.py:154 | `https://<host>` and `http://<host>` give `<host>`, and a bare host is kept, when the host holds no scheme |

## Left out

- Every SDK call, with its retries (`execute_with_retry`, `wait_for_completion`): each becomes the outcome it hands back.
- `execute_statement`: only its outcome is modelled, a response or none.
- Console and progress output, `time.sleep` and `time.time`: the sleeps are the clock advancing by 30 seconds.
- Template file paths and the relative-path resolution of `execute_sql_file`: the file is its text, or none when missing.
- `load_dotenv` and `os.getenv`: the environment is a map.
- `json.loads` is the predicate `isJson`. The re-serialisation by `json.dumps` is not modelled, so the created dashboard carries the substituted text itself.
- `int()` and pydantic's numeric strings are modelled as optional whitespace, an optional sign and ASCII digits. Underscores, non-ASCII digits and pydantic's other coercions are not modelled.
- `str.strip`, `upper` and `lower` are modelled over ASCII only.
- Exceptions other than the ones each operation catches are not modelled. Examples are a missing `schema.columns` in a query manifest and a non-`DatabricksError` exception from a scope call.
- SqlExecutor.GetTableRowCount: its own contract covers only the no-data case. The count read-back is stated by `RowCountReadsCountColumn`, not for every reply shape.
- SqlExecutor.RowDict: a row is a map, which has no key order; the order of a Python dict, which `show_table_sample` prints by, is not modelled.
- Config.Validate: the `client` property reads and caches the Databricks section while authenticating. That caching is not carried into the result; only the authentication outcome is an input.
- The `client` property and `WorkspaceClient` construction are left out.
- `verify_table_exists`, `verify_function_exists`, `show_table_sample`, `update_dashboard_warehouse`, `secret_scope_exists`, `setup_tokenization_notebook` and the job submission in `notebooks.py` are left out: each is a single SDK call or orchestration of one.
- The CLI (`cli/commands.py`, `setup.py`) is not part of this model.
- The rest of `unity_catalog.py` is not part of this model: it is thin wrappers over SDK calls.
- Role-based detokenization and batch tokenization live in SQL and notebook templates that are not part of this model.
- Templates.PlaceholderBecomesValue: covers a template whose only `$` opens the one placeholder. A template with several placeholders is covered piecewise by `SubstitutionIsSequential` and `SingleKeyReplacesEveryOccurrence`, not by a closed result. The same holds for `Config.SubstitutionsFillPlaceholders` and `Dashboards.PrefixPlaceholderBecomesPrefix`.
- UnityCatalog.ConnectionHostStripsScheme: covers only a host holding no scheme. `replace` removes a scheme anywhere in the URL; for example `httphttp://s://` becomes `https://`.

## Findings

| source | as written | input that shows it | evidently intended | confidence | as-written member | corrected member |
|---|---|---|---|---|---|---|
| skyflow_databricks/config/config.py:23 | `get_skyflow_config` always passes `batch_size`, as `None` when `SKYFLOW_BATCH_SIZE` is unset. Pydantic rejects an explicit `None` for a field typed `int`, default or not, so the `skyflow` section raises. | the four required Skyflow variables set, `SKYFLOW_BATCH_SIZE` unset | an unset batch size means 25 | medium, not executed; rests on pydantic rejecting `None` for a non-optional `int` | Config.ToSkyflowConfigAsWritten, Config.BatchSizeDefaultUnreachable | Config.ToSkyflowConfig |
| skyflow_databricks/config/config.py:28-30 | `get_group_mappings` always passes all three keys, as `None` when unset. Pydantic rejects `None` for these `str` fields, so the `groups` section raises instead of using its defaults. | `PLAIN_TEXT_GROUPS` unset | an unset mapping takes its default: `auditor`, `customer_service`, `marketing` | medium, not executed; rests on pydantic rejecting `None` for a non-optional `str` | Config.ToGroupConfigAsWritten, Config.GroupDefaultsUnreachable, Config.SubstitutionsNeedGroupsAsWritten | Config.ToGroupConfig |
