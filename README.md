# oct-api-server core, modelled in Dafny

oct-api-server hosts small applications described by an `app.yml` file. The
file declares:

- models: tables of typed fields;
- API endpoints with first-match access rules.

Through HTTP and a GraphQL subset, the server gives each application a
SQLite store of rows.

This project models the server's deterministic core, with one module per
source file (two modules for `src/types.rs`):

- `Common`: option, result and outcome types, plus the string and integer
  helpers the others share (split/join, decimal printing and parsing, UTF-8
  length).
- `Schema` (`src/types.rs`):
  - the application / model / field / endpoint tree;
  - its all-or-nothing validators;
  - model and endpoint lookup;
  - the default access rules.
- `Rows` (`src/types.rs`): the dynamic row value (`Row`, `RowField`) and its
  JSON encoding and decoding.
- `Stats` (`src/types.rs`): the accounting structures:
  - `TimeSeriesData`, a capacity-bounded list of interval buckets, newest first;
  - `TimeSeries`, a minutely, an hourly and a daily series;
  - the `Stats` object, whose counters `tick` folds into the series.

  `Stats` is a class whose methods update its fields.
- `Db` (`src/db.rs`):
  - the storage boundary: `RowField` to storage value;
  - a storage row to `Row`, with NULL handled specially;
  - the SELECT text and the row-limit loop of `do_query`;
  - `query` and `get`;
  - `Connection`, a class that records every statement sent to the engine
    and answers with an engine-supplied reply.
- `Model` (`src/model.rs`):
  - the column types;
  - the CREATE / ALTER text and the additive migration;
  - insert, update and delete with their error cases;
  - the row-visibility condition.

  Condition text is given a meaning by a small evaluator of the WHERE
  grammar the server emits.
- `Api` (`src/api.rs`):
  - rule matching by method and role;
  - first-match access checking with the admin bypass;
  - token-to-identity resolution;
  - the admin gate of the auth sub-API;
  - the key list of a delete request;
  - the id parameter of a GET request;
  - the unit parameter of the count query.
- `GraphQL` (`src/graphql.rs`): the executor over a parsed document, modelled
  as a datatype. It refuses unsupported constructs, projects the requested
  fields out of the selected rows, and builds the `{"data": [...]}` envelope.
- `Apps` (`src/apps.rs`):
  - application paths and status;
  - the size check on `app.yml`;
  - `sync_models`, which creates, skips or alters each model's table in order
    against the database's table list and the previous definition.
- `Http` (`src/http.rs`):
  - bearer-token extraction;
  - content-type guessing;
  - prefix routing and the documentation path mapping;
  - turning handler errors into 500 replies.

## How the world outside the core enters the model

- **The database** is a `Db.Connection`:
  - `log` is the list of statements sent so far;
  - `reply(n)` is the engine's answer to the `n`-th statement.

  The engine's answers to SELECT texts are a function `Db.Answers` from
  the text to the raw rows it returns, in order, or to the error of
  preparing or running it (an unknown table, or a model without fields,
  whose column list is empty). What `select` means is stated against an
  engine that evaluates the WHERE text over a stored table
  (`Model.Matching`). The table list of `DB::tables` is a
  `Result<seq<string>>` parameter.
- **The clock** is an integer parameter `now`, in seconds.
- **Observable `HashMap` iteration order** is an explicit `order` parameter
  listing the keys; only the SET list of `update` depends on it. A JSON
  object is an unordered map, so `from_value` and `to_value` pick their
  keys in no fixed order, and which failing member `from_value` reports is
  left open.
- **Panics** (`unwrap`, missing previous definition) are an `Err(Panic(..))`
  result rather than a precondition.

Where the code and its description differ, the model follows the code:

- The anonymous caller sees every row of an owner-scoped model. `condition`
  treats `None` like the administrator.
- The user model's secret field is named `pass`.
- The GraphQL "field not found" error is raised only when at least one row
  is selected. Without rows the answer is an empty array, whatever was
  requested.

## Model

| member | source | states |
|---|---|---|
| Schema.ScanChars | src/types.rs:289-300 | the scan passes iff every character is allowed; a failure names the first character that is not |
| Schema.ValidateId | src/types.rs:289-300 | passes exactly on non-empty strings over `[A-Za-z0-9_]`; the empty string fails with its own error, and any other failure names an offending character of the input |
| Schema.ValidatePath | src/types.rs:314-338 | passes exactly on non-empty strings over `[A-Za-z0-9_/.-]`, for both the API-path and the file-path check; same error cases as identifiers |
| Schema.ValidateText | src/types.rs:302-312 | passes iff the UTF-8 length is within the maximum and no character is a control character; "too long" is reported exactly when the length is over the maximum |
| Schema.ValidateEach | src/types.rs:832-840 | passes iff every element passes; otherwise the result is the failure of the first failing element |
| Schema.ValidateDescription | src/types.rs:348-354 | an absent description passes; a present one passes iff it is text of at most 1024 bytes |
| Schema.ValidateField | src/types.rs:408-419 | passes iff the name (and a reference's target) is an identifier and the description is valid; a bad name is the error reported |
| Schema.ValidateModel | src/types.rs:677-688 | passes iff the name, the description and every field are valid; a bad name is the error reported |
| Schema.ValidateRule | src/types.rs:535-540 | a rule passes iff its role, when present, is an identifier |
| Schema.ValidateAccess | src/types.rs:731-739 | access rules pass iff each rule passes |
| Schema.ValidateEndpoint | src/types.rs:569-658 | passes iff name, path, description (1024), the variant's payload (4096-byte response, file path or model identifier) and the access rules are valid; a bad name, then a bad path, is the error reported |
| Schema.ValidateMeta | src/types.rs:809-814 | passes iff the schema version is `v0.0.1`, and a failure names the version found |
| Schema.ValidateApp | src/types.rs:832-840 | passes iff the name is an identifier, the schema is `v0.0.1`, every model and every endpoint is valid; the error reported is the first violation in that order |
| Schema.LoadAppDef | src/types.rs:826-830 | a parsed definition is returned unchanged iff it is valid; otherwise the parse error or the validation error is returned |
| Schema.SchemaVersionExamples | src/types.rs:984-1006 | a definition with schema `v2` is refused and one with `v0.0.1` and nothing else is accepted |
| Schema.GetModel | src/types.rs:842-849 | none iff no model has the name; otherwise the first model with that name |
| Schema.FindEndpoint | src/types.rs:779-786 | none iff no endpoint has the path; otherwise the first endpoint with that path |
| Schema.GetRules | src/types.rs:750-756 | a bare action becomes one rule with that action and no method or role; a rule list is returned unchanged |
| Schema.GetDefaultAccess | src/types.rs:770-775 | without a default, a single rule allowing GET to anyone; otherwise the default's rules |
| Rows.FieldToJson | src/types.rs:863-872 | only `Null` becomes JSON null, and exactly integers and dates become integral numbers: a date is rendered as a plain integer |
| Rows.FieldInt | src/types.rs:874-879 | an integer is returned exactly for an `Integer` field, and it is that field's value; a date gives none |
| Rows.DecodeMember | src/types.rs:899-923 | a member decodes iff it is a boolean, a string, a float or an integer in the signed 64-bit range; null, arrays and objects are refused |
| Rows.FromValue | src/types.rs:899-923 | a non-object is refused; an object decodes iff every member does, the row's keys are the object's keys, and a failure is the error of some member |
| Rows.ToValue | src/types.rs:925-931 | the row becomes the object of its fields' JSON values |
| Rows.RowJsonRoundTrip | src/types.rs:899-931 | a row without nulls, dates or out-of-range integers survives encoding and decoding unchanged |
| Rows.DateTimeComesBackAsInteger | src/types.rs:863-872 | a date read back from JSON is an `Integer` of the same value |
| Rows.Get | src/types.rs:933-935 | some iff the field is present, and then its value |
| Rows.Set | src/types.rs:937-939 | the field reads back as the value set, the key set gains only that field, and every other field is unchanged |
| Rows.GetStr | src/types.rs:941-946 | some iff the field is present and a string, and then that string |
| Rows.GetInt | src/types.rs:948-953 | some iff the field is present and an integer, and then that integer |
| Stats.UnitLen | src/types.rs:28-34 | a unit has a positive number of buckets (60, 24 or 30) |
| Stats.PushRaw | src/types.rs:63-68 | the value is put in front, the oldest values beyond the capacity are dropped, and the length never exceeds the capacity |
| Stats.SkipGapsClosedForm | src/types.rs:83-92 | the gap loop advances the interval start by whole intervals, and the number of empty buckets is the number of whole intervals missed |
| Stats.FillGaps | src/types.rs:83-87 | the gap loop pushes one zero per missed interval and leaves the start at the computed interval |
| Stats.AddDataSpec | src/types.rs:74-96 | the reference `add_data` keeps the data within its capacity and keeps the capacity and the interval length |
| Stats.AddData | src/types.rs:74-96 | the update equals the reference definition of `add_data`, which keeps the data within capacity |
| Stats.AddDataFirstUse | src/types.rs:76-80 | the first value is pushed and the interval starts now |
| Stats.AddDataWithinInterval | src/types.rs:83-95 | within the current interval the value is added to the newest bucket and nothing else changes |
| Stats.AddDataCoversNow | src/types.rs:74-96 | after an update the current interval contains `now` |
| Stats.SameInstantMerges | src/types.rs:74-96 | two values added at the same instant end up in the same bucket |
| Stats.NewTimeSeries | src/types.rs:111-117 | three empty, never-used series holding up to 60 one-minute, 24 one-hour and 30 one-day buckets |
| Stats.SeriesAdd | src/types.rs:119-123 | the value is added to each of the three series |
| Stats.GetByUnit | src/types.rs:137-143 | the minutely, hourly or daily series' data for the matching unit, never longer than the unit's bucket count |
| Stats.SumValues | src/types.rs:198-214 | the loop's total is the sum of the map's values |
| Stats.Accounted | src/types.rs:162-167 | the event's counter is one more than before (created at 1), and every other counter is unchanged |
| Stats.TickedShaped | src/types.rs:180-196 | folding the counters keeps every series well formed |
| Stats.TickStartsSeries | src/types.rs:180-196 | a counter without a series starts one holding just its count |
| Stats.TickMergesIntoNewest | src/types.rs:180-196 | within the current minute, a counter is added to its series' newest bucket |
| Stats.FoldCounters | src/types.rs:183-195 | the loop zeroes every counter and leaves exactly the ticked series: each counter added to its series (created when absent), the other series untouched |
| Stats.FoldedAll | src/types.rs:183-195 | once every counter is folded in, the counters are all zero and the series are the ticked ones |
| Stats.Stats.constructor | src/types.rs:154-160 | no counters, no series |
| Stats.Stats.Account | src/types.rs:162-167 | the counters become the accounted map; the series are unchanged |
| Stats.Stats.GetByPrefix | src/types.rs:169-177 | exactly the counters whose name has the prefix, with their values |
| Stats.Stats.Tick | src/types.rs:180-196 | nothing changes while the minute of the hour is unchanged; otherwise every counter is folded into its series and reset to zero |
| Stats.AddBuckets | src/types.rs:206-211 | adds one series' buckets to the totals position by position, as far as the totals reach, and keeps their number |
| Stats.SeriesTotals | src/types.rs:201-212 | the loop over the series skips those without the prefix and leaves, in each bucket, the starting value plus that bucket summed over every series with the prefix |
| Stats.Stats.TimeSeriesByPrefix | src/types.rs:198-214 | one total per bucket of the unit (60/24/30); bucket `i` sums that bucket over every series with the prefix, and bucket 0 also sums the live counters with the prefix |
| Db.ToDbValue | src/db.rs:102-111 | null to NULL, string to text, float to real; integers, dates and booleans to integers (booleans as 1/0) |
| Db.DecodeColumn | src/db.rs:46-62 | a NULL column is `Null` whatever the declared type; a missing column is a storage error; only a NULL column gives `Null` |
| Db.StoreLoadRoundTrip | src/db.rs:44-62 | a value of the field's declared type decodes back to itself after being stored |
| Db.DecodedRowShape | src/db.rs:42-65 | a decoded row has exactly the declared field names plus `id`, and `id` is column 0 as an integer |
| Db.DecodedFieldValue | src/db.rs:44-62 | each declared field holds the decoding of its own column (column k+1), the last declaration of a name winning |
| Db.NullColumnIsNull | src/db.rs:46-51 | a NULL column is read back as `Null` in the decoded row |
| Db.DecodeRow | src/db.rs:42-65 | the per-column loop decodes a storage row as the decoding function does |
| Db.SelectText | src/db.rs:39-41 | the SELECT starts with `id` and ends with the condition, `1` when none is given |
| Db.SelectListsFields | src/db.rs:39 | the column list is exactly the declared field names in order |
| Db.Collected | src/db.rs:67-81 | collection succeeds iff every row up to the limit decodes; it then holds exactly those rows in order |
| Db.DoQuery | src/db.rs:38-83 | an engine error in preparing or running the SELECT is returned as is; otherwise the rows gathered as written, with the limit checked after the push |
| Db.GatherRows | src/db.rs:67-82 | the loop, as written, collects the decoded rows with the limit check after the push, stopping with a storage error at the first row that does not decode |
| Db.DoQueryOverfetches | src/db.rs:67-81 | as written, a limit of x yields x+1 rows when that many exist |
| Db.DoQueryLimited | src/db.rs:67-81 | the corrected loop never yields more rows than the limit |
| Db.Query | src/db.rs:85-87 | the engine's error for the SELECT, or: succeeds iff every returned row decodes, and then returns all of them, decoded, in order |
| Db.GetAsWritten | src/db.rs:89-92 | as written: the engine's error is returned; otherwise it succeeds exactly when the first two fetched rows (as many as there are) decode, and fails with a storage error when not; with two or more matches the second one is returned, with one the first, with none nothing |
| Db.CapsAgreeOnOneRow | src/db.rs:67-92 | with at most one matching row the as-written and the corrected limit gather the same rows |
| Db.GetReturnsSecondMatch | src/db.rs:89-92 | two users with the same name: the lookup returns the row with id 2 |
| Db.Get | src/db.rs:89-92 | the corrected lookup: the engine's error, none when nothing matches, otherwise the first match (or its decoding error) |
| Db.Connection.constructor | src/db.rs:18-25 | a fresh connection has sent nothing |
| Db.Connection.Execute | src/db.rs:94-98 | the statement is appended to what was sent and the engine's reply to it is returned |
| Model.IsOptional | src/model.rs:56-67 | a field is optional iff its flag is present and true |
| Model.DefaultValue | src/model.rs:23-37 | a default exists exactly for a date field with `default_now` true, and it is the current time |
| Model.TypeSqlShape | src/model.rs:39-54 | a column is the field's name and type, and ends in `NOT NULL` iff the field is not optional |
| Model.MakeUserModel | src/model.rs:71-84 | the internal user model has no scope and four required string fields `name`, `email`, `pass`, `token` |
| Model.ColumnDefs | src/model.rs:86-101 | one column definition per declared field, in declaration order |
| Model.CreateTableQuery | src/model.rs:86-101 | the loop builds the CREATE TABLE text: the four fixed columns, then one column per field |
| Model.CreateTable | src/model.rs:111-115 | one CREATE statement is sent and its reply decides the outcome |
| Model.AlterTableTextShape | src/model.rs:103-109 | an ALTER names the table and adds the field's column |
| Model.AlterStatementsFor | src/model.rs:117-131 | there is an ALTER for every new field whose name the old model lacks, and only for such fields |
| Model.AlterNothingNew | src/model.rs:117-131 | no ALTER is planned when the new names are among the old ones |
| Model.AlterIdempotent | src/model.rs:117-131 | migrating a model against itself plans nothing |
| Model.AlterTable | src/model.rs:117-131 | the planned ALTERs are sent in order until the first refused one, and the outcome is that refusal or success |
| Model.FirstFailure | src/model.rs:123-129 | the position of the first refused reply, or none when all are accepted |
| Model.InsertFailsOnMissing | src/model.rs:137-153 | the insert fails iff some required field without a default is missing, and the error names the first one |
| Model.InsertColumnsSupplied | src/model.rs:137-153 | on success the columns are exactly the supplied fields, each paired with its value or its default |
| Model.PlaceholderCount | src/model.rs:154-157 | the INSERT has exactly as many `?` as values |
| Model.Create | src/model.rs:133-160 | no fields is a panic; a missing field fails without sending; otherwise one INSERT with the owner first (uid or -1) is sent, and success is reported whatever the reply |
| Model.ScopeClauseMeaning | src/model.rs:204-222 | the scope clause holds for a row iff the row is visible to the caller |
| Model.IdClauseMeaning | src/model.rs:218-220 | `id=<n>` holds exactly for the row with id n |
| Model.ConditionMeaning | src/model.rs:208-222 | the condition holds for a row iff the row is visible and, when an id is given, has that id |
| Model.ParseAllIntStrings | src/model.rs:190-198 | the printed keys parse back to the same keys |
| Model.IdListMeaning | src/model.rs:190-198 | the printed key list `(a,b,...)` parses back to the keys |
| Model.DeleteMeaning | src/model.rs:190-198 | the delete condition holds for a row iff the row is visible and its id is among the keys |
| Model.Delete | src/model.rs:190-198 | one DELETE is sent and the engine's count is returned |
| Model.Select | src/model.rs:200-202 | the query runs under `condition(uid, id)`; against an engine that evaluates that text over a table, the result is exactly the rows visible to `uid` (only row `id` when one is given), decoded, in table order |
| Model.VisibleRows | src/model.rs:204-222 | every visible row of the table is listed and every listed row is visible |
| Model.ConditionSelects | src/model.rs:208-222 | evaluated row by row, the condition picks exactly the visible rows |
| Model.SelectSeesVisible | src/model.rs:200-202 | against an engine that evaluates the WHERE text, `select` yields the visible rows decoded, in table order |
| Model.SelectByIdYieldsThatId | src/model.rs:200-222 | over a table whose rows store their own id as first column (`Model.WellFormedTable`), a select for id `n` yields only rows whose `id` field is `n` |
| Model.SetKeys | src/model.rs:166-173 | the SET keys are the row's keys other than `id` |
| Model.UpdateSetsAllButId | src/model.rs:162-187 | every field but `id` is set, each once |
| Model.SetKeysDistinct | src/model.rs:166-173 | distinct keys stay distinct after `id` is removed |
| Model.UpdateColumns | src/model.rs:165-174 | the loop yields exactly the SET keys and values of `SetKeys`/`SetValues` and the row's integer `id` if it has one; it panics exactly when `id` is present and not an integer |
| Model.Update | src/model.rs:162-187 | no `id` fails without sending; a non-integer `id` panics; otherwise one UPDATE restricted to the visible row with that id is sent and its reply decides the outcome |
| Api.AsciiLower | src/api.rs:242 | each ASCII capital becomes its lower-case letter, and nothing else changes |
| Api.LowerHyperName | src/api.rs:242 | lower-casing the HTTP library's method name gives the rule's method name |
| Api.RuleMatch | src/api.rs:194-213 | a rule matches iff it has no method or the same method, and its role admits the caller (no role; anonymous, admin, or user by uid; any other role never) |
| Api.UpperCaseNeverMatches | src/api.rs:199-203 | an un-lowered method name never matches a rule with a method |
| Api.FirstMatch | src/api.rs:241-246 | the position of the first matching rule, or none when no rule matches |
| Api.GoverningRules | src/api.rs:231-240 | the endpoint's own rules win, then the application's default, and otherwise there are none |
| Api.CheckAccessMeaning | src/api.rs:215-247 | access is granted iff the caller is the administrator, or the first rule that matches allows |
| Api.EarlierRuleDecides | src/api.rs:241-246 | when the first rule matches, its action alone decides |
| Api.NoRulesDeny | src/api.rs:231-240 | with neither endpoint rules nor a default, only the administrator gets through, even though the default-access rule allows GET |
| Api.MethodRuleAllows | src/api.rs:215-247 | a single allow rule for a method admits that method from anyone |
| Api.TokenConditionQuoted | src/api.rs:169-192 | a token without quotes is enclosed in exactly one pair of quotes |
| Api.TokenUserIsStoredId | src/api.rs:184-191 | the identity is the id of the matching user row |
| Api.ApiAuthenticate | src/api.rs:169-192 | no token, or one with a quote, is anonymous; the admin token is uid 0; any other token resolves to the first matching user's id, or to none when the lookup fails or finds nobody; only a database that does not open is an error |
| Api.AuthGate | src/api.rs:157-161 | the auth sub-API admits only uid 0 |
| Api.DeleteKeys | src/api.rs:42-58 | the keys are the body's `pks`, then the body's `id` if present |
| Api.DeleteRequestMeaning | src/api.rs:42-58 | a delete request removes exactly the visible rows named by `pks` or `id` |
| Api.GetId | src/api.rs:10-16 | an id is read iff the parameter is a decimal integer in the signed 64-bit range |
| Api.GetIdRoundTrip | src/api.rs:10-16 | a printed 64-bit integer reads back as itself |
| Api.NonNumericIdListsAll | src/api.rs:10-20 | a non-numeric id lists every visible row |
| Api.QueryCountUnit | src/api.rs:97-110 | `day` is daily, any other given value except `hour` is minutely, and hourly otherwise |
| GraphQL.SubFieldValue | src/graphql.rs:88-101 | a sub-selection has a value iff it is a plain field the row has, and then it is that field's JSON value |
| GraphQL.RowObjectMeaning | src/graphql.rs:86-103 | a row's object exists iff every sub-selection is a plain field the row has; its keys are the requested names, bound to the row's values |
| GraphQL.RowObjects | src/graphql.rs:84-106 | one object per row, in order |
| GraphQL.QueryField | src/graphql.rs:66-107 | the loop computes the field's result: refuses aliases, arguments, directives and unknown models, otherwise projects every selected row |
| GraphQL.ProjectRows | src/graphql.rs:84-105 | the row loop yields the array of row objects in row order, or the error of the first row whose object fails |
| GraphQL.ProjectRow | src/graphql.rs:86-103 | the inner loop builds the row's object or stops at the first bad sub-selection |
| GraphQL.ExecuteSelection | src/graphql.rs:39-49 | a field selection is queried, anything else fails |
| GraphQL.ExecuteSelections | src/graphql.rs:60-62 | the items' values in order, or the first item's error |
| GraphQL.ExecuteQuery | src/graphql.rs:51-64 | variable definitions or directives fail; otherwise the array of the items' values |
| GraphQL.ExecuteDefinition | src/graphql.rs:19-32 | one definition's contribution to `data`: a query's value, a bare selection set's values, or the refusal of fragments and other operations |
| GraphQL.ExecuteDoc | src/graphql.rs:16-37 | the loop computes the document's result: `{"data": ...}` over the definitions, or the first error |
| GraphQL.UnsupportedDefinitionFails | src/graphql.rs:16-37 | a fragment, a mutation or a subscription anywhere makes the whole document fail |
| GraphQL.QueryWithExtrasFails | src/graphql.rs:53-58 | a query with variable definitions or directives fails |
| GraphQL.DecoratedFieldFails | src/graphql.rs:70-78 | a field with an alias, arguments or directives fails, and not as an unknown model |
| GraphQL.UnknownModelFails | src/graphql.rs:79-83 | a field that names no model fails with "model not found" |
| GraphQL.SelectedRowsVisible | src/graphql.rs:84 | a field selects its model's rows under the caller's uid: against an engine that evaluates the WHERE text, exactly the rows the caller may see, in table order |
| GraphQL.FieldProjects | src/graphql.rs:84-106 | on success there is one object per selected row, whose keys are exactly the requested names, bound to that row's values |
| GraphQL.NoRowsNoChecks | src/graphql.rs:84-106 | with no rows the answer is an empty array, whatever the sub-selections |
| GraphQL.NonFieldSelectionFails | src/graphql.rs:39-49 | a non-field item in a selection set makes it fail |
| GraphQL.BareSetEnvelope | src/graphql.rs:24-36 | the envelope has only `data`, holding one element per item of a bare selection set |
| GraphQL.QueryEnvelope | src/graphql.rs:21-23 | a query contributes one element to `data`: the array of its items' values |
| Apps.AppPaths | src/apps.rs:44-55 | the repository is `apps/<handle>/repo` and the database `apps/<handle>/db.sqlite`, both inside the application's directory |
| Apps.HandleRecoverable | src/apps.rs:44-55 | the handle can be read back from each path |
| Apps.DistinctHandles | src/apps.rs:44-55 | different handles share no directory and no file |
| Apps.Status | src/apps.rs:57-67 | `RUNNING` iff the repository exists, `PENDING` iff not |
| Apps.RepoAppDef | src/apps.rs:92-100 | a size error is returned; a file over 64 KiB is refused; otherwise the parsed definition is returned |
| Apps.SyncOrder | src/apps.rs:72-75 | the internal user model first, then the declared models in order |
| Apps.SyncModel | src/apps.rs:76-88 | one model's migration: what is sent and the outcome are those of its step |
| Apps.SyncModels | src/apps.rs:70-90 | a table-list error is returned without sending anything; otherwise each model is migrated in order until the first failure |
| Apps.SyncOneEach | src/apps.rs:76-89 | when every step sends one statement and succeeds, there is exactly one statement per model, in order |
| Apps.SyncFailsOnBad | src/apps.rs:76-89 | when steps panic exactly on bad models, the migration fails iff some model is bad |
| Apps.CreateWhenAbsent | src/apps.rs:85-87 | a model without a table gets its CREATE statement |
| Apps.FreshDatabase | src/apps.rs:70-90 | on an empty database every model's table is created, in order |
| Apps.UserTableFirst | src/apps.rs:72-87 | without a user table, the first statement creates it |
| Apps.InternalTablesUntouched | src/apps.rs:79-82 | an existing internal table is skipped |
| Apps.NoPreviousStep | src/apps.rs:83-84 | without a previous definition, a model whose table exists and is not internal panics, and only such a model |
| Apps.NoPreviousDefinition | src/apps.rs:70-90 | without a previous definition the migration panics iff some model's table exists and is not internal |
| Apps.UnchangedModelStep | src/apps.rs:76-88 | an existing model that is unchanged in the previous definition sends nothing |
| Apps.Redeploy | src/apps.rs:70-90 | redeploying the same definition over existing tables sends nothing and succeeds |
| Http.GetAuthTokenMeaning | src/http.rs:197-212 | a token is found iff the header holds exactly one space; it is the text after the space, which holds no space |
| Http.GetAuthTokenRoundTrip | src/http.rs:207-211 | `<scheme> <token>` gives the token back |
| Http.NoTokenWithoutSpace | src/http.rs:198-206 | an absent header or one without a space gives no token |
| Http.SuffixDecides | src/http.rs:65-86 | a name ending in `.css`, `.js`, `.html`, `.png`, `.jpeg` or `.gif` gets that suffix's type |
| Http.PlainTextFallback | src/http.rs:65-86 | a name gets `text/plain` iff it has none of the recognised suffixes |
| Http.HandlerPrefixes | src/http.rs:132-153 | each handler is chosen iff the path has that handler's prefix (`/a/`, `/auth/`, `/meta/`, `/feedback/`) or is `/status` |
| Http.DocRoute | src/http.rs:158-164 | a `/doc/` path is served from `./doc/site/`; a directory gets its `index.html` |
| Http.DocRedirect | src/http.rs:155-157 | `/doc` redirects to `/doc/` |
| Http.UiFallback | src/http.rs:165-177 | any other path is a file of the built interface, or the interface's entry page |
| Http.Finish | src/http.rs:132-153 | a handler error becomes a 500 reply; a response passes through |

## Left out

- The SQL engine: statements are recorded rather than executed.
  - The engine's replies come from the connection's `reply` function.
  - The engine's answer to a SELECT is a function of its text (`Db.Answers`): the raw rows, or an error of preparing or running it. The stored tables behind those answers are not modelled, except where `select` is related to a table that the WHERE text is evaluated over (`Model.SelectSeesVisible`).
  - `DB::tables` is an input of the migration.
- Opening the database file and its file lock (`DB::new`), the `Mutex` around the shared context, and all concurrency.
- File and directory access:
  - `du` sizes, reading `app.yml`, whether the repository or a UI file exists;
  - these come in as parameters;
  - `file_response` and the 404 reply are not part of this model.
- YAML and JSON parsing, GraphQL parsing and query-string decoding. Their outputs are inputs of the model; a document is a datatype.
  - GraphQL arguments and directives are kept only as their counts.
  - `handle_graphql_get` and `handle_graphql_post` are not part of this model.
- The request plumbing of `handle_api_request`:
  - endpoint dispatch by method;
  - body reading;
  - the JSON body of a delete, including its 400 reply on a parse failure;
  - the string and static-file endpoints.

  Only the pieces listed in the table are modelled.
- `OctApp::create` and `OctApp::get_def` (registry calls and random strings), and `gen_random_string`.
- The clock: every function that needs the time takes it as a parameter.
- Floating-point values are opaque tokens. Nothing numeric is proved about them, and a float that JSON cannot represent is not distinguished.
- Api.ApiAuthenticate: a token held by several users resolves to the first of them, through the corrected `Db.Get`. The code as written (`db.get`, src/db.rs:89-92) resolves it to the second (see "## Findings"). With at most one matching user the two agree (`Db.CapsAgreeOnOneRow`).
- Api.AsciiLower: lower-casing is modelled for ASCII letters only. It is only applied to HTTP method names, which are ASCII.
- Http.GetAuthToken: a header that is not visible ASCII is modelled as an absent header.
- Stats.Stats.Tick: the order in which counters are folded is left open. No result depends on it.
- Stats: 64-bit wrap-around of the counters is not modelled; counts are unbounded naturals.
- The logging done with `println!` is not modelled.

## Findings

| source | as written | input that shows it | evidently intended | confidence | as-written member | corrected member |
|---|---|---|---|---|---|---|
| src/db.rs:67-81, 89-92 | `do_query` pushes a row before comparing the count with the limit, so a limit of x collects x+1 rows; `get` (limit 1) then pops the last of them | a user table with two rows whose token matches: `get` returns the row with id 2 instead of the first match | a limit of x yields at most x rows, so `get` returns the first match | not executed | Db.GetReturnsSecondMatch | Db.Get |

`Db.DoQueryOverfetches` and `Db.GetAsWritten` state the as-written behaviour in general: `Db.GetAsWritten` says when it succeeds (the first two fetched rows decode) and which row it returns. `Db.DoQueryLimited` is the corrected loop. The rest of the model, including the token lookup in `Api.ApiAuthenticate`, uses the corrected `Db.Get`.
