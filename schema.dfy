/** The application definition tree (models, fields, endpoints, access
    rules) of `src/types.rs`, its validators, and the lookups the engine
    performs on it. Validation is all-or-nothing and reports the first
    violation it meets. */
module Schema {
  import opened Common

  // ---------------------------------------------------------------- character classes

  predicate IsIdChar(c: char)
  {
    'a' <= c <= 'z' || 'A' <= c <= 'Z' || '0' <= c <= '9' || c == '_'
  }

  predicate IsPathChar(c: char)
  {
    IsIdChar(c) || c == '/' || c == '-' || c == '.'
  }

  /** Rust's `char::is_control`: the Unicode general category Cc. */
  predicate IsControl(c: char)
  {
    c as int <= 0x1F || 0x7F <= c as int <= 0x9F
  }

  /** A well-formed identifier: non-empty, over `[A-Za-z0-9_]`. */
  predicate IsIdentifier(s: string)
  {
    |s| > 0 && forall k | 0 <= k < |s| :: IsIdChar(s[k])
  }

  /** A well-formed API or file path: non-empty, over `[A-Za-z0-9_/.-]`. */
  predicate IsPath(s: string)
  {
    |s| > 0 && forall k | 0 <= k < |s| :: IsPathChar(s[k])
  }

  /** Text of at most `maxLength` UTF-8 bytes without control characters. */
  predicate IsText(s: string, maxLength: nat)
  {
    Utf8Len(s) <= maxLength && forall k | 0 <= k < |s| :: !IsControl(s[k])
  }

  // ---------------------------------------------------------------- validators

  /** Scans `s` left to right and fails on the first character outside `allowed`. */
  function ScanChars(s: string, allowed: char -> bool): (r: Outcome)
    ensures r.Pass? <==> forall k | 0 <= k < |s| :: allowed(s[k])
    ensures r.Fail? ==> exists k | 0 <= k < |s| ::
      r == Fail(InvalidChar(s[k])) && !allowed(s[k]) && forall j | 0 <= j < k :: allowed(s[j])
  {
    if |s| == 0 then Pass
    else if !allowed(s[0]) then Fail(InvalidChar(s[0]))
    else
      var rest := ScanChars(s[1..], allowed);
      assert rest.Fail? ==> exists k | 1 <= k < |s| ::
        rest == Fail(InvalidChar(s[k])) && !allowed(s[k]) && forall j | 0 <= j < k :: allowed(s[j]) by {
        if rest.Fail? {
          var k :| 0 <= k < |s[1..]| && rest == Fail(InvalidChar(s[1..][k])) && !allowed(s[1..][k])
                   && forall j | 0 <= j < k :: allowed(s[1..][j]);
          assert forall j | 0 <= j < k + 1 :: allowed(s[j]) by {
            forall j | 0 <= j < k + 1 ensures allowed(s[j]) {
              if j > 0 { assert s[j] == s[1..][j - 1]; }
            }
          }
        }
      }
      rest
  }

  /** `validate_id`: fails on the empty string, then on the first character
      outside `[A-Za-z0-9_]`. */
  function ValidateId(id: string): (r: Outcome)
    ensures r.Pass? <==> IsIdentifier(id)
    ensures |id| == 0 ==> r == Fail(EmptyIdentifier)
    ensures |id| > 0 && r.Fail? ==> r.error.InvalidChar? && !IsIdChar(r.error.c) && r.error.c in id
  {
    if |id| < 1 then Fail(EmptyIdentifier) else ScanChars(id, IsIdChar)
  }

  /** `validate_api_path` and `validate_file_path` (two identical checks in
      the source): fail on the empty string, then on the first character
      outside `[A-Za-z0-9_/.-]`. */
  function ValidatePath(path: string): (r: Outcome)
    ensures r.Pass? <==> IsPath(path)
    ensures |path| == 0 ==> r == Fail(EmptyPath)
    ensures |path| > 0 && r.Fail? ==> r.error.InvalidChar? && !IsPathChar(r.error.c) && r.error.c in path
  {
    if |path| < 1 then Fail(EmptyPath) else ScanChars(path, IsPathChar)
  }

  /** `validate_text`: the byte length is checked before the characters. */
  function ValidateText(text: string, maxLength: nat): (r: Outcome)
    ensures r.Pass? <==> IsText(text, maxLength)
    ensures r == Fail(TextTooLong) <==> Utf8Len(text) > maxLength
    ensures r.Fail? ==> r.error == TextTooLong || r.error == ControlChar
  {
    if Utf8Len(text) > maxLength then Fail(TextTooLong)
    else
      match ScanChars(text, c => !IsControl(c))
      case Pass => Pass
      case Fail(_) => Fail(ControlChar)
  }

  /** Runs `check` on every element in order and stops at the first failure. */
  function ValidateEach<T>(xs: seq<T>, check: T -> Outcome): (r: Outcome)
    ensures r.Pass? <==> forall k | 0 <= k < |xs| :: check(xs[k]).Pass?
    ensures r.Fail? ==> exists k | 0 <= k < |xs| ::
      r == check(xs[k]) && forall j | 0 <= j < k :: check(xs[j]).Pass?
  {
    if |xs| == 0 then Pass
    else if check(xs[0]).Fail? then check(xs[0])
    else
      var rest := ValidateEach(xs[1..], check);
      assert rest.Fail? ==> exists k | 1 <= k < |xs| ::
        rest == check(xs[k]) && forall j | 0 <= j < k :: check(xs[j]).Pass? by {
        if rest.Fail? {
          var k :| 0 <= k < |xs[1..]| && rest == check(xs[1..][k])
                   && forall j | 0 <= j < k :: check(xs[1..][j]).Pass?;
          forall j | 0 <= j < k + 1 ensures check(xs[j]).Pass? {
            if j > 0 { assert xs[j] == xs[1..][j - 1]; }
          }
        }
      }
      rest
  }

  // ---------------------------------------------------------------- fields and models

  const DESCRIPTION_MAX: nat := 1024
  const RESPONSE_MAX: nat := 4096
  const SCHEMA_VERSION: string := "v0.0.1"

  datatype SimpleDesc = SimpleDesc(name: string, description: Option<string>, optional: Option<bool>)
  datatype DateTimeDesc = DateTimeDesc(name: string, description: Option<string>, optional: Option<bool>,
                                       defaultNow: Option<bool>)
  datatype ReferenceDesc = ReferenceDesc(name: string, description: Option<string>, target: string,
                                         optional: Option<bool>)

  datatype FieldDef =
    | StringField(d: SimpleDesc)
    | IntegerField(d: SimpleDesc)
    | BooleanField(d: SimpleDesc)
    | FloatField(d: SimpleDesc)
    | DateTimeField(dt: DateTimeDesc)
    | UserField(d: SimpleDesc)
    | ReferenceField(rd: ReferenceDesc)

  datatype VisibilityScope = Everyone | Owner

  datatype ModelDef = ModelDef(name: string, description: Option<string>, fields: Option<seq<FieldDef>>,
                               visibilityScope: Option<VisibilityScope>)

  /** `FieldDef::name` (src/model.rs). */
  function FieldName(f: FieldDef): string
  {
    match f
    case DateTimeField(dt) => dt.name
    case ReferenceField(rd) => rd.name
    case _ => f.d.name
  }

  /** The declared fields of a model; an absent list is an empty one. */
  function Fields(m: ModelDef): seq<FieldDef>
  {
    if m.fields.Some? then m.fields.value else []
  }

  /** The declared field names, in declaration order. */
  function FieldNames(fs: seq<FieldDef>): (names: seq<string>)
    ensures |names| == |fs|
    ensures forall k | 0 <= k < |fs| :: names[k] == FieldName(fs[k])
  {
    if |fs| == 0 then [] else [FieldName(fs[0])] + FieldNames(fs[1..])
  }

  predicate IsValidDescription(d: Option<string>)
  {
    d.Some? ==> IsText(d.value, DESCRIPTION_MAX)
  }

  predicate IsValidField(f: FieldDef)
  {
    match f
    case DateTimeField(dt) => IsIdentifier(dt.name) && IsValidDescription(dt.description)
    case ReferenceField(rd) => IsIdentifier(rd.name) && IsIdentifier(rd.target) && IsValidDescription(rd.description)
    case _ => IsIdentifier(f.d.name) && IsValidDescription(f.d.description)
  }

  predicate IsValidModel(m: ModelDef)
  {
    && IsIdentifier(m.name)
    && IsValidDescription(m.description)
    && forall k | 0 <= k < |Fields(m)| :: IsValidField(Fields(m)[k])
  }

  function ValidateDescription(d: Option<string>): (r: Outcome)
    ensures r.Pass? <==> IsValidDescription(d)
  {
    if d.Some? then ValidateText(d.value, DESCRIPTION_MAX) else Pass
  }

  /** `FieldDef::validate` with the per-variant `validate` of its description:
      the name, then (for a reference) the target, then the description. */
  function ValidateField(f: FieldDef): (r: Outcome)
    ensures r.Pass? <==> IsValidField(f)
    ensures !IsIdentifier(FieldName(f)) ==> r == ValidateId(FieldName(f))
  {
    match f
    case DateTimeField(dt) => Then(ValidateId(dt.name), ValidateDescription(dt.description))
    case ReferenceField(rd) =>
      Then(ValidateId(rd.name), Then(ValidateId(rd.target), ValidateDescription(rd.description)))
    case _ => Then(ValidateId(f.d.name), ValidateDescription(f.d.description))
  }

  /** `ModelDef::validate`: the name, the description, then each field in order. */
  function ValidateModel(m: ModelDef): (r: Outcome)
    ensures r.Pass? <==> IsValidModel(m)
    ensures !IsIdentifier(m.name) ==> r == ValidateId(m.name)
  {
    Then(ValidateId(m.name), Then(ValidateDescription(m.description), ValidateEach(Fields(m), ValidateField)))
  }

  // ---------------------------------------------------------------- access rules and endpoints

  datatype Action = Allow | Deny
  datatype Method = Get | Post | Put | Delete | Patch

  /** `ApiAccessMethod::as_str`. */
  function MethodName(m: Method): string
  {
    match m
    case Get => "get"
    case Post => "post"
    case Put => "put"
    case Delete => "delete"
    case Patch => "patch"
  }

  /** One access rule. A missing `action` deserialises to `Allow`; `httpMethod` is the rule's `method` key. */
  datatype AccessRule = AccessRule(action: Action, httpMethod: Option<Method>, role: Option<string>)

  datatype ApiEndpoint =
    | StringApi(name: string, path: string, description: Option<string>, response: string,
                access: Option<seq<AccessRule>>)
    | StaticFileApi(name: string, path: string, description: Option<string>, localfile: string,
                    access: Option<seq<AccessRule>>)
    | ModelApi(name: string, path: string, description: Option<string>, model: string,
               access: Option<seq<AccessRule>>)
    | GraphQLApi(name: string, description: Option<string>, path: string, access: Option<seq<AccessRule>>)

  /** `default_access`: either one bare action or a list of rules. */
  datatype AccessDef = ActionAccess(act: Action) | RulesAccess(rules: seq<AccessRule>)

  datatype ApiDef = ApiDef(defaultAccess: Option<AccessDef>, endpoints: seq<ApiEndpoint>)
  datatype AppMeta = AppMeta(schema: string)
  datatype AppDef = AppDef(name: string, models: seq<ModelDef>, api: ApiDef, meta: AppMeta)

  predicate IsValidRule(rule: AccessRule)
  {
    rule.role.Some? ==> IsIdentifier(rule.role.value)
  }

  predicate IsValidAccess(access: Option<seq<AccessRule>>)
  {
    access.Some? ==> forall k | 0 <= k < |access.value| :: IsValidRule(access.value[k])
  }

  predicate IsValidEndpoint(ep: ApiEndpoint)
  {
    && IsIdentifier(ep.name)
    && IsPath(ep.path)
    && IsValidDescription(ep.description)
    && (ep.StringApi? ==> IsText(ep.response, RESPONSE_MAX))
    && (ep.StaticFileApi? ==> IsPath(ep.localfile))
    && (ep.ModelApi? ==> IsIdentifier(ep.model))
    && IsValidAccess(ep.access)
  }

  function ValidateRule(rule: AccessRule): (r: Outcome)
    ensures r.Pass? <==> IsValidRule(rule)
  {
    if rule.role.Some? then ValidateId(rule.role.value) else Pass
  }

  function ValidateAccess(access: Option<seq<AccessRule>>): (r: Outcome)
    ensures r.Pass? <==> IsValidAccess(access)
  {
    if access.Some? then ValidateEach(access.value, ValidateRule) else Pass
  }

  /** `ApiEndpoint::validate`, per variant in the source's order: name, path,
      description, the variant's own payload, then the access rules. */
  function ValidateEndpoint(ep: ApiEndpoint): (r: Outcome)
    ensures r.Pass? <==> IsValidEndpoint(ep)
    ensures !IsIdentifier(ep.name) ==> r == ValidateId(ep.name)
    ensures IsIdentifier(ep.name) && !IsPath(ep.path) ==> r == ValidatePath(ep.path)
  {
    var head := Then(ValidateId(ep.name), Then(ValidatePath(ep.path), ValidateDescription(ep.description)));
    match ep
    case StringApi(_, _, _, response, access) =>
      Then(head, Then(ValidateText(response, RESPONSE_MAX), ValidateAccess(access)))
    case StaticFileApi(_, _, _, localfile, access) =>
      Then(head, Then(ValidatePath(localfile), ValidateAccess(access)))
    case ModelApi(_, _, _, model, access) =>
      Then(head, Then(ValidateId(model), ValidateAccess(access)))
    case GraphQLApi(_, _, _, access) =>
      Then(head, ValidateAccess(access))
  }

  // ---------------------------------------------------------------- the application definition

  /** What a loadable application definition satisfies. */
  predicate IsValidApp(app: AppDef)
  {
    && IsIdentifier(app.name)
    && app.meta.schema == SCHEMA_VERSION
    && (forall k | 0 <= k < |app.models| :: IsValidModel(app.models[k]))
    && (forall k | 0 <= k < |app.api.endpoints| :: IsValidEndpoint(app.api.endpoints[k]))
  }

  /** `AppMeta::validate`. */
  function ValidateMeta(meta: AppMeta): (r: Outcome)
    ensures r.Pass? <==> meta.schema == SCHEMA_VERSION
    ensures r.Fail? ==> r.error == UnsupportedSchema(meta.schema)
  {
    if meta.schema != SCHEMA_VERSION then Fail(UnsupportedSchema(meta.schema)) else Pass
  }

  /** `AppDef::validate`: all-or-nothing, and the reported error is the first
      violation in the order name, schema version, models, endpoints. */
  function ValidateApp(app: AppDef): (r: Outcome)
    ensures r.Pass? <==> IsValidApp(app)
    ensures !IsIdentifier(app.name) ==> r == ValidateId(app.name)
    ensures IsIdentifier(app.name) && app.meta.schema != SCHEMA_VERSION ==>
      r == Fail(UnsupportedSchema(app.meta.schema))
    ensures IsIdentifier(app.name) && app.meta.schema == SCHEMA_VERSION && r.Fail? ==>
      (exists k | 0 <= k < |app.models| :: r == ValidateModel(app.models[k])) ||
      ((forall k | 0 <= k < |app.models| :: IsValidModel(app.models[k])) &&
       exists k | 0 <= k < |app.api.endpoints| :: r == ValidateEndpoint(app.api.endpoints[k]))
  {
    Then(ValidateId(app.name),
      Then(ValidateMeta(app.meta),
        Then(ValidateEach(app.models, ValidateModel), ValidateEach(app.api.endpoints, ValidateEndpoint))))
  }

  /** `AppDef::from_yaml` after the YAML text has been deserialised into
      `parsed` (deserialisation errors arrive as `Err`). */
  function LoadAppDef(parsed: Result<AppDef>): (r: Result<AppDef>)
    ensures r.Ok? <==> parsed.Ok? && IsValidApp(parsed.value)
    ensures r.Ok? ==> r.value == parsed.value
    ensures parsed.Ok? && r.Err? ==> ValidateApp(parsed.value) == Fail(r.error)
  {
    match parsed
    case Err(e) => Err(e)
    case Ok(app) =>
      match ValidateApp(app)
      case Fail(e) => Err(e)
      case Pass => Ok(app)
  }

  /** The two documents of the source's schema-version test: `v2` is refused
      and `v0.0.1` with no models and no endpoints is accepted. */
  lemma SchemaVersionExamples()
    ensures LoadAppDef(Ok(AppDef("test", [], ApiDef(None, []), AppMeta("v2")))).Err?
    ensures LoadAppDef(Ok(AppDef("test", [], ApiDef(None, []), AppMeta("v0.0.1")))).Ok?
  {
    assert IsIdentifier("test") by {
      assert forall k | 0 <= k < 4 :: IsIdChar("test"[k]);
    }
  }

  // ---------------------------------------------------------------- lookups

  /** `AppDef::get_model`: the first model named `name`. */
  function GetModel(models: seq<ModelDef>, name: string): (r: Option<ModelDef>)
    ensures r.None? <==> forall k | 0 <= k < |models| :: models[k].name != name
    ensures r.Some? ==> exists k | 0 <= k < |models| ::
      models[k] == r.value && r.value.name == name && forall j | 0 <= j < k :: models[j].name != name
  {
    if |models| == 0 then None
    else if models[0].name == name then Some(models[0])
    else
      var rest := GetModel(models[1..], name);
      assert rest.Some? ==> exists k | 1 <= k < |models| ::
        models[k] == rest.value && rest.value.name == name && forall j | 0 <= j < k :: models[j].name != name by {
        if rest.Some? {
          var k :| 0 <= k < |models[1..]| && models[1..][k] == rest.value
                   && forall j | 0 <= j < k :: models[1..][j].name != name;
          forall j | 0 <= j < k + 1 ensures models[j].name != name {
            if j > 0 { assert models[j] == models[1..][j - 1]; }
          }
        }
      }
      rest
  }

  /** `ApiDef::find_endpoint`: the first endpoint whose path is `path`. */
  function FindEndpoint(endpoints: seq<ApiEndpoint>, path: string): (r: Option<ApiEndpoint>)
    ensures r.None? <==> forall k | 0 <= k < |endpoints| :: endpoints[k].path != path
    ensures r.Some? ==> exists k | 0 <= k < |endpoints| ::
      endpoints[k] == r.value && r.value.path == path && forall j | 0 <= j < k :: endpoints[j].path != path
  {
    if |endpoints| == 0 then None
    else if endpoints[0].path == path then Some(endpoints[0])
    else
      var rest := FindEndpoint(endpoints[1..], path);
      assert rest.Some? ==> exists k | 1 <= k < |endpoints| ::
        endpoints[k] == rest.value && rest.value.path == path && forall j | 0 <= j < k :: endpoints[j].path != path by {
        if rest.Some? {
          var k :| 0 <= k < |endpoints[1..]| && endpoints[1..][k] == rest.value
                   && forall j | 0 <= j < k :: endpoints[1..][j].path != path;
          forall j | 0 <= j < k + 1 ensures endpoints[j].path != path {
            if j > 0 { assert endpoints[j] == endpoints[1..][j - 1]; }
          }
        }
      }
      rest
  }

  // ---------------------------------------------------------------- default access

  /** `ApiDefAccessDef::get_rules`. */
  function GetRules(access: AccessDef): (rules: seq<AccessRule>)
    ensures access.ActionAccess? ==> rules == [AccessRule(access.act, None, None)]
    ensures access.RulesAccess? ==> rules == access.rules
  {
    match access
    case ActionAccess(a) => [AccessRule(a, None, None)]
    case RulesAccess(rs) => rs
  }

  /** `ApiDef::get_default_access`: without a `default_access`, a single rule
      allowing GET to any caller. */
  function GetDefaultAccess(api: ApiDef): (rules: seq<AccessRule>)
    ensures api.defaultAccess.None? ==> rules == [AccessRule(Allow, Some(Get), None)]
    ensures api.defaultAccess.Some? ==> rules == GetRules(api.defaultAccess.value)
  {
    match api.defaultAccess
    case Some(x) => GetRules(x)
    case None => [AccessRule(Allow, Some(Get), None)]
  }
}
