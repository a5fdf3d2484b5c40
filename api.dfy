/** The access-control layer of `src/api.rs`: matching one access rule
    against a request, the first-match decision over an endpoint's rules
    (with the administrator bypass and the app-wide default rules), the
    resolution of a bearer token to a user id, and the small request
    helpers of the model endpoints. */
module Api {
  import opened Common
  import opened Schema
  import opened Rows
  import opened Db
  import opened Model
  import opened Stats

  // ---------------------------------------------------------------- request methods

  /** The name hyper gives a request method (`Method::as_str`): upper case. */
  function HyperName(m: Method): string
  {
    match m
    case Get => "GET"
    case Post => "POST"
    case Put => "PUT"
    case Delete => "DELETE"
    case Patch => "PATCH"
  }

  function LowerChar(c: char): (d: char)
    ensures 'A' <= c <= 'Z' ==> d as int == c as int + 32
    ensures !('A' <= c <= 'Z') ==> d == c
  {
    if 'A' <= c <= 'Z' then (c as int + 32) as char else c
  }

  /** `str::to_lowercase` on the ASCII names request methods have. */
  function AsciiLower(s: string): (r: string)
    ensures |r| == |s|
    ensures forall k | 0 <= k < |s| :: r[k] == LowerChar(s[k])
  {
    if |s| == 0 then [] else [LowerChar(s[0])] + AsciiLower(s[1..])
  }

  /** Lower-casing hyper's name of a method gives the name rules use. */
  lemma LowerHyperName(m: Method)
    ensures AsciiLower(HyperName(m)) == MethodName(m)
  {
    var u := HyperName(m);
    var l := MethodName(m);
    forall k | 0 <= k < |u| ensures LowerChar(u[k]) == l[k] {
      LowerMethodChar(m, k);
    }
    LowerAll(u, l);
  }

  /** Lower-casing character by character. */
  lemma LowerAll(u: string, l: string)
    requires |u| == |l| && forall k | 0 <= k < |u| :: LowerChar(u[k]) == l[k]
    ensures AsciiLower(u) == l
  {
  }

  /** Each letter of hyper's name lower-cases to the rule name's letter. */
  lemma LowerMethodChar(m: Method, k: nat)
    requires k < |HyperName(m)|
    ensures |MethodName(m)| == |HyperName(m)| && LowerChar(HyperName(m)[k]) == MethodName(m)[k]
  {
  }

  // ---------------------------------------------------------------- rule_match

  /** The callers a role admits: anyone without a role; `anonymous` admits
      exactly the unauthenticated caller, `admin` exactly uid 0, `user`
      exactly the positive uids, and any other role nobody. */
  predicate RoleAdmits(role: Option<string>, uid: Option<int>)
  {
    || role.None?
    || (role == Some("anonymous") && uid.None?)
    || (role == Some("admin") && uid == Some(0))
    || (role == Some("user") && uid.Some? && uid.value > 0)
  }

  /** `rule_match`: a rule with a method applies only to that method; its
      role then decides. */
  function RuleMatch(methodName: string, rule: AccessRule, uid: Option<int>): (r: bool)
    ensures r <==> (rule.httpMethod.None? || MethodName(rule.httpMethod.value) == methodName) && RoleAdmits(rule.role, uid)
  {
    if rule.httpMethod.Some? && MethodName(rule.httpMethod.value) != methodName then false
    else
      match rule.role
      case None => true
      case Some(x) =>
        if x == "anonymous" then uid.None?
        else if x == "admin" then uid == Some(0)
        else if x == "user" then (if uid.Some? then uid.value else -1) > 0
        else false
  }

  /** A rule naming a method never matches hyper's upper-case name of that
      method: `check_access` has to lower-case it first. */
  lemma UpperCaseNeverMatches(rule: AccessRule, m: Method, uid: Option<int>)
    requires rule.httpMethod.Some?
    ensures !RuleMatch(HyperName(m), rule, uid)
  {
    var a := MethodName(rule.httpMethod.value);
    var b := HyperName(m);
    assert a[0] != b[0];
  }

  // ---------------------------------------------------------------- check_access

  /** The position of the first rule matching the request, if any. */
  function FirstMatch(rules: seq<AccessRule>, methodName: string, uid: Option<int>): (r: Option<nat>)
    ensures r.Some? ==> r.value < |rules| && RuleMatch(methodName, rules[r.value], uid)
    ensures r.Some? ==> forall j | 0 <= j < r.value :: !RuleMatch(methodName, rules[j], uid)
    ensures r.None? ==> forall j | 0 <= j < |rules| :: !RuleMatch(methodName, rules[j], uid)
  {
    if |rules| == 0 then None
    else if RuleMatch(methodName, rules[0], uid) then Some(0)
    else
      match FirstMatch(rules[1..], methodName, uid)
      case None => None
      case Some(j) => Some(j + 1)
  }

  /** The rules that govern an endpoint: its own, else the app's
      `default_access`, else none at all. */
  function GoverningRules(ep: ApiEndpoint, app: AppDef): (rules: Option<seq<AccessRule>>)
    ensures ep.access.Some? ==> rules == ep.access
    ensures ep.access.None? && app.api.defaultAccess.Some? ==> rules == Some(GetRules(app.api.defaultAccess.value))
    ensures ep.access.None? && app.api.defaultAccess.None? ==> rules.None?
  {
    if ep.access.Some? then ep.access
    else if app.api.defaultAccess.Some? then Some(GetRules(app.api.defaultAccess.value))
    else None
  }

  /** `check_access`: the administrator may do everything; otherwise the
      first governing rule that matches the lower-cased method and the
      caller decides, and no match, no rules or no app definition deny. */
  function CheckAccess(httpMethod: string, ep: ApiEndpoint, app: Option<AppDef>, uid: Option<int>): (allowed: bool)
  {
    if uid == Some(0) then true
    else if app.None? then false
    else
      match GoverningRules(ep, app.value)
      case None => false
      case Some(rules) =>
        match FirstMatch(rules, AsciiLower(httpMethod), uid)
        case None => false
        case Some(k) => rules[k].action == Allow
  }

  /** A request is allowed exactly when the caller is the administrator or
      some governing rule allows it and no earlier rule matches it. */
  lemma CheckAccessMeaning(httpMethod: string, ep: ApiEndpoint, app: Option<AppDef>, uid: Option<int>)
    ensures CheckAccess(httpMethod, ep, app, uid) <==>
            || uid == Some(0)
            || (&& app.Some? && GoverningRules(ep, app.value).Some?
                && var rules := GoverningRules(ep, app.value).value;
                   exists k | 0 <= k < |rules| ::
                     && rules[k].action == Allow
                     && RuleMatch(AsciiLower(httpMethod), rules[k], uid)
                     && forall j | 0 <= j < k :: !RuleMatch(AsciiLower(httpMethod), rules[j], uid))
  {
    if uid != Some(0) && app.Some? && GoverningRules(ep, app.value).Some? {
      var rules := GoverningRules(ep, app.value).value;
      var name := AsciiLower(httpMethod);
      var fm := FirstMatch(rules, name, uid);
      if fm.Some? {
        forall k | 0 <= k < |rules| && RuleMatch(name, rules[k], uid) && (forall j | 0 <= j < k :: !RuleMatch(name, rules[j], uid))
          ensures k == fm.value
        {
        }
      }
    }
  }

  /** Rule order matters: of two matching rules, the earlier decides. */
  lemma EarlierRuleDecides(httpMethod: string, ep: ApiEndpoint, app: AppDef, uid: Option<int>, rules: seq<AccessRule>)
    requires uid != Some(0) && ep.access == Some(rules)
    requires |rules| > 0 && RuleMatch(AsciiLower(httpMethod), rules[0], uid)
    ensures CheckAccess(httpMethod, ep, Some(app), uid) == (rules[0].action == Allow)
  {
  }

  /** With neither endpoint rules nor `default_access`, only the
      administrator gets through: the allow-GET default of
      `get_default_access` is not consulted. */
  lemma NoRulesDeny(httpMethod: string, ep: ApiEndpoint, app: AppDef, uid: Option<int>)
    requires ep.access.None? && app.api.defaultAccess.None?
    ensures CheckAccess(httpMethod, ep, Some(app), uid) <==> uid == Some(0)
    ensures GetDefaultAccess(app.api) == [AccessRule(Allow, Some(Get), None)]
  {
  }

  /** A rule for method `m` with no role lets any caller use `m`. */
  lemma MethodRuleAllows(m: Method, ep: ApiEndpoint, app: AppDef, uid: Option<int>)
    requires ep.access == Some([AccessRule(Allow, Some(m), None)])
    ensures CheckAccess(HyperName(m), ep, Some(app), uid)
  {
    LowerHyperName(m);
  }

  // ---------------------------------------------------------------- api_authenticate

  /** The condition that looks a token up among the users. */
  function TokenCondition(token: string): string
  {
    "token='" + token + "'"
  }

  /** A token without quotes stays inside the one quoted literal of the
      condition: the condition has exactly its two own quotes. */
  lemma TokenConditionQuoted(token: string)
    requires '\'' !in token
    ensures Count(TokenCondition(token), '\'') == 2
  {
    CountZero(token, '\'');
    CountAppend("token='", token, '\'');
    CountAppend("token='" + token, "'", '\'');
    assert Count("token='", '\'') == 1 by {
      CountAppend("token=", "'", '\'');
      CountZero("token=", '\'');
    }
  }

  /** The SELECT text of the token lookup among the users. */
  function TokenLookupText(token: string): string
  {
    SelectText(MakeUserModel(), Some(TokenCondition(token)))
  }

  /** The user a token resolves to, given the engine's answer to the lookup:
      the `id` of the first row returned, when it decodes; nobody when the
      lookup fails or finds no row. */
  function TokenUser(found: Result<seq<seq<DbValue>>>): Option<int>
  {
    if found.Err? || |found.value| == 0 then None
    else
      match DecodeStorageRow(Fields(MakeUserModel()), found.value[0])
      case Ok(row) => GetInt(row, "id")
      case Err(_) => None
  }

  /** A user row that decodes resolves to the id stored in its first column. */
  lemma TokenUserIsStoredId(fetched: seq<seq<DbValue>>, id: int)
    requires |fetched| > 0 && |fetched[0]| > 0 && fetched[0][0] == IntegerValue(id)
    requires DecodeStorageRow(Fields(MakeUserModel()), fetched[0]).Ok?
    ensures TokenUser(Ok(fetched)) == Some(id)
  {
    DecodedRowShape(Fields(MakeUserModel()), fetched[0]);
  }

  /** `api_authenticate`. `database` is the outcome of opening the app's
      database. A bad token is never an error, and neither is a failing
      lookup: only a database that does not open is. */
  method ApiAuthenticate(token: Option<string>, adminToken: string, database: Result<Answers>)
    returns (r: Result<Option<int>>)
    ensures token.None? ==> r == Ok(None)
    ensures token.Some? && '\'' in token.value ==> r == Ok(None)
    ensures token.Some? && '\'' !in token.value && token.value == adminToken ==> r == Ok(Some(0))
    ensures token.Some? && '\'' !in token.value && token.value != adminToken ==>
              r == (if database.Err? then Err(database.error) else Ok(TokenUser(database.value(TokenLookupText(token.value)))))
    ensures r.Err? ==> database.Err?
  {
    if token.None? {
      return Ok(None);
    }
    var t := token.value;
    if '\'' in t {
      return Ok(None);
    }
    if t == adminToken {
      return Ok(Some(0));
    }
    if database.Err? {
      return Err(database.error);
    }
    var rec := Db.Get(MakeUserModel(), TokenCondition(t), database.value);
    if rec.Err? || rec.value.None? {
      return Ok(None);
    }
    r := Ok(GetInt(rec.value.value, "id"));
  }

  // ---------------------------------------------------------------- request helpers

  /** The gate of `handle_api_auth_request`: only the administrator. */
  function AuthGate(uid: Option<int>): (ok: bool)
    ensures ok <==> uid == Some(0)
  {
    (if uid.Some? then uid.value else -1) == 0
  }

  /** The keys `handle_model_delete` deletes: the body's `pks`, then its `id`. */
  function DeleteKeys(pks: Option<seq<int>>, id: Option<int>): (keys: seq<int>)
    ensures |keys| == (if pks.Some? then |pks.value| else 0) + (if id.Some? then 1 else 0)
    ensures forall x :: x in keys <==> (pks.Some? && x in pks.value) || id == Some(x)
    ensures pks.Some? ==> keys[..|pks.value|] == pks.value
  {
    var ks := if pks.Some? then pks.value else [];
    if id.Some? then ks + [id.value] else ks
  }

  /** A DELETE request removes exactly the visible rows named by its `pks`
      or its `id`. */
  lemma DeleteRequestMeaning(m: ModelDef, uid: Option<int>, pks: Option<seq<int>>, id: Option<int>, owner: int, rowId: int)
    ensures EvalWhere(DeleteWhere(m, uid, DeleteKeys(pks, id)), owner, rowId) ==
            Some(Visible(m, uid, owner, rowId, None) && ((pks.Some? && rowId in pks.value) || id == Some(rowId)))
  {
    DeleteMeaning(m, uid, DeleteKeys(pks, id), owner, rowId);
  }

  /** The `id` query parameter of `handle_model_get`. */
  function GetId(param: Option<string>): (id: Option<int>)
    ensures id.Some? ==> param.Some? && ParseInt(param.value) == id && InI64(id.value)
    ensures param.Some? && ParseInt(param.value).Some? && InI64(ParseInt(param.value).value) ==> id.Some?
  {
    if param.Some? then ParseI64(param.value) else None
  }

  /** A rendered 64-bit id reads back as itself. */
  lemma GetIdRoundTrip(n: int)
    requires InI64(n)
    ensures GetId(Some(IntToString(n))) == Some(n)
  {
    IntToStringRoundTrip(n);
  }

  /** A parameter that is not a number lists every visible row, as if no
      `id` had been given. */
  lemma NonNumericIdListsAll(m: ModelDef, uid: Option<int>, param: string)
    requires ParseInt(param).None?
    ensures Condition(m, uid, GetId(Some(param))) == Condition(m, uid, None)
  {
  }

  /** The `unit` query parameter of `handle_query_count_request`. */
  function QueryCountUnit(param: Option<string>): (u: TimeSeriesUnit)
    ensures u == Daily <==> param == Some("day")
    ensures u == Minutely <==> param.Some? && param.value != "hour" && param.value != "day"
  {
    match param
    case Some(x) => if x == "hour" then Hourly else if x == "day" then Daily else Minutely
    case None => Hourly
  }
}
