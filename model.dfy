/** The statement builder of `src/model.rs`: column types, the DDL of a
    model's table and its additive migration, INSERT/UPDATE/DELETE
    construction, and the row-visibility condition. Statements go to a
    `Connection`; a small evaluator of the WHERE texts the builder emits
    gives those texts their meaning. */
module Model {
  import opened Common
  import opened Rows
  import opened Schema
  import opened Db

  // ---------------------------------------------------------------- fields

  /** The `optional` flag of a field as declared. */
  function OptionalFlag(f: FieldDef): Option<bool>
  {
    match f
    case DateTimeField(dt) => dt.optional
    case ReferenceField(rd) => rd.optional
    case _ => f.d.optional
  }

  /** `FieldDef::is_optional`: an absent flag means the field is required. */
  function IsOptional(f: FieldDef): (b: bool)
    ensures b <==> OptionalFlag(f) == Some(true)
  {
    match OptionalFlag(f)
    case Some(x) => x
    case None => false
  }

  /** `FieldDef::default_value`, with the clock reading as `now`: only a date
      field declared with `default_now: true` has a default, the current time. */
  function DefaultValue(f: FieldDef, now: int): (r: Option<RowField>)
    ensures r.Some? <==> f.DateTimeField? && f.dt.defaultNow == Some(true)
    ensures r.Some? ==> r.value == DateTime(now)
  {
    match f
    case DateTimeField(dt) => if dt.defaultNow == Some(true) then Some(DateTime(now)) else None
    case _ => None
  }

  /** The SQL column type of each kind of field. */
  function TypeName(f: FieldDef): string
  {
    match f
    case StringField(_) => "VARCHAR(128)"
    case IntegerField(_) => "BIGINT"
    case FloatField(_) => "FLOAT"
    case BooleanField(_) => "INTEGER"
    case DateTimeField(_) => "DATETIME"
    case UserField(_) => "BIGINT"
    case ReferenceField(_) => "BIGINT"
  }

  /** `FieldDef::type_sql`: the column definition of a field. */
  function TypeSql(f: FieldDef): string
  {
    FieldName(f) + " " + TypeName(f) + (if IsOptional(f) then "" else " NOT NULL")
  }

  /** A column definition starts with the field's name and type, and is
      declared `NOT NULL` exactly when its field is required. */
  lemma TypeSqlShape(f: FieldDef)
    ensures StartsWith(TypeSql(f), FieldName(f) + " " + TypeName(f))
    ensures EndsWith(TypeSql(f), " NOT NULL") <==> !IsOptional(f)
  {
    var s := TypeSql(f);
    var head := FieldName(f) + " " + TypeName(f);
    assert s[..|head|] == head;
    var t := TypeName(f);
    if IsOptional(f) {
      assert s == FieldName(f) + " " + t;
      assert s[|s| - 1] == t[|t| - 1] != 'L';
      assert (" NOT NULL")[8] == 'L';
    } else {
      assert s[|s| - 9..] == " NOT NULL";
    }
  }

  // ---------------------------------------------------------------- the user model

  const USER_MODEL: string := "__oct_user"

  /** `FieldDef::make_string`: a required string field with a description. */
  function MakeString(name: string, description: string): FieldDef
  {
    StringField(SimpleDesc(name, Some(description), None))
  }

  /** `ModelDef::make_user_model`: the internal table of an application's users. */
  function MakeUserModel(): (m: ModelDef)
    ensures m.name == USER_MODEL && m.visibilityScope.None?
    ensures FieldNames(Fields(m)) == ["name", "email", "pass", "token"]
    ensures forall k | 0 <= k < |Fields(m)| :: Fields(m)[k].StringField? && !IsOptional(Fields(m)[k])
  {
    ModelDef(USER_MODEL, Some("User model"),
             Some([MakeString("name", "user name"), MakeString("email", "user email"),
                   MakeString("pass", "user password"), MakeString("token", "auth token")]),
             None)
  }

  // ---------------------------------------------------------------- CREATE TABLE

  /** The separator between column definitions. */
  const COLUMN_SEP: string := ",\n    "

  /** The columns every table has before the declared ones. */
  const FIXED_COLUMNS: seq<string> := [
    "id INTEGER PRIMARY KEY AUTOINCREMENT",
    "_oct_owner BIGINT",
    "_oct_create_time timestamp NOT NULL DEFAULT (DATETIME('now'))",
    "_oct_update_time timestamp NOT NULL DEFAULT (DATETIME('now'))"
  ]

  /** One column definition per field, in order. */
  function ColumnDefs(fs: seq<FieldDef>): (defs: seq<string>)
    ensures |defs| == |fs|
    ensures forall k | 0 <= k < |fs| :: defs[k] == TypeSql(fs[k])
  {
    if |fs| == 0 then [] else ColumnDefs(fs[..|fs| - 1]) + [TypeSql(fs[|fs| - 1])]
  }

  /** Appending the next field's column to a non-empty column list. */
  lemma ColumnStep(pre: seq<string>, fs: seq<FieldDef>, i: nat, sep: string)
    requires |pre| > 0 && i < |fs|
    ensures Join(pre + ColumnDefs(fs[..i + 1]), sep) == Join(pre + ColumnDefs(fs[..i]), sep) + sep + TypeSql(fs[i])
  {
    JoinSnoc(pre + ColumnDefs(fs[..i]), TypeSql(fs[i]), sep);
    assert fs[..i + 1][..i] == fs[..i];
    assert pre + ColumnDefs(fs[..i + 1]) == pre + ColumnDefs(fs[..i]) + [TypeSql(fs[i])];
  }

  /** The CREATE TABLE statement of a model. */
  function CreateTableText(m: ModelDef): string
  {
    "CREATE TABLE " + m.name + " (\n    " + Join(FIXED_COLUMNS + ColumnDefs(Fields(m)), COLUMN_SEP) + "\n);"
  }

  /** `ModelDef::create_table_query`: the four fixed columns, then one
      column per declared field in declaration order. */
  method CreateTableQuery(m: ModelDef) returns (sql: string)
    ensures sql == CreateTableText(m)
  {
    var fs := Fields(m);
    var cols := Join(FIXED_COLUMNS, COLUMN_SEP);
    var i := 0;
    assert FIXED_COLUMNS + ColumnDefs(fs[..0]) == FIXED_COLUMNS;
    while i < |fs|
      invariant 0 <= i <= |fs|
      invariant cols == Join(FIXED_COLUMNS + ColumnDefs(fs[..i]), COLUMN_SEP)
    {
      ColumnStep(FIXED_COLUMNS, fs, i, COLUMN_SEP);
      cols := cols + COLUMN_SEP + TypeSql(fs[i]);
      i := i + 1;
    }
    assert fs[..i] == fs;
    sql := "CREATE TABLE " + m.name + " (\n    " + cols + "\n);";
  }

  /** The outcome of one statement, as the `?` operator sees it. */
  function OutcomeOf(r: Result<nat>): (o: Outcome)
    ensures o.Pass? <==> r.Ok?
    ensures o.Fail? ==> o.error == r.error
  {
    if r.Ok? then Pass else Fail(r.error)
  }

  /** `ModelDef::create_table`. */
  method CreateTable(db: Connection, m: ModelDef) returns (r: Outcome)
    modifies db
    ensures db.log == old(db.log) + [Statement(CreateTableText(m), [])]
    ensures r == OutcomeOf(db.reply(|old(db.log)|))
  {
    var sql := CreateTableQuery(m);
    var res := db.Execute(sql, []);
    r := OutcomeOf(res);
  }

  // ---------------------------------------------------------------- ALTER TABLE

  /** `ModelDef::alter_table_query`: adds one column. */
  function AlterTableText(m: ModelDef, f: FieldDef): string
  {
    "ALTER TABLE " + m.name + "\n            ADD " + TypeSql(f)
  }

  /** The ALTER statement names the table and carries the column's definition. */
  lemma AlterTableTextShape(m: ModelDef, f: FieldDef)
    ensures StartsWith(AlterTableText(m, f), "ALTER TABLE " + m.name)
    ensures EndsWith(AlterTableText(m, f), "ADD " + TypeSql(f))
  {
    var mid := "\n            ADD ";
    assert mid[|mid| - 4..] == "ADD ";
    ConcatEnds("ALTER TABLE " + m.name, mid, TypeSql(f), "ADD ");
  }

  /** The names of a list of fields. */
  function NameSet(fs: seq<FieldDef>): set<string>
  {
    set k | 0 <= k < |fs| :: FieldName(fs[k])
  }

  /** The ALTER statements for the fields of `fs` whose names are not in
      `oldNames`, in order. */
  function AlterStatements(m: ModelDef, fs: seq<FieldDef>, oldNames: set<string>): (st: seq<Statement>)
    ensures |st| <= |fs|
    ensures forall k | 0 <= k < |st| :: st[k].params == []
    decreases |fs|
  {
    if |fs| == 0 then []
    else
      var f := fs[|fs| - 1];
      AlterStatements(m, fs[..|fs| - 1], oldNames) +
      (if FieldName(f) in oldNames then [] else [Statement(AlterTableText(m, f), [])])
  }

  /** The migration `alter_table` plans from `old` to `m`. */
  function AlterPlan(m: ModelDef, prev: ModelDef): seq<Statement>
  {
    AlterStatements(m, Fields(m), NameSet(Fields(prev)))
  }

  /** A field gets an ALTER statement exactly when its name is new, and
      every statement planned is the ALTER of such a field. */
  lemma {:induction false} AlterStatementsFor(m: ModelDef, fs: seq<FieldDef>, oldNames: set<string>)
    ensures forall g | g in fs && FieldName(g) !in oldNames :: Statement(AlterTableText(m, g), []) in AlterStatements(m, fs, oldNames)
    ensures forall st | st in AlterStatements(m, fs, oldNames) ::
              exists g | g in fs :: FieldName(g) !in oldNames && st == Statement(AlterTableText(m, g), [])
    decreases |fs|
  {
    if |fs| > 0 {
      var init := fs[..|fs| - 1];
      AlterStatementsFor(m, init, oldNames);
      assert fs == init + [fs[|fs| - 1]];
    }
  }

  /** No statement is planned when every declared name already exists. */
  lemma {:induction false} AlterNothingNew(m: ModelDef, fs: seq<FieldDef>, oldNames: set<string>)
    requires NameSet(fs) <= oldNames
    ensures AlterStatements(m, fs, oldNames) == []
    decreases |fs|
  {
    if |fs| > 0 {
      var init := fs[..|fs| - 1];
      assert NameSet(init) <= NameSet(fs) by {
        forall n | n in NameSet(init) ensures n in NameSet(fs) {
          var k :| 0 <= k < |init| && FieldName(init[k]) == n;
          assert FieldName(fs[k]) == n;
        }
      }
      AlterNothingNew(m, init, oldNames);
      assert FieldName(fs[|fs| - 1]) in NameSet(fs);
    }
  }

  /** Migrating a model against itself changes nothing, so running the same
      migration twice is harmless. */
  lemma AlterIdempotent(m: ModelDef)
    ensures AlterPlan(m, m) == []
  {
    AlterNothingNew(m, Fields(m), NameSet(Fields(m)));
  }

  /** Planning over a longer list of fields only appends statements. */
  lemma {:induction false} AlterStatementsPrefix(m: ModelDef, fs: seq<FieldDef>, oldNames: set<string>, i: nat)
    requires i <= |fs|
    ensures |AlterStatements(m, fs[..i], oldNames)| <= |AlterStatements(m, fs, oldNames)|
    ensures AlterStatements(m, fs, oldNames)[..|AlterStatements(m, fs[..i], oldNames)|] == AlterStatements(m, fs[..i], oldNames)
    decreases |fs| - i
  {
    if i < |fs| {
      var init := fs[..|fs| - 1];
      AlterStatementsPrefix(m, init, oldNames, i);
      assert init[..i] == fs[..i];
      var short := AlterStatements(m, init, oldNames);
      assert AlterStatements(m, fs, oldNames)[..|short|] == short;
    } else {
      assert fs[..i] == fs;
    }
  }

  /** The position of the first of `len` statements, numbered from `start`,
      that the engine refuses; none when it accepts them all. */
  function FirstFailure(reply: nat -> Result<nat>, start: nat, len: nat): (r: Option<nat>)
    ensures r.Some? ==> r.value < len && reply(start + r.value).Err?
    ensures r.Some? ==> forall j | start <= j < start + r.value :: reply(j).Ok?
    ensures r.None? ==> forall j | start <= j < start + len :: reply(j).Ok?
    decreases len
  {
    if len == 0 then None
    else
      match FirstFailure(reply, start, len - 1)
      case Some(j) => Some(j)
      case None => if reply(start + len - 1).Err? then Some(len - 1) else None
  }

  /** The first refusal among the first `n` statements is the first overall. */
  lemma {:induction false} FirstFailureAt(reply: nat -> Result<nat>, start: nat, n: nat, len: nat)
    requires n < len
    requires FirstFailure(reply, start, n).None? && reply(start + n).Err?
    ensures FirstFailure(reply, start, len) == Some(n)
    decreases len
  {
    if len > n + 1 {
      FirstFailureAt(reply, start, n, len - 1);
    }
  }

  /** Planning over one more field appends at most that field's statement. */
  lemma AlterSnoc(m: ModelDef, fs: seq<FieldDef>, oldNames: set<string>, i: nat)
    requires i < |fs|
    ensures AlterStatements(m, fs[..i + 1], oldNames) ==
            AlterStatements(m, fs[..i], oldNames) +
            (if FieldName(fs[i]) in oldNames then [] else [Statement(AlterTableText(m, fs[i]), [])])
  {
    assert fs[..i + 1][..i] == fs[..i];
  }

  /** One more accepted statement keeps the engine's record clean. */
  lemma AcceptedOne(reply: nat -> Result<nat>, start: nat, n: nat)
    requires FirstFailure(reply, start, n).None? && reply(start + n).Ok?
    ensures FirstFailure(reply, start, n + 1).None?
  {
  }

  /** A refused ALTER is the first failure of the whole plan, and the
      statements sent so far are the plan up to and including it. */
  lemma AlterRefused(reply: nat -> Result<nat>, start: nat, m: ModelDef, fs: seq<FieldDef>, oldNames: set<string>, i: nat,
                     pre: seq<Statement>, st: Statement, plan: seq<Statement>)
    requires i < |fs| && FieldName(fs[i]) !in oldNames
    requires pre == AlterStatements(m, fs[..i], oldNames) && plan == AlterStatements(m, fs, oldNames)
    requires st == Statement(AlterTableText(m, fs[i]), [])
    requires FirstFailure(reply, start, |pre|).None? && reply(start + |pre|).Err?
    ensures AlterSent(reply, start, plan) == pre + [st]
    ensures AlterOutcome(reply, start, plan) == Fail(reply(start + |pre|).error)
  {
    var longer := AlterStatements(m, fs[..i + 1], oldNames);
    AlterSnoc(m, fs, oldNames, i);
    assert longer == pre + [st];
    AlterStatementsPrefix(m, fs, oldNames, i + 1);
    assert plan[..|longer|] == longer;
    RefusedAt(reply, start, pre, st, plan);
  }

  /** A plan that continues the accepted statements `pre` with a refused
      statement `st`: that refusal ends what is sent and is the outcome. */
  lemma RefusedAt(reply: nat -> Result<nat>, start: nat, pre: seq<Statement>, st: Statement, plan: seq<Statement>)
    requires |pre| < |plan| && plan[..|pre| + 1] == pre + [st]
    requires FirstFailure(reply, start, |pre|).None? && reply(start + |pre|).Err?
    ensures AlterSent(reply, start, plan) == pre + [st]
    ensures AlterOutcome(reply, start, plan) == Fail(reply(start + |pre|).error)
  {
    FirstFailureAt(reply, start, |pre|, |plan|);
    SentAtFirstFailure(reply, start, plan, |pre|);
  }

  /** At the first refusal the engine has received the plan up to and
      including the refused statement, and its error is the outcome. */
  lemma SentAtFirstFailure(reply: nat -> Result<nat>, start: nat, plan: seq<Statement>, n: nat)
    requires FirstFailure(reply, start, |plan|) == Some(n)
    ensures AlterSent(reply, start, plan) == plan[..n + 1]
    ensures AlterOutcome(reply, start, plan) == Fail(reply(start + n).error)
  {
  }

  /** The statements of `plan` the engine receives: all of them, or those up
      to and including the first it refuses. */
  function AlterSent(reply: nat -> Result<nat>, start: nat, plan: seq<Statement>): (sent: seq<Statement>)
    ensures sent <= plan
    ensures |sent| < |plan| ==> 0 < |sent| && reply(start + |sent| - 1).Err?
  {
    match FirstFailure(reply, start, |plan|)
    case None => plan
    case Some(j) => plan[..j + 1]
  }

  /** What `alter_table` reports for `plan`: the first refusal's error, if any. */
  function AlterOutcome(reply: nat -> Result<nat>, start: nat, plan: seq<Statement>): (r: Outcome)
    ensures r.Pass? <==> forall j | start <= j < start + |plan| :: reply(j).Ok?
  {
    match FirstFailure(reply, start, |plan|)
    case None => Pass
    case Some(j) => Fail(reply(start + j).error)
  }

  /** The loop of `alter_table` after the first `i` fields: the engine has
      received and accepted their statements. */
  ghost predicate AlterProgress(log0: seq<Statement>, log: seq<Statement>, reply: nat -> Result<nat>,
                                m: ModelDef, fs: seq<FieldDef>, oldNames: set<string>, i: nat)
  {
    && i <= |fs|
    && log == log0 + AlterStatements(m, fs[..i], oldNames)
    && FirstFailure(reply, |log0|, |AlterStatements(m, fs[..i], oldNames)|).None?
  }

  /** One turn of the loop of `alter_table`. */
  method AlterStep(db: Connection, m: ModelDef, fs: seq<FieldDef>, oldNames: set<string>, i: nat, ghost log0: seq<Statement>)
    returns (r: Outcome)
    requires i < |fs| && AlterProgress(log0, db.log, db.reply, m, fs, oldNames, i)
    modifies db
    ensures r.Pass? ==> AlterProgress(log0, db.log, db.reply, m, fs, oldNames, i + 1)
    ensures r.Fail? ==> db.log == log0 + AlterSent(db.reply, |log0|, AlterStatements(m, fs, oldNames))
    ensures r.Fail? ==> r == AlterOutcome(db.reply, |log0|, AlterStatements(m, fs, oldNames))
  {
    if FieldName(fs[i]) in oldNames {
      AlterSkipStep(log0, db.log, db.reply, m, fs, oldNames, i);
      return Pass;
    }
    ghost var log := db.log;
    var res := db.Execute(AlterTableText(m, fs[i]), []);
    if res.Err? {
      AlterRefusedStep(log0, log, db.reply, m, fs, oldNames, i);
      return Fail(res.error);
    }
    AlterAcceptedStep(log0, log, db.reply, m, fs, oldNames, i);
    r := Pass;
  }

  /** A field whose name exists already sends nothing. */
  lemma AlterSkipStep(log0: seq<Statement>, log: seq<Statement>, reply: nat -> Result<nat>,
                      m: ModelDef, fs: seq<FieldDef>, oldNames: set<string>, i: nat)
    requires i < |fs| && FieldName(fs[i]) in oldNames
    requires AlterProgress(log0, log, reply, m, fs, oldNames, i)
    ensures AlterProgress(log0, log, reply, m, fs, oldNames, i + 1)
  {
    AlterSnoc(m, fs, oldNames, i);
  }

  /** A new field's ALTER that the engine accepts extends the progress. */
  lemma AlterAcceptedStep(log0: seq<Statement>, log: seq<Statement>, reply: nat -> Result<nat>,
                          m: ModelDef, fs: seq<FieldDef>, oldNames: set<string>, i: nat)
    requires i < |fs| && FieldName(fs[i]) !in oldNames
    requires AlterProgress(log0, log, reply, m, fs, oldNames, i)
    requires reply(|log|).Ok?
    ensures AlterProgress(log0, log + [Statement(AlterTableText(m, fs[i]), [])], reply, m, fs, oldNames, i + 1)
  {
    var pre := AlterStatements(m, fs[..i], oldNames);
    var st := Statement(AlterTableText(m, fs[i]), []);
    AlterSnoc(m, fs, oldNames, i);
    assert AlterStatements(m, fs[..i + 1], oldNames) == pre + [st];
    assert |log| == |log0| + |pre|;
    AcceptedOne(reply, |log0|, |pre|);
    AppendAssoc(log0, pre, [st]);
  }

  /** A new field's ALTER that the engine refuses ends the migration: the
      log holds what was sent and the refusal is the outcome. */
  lemma AlterRefusedStep(log0: seq<Statement>, log: seq<Statement>, reply: nat -> Result<nat>,
                         m: ModelDef, fs: seq<FieldDef>, oldNames: set<string>, i: nat)
    requires i < |fs| && FieldName(fs[i]) !in oldNames
    requires AlterProgress(log0, log, reply, m, fs, oldNames, i)
    requires reply(|log|).Err?
    ensures log + [Statement(AlterTableText(m, fs[i]), [])] == log0 + AlterSent(reply, |log0|, AlterStatements(m, fs, oldNames))
    ensures Fail(reply(|log|).error) == AlterOutcome(reply, |log0|, AlterStatements(m, fs, oldNames))
  {
    var pre := AlterStatements(m, fs[..i], oldNames);
    var st := Statement(AlterTableText(m, fs[i]), []);
    var plan := AlterStatements(m, fs, oldNames);
    assert |log| == |log0| + |pre|;
    AlterRefused(reply, |log0|, m, fs, oldNames, i, pre, st, plan);
    AppendAssoc(log0, pre, [st]);
  }

  /** `ModelDef::alter_table`: one ALTER per declared field whose name the
      old definition lacks, in declaration order, stopping at the first
      statement the engine refuses. */
  method AlterTable(db: Connection, m: ModelDef, prev: ModelDef) returns (r: Outcome)
    modifies db
    ensures db.log == old(db.log) + AlterSent(db.reply, |old(db.log)|, AlterPlan(m, prev))
    ensures r == AlterOutcome(db.reply, |old(db.log)|, AlterPlan(m, prev))
  {
    var oldNames := NameSet(Fields(prev));
    var fs := Fields(m);
    ghost var log0 := db.log;
    var i := 0;
    assert fs[..0] == [];
    while i < |fs|
      invariant 0 <= i <= |fs|
      invariant AlterProgress(log0, db.log, db.reply, m, fs, oldNames, i)
    {
      r := AlterStep(db, m, fs, oldNames, i, log0);
      if r.Fail? {
        return;
      }
      i := i + 1;
    }
    assert fs[..i] == fs;
    r := Pass;
  }

  // ---------------------------------------------------------------- INSERT

  /** A declared field that a new row lacks, that has no default and that is
      not optional: it makes the insertion fail. */
  predicate Missing(f: FieldDef, rec: Row, now: int)
  {
    FieldName(f) !in rec.fields && DefaultValue(f, now).None? && !IsOptional(f)
  }

  /** A declared field that goes into the INSERT: given, or defaulted. */
  predicate Supplied(f: FieldDef, rec: Row, now: int)
  {
    FieldName(f) in rec.fields || DefaultValue(f, now).Some?
  }

  /** The columns and values `create` gathers from the declared fields. */
  function InsertColumns(fs: seq<FieldDef>, rec: Row, now: int): (r: Result<(seq<string>, seq<DbValue>)>)
    ensures r.Ok? ==> |r.value.0| == |r.value.1|
    decreases |fs|
  {
    if |fs| == 0 then Ok(([], []))
    else
      match InsertColumns(fs[..|fs| - 1], rec, now)
      case Err(e) => Err(e)
      case Ok(kv) =>
        var f := fs[|fs| - 1];
        var name := FieldName(f);
        if name in rec.fields then Ok((kv.0 + [name], kv.1 + [ToDbValue(rec.fields[name])]))
        else if DefaultValue(f, now).Some? then Ok((kv.0 + [name], kv.1 + [ToDbValue(DefaultValue(f, now).value)]))
        else if !IsOptional(f) then Err(MissingField(name))
        else Ok(kv)
  }

  /** Insertion fails exactly when some field is missing, and then it names
      the first missing field. */
  lemma {:induction false} InsertFailsOnMissing(fs: seq<FieldDef>, rec: Row, now: int)
    ensures InsertColumns(fs, rec, now).Err? <==> exists k | 0 <= k < |fs| :: Missing(fs[k], rec, now)
    ensures InsertColumns(fs, rec, now).Err? ==>
              exists k | 0 <= k < |fs| :: Missing(fs[k], rec, now) &&
                InsertColumns(fs, rec, now).error == MissingField(FieldName(fs[k])) &&
                forall j | 0 <= j < k :: !Missing(fs[j], rec, now)
    decreases |fs|
  {
    if |fs| > 0 {
      var init := fs[..|fs| - 1];
      InsertFailsOnMissing(init, rec, now);
      assert forall k | 0 <= k < |init| :: init[k] == fs[k];
    }
  }

  /** On success the columns are exactly the supplied fields, in declaration
      order, each paired with its given value or its default. */
  lemma {:induction false} InsertColumnsSupplied(fs: seq<FieldDef>, rec: Row, now: int)
    requires InsertColumns(fs, rec, now).Ok?
    ensures var kv := InsertColumns(fs, rec, now).value;
            forall x :: x in kv.0 <==> exists k | 0 <= k < |fs| :: Supplied(fs[k], rec, now) && FieldName(fs[k]) == x
    ensures var kv := InsertColumns(fs, rec, now).value;
            forall j | 0 <= j < |kv.0| ::
              kv.1[j] == (if kv.0[j] in rec.fields then ToDbValue(rec.fields[kv.0[j]]) else ToDbValue(DateTime(now)))
    decreases |fs|
  {
    if |fs| > 0 {
      var init := fs[..|fs| - 1];
      InsertColumnsSupplied(init, rec, now);
      assert forall k | 0 <= k < |init| :: init[k] == fs[k];
      var kv := InsertColumns(fs, rec, now).value;
      var kv0 := InsertColumns(init, rec, now).value;
      var f := fs[|fs| - 1];
      forall x ensures x in kv.0 <==> exists k | 0 <= k < |fs| :: Supplied(fs[k], rec, now) && FieldName(fs[k]) == x {
        if x in kv.0 && x !in kv0.0 {
          assert Supplied(fs[|fs| - 1], rec, now) && FieldName(fs[|fs| - 1]) == x;
        }
        if exists k | 0 <= k < |fs| :: Supplied(fs[k], rec, now) && FieldName(fs[k]) == x {
          var k :| 0 <= k < |fs| && Supplied(fs[k], rec, now) && FieldName(fs[k]) == x;
          if k < |init| {
            assert x in kv0.0;
          }
        }
      }
    }
  }

  /** `n` placeholders. */
  function Placeholders(n: nat): (ps: seq<string>)
    ensures |ps| == n && forall k | 0 <= k < n :: ps[k] == "?"
  {
    seq(n, _ => "?")
  }

  /** The INSERT statement for the given columns. */
  function InsertText(table: string, keys: seq<string>): string
  {
    "INSERT INTO " + table + " (" + Join(keys, ",") + ") VALUES (" + Join(Placeholders(|keys|), ",") + ")"
  }

  /** There is one `?` placeholder per column, so the parameters bound with
      `create`'s values line up with its columns. */
  lemma {:induction false} PlaceholderCount(n: nat)
    ensures Count(Join(Placeholders(n), ","), '?') == n
  {
    if n == 0 {
    } else if n == 1 {
      assert Join(Placeholders(1), ",") == "?";
    } else {
      PlaceholderCount(n - 1);
      assert Placeholders(n)[1..] == Placeholders(n - 1);
      CountAppend("?", "," + Join(Placeholders(n - 1), ","), '?');
      CountAppend(",", Join(Placeholders(n - 1), ","), '?');
    }
  }

  /** The owner recorded for a new row: the caller, or -1 for an anonymous one. */
  function OwnerOf(uid: Option<int>): int
  {
    if uid.Some? then uid.value else -1
  }

  /** `ModelDef::create`. A model without a field list panics; a missing
      required field fails before anything is sent; otherwise one INSERT is
      sent and success is reported whatever the engine answers. */
  method Create(db: Connection, m: ModelDef, rec: Row, uid: Option<int>, now: int) returns (r: Outcome)
    modifies db
    ensures m.fields.None? ==> r == Fail(Panic("fields")) && db.log == old(db.log)
    ensures m.fields.Some? && InsertColumns(Fields(m), rec, now).Err? ==>
              r == Fail(InsertColumns(Fields(m), rec, now).error) && db.log == old(db.log)
    ensures m.fields.Some? && InsertColumns(Fields(m), rec, now).Ok? ==>
              var kv := InsertColumns(Fields(m), rec, now).value;
              r == Pass &&
              db.log == old(db.log) + [Statement(InsertText(m.name, ["_oct_owner"] + kv.0), [IntegerValue(OwnerOf(uid))] + kv.1)]
  {
    if m.fields.None? {
      return Fail(Panic("fields"));
    }
    var fs := m.fields.value;
    var keys: seq<string> := [];
    var vals: seq<DbValue> := [];
    var i := 0;
    while i < |fs|
      invariant 0 <= i <= |fs|
      invariant InsertColumns(fs[..i], rec, now) == Ok((keys, vals))
    {
      assert fs[..i + 1][..i] == fs[..i];
      var desc := fs[i];
      var name := FieldName(desc);
      var val: DbValue;
      if name !in rec.fields {
        var d := DefaultValue(desc, now);
        if d.Some? {
          val := ToDbValue(d.value);
        } else {
          if !IsOptional(desc) {
            InsertErrSticks(fs, rec, now, i + 1);
            return Fail(MissingField(name));
          }
          i := i + 1;
          continue;
        }
      } else {
        val := ToDbValue(rec.fields[name]);
      }
      keys := keys + [name];
      vals := vals + [val];
      i := i + 1;
    }
    assert fs[..i] == fs;
    var sql := InsertText(m.name, ["_oct_owner"] + keys);
    var _ := db.Execute(sql, [IntegerValue(OwnerOf(uid))] + vals);
    r := Pass;
  }

  /** Once a field is missing, insertion over any longer prefix fails the same way. */
  lemma {:induction false} InsertErrSticks(fs: seq<FieldDef>, rec: Row, now: int, i: nat)
    requires i <= |fs|
    requires InsertColumns(fs[..i], rec, now).Err?
    ensures InsertColumns(fs, rec, now) == InsertColumns(fs[..i], rec, now)
    decreases |fs| - i
  {
    if i < |fs| {
      assert fs[..|fs| - 1][..i] == fs[..i];
      InsertErrSticks(fs[..|fs| - 1], rec, now, i);
    } else {
      assert fs[..i] == fs;
    }
  }

  // ---------------------------------------------------------------- visibility

  /** `ModelDef::get_visibility_scope`: everyone unless declared otherwise. */
  function Scope(m: ModelDef): (s: VisibilityScope)
    ensures m.visibilityScope.None? ==> s == Everyone
  {
    if m.visibilityScope.Some? then m.visibilityScope.value else Everyone
  }

  /** The first clause of a condition: which owners' rows are visible. */
  function ScopeClause(m: ModelDef, uid: Option<int>): string
  {
    match Scope(m)
    case Everyone => "1"
    case Owner => if uid.None? || uid == Some(0) then "1" else "_oct_owner=" + IntToString(uid.value)
  }

  /** `ModelDef::condition`: the WHERE text restricting a statement to the
      rows `uid` may see and, given an `id`, to that row. */
  function Condition(m: ModelDef, uid: Option<int>, id: Option<int>): string
  {
    if id.Some? then ScopeClause(m, uid) + " AND id=" + IntToString(id.value) else ScopeClause(m, uid)
  }

  /** Whether a row owned by `owner` with id `rowId` is meant to be visible
      to `uid`: any row under `Everyone`; under `Owner`, every row for an
      anonymous caller and for the administrator (uid 0), the caller's own
      rows otherwise; and only row `id` when one is given. */
  predicate Visible(m: ModelDef, uid: Option<int>, owner: int, rowId: int, id: Option<int>)
  {
    && (Scope(m) == Everyone || uid.None? || uid == Some(0) || owner == uid.value)
    && (id.None? || rowId == id.value)
  }

  // The WHERE texts the builder emits, read back: space-separated words,
  // `name=value` comparisons on `_oct_owner` and `id`, the literal `1`,
  // `AND`, and `id in (a,b,...)`.

  /** The meaning of one comparison clause for a row. */
  function EvalClause(c: string, owner: int, rowId: int): Option<bool>
  {
    if c == "1" then Some(true)
    else
      var parts := Split(c, '=');
      if |parts| == 2 && ParseInt(parts[1]).Some? then
        if parts[0] == "_oct_owner" then Some(owner == ParseInt(parts[1]).value)
        else if parts[0] == "id" then Some(rowId == ParseInt(parts[1]).value)
        else None
      else None
  }

  function ParseAll(xs: seq<string>): (r: Option<seq<int>>)
    ensures r.Some? ==> |r.value| == |xs|
  {
    if |xs| == 0 then Some([])
    else
      match (ParseInt(xs[0]), ParseAll(xs[1..]))
      case (Some(x), Some(rest)) => Some([x] + rest)
      case _ => None
  }

  /** A parenthesised, comma-separated list of integers. */
  function ParseIds(s: string): Option<seq<int>>
  {
    if |s| >= 2 && s[0] == '(' && s[|s| - 1] == ')' then
      var inner := s[1..|s| - 1];
      if inner == "" then Some([]) else ParseAll(Split(inner, ','))
    else None
  }

  /** The meaning of a WHERE text for a row owned by `owner` with id `rowId`;
      `None` for a text outside the grammar. */
  function EvalWhere(w: string, owner: int, rowId: int): Option<bool>
  {
    var p := Split(w, ' ');
    if |p| == 1 then EvalClause(p[0], owner, rowId)
    else if |p| == 3 && p[1] == "AND" then
      match (EvalClause(p[0], owner, rowId), EvalClause(p[2], owner, rowId))
      case (Some(a), Some(b)) => Some(a && b)
      case _ => None
    else if |p| == 5 && p[1] == "AND" && p[2] == "id" && p[3] == "in" then
      match (EvalClause(p[0], owner, rowId), ParseIds(p[4]))
      case (Some(a), Some(ids)) => Some(a && rowId in ids)
      case _ => None
    else None
  }

  /** A clause `name=<n>` compares column `name` with `n`. */
  lemma ComparisonEval(name: string, n: int, owner: int, rowId: int)
    requires name != "" && '=' !in name
    ensures var c := name + "=" + IntToString(n);
            && (name == "_oct_owner" ==> EvalClause(c, owner, rowId) == Some(owner == n))
            && (name == "id" ==> EvalClause(c, owner, rowId) == Some(rowId == n))
  {
    var t := IntToString(n);
    var c := name + "=" + t;
    IntToStringAvoids(n, '=');
    assert Join([name, t], "=") == c;
    SplitJoin([name, t], '=');
    IntToStringRoundTrip(n);
    assert c != "1" by { assert |c| > 1; }
  }

  /** The scope clause is one word. */
  lemma ScopeClauseWord(m: ModelDef, uid: Option<int>)
    ensures ' ' !in ScopeClause(m, uid)
  {
    if Scope(m) == Owner && !(uid.None? || uid == Some(0)) {
      IntToStringAvoids(uid.value, ' ');
    }
  }

  /** The scope clause means what `Visible` says of owners. */
  lemma ScopeClauseMeaning(m: ModelDef, uid: Option<int>, owner: int, rowId: int)
    ensures EvalClause(ScopeClause(m, uid), owner, rowId) == Some(Visible(m, uid, owner, rowId, None))
  {
    if Scope(m) == Owner && !(uid.None? || uid == Some(0)) {
      ComparisonEval("_oct_owner", uid.value, owner, rowId);
      assert "_oct_owner" + "=" == "_oct_owner=";
    }
  }

  /** The clause `id=<n>` is one word that selects row `n`. */
  lemma IdClauseMeaning(n: int, owner: int, rowId: int)
    ensures ' ' !in "id=" + IntToString(n)
    ensures EvalClause("id=" + IntToString(n), owner, rowId) == Some(rowId == n)
  {
    IntToStringAvoids(n, ' ');
    ComparisonEval("id", n, owner, rowId);
    assert "id" + "=" == "id=";
  }

  /** A one-word text is a single clause. */
  lemma OneWordWhere(w: string, owner: int, rowId: int)
    requires Split(w, ' ') == [w]
    ensures EvalWhere(w, owner, rowId) == EvalClause(w, owner, rowId)
  {
  }

  /** A three-word text `a AND b` holds when both clauses hold. */
  lemma AndWhere(w: string, a: string, b: string, x: bool, y: bool, owner: int, rowId: int)
    requires Split(w, ' ') == [a, "AND", b]
    requires EvalClause(a, owner, rowId) == Some(x) && EvalClause(b, owner, rowId) == Some(y)
    ensures EvalWhere(w, owner, rowId) == Some(x && y)
  {
  }

  /** `c AND id=<s>` is three words when neither `c` nor `s` holds a space. */
  lemma AndIdWords(c: string, s: string)
    requires ' ' !in c && ' ' !in "id=" + s
    ensures Split(c + " AND id=" + s, ' ') == [c, "AND", "id=" + s]
  {
    assert c + " AND id=" + s == c + [' '] + "AND" + [' '] + ("id=" + s);
    SplitThree(c, "AND", "id=" + s, ' ');
  }

  /** The condition with an id is the scope clause `AND id=<id>`. */
  lemma ConditionWithId(m: ModelDef, uid: Option<int>, id: int, owner: int, rowId: int)
    ensures EvalWhere(Condition(m, uid, Some(id)), owner, rowId) == Some(Visible(m, uid, owner, rowId, Some(id)))
  {
    var c := ScopeClause(m, uid);
    var s := IntToString(id);
    ScopeClauseMeaning(m, uid, owner, rowId);
    ScopeClauseWord(m, uid);
    IdClauseMeaning(id, owner, rowId);
    AndIdWords(c, s);
    AndWhere(c + " AND id=" + s, c, "id=" + s, Visible(m, uid, owner, rowId, None), rowId == id, owner, rowId);
  }

  /** The condition means exactly the visibility rule. */
  lemma ConditionMeaning(m: ModelDef, uid: Option<int>, id: Option<int>, owner: int, rowId: int)
    ensures EvalWhere(Condition(m, uid, id), owner, rowId) == Some(Visible(m, uid, owner, rowId, id))
  {
    if id.Some? {
      ConditionWithId(m, uid, id.value, owner, rowId);
    } else {
      var c := ScopeClause(m, uid);
      ScopeClauseMeaning(m, uid, owner, rowId);
      ScopeClauseWord(m, uid);
      SplitNoSeparator(c, ' ');
      OneWordWhere(c, owner, rowId);
    }
  }

  function IntStrings(xs: seq<int>): (ss: seq<string>)
    ensures |ss| == |xs| && forall k | 0 <= k < |xs| :: ss[k] == IntToString(xs[k])
  {
    if |xs| == 0 then [] else [IntToString(xs[0])] + IntStrings(xs[1..])
  }

  /** The id list of a DELETE. */
  function IdList(pks: seq<int>): string
  {
    Join(IntStrings(pks), ",")
  }

  /** Parsing a list that starts with one more number. */
  lemma ParseAllCons(w: string, ws: seq<string>, x: int, xs: seq<int>)
    requires ParseInt(w) == Some(x) && ParseAll(ws) == Some(xs)
    ensures ParseAll([w] + ws) == Some([x] + xs)
  {
    assert ([w] + ws)[0] == w && ([w] + ws)[1..] == ws;
  }

  lemma {:induction false} ParseAllIntStrings(xs: seq<int>)
    ensures ParseAll(IntStrings(xs)) == Some(xs)
  {
    if |xs| > 0 {
      assert IntStrings(xs) == [IntToString(xs[0])] + IntStrings(xs[1..]);
      IntToStringRoundTrip(xs[0]);
      ParseAllIntStrings(xs[1..]);
      ParseAllCons(IntToString(xs[0]), IntStrings(xs[1..]), xs[0], xs[1..]);
      assert [xs[0]] + xs[1..] == xs;
    }
  }

  /** The parenthesised id list is one word. */
  lemma IdListWord(pks: seq<int>)
    ensures ' ' !in "(" + IdList(pks) + ")"
  {
    var ss := IntStrings(pks);
    forall k | 0 <= k < |ss| ensures ' ' !in ss[k] {
      IntToStringAvoids(pks[k], ' ');
    }
    JoinAvoids(ss, ",", ' ');
  }

  /** The id list reads back as the keys it was made from. */
  lemma IdListMeaning(pks: seq<int>)
    ensures ParseIds("(" + IdList(pks) + ")") == Some(pks)
  {
    var ss := IntStrings(pks);
    var s := "(" + IdList(pks) + ")";
    assert s[1..|s| - 1] == IdList(pks);
    if |pks| > 0 {
      forall k | 0 <= k < |ss| ensures ',' !in ss[k] {
        IntToStringAvoids(pks[k], ',');
      }
      assert |IdList(pks)| >= |ss[0]| > 0;
      SplitJoin(ss, ',');
      ParseAllIntStrings(pks);
    }
  }

  /** The WHERE text of a DELETE. */
  function DeleteWhere(m: ModelDef, uid: Option<int>, pks: seq<int>): string
  {
    Condition(m, uid, None) + " AND id in (" + IdList(pks) + ")"
  }

  /** The DELETE statement of `ModelDef::delete`. */
  function DeleteText(m: ModelDef, pks: seq<int>, uid: Option<int>): string
  {
    "DELETE FROM " + m.name + " WHERE " + DeleteWhere(m, uid, pks)
  }

  /** A five-word text `c AND id in (list)` holds when the clause holds and
      the row's id is listed. */
  lemma InListWhere(w: string, c: string, list: string, ids: seq<int>, clause: bool, owner: int, rowId: int)
    requires Split(w, ' ') == [c, "AND", "id", "in", list]
    requires EvalClause(c, owner, rowId) == Some(clause) && ParseIds(list) == Some(ids)
    ensures EvalWhere(w, owner, rowId) == Some(clause && rowId in ids)
  {
  }

  /** A DELETE removes exactly the visible rows whose id is listed. */
  lemma DeleteMeaning(m: ModelDef, uid: Option<int>, pks: seq<int>, owner: int, rowId: int)
    ensures EvalWhere(DeleteWhere(m, uid, pks), owner, rowId) == Some(Visible(m, uid, owner, rowId, None) && rowId in pks)
  {
    DeleteWords(m, uid, pks);
    ScopeClauseMeaning(m, uid, owner, rowId);
    IdListMeaning(pks);
    InListWhere(DeleteWhere(m, uid, pks), ScopeClause(m, uid), "(" + IdList(pks) + ")", pks,
                Visible(m, uid, owner, rowId, None), owner, rowId);
  }

  /** The WHERE text of a DELETE is five words. */
  lemma DeleteWords(m: ModelDef, uid: Option<int>, pks: seq<int>)
    ensures Split(DeleteWhere(m, uid, pks), ' ') == [ScopeClause(m, uid), "AND", "id", "in", "(" + IdList(pks) + ")"]
  {
    var c := ScopeClause(m, uid);
    ScopeClauseWord(m, uid);
    IdListWord(pks);
    var ids := IdList(pks);
    var last := "(" + ids + ")";
    var glue := " AND id in ";
    assert glue == [' '] + "AND" + [' '] + "id" + [' '] + "in" + [' '];
    assert " AND id in (" == glue + "(";
    AppendAssoc(c, glue, "(");
    AppendAssoc(c + glue, "(", ids);
    AppendAssoc(c + glue, "(" + ids, ")");
    assert DeleteWhere(m, uid, pks) == c + glue + last;
    SplitFive(c, glue, last, "AND", "id", "in", ' ');
  }

  /** `ModelDef::delete`: the engine's count of deleted rows, which can be
      smaller than the number of keys. */
  method Delete(db: Connection, m: ModelDef, pks: seq<int>, uid: Option<int>) returns (r: Result<nat>)
    modifies db
    ensures db.log == old(db.log) + [Statement(DeleteText(m, pks, uid), [])]
    ensures r == db.reply(|old(db.log)|)
  {
    var sql := DeleteText(m, pks, uid);
    r := db.Execute(sql, []);
  }

  // ---------------------------------------------------------------- SELECT

  /** A row of a model's table as stored: its `_oct_owner` and `id` columns,
      and the columns `SelectText` lists for it (`id` first; a table keeps
      the two `id`s equal when `WellFormedTable` holds of it). */
  datatype StoredRow = StoredRow(owner: int, id: int, columns: seq<DbValue>)

  /** The rows of `table` a WHERE text holds for, in table order: what an
      engine that evaluates the text over `table` returns. */
  function Matching(table: seq<StoredRow>, w: string): seq<seq<DbValue>>
  {
    if |table| == 0 then []
    else
      (if EvalWhere(w, table[0].owner, table[0].id) == Some(true) then [table[0].columns] else [])
      + Matching(table[1..], w)
  }

  /** The rows of `table` that `uid` may see and, given `id`, only that row,
      in table order. */
  function VisibleRows(m: ModelDef, uid: Option<int>, id: Option<int>, table: seq<StoredRow>): (rs: seq<seq<DbValue>>)
    ensures |rs| <= |table|
    ensures forall r | r in table && Visible(m, uid, r.owner, r.id, id) :: r.columns in rs
    ensures forall c | c in rs :: exists r | r in table :: Visible(m, uid, r.owner, r.id, id) && r.columns == c
  {
    if |table| == 0 then []
    else
      (if Visible(m, uid, table[0].owner, table[0].id, id) then [table[0].columns] else [])
      + VisibleRows(m, uid, id, table[1..])
  }

  /** A table as the engine keeps it: the first listed column of a row is its
      own `id`. */
  predicate WellFormedTable(table: seq<StoredRow>)
  {
    forall r | r in table :: |r.columns| > 0 && r.columns[0] == IntegerValue(r.id)
  }

  /** Evaluated row by row, the condition of `select` picks exactly the
      visible rows. */
  lemma {:induction false} ConditionSelects(m: ModelDef, uid: Option<int>, id: Option<int>, table: seq<StoredRow>)
    ensures Matching(table, Condition(m, uid, id)) == VisibleRows(m, uid, id, table)
  {
    if |table| > 0 {
      ConditionMeaning(m, uid, id, table[0].owner, table[0].id);
      ConditionSelects(m, uid, id, table[1..]);
    }
  }

  /** `ModelDef::select`: the query for `SelectText(m, Some(Condition(m, uid, id)))`. */
  method Select(m: ModelDef, uid: Option<int>, id: Option<int>, answers: Answers) returns (r: Result<seq<Row>>)
    ensures r == Fetched(answers, m, Some(Condition(m, uid, id)), None)
    ensures forall table: seq<StoredRow> | answers(SelectText(m, Some(Condition(m, uid, id)))) == Ok(Matching(table, Condition(m, uid, id))) ::
              r == Collected(DecodeAll(Fields(m), VisibleRows(m, uid, id, table)), None)
  {
    r := Query(m, Condition(m, uid, id), answers);
    forall table: seq<StoredRow> | answers(SelectText(m, Some(Condition(m, uid, id)))) == Ok(Matching(table, Condition(m, uid, id)))
      ensures r == Collected(DecodeAll(Fields(m), VisibleRows(m, uid, id, table)), None)
    {
      SelectSeesVisible(m, uid, id, answers, table);
    }
  }

  /** Against an engine that evaluates its WHERE text over `table`, `select`
      returns the rows visible to `uid` (only row `id` when one is given),
      decoded, in table order; a row that fails to decode fails the whole
      select. */
  lemma SelectSeesVisible(m: ModelDef, uid: Option<int>, id: Option<int>, answers: Answers, table: seq<StoredRow>)
    requires answers(SelectText(m, Some(Condition(m, uid, id)))) == Ok(Matching(table, Condition(m, uid, id)))
    ensures Fetched(answers, m, Some(Condition(m, uid, id)), None) ==
            Collected(DecodeAll(Fields(m), VisibleRows(m, uid, id, table)), None)
  {
    ConditionSelects(m, uid, id, table);
  }

  /** A select for one id, against an engine that evaluates its WHERE text
      over a well-formed table, yields only rows whose `id` field is that id. */
  lemma SelectByIdYieldsThatId(m: ModelDef, uid: Option<int>, n: int, answers: Answers, table: seq<StoredRow>, rows: seq<Row>)
    requires WellFormedTable(table)
    requires answers(SelectText(m, Some(Condition(m, uid, Some(n))))) == Ok(Matching(table, Condition(m, uid, Some(n))))
    requires Fetched(answers, m, Some(Condition(m, uid, Some(n))), None) == Ok(rows)
    ensures forall k | 0 <= k < |rows| :: "id" in rows[k].fields && rows[k].fields["id"] == Integer(n)
  {
    SelectSeesVisible(m, uid, Some(n), answers, table);
    var vis := VisibleRows(m, uid, Some(n), table);
    var rs := DecodeAll(Fields(m), vis);
    forall k | 0 <= k < |rows|
      ensures "id" in rows[k].fields && rows[k].fields["id"] == Integer(n)
    {
      assert rs[k] == Ok(rows[k]);
      assert vis[k] in vis;
      var r :| r in table && Visible(m, uid, r.owner, r.id, Some(n)) && r.columns == vis[k];
      DecodedRowShape(Fields(m), vis[k]);
    }
  }

  // ---------------------------------------------------------------- UPDATE

  /** `order` lists each key of a set once: the order a map is iterated in. */
  predicate Enumerates(order: seq<string>, keys: set<string>)
  {
    && (forall x | x in order :: x in keys)
    && (forall x | x in keys :: x in order)
    && (forall i, j | 0 <= i < j < |order| :: order[i] != order[j])
  }

  /** The keys an UPDATE sets: all but `id`, in iteration order. */
  function SetKeys(order: seq<string>): (ks: seq<string>)
    ensures "id" !in ks
    ensures forall x :: x in ks <==> x in order && x != "id"
    decreases |order|
  {
    if |order| == 0 then []
    else SetKeys(order[..|order| - 1]) + (if order[|order| - 1] == "id" then [] else [order[|order| - 1]])
  }

  /** The values bound to the keys of `SetKeys(order)`. */
  function SetValues(order: seq<string>, rec: Row): (vs: seq<DbValue>)
    requires forall x | x in order :: x in rec.fields
    ensures |vs| == |SetKeys(order)|
    ensures forall j | 0 <= j < |vs| :: vs[j] == ToDbValue(rec.fields[SetKeys(order)[j]])
    decreases |order|
  {
    if |order| == 0 then []
    else SetValues(order[..|order| - 1], rec) +
         (if order[|order| - 1] == "id" then [] else [ToDbValue(rec.fields[order[|order| - 1]])])
  }

  function Assignments(keys: seq<string>): (ss: seq<string>)
    ensures |ss| == |keys| && forall k | 0 <= k < |keys| :: ss[k] == keys[k] + "=?"
  {
    if |keys| == 0 then [] else [keys[0] + "=?"] + Assignments(keys[1..])
  }

  /** The UPDATE statement for the given keys of row `id`. */
  function UpdateText(m: ModelDef, keys: seq<string>, uid: Option<int>, id: int): string
  {
    "UPDATE " + m.name + " SET " + Join(Assignments(keys), ",") + " WHERE " + Condition(m, uid, Some(id))
  }

  /** The UPDATE sets every field of the row but `id`, each once. */
  lemma UpdateSetsAllButId(order: seq<string>, rec: Row)
    requires Enumerates(order, rec.fields.Keys)
    ensures forall x :: x in SetKeys(order) <==> x in rec.fields && x != "id"
    ensures forall i, j | 0 <= i < j < |SetKeys(order)| :: SetKeys(order)[i] != SetKeys(order)[j]
  {
    SetKeysDistinct(order);
  }

  /** Dropping `id` from a list without repeats leaves a list without repeats. */
  lemma {:induction false} SetKeysDistinct(order: seq<string>)
    requires forall i, j | 0 <= i < j < |order| :: order[i] != order[j]
    ensures forall i, j | 0 <= i < j < |SetKeys(order)| :: SetKeys(order)[i] != SetKeys(order)[j]
    decreases |order|
  {
    if |order| > 0 {
      var init := order[..|order| - 1];
      var last := order[|order| - 1];
      SetKeysDistinct(init);
      assert last !in init;
      assert last !in SetKeys(init);
    }
  }

  /** Visiting one more key of the row. */
  lemma SetStep(order: seq<string>, rec: Row, i: nat)
    requires i < |order| && forall x | x in order :: x in rec.fields
    ensures SetKeys(order[..i + 1]) == SetKeys(order[..i]) + (if order[i] == "id" then [] else [order[i]])
    ensures SetValues(order[..i + 1], rec) ==
            SetValues(order[..i], rec) + (if order[i] == "id" then [] else [ToDbValue(rec.fields[order[i]])])
    ensures "id" in order[..i + 1] <==> "id" in order[..i] || order[i] == "id"
  {
    assert order[..i + 1][..i] == order[..i];
    assert order[..i + 1] == order[..i] + [order[i]];
  }

  /** `ModelDef::update`, visiting the row's fields in `order`. An `id` that
      is not an integer panics; a row without `id` fails; otherwise one
      UPDATE restricted by `Condition(m, uid, Some(id))` is sent and its
      outcome returned. */
  method Update(db: Connection, m: ModelDef, rec: Row, uid: Option<int>, order: seq<string>) returns (r: Outcome)
    requires Enumerates(order, rec.fields.Keys)
    modifies db
    ensures "id" !in rec.fields ==> r == Fail(NoId) && db.log == old(db.log)
    ensures "id" in rec.fields && !rec.fields["id"].Integer? ==> r == Fail(Panic("id")) && db.log == old(db.log)
    ensures "id" in rec.fields && rec.fields["id"].Integer? ==>
              db.log == old(db.log) + [Statement(UpdateText(m, SetKeys(order), uid, rec.fields["id"].i), SetValues(order, rec))] &&
              r == OutcomeOf(db.reply(|old(db.log)|))
  {
    var cols := UpdateColumns(order, rec);
    if cols.Err? {
      return Fail(cols.error);
    }
    var (keys, vals, id) := cols.value;
    if id.None? {
      return Fail(NoId);
    }
    var sql := UpdateText(m, keys, uid, id.value);
    var res := db.Execute(sql, vals);
    r := OutcomeOf(res);
  }

  /** The loop of `ModelDef::update` over the row's fields in `order`: the
      SET keys and values, and the integer `id` if the row has one; an `id`
      that is not an integer panics. */
  method UpdateColumns(order: seq<string>, rec: Row) returns (r: Result<(seq<string>, seq<DbValue>, Option<int>)>)
    requires forall x | x in order :: x in rec.fields
    ensures r.Err? <==> "id" in order && !rec.fields["id"].Integer?
    ensures r.Err? ==> r.error == Panic("id")
    ensures r.Ok? ==> r.value.0 == SetKeys(order) && r.value.1 == SetValues(order, rec)
    ensures r.Ok? ==> (r.value.2.Some? <==> "id" in order)
    ensures r.Ok? && r.value.2.Some? ==> rec.fields["id"] == Integer(r.value.2.value)
  {
    var keys: seq<string> := [];
    var vals: seq<DbValue> := [];
    var id: Option<int> := None;
    var i := 0;
    while i < |order|
      invariant 0 <= i <= |order|
      invariant keys == SetKeys(order[..i]) && vals == SetValues(order[..i], rec)
      invariant id.Some? <==> "id" in order[..i]
      invariant id.Some? ==> rec.fields["id"] == Integer(id.value)
    {
      SetStep(order, rec, i);
      var k := order[i];
      assert k in order;
      var v := rec.fields[k];
      if k == "id" {
        if !v.Integer? {
          return Err(Panic("id"));
        }
        id := Some(v.i);
        i := i + 1;
        continue;
      }
      keys := keys + [k];
      vals := vals + [ToDbValue(v)];
      i := i + 1;
    }
    assert order[..i] == order;
    r := Ok((keys, vals, id));
  }
}
