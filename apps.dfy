/** Applications on disk and the migration of their tables (`src/apps.rs`).
    An application lives in `apps/<handle>`: its checked-out repository in
    `repo`, its database in `db.sqlite`. When a new definition is deployed,
    every model's table is created or widened to match it. */
module Apps {
  import opened Common
  import opened Schema
  import opened Db
  import opened Model

  const APPS_DIR: string := "apps"
  const DB_FILENAME: string := "db.sqlite"
  /** `64 << 10` bytes. */
  const APP_YAML_MAX_SIZE: nat := 65536
  /** Table names starting with this belong to the server itself. */
  const INTERNAL_PREFIX: string := "__oct"

  // ---------------------------------------------------------------- paths

  /** `Entry::child`: a path one level down. */
  function Child(parent: string, name: string): (p: string)
  {
    parent + "/" + name
  }

  /** `OctApp::dir`. */
  function AppDir(handle: string): string
  {
    Child(APPS_DIR, handle)
  }

  /** `OctApp::repo`. */
  function RepoDir(handle: string): string
  {
    Child(AppDir(handle), "repo")
  }

  /** The database entry `OctApp::db` opens, relative to the data
      directory: the file itself is `<data_dir>/apps/<handle>/db.sqlite`. */
  function DbFile(handle: string): string
  {
    Child(AppDir(handle), DB_FILENAME)
  }

  /** The repository and the database sit side by side in the application's
      own directory, which is named by its handle under `apps`. */
  lemma AppPaths(handle: string)
    ensures RepoDir(handle) == "apps/" + handle + "/repo"
    ensures DbFile(handle) == "apps/" + handle + "/db.sqlite"
    ensures StartsWith(RepoDir(handle), AppDir(handle) + "/") && StartsWith(DbFile(handle), AppDir(handle) + "/")
  {
    assert RepoDir(handle) == AppDir(handle) + "/" + "repo";
    assert DbFile(handle) == AppDir(handle) + "/" + DB_FILENAME;
  }

  /** Two applications with different handles share no directory. */
  lemma DistinctHandles(h1: string, h2: string)
    requires h1 != h2
    ensures AppDir(h1) != AppDir(h2) && RepoDir(h1) != RepoDir(h2) && DbFile(h1) != DbFile(h2)
  {
    HandleRecoverable(h1);
    HandleRecoverable(h2);
  }

  /** The handle can be read back from each of the application's paths. */
  lemma HandleRecoverable(h: string)
    ensures AppDir(h)[5..] == h
    ensures |RepoDir(h)| >= 5 && RepoDir(h)[..|RepoDir(h)| - 5] == AppDir(h)
    ensures |DbFile(h)| >= 10 && DbFile(h)[..|DbFile(h)| - 10] == AppDir(h)
  {
    assert RepoDir(h) == AppDir(h) + "/repo";
    assert DbFile(h) == AppDir(h) + "/db.sqlite";
  }

  /** `OctApp::status`: an application runs once its repository is checked out. */
  function Status(repoExists: bool): (s: string)
    ensures s == "RUNNING" <==> repoExists
    ensures s == "PENDING" <==> !repoExists
  {
    if repoExists then "RUNNING" else "PENDING"
  }

  // ---------------------------------------------------------------- app.yml

  /** `get_repo_app_def`: the size of `app.yml` is checked before it is read;
      `parsed` stands for reading and parsing the file. */
  function RepoAppDef(size: Result<nat>, parsed: Result<AppDef>): (r: Result<AppDef>)
    ensures size.Err? ==> r == Err(size.error)
    ensures size.Ok? && size.value > APP_YAML_MAX_SIZE ==> r == Err(AppYamlTooLarge)
    ensures size.Ok? && size.value <= APP_YAML_MAX_SIZE ==> r == parsed
  {
    match size
    case Err(e) => Err(e)
    case Ok(n) => if n > APP_YAML_MAX_SIZE then Err(AppYamlTooLarge) else parsed
  }

  // ---------------------------------------------------------------- sync_models

  /** The models migrated, in order: the internal user model, then the
      declared ones. */
  function SyncOrder(app: AppDef): (models: seq<ModelDef>)
    ensures |models| == |app.models| + 1 && models[0] == MakeUserModel()
    ensures forall k | 0 <= k < |app.models| :: models[k + 1] == app.models[k]
  {
    [MakeUserModel()] + app.models
  }

  /** What migrating one model sends to the engine, starting with its
      `start`-th statement, and how it ends. A table that does not exist is
      created; an existing internal table is left alone; any other existing
      table is widened against the same model of the previous definition,
      and without one the server panics. */
  function ModelStep(m: ModelDef, tables: seq<string>, prev: Option<AppDef>,
                     reply: nat -> Result<nat>, start: nat): (step: (seq<Statement>, Outcome))
  {
    if m.name !in tables then ([Statement(CreateTableText(m), [])], OutcomeOf(reply(start)))
    else if StartsWith(m.name, INTERNAL_PREFIX) then ([], Pass)
    else if prev.None? then ([], Fail(Panic("no previous definition")))
    else
      match GetModel(prev.value.models, m.name)
      case None => ([], Fail(Panic("model missing from previous definition")))
      case Some(pm) =>
        (AlterSent(reply, start, AlterPlan(m, pm)), AlterOutcome(reply, start, AlterPlan(m, pm)))
  }

  /** How one model is migrated: from the index of its first statement to
      the statements it sends and how it ends. */
  type Step = (ModelDef, nat) -> (seq<Statement>, Outcome)

  /** The migration step of `sync_models` for a given table list, previous
      definition and engine. */
  function StepFor(tables: seq<string>, prev: Option<AppDef>, reply: nat -> Result<nat>): Step
  {
    (m: ModelDef, start: nat) => ModelStep(m, tables, prev, reply, start)
  }

  /** Migrating `models[i..]` in order from the `start`-th statement on,
      stopping at the first model whose migration fails. */
  function SyncFrom(models: seq<ModelDef>, i: nat, step: Step, start: nat): (r: (seq<Statement>, Outcome))
    decreases |models| - i
  {
    if i >= |models| then ([], Pass)
    else
      var first := step(models[i], start);
      if first.1.Fail? then first
      else After(first.0, SyncFrom(models, i + 1, step, start + |first.0|))
  }

  /** The statements sent so far, followed by what the remaining models send. */
  function After(sent: seq<Statement>, rest: (seq<Statement>, Outcome)): (seq<Statement>, Outcome)
  {
    (sent + rest.0, rest.1)
  }

  /** One model's migration, as `sync_models` performs it. */
  method SyncModel(db: Connection, m: ModelDef, tables: seq<string>, prev: Option<AppDef>) returns (r: Outcome)
    modifies db
    ensures db.log == old(db.log) + ModelStep(m, tables, prev, db.reply, |old(db.log)|).0
    ensures r == ModelStep(m, tables, prev, db.reply, |old(db.log)|).1
  {
    if m.name in tables {
      if StartsWith(m.name, INTERNAL_PREFIX) {
        return Pass;
      }
      if prev.None? {
        return Fail(Panic("no previous definition"));
      }
      var pm := GetModel(prev.value.models, m.name);
      if pm.None? {
        return Fail(Panic("model missing from previous definition"));
      }
      r := AlterTable(db, m, pm.value);
    } else {
      r := CreateTable(db, m);
    }
  }

  /** `sync_models`: `tables` is what `DB::tables` answered. */
  method SyncModels(db: Connection, tables: Result<seq<string>>, prev: Option<AppDef>, app: AppDef) returns (r: Outcome)
    modifies db
    ensures tables.Err? ==> db.log == old(db.log) && r == Fail(tables.error)
    ensures tables.Ok? ==>
      var plan := SyncFrom(SyncOrder(app), 0, StepFor(tables.value, prev, db.reply), |old(db.log)|);
      db.log == old(db.log) + plan.0 && r == plan.1
  {
    if tables.Err? {
      return Fail(tables.error);
    }
    r := SyncAll(db, SyncOrder(app), tables.value, prev);
  }

  /** The loop of `sync_models` over the models in order. */
  method SyncAll(db: Connection, models: seq<ModelDef>, tables: seq<string>, prev: Option<AppDef>) returns (r: Outcome)
    modifies db
    ensures var plan := SyncFrom(models, 0, StepFor(tables, prev, db.reply), |old(db.log)|);
            db.log == old(db.log) + plan.0 && r == plan.1
  {
    ghost var step := StepFor(tables, prev, db.reply);
    ghost var log0 := db.log;
    var i := 0;
    SyncStart(models, step, log0);
    while i < |models|
      invariant 0 <= i <= |models|
      invariant SyncProgress(models, step, log0, db.log, i)
    {
      r := SyncTurn(db, models, tables, prev, i, step, log0);
      if r.Fail? {
        return;
      }
      i := i + 1;
    }
    SyncEnd(models, step, log0, db.log);
    r := Pass;
  }

  /** One turn of the loop of `sync_models`: migrate `models[i]`. */
  method SyncTurn(db: Connection, models: seq<ModelDef>, tables: seq<string>, prev: Option<AppDef>, i: nat,
                  ghost step: Step, ghost log0: seq<Statement>) returns (r: Outcome)
    requires i < |models| && step == StepFor(tables, prev, db.reply)
    requires SyncProgress(models, step, log0, db.log, i)
    modifies db
    ensures r.Pass? ==> SyncProgress(models, step, log0, db.log, i + 1)
    ensures r.Fail? ==> db.log == log0 + SyncFrom(models, 0, step, |log0|).0 && r == SyncFrom(models, 0, step, |log0|).1
  {
    ghost var log1 := db.log;
    r := SyncModel(db, models[i], tables, prev);
    assert db.log == log1 + step(models[i], |log1|).0 && r == step(models[i], |log1|).1;
    SyncStep(models, step, log0, log1, db.log, i);
  }

  /** After `i` models, the log holds what the first `i` sent, and what the
      rest will send completes the whole migration. */
  ghost predicate SyncProgress(models: seq<ModelDef>, step: Step, log0: seq<Statement>, log: seq<Statement>, i: nat)
  {
    && i <= |models| && |log0| <= |log| && log[..|log0|] == log0
    && SyncFrom(models, 0, step, |log0|) == After(log[|log0|..], SyncFrom(models, i, step, |log|))
  }

  lemma SyncStart(models: seq<ModelDef>, step: Step, log0: seq<Statement>)
    ensures SyncProgress(models, step, log0, log0, 0)
  {
    var r := SyncFrom(models, 0, step, |log0|);
    assert log0[|log0|..] == [] && [] + r.0 == r.0;
  }

  lemma SyncEnd(models: seq<ModelDef>, step: Step, log0: seq<Statement>, log: seq<Statement>)
    requires SyncProgress(models, step, log0, log, |models|)
    ensures log == log0 + SyncFrom(models, 0, step, |log0|).0
    ensures SyncFrom(models, 0, step, |log0|).1 == Pass
  {
    var rest := SyncFrom(models, |models|, step, |log|);
    assert rest == ([], Pass);
    assert log[|log0|..] + rest.0 == log[|log0|..];
    assert log == log0 + log[|log0|..];
  }

  /** One turn of the loop in `sync_models`. */
  lemma SyncStep(models: seq<ModelDef>, step: Step, log0: seq<Statement>, log1: seq<Statement>, log2: seq<Statement>, i: nat)
    requires i < |models| && SyncProgress(models, step, log0, log1, i)
    requires log2 == log1 + step(models[i], |log1|).0
    ensures step(models[i], |log1|).1.Fail? ==>
            log2 == log0 + SyncFrom(models, 0, step, |log0|).0 && SyncFrom(models, 0, step, |log0|).1 == step(models[i], |log1|).1
    ensures step(models[i], |log1|).1.Pass? ==> SyncProgress(models, step, log0, log2, i + 1)
  {
    if step(models[i], |log1|).1.Pass? {
      SyncStepPass(models, step, log0, log1, log2, i);
    } else {
      SyncStepFail(models, step, log0, log1, log2, i);
    }
  }

  /** A model that migrates moves the loop on by one. */
  lemma SyncStepPass(models: seq<ModelDef>, step: Step, log0: seq<Statement>, log1: seq<Statement>, log2: seq<Statement>, i: nat)
    requires i < |models| && SyncProgress(models, step, log0, log1, i)
    requires log2 == log1 + step(models[i], |log1|).0 && step(models[i], |log1|).1.Pass?
    ensures SyncProgress(models, step, log0, log2, i + 1)
  {
    var first := step(models[i], |log1|);
    LogAppend(log0, log1, log2, first.0);
    var rest := SyncFrom(models, i + 1, step, |log2|);
    assert SyncFrom(models, i, step, |log1|) == After(first.0, rest);
    AfterAssoc(log1[|log0|..], first.0, rest);
  }

  /** A model that fails ends the migration with what was sent so far. */
  lemma SyncStepFail(models: seq<ModelDef>, step: Step, log0: seq<Statement>, log1: seq<Statement>, log2: seq<Statement>, i: nat)
    requires i < |models| && SyncProgress(models, step, log0, log1, i)
    requires log2 == log1 + step(models[i], |log1|).0 && step(models[i], |log1|).1.Fail?
    ensures log2 == log0 + SyncFrom(models, 0, step, |log0|).0 && SyncFrom(models, 0, step, |log0|).1 == step(models[i], |log1|).1
  {
    var first := step(models[i], |log1|);
    LogAppend(log0, log1, log2, first.0);
    assert SyncFrom(models, i, step, |log1|) == first;
  }

  /** Statements sent in two stretches. */
  lemma AfterAssoc(a: seq<Statement>, b: seq<Statement>, r: (seq<Statement>, Outcome))
    ensures After(a, After(b, r)) == After(a + b, r)
  {
    assert a + (b + r.0) == (a + b) + r.0;
  }

  /** Appending to a log keeps its prefix. */
  lemma LogAppend(log0: seq<Statement>, log1: seq<Statement>, log2: seq<Statement>, sent: seq<Statement>)
    requires |log0| <= |log1| && log1[..|log0|] == log0 && log2 == log1 + sent
    ensures |log0| <= |log2| && log2[..|log0|] == log0
    ensures log2[|log0|..] == log1[|log0|..] + sent && log2 == log0 + log2[|log0|..]
  {
    assert log1 == log0 + log1[|log0|..];
  }

  // ---------------------------------------------------------------- whole migrations

  /** When every model's step passes after sending one statement, the
      migration sends those statements in model order. */
  lemma {:induction false} SyncOneEach(models: seq<ModelDef>, i: nat, step: Step, sql: ModelDef -> Statement, start: nat)
    requires i <= |models| && forall m, s :: step(m, s) == ([sql(m)], Pass)
    ensures var r := SyncFrom(models, i, step, start);
            && r.1 == Pass && |r.0| == |models| - i
            && forall k | i <= k < |models| :: r.0[k - i] == sql(models[k])
    decreases |models| - i
  {
    if i < |models| {
      SyncOneEach(models, i + 1, step, sql, start + 1);
      assert step(models[i], start) == ([sql(models[i])], Pass);
      var rest := SyncFrom(models, i + 1, step, start + 1);
      assert SyncFrom(models, i, step, start) == After([sql(models[i])], rest);
      forall k | i + 1 <= k < |models| ensures ([sql(models[i])] + rest.0)[k - i] == sql(models[k]) {
        assert ([sql(models[i])] + rest.0)[k - i] == rest.0[k - (i + 1)];
      }
    }
  }

  /** When every step sends nothing and passes, so does the migration. */
  lemma {:induction false} SyncNothing(models: seq<ModelDef>, i: nat, step: Step, start: nat)
    requires i <= |models| && forall k, s | i <= k < |models| :: step(models[k], s) == ([], Pass)
    ensures SyncFrom(models, i, step, start) == ([], Pass)
    decreases |models| - i
  {
    if i < |models| {
      SyncNothing(models, i + 1, step, start);
      assert step(models[i], start) == ([], Pass);
      assert SyncFrom(models, i, step, start) == After([], SyncFrom(models, i + 1, step, start));
    }
  }

  /** When a step fails exactly on the models `bad` picks out, always with a
      panic, the migration fails exactly when one of them is among the
      models, and then with a panic. */
  lemma {:induction false} SyncFailsOnBad(models: seq<ModelDef>, i: nat, step: Step, bad: ModelDef -> bool, start: nat)
    requires i <= |models|
    requires forall m, s :: step(m, s).1.Fail? <==> bad(m)
    requires forall m, s :: step(m, s).1.Fail? ==> step(m, s).1.error.Panic?
    ensures SyncFrom(models, i, step, start).1.Fail? <==> exists k | i <= k < |models| :: bad(models[k])
    ensures SyncFrom(models, i, step, start).1.Fail? ==> SyncFrom(models, i, step, start).1.error.Panic?
    decreases |models| - i
  {
    if i < |models| {
      var first := step(models[i], start);
      SyncFailsOnBad(models, i + 1, step, bad, start + |first.0|);
      if !bad(models[i]) {
        assert (exists k | i <= k < |models| :: bad(models[k])) <==>
               (exists k | i + 1 <= k < |models| :: bad(models[k]));
      }
    }
  }

  // ---------------------------------------------------------------- properties

  /** A model without a table gets one, with its CREATE TABLE statement. */
  lemma CreateWhenAbsent(m: ModelDef, tables: seq<string>, prev: Option<AppDef>, reply: nat -> Result<nat>, start: nat)
    requires m.name !in tables
    ensures ModelStep(m, tables, prev, reply, start) == ([Statement(CreateTableText(m), [])], OutcomeOf(reply(start)))
  {
  }

  /** On a database without tables every model's table is created, in
      order, when the engine accepts every statement. */
  lemma FreshDatabase(models: seq<ModelDef>, prev: Option<AppDef>, reply: nat -> Result<nat>, start: nat)
    requires forall n :: reply(n).Ok?
    ensures var r := SyncFrom(models, 0, StepFor([], prev, reply), start);
            && r.1 == Pass && |r.0| == |models|
            && forall k | 0 <= k < |models| :: r.0[k] == Statement(CreateTableText(models[k]), [])
  {
    var sql := (m: ModelDef) => Statement(CreateTableText(m), []);
    forall m, s ensures StepFor([], prev, reply)(m, s) == ([sql(m)], Pass) {
      CreateWhenAbsent(m, [], prev, reply, s);
    }
    SyncOneEach(models, 0, StepFor([], prev, reply), sql, start);
  }

  /** The user model's table comes first: on a database without it, the
      first statement sent creates it. */
  lemma UserTableFirst(tables: seq<string>, prev: Option<AppDef>, app: AppDef, reply: nat -> Result<nat>, start: nat)
    requires USER_MODEL !in tables
    ensures var r := SyncFrom(SyncOrder(app), 0, StepFor(tables, prev, reply), start);
            |r.0| > 0 && r.0[0] == Statement(CreateTableText(MakeUserModel()), [])
  {
    CreateWhenAbsent(MakeUserModel(), tables, prev, reply, start);
  }

  /** An existing internal table is never migrated. */
  lemma InternalTablesUntouched(m: ModelDef, tables: seq<string>, prev: Option<AppDef>, reply: nat -> Result<nat>, start: nat)
    requires m.name in tables && StartsWith(m.name, INTERNAL_PREFIX)
    ensures ModelStep(m, tables, prev, reply, start) == ([], Pass)
  {
  }

  /** A model whose table exists and is not internal. */
  predicate Existing(m: ModelDef, tables: seq<string>)
  {
    m.name in tables && !StartsWith(m.name, INTERNAL_PREFIX)
  }

  /** Without a previous definition and with an engine that accepts every
      statement, one model's migration fails exactly when its table exists
      and is not internal, and then it panics. */
  lemma NoPreviousStep(m: ModelDef, tables: seq<string>, reply: nat -> Result<nat>, start: nat)
    requires forall n :: reply(n).Ok?
    ensures ModelStep(m, tables, None, reply, start).1.Fail? <==> Existing(m, tables)
    ensures ModelStep(m, tables, None, reply, start).1.Fail? ==> ModelStep(m, tables, None, reply, start).1.error.Panic?
  {
  }

  /** Without a previous definition, when the engine accepts every statement,
      the migration panics exactly when some model other than an internal
      one already has a table. */
  lemma NoPreviousDefinition(models: seq<ModelDef>, tables: seq<string>, reply: nat -> Result<nat>, start: nat)
    requires forall n :: reply(n).Ok?
    ensures SyncFrom(models, 0, StepFor(tables, None, reply), start).1.Fail? <==>
            exists k | 0 <= k < |models| :: Existing(models[k], tables)
    ensures SyncFrom(models, 0, StepFor(tables, None, reply), start).1.Fail? ==>
            SyncFrom(models, 0, StepFor(tables, None, reply), start).1.error.Panic?
  {
    var bad := (m: ModelDef) => Existing(m, tables);
    forall m, s ensures StepFor(tables, None, reply)(m, s).1.Fail? <==> bad(m)
                ensures StepFor(tables, None, reply)(m, s).1.Fail? ==> StepFor(tables, None, reply)(m, s).1.error.Panic? {
      NoPreviousStep(m, tables, reply, s);
    }
    SyncFailsOnBad(models, 0, StepFor(tables, None, reply), bad, start);
  }

  /** A model whose table exists is left as it is when the previous
      definition is the deployed one and names are distinct. */
  lemma UnchangedModelStep(m: ModelDef, tables: seq<string>, app: AppDef, reply: nat -> Result<nat>, start: nat)
    requires m.name in tables && (StartsWith(m.name, INTERNAL_PREFIX) || m in app.models)
    requires forall j, k | 0 <= j < k < |app.models| :: app.models[j].name != app.models[k].name
    ensures ModelStep(m, tables, Some(app), reply, start) == ([], Pass)
  {
    if !StartsWith(m.name, INTERNAL_PREFIX) {
      var pm := GetModel(app.models, m.name);
      var i :| 0 <= i < |app.models| && app.models[i] == m;
      var j :| 0 <= j < |app.models| && app.models[j] == pm.value && pm.value.name == m.name
               && forall l | 0 <= l < j :: app.models[l].name != m.name;
      assert i == j;
      AlterIdempotent(m);
      assert AlterSent(reply, start, []) == [];
    }
  }

  /** Deploying the same definition again, with every table in place and
      model names distinct, sends nothing and succeeds. */
  lemma Redeploy(app: AppDef, tables: seq<string>, reply: nat -> Result<nat>, start: nat)
    requires USER_MODEL in tables && forall k | 0 <= k < |app.models| :: app.models[k].name in tables
    requires forall j, k | 0 <= j < k < |app.models| :: app.models[j].name != app.models[k].name
    ensures SyncFrom(SyncOrder(app), 0, StepFor(tables, Some(app), reply), start) == ([], Pass)
  {
    var models := SyncOrder(app);
    assert StartsWith(USER_MODEL, INTERNAL_PREFIX);
    forall k, s | 0 <= k < |models| ensures StepFor(tables, Some(app), reply)(models[k], s) == ([], Pass) {
      if k > 0 { assert models[k] == app.models[k - 1]; }
      UnchangedModelStep(models[k], tables, app, reply, s);
    }
    SyncNothing(models, 0, StepFor(tables, Some(app), reply), start);
  }
}
