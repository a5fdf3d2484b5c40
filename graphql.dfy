/** The GraphQL subset executor of `src/graphql.rs`. A parsed document is
    a datatype; the executor accepts query operations and bare selection
    sets whose top-level fields name models, selects every visible row of
    each such model and projects the requested sub-field names out of the
    rows, rejecting every other construct. The result is the envelope
    `{"data": [...]}`. */
module GraphQL {
  import opened Common
  import opened Schema
  import opened Rows
  import opened Db
  import opened Model

  // ---------------------------------------------------------------- the document

  /** A field of a selection set. Of arguments and directives only the
      number matters to the executor. */
  datatype Field = Field(alias: Option<string>, name: string, arguments: nat, directives: nat,
                         selectionSet: seq<Selection>)

  datatype Selection = FieldSel(field: Field) | FragmentSpread(fragment: string) | InlineFragment

  /** A `query` operation; of its variable definitions and directives only
      the number matters. */
  datatype Query = Query(name: Option<string>, variableDefinitions: nat, directives: nat,
                         selectionSet: seq<Selection>)

  datatype Operation = QueryOp(query: Query) | SelectionSetOp(items: seq<Selection>) | MutationOp | SubscriptionOp

  datatype Definition = OperationDef(op: Operation) | FragmentDef(name: string)

  datatype Document = Document(definitions: seq<Definition>)

  /** What an executor works with: the app definition, the caller, and the
      engine's answers to the SELECT texts of the app's database. */
  datatype ExecuteContext = ExecuteContext(appDef: AppDef, uid: Option<int>, answers: Answers)

  // ---------------------------------------------------------------- sequencing

  /** Evaluating a list of steps in order, stopping at the first error. */
  function Sequenced<T>(rs: seq<Result<T>>): (r: Result<seq<T>>)
    ensures r.Ok? <==> forall k | 0 <= k < |rs| :: rs[k].Ok?
    ensures r.Ok? ==> |r.value| == |rs| && forall k | 0 <= k < |rs| :: rs[k] == Ok(r.value[k])
    ensures r.Err? ==> exists k | 0 <= k < |rs| :: rs[k] == Err(r.error) && forall j | 0 <= j < k :: rs[j].Ok?
  {
    if |rs| == 0 then Ok([])
    else
      var init := rs[..|rs| - 1];
      match Sequenced(init)
      case Err(e) => EarlierErr(rs, init, e); Err(e)
      case Ok(vs) =>
        match rs[|rs| - 1]
        case Err(e) => LastErr(rs, init, e); Err(e)
        case Ok(v) => LastOk(rs, init, vs, v); Ok(vs + [v])
  }

  /** An error among the earlier steps is an error of the whole list. */
  lemma EarlierErr<T>(rs: seq<Result<T>>, init: seq<Result<T>>, e: Error)
    requires |rs| > 0 && init == rs[..|rs| - 1]
    requires exists k | 0 <= k < |init| :: init[k] == Err(e) && forall j | 0 <= j < k :: init[j].Ok?
    ensures exists k | 0 <= k < |rs| :: rs[k] == Err(e) && forall j | 0 <= j < k :: rs[j].Ok?
    ensures !forall k | 0 <= k < |rs| :: rs[k].Ok?
  {
    var k :| 0 <= k < |init| && init[k] == Err(e) && forall j | 0 <= j < k :: init[j].Ok?;
    assert rs[k] == init[k];
  }

  /** After successful earlier steps, a failing last step is the error. */
  lemma LastErr<T>(rs: seq<Result<T>>, init: seq<Result<T>>, e: Error)
    requires |rs| > 0 && init == rs[..|rs| - 1] && rs[|rs| - 1] == Err(e)
    requires forall k | 0 <= k < |init| :: init[k].Ok?
    ensures exists k | 0 <= k < |rs| :: rs[k] == Err(e) && forall j | 0 <= j < k :: rs[j].Ok?
    ensures !forall k | 0 <= k < |rs| :: rs[k].Ok?
  {
    forall j | 0 <= j < |rs| - 1 ensures rs[j].Ok? {
      assert rs[j] == init[j];
    }
  }

  /** Successful steps throughout give every value in order. */
  lemma LastOk<T>(rs: seq<Result<T>>, init: seq<Result<T>>, vs: seq<T>, v: T)
    requires |rs| > 0 && init == rs[..|rs| - 1] && rs[|rs| - 1] == Ok(v)
    requires |vs| == |init| && forall k | 0 <= k < |init| :: init[k] == Ok(vs[k])
    ensures |vs + [v]| == |rs| && forall k | 0 <= k < |rs| :: rs[k] == Ok((vs + [v])[k])
  {
    forall k | 0 <= k < |rs| ensures rs[k] == Ok((vs + [v])[k]) {
      if k < |rs| - 1 {
        assert rs[k] == init[k];
      }
    }
  }

  /** One more step that succeeds extends the values. */
  lemma SequencedSnocOk<T>(rs: seq<Result<T>>, i: nat, vs: seq<T>, v: T)
    requires i < |rs| && Sequenced(rs[..i]) == Ok(vs) && rs[i] == Ok(v)
    ensures Sequenced(rs[..i + 1]) == Ok(vs + [v])
  {
    assert rs[..i + 1][..i] == rs[..i];
  }

  /** The first failing step is the outcome of the whole list. */
  lemma SequencedFirstErr<T>(rs: seq<Result<T>>, i: nat)
    requires i < |rs| && Sequenced(rs[..i]).Ok? && rs[i].Err?
    ensures Sequenced(rs) == Err(rs[i].error)
  {
    var r := Sequenced(rs);
    forall k | 0 <= k < i ensures rs[k].Ok? {
      assert rs[..i][k] == rs[k];
    }
    if r.Err? {
      var k :| 0 <= k < |rs| && rs[k] == Err(r.error) && forall j | 0 <= j < k :: rs[j].Ok?;
      assert k == i;
    }
  }

  // ---------------------------------------------------------------- query_field

  /** A sub-selection that is a plain field without sub-fields, present in
      the row. */
  predicate PlainFieldOf(row: Row, si: Selection)
  {
    si.FieldSel? && |si.field.selectionSet| == 0 && si.field.name in row.fields
  }

  /** The value one requested sub-field takes in the object of one row. */
  function SubFieldValue(row: Row, si: Selection): (r: Result<(string, Json)>)
    ensures r.Ok? <==> PlainFieldOf(row, si)
    ensures r.Ok? ==> r.value == (si.field.name, FieldToJson(row.fields[si.field.name]))
  {
    match si
    case FieldSel(f) =>
      if |f.selectionSet| > 0 then Err(Unsupported("nested selection"))
      else if f.name in row.fields then Ok((f.name, FieldToJson(row.fields[f.name])))
      else Err(FieldNotFound(f.name))
    case _ => Err(Unsupported("selection type"))
  }

  /** The object built for one row: one member per requested sub-field, in
      order, a later one of the same name replacing an earlier one. */
  function RowObject(row: Row, subs: seq<Selection>): Result<map<string, Json>>
  {
    if |subs| == 0 then Ok(map[])
    else
      match RowObject(row, subs[..|subs| - 1])
      case Err(e) => Err(e)
      case Ok(m) =>
        match SubFieldValue(row, subs[|subs| - 1])
        case Err(e) => Err(e)
        case Ok(kv) => Ok(m[kv.0 := kv.1])
  }

  /** A row's object has exactly the requested names as keys, each bound to
      that field of the row, and it exists exactly when every requested
      sub-selection is a plain field the row has. */
  lemma {:induction false} RowObjectMeaning(row: Row, subs: seq<Selection>)
    ensures RowObject(row, subs).Ok? <==>
            forall k | 0 <= k < |subs| :: PlainFieldOf(row, subs[k])
    ensures RowObject(row, subs).Ok? ==>
            && RowObject(row, subs).value.Keys == (set k | 0 <= k < |subs| :: subs[k].field.name)
            && forall n | n in RowObject(row, subs).value :: RowObject(row, subs).value[n] == FieldToJson(row.fields[n])
    decreases |subs|
  {
    if |subs| > 0 {
      var init := subs[..|subs| - 1];
      RowObjectMeaning(row, init);
      assert forall k | 0 <= k < |init| :: init[k] == subs[k];
      var last := subs[|subs| - 1];
      match RowObject(row, init)
      case Err(e) =>
        assert RowObject(row, subs) == Err(e);
        var k :| 0 <= k < |init| && !PlainFieldOf(row, init[k]);
        assert !PlainFieldOf(row, subs[k]);
      case Ok(m) =>
        match SubFieldValue(row, last)
        case Err(e) =>
          assert RowObject(row, subs) == Err(e);
          assert !PlainFieldOf(row, subs[|subs| - 1]);
        case Ok(kv) =>
          assert RowObject(row, subs) == Ok(m[kv.0 := kv.1]);
          assert kv == (last.field.name, FieldToJson(row.fields[last.field.name]));
          forall k | 0 <= k < |subs|
            ensures PlainFieldOf(row, subs[k])
          {
            if k < |init| {
              assert init[k] == subs[k];
            }
          }
          NamesSnoc(subs, init);
    }
  }

  /** The requested names of a selection list, one more at a time. */
  lemma NamesSnoc(subs: seq<Selection>, init: seq<Selection>)
    requires |subs| > 0 && init == subs[..|subs| - 1]
    requires forall k | 0 <= k < |subs| :: subs[k].FieldSel?
    ensures (set k | 0 <= k < |subs| :: subs[k].field.name) ==
            (set k | 0 <= k < |init| :: init[k].field.name) + {subs[|subs| - 1].field.name}
  {
    var all := set k | 0 <= k < |subs| :: subs[k].field.name;
    var before := set k | 0 <= k < |init| :: init[k].field.name;
    forall n | n in all
      ensures n in before + {subs[|subs| - 1].field.name}
    {
      var k :| 0 <= k < |subs| && subs[k].field.name == n;
      if k < |init| {
        assert init[k] == subs[k];
      }
    }
    forall n | n in before
      ensures n in all
    {
      var k :| 0 <= k < |init| && init[k].field.name == n;
      assert subs[k] == init[k];
    }
    assert subs[|subs| - 1].field.name in all;
  }

  /** The array of objects for the rows, in row order. */
  function RowObjects(rows: seq<Row>, subs: seq<Selection>): (r: Result<seq<Json>>)
    ensures r.Ok? ==> |r.value| == |rows|
    ensures r.Ok? ==> forall k | 0 <= k < |rows| :: RowObject(rows[k], subs).Ok? && r.value[k] == JObject(RowObject(rows[k], subs).value)
  {
    if |rows| == 0 then Ok([])
    else
      match RowObjects(rows[..|rows| - 1], subs)
      case Err(e) => Err(e)
      case Ok(vs) =>
        match RowObject(rows[|rows| - 1], subs)
        case Err(e) => Err(e)
        case Ok(m) => Ok(vs + [JObject(m)])
  }

  /** The rows `ModelDef::select` yields for model `m` and the caller, with
      no id. */
  function SelectedRows(ctx: ExecuteContext, m: ModelDef): Result<seq<Row>>
  {
    Fetched(ctx.answers, m, Some(Condition(m, ctx.uid, None)), None)
  }

  /** Against an engine that evaluates WHERE texts over `table`, a field
      lists the rows of its model the caller may see, in table order. */
  lemma SelectedRowsVisible(ctx: ExecuteContext, m: ModelDef, table: seq<StoredRow>)
    requires ctx.answers(SelectText(m, Some(Condition(m, ctx.uid, None)))) == Ok(Matching(table, Condition(m, ctx.uid, None)))
    ensures SelectedRows(ctx, m) == Collected(DecodeAll(Fields(m), VisibleRows(m, ctx.uid, None, table)), None)
  {
    SelectSeesVisible(m, ctx.uid, None, ctx.answers, table);
  }

  /** `query_field`: reject aliases, arguments and directives, look the
      field's name up as a model, select its rows and project them. */
  function FieldResult(ctx: ExecuteContext, f: Field): Result<Json>
  {
    if f.alias.Some? then Err(Unsupported("field alias"))
    else if f.arguments > 0 then Err(Unsupported("field arguments"))
    else if f.directives > 0 then Err(Unsupported("field directives"))
    else
      match GetModel(ctx.appDef.models, f.name)
      case None => Err(ModelNotFound(f.name))
      case Some(m) =>
        match SelectedRows(ctx, m)
        case Err(e) => Err(e)
        case Ok(rows) =>
          match RowObjects(rows, f.selectionSet)
          case Err(e) => Err(e)
          case Ok(objs) => Ok(JArray(objs))
  }

  /** `ExecuteContext::query_field`. */
  method QueryField(ctx: ExecuteContext, f: Field) returns (r: Result<Json>)
    ensures r == FieldResult(ctx, f)
  {
    if f.alias.Some? {
      return Err(Unsupported("field alias"));
    }
    if f.arguments > 0 {
      return Err(Unsupported("field arguments"));
    }
    if f.directives > 0 {
      return Err(Unsupported("field directives"));
    }
    var model := GetModel(ctx.appDef.models, f.name);
    if model.None? {
      return Err(ModelNotFound(f.name));
    }
    var m := model.value;
    var recs := Select(m, ctx.uid, None, ctx.answers);
    if recs.Err? {
      return Err(recs.error);
    }
    var objs := ProjectRows(recs.value, f.selectionSet);
    if objs.Err? {
      return Err(objs.error);
    }
    r := Ok(JArray(objs.value));
  }

  /** The loop of `query_field` over the selected rows. */
  method ProjectRows(rows: seq<Row>, subs: seq<Selection>) returns (r: Result<seq<Json>>)
    ensures r == RowObjects(rows, subs)
  {
    var ret: seq<Json> := [];
    var i := 0;
    while i < |rows|
      invariant 0 <= i <= |rows|
      invariant RowObjects(rows[..i], subs) == Ok(ret)
    {
      var obj := ProjectRow(rows[i], subs);
      if obj.Err? {
        RowObjectsFirstErr(rows, subs, i);
        return Err(obj.error);
      }
      RowObjectsSnoc(rows, subs, i, ret, obj.value);
      ret := ret + [JObject(obj.value)];
      i := i + 1;
    }
    assert rows[..i] == rows;
    r := Ok(ret);
  }

  /** One more row whose object succeeds extends the array. */
  lemma RowObjectsSnoc(rows: seq<Row>, subs: seq<Selection>, i: nat, ret: seq<Json>, m: map<string, Json>)
    requires i < |rows| && RowObjects(rows[..i], subs) == Ok(ret) && RowObject(rows[i], subs) == Ok(m)
    ensures RowObjects(rows[..i + 1], subs) == Ok(ret + [JObject(m)])
  {
    assert rows[..i + 1][..i] == rows[..i];
  }

  /** The first row whose object fails decides the error of the array. */
  lemma {:induction false} RowObjectsFirstErr(rows: seq<Row>, subs: seq<Selection>, i: nat)
    requires i < |rows| && RowObjects(rows[..i], subs).Ok? && RowObject(rows[i], subs).Err?
    ensures RowObjects(rows, subs) == Err(RowObject(rows[i], subs).error)
    decreases |rows|
  {
    assert rows[..i + 1][..i] == rows[..i];
    if i + 1 < |rows| {
      assert rows[..|rows| - 1][..i] == rows[..i];
      assert rows[..|rows| - 1][i] == rows[i];
      RowObjectsFirstErr(rows[..|rows| - 1], subs, i);
    }
  }

  /** The inner loop of `query_field` for one row. */
  method ProjectRow(row: Row, subs: seq<Selection>) returns (r: Result<map<string, Json>>)
    ensures r == RowObject(row, subs)
  {
    var obj: map<string, Json> := map[];
    var i := 0;
    while i < |subs|
      invariant 0 <= i <= |subs|
      invariant RowObject(row, subs[..i]) == Ok(obj)
    {
      assert subs[..i + 1][..i] == subs[..i];
      var kv := SubFieldValue(row, subs[i]);
      if kv.Err? {
        RowObjectFirstErr(row, subs, i);
        return Err(kv.error);
      }
      obj := obj[kv.value.0 := kv.value.1];
      i := i + 1;
    }
    assert subs[..i] == subs;
    r := Ok(obj);
  }

  /** The first failing sub-selection decides the error of a row's object. */
  lemma {:induction false} RowObjectFirstErr(row: Row, subs: seq<Selection>, i: nat)
    requires i < |subs| && RowObject(row, subs[..i]).Ok? && SubFieldValue(row, subs[i]).Err?
    ensures RowObject(row, subs) == Err(SubFieldValue(row, subs[i]).error)
    decreases |subs|
  {
    assert subs[..i + 1][..i] == subs[..i];
    if i + 1 < |subs| {
      assert subs[..|subs| - 1][..i] == subs[..i];
      assert subs[..|subs| - 1][i] == subs[i];
      RowObjectFirstErr(row, subs[..|subs| - 1], i);
    }
  }

  // ---------------------------------------------------------------- selections and queries

  /** `execute_selection`: only fields are executed. */
  function SelectionResult(ctx: ExecuteContext, si: Selection): Result<Json>
  {
    if si.FieldSel? then FieldResult(ctx, si.field) else Err(Unsupported("selection type is not field"))
  }

  function SelectionSteps(ctx: ExecuteContext, items: seq<Selection>): (rs: seq<Result<Json>>)
    ensures |rs| == |items| && forall k | 0 <= k < |items| :: rs[k] == SelectionResult(ctx, items[k])
  {
    seq(|items|, k requires 0 <= k < |items| => SelectionResult(ctx, items[k]))
  }

  /** The values of a list of selections, executed in order. */
  function SelectionsResult(ctx: ExecuteContext, items: seq<Selection>): Result<seq<Json>>
  {
    Sequenced(SelectionSteps(ctx, items))
  }

  /** `ExecuteContext::execute_selection`. */
  method ExecuteSelection(ctx: ExecuteContext, si: Selection) returns (r: Result<Json>)
    ensures r == SelectionResult(ctx, si)
  {
    match si
    case FieldSel(f) =>
      r := QueryField(ctx, f);
    case _ =>
      r := Err(Unsupported("selection type is not field"));
  }

  /** The loop that executes the items of a selection set in order. */
  method ExecuteSelections(ctx: ExecuteContext, items: seq<Selection>) returns (r: Result<seq<Json>>)
    ensures r == SelectionsResult(ctx, items)
  {
    ghost var steps := SelectionSteps(ctx, items);
    var ret: seq<Json> := [];
    var i := 0;
    while i < |items|
      invariant 0 <= i <= |items|
      invariant Sequenced(steps[..i]) == Ok(ret)
    {
      var v := ExecuteSelection(ctx, items[i]);
      if v.Err? {
        SequencedFirstErr(steps, i);
        return Err(v.error);
      }
      SequencedSnocOk(steps, i, ret, v.value);
      ret := ret + [v.value];
      i := i + 1;
    }
    assert steps[..i] == steps;
    r := Ok(ret);
  }

  /** `execute_query`: variable definitions and directives are refused; the
      value is the array of the selections' values. */
  function QueryResult(ctx: ExecuteContext, q: Query): Result<Json>
  {
    if q.variableDefinitions > 0 then Err(Unsupported("variable definitions"))
    else if q.directives > 0 then Err(Unsupported("directives"))
    else
      match SelectionsResult(ctx, q.selectionSet)
      case Err(e) => Err(e)
      case Ok(vs) => Ok(JArray(vs))
  }

  /** `ExecuteContext::execute_query`. */
  method ExecuteQuery(ctx: ExecuteContext, q: Query) returns (r: Result<Json>)
    ensures r == QueryResult(ctx, q)
  {
    if q.variableDefinitions > 0 {
      return Err(Unsupported("variable definitions"));
    }
    if q.directives > 0 {
      return Err(Unsupported("directives"));
    }
    var vs := ExecuteSelections(ctx, q.selectionSet);
    if vs.Err? {
      return Err(vs.error);
    }
    r := Ok(JArray(vs.value));
  }

  // ---------------------------------------------------------------- documents

  /** What one definition adds to `data`: a query adds its one value, a bare
      selection set one value per item; anything else is refused. */
  function DefinitionResult(ctx: ExecuteContext, d: Definition): Result<seq<Json>>
  {
    match d
    case FragmentDef(_) => Err(Unsupported("fragment"))
    case OperationDef(op) =>
      match op
      case QueryOp(q) => (match QueryResult(ctx, q) case Err(e) => Err(e) case Ok(v) => Ok([v]))
      case SelectionSetOp(items) => SelectionsResult(ctx, items)
      case _ => Err(Unsupported("operation type is not query"))
  }

  /** The `data` array of a list of definitions. */
  function DocData(ctx: ExecuteContext, defs: seq<Definition>): Result<seq<Json>>
  {
    if |defs| == 0 then Ok([])
    else
      match DocData(ctx, defs[..|defs| - 1])
      case Err(e) => Err(e)
      case Ok(data) =>
        match DefinitionResult(ctx, defs[|defs| - 1])
        case Err(e) => Err(e)
        case Ok(vs) => Ok(data + vs)
  }

  /** The envelope of a document. */
  function DocResult(ctx: ExecuteContext, doc: Document): Result<Json>
  {
    match DocData(ctx, doc.definitions)
    case Err(e) => Err(e)
    case Ok(data) => Ok(JObject(map["data" := JArray(data)]))
  }

  /** The first definition that fails decides the error of the document. */
  lemma {:induction false} DocDataFirstErr(ctx: ExecuteContext, defs: seq<Definition>, i: nat)
    requires i < |defs| && DocData(ctx, defs[..i]).Ok? && DefinitionResult(ctx, defs[i]).Err?
    ensures DocData(ctx, defs) == Err(DefinitionResult(ctx, defs[i]).error)
    decreases |defs|
  {
    assert defs[..i + 1][..i] == defs[..i];
    if i + 1 < |defs| {
      assert defs[..|defs| - 1][..i] == defs[..i];
      assert defs[..|defs| - 1][i] == defs[i];
      DocDataFirstErr(ctx, defs[..|defs| - 1], i);
    }
  }

  /** One more definition that succeeds extends `data`. */
  lemma DocDataSnoc(ctx: ExecuteContext, defs: seq<Definition>, i: nat, data: seq<Json>, vs: seq<Json>)
    requires i < |defs| && DocData(ctx, defs[..i]) == Ok(data) && DefinitionResult(ctx, defs[i]) == Ok(vs)
    ensures DocData(ctx, defs[..i + 1]) == Ok(data + vs)
  {
    assert defs[..i + 1][..i] == defs[..i];
  }

  /** The body of the loop of `execute_doc` for one definition. */
  method ExecuteDefinition(ctx: ExecuteContext, d: Definition) returns (vs: Result<seq<Json>>)
    ensures vs == DefinitionResult(ctx, d)
  {
    match d {
      case FragmentDef(_) =>
        vs := Err(Unsupported("fragment"));
      case OperationDef(op) =>
        match op {
          case QueryOp(q) =>
            var v := ExecuteQuery(ctx, q);
            vs := if v.Err? then Err(v.error) else Ok([v.value]);
          case SelectionSetOp(items) =>
            vs := ExecuteSelections(ctx, items);
          case _ =>
            vs := Err(Unsupported("operation type is not query"));
        }
    }
  }

  /** `ExecuteContext::execute_doc`. */
  method ExecuteDoc(ctx: ExecuteContext, doc: Document) returns (r: Result<Json>)
    ensures r == DocResult(ctx, doc)
  {
    var defs := doc.definitions;
    var data: seq<Json> := [];
    var i := 0;
    while i < |defs|
      invariant 0 <= i <= |defs|
      invariant DocData(ctx, defs[..i]) == Ok(data)
    {
      var vs := ExecuteDefinition(ctx, defs[i]);
      if vs.Err? {
        DocDataFirstErr(ctx, defs, i);
        return Err(vs.error);
      }
      DocDataSnoc(ctx, defs, i, data, vs.value);
      data := data + vs.value;
      i := i + 1;
    }
    assert defs[..i] == defs;
    r := Ok(JObject(map["data" := JArray(data)]));
  }

  // ---------------------------------------------------------------- properties

  /** A definition the executor refuses. */
  predicate Refused(d: Definition)
  {
    d.FragmentDef? || d.op.MutationOp? || d.op.SubscriptionOp?
  }

  /** Any fragment, mutation or subscription makes the whole document fail. */
  lemma {:induction false} UnsupportedDefinitionFails(ctx: ExecuteContext, defs: seq<Definition>, k: nat)
    requires k < |defs| && Refused(defs[k])
    ensures DocData(ctx, defs).Err?
    decreases |defs|
  {
    if k < |defs| - 1 {
      UnsupportedDefinitionFails(ctx, defs[..|defs| - 1], k);
    }
  }

  /** A query with variable definitions or directives fails. */
  lemma QueryWithExtrasFails(ctx: ExecuteContext, q: Query)
    requires q.variableDefinitions > 0 || q.directives > 0
    ensures DocResult(ctx, Document([OperationDef(QueryOp(q))])).Err?
  {
    assert [OperationDef(QueryOp(q))][..0] == [];
  }

  /** A field with an alias, arguments or directives fails whatever it names. */
  lemma DecoratedFieldFails(ctx: ExecuteContext, f: Field)
    requires f.alias.Some? || f.arguments > 0 || f.directives > 0
    ensures FieldResult(ctx, f).Err? && !FieldResult(ctx, f).error.ModelNotFound?
  {
  }

  /** A plain field naming no model fails with "model not found". */
  lemma UnknownModelFails(ctx: ExecuteContext, f: Field)
    requires f.alias.None? && f.arguments == 0 && f.directives == 0
    requires forall k | 0 <= k < |ctx.appDef.models| :: ctx.appDef.models[k].name != f.name
    ensures FieldResult(ctx, f) == Err(ModelNotFound(f.name))
  {
  }

  /** A plain field naming a model yields one object per selected row, in
      order, each with exactly the requested names bound to the row's values. */
  lemma FieldProjects(ctx: ExecuteContext, f: Field, m: ModelDef, rows: seq<Row>, k: nat)
    requires f.alias.None? && f.arguments == 0 && f.directives == 0
    requires GetModel(ctx.appDef.models, f.name) == Some(m) && SelectedRows(ctx, m) == Ok(rows)
    requires FieldResult(ctx, f).Ok? && k < |rows|
    ensures FieldResult(ctx, f).value.JArray? && |FieldResult(ctx, f).value.items| == |rows|
    ensures forall j | 0 <= j < |f.selectionSet| ::
              f.selectionSet[j].FieldSel? && |f.selectionSet[j].field.selectionSet| == 0
    ensures var obj := FieldResult(ctx, f).value.items[k];
            && obj.JObject?
            && obj.members.Keys == (set j | 0 <= j < |f.selectionSet| :: f.selectionSet[j].field.name)
            && forall n | n in obj.members :: n in rows[k].fields && obj.members[n] == FieldToJson(rows[k].fields[n])
  {
    RowObjectMeaning(rows[k], f.selectionSet);
  }

  /** Without rows the answer is the empty array, whatever sub-selections
      were asked for: they are only inspected row by row. */
  lemma NoRowsNoChecks(ctx: ExecuteContext, f: Field, m: ModelDef)
    requires f.alias.None? && f.arguments == 0 && f.directives == 0
    requires GetModel(ctx.appDef.models, f.name) == Some(m) && SelectedRows(ctx, m) == Ok([])
    ensures FieldResult(ctx, f) == Ok(JArray([]))
  {
  }

  /** A non-field top-level selection fails. */
  lemma NonFieldSelectionFails(ctx: ExecuteContext, items: seq<Selection>, k: nat)
    requires k < |items| && !items[k].FieldSel?
    ensures SelectionsResult(ctx, items).Err?
  {
    assert SelectionSteps(ctx, items)[k].Err?;
  }

  /** The envelope holds only `data`; a bare selection set contributes one
      element per item. */
  lemma BareSetEnvelope(ctx: ExecuteContext, items: seq<Selection>)
    requires SelectionsResult(ctx, items).Ok?
    ensures var bare := DocResult(ctx, Document([OperationDef(SelectionSetOp(items))]));
            && bare.Ok? && bare.value.JObject? && bare.value.members.Keys == {"data"}
            && bare.value.members["data"] == JArray(SelectionsResult(ctx, items).value)
  {
    var defs := [OperationDef(SelectionSetOp(items))];
    assert defs[..|defs| - 1] == [];
    var vs := SelectionsResult(ctx, items).value;
    assert DefinitionResult(ctx, defs[0]) == Ok(vs);
    assert [] + vs == vs;
    assert DocData(ctx, defs[..|defs| - 1]) == Ok([]);
    assert DocData(ctx, defs) == Ok(vs);
    assert map["data" := JArray(vs)].Keys == {"data"};
  }

  /** A query contributes one element to `data`: the array of its items'
      values. */
  lemma QueryEnvelope(ctx: ExecuteContext, items: seq<Selection>)
    requires SelectionsResult(ctx, items).Ok?
    ensures var q := DocResult(ctx, Document([OperationDef(QueryOp(Query(None, 0, 0, items)))]));
            && q.Ok? && q.value.JObject? && q.value.members.Keys == {"data"}
            && q.value.members["data"] == JArray([JArray(SelectionsResult(ctx, items).value)])
  {
    var defs := [OperationDef(QueryOp(Query(None, 0, 0, items)))];
    assert defs[..|defs| - 1] == [];
    var vs := [JArray(SelectionsResult(ctx, items).value)];
    assert DefinitionResult(ctx, defs[0]) == Ok(vs);
    assert [] + vs == vs;
    assert DocData(ctx, defs[..|defs| - 1]) == Ok([]);
    assert DocData(ctx, defs) == Ok(vs);
    assert map["data" := JArray(vs)].Keys == {"data"};
  }
}
