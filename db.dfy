/** The storage boundary of `src/db.rs`: the values handed to the SQL engine,
    the decoding of fetched columns back into rows, the row-limit loop of
    `DB::do_query`, and the statements sent to the engine. The engine itself
    is not modelled: its answer to a SELECT text (the raw rows, or the error
    of preparing or running the statement) is a parameter, and its answer to
    the n-th statement is a fixed function of `n`. */
module Db {
  import opened Common
  import opened Rows
  import opened Schema

  /** `rusqlite::types::Value`. */
  datatype DbValue =
    | NullValue
    | IntegerValue(i: int)
    | RealValue(f: F64)
    | TextValue(s: string)
    | BlobValue(bytes: seq<bv8>)

  /** `RowField::to_db_value`: booleans and dates are stored as integers. */
  function ToDbValue(f: RowField): (v: DbValue)
    ensures v.NullValue? <==> f.Null?
    ensures v.TextValue? <==> f.String?
    ensures v.RealValue? <==> f.Float?
    ensures v.IntegerValue? <==> f.Integer? || f.Boolean? || f.DateTime?
    ensures f.Boolean? ==> v == IntegerValue(if f.b then 1 else 0)
    ensures f.Integer? ==> v == IntegerValue(f.i)
    ensures f.DateTime? ==> v == IntegerValue(f.t)
  {
    match f
    case String(s) => TextValue(s)
    case Integer(i) => IntegerValue(i)
    case Float(x) => RealValue(x)
    case Boolean(b) => IntegerValue(if b then 1 else 0)
    case DateTime(t) => IntegerValue(t)
    case Null => NullValue
  }

  // ---------------------------------------------------------------- decoding fetched rows

  /** Column `i` of a fetched row; `None` past its end. */
  function Column(raw: seq<DbValue>, i: nat): (c: Option<DbValue>)
    ensures c.Some? <==> i < |raw|
  {
    if i < |raw| then Some(raw[i]) else None
  }

  /** The decoding of one column for a declared field, as the closure of
      `DB::do_query` does it: a NULL is `Null` whatever the field's type;
      otherwise the column must have the SQL type the field's Rust type reads
      (a float field also reads an integer column); users and references are
      integers. Every failure is a storage error. */
  function DecodeColumn(f: FieldDef, c: Option<DbValue>): (r: Result<RowField>)
    ensures c == Some(NullValue) ==> r == Ok(Null)
    ensures c.None? ==> r == Err(StorageError)
    ensures r.Err? ==> r.error == StorageError
    ensures r.Ok? && r.value.Null? ==> c == Some(NullValue)
  {
    match c
    case None => Err(StorageError)
    case Some(v) => DecodeValue(f, v)
  }

  function DecodeValue(f: FieldDef, v: DbValue): (r: Result<RowField>)
  {
    match v
    case NullValue => Ok(Null)
    case TextValue(s) => if f.StringField? then Ok(String(s)) else Err(StorageError)
    case RealValue(x) => if f.FloatField? then Ok(Float(x)) else Err(StorageError)
    case BlobValue(_) => Err(StorageError)
    case IntegerValue(i) =>
      match f
      case StringField(_) => Err(StorageError)
      case IntegerField(_) => Ok(Integer(i))
      case BooleanField(_) => Ok(Boolean(i != 0))
      case FloatField(_) => Ok(Float(FromInteger(i)))
      case DateTimeField(_) => Ok(DateTime(i))
      case UserField(_) => Ok(Integer(i))
      case ReferenceField(_) => Ok(Integer(i))
  }

  /** The kind of value a field's column is meant to hold. */
  predicate Fits(f: FieldDef, v: RowField)
  {
    match f
    case StringField(_) => v.String? || v.Null?
    case IntegerField(_) => v.Integer? || v.Null?
    case BooleanField(_) => v.Boolean? || v.Null?
    case FloatField(_) => v.Float? || v.Null?
    case DateTimeField(_) => v.DateTime? || v.Null?
    case UserField(_) => v.Integer? || v.Null?
    case ReferenceField(_) => v.Integer? || v.Null?
  }

  /** A value of the kind its field declares comes back unchanged from
      storage: booleans survive their trip through the integers 1 and 0. */
  lemma StoreLoadRoundTrip(f: FieldDef, v: RowField)
    requires Fits(f, v)
    ensures DecodeColumn(f, Some(ToDbValue(v))) == Ok(v)
  {
  }

  /** The fields decoded from the first `n` declared fields; a later field of
      the same name overwrites an earlier one. */
  function DecodeFields(fields: seq<FieldDef>, raw: seq<DbValue>, n: nat): (r: Result<map<string, RowField>>)
    requires n <= |fields|
    ensures r.Ok? ==> r.value.Keys == (set k | 0 <= k < n :: FieldName(fields[k]))
    ensures r.Err? ==> r.error == StorageError
    decreases n
  {
    if n == 0 then Ok(map[])
    else
      match DecodeFields(fields, raw, n - 1)
      case Err(e) => Err(e)
      case Ok(m) =>
        match DecodeColumn(fields[n - 1], Column(raw, n))
        case Err(e) => Err(e)
        case Ok(v) =>
          assert (set k | 0 <= k < n :: FieldName(fields[k])) ==
                 (set k | 0 <= k < n - 1 :: FieldName(fields[k])) + {FieldName(fields[n - 1])};
          Ok(m[FieldName(fields[n - 1]) := v])
  }

  /** A fetched row decoded: column 0 is the `id`, column `k + 1` the `k`-th
      declared field; `id` is inserted last. */
  function DecodeStorageRow(fields: seq<FieldDef>, raw: seq<DbValue>): (r: Result<Row>)
    ensures r.Err? ==> r.error == StorageError
  {
    match DecodeFields(fields, raw, |fields|)
    case Err(e) => Err(e)
    case Ok(m) =>
      match Column(raw, 0)
      case Some(IntegerValue(id)) => Ok(Row(m["id" := Integer(id)]))
      case _ => Err(StorageError)
  }

  /** Every decoded row has exactly the declared field names plus `id`, and
      its `id` is the integer of column 0. */
  lemma DecodedRowShape(fields: seq<FieldDef>, raw: seq<DbValue>)
    requires DecodeStorageRow(fields, raw).Ok?
    ensures DecodeStorageRow(fields, raw).value.fields.Keys == (set k | 0 <= k < |fields| :: FieldName(fields[k])) + {"id"}
    ensures |raw| > 0 && raw[0].IntegerValue?
    ensures DecodeStorageRow(fields, raw).value.fields["id"] == Integer(raw[0].i)
  {
  }

  /** The last declared field of a name takes its value from its own column;
      in particular a NULL column gives `Null`. */
  lemma {:induction false} DecodedFieldValue(fields: seq<FieldDef>, raw: seq<DbValue>, n: nat, k: nat)
    requires n <= |fields| && k < n
    requires DecodeFields(fields, raw, n).Ok?
    requires forall j | k < j < n :: FieldName(fields[j]) != FieldName(fields[k])
    ensures DecodeColumn(fields[k], Column(raw, k + 1)).Ok?
    ensures DecodeFields(fields, raw, n).value[FieldName(fields[k])] == DecodeColumn(fields[k], Column(raw, k + 1)).value
    decreases n
  {
    var prev := DecodeFields(fields, raw, n - 1);
    var col := DecodeColumn(fields[n - 1], Column(raw, n));
    assert prev.Ok? && col.Ok?;
    assert DecodeFields(fields, raw, n).value == prev.value[FieldName(fields[n - 1]) := col.value];
    var name := FieldName(fields[k]);
    if k < n - 1 {
      DecodedFieldValue(fields, raw, n - 1, k);
      assert FieldName(fields[n - 1]) != name;
      assert prev.value[FieldName(fields[n - 1]) := col.value][name] == prev.value[name];
    }
  }

  /** A NULL column decodes to `Null`, whatever the field's declared type. */
  lemma NullColumnIsNull(fields: seq<FieldDef>, raw: seq<DbValue>, k: nat)
    requires k < |fields| && k + 1 < |raw| && raw[k + 1] == NullValue
    requires FieldName(fields[k]) != "id"
    requires forall j | k < j < |fields| :: FieldName(fields[j]) != FieldName(fields[k])
    requires DecodeStorageRow(fields, raw).Ok?
    ensures DecodeStorageRow(fields, raw).value.fields[FieldName(fields[k])] == Null
  {
    DecodedFieldValue(fields, raw, |fields|, k);
  }

  /** Once a column fails to decode, the whole row fails. */
  lemma {:induction false} DecodeFieldsErrSticks(fields: seq<FieldDef>, raw: seq<DbValue>, n: nat, n': nat)
    requires n <= n' <= |fields|
    requires DecodeFields(fields, raw, n).Err?
    ensures DecodeFields(fields, raw, n').Err?
    decreases n'
  {
    if n < n' {
      DecodeFieldsErrSticks(fields, raw, n, n' - 1);
    }
  }

  /** The decoding closure of `DB::do_query`, one column after the other. */
  method DecodeRow(fields: seq<FieldDef>, raw: seq<DbValue>) returns (r: Result<Row>)
    ensures r == DecodeStorageRow(fields, raw)
  {
    var m: map<string, RowField> := map[];
    var fi := 0;
    while fi < |fields|
      invariant 0 <= fi <= |fields|
      invariant DecodeFields(fields, raw, fi) == Ok(m)
    {
      var i := fi + 1;
      var c := Column(raw, i);
      if c == Some(NullValue) {
        m := m[FieldName(fields[fi]) := Null];
        fi := fi + 1;
        continue;
      }
      var rf := DecodeColumn(fields[fi], c);
      if rf.Err? {
        assert DecodeFields(fields, raw, fi + 1).Err?;
        assert DecodeFields(fields, raw, |fields|).Err? by {
          DecodeFieldsErrSticks(fields, raw, fi + 1, |fields|);
        }
        return Err(StorageError);
      }
      m := m[FieldName(fields[fi]) := rf.value];
      fi := fi + 1;
    }
    var id := Column(raw, 0);
    if !(id.Some? && id.value.IntegerValue?) {
      return Err(StorageError);
    }
    r := Ok(Row(m["id" := Integer(id.value.i)]));
  }

  // ---------------------------------------------------------------- the SELECT text

  /** The declared field names joined by commas. */
  function ColumnList(m: ModelDef): string
  {
    Join(FieldNames(Fields(m)), ",")
  }

  /** The statement `DB::do_query` prepares; the condition defaults to `1`. */
  function SelectText(m: ModelDef, cond: Option<string>): (sql: string)
    ensures StartsWith(sql, "SELECT id, ")
    ensures EndsWith(sql, " WHERE " + (if cond.Some? then cond.value else "1"))
  {
    var where_ := if cond.Some? then cond.value else "1";
    var sql := "SELECT id, " + ColumnList(m) + " FROM " + m.name + " WHERE " + where_;
    assert sql[..11] == "SELECT id, ";
    assert sql[|sql| - |" WHERE " + where_|..] == " WHERE " + where_;
    sql
  }

  /** The column list names each declared field once, in declaration order,
      when no name contains a comma. */
  lemma SelectListsFields(m: ModelDef)
    requires |Fields(m)| > 0
    requires forall k | 0 <= k < |Fields(m)| :: ',' !in FieldName(Fields(m)[k])
    ensures Split(ColumnList(m), ',') == FieldNames(Fields(m))
  {
    SplitJoin(FieldNames(Fields(m)), ',');
  }

  // ---------------------------------------------------------------- the row-limit loop

  /** Each fetched row decoded. */
  function DecodeAll(fields: seq<FieldDef>, fetched: seq<seq<DbValue>>): (rs: seq<Result<Row>>)
    ensures |rs| == |fetched|
    ensures forall k | 0 <= k < |fetched| :: rs[k] == DecodeStorageRow(fields, fetched[k])
  {
    if |fetched| == 0 then [] else [DecodeStorageRow(fields, fetched[0])] + DecodeAll(fields, fetched[1..])
  }

  /** How many rows a collection loop gathers from `n` available ones when it
      stops after `cap` of them (all of them without a cap). */
  function Taken(n: nat, cap: Option<nat>): (t: nat)
    ensures t <= n
    ensures cap.None? ==> t == n
    ensures cap.Some? ==> t == if n < cap.value then n else cap.value
  {
    if cap.Some? && cap.value < n then cap.value else n
  }

  /** The successful values of a sequence of decoded rows. */
  function Values(rs: seq<Result<Row>>): (vs: seq<Row>)
    requires forall k | 0 <= k < |rs| :: rs[k].Ok?
    ensures |vs| == |rs|
    ensures forall k | 0 <= k < |rs| :: vs[k] == rs[k].value
  {
    if |rs| == 0 then [] else [rs[0].value] + Values(rs[1..])
  }

  /** The outcome of gathering the first `Taken(|rs|, cap)` decoded rows: a
      storage error if any of those failed; rows beyond are never looked at. */
  function Collected(rs: seq<Result<Row>>, cap: Option<nat>): (r: Result<seq<Row>>)
    ensures r.Ok? <==> forall k | 0 <= k < Taken(|rs|, cap) :: rs[k].Ok?
    ensures r.Ok? ==> |r.value| == Taken(|rs|, cap)
    ensures r.Ok? ==> forall k | 0 <= k < |r.value| :: rs[k] == Ok(r.value[k])
    ensures r.Err? ==> r.error == StorageError
  {
    var t := Taken(|rs|, cap);
    if forall k | 0 <= k < t :: rs[k].Ok? then Ok(Values(rs[..t])) else Err(StorageError)
  }

  /** Rows gathered one by one, all decoded, are what `Collected` says. */
  lemma CollectedIs(rs: seq<Result<Row>>, cap: Option<nat>, ret: seq<Row>)
    requires |ret| == Taken(|rs|, cap)
    requires forall k | 0 <= k < |ret| :: rs[k] == Ok(ret[k])
    ensures Collected(rs, cap) == Ok(ret)
  {
    var t := Taken(|rs|, cap);
    assert forall k | 0 <= k < t :: rs[k].Ok?;
    assert Values(rs[..t]) == ret;
  }

  /** A failed row among the first `Taken(|rs|, cap)` makes the whole
      collection a storage error. */
  lemma CollectedFails(rs: seq<Result<Row>>, cap: Option<nat>, i: nat)
    requires i < Taken(|rs|, cap) && rs[i].Err?
    ensures Collected(rs, cap) == Err(StorageError)
  {
  }

  /** Pushing the next decoded row keeps the gathered rows in step with the
      decoded ones. */
  lemma PushedRow(rs: seq<Result<Row>>, ret: seq<Row>, i: nat, v: Row)
    requires i < |rs| && |ret| == i && rs[i] == Ok(v)
    requires forall k | 0 <= k < i :: rs[k] == Ok(ret[k])
    ensures forall k | 0 <= k < i + 1 :: rs[k] == Ok((ret + [v])[k])
  {
  }

  /** The row cap `DB::do_query` applies for a `max` of `x`: the count is
      checked after the row is pushed, so `x + 1` rows are gathered. */
  function AsWrittenCap(max: Option<nat>): Option<nat>
  {
    if max.Some? then Some(max.value + 1) else None
  }

  /** What the engine answers to each SELECT text: the raw rows, or the error
      of preparing or running the statement (an unknown table, or a model
      without fields, whose column list is empty). */
  type Answers = string -> Result<seq<seq<DbValue>>>

  /** The rows a query for `SelectText(m, cond)` yields with a row cap: the
      engine's error, or the gathered decoded rows. */
  function Fetched(answers: Answers, m: ModelDef, cond: Option<string>, cap: Option<nat>): Result<seq<Row>>
  {
    match answers(SelectText(m, cond))
    case Err(e) => Err(e)
    case Ok(raw) => Collected(DecodeAll(Fields(m), raw), cap)
  }

  /** `DB::do_query` as written: prepare and run `SelectText(m, cond)`, then
      gather the rows with the count checked after each push. */
  method DoQuery(m: ModelDef, cond: Option<string>, max: Option<nat>, answers: Answers) returns (r: Result<seq<Row>>)
    ensures answers(SelectText(m, cond)).Err? ==> r == Err(answers(SelectText(m, cond)).error)
    ensures answers(SelectText(m, cond)).Ok? ==>
              r == Collected(DecodeAll(Fields(m), answers(SelectText(m, cond)).value), AsWrittenCap(max))
  {
    var raw := answers(SelectText(m, cond));
    if raw.Err? {
      return Err(raw.error);
    }
    r := GatherRows(m, raw.value, max);
  }

  /** The row loop of `DB::do_query` as written, on the rows the engine
      returns: decode each, push it, then stop once the count reaches `max`. */
  method GatherRows(m: ModelDef, fetched: seq<seq<DbValue>>, max: Option<nat>) returns (r: Result<seq<Row>>)
    ensures r == Collected(DecodeAll(Fields(m), fetched), AsWrittenCap(max))
  {
    ghost var rs := DecodeAll(Fields(m), fetched);
    ghost var cap := AsWrittenCap(max);
    var ret: seq<Row> := [];
    var cnt := 0;
    var i := 0;
    while i < |fetched|
      invariant 0 <= i <= |fetched|
      invariant cnt == i
      invariant max.Some? ==> i <= max.value
      invariant |ret| == i
      invariant forall k | 0 <= k < i :: rs[k] == Ok(ret[k])
    {
      var row := DecodeRow(Fields(m), fetched[i]);
      if row.Err? {
        CollectedFails(rs, cap, i);
        return Err(StorageError);
      }
      PushedRow(rs, ret, i, row.value);
      ret := ret + [row.value];
      if max.Some? && cnt >= max.value {
        assert Taken(|rs|, cap) == i + 1;
        CollectedIs(rs, cap, ret);
        return Ok(ret);
      }
      cnt := cnt + 1;
      i := i + 1;
    }
    CollectedIs(rs, cap, ret);
    r := Ok(ret);
  }

  /** The limit loop with the count checked before the push: at most `max`
      rows are gathered. */
  method DoQueryLimited(m: ModelDef, fetched: seq<seq<DbValue>>, max: Option<nat>) returns (r: Result<seq<Row>>)
    ensures r == Collected(DecodeAll(Fields(m), fetched), max)
  {
    ghost var rs := DecodeAll(Fields(m), fetched);
    var ret: seq<Row> := [];
    var cnt := 0;
    var i := 0;
    while i < |fetched|
      invariant 0 <= i <= |fetched|
      invariant cnt == i
      invariant max.Some? ==> i <= max.value
      invariant |ret| == i
      invariant forall k | 0 <= k < i :: rs[k] == Ok(ret[k])
    {
      if max.Some? && cnt >= max.value {
        assert Taken(|rs|, max) == i;
        CollectedIs(rs, max, ret);
        return Ok(ret);
      }
      var row := DecodeRow(Fields(m), fetched[i]);
      if row.Err? {
        CollectedFails(rs, max, i);
        return Err(StorageError);
      }
      PushedRow(rs, ret, i, row.value);
      ret := ret + [row.value];
      cnt := cnt + 1;
      i := i + 1;
    }
    CollectedIs(rs, max, ret);
    r := Ok(ret);
  }

  /** With a limit of `x`, the loop as written gathers `x + 1` rows whenever
      that many are available. */
  lemma DoQueryOverfetches(fields: seq<FieldDef>, fetched: seq<seq<DbValue>>, x: nat)
    requires x + 1 <= |fetched|
    requires forall k | 0 <= k < |fetched| :: DecodeStorageRow(fields, fetched[k]).Ok?
    ensures |Collected(DecodeAll(fields, fetched), AsWrittenCap(Some(x))).value| == x + 1
  {
  }

  /** `DB::query`: no limit, every fetched row. */
  method Query(m: ModelDef, cond: string, answers: Answers) returns (r: Result<seq<Row>>)
    ensures r == Fetched(answers, m, Some(cond), None)
    ensures var raw := answers(SelectText(m, Some(cond)));
            && (raw.Err? ==> r == Err(raw.error))
            && (raw.Ok? ==> (r.Ok? <==> forall k | 0 <= k < |raw.value| :: DecodeStorageRow(Fields(m), raw.value[k]).Ok?))
            && (raw.Ok? && r.Ok? ==> |r.value| == |raw.value|)
            && (raw.Ok? && r.Ok? ==>
                  forall k | 0 <= k < |raw.value| :: DecodeStorageRow(Fields(m), raw.value[k]) == Ok(r.value[k]))
  {
    r := DoQuery(m, Some(cond), None, answers);
  }

  /** `DB::get` as written: the last row of a query limited to one row, which
      is the second match whenever there are two. */
  method GetAsWritten(m: ModelDef, cond: string, answers: Answers) returns (r: Result<Option<Row>>)
    ensures var raw := answers(SelectText(m, Some(cond)));
            && (raw.Err? ==> r == Err(raw.error))
            && (raw.Ok? ==> (r.Ok? <==> forall k | 0 <= k < Taken(|raw.value|, Some(2)) :: DecodeStorageRow(Fields(m), raw.value[k]).Ok?))
            && (raw.Ok? && r.Err? ==> r.error == StorageError)
            && (raw.Ok? && r.Ok? && |raw.value| >= 2 ==>
                  DecodeStorageRow(Fields(m), raw.value[1]).Ok? && r.value == Some(DecodeStorageRow(Fields(m), raw.value[1]).value))
            && (raw.Ok? && r.Ok? && |raw.value| == 1 ==>
                  DecodeStorageRow(Fields(m), raw.value[0]).Ok? && r.value == Some(DecodeStorageRow(Fields(m), raw.value[0]).value))
            && (raw.Ok? && r.Ok? && |raw.value| == 0 ==> r.value.None?)
  {
    var rows := DoQuery(m, Some(cond), Some(1), answers);
    if rows.Err? {
      return Err(rows.error);
    }
    if |rows.value| == 0 {
      return Ok(None);
    }
    r := Ok(Some(rows.value[|rows.value| - 1]));
  }

  /** A user table holding two users of the same name: the lookup meant to
      find one row finds the second. */
  lemma GetReturnsSecondMatch()
    ensures var fields := [StringField(SimpleDesc("name", None, None))];
            var fetched := [[IntegerValue(1), TextValue("a")], [IntegerValue(2), TextValue("a")]];
            var rs := Collected(DecodeAll(fields, fetched), AsWrittenCap(Some(1)));
            rs.Ok? && |rs.value| == 2 && rs.value[|rs.value| - 1].fields["id"] == Integer(2)
  {
    var fields := [StringField(SimpleDesc("name", None, None))];
    var fetched := [[IntegerValue(1), TextValue("a")], [IntegerValue(2), TextValue("a")]];
    DecodedRowShape(fields, fetched[0]);
    DecodedRowShape(fields, fetched[1]);
  }

  /** With at most one matching row the loop as written and the corrected
      one gather the same rows: the two lookups differ only on duplicates. */
  lemma CapsAgreeOnOneRow(fields: seq<FieldDef>, fetched: seq<seq<DbValue>>)
    requires |fetched| <= 1
    ensures Collected(DecodeAll(fields, fetched), AsWrittenCap(Some(1))) == Collected(DecodeAll(fields, fetched), Some(1))
  {
    assert Taken(|fetched|, AsWrittenCap(Some(1))) == Taken(|fetched|, Some(1));
  }

  /** `DB::get` with the limit honoured: the first matching row, or none. */
  method Get(m: ModelDef, cond: string, answers: Answers) returns (r: Result<Option<Row>>)
    ensures var raw := answers(SelectText(m, Some(cond)));
            && (raw.Err? ==> r == Err(raw.error))
            && (raw.Ok? && |raw.value| == 0 ==> r == Ok(None))
            && (raw.Ok? && |raw.value| > 0 ==> (r.Ok? <==> DecodeStorageRow(Fields(m), raw.value[0]).Ok?))
            && (raw.Ok? && |raw.value| > 0 && r.Ok? ==> r.value == Some(DecodeStorageRow(Fields(m), raw.value[0]).value))
  {
    var raw := answers(SelectText(m, Some(cond)));
    if raw.Err? {
      return Err(raw.error);
    }
    var rows := DoQueryLimited(m, raw.value, Some(1));
    if rows.Err? {
      return Err(rows.error);
    }
    if |rows.value| == 0 {
      return Ok(None);
    }
    r := Ok(Some(rows.value[|rows.value| - 1]));
  }

  // ---------------------------------------------------------------- statements

  /** One statement sent to the engine with its bound parameters. */
  datatype Statement = Statement(sql: string, params: seq<DbValue>)

  /** A database connection as the engine's callers see it: the statements
      sent so far. The engine's answer to the n-th statement (a count of
      affected rows, or an error) is `reply(n)`, fixed when the connection
      is opened. */
  class Connection {
    var log: seq<Statement>
    const reply: nat -> Result<nat>

    constructor(reply: nat -> Result<nat>)
      ensures log == [] && this.reply == reply
    {
      log := [];
      this.reply := reply;
    }

    /** `DB::execute`. */
    method Execute(sql: string, params: seq<DbValue>) returns (r: Result<nat>)
      modifies this
      ensures log == old(log) + [Statement(sql, params)]
      ensures r == reply(|old(log)|)
    {
      r := reply(|log|);
      log := log + [Statement(sql, params)];
    }
  }
}
