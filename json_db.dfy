/**
 * The in-memory table store of backend/utils/jsonDb.js, which stands in
 * for sqlite3: six named tables of JSON records. `run` executes an INSERT
 * (the new record gets the greatest id plus one, or 1, and a timestamp
 * when none was supplied), `get` returns the first record (by id when the
 * query filters on it), `all` a whole table, and `exec` with DELETE or
 * DROP empties every table. The statement text is given already parsed:
 * the table name and the column list are parameters.
 */
module JsonStore {
  import opened Common
  import opened Tables

  /** The JSON values the store's records hold (numbers restricted to integers). */
  datatype Value = Undefined | Null | Bool(b: bool) | Num(n: int) | Str(s: string)

  type Record = map<string, Value>

  /** The tables, in the order the constructor lists their files. */
  const TableOrder: seq<string> := ["spaces", "occupancy_logs", "predictions", "events", "reassignment_logs", "accuracy_metrics"]

  /** What `run` was handed, after the regular expressions have matched it. */
  datatype Statement =
    | Insert(table: string, columns: Option<seq<string>>)  // `INSERT INTO table (c1, c2, ...)`; None: no parenthesised list
    | NotInsert                                            // UPDATE, BEGIN, COMMIT, ...

  datatype RunError =
    | OnlyInsertSupported   // "Only INSERT supported in simple mock"
    | InvalidInsert         // "Invalid INSERT"
    | UnknownTable          // `this.tables[tableName]` is undefined, so reading its length throws

  /** JavaScript truthiness. */
  predicate Truthy(v: Value)
  {
    match v
    case Undefined => false
    case Null => false
    case Bool(b) => b
    case Num(n) => n != 0
    case Str(s) => s != ""
  }

  /** A property read: `record[key]`, undefined when absent. */
  function Field(r: Record, key: string): Value
  {
    if key in r then r[key] else Undefined
  }

  /** `params[i]`, undefined past the end. */
  function Param(params: seq<Value>, i: int): Value
  {
    if 0 <= i < |params| then params[i] else Undefined
  }

  predicate HasId(r: Record)
  {
    "id" in r && r["id"].Num?
  }

  /** `record.id` of a record with a numeric id. */
  function IdOf(r: Record): int
    requires HasId(r)
  {
    r["id"].n
  }

  /** The id column of a table whose records all have numeric ids. */
  function RecordIds(rows: seq<Record>): (ids: seq<int>)
    requires forall i :: 0 <= i < |rows| ==> HasId(rows[i])
    ensures |ids| == |rows|
    ensures forall i :: 0 <= i < |rows| ==> ids[i] == IdOf(rows[i])
  {
    seq(|rows|, i requires 0 <= i < |rows| => IdOf(rows[i]))
  }

  /** The record after the first n assignments `newItem[field] = params[index]`. */
  function Assign(item: Record, columns: seq<string>, params: seq<Value>, n: nat): Record
    requires n <= |columns|
  {
    if n == 0 then item
    else Assign(item, columns, params, n - 1)[columns[n - 1] := Param(params, n - 1)]
  }

  /**
   * The record an INSERT appends: the id, each listed column set to the
   * parameter at its position, and the current time as timestamp unless a
   * truthy one was supplied.
   */
  function NewRecord(newId: int, columns: seq<string>, params: seq<Value>, now: string): (r: Record)
    ensures r.Keys == {"id", "timestamp"} + set i | 0 <= i < |columns| :: columns[i]
  {
    AssignKeys(map["id" := Num(newId)], columns, params, |columns|);
    var item := Assign(map["id" := Num(newId)], columns, params, |columns|);
    if Truthy(Field(item, "timestamp")) then item else item["timestamp" := Str(now)]
  }

  /**
   * The loop of `run` that builds the new record: the id, then
   * `newItem[field] = params[index]` for each listed column, then the
   * timestamp unless a truthy one was supplied.
   */
  method BuildRecord(newId: int, fields: seq<string>, params: seq<Value>, now: string) returns (item: Record)
    ensures item == NewRecord(newId, fields, params, now)
  {
    item := map["id" := Num(newId)];
    for index := 0 to |fields|
      invariant item == Assign(map["id" := Num(newId)], fields, params, index)
    {
      item := item[fields[index] := if index < |params| then params[index] else Undefined];
    }
    if !Truthy(Field(item, "timestamp")) {
      item := item["timestamp" := Str(now)];
    }
  }

  /** Unless a column is named "id", the new record keeps the numeric id it was given. */
  lemma NewRecordHasId(newId: int, columns: seq<string>, params: seq<Value>, now: string)
    requires "id" !in columns
    ensures HasId(NewRecord(newId, columns, params, now)) && IdOf(NewRecord(newId, columns, params, now)) == newId
  {
    var base := map["id" := Num(newId)];
    assert forall j :: 0 <= j < |columns| ==> columns[j] != "id";
    AssignShift(base, columns, params, 0, |columns|);
    assert Field(Assign(base, columns, params, |columns|), "id") == Num(newId);
  }

  /** A key holds the parameter of the last position that names it. */
  lemma AssignLast(item: Record, columns: seq<string>, params: seq<Value>, n: nat, i: nat)
    requires i < n <= |columns|
    requires forall j :: i < j < n ==> columns[j] != columns[i]
    ensures Field(Assign(item, columns, params, n), columns[i]) == Param(params, i)
  {
    AssignShift(item, columns, params, i + 1, n);
  }

  /** The later assignments act on the record the earlier ones produced. */
  lemma {:induction false} AssignShift(item: Record, columns: seq<string>, params: seq<Value>, m: nat, n: nat)
    requires m <= n <= |columns|
    ensures forall key :: (forall j :: m <= j < n ==> columns[j] != key) ==>
      Field(Assign(item, columns, params, n), key) == Field(Assign(item, columns, params, m), key)
  {
    if m < n {
      AssignShift(item, columns, params, m, n - 1);
    }
  }

  /** The assignments add exactly the listed columns as keys. */
  lemma {:induction false} AssignKeys(item: Record, columns: seq<string>, params: seq<Value>, n: nat)
    requires n <= |columns|
    ensures Assign(item, columns, params, n).Keys == item.Keys + set i | 0 <= i < n :: columns[i]
  {
    if n > 0 {
      AssignKeys(item, columns, params, n - 1);
      assert (set i | 0 <= i < n :: columns[i]) == (set i | 0 <= i < n - 1 :: columns[i]) + {columns[n - 1]};
    }
  }

  /** No column is listed twice. */
  predicate DistinctColumns(columns: seq<string>)
  {
    forall i, j :: 0 <= i < j < |columns| ==> columns[i] != columns[j]
  }

  /**
   * An INSERT's record maps each listed column to the parameter at its
   * position (undefined past the end of the parameters), keeps the new id,
   * has a truthy timestamp (the supplied one if truthy, otherwise the
   * current time) and holds no other key.
   */
  lemma NewRecordFields(newId: int, columns: seq<string>, params: seq<Value>, now: string)
    requires "id" !in columns && DistinctColumns(columns) && now != ""
    ensures var r := NewRecord(newId, columns, params, now);
      && Field(r, "id") == Num(newId)
      && (forall i :: 0 <= i < |columns| && columns[i] != "timestamp" ==> Field(r, columns[i]) == Param(params, i))
      && r.Keys == {"id", "timestamp"} + set i | 0 <= i < |columns| :: columns[i]
    ensures var r := NewRecord(newId, columns, params, now);
      var supplied := Field(Assign(map["id" := Num(newId)], columns, params, |columns|), "timestamp");
      && (Truthy(supplied) ==> Field(r, "timestamp") == supplied)
      && (!Truthy(supplied) ==> Field(r, "timestamp") == Str(now))
      && Truthy(Field(r, "timestamp"))
  {
    var base := map["id" := Num(newId)];
    var item := Assign(base, columns, params, |columns|);
    assert forall j :: 0 <= j < |columns| ==> columns[j] != "id";
    AssignShift(base, columns, params, 0, |columns|);
    assert Field(item, "id") == Field(Assign(base, columns, params, 0), "id") == Num(newId);
    AssignKeys(base, columns, params, |columns|);
    forall i | 0 <= i < |columns| && columns[i] != "timestamp"
      ensures Field(NewRecord(newId, columns, params, now), columns[i]) == Param(params, i)
    {
      AssignLast(base, columns, params, |columns|, i);
    }
    if Truthy(Field(item, "timestamp")) {
      assert "timestamp" in item;
    }
  }

  /** Distinct ids stay distinct when a record with the next id is appended. */
  lemma InsertKeepsIdsDistinct(rows: seq<Record>, record: Record)
    requires forall i :: 0 <= i < |rows| ==> HasId(rows[i])
    requires forall i, j :: 0 <= i < j < |rows| ==> RecordIds(rows)[i] != RecordIds(rows)[j]
    requires HasId(record) && IdOf(record) == NextId(RecordIds(rows))
    ensures forall i, j :: 0 <= i < j < |rows| + 1 ==> RecordIds(rows + [record])[i] != RecordIds(rows + [record])[j]
  {
    var ids := RecordIds(rows + [record]);
    forall i, j | 0 <= i < j < |rows| + 1
      ensures ids[i] != ids[j]
    {
      if j == |rows| {
        assert ids[i] == RecordIds(rows)[i];
      } else {
        assert ids[i] == RecordIds(rows)[i] && ids[j] == RecordIds(rows)[j];
      }
    }
  }

  class JsonDb {
    /** `this.tables`: table name to its records. */
    var tables: map<string, seq<Record>>

    ghost predicate Valid()
      reads this
    {
      && tables.Keys == set t | t in TableOrder
      && forall t :: t in tables ==> forall i :: 0 <= i < |tables[t]| ==> HasId(tables[t][i])
    }

    /**
     * The store over the files found in the database directory: each table
     * holds its stored records, or none when its file does not exist yet.
     */
    constructor (stored: map<string, seq<Record>>)
      requires forall t :: t in stored ==> forall i :: 0 <= i < |stored[t]| ==> HasId(stored[t][i])
      ensures Valid()
      ensures forall t :: t in TableOrder ==> tables[t] == if t in stored then stored[t] else []
    {
      var loaded: map<string, seq<Record>> := map[];
      for k := 0 to |TableOrder|
        invariant loaded.Keys == set t | t in TableOrder[..k]
        invariant forall t :: t in loaded ==> loaded[t] == if t in stored then stored[t] else []
      {
        var t := TableOrder[k];
        loaded := loaded[t := if t in stored then stored[t] else []];
      }
      assert TableOrder[..|TableOrder|] == TableOrder;
      tables := loaded;
    }

    /** `all`: the whole named table, unfiltered; nothing for an unknown table. */
    function All(tableName: string): (rows: seq<Record>)
      reads this
      ensures tableName !in tables ==> rows == []
      ensures tableName in tables ==> rows == tables[tableName]
    {
      if tableName in tables then tables[tableName] else []
    }

    /**
     * `get`: the first record of the table whose id is `params[0]` when the
     * query filters on `id = ?`, otherwise the first record; undefined when
     * there is none or the table is unknown.
     */
    function Get(tableName: string, byId: bool, params: seq<Value>): (r: Option<Record>)
      reads this
      ensures r.Some? ==> tableName in tables && r.value in tables[tableName]
      ensures byId && r.Some? ==> Field(r.value, "id") == Param(params, 0)
      ensures byId && r.Some? ==>
        exists k :: 0 <= k < |All(tableName)| && All(tableName)[k] == r.value &&
          forall i :: 0 <= i < k ==> Field(All(tableName)[i], "id") != Param(params, 0)
      ensures !byId ==> r == if All(tableName) == [] then None else Some(All(tableName)[0])
      ensures byId ==> (r.None? <==> forall i :: 0 <= i < |All(tableName)| ==> Field(All(tableName)[i], "id") != Param(params, 0))
    {
      First(All(tableName), (item: Record) => !byId || Field(item, "id") == Param(params, 0))
    }

    /**
     * `run`: anything but an INSERT, an unknown table or an INSERT without
     * a column list fails and changes nothing; otherwise one record with
     * the next id is appended to that table, the other tables are
     * unchanged, and the new id is returned (`this.lastID`).
     */
    method Run(statement: Statement, params: seq<Value>, now: string) returns (r: Result<int, RunError>)
      requires Valid()
      requires statement.Insert? && statement.columns.Some? ==> "id" !in statement.columns.value
      modifies this
      ensures Valid()
      ensures statement.NotInsert? ==> r == Err(OnlyInsertSupported)
      ensures statement.Insert? && statement.table !in old(tables) ==> r == Err(UnknownTable)
      ensures statement.Insert? && statement.table in old(tables) && statement.columns.None? ==> r == Err(InvalidInsert)
      ensures r.Err? ==> tables == old(tables)
      ensures r.Ok? ==>
        && statement.Insert? && statement.table in old(tables) && statement.columns.Some?
        && r.value == NextId(RecordIds(old(tables)[statement.table]))
        && tables == old(tables)[statement.table := old(tables)[statement.table] +
                                   [NewRecord(r.value, statement.columns.value, params, now)]]
    {
      if statement.NotInsert? {
        return Err(OnlyInsertSupported);
      }
      var tableName := statement.table;
      if tableName !in tables {
        return Err(UnknownTable);
      }
      var table := tables[tableName];
      var newId := NextId(RecordIds(table));
      if statement.columns.None? {
        return Err(InvalidInsert);
      }
      var newItem := BuildRecord(newId, statement.columns.value, params, now);
      NewRecordHasId(newId, statement.columns.value, params, now);
      assert tables[tableName := table + [newItem]].Keys == tables.Keys;
      tables := tables[tableName := table + [newItem]];
      r := Ok(newId);
    }

    /**
     * `exec`: 'DELETE' or 'DROP' empties every table, one after the other;
     * any other statement changes nothing.
     */
    method Exec(query: string)
      requires Valid()
      modifies this
      ensures Valid()
      ensures query == "DELETE" || query == "DROP" ==> tables.Keys == old(tables).Keys && forall t :: t in tables ==> tables[t] == []
      ensures query != "DELETE" && query != "DROP" ==> tables == old(tables)
    {
      if query == "DELETE" || query == "DROP" {
        for k := 0 to |TableOrder|
          invariant tables.Keys == old(tables).Keys
          invariant forall t :: t in tables ==> tables[t] == [] || tables[t] == old(tables)[t]
          invariant forall i :: 0 <= i < k ==> tables[TableOrder[i]] == []
        {
          tables := tables[TableOrder[k] := []];
        }
        forall t | t in tables
          ensures tables[t] == []
        {
          var i :| 0 <= i < |TableOrder| && TableOrder[i] == t;
        }
      }
    }
  }

  /** An id returned by an insert is greater than every id already in the table, so it is fresh. */
  lemma NewIdIsFresh(rows: seq<Record>)
    requires forall i :: 0 <= i < |rows| ==> HasId(rows[i])
    ensures forall i :: 0 <= i < |rows| ==> IdOf(rows[i]) < NextId(RecordIds(rows))
    ensures rows == [] ==> NextId(RecordIds(rows)) == 1
  {
    var ids := RecordIds(rows);
    forall i | 0 <= i < |rows|
      ensures IdOf(rows[i]) < NextId(ids)
    {
      assert ids[i] == IdOf(rows[i]);
    }
  }
}
