/**
 * execute_sql: the read-only guard, then one round trip to the database,
 * then the shaping of the driver's column list and rows into a list of
 * ordered column-to-value dictionaries plus a list of type tags.
 *
 * The database is a total function from SQL text to either the driver's
 * error message or its column names and rows.
 */
module QueryExecutor {
  import opened Wrappers
  import opened Errors
  import opened ReadOnlyGuard

  /** A value the driver can return in a cell; NoneValue is SQL NULL. */
  datatype Value =
    | NoneValue
    | IntValue(i: int)
    | FloatValue(f: real)
    | StrValue(s: string)
    | BoolValue(b: bool)
    | OtherValue(typeName: string)   // dates, decimals and the like, known only by their type name

  /** `type(v).__name__` */
  function TypeName(v: Value): string {
    match v
    case NoneValue => "NoneType"
    case IntValue(_) => "int"
    case FloatValue(_) => "float"
    case StrValue(_) => "str"
    case BoolValue(_) => "bool"
    case OtherValue(t) => t
  }

  /** What the database hands back for one statement. */
  datatype DbOutcome =
    | DbError(message: string)
    | DbRows(columns: seq<string>, rows: seq<seq<Value>>)

  /** The driver's contract: every row has one cell per column. */
  predicate RowsAligned(o: DbOutcome) {
    o.DbRows? ==> Aligned(o.columns, o.rows)
  }

  predicate Aligned(cols: seq<string>, rows: seq<seq<Value>>) {
    forall j :: 0 <= j < |rows| ==> |rows[j]| == |cols|
  }

  predicate NoDuplicates(s: seq<string>) {
    forall a, b :: 0 <= a < b < |s| ==> s[a] != s[b]
  }

  /** An OrderedDict from column names to values: its keys in insertion order, and its entries. */
  datatype OrderedDict = OrderedDict(keys: seq<string>, entries: map<string, Value>) {

    ghost predicate Valid() {
      NoDuplicates(keys) && forall k :: k in entries <==> k in keys
    }

    /** `d[k] = v`: an existing key keeps its position and takes the new value; a new key goes last. */
    function SetItem(k: string, v: Value): (d: OrderedDict)
      ensures Valid() ==> d.Valid()
      ensures k in entries ==> d.keys == keys
      ensures k !in entries ==> d.keys == keys + [k]
      ensures d.entries == entries[k := v]
    {
      OrderedDict(if k in entries then keys else keys + [k], entries[k := v])
    }
  }

  /** The shaped result: `column_names`, `results` and, when there is a row, `column_types`. */
  datatype QueryResult = QueryResult(
    columnNames: seq<string>,
    results: seq<OrderedDict>,
    columnTypes: Option<seq<string>>)

  // ---------------------------------------------------------------------------
  // Specification of one shaped row

  /** The distinct elements of `s`, in order of first occurrence. */
  function Distinct(s: seq<string>): (d: seq<string>)
    ensures NoDuplicates(d)
    ensures forall x :: x in d <==> x in s
  {
    if s == [] then []
    else
      var p := Distinct(s[..|s| - 1]);
      if s[|s| - 1] in p then p else p + [s[|s| - 1]]
  }

  /** The position of the first occurrence of `x` in `s`. */
  function FirstIndex(s: seq<string>, x: string): (r: nat)
    requires x in s
    ensures r < |s| && s[r] == x
    ensures forall i :: 0 <= i < r ==> s[i] != x
  {
    if s[0] == x then 0 else 1 + FirstIndex(s[1..], x)
  }

  /** The position of the last occurrence of `x` in `s`. */
  function LastIndex(s: seq<string>, x: string): (r: nat)
    requires x in s
    ensures r < |s| && s[r] == x
    ensures forall i :: r < i < |s| ==> s[i] != x
  {
    if s[|s| - 1] == x then |s| - 1 else LastIndex(s[..|s| - 1], x)
  }

  /** Column `i` is the last one with its name. */
  predicate IsLastOccurrence(s: seq<string>, i: nat)
    requires i < |s|
  {
    forall t :: i < t < |s| ==> s[t] != s[i]
  }

  /**
   * The dictionary built for one row: the distinct column names in order of
   * first occurrence, each mapped to the row's value at the LAST column of
   * that name (a repeated name is overwritten in place).
   */
  function RowDict(cols: seq<string>, row: seq<Value>): OrderedDict
    requires |row| == |cols|
  {
    OrderedDict(Distinct(cols), map c | c in cols :: row[LastIndex(cols, c)])
  }

  /** `[type(r).__name__ for r in d]`: iterating a dictionary yields its keys, the column-name strings. */
  function KeyTypeTags(d: OrderedDict): seq<string> {
    seq(|d.keys|, t requires 0 <= t < |d.keys| => TypeName(StrValue(d.keys[t])))
  }

  /** The `results` list: one dictionary per row. */
  function RowDicts(cols: seq<string>, rows: seq<seq<Value>>): seq<OrderedDict>
    requires Aligned(cols, rows)
  {
    seq(|rows|, j requires 0 <= j < |rows| => RowDict(cols, rows[j]))
  }

  /** The result dictionary for the driver's columns and rows. */
  function Shape(cols: seq<string>, rows: seq<seq<Value>>): QueryResult
    requires Aligned(cols, rows)
  {
    var results := RowDicts(cols, rows);
    QueryResult(cols, results, if |results| == 0 then None else Some(KeyTypeTags(results[0])))
  }

  /** execute_sql as a function of the query and the database. */
  function Execute(sql: string, db: string -> DbOutcome): (r: Result<QueryResult, Error>)
    requires RowsAligned(db(sql))
    ensures !IsReadOnlyQuery(sql) ==> r == Failure(NotReadOnly)
    ensures r.Success? <==> IsReadOnlyQuery(sql) && db(sql).DbRows?
    ensures IsReadOnlyQuery(sql) && db(sql).DbError? ==> r == Failure(ExecutionError(db(sql).message))
    ensures IsReadOnlyQuery(sql) && db(sql).DbRows? ==> r == Success(Shape(db(sql).columns, db(sql).rows))
  {
    if !IsReadOnlyQuery(sql) then Failure(NotReadOnly)
    else
      match db(sql)
      case DbError(m) => Failure(ExecutionError(m))
      case DbRows(cols, rows) => Success(Shape(cols, rows))
  }

  // ---------------------------------------------------------------------------
  // The imperative executor

  /**
   * execute_sql. The guard runs first: a rejected query raises before the
   * database is touched (`engineCalls` counts the round trips). The driver's
   * rows are then copied into dictionaries with the source's nested loops.
   */
  method ExecuteSql(sql: string, db: string -> DbOutcome) returns (r: Result<QueryResult, Error>, engineCalls: nat)
    requires RowsAligned(db(sql))
    ensures r == Execute(sql, db)
    ensures engineCalls == if IsReadOnlyQuery(sql) then 1 else 0
  {
    if !IsReadOnlyQuery(sql) {
      return Failure(NotReadOnly), 0;
    }
    var outcome := db(sql);
    engineCalls := 1;
    match outcome
    case DbError(m) =>
      r := Failure(ExecutionError(m));
    case DbRows(cols, rows) =>
      var results := ShapeRows(cols, rows);
      var columnTypes := if |results| == 0 then None else Some(KeyTypeTags(results[0]));
      r := Success(QueryResult(cols, results, columnTypes));
  }

  /** The outer `for row in rows` loop of execute_sql. */
  method ShapeRows(cols: seq<string>, rows: seq<seq<Value>>) returns (results: seq<OrderedDict>)
    requires Aligned(cols, rows)
    ensures results == RowDicts(cols, rows)
  {
    results := [];
    var j := 0;
    while j < |rows|
      invariant 0 <= j <= |rows|
      invariant |results| == j
      invariant forall t :: 0 <= t < j ==> results[t] == RowDict(cols, rows[t])
    {
      var d := ShapeRow(cols, rows[j]);
      results := results + [d];
      j := j + 1;
    }
  }

  /** The inner `for i, column_name in enumerate(column_names)` loop: `result[column_name] = row[i]`. */
  method ShapeRow(cols: seq<string>, row: seq<Value>) returns (d: OrderedDict)
    requires |row| == |cols|
    ensures d == RowDict(cols, row)
  {
    d := OrderedDict([], map[]);
    var i := 0;
    while i < |cols|
      invariant 0 <= i <= |cols|
      invariant d == RowDict(cols[..i], row[..i])
    {
      RowDictPrefixStep(cols, row, i);
      d := d.SetItem(cols[i], row[i]);
      i := i + 1;
    }
    assert cols[..i] == cols && row[..i] == row;
  }

  // ---------------------------------------------------------------------------
  // Lemmas

  /** Adding one more column to a row is one `d[k] = v` step. */
  lemma RowDictSnoc(cs: seq<string>, vs: seq<Value>, c: string, v: Value)
    requires |cs| == |vs|
    ensures RowDict(cs + [c], vs + [v]) == RowDict(cs, vs).SetItem(c, v)
  {
    var s, w := cs + [c], vs + [v];
    var before := RowDict(cs, vs).entries;
    var after := RowDict(s, w).entries;
    assert after == before[c := v] by {
      forall x | x in s ensures x in before[c := v] && after[x] == before[c := v][x] {
        if x != c {
          LastIndexSnoc(cs, c, x);
        }
      }
    }
    assert RowDict(s, w).keys == RowDict(cs, vs).SetItem(c, v).keys by {
      DistinctSnoc(cs, c);
    }
  }

  /** The first-occurrence list of one more name. */
  lemma DistinctSnoc(cs: seq<string>, c: string)
    ensures Distinct(cs + [c]) == if c in cs then Distinct(cs) else Distinct(cs) + [c]
  {
    assert (cs + [c])[..|cs|] == cs;
  }

  /** A name other than the appended one keeps its last position. */
  lemma LastIndexSnoc(cs: seq<string>, c: string, x: string)
    requires x in cs && x != c
    ensures LastIndex(cs + [c], x) == LastIndex(cs, x)
  {
    assert (cs + [c])[..|cs|] == cs;
  }

  /** Extending the prefix the inner loop has copied by one column is one `d[k] = v` step. */
  lemma RowDictPrefixStep(cols: seq<string>, row: seq<Value>, i: nat)
    requires |row| == |cols| && i < |cols|
    ensures RowDict(cols[..i + 1], row[..i + 1]) == RowDict(cols[..i], row[..i]).SetItem(cols[i], row[i])
  {
    assert cols[..i + 1] == cols[..i] + [cols[i]];
    assert row[..i + 1] == row[..i] + [row[i]];
    RowDictSnoc(cols[..i], row[..i], cols[i], row[i]);
  }

  /** Distinct keeps a list without repetitions as it is. */
  lemma {:induction false} DistinctOfUnique(s: seq<string>)
    requires NoDuplicates(s)
    ensures Distinct(s) == s
  {
    if s != [] {
      var p := s[..|s| - 1];
      assert NoDuplicates(p);
      DistinctOfUnique(p);
      assert s[|s| - 1] !in p;
      assert p + [s[|s| - 1]] == s;
    }
  }

  /** The first occurrence is the one no earlier position repeats. */
  lemma FirstIndexUnique(s: seq<string>, x: string, r: nat)
    requires r < |s| && s[r] == x && forall i :: 0 <= i < r ==> s[i] != x
    ensures FirstIndex(s, x) == r
  {
  }

  /** Distinct lists the names in the order of their first occurrence. */
  lemma {:induction false} DistinctFirstOccurrenceOrder(s: seq<string>)
    ensures forall a, b :: 0 <= a < b < |Distinct(s)| ==>
              FirstIndex(s, Distinct(s)[a]) < FirstIndex(s, Distinct(s)[b])
  {
    if s != [] {
      var p := s[..|s| - 1];
      var x := s[|s| - 1];
      DistinctFirstOccurrenceOrder(p);
      forall y | y in p ensures FirstIndex(s, y) == FirstIndex(p, y) {
        FirstIndexUnique(s, y, FirstIndex(p, y));
      }
      if x !in p {
        FirstIndexUnique(s, x, |p|);
      }
    }
  }

  /**
   * Each shaped row: its keys are the distinct column names in first-occurrence
   * order, and a column that is the last of its name carries that row's cell.
   */
  lemma ShapedRow(cols: seq<string>, row: seq<Value>, i: nat)
    requires |row| == |cols| && i < |cols|
    ensures RowDict(cols, row).Valid()
    ensures RowDict(cols, row).keys == Distinct(cols)
    ensures IsLastOccurrence(cols, i) ==> RowDict(cols, row).entries[cols[i]] == row[i]
  {
  }

  /** With unique column names each row maps column i to cell i, keys in column order. */
  lemma UniqueColumnsRow(cols: seq<string>, row: seq<Value>)
    requires |row| == |cols| && NoDuplicates(cols)
    ensures RowDict(cols, row).keys == cols
    ensures forall i :: 0 <= i < |cols| ==> RowDict(cols, row).entries[cols[i]] == row[i]
  {
    DistinctOfUnique(cols);
    forall i | 0 <= i < |cols| ensures RowDict(cols, row).entries[cols[i]] == row[i] {
      ShapedRow(cols, row, i);
    }
  }

  /**
   * The `results` list: one dictionary per driver row, in driver order, each
   * built from that row; `column_types` is present exactly when there is a row
   * and holds one "str" per distinct column name, whatever the cells hold
   * (NULLs included).
   */
  lemma ShapeFollowsDriver(cols: seq<string>, rows: seq<seq<Value>>)
    requires Aligned(cols, rows)
    ensures Shape(cols, rows).columnNames == cols
    ensures Shape(cols, rows).results == RowDicts(cols, rows)
    ensures |Shape(cols, rows).results| == |rows|
    ensures forall j :: 0 <= j < |rows| ==> |rows[j]| == |cols| && Shape(cols, rows).results[j] == RowDict(cols, rows[j])
    ensures Shape(cols, rows).columnTypes.Some? <==> |rows| > 0
    ensures Shape(cols, rows).columnTypes.Some? ==>
              |Shape(cols, rows).columnTypes.value| == |Distinct(cols)|
              && forall t :: 0 <= t < |Distinct(cols)| ==> Shape(cols, rows).columnTypes.value[t] == "str"
  {
  }

  /** Duplicated column names merge: the key keeps its first position and takes the later value. */
  lemma DuplicateColumnsMerge(x: Value, y: Value, z: Value)
    ensures RowDict(["a", "b", "a"], [x, y, z]).keys == ["a", "b"]
    ensures RowDict(["a", "b", "a"], [x, y, z]).entries == map["a" := z, "b" := y]
  {
    var cols := ["a", "b", "a"];
    var ab := ["a", "b"];
    var a := ["a"];
    assert a[..0] == [];
    assert Distinct(a) == a;
    assert ab[..1] == a;
    assert Distinct(ab) == ab;
    assert cols[..2] == ab;
    assert LastIndex(cols, "a") == 2;
    assert LastIndex(cols, "b") == 1;
  }

  /** column_types describes the keys, not the cells: an integer column is still tagged "str". */
  lemma ColumnTypesDescribeKeys(n: int)
    ensures Shape(["count"], [[IntValue(n)]]).columnTypes == Some(["str"])
    ensures TypeName(IntValue(n)) == "int"
  {
    var cols := ["count"];
    assert cols[..0] == [];
    assert Distinct(cols) == cols;
    var shaped := Shape(cols, [[IntValue(n)]]);
    assert shaped.results[0] == RowDict(cols, [IntValue(n)]);
    assert KeyTypeTags(shaped.results[0]) == ["str"];
  }
}
