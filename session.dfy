/**
 * The session package: a Session holds the raw-SQL buffer, the clause
 * accumulator and the cached schema of the current model (session/raw.go,
 * session/table.go), and offers the record verbs that compose a statement
 * from clauses and run it (session/record.go).
 *
 * The database is an executor that is only ever sent statements: a `Conn`
 * records every (text, parameters) pair it receives, and what it replies is
 * a parameter of the method that runs the statement.
 */
module Session {
  import opened Values
  import opened Text
  import Dialect
  import Schema
  import Clause

  /** A *sql.DB or *sql.Tx: the statements it has been sent, in order. */
  class Conn {
    var received: seq<Sql>

    constructor ()
      ensures received == []
    {
      received := [];
    }

    method Receive(q: Sql)
      modifies this
      ensures received == old(received) + [q]
    {
      received := received + [q];
    }
  }

  /** What a query returns: one Scan outcome per result row, then the outcome of rows.Close. */
  datatype Cursor = Cursor(rows: seq<Result<seq<Value>>>, closeError: Option<Error>)

  /** The records Find's loop appended, and the Scan error that stopped it, if any. */
  datatype Scan = Scan(items: seq<Schema.Object>, failure: Option<Error>)

  // The runtime panics the core can run into.
  const NilDereference: Error := Panic("nil pointer dereference")
  const IndexOutOfRange: Error := Panic("index out of range")
  const KeyNotString: Error := Panic("interface conversion: key is not a string")

  /** The statement sent when fragment q is appended to a buffer holding (text, vars) and the buffer is run. */
  function Pending(text: string, vars: seq<Value>, q: Sql): Sql {
    Sql(text + q.text + " ", vars + q.vars)
  }

  // ----- rows into records -----

  /** The first n destination fields of a Scan receive the first n cells. */
  function AssignPrefix(names: seq<string>, cells: seq<Value>, n: nat): map<string, Value>
    requires n <= |names| && n <= |cells|
    decreases n
  {
    if n == 0 then map[] else AssignPrefix(names, cells, n - 1)[names[n - 1] := cells[n - 1]]
  }

  /** The record a scanned row becomes: its cells stored into the fields named, in order. */
  function Decode(t: Schema.ModelType, names: seq<string>, cells: seq<Value>): Schema.Object {
    var n := if |names| <= |cells| then |names| else |cells|;
    Schema.Object(t, AssignPrefix(names, cells, n))
  }

  lemma {:induction false} AssignPrefixAt(names: seq<string>, cells: seq<Value>, n: nat, i: nat)
    requires n <= |names| && n <= |cells| && i < n
    requires forall p, q :: 0 <= p < q < |names| ==> names[p] != names[q]
    ensures names[i] in AssignPrefix(names, cells, n)
    ensures AssignPrefix(names, cells, n)[names[i]] == cells[i]
    decreases n
  {
    if i < n - 1 {
      AssignPrefixAt(names, cells, n - 1, i);
    }
  }

  /**
   * Scanning a row into a record and reading the record's values back in
   * FieldNames order gives the row again, when the row has one cell per field.
   */
  lemma DecodeRoundTrip(s: Schema.Schema, t: Schema.ModelType, cells: seq<Value>)
    requires |cells| == |s.fieldNames|
    requires forall p, q :: 0 <= p < q < |s.fieldNames| ==> s.fieldNames[p] != s.fieldNames[q]
    ensures Schema.RecordValues(s, Decode(t, s.fieldNames, cells)) == cells
  {
    var r := Schema.RecordValues(s, Decode(t, s.fieldNames, cells));
    forall i | 0 <= i < |cells| ensures r[i] == cells[i] {
      AssignPrefixAt(s.fieldNames, cells, |cells|, i);
    }
  }

  /** Find's loop over the result rows: decode each row, stopping at the first Scan error. */
  function ScanRows(t: Schema.ModelType, names: seq<string>, rows: seq<Result<seq<Value>>>): Scan
    decreases |rows|
  {
    if |rows| == 0 then Scan([], None)
    else
      var before := ScanRows(t, names, rows[..|rows| - 1]);
      if before.failure.Some? then before
      else
        match rows[|rows| - 1]
        case Ok(cells) => Scan(before.items + [Decode(t, names, cells)], None)
        case Err(e) => Scan(before.items, Some(e))
  }

  lemma {:induction false} ScanFailureSticks(t: Schema.ModelType, names: seq<string>, rows: seq<Result<seq<Value>>>, n: nat)
    requires n <= |rows|
    requires ScanRows(t, names, rows[..n]).failure.Some?
    ensures ScanRows(t, names, rows) == ScanRows(t, names, rows[..n])
    decreases |rows| - n
  {
    if n < |rows| {
      assert rows[..n + 1][..n] == rows[..n];
      assert ScanRows(t, names, rows[..n + 1]) == ScanRows(t, names, rows[..n]);
      ScanFailureSticks(t, names, rows, n + 1);
    } else {
      assert rows[..n] == rows;
    }
  }

  /** Every row scans: one record per row, in row order, and no error. */
  lemma {:induction false} ScanAllRows(t: Schema.ModelType, names: seq<string>, rows: seq<Result<seq<Value>>>)
    requires forall i :: 0 <= i < |rows| ==> rows[i].Ok?
    ensures ScanRows(t, names, rows).failure == None
    ensures |ScanRows(t, names, rows).items| == |rows|
    ensures forall i :: 0 <= i < |rows| ==> ScanRows(t, names, rows).items[i] == Decode(t, names, rows[i].value)
    decreases |rows|
  {
    if |rows| > 0 {
      ScanAllRows(t, names, rows[..|rows| - 1]);
    }
  }

  /**
   * The first row that fails to scan: its error is returned, and the
   * records decoded from the rows before it are kept.
   */
  lemma ScanFirstFailure(t: Schema.ModelType, names: seq<string>, rows: seq<Result<seq<Value>>>, k: nat)
    requires k < |rows| && rows[k].Err?
    requires forall i :: 0 <= i < k ==> rows[i].Ok?
    ensures ScanRows(t, names, rows).failure == Some(rows[k].error)
    ensures ScanRows(t, names, rows).items == ScanRows(t, names, rows[..k]).items
    ensures |ScanRows(t, names, rows).items| == k
    ensures forall i :: 0 <= i < k ==> ScanRows(t, names, rows).items[i] == Decode(t, names, rows[i].value)
  {
    ScanAllRows(t, names, rows[..k]);
    assert rows[..k + 1][..k] == rows[..k];
    ScanFailureSticks(t, names, rows, k + 1);
  }

  // ----- Update's key/value list -----

  /** The map after n iterations of Update's loop over a flat key/value list. */
  function PairsPrefix(kv: seq<Value>, n: nat): Result<map<string, Value>>
    requires 2 * n <= |kv| + 1
    decreases n
  {
    if n == 0 then Ok(map[])
    else
      match PairsPrefix(kv, n - 1)
      case Err(e) => Err(e)
      case Ok(m) =>
        if !kv[2 * n - 2].Str? then Err(KeyNotString)
        else if 2 * n - 1 >= |kv| then Err(IndexOutOfRange)
        else Ok(m[kv[2 * n - 2].s := kv[2 * n - 1]])
  }

  /** Update's argument as a map: a map argument is used as is, a flat list is paired up. */
  function UpdateMap(kv: seq<Value>): Result<map<string, Value>> {
    if |kv| == 0 then Err(IndexOutOfRange)
    else if kv[0].Dict? then Ok(kv[0].entries)
    else PairsPrefix(kv, (|kv| + 1) / 2)
  }

  /** Update's pairing loop. */
  method PairUp(kv: seq<Value>) returns (r: Result<map<string, Value>>)
    ensures r == UpdateMap(kv)
  {
    if |kv| == 0 {
      return Err(IndexOutOfRange);
    }
    if kv[0].Dict? {
      return Ok(kv[0].entries);
    }
    var m: map<string, Value> := map[];
    var i := 0;
    while i < |kv|
      invariant 0 <= i <= |kv| + 1 && i % 2 == 0
      invariant PairsPrefix(kv, i / 2) == Ok(m)
    {
      if !kv[i].Str? {
        PairsErrSticks(kv, i / 2 + 1, (|kv| + 1) / 2);
        return Err(KeyNotString);
      }
      if i + 1 >= |kv| {
        PairsErrSticks(kv, i / 2 + 1, (|kv| + 1) / 2);
        return Err(IndexOutOfRange);
      }
      m := m[kv[i].s := kv[i + 1]];
      i := i + 2;
    }
    assert i / 2 == (|kv| + 1) / 2;
    return Ok(m);
  }

  lemma {:induction false} PairsErrSticks(kv: seq<Value>, n: nat, m: nat)
    requires n <= m && 2 * m <= |kv| + 1
    requires PairsPrefix(kv, n).Err?
    ensures PairsPrefix(kv, m) == PairsPrefix(kv, n)
    decreases m - n
  {
    if n < m {
      PairsErrSticks(kv, n + 1, m);
    }
  }

  /** A flat list of string keys, each followed by its value. */
  predicate FlatPairs(kv: seq<Value>) {
    && |kv| % 2 == 0
    && (forall i :: 0 <= i < |kv| && i % 2 == 0 ==> kv[i].Str?)
  }

  lemma {:induction false} PairsOk(kv: seq<Value>, n: nat)
    requires FlatPairs(kv) && 2 * n <= |kv|
    ensures PairsPrefix(kv, n).Ok?
    decreases n
  {
    if n > 0 {
      PairsOk(kv, n - 1);
      assert kv[2 * (n - 1)].Str?;
    }
  }

  /** Pairing a flat list: a key is in the map exactly when some even position holds it. */
  lemma {:induction false} PairsKey(kv: seq<Value>, n: nat, k: string)
    requires FlatPairs(kv) && 2 * n <= |kv|
    ensures PairsPrefix(kv, n).Ok?
    ensures k in PairsPrefix(kv, n).value <==> exists j :: 0 <= j < n && kv[2 * j] == Str(k)
    decreases n
  {
    PairsOk(kv, n);
    if n > 0 {
      PairsKey(kv, n - 1, k);
      assert kv[2 * (n - 1)].Str?;
      if k == kv[2 * n - 2].s {
        assert kv[2 * (n - 1)] == Str(k);
      }
    }
  }

  /** Pairing a flat list: a key maps to the value after its last occurrence. */
  lemma {:induction false} PairsValue(kv: seq<Value>, n: nat, j: nat)
    requires FlatPairs(kv) && 2 * n <= |kv| && j < n
    requires forall j' :: j < j' < n ==> kv[2 * j'] != kv[2 * j]
    ensures PairsPrefix(kv, n).Ok?
    ensures kv[2 * j].s in PairsPrefix(kv, n).value
    ensures PairsPrefix(kv, n).value[kv[2 * j].s] == kv[2 * j + 1]
    decreases n
  {
    PairsOk(kv, n);
    assert kv[2 * (n - 1)].Str?;
    if j < n - 1 {
      PairsValue(kv, n - 1, j);
      assert kv[2 * (n - 1)] != kv[2 * j];
    }
  }

  /** Update's conversion fails in exactly these cases: no argument, a non-string key, a key without a value. */
  lemma UpdateMapErrors(kv: seq<Value>)
    ensures |kv| == 0 ==> UpdateMap(kv) == Err(IndexOutOfRange)
    ensures |kv| > 0 && kv[0].Dict? ==> UpdateMap(kv) == Ok(kv[0].entries)
    ensures |kv| > 0 && !kv[0].Dict? && FlatPairs(kv) ==> UpdateMap(kv).Ok?
    ensures |kv| > 0 && !kv[0].Dict? && |kv| % 2 == 1 ==> UpdateMap(kv).Err?
    ensures |kv| > 0 && !kv[0].Str? && !kv[0].Dict? ==> UpdateMap(kv) == Err(KeyNotString)
  {
    if |kv| > 0 && !kv[0].Dict? {
      var n := (|kv| + 1) / 2;
      if FlatPairs(kv) {
        PairsOk(kv, n);
      }
      if |kv| % 2 == 1 {
        OddPairs(kv, n);
      }
      if !kv[0].Str? {
        assert PairsPrefix(kv, 1) == Err(KeyNotString);
        PairsErrSticks(kv, 1, n);
      }
    }
  }

  lemma OddPairs(kv: seq<Value>, n: nat)
    requires |kv| % 2 == 1 && n == (|kv| + 1) / 2
    ensures PairsPrefix(kv, n).Err?
  {
    var last := n - 1;
    assert 2 * n - 1 == |kv|;
    match PairsPrefix(kv, last)
    case Err(e) =>
    case Ok(m) =>
  }

  // ----- the table helpers' statements -----

  /** One column definition of CREATE TABLE: "Name Type Tag". */
  function ColumnDef(f: Schema.Field): string {
    f.name + " " + f.typ + " " + f.tag
  }

  function ColumnDefs(fs: seq<Schema.Field>): (r: seq<string>)
    ensures |r| == |fs|
  {
    seq(|fs|, i requires 0 <= i < |fs| => ColumnDef(fs[i]))
  }

  function CreateTableSql(s: Schema.Schema): string {
    "CREATE TABLE IF NOT EXISTS " + s.name + " (" + Join(ColumnDefs(s.fields), ",") + ") ;"
  }

  function DropTableSql(name: string): string {
    "DROP TABLE IF EXISTS " + name + " ;"
  }

  /** The User table of schema/schema_test.go: CREATE TABLE with its two columns, the untagged one ending in a space. */
  lemma CreateUserTable()
    ensures Schema.Resolve(Schema.ModelType(true, Schema.UserRecord), Dialect.MySQL).Ok?
    ensures CreateTableSql(Schema.Resolve(Schema.ModelType(true, Schema.UserRecord), Dialect.MySQL).value)
            == "CREATE TABLE IF NOT EXISTS User (Name VARCHAR(255) PRIMARY KEY,Age INT ) ;"
  {
    Schema.ParseUser();
    var s := Schema.Resolve(Schema.ModelType(true, Schema.UserRecord), Dialect.MySQL).value;
    UserColumns(s.fields);
    assert s.name == "User";
    assert Join(ColumnDefs(s.fields), ",") == "Name VARCHAR(255) PRIMARY KEY,Age INT ";
    assert CreateTableSql(s) == "CREATE TABLE IF NOT EXISTS " + "User" + " (" + "Name VARCHAR(255) PRIMARY KEY,Age INT " + ") ;";
    CreateUserText();
  }

  lemma CreateUserText()
    ensures "CREATE TABLE IF NOT EXISTS " + "User" + " (" + "Name VARCHAR(255) PRIMARY KEY,Age INT " + ") ;"
            == "CREATE TABLE IF NOT EXISTS User (Name VARCHAR(255) PRIMARY KEY,Age INT ) ;"
  {
    CreateUserHead();
    CreateUserBody();
  }

  lemma CreateUserHead()
    ensures "CREATE TABLE IF NOT EXISTS " + "User" + " (" == "CREATE TABLE IF NOT EXISTS User ("
  {
  }

  lemma CreateUserBody()
    ensures "CREATE TABLE IF NOT EXISTS User (" + "Name VARCHAR(255) PRIMARY KEY,Age INT " + ") ;"
            == "CREATE TABLE IF NOT EXISTS User (Name VARCHAR(255) PRIMARY KEY,Age INT ) ;"
  {
  }

  lemma UserColumns(fs: seq<Schema.Field>)
    requires fs == [Schema.Field("Name", "VARCHAR(255)", "PRIMARY KEY"), Schema.Field("Age", "INT", "")]
    ensures Join(ColumnDefs(fs), ",") == "Name VARCHAR(255) PRIMARY KEY,Age INT "
  {
    var cols := ColumnDefs(fs);
    assert cols[0] == ColumnDef(fs[0]) && cols[1] == ColumnDef(fs[1]);
    NameColumn();
    AgeColumn();
    assert cols == ["Name VARCHAR(255) PRIMARY KEY", "Age INT "];
    JoinUserColumns();
  }

  lemma NameColumn()
    ensures ColumnDef(Schema.Field("Name", "VARCHAR(255)", "PRIMARY KEY")) == "Name VARCHAR(255) PRIMARY KEY"
  {
  }

  lemma AgeColumn()
    ensures ColumnDef(Schema.Field("Age", "INT", "")) == "Age INT "
  {
  }

  lemma JoinUserColumns()
    ensures Join(["Name VARCHAR(255) PRIMARY KEY", "Age INT "], ",") == "Name VARCHAR(255) PRIMARY KEY,Age INT "
  {
    var cols := ["Name VARCHAR(255) PRIMARY KEY", "Age INT "];
    assert cols[..1] == ["Name VARCHAR(255) PRIMARY KEY"];
    assert Join(cols, ",") == "Name VARCHAR(255) PRIMARY KEY" + "," + "Age INT ";
  }

  // ----- the record verbs' statements -----

  /** Every record's type can be parsed (otherwise Model panics on the first that cannot). */
  predicate AllParse(records: seq<Schema.Object>, d: Dialect.Dialect) {
    forall i :: 0 <= i < |records| ==> Schema.Resolve(records[i].typ, d).Ok?
  }

  /** The tuples Insert collects: each record's values in its table's FieldNames order. */
  function InsertRows(records: seq<Schema.Object>, d: Dialect.Dialect): (r: seq<seq<Value>>)
    requires AllParse(records, d)
    ensures |r| == |records|
    decreases |records|
  {
    if |records| == 0 then []
    else
      var last := records[|records| - 1];
      InsertRows(records[..|records| - 1], d) + [Schema.RecordValues(Schema.Resolve(last.typ, d).value, last)]
  }

  /** The INSERT clause Insert leaves set: the table of the last record (each record sets it anew). */
  function InsertTarget(c: Clause.Clause, records: seq<Schema.Object>, d: Dialect.Dialect): Clause.Clause
    requires AllParse(records, d)
  {
    if |records| == 0 then c
    else
      var s := Schema.Resolve(records[|records| - 1].typ, d).value;
      Clause.Set(c, Clause.InsertArgs(s.name, s.fieldNames))
  }

  /** The statement Insert builds from the clause state c it starts from. */
  function InsertStatement(c: Clause.Clause, records: seq<Schema.Object>, d: Dialect.Dialect): Sql
    requires AllParse(records, d)
  {
    Clause.Build(Clause.Set(InsertTarget(c, records, d), Clause.ValuesArgs(InsertRows(records, d))),
                 [Clause.INSERT, Clause.VALUES])
  }

  /** The statement a verb builds: its own clause set on top of c, then WHERE if set. */
  function VerbStatement(c: Clause.Clause, a: Clause.Args): Sql {
    Clause.Build(Clause.Set(c, a), [a.Kind(), Clause.WHERE])
  }

  /** Find's statement for the schema s, from the clause state c it starts from. */
  function FindQuery(c: Clause.Clause, s: Schema.Schema): Sql {
    Clause.Build(Clause.Set(c, Clause.SelectArgs(s.name, s.fieldNames)), Clause.FindOrder)
  }

  /** What Find appends and returns for a query reply: the query's error, the first Scan error, or rows.Close's outcome. */
  function Found(t: Schema.ModelType, names: seq<string>, reply: Result<Cursor>): Scan {
    match reply
    case Err(e) => Scan([], Some(e))
    case Ok(cursor) =>
      var scan := ScanRows(t, names, cursor.rows);
      if scan.failure.Some? then scan else Scan(scan.items, cursor.closeError)
  }

  /** First's answer from what Find found: its error, NotFound for no record, else the first record. */
  function FirstOf(f: Scan): Result<Schema.Object> {
    if f.failure.Some? then Err(f.failure.value)
    else if |f.items| == 0 then Err(NotFound)
    else Ok(f.items[0])
  }

  lemma {:induction false} InsertRowsAt(records: seq<Schema.Object>, d: Dialect.Dialect, i: nat)
    requires AllParse(records, d) && i < |records|
    ensures InsertRows(records, d)[i] == Schema.RecordValues(Schema.Resolve(records[i].typ, d).value, records[i])
    decreases |records|
  {
    var init := records[..|records| - 1];
    if i < |records| - 1 {
      assert init[i] == records[i];
      InsertRowsAt(init, d, i);
    }
  }

  /** Records of one type: every tuple is that type's RecordValues, all of the same width. */
  lemma SameTypeRows(records: seq<Schema.Object>, d: Dialect.Dialect, t: Schema.ModelType)
    requires Schema.Resolve(t, d).Ok?
    requires forall i :: 0 <= i < |records| ==> records[i].typ == t
    ensures AllParse(records, d)
    ensures forall i :: 0 <= i < |records| ==>
              InsertRows(records, d)[i] == Schema.RecordValues(Schema.Resolve(t, d).value, records[i])
    ensures Clause.Uniform(InsertRows(records, d), |Schema.Resolve(t, d).value.fieldNames|)
  {
    forall i | 0 <= i < |records|
      ensures InsertRows(records, d)[i] == Schema.RecordValues(Schema.Resolve(t, d).value, records[i])
    {
      InsertRowsAt(records, d, i);
    }
  }

  /**
   * A record whose type does not parse, after records that all do, is where
   * Insert stops: the loop's local facts restated as the failure CollectRows reports.
   */
  lemma InsertStops(records: seq<Schema.Object>, d: Dialect.Dialect, i: nat)
    requires i < |records| && AllParse(records[..i], d) && Schema.Resolve(records[i].typ, d).Err?
    ensures !AllParse(records, d)
    ensures exists j :: 0 <= j < |records| && AllParse(records[..j], d) &&
                        Schema.Resolve(records[j].typ, d) == Err(Schema.Resolve(records[i].typ, d).error)
  {
  }

  /** One more parseable record: one more tuple, and the INSERT target becomes its table. */
  lemma InsertStep(c: Clause.Clause, records: seq<Schema.Object>, d: Dialect.Dialect, i: nat)
    requires i < |records| && AllParse(records[..i], d) && Schema.Resolve(records[i].typ, d).Ok?
    ensures AllParse(records[..i + 1], d)
    ensures InsertRows(records[..i + 1], d)
            == InsertRows(records[..i], d) + [Schema.RecordValues(Schema.Resolve(records[i].typ, d).value, records[i])]
    ensures var s := Schema.Resolve(records[i].typ, d).value;
            InsertTarget(c, records[..i + 1], d) == Clause.Set(InsertTarget(c, records[..i], d), Clause.InsertArgs(s.name, s.fieldNames))
  {
    var p := records[..i + 1];
    assert p[..i] == records[..i];
    assert p[i] == records[i];
    var s := Schema.Resolve(records[i].typ, d).value;
    var a := Clause.InsertArgs(s.name, s.fieldNames);
    if i > 0 {
      var s' := Schema.Resolve(records[i - 1].typ, d).value;
      assert records[..i][i - 1] == records[i - 1];
      SetTwice(c, Clause.InsertArgs(s'.name, s'.fieldNames), a);
    }
  }

  /** Setting the same kind twice keeps only the second. */
  lemma SetTwice(c: Clause.Clause, a: Clause.Args, b: Clause.Args)
    requires a.Kind() == b.Kind()
    ensures Clause.Set(Clause.Set(c, a), b) == Clause.Set(c, b)
  {
    assert Clause.Set(Clause.Set(c, a), b).stored == Clause.Set(c, b).stored;
  }

  /** Records of one type: Insert's statement is the INSERT of that type's table, one space, and the VALUES of the tuples. */
  lemma {:induction false} SameTypeStatement(c: Clause.Clause, records: seq<Schema.Object>, d: Dialect.Dialect, t: Schema.ModelType)
    requires |records| > 0 && Schema.Resolve(t, d).Ok?
    requires forall i :: 0 <= i < |records| ==> records[i].typ == t
    ensures AllParse(records, d)
    ensures var s := Schema.Resolve(t, d).value;
            InsertStatement(c, records, d)
              == Sql(Clause.Insert(s.name, s.fieldNames).text + " " + Clause.ValuesSql(InsertRows(records, d)).text,
                     Clause.Flatten(InsertRows(records, d)))
  {
    var s := Schema.Resolve(t, d).value;
    SameTypeRows(records, d, t);
    assert records[|records| - 1].typ == t;
    assert InsertTarget(c, records, d) == Clause.Set(c, Clause.InsertArgs(s.name, s.fieldNames));
    Clause.InsertWithValues(c, s.name, s.fieldNames, InsertRows(records, d));
  }

  /**
   * Inserting records of one type t: "INSERT INTO T (f1, ..., fn) VALUES "
   * then one "(?, ..., ?)" group of n placeholders per record.
   */
  lemma {:induction false} InsertSameTypeText(c: Clause.Clause, records: seq<Schema.Object>, d: Dialect.Dialect, t: Schema.ModelType)
    requires |records| > 0 && Schema.Resolve(t, d).Ok?
    requires forall i :: 0 <= i < |records| ==> records[i].typ == t
    ensures AllParse(records, d)
    ensures var s := Schema.Resolve(t, d).value;
            InsertStatement(c, records, d).text
              == "INSERT INTO " + s.name + " (" + Join(s.fieldNames, ", ") + ")" + " "
                 + ("VALUES " + Join(Repeat("(" + Clause.BindVars(|s.fieldNames|) + ")", |records|), ", "))
  {
    SameTypeStatement(c, records, d, t);
    SameTypeRows(records, d, t);
    Clause.ValuesUniformText(InsertRows(records, d), |Schema.Resolve(t, d).value.fieldNames|);
  }

  /**
   * Inserting records of one type t: the parameters of Insert's statement
   * (see SameTypeStatement) hold n values per record, and value j of record i
   * is parameter Offset(i) + j, where Offset(i) is n * i.
   */
  lemma InsertSameTypeVars(records: seq<Schema.Object>, d: Dialect.Dialect, t: Schema.ModelType, s: Schema.Schema, i: nat, j: nat)
    requires Schema.Resolve(t, d) == Ok(s)
    requires forall k :: 0 <= k < |records| ==> records[k].typ == t
    requires i < |records| && j < |s.fieldNames|
    ensures AllParse(records, d)
    ensures Clause.Offset(InsertRows(records, d), i) == |s.fieldNames| * i
    ensures Clause.Offset(InsertRows(records, d), i) + j < |Clause.Flatten(InsertRows(records, d))|
    ensures Clause.Flatten(InsertRows(records, d))[Clause.Offset(InsertRows(records, d), i) + j]
              == Schema.RecordValues(s, records[i])[j]
  {
    assert AllParse(records, d) by {
      SameTypeRows(records, d, t);
    }
    var rows := InsertRows(records, d);
    assert Clause.Uniform(rows, |s.fieldNames|) && rows[i] == Schema.RecordValues(s, records[i]) by {
      SameTypeRows(records, d, t);
    }
    RowAt(rows, Schema.RecordValues(s, records[i]), |s.fieldNames|, i, j);
  }

  /** Value j of a uniform row i, given what row i is. */
  lemma RowAt(rows: seq<seq<Value>>, row: seq<Value>, n: nat, i: nat, j: nat)
    requires Clause.Uniform(rows, n) && i < |rows| && j < n && rows[i] == row
    ensures Clause.Offset(rows, i) == n * i
    ensures Clause.Offset(rows, i) + j < |Clause.Flatten(rows)|
    ensures Clause.Flatten(rows)[Clause.Offset(rows, i) + j] == row[j]
  {
    UniformOffset(rows, n, i);
    Clause.FlattenIndex(rows, i, j);
  }

  /** Inserting records of one type binds as many parameters as fields times records. */
  lemma InsertSameTypeCount(records: seq<Schema.Object>, d: Dialect.Dialect, t: Schema.ModelType, s: Schema.Schema)
    requires Schema.Resolve(t, d) == Ok(s)
    requires forall k :: 0 <= k < |records| ==> records[k].typ == t
    ensures AllParse(records, d)
    ensures |Clause.Flatten(InsertRows(records, d))| == |s.fieldNames| * |records|
  {
    SameTypeRows(records, d, t);
    Clause.FlattenLength(InsertRows(records, d), |s.fieldNames|);
  }

  /** Rows of width n flatten to n values per row, value j of row i at position n * i + j. */
  lemma FlattenUniform(rows: seq<seq<Value>>, n: nat)
    requires Clause.Uniform(rows, n)
    ensures |Clause.Flatten(rows)| == n * |rows|
    ensures forall i :: 0 <= i < |rows| ==> Clause.Offset(rows, i) == n * i
    ensures forall i, j :: 0 <= i < |rows| && 0 <= j < |rows[i]| ==>
              Clause.Offset(rows, i) + j < |Clause.Flatten(rows)| &&
              Clause.Flatten(rows)[Clause.Offset(rows, i) + j] == rows[i][j]
  {
    Clause.FlattenLength(rows, n);
    forall i | 0 <= i < |rows| ensures Clause.Offset(rows, i) == n * i {
      UniformOffset(rows, n, i);
    }
    forall i, j | 0 <= i < |rows| && 0 <= j < |rows[i]|
      ensures Clause.Offset(rows, i) + j < |Clause.Flatten(rows)|
      ensures Clause.Flatten(rows)[Clause.Offset(rows, i) + j] == rows[i][j]
    {
      Clause.FlattenIndex(rows, i, j);
    }
  }

  lemma UniformOffset(rows: seq<seq<Value>>, n: nat, i: nat)
    requires Clause.Uniform(rows, n) && i <= |rows|
    ensures Clause.Offset(rows, i) == n * i
  {
    assert Clause.Uniform(rows[..i], n);
    Clause.FlattenLength(rows[..i], n);
  }

  /** Insert's statement binds one parameter per placeholder when names hold no "?" and all records share a type. */
  lemma {:induction false} InsertBalanced(c: Clause.Clause, records: seq<Schema.Object>, d: Dialect.Dialect, t: Schema.ModelType)
    requires |records| > 0 && Schema.Resolve(t, d).Ok?
    requires forall i :: 0 <= i < |records| ==> records[i].typ == t
    requires Clause.Plain(Schema.Resolve(t, d).value.name) && Clause.AllPlain(Schema.Resolve(t, d).value.fieldNames)
    ensures AllParse(records, d)
    ensures Marks(InsertStatement(c, records, d).text) == |InsertStatement(c, records, d).vars|
  {
    var s := Schema.Resolve(t, d).value;
    var rows := InsertRows(records, d);
    SameTypeStatement(c, records, d, t);
    SameTypeRows(records, d, t);
    var ins := Clause.Insert(s.name, s.fieldNames).text;
    var vals := Clause.ValuesSql(rows);
    Clause.GenerateBalanced(Clause.InsertArgs(s.name, s.fieldNames));
    assert Marks(ins) == 0;
    Clause.ValuesBalanced(rows, |s.fieldNames|);
    assert Marks(vals.text) == |Clause.Flatten(rows)|;
    NoMarks(" ");
    MarksConcat(ins, " ");
    MarksConcat(ins + " ", vals.text);
  }

  /** Find returns the decoded rows when every row scans and rows.Close succeeds. */
  lemma FoundAllRows(t: Schema.ModelType, names: seq<string>, cursor: Cursor)
    requires forall i :: 0 <= i < |cursor.rows| ==> cursor.rows[i].Ok?
    requires cursor.closeError.None?
    ensures Found(t, names, Ok(cursor)).failure.None?
    ensures |Found(t, names, Ok(cursor)).items| == |cursor.rows|
    ensures forall i :: 0 <= i < |cursor.rows| ==>
              Found(t, names, Ok(cursor)).items[i] == Decode(t, names, cursor.rows[i].value)
  {
    ScanAllRows(t, names, cursor.rows);
  }

  /** First: NotFound when the query yields no row, the first row's record when all rows scan. */
  lemma FirstOfRows(t: Schema.ModelType, names: seq<string>, cursor: Cursor)
    requires forall i :: 0 <= i < |cursor.rows| ==> cursor.rows[i].Ok?
    requires cursor.closeError.None?
    ensures |cursor.rows| == 0 ==> FirstOf(Found(t, names, Ok(cursor))) == Err(NotFound)
    ensures |cursor.rows| > 0 ==> FirstOf(Found(t, names, Ok(cursor))) == Ok(Decode(t, names, cursor.rows[0].value))
  {
    FoundAllRows(t, names, cursor);
  }

  /** Find's loop over the result rows: decode and append each row; a Scan error stops it; then rows.Close. */
  method Collect(t: Schema.ModelType, names: seq<string>, into: seq<Schema.Object>, cursor: Cursor)
    returns (items: seq<Schema.Object>, err: Option<Error>)
    ensures items == into + Found(t, names, Ok(cursor)).items
    ensures err == Found(t, names, Ok(cursor)).failure
  {
    var rows := cursor.rows;
    items := into;
    var i := 0;
    while i < |rows|
      invariant 0 <= i <= |rows|
      invariant ScanRows(t, names, rows[..i]).failure.None?
      invariant items == into + ScanRows(t, names, rows[..i]).items
    {
      assert rows[..i + 1][..i] == rows[..i];
      match rows[i]
      case Err(e) =>
        ScanFailureSticks(t, names, rows, i + 1);
        return items, Some(e);
      case Ok(cells) =>
        items := items + [Decode(t, names, cells)];
      i := i + 1;
    }
    assert rows[..i] == rows;
    err := cursor.closeError;
  }

  /**
   * The engine of every record session: the raw buffer, the clause state, the
   * cached schema, and the handle statements go to.
   */
  class Session {
    const db: Conn
    var tx: Conn?
    const dialect: Dialect.Dialect
    var refTable: Option<Schema.Schema>
    var sql: string
    var sqlValues: seq<Value>
    var clause: Clause.Clause

    /** The cached schema is the one its model type parses to. */
    ghost predicate Valid()
      reads this
    {
      refTable.Some? ==> Schema.Resolve(refTable.value.model, dialect) == Ok(refTable.value)
    }

    /** Nothing buffered and no clause set. */
    ghost predicate Cleared()
      reads this
    {
      sql == "" && sqlValues == [] && clause == Clause.Empty
    }

    /** NewSession: an empty buffer, no clause, no transaction and no cached schema. */
    constructor NewSession(db: Conn, dialect: Dialect.Dialect)
      ensures this.db == db && this.dialect == dialect
      ensures tx == null && refTable == None
      ensures Cleared() && Valid()
    {
      this.db := db;
      this.dialect := dialect;
      tx := null;
      refTable := None;
      sql := "";
      sqlValues := [];
      clause := Clause.Empty;
    }

    /** Where statements go: the transaction when one is open, the database otherwise. */
    function DB(): (c: Conn)
      reads this
      ensures tx != null ==> c == tx
      ensures tx == null ==> c == db
    {
      if tx != null then tx else db
    }

    /** RefTable: the cached schema; every caller dereferences it, so no cached schema is a panic. */
    function RefTable(): (r: Result<Schema.Schema>)
      reads this
      ensures r.Ok? <==> refTable.Some?
      ensures r.Ok? ==> refTable == Some(r.value)
      ensures r.Err? ==> r.error == NilDereference
    {
      if refTable.Some? then Ok(refTable.value) else Err(NilDereference)
    }

    method Clear()
      modifies this
      ensures Cleared()
      ensures tx == old(tx) && refTable == old(refTable)
    {
      sql := "";
      sqlValues := [];
      clause := Clause.Empty;
    }

    /** Raw: append the text and one space to the buffer, and the values to the parameters. */
    method Raw(text: string, values: seq<Value>) returns (self: Session)
      modifies this
      ensures self == this
      ensures sql == old(sql) + text + " " && sqlValues == old(sqlValues) + values
      ensures tx == old(tx) && refTable == old(refTable) && clause == old(clause)
    {
      sql := sql + text + " ";
      sqlValues := sqlValues + values;
      self := this;
    }

    /** Send the buffered statement to DB() and clear the session, as the deferred Clear does. */
    method Run()
      modifies this, DB()
      ensures DB() == old(DB()) && tx == old(tx) && refTable == old(refTable)
      ensures DB().received == old(DB().received) + [Sql(old(sql), old(sqlValues))]
      ensures Cleared()
    {
      var conn := DB();
      conn.Receive(Sql(sql, sqlValues));
      Clear();
    }

    /** Exec: run the buffer; the executor's reply (rows affected, or its error) is passed back. */
    method Exec(reply: Result<int>) returns (r: Result<int>)
      modifies this, DB()
      ensures DB() == old(DB()) && tx == old(tx) && refTable == old(refTable)
      ensures DB().received == old(DB().received) + [Sql(old(sql), old(sqlValues))]
      ensures Cleared() && r == reply
    {
      Run();
      r := reply;
    }

    /** QueryRow: run the buffer; what scanning the row yields is passed back. */
    method QueryRow<R>(reply: R) returns (row: R)
      modifies this, DB()
      ensures DB() == old(DB()) && tx == old(tx) && refTable == old(refTable)
      ensures DB().received == old(DB().received) + [Sql(old(sql), old(sqlValues))]
      ensures Cleared() && row == reply
    {
      Run();
      row := reply;
    }

    /** QueryRows: run the buffer; the cursor (or the query's error) is passed back. */
    method QueryRows(reply: Result<Cursor>) returns (rows: Result<Cursor>)
      modifies this, DB()
      ensures DB() == old(DB()) && tx == old(tx) && refTable == old(refTable)
      ensures DB().received == old(DB().received) + [Sql(old(sql), old(sqlValues))]
      ensures Cleared() && rows == reply
    {
      Run();
      rows := reply;
    }

    /**
     * Model: parse the model type unless the cached schema was parsed from
     * that same type; a type the dialect cannot map panics and leaves the
     * cache as it was.
     */
    method Model(t: Schema.ModelType) returns (r: Result<Session>)
      requires Valid()
      modifies this
      ensures Valid()
      ensures r.Ok? <==> Schema.Resolve(t, dialect).Ok?
      ensures r.Ok? ==> r.value == this && refTable == Some(Schema.Resolve(t, dialect).value)
      ensures r.Err? ==> r.error == Schema.Resolve(t, dialect).error && refTable == old(refTable)
      ensures old(refTable).Some? && old(refTable).value.model == t ==> refTable == old(refTable)
      ensures tx == old(tx) && sql == old(sql) && sqlValues == old(sqlValues) && clause == old(clause)
    {
      if refTable.None? || refTable.value.model != t {
        var parsed := Schema.Parse(t, dialect);
        if parsed.Err? {
          return Err(parsed.error);
        }
        Schema.ResolveColumns(t, dialect);
        refTable := Some(parsed.value);
      }
      r := Ok(this);
    }

    /** CreateTable: one "Name Type Tag" column per field, in Fields order. */
    method CreateTable(reply: Result<int>) returns (err: Option<Error>)
      modifies this, DB()
      ensures tx == old(tx) && refTable == old(refTable)
      ensures old(refTable).None? ==> err == Some(NilDereference) && DB().received == old(DB().received)
      ensures old(refTable).Some? ==>
                && DB().received == old(DB().received) + [Pending(old(sql), old(sqlValues), Sql(CreateTableSql(old(refTable).value), []))]
                && Cleared()
                && err == (if reply.Err? then Some(reply.error) else None)
    {
      var table := RefTable();
      if table.Err? {
        return Some(table.error);
      }
      var fields := table.value.fields;
      var columns: seq<string> := [];
      var i := 0;
      while i < |fields|
        invariant 0 <= i <= |fields|
        invariant columns == ColumnDefs(fields)[..i]
      {
        columns := columns + [fields[i].name + " " + fields[i].typ + " " + fields[i].tag];
        i := i + 1;
      }
      assert columns == ColumnDefs(fields);
      var desc := Join(columns, ",");
      var _ := Raw("CREATE TABLE IF NOT EXISTS " + table.value.name + " (" + desc + ") ;", []);
      var result := Exec(reply);
      err := if result.Err? then Some(result.error) else None;
    }

    /** DropTable. */
    method DropTable(reply: Result<int>) returns (err: Option<Error>)
      modifies this, DB()
      ensures tx == old(tx) && refTable == old(refTable)
      ensures old(refTable).None? ==> err == Some(NilDereference) && DB().received == old(DB().received)
      ensures old(refTable).Some? ==>
                && DB().received == old(DB().received) + [Pending(old(sql), old(sqlValues), Sql(DropTableSql(old(refTable).value.name), []))]
                && Cleared()
                && err == (if reply.Err? then Some(reply.error) else None)
    {
      var table := RefTable();
      if table.Err? {
        return Some(table.error);
      }
      var _ := Raw("DROP TABLE IF EXISTS " + table.value.name + " ;", []);
      var result := Exec(reply);
      err := if result.Err? then Some(result.error) else None;
    }

    /**
     * HasTable: run the dialect's table-existence query and compare the name
     * it scans with the table's name. A failed Scan leaves the name empty, so
     * it then answers whether the table's name is empty.
     */
    method HasTable(reply: Result<string>) returns (r: Result<bool>)
      modifies this, DB()
      ensures tx == old(tx) && refTable == old(refTable)
      ensures old(refTable).None? ==> r == Err(NilDereference) && DB().received == old(DB().received)
      ensures old(refTable).Some? ==>
                && DB().received == old(DB().received) + [Pending(old(sql), old(sqlValues), dialect.TableExistSQL(old(refTable).value.name))]
                && Cleared()
                && (reply.Ok? ==> r == Ok(reply.value == old(refTable).value.name))
                && (reply.Err? ==> r == Ok(old(refTable).value.name == ""))
    {
      var table := RefTable();
      if table.Err? {
        return Err(table.error);
      }
      var q := dialect.TableExistSQL(table.value.name);
      var _ := Raw(q.text, q.vars);
      var row := QueryRow(reply);
      var tmp := if row.Ok? then row.value else "";
      r := Ok(tmp == table.value.name);
    }
      /** Insert: one VALUES tuple per record in order; the INSERT target is re-set by each record, so the last one's table wins. */
    method Insert(records: seq<Schema.Object>, reply: Result<int>) returns (r: Result<int>)
      requires Valid()
      modifies this, DB()
      ensures Valid() && tx == old(tx)
      ensures !AllParse(records, dialect) ==>
                && r.Err? && DB().received == old(DB().received)
                && exists i :: 0 <= i < |records| && AllParse(records[..i], dialect) &&
                               Schema.Resolve(records[i].typ, dialect) == Err(r.error)
      ensures AllParse(records, dialect) ==>
                && DB().received == old(DB().received) + [Pending(old(sql), old(sqlValues), InsertStatement(old(clause), records, dialect))]
                && Cleared() && r == reply
                && (|records| > 0 ==> refTable == Some(Schema.Resolve(records[|records| - 1].typ, dialect).value))
                && (|records| == 0 ==> refTable == old(refTable))
    {
      var rows, failed := CollectRows(records);
      if failed.Some? {
        return Err(failed.value);
      }
      r := ExecInsert(rows, reply);
    }

    /** Insert's loop: parse each record's type in turn and collect its values, stopping at the first that fails. */
    method CollectRows(records: seq<Schema.Object>) returns (rows: seq<seq<Value>>, failed: Option<Error>)
      requires Valid()
      modifies this
      ensures Valid() && tx == old(tx) && sql == old(sql) && sqlValues == old(sqlValues)
      ensures failed.None? <==> AllParse(records, dialect)
      ensures failed.Some? ==>
                exists i :: 0 <= i < |records| && AllParse(records[..i], dialect) &&
                            Schema.Resolve(records[i].typ, dialect) == Err(failed.value)
      ensures failed.None? ==>
                && rows == InsertRows(records, dialect)
                && clause == InsertTarget(old(clause), records, dialect)
                && (|records| > 0 ==> refTable == Some(Schema.Resolve(records[|records| - 1].typ, dialect).value))
                && (|records| == 0 ==> refTable == old(refTable))
    {
      rows := [];
      var i := 0;
      while i < |records|
        invariant 0 <= i <= |records|
        invariant Valid() && tx == old(tx)
        invariant sql == old(sql) && sqlValues == old(sqlValues)
        invariant AllParse(records[..i], dialect)
        invariant rows == InsertRows(records[..i], dialect)
        invariant clause == InsertTarget(old(clause), records[..i], dialect)
        invariant i > 0 ==> refTable == Some(Schema.Resolve(records[i - 1].typ, dialect).value)
        invariant i == 0 ==> refTable == old(refTable)
      {
        var m := Model(records[i].typ);
        if m.Err? {
          InsertStops(records, dialect, i);
          return rows, Some(m.error);
        }
        var table := RefTable().value;
        InsertStep(old(clause), records, dialect, i);
        clause := Clause.Set(clause, Clause.InsertArgs(table.name, table.fieldNames));
        rows := rows + [Schema.RecordValues(table, records[i])];
        i := i + 1;
      }
      assert records[..i] == records;
      failed := None;
    }

    /** The end of Insert: set VALUES to the collected tuples, build INSERT then VALUES, and execute. */
    method ExecInsert(rows: seq<seq<Value>>, reply: Result<int>) returns (r: Result<int>)
      requires Valid()
      modifies this, DB()
      ensures Valid() && DB() == old(DB()) && tx == old(tx) && refTable == old(refTable)
      ensures DB().received == old(DB().received) +
                [Pending(old(sql), old(sqlValues),
                         Clause.Build(Clause.Set(old(clause), Clause.ValuesArgs(rows)), [Clause.INSERT, Clause.VALUES]))]
      ensures Cleared() && r == reply
    {
      clause := Clause.Set(clause, Clause.ValuesArgs(rows));
      var q := Clause.Build(clause, [Clause.INSERT, Clause.VALUES]);
      var _ := Raw(q.text, q.vars);
      r := Exec(reply);
    }

    /**
     * Find: SELECT the model's columns with the WHERE, ORDER BY and LIMIT set
     * before, then append one record per result row, in row order, to the
     * records already in the destination.
     */
    method Find(elem: Schema.RecordType, into: seq<Schema.Object>, reply: Result<Cursor>)
      returns (items: seq<Schema.Object>, err: Option<Error>)
      requires Valid()
      modifies this, DB()
      ensures Valid() && tx == old(tx)
      ensures Schema.Resolve(Schema.ModelType(false, elem), dialect).Err? ==>
                && items == into && DB().received == old(DB().received)
                && err == Some(Schema.Resolve(Schema.ModelType(false, elem), dialect).error)
      ensures Schema.Resolve(Schema.ModelType(false, elem), dialect).Ok? ==>
                var s := Schema.Resolve(Schema.ModelType(false, elem), dialect).value;
                var f := Found(Schema.ModelType(false, elem), s.fieldNames, reply);
                && DB().received == old(DB().received) + [Pending(old(sql), old(sqlValues), FindQuery(old(clause), s))]
                && Cleared() && refTable == Some(s)
                && items == into + f.items && err == f.failure
    {
      var t := Schema.ModelType(false, elem);
      var m := Model(t);
      if m.Err? {
        return into, Some(m.error);
      }
      var table := RefTable().value;
      clause := Clause.Set(clause, Clause.SelectArgs(table.name, table.fieldNames));
      var q := Clause.Build(clause, Clause.FindOrder);
      var _ := Raw(q.text, q.vars);
      var rows := QueryRows(reply);
      if rows.Err? {
        assert into + Found(t, table.fieldNames, rows).items == into;
        return into, Some(rows.error);
      }
      items, err := Collect(t, table.fieldNames, into, rows.value);
    }

    /** Update: the assignments of a map, or of a flat key/value list, then WHERE if set. */
    method Update(kv: seq<Value>, order: seq<string>, reply: Result<int>) returns (r: Result<int>)
      requires Valid()
      requires UpdateMap(kv).Ok? ==> Clause.RangeOrder(UpdateMap(kv).value, order)
      modifies this, DB()
      ensures Valid() && tx == old(tx) && refTable == old(refTable)
      ensures UpdateMap(kv).Err? ==> r == Err(UpdateMap(kv).error) && DB().received == old(DB().received)
      ensures UpdateMap(kv).Ok? && old(refTable).None? ==> r == Err(NilDereference) && DB().received == old(DB().received)
      ensures UpdateMap(kv).Ok? && old(refTable).Some? ==>
                && DB().received == old(DB().received) +
                     [Pending(old(sql), old(sqlValues),
                              VerbStatement(old(clause), Clause.UpdateArgs(old(refTable).value.name, Clause.Ranged(UpdateMap(kv).value, order))))]
                && Cleared() && r == reply
    {
      var m := PairUp(kv);
      if m.Err? {
        return Err(m.error);
      }
      var table := RefTable();
      if table.Err? {
        return Err(table.error);
      }
      var assignments: Clause.GoMap := Clause.Ranged(m.value, order);
      clause := Clause.Set(clause, Clause.UpdateArgs(table.value.name, assignments));
      var q := Clause.Build(clause, [Clause.UPDATE, Clause.WHERE]);
      var _ := Raw(q.text, q.vars);
      r := Exec(reply);
    }

    /** Delete: DELETE FROM the model's table, then WHERE if set. */
    method Delete(reply: Result<int>) returns (r: Result<int>)
      requires Valid()
      modifies this, DB()
      ensures Valid() && tx == old(tx) && refTable == old(refTable)
      ensures old(refTable).None? ==> r == Err(NilDereference) && DB().received == old(DB().received)
      ensures old(refTable).Some? ==>
                && DB().received == old(DB().received) +
                     [Pending(old(sql), old(sqlValues), VerbStatement(old(clause), Clause.DeleteArgs(old(refTable).value.name)))]
                && Cleared() && r == reply
    {
      var table := RefTable();
      if table.Err? {
        return Err(table.error);
      }
      clause := Clause.Set(clause, Clause.DeleteArgs(table.value.name));
      var q := Clause.Build(clause, [Clause.DELETE, Clause.WHERE]);
      var _ := Raw(q.text, q.vars);
      r := Exec(reply);
    }

    /** Count: SELECT count(*) FROM the model's table, then WHERE if set; the scanned count is returned. */
    method Count(reply: Result<int>) returns (r: Result<int>)
      requires Valid()
      modifies this, DB()
      ensures Valid() && tx == old(tx) && refTable == old(refTable)
      ensures old(refTable).None? ==> r == Err(NilDereference) && DB().received == old(DB().received)
      ensures old(refTable).Some? ==>
                && DB().received == old(DB().received) +
                     [Pending(old(sql), old(sqlValues), VerbStatement(old(clause), Clause.CountArgs(old(refTable).value.name)))]
                && Cleared() && r == reply
    {
      var table := RefTable();
      if table.Err? {
        return Err(table.error);
      }
      clause := Clause.Set(clause, Clause.CountArgs(table.value.name));
      var q := Clause.Build(clause, [Clause.COUNT, Clause.WHERE]);
      var _ := Raw(q.text, q.vars);
      r := QueryRow(reply);
    }

    /** Limit: store LIMIT with the one bound value, replacing an earlier limit. */
    method Limit(num: int) returns (self: Session)
      modifies this
      ensures self == this && clause == Clause.Set(old(clause), Clause.LimitArgs([Int(num)]))
      ensures tx == old(tx) && refTable == old(refTable) && sql == old(sql) && sqlValues == old(sqlValues)
    {
      clause := Clause.Set(clause, Clause.LimitArgs([Int(num)]));
      self := this;
    }

    /** Where: store the predicate and its bound values, replacing an earlier WHERE. */
    method Where(desc: string, args: seq<Value>) returns (self: Session)
      modifies this
      ensures self == this && clause == Clause.Set(old(clause), Clause.WhereArgs(desc, args))
      ensures tx == old(tx) && refTable == old(refTable) && sql == old(sql) && sqlValues == old(sqlValues)
    {
      clause := Clause.Set(clause, Clause.WhereArgs(desc, args));
      self := this;
    }

    /** OrderBy: store the ordering, replacing an earlier one. */
    method OrderBy(desc: string) returns (self: Session)
      modifies this
      ensures self == this && clause == Clause.Set(old(clause), Clause.OrderByArgs(desc))
      ensures tx == old(tx) && refTable == old(refTable) && sql == old(sql) && sqlValues == old(sqlValues)
    {
      clause := Clause.Set(clause, Clause.OrderByArgs(desc));
      self := this;
    }

    /** First: Find with LIMIT 1 into a fresh destination; no row is NotFound, otherwise the first record. */
    method First(elem: Schema.RecordType, reply: Result<Cursor>) returns (r: Result<Schema.Object>)
      requires Valid()
      modifies this, DB()
      ensures Valid() && tx == old(tx)
      ensures Schema.Resolve(Schema.ModelType(false, elem), dialect).Err? ==>
                && DB().received == old(DB().received)
                && r == Err(Schema.Resolve(Schema.ModelType(false, elem), dialect).error)
      ensures Schema.Resolve(Schema.ModelType(false, elem), dialect).Ok? ==>
                var s := Schema.Resolve(Schema.ModelType(false, elem), dialect).value;
                && DB().received == old(DB().received) +
                     [Pending(old(sql), old(sqlValues), FindQuery(Clause.Set(old(clause), Clause.LimitArgs([Int(1)])), s))]
                && Cleared() && refTable == Some(s)
                && r == FirstOf(Found(Schema.ModelType(false, elem), s.fieldNames, reply))
    {
      var _ := Limit(1);
      var items, err := Find(elem, [], reply);
      if err.Some? {
        return Err(err.value);
      }
      if |items| == 0 {
        return Err(NotFound);
      }
      r := Ok(items[0]);
    }
  }
}
