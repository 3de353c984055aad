/**
 * The dialect package: the MySQL type mapping and table-existence query
 * (dialect/mysql.go) and the name-to-dialect registry (dialect/dialect.go).
 */
module Dialect {
  import opened Values
  import Text

  /** reflect.Kind. */
  datatype Kind =
    | Invalid | Bool
    | Int | Int8 | Int16 | Int32 | Int64
    | Uint | Uint8 | Uint16 | Uint32 | Uint64 | Uintptr
    | Float32 | Float64 | Complex64 | Complex128
    | Array | Chan | Func | Interface | Map | Pointer | Slice | String | Struct | UnsafePointer

  /** reflect.Kind.String(). */
  function KindName(k: Kind): string {
    match k
    case Invalid => "invalid"
    case Bool => "bool"
    case Int => "int"
    case Int8 => "int8"
    case Int16 => "int16"
    case Int32 => "int32"
    case Int64 => "int64"
    case Uint => "uint"
    case Uint8 => "uint8"
    case Uint16 => "uint16"
    case Uint32 => "uint32"
    case Uint64 => "uint64"
    case Uintptr => "uintptr"
    case Float32 => "float32"
    case Float64 => "float64"
    case Complex64 => "complex64"
    case Complex128 => "complex128"
    case Array => "array"
    case Chan => "chan"
    case Func => "func"
    case Interface => "interface"
    case Map => "map"
    case Pointer => "ptr"
    case Slice => "slice"
    case String => "string"
    case Struct => "struct"
    case UnsafePointer => "unsafe.Pointer"
  }

  /** A Go type as the dialect sees it: its kind, and its package path and name (empty when unnamed). */
  datatype GoType = GoType(kind: Kind, pkgPath: string, name: string)

  /** The type time.Time. */
  predicate IsTime(t: GoType) {
    t.kind == Struct && t.pkgPath == "time" && t.name == "Time"
  }

  /** The INFORMATION_SCHEMA existence query, written in its four clauses and the one placeholder. */
  const TableExistQuery: string :=
    "SELECT TABLE_NAME " + "FROM INFORMATION_SCHEMA.TABLES " + "WHERE TABLE_SCHEMA = DATABASE() " + "AND TABLE_NAME = " + "?"

  /** The Dialect interface; MySQL is its only implementation. */
  datatype Dialect = MySQL {

    /** DataTypeOf: the column type for a Go type, or the panic for a type it cannot map. */
    function DataTypeOf(t: GoType): (r: Result<string>)
      ensures r.Err? <==> !(t.kind in {Bool, Kind.Int, Int8, Int16, Int32, Int64, Uint, Uint8, Uint16,
                                       Uint32, Uint64, Uintptr, Float32, Float64, String, Array, Slice}
                            || IsTime(t))
      ensures r.Err? ==> r.error == Panic("invalid sql type " + t.name + " (" + KindName(t.kind) + ")")
    {
      match t.kind
      case Bool => Ok("BOOLEAN")
      case Int | Int8 | Int16 | Int32 | Uint | Uint8 | Uint16 | Uint32 | Uintptr => Ok("INT")
      case Int64 | Uint64 => Ok("BIGINT")
      case Float32 | Float64 => Ok("DOUBLE")
      case String => Ok("VARCHAR(255)")
      case Array | Slice => Ok("BLOB")
      case Struct =>
        if IsTime(t) then Ok("DATETIME")
        else Err(Panic("invalid sql type " + t.name + " (" + KindName(t.kind) + ")"))
      case _ => Err(Panic("invalid sql type " + t.name + " (" + KindName(t.kind) + ")"))
    }

    /** TableExistSQL: a fixed query with one placeholder, bound to the table name. */
    function TableExistSQL(tableName: string): (r: Sql)
      ensures r.vars == [Str(tableName)]
    {
      Sql(TableExistQuery, [Str(tableName)])
    }
  }

  /** The column types the mapping produces, kind by kind. */
  lemma MySQLColumnTypes(t: GoType)
    ensures t.kind == Bool ==> MySQL.DataTypeOf(t) == Ok("BOOLEAN")
    ensures t.kind in {Kind.Int, Int8, Int16, Int32, Uint, Uint8, Uint16, Uint32, Uintptr} ==>
              MySQL.DataTypeOf(t) == Ok("INT")
    ensures t.kind in {Int64, Uint64} ==> MySQL.DataTypeOf(t) == Ok("BIGINT")
    ensures t.kind in {Float32, Float64} ==> MySQL.DataTypeOf(t) == Ok("DOUBLE")
    ensures t.kind == String ==> MySQL.DataTypeOf(t) == Ok("VARCHAR(255)")
    ensures t.kind in {Array, Slice} ==> MySQL.DataTypeOf(t) == Ok("BLOB")
    ensures IsTime(t) ==> MySQL.DataTypeOf(t) == Ok("DATETIME")
    ensures t.kind == Struct && !IsTime(t) ==> MySQL.DataTypeOf(t).Err?
  {
  }

  /** The cases of dialect/mysql_test.go: a string, an int, a float64 and an []int. */
  lemma MySQLTestCases()
    ensures MySQL.DataTypeOf(GoType(String, "", "string")) == Ok("VARCHAR(255)")
    ensures MySQL.DataTypeOf(GoType(Kind.Int, "", "int")) == Ok("INT")
    ensures MySQL.DataTypeOf(GoType(Float64, "", "float64")) == Ok("DOUBLE")
    ensures MySQL.DataTypeOf(GoType(Slice, "", "")) == Ok("BLOB")
  {
  }

  /** The table-existence query holds exactly one placeholder, matching its one parameter. */
  lemma TableExistBalanced(tableName: string)
    ensures MySQL.TableExistSQL(tableName).text == TableExistQuery
    ensures Text.Marks(MySQL.TableExistSQL(tableName).text) == |MySQL.TableExistSQL(tableName).vars| == 1
  {
    var a, b, c, d := "SELECT TABLE_NAME ", "FROM INFORMATION_SCHEMA.TABLES ", "WHERE TABLE_SCHEMA = DATABASE() ", "AND TABLE_NAME = ";
    assert Text.Marks(a) == 0 by { Text.NoMarks(a); }
    assert Text.Marks(b) == 0 by { Text.NoMarks(b); }
    assert Text.Marks(c) == 0 by { Text.NoMarks(c); }
    assert Text.Marks(d) == 0 by { Text.NoMarks(d); }
    Text.OneMark();
    Text.MarksConcat(a, b);
    Text.MarksConcat(a + b, c);
    Text.MarksConcat(a + b + c, d);
    Text.MarksConcat(a + b + c + d, "?");
  }

  /**
   * The package-level dialectsMap with RegisterDialect and GetDialect.
   * Constructing it stands for running the package's init functions, which
   * register MySQL under "mysql".
   */
  class Registry {
    var dialects: map<string, Dialect>

    constructor ()
      ensures dialects == map["mysql" := MySQL]
    {
      dialects := map[];
      new;
      RegisterDialect("mysql", MySQL);
    }

    method RegisterDialect(name: string, d: Dialect)
      modifies this
      ensures GetDialect(name) == Some(d)
      ensures forall n :: n != name ==> GetDialect(n) == old(GetDialect(n))
      ensures dialects == old(dialects)[name := d]
    {
      dialects := dialects[name := d];
    }

    /** GetDialect: the dialect registered under name, or None (Go's ok == false). */
    function GetDialect(name: string): (r: Option<Dialect>)
      reads this
      ensures r.Some? <==> name in dialects
    {
      if name in dialects then Some(dialects[name]) else None
    }
  }

  /** The registry after a series of RegisterDialect calls, starting from an empty map. */
  function Registered(calls: seq<(string, Dialect)>): map<string, Dialect>
    decreases |calls|
  {
    if |calls| == 0 then map[]
    else Registered(calls[..|calls| - 1])[calls[|calls| - 1].0 := calls[|calls| - 1].1]
  }

  /**
   * Lookup after a series of registrations: a name maps to the dialect of its
   * last registration, and a name never registered is absent.
   */
  lemma {:induction false} RegisteredLastWins(calls: seq<(string, Dialect)>, name: string)
    ensures name in Registered(calls) <==> exists i :: 0 <= i < |calls| && calls[i].0 == name
    ensures forall i :: 0 <= i < |calls| && calls[i].0 == name &&
                        (forall j :: i < j < |calls| ==> calls[j].0 != name) ==>
                        Registered(calls)[name] == calls[i].1
    decreases |calls|
  {
    if |calls| > 0 {
      var init := calls[..|calls| - 1];
      RegisteredLastWins(init, name);
      if calls[|calls| - 1].0 != name {
        assert forall i :: 0 <= i < |init| ==> init[i] == calls[i];
        if name in Registered(calls) {
          var i :| 0 <= i < |init| && init[i].0 == name;
          assert calls[i].0 == name;
        }
      }
    }
  }
}
