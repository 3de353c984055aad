/**
 * schema/schema.go: turning a record type into a table description.
 *
 * Go reflection is replaced by an explicit description of the record type:
 * its name and its attribute declarations in order (name, Go type, whether
 * it is embedded, and its struct tag as a key-to-value map).
 */
module Schema {
  import opened Values
  import Dialect

  /** One attribute (struct field) declaration. */
  datatype Attr = Attr(name: string, typ: Dialect.GoType, anonymous: bool, tag: map<string, string>)

  /** A struct type: its declared name and its attributes in declaration order. */
  datatype RecordType = RecordType(name: string, attrs: seq<Attr>)

  /** reflect.TypeOf of a model value: the struct type itself, or a pointer to it. */
  datatype ModelType = ModelType(pointer: bool, record: RecordType)

  /** A record value (or a pointer to one): its type and the values of its attributes; an absent attribute holds its zero value. */
  datatype Object = Object(typ: ModelType, attrs: map<string, Value>)

  /** A column: attribute name, column type, `go-orm` tag. */
  datatype Field = Field(name: string, typ: string, tag: string)

  /** A table description; `model` keeps the type of the value it was parsed from. */
  datatype Schema = Schema(
    model: ModelType,
    name: string,
    fields: seq<Field>,
    fieldNames: seq<string>,
    fieldsMap: map<string, Field>)

  /** ast.IsExported: agrees with Go except on names starting with a non-ASCII upper-case letter, which Go exports and this does not. */
  predicate IsExported(name: string) {
    |name| > 0 && 'A' <= name[0] <= 'Z'
  }

  /** Parse keeps the attributes that are neither embedded nor unexported. */
  predicate Retained(a: Attr) {
    !a.anonymous && IsExported(a.name)
  }

  /** The value of the `go-orm` key of the struct tag, empty when there is none. */
  function TagOf(a: Attr): string {
    if "go-orm" in a.tag then a.tag["go-orm"] else ""
  }

  /** The schema Parse starts from, before looking at any attribute. */
  function Initial(t: ModelType): Schema {
    Schema(t, t.record.name, [], [], map[])
  }

  /** One iteration of Parse's loop over the attributes. */
  function Step(s: Schema, a: Attr, d: Dialect.Dialect): Result<Schema> {
    if !Retained(a) then Ok(s)
    else
      match d.DataTypeOf(a.typ)
      case Err(e) => Err(e)
      case Ok(ty) =>
        var f := Field(a.name, ty, TagOf(a));
        Ok(s.(fields := s.fields + [f], fieldNames := s.fieldNames + [a.name],
              fieldsMap := s.fieldsMap[a.name := f]))
  }

  /** Parse's state after the first n attributes of the type. */
  function ParsePrefix(t: ModelType, d: Dialect.Dialect, n: nat): Result<Schema>
    requires n <= |t.record.attrs|
    decreases n
  {
    if n == 0 then Ok(Initial(t))
    else
      match ParsePrefix(t, d, n - 1)
      case Err(e) => Err(e)
      case Ok(s) => Step(s, t.record.attrs[n - 1], d)
  }

  /** What Parse(dest, d) returns for a value of type t (the panic as Err). */
  function Resolve(t: ModelType, d: Dialect.Dialect): Result<Schema> {
    ParsePrefix(t, d, |t.record.attrs|)
  }

  /** Parse, the loop over the type's attributes. */
  method Parse(t: ModelType, d: Dialect.Dialect) returns (r: Result<Schema>)
    ensures r == Resolve(t, d)
  {
    var schema := Initial(t);
    var attrs := t.record.attrs;
    var i := 0;
    while i < |attrs|
      invariant 0 <= i <= |attrs|
      invariant ParsePrefix(t, d, i) == Ok(schema)
    {
      var p := attrs[i];
      if !p.anonymous && IsExported(p.name) {
        var ty := d.DataTypeOf(p.typ);
        if ty.Err? {
          assert ParsePrefix(t, d, i + 1) == Err(ty.error);
          ParsePrefixErrSticks(t, d, i + 1, |attrs|);
          return Err(ty.error);
        }
        var field := Field(p.name, ty.value, "");
        if "go-orm" in p.tag {
          field := field.(tag := p.tag["go-orm"]);
        }
        schema := schema.(fields := schema.fields + [field],
                          fieldNames := schema.fieldNames + [p.name],
                          fieldsMap := schema.fieldsMap[p.name := field]);
      }
      i := i + 1;
    }
    r := Ok(schema);
  }

  /** Once Parse fails it stays failed: the error of a prefix is the final error. */
  lemma {:induction false} ParsePrefixErrSticks(t: ModelType, d: Dialect.Dialect, n: nat, m: nat)
    requires n <= m <= |t.record.attrs|
    requires ParsePrefix(t, d, n).Err?
    ensures ParsePrefix(t, d, m) == ParsePrefix(t, d, n)
    decreases m - n
  {
    if n < m {
      ParsePrefixErrSticks(t, d, n + 1, m);
    }
  }

  /** GetField: the entry of FieldsMap for the name, None for a name it lacks. */
  function GetField(s: Schema, name: string): (r: Option<Field>)
    ensures r.Some? <==> name in s.fieldsMap
    ensures WellFormed(s) ==> (r.Some? <==> name in s.fieldNames)
    ensures WellFormed(s) ==>
              forall i :: 0 <= i < |s.fieldNames| && s.fieldNames[i] == name ==> r == Some(s.fields[i])
  {
    if name in s.fieldsMap then Some(s.fieldsMap[name]) else None
  }

  /** The attributes Parse keeps, in declaration order. */
  function RetainedAttrs(attrs: seq<Attr>): (r: seq<Attr>)
    decreases |attrs|
  {
    if |attrs| == 0 then []
    else RetainedAttrs(attrs[..|attrs| - 1]) + (if Retained(attrs[|attrs| - 1]) then [attrs[|attrs| - 1]] else [])
  }

  /** The column Parse makes of a retained attribute whose type maps to ty. */
  function FieldOf(a: Attr, ty: string): Field {
    Field(a.name, ty, TagOf(a))
  }

  /** Every attribute Parse keeps has a column type. */
  predicate AllMapped(attrs: seq<Attr>, d: Dialect.Dialect) {
    forall a :: a in attrs ==> d.DataTypeOf(a.typ).Ok?
  }

  /** No two attributes in the list share a name. */
  predicate DistinctNames(attrs: seq<Attr>) {
    forall i, j :: 0 <= i < j < |attrs| ==> attrs[i].name != attrs[j].name
  }

  /**
   * No two attributes Parse keeps share a name. Go rejects a struct that
   * repeats a non-blank field name; blank `_` fields may repeat, but they are
   * unexported, so Parse never keeps them.
   */
  predicate KeptNamesDistinct(attrs: seq<Attr>) {
    forall i, j :: 0 <= i < j < |attrs| && Retained(attrs[i]) && Retained(attrs[j]) ==> attrs[i].name != attrs[j].name
  }

  /** Fields, FieldNames and FieldsMap describe the same columns, in the same order. */
  predicate WellFormed(s: Schema) {
    && |s.fields| == |s.fieldNames|
    && (forall i :: 0 <= i < |s.fields| ==> s.fieldNames[i] == s.fields[i].name)
    && (forall i :: 0 <= i < |s.fields| ==> s.fieldNames[i] in s.fieldsMap && s.fieldsMap[s.fieldNames[i]] == s.fields[i])
    && (forall n :: n in s.fieldsMap ==> n in s.fieldNames)
  }

  lemma RetainedAttrsSubset(attrs: seq<Attr>, a: Attr)
    ensures a in RetainedAttrs(attrs) ==> a in attrs && Retained(a)
  {
    if |attrs| > 0 {
      RetainedAttrsSubset(attrs[..|attrs| - 1], a);
    }
  }

  /**
   * The whole of Parse on prefixes: it fails exactly when a kept attribute has
   * no column type, and otherwise its columns are the kept attributes in
   * declaration order, each with its mapped type and its tag.
   */
  lemma {:induction false} ParsePrefixSpec(t: ModelType, d: Dialect.Dialect, n: nat)
    requires n <= |t.record.attrs|
    ensures ParsePrefix(t, d, n).Ok? <==> AllMapped(RetainedAttrs(t.record.attrs[..n]), d)
    ensures ParsePrefix(t, d, n).Ok? ==>
              var s := ParsePrefix(t, d, n).value;
              var R := RetainedAttrs(t.record.attrs[..n]);
              && s.model == t && s.name == t.record.name
              && |s.fields| == |R| && |s.fieldNames| == |R|
              && (forall i :: 0 <= i < |R| ==>
                    s.fieldNames[i] == R[i].name && s.fields[i] == FieldOf(R[i], d.DataTypeOf(R[i].typ).value))
              && (forall k :: k in s.fieldsMap <==> k in s.fieldNames)
    decreases n
  {
    var attrs := t.record.attrs;
    if n > 0 {
      ParsePrefixSpec(t, d, n - 1);
      assert attrs[..n][..n - 1] == attrs[..n - 1];
      assert attrs[..n][n - 1] == attrs[n - 1];
      var Rp := RetainedAttrs(attrs[..n - 1]);
      var R := RetainedAttrs(attrs[..n]);
      var a := attrs[n - 1];
      assert R == Rp + (if Retained(a) then [a] else []);
      if ParsePrefix(t, d, n - 1).Ok? {
        if Retained(a) && d.DataTypeOf(a.typ).Err? {
          assert a in R;
        }
      } else {
        var b :| b in Rp && d.DataTypeOf(b.typ).Err?;
        assert b in R;
      }
    }
  }

  /** Parse accepts a type exactly when every exported, non-embedded attribute has a column type. */
  lemma ResolveOkIff(t: ModelType, d: Dialect.Dialect)
    ensures Resolve(t, d).Ok? <==> AllMapped(RetainedAttrs(t.record.attrs), d)
  {
    ParsePrefixSpec(t, d, |t.record.attrs|);
    assert t.record.attrs[..|t.record.attrs|] == t.record.attrs;
  }

  /**
   * The schema of a type: named after the (dereferenced) struct type, with one
   * column per kept attribute in declaration order, whose type is the
   * dialect's and whose tag is the `go-orm` tag value.
   */
  lemma ResolveColumns(t: ModelType, d: Dialect.Dialect)
    requires Resolve(t, d).Ok?
    ensures AllMapped(RetainedAttrs(t.record.attrs), d)
    ensures var s := Resolve(t, d).value;
            var R := RetainedAttrs(t.record.attrs);
            && s.model == t && s.name == t.record.name
            && |s.fields| == |R| && |s.fieldNames| == |R|
            && (forall i :: 0 <= i < |R| ==>
                  s.fieldNames[i] == R[i].name && s.fields[i] == FieldOf(R[i], d.DataTypeOf(R[i].typ).value))
  {
    ParsePrefixSpec(t, d, |t.record.attrs|);
    assert t.record.attrs[..|t.record.attrs|] == t.record.attrs;
  }

  lemma {:induction false} RetainedAttrsIndex(attrs: seq<Attr>, i: nat, j: nat)
    requires i < j < |RetainedAttrs(attrs)|
    ensures exists p, q :: 0 <= p < q < |attrs| && attrs[p] == RetainedAttrs(attrs)[i] && attrs[q] == RetainedAttrs(attrs)[j]
    decreases |attrs|
  {
    var init := attrs[..|attrs| - 1];
    var R := RetainedAttrs(attrs);
    var last := attrs[|attrs| - 1];
    if j < |RetainedAttrs(init)| {
      RetainedAttrsIndex(init, i, j);
      var p, q :| 0 <= p < q < |init| && init[p] == RetainedAttrs(init)[i] && init[q] == RetainedAttrs(init)[j];
      assert attrs[p] == R[i] && attrs[q] == R[j];
    } else {
      assert R[j] == last;
      RetainedAttrsSubset(init, R[i]);
      assert R[i] == RetainedAttrs(init)[i];
      var p :| 0 <= p < |init| && init[p] == R[i];
      assert attrs[p] == R[i] && attrs[|attrs| - 1] == R[j];
    }
  }

  /** When no two kept attributes share a name, the list of kept attributes has distinct names. */
  lemma RetainedDistinct(attrs: seq<Attr>)
    requires KeptNamesDistinct(attrs)
    ensures DistinctNames(RetainedAttrs(attrs))
  {
    var R := RetainedAttrs(attrs);
    forall i, j | 0 <= i < j < |R| ensures R[i].name != R[j].name {
      RetainedAttrsIndex(attrs, i, j);
      RetainedAttrsSubset(attrs, R[i]);
      RetainedAttrsSubset(attrs, R[j]);
      assert R[i] in R && R[j] in R;
    }
  }

  /** Fields, FieldNames and FieldsMap are filled in lockstep by Parse. */
  lemma ResolveWellFormed(t: ModelType, d: Dialect.Dialect)
    requires KeptNamesDistinct(t.record.attrs)
    requires Resolve(t, d).Ok?
    ensures WellFormed(Resolve(t, d).value)
    ensures var names := Resolve(t, d).value.fieldNames;
            forall i, j :: 0 <= i < j < |names| ==> names[i] != names[j]
  {
    var attrs := t.record.attrs;
    RetainedDistinct(attrs);
    ResolveColumns(t, d);
    forall n | 0 <= n <= |attrs| && ParsePrefix(t, d, n).Ok?
      ensures WellFormed(ParsePrefix(t, d, n).value)
    {
      PrefixWellFormed(t, d, n);
    }
  }

  /**
   * `struct { _ int; _ int; Name string }`: Go accepts the repeated blank
   * field, Parse keeps only Name, and the schema is well formed.
   */
  lemma BlankFieldsRepeat()
    ensures var attrs := [Attr("_", IntType, false, map[]), Attr("_", IntType, false, map[]), Attr("Name", StringType, false, map[])];
            var t := ModelType(false, RecordType("Blanks", attrs));
            && !DistinctNames(attrs) && KeptNamesDistinct(attrs)
            && Resolve(t, Dialect.MySQL).Ok? && WellFormed(Resolve(t, Dialect.MySQL).value)
            && Resolve(t, Dialect.MySQL).value.fieldNames == ["Name"]
  {
    var blank := Attr("_", IntType, false, map[]);
    var name := Attr("Name", StringType, false, map[]);
    var attrs := [blank, blank, name];
    var t := ModelType(false, RecordType("Blanks", attrs));
    assert "_"[0] == '_' && "Name"[0] == 'N';
    assert !Retained(blank) && Retained(name);
    assert RetainedAttrs([blank]) == [] by {
      assert [blank][..0] == [];
    }
    assert RetainedAttrs([blank, blank]) == [] by {
      assert [blank, blank][..1] == [blank];
    }
    assert RetainedAttrs(attrs) == [name] by {
      assert attrs[..2] == [blank, blank];
    }
    assert Dialect.Dialect.MySQL.DataTypeOf(name.typ) == Ok("VARCHAR(255)");
    assert AllMapped(RetainedAttrs(attrs), Dialect.MySQL);
    ResolveOkIff(t, Dialect.MySQL);
    ResolveColumns(t, Dialect.MySQL);
    ResolveWellFormed(t, Dialect.MySQL);
  }

  lemma {:induction false} PrefixWellFormed(t: ModelType, d: Dialect.Dialect, n: nat)
    requires KeptNamesDistinct(t.record.attrs)
    requires n <= |t.record.attrs|
    requires ParsePrefix(t, d, n).Ok?
    ensures WellFormed(ParsePrefix(t, d, n).value)
    ensures forall k :: k in ParsePrefix(t, d, n).value.fieldNames ==>
              exists p :: 0 <= p < n && Retained(t.record.attrs[p]) && t.record.attrs[p].name == k
    decreases n
  {
    if n > 0 {
      PrefixWellFormed(t, d, n - 1);
      var s := ParsePrefix(t, d, n - 1).value;
      var a := t.record.attrs[n - 1];
      if Retained(a) {
        var s' := ParsePrefix(t, d, n).value;
        assert a.name !in s.fieldNames;
        forall k | k in s'.fieldNames ensures exists p :: 0 <= p < n && Retained(t.record.attrs[p]) && t.record.attrs[p].name == k {
          if k != a.name {
            assert k in s.fieldNames;
          }
        }
      }
    }
  }

  /** RecordValues: the object's attribute values in FieldNames order. */
  function RecordValues(s: Schema, obj: Object): (r: seq<Value>)
    ensures |r| == |s.fieldNames|
    ensures forall i :: 0 <= i < |r| ==>
              r[i] == if s.fieldNames[i] in obj.attrs then obj.attrs[s.fieldNames[i]] else Null
  {
    seq(|s.fieldNames|, i requires 0 <= i < |s.fieldNames| =>
      if s.fieldNames[i] in obj.attrs then obj.attrs[s.fieldNames[i]] else Null)
  }

  // The User struct of schema/schema_test.go.
  const StringType := Dialect.GoType(Dialect.String, "", "string")
  const IntType := Dialect.GoType(Dialect.Kind.Int, "", "int")
  const UserRecord := RecordType("User", [
    Attr("Name", StringType, false, map["go-orm" := "PRIMARY KEY"]),
    Attr("Age", IntType, false, map[])])

  /** Parse(&User{}) is named "User", has two columns and tags Name with PRIMARY KEY. */
  lemma ParseUser()
    ensures Resolve(ModelType(true, UserRecord), Dialect.MySQL).Ok?
    ensures var s := Resolve(ModelType(true, UserRecord), Dialect.MySQL).value;
            && s.name == "User" && |s.fields| == 2
            && s.fieldNames == ["Name", "Age"]
            && GetField(s, "Name").Some? && GetField(s, "Name").value.tag == "PRIMARY KEY"
            && s.fields == [Field("Name", "VARCHAR(255)", "PRIMARY KEY"), Field("Age", "INT", "")]
  {
    var t := ModelType(true, UserRecord);
    var name := UserRecord.attrs[0];
    assert Retained(name) && TagOf(name) == "PRIMARY KEY";
    assert Dialect.Dialect.MySQL.DataTypeOf(name.typ) == Ok("VARCHAR(255)");
    var age := UserRecord.attrs[1];
    assert Retained(age) && TagOf(age) == "";
    assert Dialect.Dialect.MySQL.DataTypeOf(age.typ) == Ok("INT");
    assert ParsePrefix(t, Dialect.MySQL, 0) == Ok(Initial(t));
    var s1 := ParsePrefix(t, Dialect.MySQL, 1);
    assert t.record.attrs[0] == name && t.record.attrs[1] == age;
    assert s1 == Step(Initial(t), name, Dialect.MySQL);
    var f := Field("Name", "VARCHAR(255)", "PRIMARY KEY");
    assert Step(Initial(t), name, Dialect.MySQL).Ok?;
    assert Step(Initial(t), name, Dialect.MySQL).value.fields == [f];
    assert Step(Initial(t), name, Dialect.MySQL).value.fieldNames == ["Name"];
    assert Step(Initial(t), name, Dialect.MySQL).value.fieldsMap == map["Name" := f];
    assert s1 == Ok(Schema(t, "User", [Field("Name", "VARCHAR(255)", "PRIMARY KEY")], ["Name"],
                           map["Name" := Field("Name", "VARCHAR(255)", "PRIMARY KEY")]));
  }
}
