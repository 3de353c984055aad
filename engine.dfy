/**
 * engine.go: the column difference Migrate computes between the model's
 * fields and the table's current columns, and the table rebuild Migrate
 * chains through the session buffer when columns have to go.
 */
module Engine {
  import opened Values
  import opened Text
  import Schema
  import Session

  /** The elements of a that do not occur in b, in a's order and with a's repetitions. */
  function Diff(a: seq<string>, b: seq<string>): (r: seq<string>)
    decreases |a|
  {
    if |a| == 0 then []
    else Diff(a[..|a| - 1], b) + (if a[|a| - 1] in b then [] else [a[|a| - 1]])
  }

  /** difference: collect b into a set, then keep the elements of a it does not hold. */
  method Difference(a: seq<string>, b: seq<string>) returns (diff: seq<string>)
    ensures diff == Diff(a, b)
  {
    var mb: map<string, bool> := map[];
    var i := 0;
    while i < |b|
      invariant 0 <= i <= |b|
      invariant forall x :: x in mb <==> x in b[..i]
    {
      assert b[..i + 1] == b[..i] + [b[i]];
      mb := mb[b[i] := true];
      i := i + 1;
    }
    assert b[..i] == b;
    diff := [];
    var j := 0;
    while j < |a|
      invariant 0 <= j <= |a|
      invariant diff == Diff(a[..j], b)
    {
      assert a[..j + 1][..j] == a[..j];
      if a[j] !in mb {
        diff := diff + [a[j]];
      }
      j := j + 1;
    }
    assert a[..j] == a;
  }

  /** Membership: x is in the difference exactly when it is in a and not in b. */
  lemma {:induction false} DiffMembers(a: seq<string>, b: seq<string>, x: string)
    ensures x in Diff(a, b) <==> x in a && x !in b
    decreases |a|
  {
    if |a| > 0 {
      var init := a[..|a| - 1];
      DiffMembers(init, b, x);
      assert a == init + [a[|a| - 1]];
    }
  }

  /** Order: the difference of a concatenation is the concatenation of the differences. */
  lemma {:induction false} DiffConcat(a: seq<string>, c: seq<string>, b: seq<string>)
    ensures Diff(a + c, b) == Diff(a, b) + Diff(c, b)
    decreases |c|
  {
    if |c| == 0 {
      assert a + c == a;
    } else {
      var init := c[..|c| - 1];
      var last := c[|c| - 1];
      DiffConcat(a, init, b);
      assert (a + c)[..|a + c| - 1] == a + init;
      assert (a + c)[|a + c| - 1] == last;
    }
  }

  /** Repetitions: every element of a that is kept is kept as often as it occurs in a. */
  lemma {:induction false} DiffCounts(a: seq<string>, b: seq<string>, x: string)
    ensures multiset(Diff(a, b))[x] == if x in b then 0 else multiset(a)[x]
    decreases |a|
  {
    if |a| > 0 {
      var init := a[..|a| - 1];
      DiffCounts(init, b, x);
      assert a == init + [a[|a| - 1]];
    }
  }

  /** Nothing to take away: the difference is a itself. */
  lemma {:induction false} DiffNothing(a: seq<string>)
    ensures Diff(a, []) == a
    decreases |a|
  {
    if |a| > 0 {
      DiffNothing(a[..|a| - 1]);
    }
  }

  /** Everything taken away: a minus a is empty. */
  lemma DiffSelf(a: seq<string>)
    ensures Diff(a, a) == []
  {
    if Diff(a, a) != [] {
      var x := Diff(a, a)[0];
      DiffMembers(a, a, x);
    }
  }

  /** What Migrate learns from comparing the model's fields with the table's columns. */
  datatype Plan = Plan(addCols: seq<string>, delCols: seq<string>)

  function MigratePlan(fieldNames: seq<string>, columns: seq<string>): Plan {
    Plan(Diff(fieldNames, columns), Diff(columns, fieldNames))
  }

  /** Migrate only rebuilds the table when some column has to go. */
  predicate NeedsRebuild(p: Plan) {
    |p.delCols| > 0
  }

  /**
   * Migrate adds the fields the table lacks and drops the columns the model
   * lacks; it rebuilds the table exactly when some current column is not a field.
   */
  lemma MigratePlanSpec(fieldNames: seq<string>, columns: seq<string>)
    ensures forall x :: x in MigratePlan(fieldNames, columns).addCols <==> x in fieldNames && x !in columns
    ensures forall x :: x in MigratePlan(fieldNames, columns).delCols <==> x in columns && x !in fieldNames
    ensures NeedsRebuild(MigratePlan(fieldNames, columns)) <==> exists x :: x in columns && x !in fieldNames
  {
    forall x ensures x in Diff(fieldNames, columns) <==> x in fieldNames && x !in columns {
      DiffMembers(fieldNames, columns, x);
    }
    forall x ensures x in Diff(columns, fieldNames) <==> x in columns && x !in fieldNames {
      DiffMembers(columns, fieldNames, x);
    }
    var d := Diff(columns, fieldNames);
    if |d| > 0 {
      assert d[0] in d;
    }
  }

  /** An unchanged model: nothing to add, nothing to drop. */
  lemma MigrateUnchanged(fieldNames: seq<string>)
    ensures MigratePlan(fieldNames, fieldNames) == Plan([], [])
  {
    DiffSelf(fieldNames);
  }

  // ----- the rebuild step -----

  function CopyTable(s: Schema.Schema): string {
    "CREATE TABLE tmp_" + s.name + " AS SELECT " + Join(s.fieldNames, ",") + " from " + s.name
  }

  function DropOld(s: Schema.Schema): string {
    "DROP TABLE " + s.name
  }

  function RenameCopy(s: Schema.Schema): string {
    "ALTER TABLE tmp_" + s.name + " RENAME to " + s.name
  }

  /** The one statement Migrate's rebuild sends: the three commands, as Raw chains them. */
  function RebuildAsWritten(s: Schema.Schema): string {
    CopyTable(s) + " " + DropOld(s) + " " + RenameCopy(s) + " "
  }

  /**
   * The rebuild as written: three Raw calls, then a single Exec, so the
   * executor receives one statement holding all three commands.
   */
  method Rebuild(session: Session.Session, s: Schema.Schema, reply: Result<int>) returns (r: Result<int>)
    modifies session, session.DB()
    ensures session.DB() == old(session.DB())
    ensures session.DB().received == old(session.DB().received) + [Sql(old(session.sql) + RebuildAsWritten(s), old(session.sqlValues))]
    ensures session.Cleared() && r == reply
    ensures session.tx == old(session.tx) && session.refTable == old(session.refTable)
  {
    var _ := session.Raw(CopyTable(s), []);
    var _ := session.Raw(DropOld(s), []);
    var _ := session.Raw(RenameCopy(s), []);
    assert session.sql == old(session.sql) + RebuildAsWritten(s);
    assert session.sqlValues == old(session.sqlValues);
    r := session.Exec(reply);
  }

  /** A name without ';' keeps ';' out of every rebuild command. */
  predicate Unseparated(s: Schema.Schema) {
    ';' !in s.name && forall i :: 0 <= i < |s.fieldNames| ==> ';' !in s.fieldNames[i]
  }

  lemma {:induction false} JoinKeepsOut(parts: seq<string>, sep: string, c: char)
    requires c !in sep && forall i :: 0 <= i < |parts| ==> c !in parts[i]
    ensures c !in Join(parts, sep)
    decreases |parts|
  {
    if |parts| > 1 {
      JoinKeepsOut(parts[..|parts| - 1], sep, c);
    }
  }

  /**
   * The rebuild as written sends the three commands separated by spaces only,
   * with no ';' between them: the database gets one statement that begins
   * "CREATE TABLE tmp_T AS SELECT ..." and goes on with "DROP TABLE T".
   */
  lemma RebuildIsOneStatement(s: Schema.Schema)
    requires Unseparated(s)
    ensures ';' !in RebuildAsWritten(s)
    ensures RebuildAsWritten(s) == CopyTable(s) + " " + DropOld(s) + " " + RenameCopy(s) + " "
  {
    JoinKeepsOut(s.fieldNames, ",", ';');
    var all := RebuildAsWritten(s);
    assert all == "CREATE TABLE tmp_" + s.name + " AS SELECT " + Join(s.fieldNames, ",") + " from " + s.name
                  + " " + "DROP TABLE " + s.name + " " + "ALTER TABLE tmp_" + s.name + " RENAME to " + s.name + " ";
  }

  /** The User table: the single statement the rebuild sends. */
  lemma RebuildUser()
    ensures Schema.Resolve(Schema.ModelType(true, Schema.UserRecord), Schema.Dialect.MySQL).Ok?
    ensures var s := Schema.Resolve(Schema.ModelType(true, Schema.UserRecord), Schema.Dialect.MySQL).value;
            RebuildAsWritten(s)
              == "CREATE TABLE tmp_User AS SELECT Name,Age from User DROP TABLE User ALTER TABLE tmp_User RENAME to User "
  {
    Schema.ParseUser();
    var s := Schema.Resolve(Schema.ModelType(true, Schema.UserRecord), Schema.Dialect.MySQL).value;
    assert Join(s.fieldNames, ",") == "Name,Age" by {
      assert s.fieldNames[..1] == ["Name"];
      assert Join(s.fieldNames, ",") == "Name" + "," + "Age";
    }
    RebuildUserCopy();
    RebuildUserRest();
  }

  lemma RebuildUserCopy()
    ensures "CREATE TABLE tmp_" + "User" + " AS SELECT " + "Name,Age" + " from " + "User"
            == "CREATE TABLE tmp_User AS SELECT Name,Age from User"
  {
    assert "CREATE TABLE tmp_" + "User" + " AS SELECT " == "CREATE TABLE tmp_User AS SELECT ";
  }

  lemma RebuildUserRest()
    ensures "CREATE TABLE tmp_User AS SELECT Name,Age from User" + " " + ("DROP TABLE " + "User") + " "
            + ("ALTER TABLE tmp_" + "User" + " RENAME to " + "User") + " "
            == "CREATE TABLE tmp_User AS SELECT Name,Age from User DROP TABLE User ALTER TABLE tmp_User RENAME to User "
  {
    assert "ALTER TABLE tmp_" + "User" + " RENAME to " + "User" == "ALTER TABLE tmp_User RENAME to User";
    assert "DROP TABLE " + "User" == "DROP TABLE User";
    RebuildUserJoin();
  }

  lemma RebuildUserJoin()
    ensures "CREATE TABLE tmp_User AS SELECT Name,Age from User" + " " + "DROP TABLE User" + " "
            + "ALTER TABLE tmp_User RENAME to User" + " "
            == "CREATE TABLE tmp_User AS SELECT Name,Age from User DROP TABLE User ALTER TABLE tmp_User RENAME to User "
  {
    assert "CREATE TABLE tmp_User AS SELECT Name,Age from User" + " " + "DROP TABLE User"
           == "CREATE TABLE tmp_User AS SELECT Name,Age from User DROP TABLE User";
  }

  /**
   * The rebuild as intended: copy, drop and rename run one after the other,
   * each as a statement of its own.
   */
  method RebuildSeparately(session: Session.Session, s: Schema.Schema, copied: Result<int>, dropped: Result<int>, renamed: Result<int>)
    returns (r: Result<int>)
    modifies session, session.DB()
    ensures session.DB() == old(session.DB())
    ensures var first := Sql(old(session.sql) + CopyTable(s) + " ", old(session.sqlValues));
            copied.Err? ==> session.DB().received == old(session.DB().received) + [first]
    ensures var first := Sql(old(session.sql) + CopyTable(s) + " ", old(session.sqlValues));
            copied.Ok? && dropped.Err? ==>
              session.DB().received == old(session.DB().received) + [first, Sql(DropOld(s) + " ", [])]
    ensures var first := Sql(old(session.sql) + CopyTable(s) + " ", old(session.sqlValues));
            copied.Ok? && dropped.Ok? ==>
              session.DB().received == old(session.DB().received) +
                [first, Sql(DropOld(s) + " ", []), Sql(RenameCopy(s) + " ", [])]
    ensures r == if copied.Err? then copied else if dropped.Err? then dropped else renamed
    ensures session.Cleared()
    ensures session.tx == old(session.tx) && session.refTable == old(session.refTable)
  {
    var conn := session.DB();
    var before := conn.received;
    var first := Sql(session.sql + CopyTable(s) + " ", session.sqlValues);
    var _ := session.Raw(CopyTable(s), []);
    assert session.sql == first.text && session.sqlValues == first.vars;
    r := session.Exec(copied);
    assert conn.received == before + [first];
    if r.Err? {
      return;
    }
    var _ := session.Raw(DropOld(s), []);
    assert session.sql == DropOld(s) + " " && session.sqlValues == [];
    r := session.Exec(dropped);
    var second := Sql(DropOld(s) + " ", []);
    assert conn.received == before + [first] + [second];
    assert before + [first] + [second] == before + [first, second];
    if r.Err? {
      return;
    }
    var _ := session.Raw(RenameCopy(s), []);
    assert session.sql == RenameCopy(s) + " " && session.sqlValues == [];
    r := session.Exec(renamed);
    var third := Sql(RenameCopy(s) + " ", []);
    assert conn.received == before + [first, second] + [third];
    assert before + [first, second] + [third] == before + [first, second, third];
  }
}
