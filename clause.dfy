/**
 * The clause package: one generator per clause kind (clause/generator.go),
 * the table that registers them, and the per-statement clause accumulator
 * whose Set and Build the session calls.
 *
 * A generator's untyped argument list is modelled as one variant of `Args`
 * per kind, so the shape every generator expects is fixed by its type.
 */
module Clause {
  import opened Values
  import opened Text

  /** clause.Type: the closed set of clause kinds. */
  datatype Type = INSERT | VALUES | SELECT | LIMIT | WHERE | ORDERBY | UPDATE | DELETE | COUNT

  predicate Distinct(s: seq<string>) {
    forall i, j :: 0 <= i < j < |s| ==> s[i] != s[j]
  }

  /** `order` lists every key of `entries` exactly once. */
  predicate RangeOrder(entries: map<string, Value>, order: seq<string>) {
    && Distinct(order)
    && (forall i :: 0 <= i < |order| ==> order[i] in entries)
    && (forall k :: k in entries ==> k in order)
  }

  /**
   * A Go map[string]interface{} together with the order in which `range`
   * visits it on this occasion; Go leaves that order unspecified, and every
   * order is allowed here.
   */
  datatype Ranged = Ranged(entries: map<string, Value>, order: seq<string>)
  type GoMap = m: Ranged | RangeOrder(m.entries, m.order) witness Ranged(map[], [])

  /** The arguments of each generator. */
  datatype Args =
    | InsertArgs(table: string, fields: seq<string>)
    | ValuesArgs(rows: seq<seq<Value>>)
    | SelectArgs(table: string, fields: seq<string>)
    | LimitArgs(limitVars: seq<Value>)
    | WhereArgs(desc: string, whereVars: seq<Value>)
    | OrderByArgs(desc: string)
    | UpdateArgs(table: string, assignments: GoMap)
    | DeleteArgs(table: string)
    | CountArgs(table: string)
  {
    function Kind(): Type {
      match this
      case InsertArgs(_, _) => INSERT
      case ValuesArgs(_) => VALUES
      case SelectArgs(_, _) => SELECT
      case LimitArgs(_) => LIMIT
      case WhereArgs(_, _) => WHERE
      case OrderByArgs(_) => ORDERBY
      case UpdateArgs(_, _) => UPDATE
      case DeleteArgs(_) => DELETE
      case CountArgs(_) => COUNT
    }
  }

  // ----- the generators -----

  /** genBindVars(n) for n >= 0: n placeholders separated by ", ". */
  function BindVars(n: nat): string {
    Join(Repeat("?", n), ", ")
  }

  /** genBindVars, the loop; a negative count behaves as zero. */
  method GenBindVars(num: int) returns (s: string)
    ensures s == BindVars(if num < 0 then 0 else num)
  {
    var vars: seq<string> := [];
    var i := 0;
    while i < num
      invariant 0 <= i <= (if num < 0 then 0 else num)
      invariant vars == Repeat("?", i)
    {
      vars := vars + ["?"];
      i := i + 1;
    }
    s := Join(vars, ", ");
  }

  /** _insert. */
  function Insert(table: string, fields: seq<string>): Sql {
    Sql("INSERT INTO " + table + " (" + Join(fields, ", ") + ")", [])
  }

  /**
   * The placeholder list _values writes for row i: bindStr is only computed
   * while it is still empty, so every row gets the list of the first
   * non-empty row at or before it.
   */
  function RowBinds(rows: seq<seq<Value>>, i: nat): string
    requires i < |rows|
    decreases i
  {
    var before := if i == 0 then "" else RowBinds(rows, i - 1);
    if before == "" then BindVars(|rows[i]|) else before
  }

  /** The parenthesised groups _values writes for the first n rows. */
  function Groups(rows: seq<seq<Value>>, n: nat): (g: seq<string>)
    requires n <= |rows|
    ensures |g| == n
    decreases n
  {
    if n == 0 then [] else Groups(rows, n - 1) + ["(" + RowBinds(rows, n - 1) + ")"]
  }

  /** The rows' values concatenated in row order, each row in its own order. */
  function Flatten(rows: seq<seq<Value>>): seq<Value>
    decreases |rows|
  {
    if |rows| == 0 then [] else Flatten(rows[..|rows| - 1]) + rows[|rows| - 1]
  }

  /** _values, one argument per row. */
  function ValuesSql(rows: seq<seq<Value>>): Sql {
    Sql("VALUES " + Join(Groups(rows, |rows|), ", "), Flatten(rows))
  }

  /** _values, the loop over the rows. */
  method GenValues(rows: seq<seq<Value>>) returns (sql: string, vars: seq<Value>)
    ensures Sql(sql, vars) == ValuesSql(rows)
  {
    var bindStr := "";
    sql := "VALUES ";
    vars := [];
    var i := 0;
    while i < |rows|
      invariant 0 <= i <= |rows|
      invariant bindStr == if i == 0 then "" else RowBinds(rows, i - 1)
      invariant sql == ValuesPrefix(rows, i)
      invariant vars == Flatten(rows[..i])
    {
      var v := rows[i];
      BindStep(rows, i);
      if bindStr == "" {
        bindStr := GenBindVars(|v|);
      }
      ValuesStep(rows, i);
      sql := sql + ("(" + bindStr + ")");
      if i + 1 != |rows| {
        sql := sql + ", ";
      }
      vars := vars + v;
      i := i + 1;
    }
    assert rows[..|rows|] == rows;
  }

  /** Row i's placeholder list is the previous row's, or a fresh one when that is still empty. */
  lemma BindStep(rows: seq<seq<Value>>, i: nat)
    requires i < |rows|
    ensures var before := if i == 0 then "" else RowBinds(rows, i - 1);
            RowBinds(rows, i) == if before == "" then BindVars(|rows[i]|) else before
  {
  }

  /** The text _values has written after i rows: "VALUES ", the first i groups, and ", " when more follow. */
  function ValuesPrefix(rows: seq<seq<Value>>, i: nat): string
    requires i <= |rows|
  {
    "VALUES " + Join(Groups(rows, i), ", ") + (if 0 < i < |rows| then ", " else "")
  }

  lemma ValuesStep(rows: seq<seq<Value>>, i: nat)
    requires i < |rows|
    ensures ValuesPrefix(rows, i + 1)
            == ValuesPrefix(rows, i) + ("(" + RowBinds(rows, i) + ")") + (if i + 1 != |rows| then ", " else "")
    ensures Flatten(rows[..i + 1]) == Flatten(rows[..i]) + rows[i]
  {
    var G := Groups(rows, i);
    var g := "(" + RowBinds(rows, i) + ")";
    var sep := if i + 1 != |rows| then ", " else "";
    assert Groups(rows, i + 1) == G + [g];
    assert ValuesPrefix(rows, i + 1) == "VALUES " + Join(G + [g], ", ") + sep;
    assert ValuesPrefix(rows, i) == "VALUES " + Join(G, ", ") + (if 0 < |G| then ", " else "") by {
      assert |G| == i;
    }
    assert "VALUES " + Join(G + [g], ", ") == ValuesPrefix(rows, i) + g by {
      GroupsJoinStep(G, g);
    }
    FlattenStep(rows, i);
  }

  lemma FlattenStep(rows: seq<seq<Value>>, i: nat)
    requires i < |rows|
    ensures Flatten(rows[..i + 1]) == Flatten(rows[..i]) + rows[i]
  {
    assert rows[..i + 1][..i] == rows[..i];
  }

  /** Writing one more group after "VALUES " and the groups so far. */
  lemma GroupsJoinStep(G: seq<string>, g: string)
    ensures "VALUES " + Join(G + [g], ", ")
            == "VALUES " + Join(G, ", ") + (if 0 < |G| then ", " else "") + g
  {
    JoinSnoc(G, g, ", ");
    if |G| > 0 {
      var J := Join(G, ", ");
      Assoc("VALUES ", J + ", ", g);
      Assoc("VALUES ", J, ", ");
    }
  }

  /** _select. */
  function Select(table: string, fields: seq<string>): Sql {
    Sql("SELECT " + Join(fields, ", ") + " FROM " + table, [])
  }

  /** _limit: its arguments are passed through as the parameters. */
  function Limit(vars: seq<Value>): Sql {
    Sql("LIMIT ?", vars)
  }

  /** _where: the predicate verbatim, its bound values as the parameters. */
  function Where(desc: string, vars: seq<Value>): Sql {
    Sql("WHERE " + desc, vars)
  }

  /** _orderBy. */
  function OrderBy(desc: string): Sql {
    Sql("ORDER BY " + desc, [])
  }

  /** The "k = ?" items of _update, in the order the map is visited. */
  function UpdateItems(m: GoMap): (r: seq<string>)
    ensures |r| == |m.order|
  {
    seq(|m.order|, i requires 0 <= i < |m.order| => m.order[i] + " = ?")
  }

  /** The values of _update, in the same order as its items. */
  function UpdateVars(m: GoMap): (r: seq<Value>)
    ensures |r| == |m.order|
  {
    seq(|m.order|, i requires 0 <= i < |m.order| => m.entries[m.order[i]])
  }

  /** _update. */
  function Update(table: string, m: GoMap): Sql {
    Sql("UPDATE " + table + " SET " + Join(UpdateItems(m), ", "), UpdateVars(m))
  }

  /** _update, the loop over the map. */
  method GenUpdate(table: string, m: GoMap) returns (sql: string, vars: seq<Value>)
    ensures Sql(sql, vars) == Update(table, m)
  {
    var keys: seq<string> := [];
    vars := [];
    var i := 0;
    while i < |m.order|
      invariant 0 <= i <= |m.order|
      invariant keys == UpdateItems(m)[..i]
      invariant vars == UpdateVars(m)[..i]
    {
      var key := m.order[i];
      keys := keys + [key + " = ?"];
      vars := vars + [m.entries[key]];
      i := i + 1;
    }
    assert keys == UpdateItems(m);
    assert vars == UpdateVars(m);
    sql := "UPDATE " + table + " SET " + Join(keys, ", ");
  }

  /** _delete. */
  function Delete(table: string): Sql {
    Sql("DELETE FROM " + table, [])
  }

  /** _count: a SELECT of count(*) on the table. */
  function Count(table: string): (r: Sql)
    ensures r == Select(table, ["count(*)"])
    ensures r.text == "SELECT count(*) FROM " + table && r.vars == []
  {
    Select(table, ["count(*)"])
  }

  /** The `generators` table: the generator registered for each kind, applied to its arguments. */
  function Generate(a: Args): Sql {
    match a
    case InsertArgs(t, fs) => Insert(t, fs)
    case ValuesArgs(rows) => ValuesSql(rows)
    case SelectArgs(t, fs) => Select(t, fs)
    case LimitArgs(vs) => Limit(vs)
    case WhereArgs(desc, vs) => Where(desc, vs)
    case OrderByArgs(desc) => OrderBy(desc)
    case UpdateArgs(t, m) => Update(t, m)
    case DeleteArgs(t) => Delete(t)
    case CountArgs(t) => Count(t)
  }

  /** The SQL keyword every fragment of a kind starts with. */
  function Keyword(k: Type): string {
    match k
    case INSERT => "INSERT INTO "
    case VALUES => "VALUES "
    case SELECT => "SELECT "
    case LIMIT => "LIMIT ?"
    case WHERE => "WHERE "
    case ORDERBY => "ORDER BY "
    case UPDATE => "UPDATE "
    case DELETE => "DELETE FROM "
    case COUNT => "SELECT count(*) FROM "
  }

  /**
   * Every kind has a registered generator, and the one registered for a kind
   * produces that kind's clause: its text starts with the kind's keyword.
   * INSERT, SELECT, ORDERBY, DELETE and COUNT bind no parameters; WHERE and
   * LIMIT bind exactly the values they were given.
   */
  lemma GeneratorsRegistered(a: Args)
    ensures Keyword(a.Kind()) <= Generate(a).text
    ensures a.Kind() in {INSERT, SELECT, ORDERBY, DELETE, COUNT} ==> Generate(a).vars == []
    ensures a.WhereArgs? ==> Generate(a).vars == a.whereVars
    ensures a.LimitArgs? ==> Generate(a) == Sql("LIMIT ?", a.limitVars)
  {
    match a
    case InsertArgs(t, fs) =>
      assert Generate(a).text == Keyword(INSERT) + t + " (" + Join(fs, ", ") + ")";
      Leads(Keyword(INSERT), t, " (", Join(fs, ", "), ")");
    case ValuesArgs(rows) =>
      assert Generate(a).text == Keyword(VALUES) + Join(Groups(rows, |rows|), ", ");
      Leads(Keyword(VALUES), Join(Groups(rows, |rows|), ", "), "", "", "");
    case SelectArgs(t, fs) =>
      assert Generate(a).text == Keyword(SELECT) + Join(fs, ", ") + " FROM " + t;
      Leads(Keyword(SELECT), Join(fs, ", "), " FROM ", t, "");
    case LimitArgs(vs) =>
    case WhereArgs(desc, vs) =>
      Leads(Keyword(WHERE), desc, "", "", "");
    case OrderByArgs(desc) =>
      Leads(Keyword(ORDERBY), desc, "", "", "");
    case UpdateArgs(t, m) =>
      assert Generate(a).text == Keyword(UPDATE) + t + " SET " + Join(UpdateItems(m), ", ");
      Leads(Keyword(UPDATE), t, " SET ", Join(UpdateItems(m), ", "), "");
    case DeleteArgs(t) =>
      Leads(Keyword(DELETE), t, "", "", "");
    case CountArgs(t) =>
      Leads(Keyword(COUNT), t, "", "", "");
  }

  /** Text written left to right after a keyword starts with that keyword. */
  lemma Leads(k: string, a: string, b: string, c: string, d: string)
    ensures k <= k + a + b + c + d
    ensures k <= k + a + b + c && k <= k + a + b && k <= k + a
  {
    var s := k + a + b + c + d;
    assert s[..|k|] == k;
    assert (k + a + b + c)[..|k|] == k;
    assert (k + a + b)[..|k|] == k;
    assert (k + a)[..|k|] == k;
  }


  // ----- properties of the generators -----

  /** genBindVars: exactly n placeholders, and the empty string for n == 0 only. */
  lemma {:induction false} BindVarsMarks(n: nat)
    ensures Marks(BindVars(n)) == n
    ensures BindVars(n) == "" <==> n == 0
    decreases n
  {
    NoMarks(", ");
    MarksJoin(Repeat("?", n), ", ");
    SumMarksRepeat(n);
    if n > 0 {
      BindVarsStep(n - 1);
    }
  }

  lemma {:induction false} SumMarksRepeat(n: nat)
    ensures SumMarks(Repeat("?", n)) == n
    decreases n
  {
    if n > 0 {
      assert Repeat("?", n)[..n - 1] == Repeat("?", n - 1);
      assert Marks("?") == 1 by { assert "?"[..0] == ""; }
      SumMarksRepeat(n - 1);
    }
  }

  /** One more placeholder: "?" after none, otherwise ", ?" appended. */
  lemma BindVarsStep(n: nat)
    ensures BindVars(n + 1) == if n == 0 then "?" else BindVars(n) + ", ?"
  {
    assert Repeat("?", n + 1) == Repeat("?", n) + ["?"];
    JoinSnoc(Repeat("?", n), "?", ", ");
  }

  /** When the first row is non-empty, every group repeats the first row's placeholder list. */
  lemma {:induction false} RowBindsFirstRow(rows: seq<seq<Value>>, i: nat)
    requires i < |rows| && |rows[0]| > 0
    ensures RowBinds(rows, i) == BindVars(|rows[0]|)
    decreases i
  {
    BindVarsMarks(|rows[0]|);
    if i > 0 {
      RowBindsFirstRow(rows, i - 1);
    }
  }

  /** Rows that all have n values. */
  predicate Uniform(rows: seq<seq<Value>>, n: nat) {
    forall i :: 0 <= i < |rows| ==> |rows[i]| == n
  }

  /** With rows of equal width, every group holds one placeholder per value of its row. */
  lemma RowBindsUniform(rows: seq<seq<Value>>, n: nat, i: nat)
    requires Uniform(rows, n) && i < |rows|
    ensures RowBinds(rows, i) == BindVars(n)
  {
    if n > 0 {
      RowBindsFirstRow(rows, i);
    } else {
      RowBindsAllEmpty(rows, i);
    }
  }

  lemma {:induction false} RowBindsAllEmpty(rows: seq<seq<Value>>, i: nat)
    requires Uniform(rows, 0) && i < |rows|
    ensures RowBinds(rows, i) == ""
    decreases i
  {
    BindVarsMarks(0);
    if i > 0 {
      RowBindsAllEmpty(rows, i - 1);
    }
  }

  /**
   * The VALUES text of rows that all have n values: "VALUES " followed by one
   * "(?, ..., ?)" group of n placeholders per row, separated by ", ".
   */
  lemma ValuesUniformText(rows: seq<seq<Value>>, n: nat)
    requires Uniform(rows, n)
    ensures ValuesSql(rows).text == "VALUES " + Join(Repeat("(" + BindVars(n) + ")", |rows|), ", ")
  {
    GroupsUniform(rows, n, |rows|);
  }

  lemma {:induction false} GroupsUniform(rows: seq<seq<Value>>, n: nat, k: nat)
    requires Uniform(rows, n) && k <= |rows|
    ensures Groups(rows, k) == Repeat("(" + BindVars(n) + ")", k)
    decreases k
  {
    if k > 0 {
      GroupsUniform(rows, n, k - 1);
      RowBindsUniform(rows, n, k - 1);
    }
  }

  /** The position of row i's first value among the VALUES parameters. */
  function Offset(rows: seq<seq<Value>>, i: nat): nat
    requires i <= |rows|
  {
    |Flatten(rows[..i])|
  }

  /** VALUES parameters: value j of row i sits at Offset(rows, i) + j, and there are no others. */
  lemma {:induction false} FlattenIndex(rows: seq<seq<Value>>, i: nat, j: nat)
    requires i < |rows| && j < |rows[i]|
    ensures Offset(rows, i) + j < |Flatten(rows)|
    ensures Flatten(rows)[Offset(rows, i) + j] == rows[i][j]
    ensures Offset(rows, i + 1) == Offset(rows, i) + |rows[i]|
    decreases |rows|
  {
    var init := rows[..|rows| - 1];
    assert rows[..i + 1][..i] == rows[..i];
    if i < |rows| - 1 {
      assert init[..i] == rows[..i] && init[..i + 1] == rows[..i + 1] && init[i] == rows[i];
      FlattenIndex(init, i, j);
    } else {
      assert init == rows[..i];
      assert rows[..i + 1] == rows;
    }
  }

  /** The number of VALUES parameters is the total number of row values. */
  lemma {:induction false} FlattenLength(rows: seq<seq<Value>>, n: nat)
    requires Uniform(rows, n)
    ensures |Flatten(rows)| == n * |rows|
    decreases |rows|
  {
    if |rows| > 0 {
      FlattenLength(rows[..|rows| - 1], n);
    }
  }

  /** Rows of equal width give as many placeholders as parameters. */
  lemma {:induction false} ValuesBalanced(rows: seq<seq<Value>>, n: nat)
    requires Uniform(rows, n)
    ensures Marks(ValuesSql(rows).text) == |ValuesSql(rows).vars|
    decreases |rows|
  {
    var J := Join(Groups(rows, |rows|), ", ");
    assert Marks(J) == n * |rows| by {
      NoMarks(", ");
      MarksJoin(Groups(rows, |rows|), ", ");
      GroupMarks(rows, n, |rows|);
    }
    assert |Flatten(rows)| == n * |rows| by {
      FlattenLength(rows, n);
    }
    assert Marks("VALUES " + J) == Marks(J) by {
      NoMarks("VALUES ");
      MarksConcat("VALUES ", J);
    }
  }

  lemma {:induction false} GroupMarks(rows: seq<seq<Value>>, n: nat, k: nat)
    requires Uniform(rows, n) && k <= |rows|
    ensures SumMarks(Groups(rows, k)) == n * k
  {
    GroupsUniform(rows, n, k);
    BindVarsMarks(n);
    MarksConcat("(", BindVars(n));
    MarksConcat("(" + BindVars(n), ")");
    NoMarks("(");
    NoMarks(")");
    SumMarksRepeated("(" + BindVars(n) + ")", n, k);
  }

  /** k copies of a piece with m placeholders hold m * k of them. */
  lemma {:induction false} SumMarksRepeated(g: string, m: nat, k: nat)
    requires Marks(g) == m
    ensures SumMarks(Repeat(g, k)) == m * k
    decreases k
  {
    if k > 0 {
      SumMarksRepeated(g, m, k - 1);
      assert Repeat(g, k)[..k - 1] == Repeat(g, k - 1);
      MulStep(m, k - 1);
    }
  }

  lemma MulStep(n: nat, m: nat)
    ensures n * m + n == n * (m + 1)
  {
  }

  /** A group of rows of width n holds n placeholders. */
  lemma GroupWidth(rows: seq<seq<Value>>, n: nat, i: nat)
    requires Uniform(rows, n) && i < |rows|
    ensures Marks("(" + RowBinds(rows, i) + ")") == n
  {
    RowBindsUniform(rows, n, i);
    BindVarsMarks(n);
    MarksConcat("(", BindVars(n));
    MarksConcat("(" + BindVars(n), ")");
    NoMarks("(");
    NoMarks(")");
  }

  /**
   * The code takes each group's placeholder count from the first non-empty
   * row, not from the group's own row: rows of one and two values bind three
   * parameters to two placeholders, and an empty first row yields "()".
   */
  lemma ValuesFirstRowWidth()
    ensures ValuesSql([[Int(1)], [Int(2), Int(3)]]) == Sql("VALUES (?), (?)", [Int(1), Int(2), Int(3)])
    ensures ValuesSql([[], [Int(1)]]).text == "VALUES (), (?)"
  {
    var rows := [[Int(1)], [Int(2), Int(3)]];
    BindVarsStep(0);
    BindVarsMarks(1);
    assert RowBinds(rows, 0) == "?";
    assert RowBinds(rows, 1) == "?";
    assert "(" + "?" + ")" == "(?)";
    assert Groups(rows, 1) == Groups(rows, 0) + ["(?)"];
    assert Groups(rows, 2) == Groups(rows, 1) + ["(?)"];
    assert Groups(rows, 2) == ["(?)", "(?)"];
    assert Join(["(?)", "(?)"], ", ") == "(?)" + ", " + "(?)" by {
      assert ["(?)", "(?)"][..1] == ["(?)"];
    }
    assert Flatten(rows) == [Int(1)] + [Int(2), Int(3)] by {
      assert rows[..1] == [[Int(1)]];
      assert rows[..1][..0] == [];
    }
    var rows2: seq<seq<Value>> := [[], [Int(1)]];
    BindVarsMarks(0);
    assert RowBinds(rows2, 0) == "";
    assert RowBinds(rows2, 1) == "?";
    assert "(" + "" + ")" == "()";
    assert "(" + "?" + ")" == "(?)";
    assert Groups(rows2, 1) == Groups(rows2, 0) + ["()"];
    assert Groups(rows2, 2) == Groups(rows2, 1) + ["(?)"];
    assert Groups(rows2, 2) == ["()", "(?)"];
    assert Join(["()", "(?)"], ", ") == "()" + ", " + "(?)" by {
      assert ["()", "(?)"][..1] == ["()"];
    }
  }

  lemma {:induction false} ToSetCard(s: seq<string>)
    requires Distinct(s)
    ensures |ToSet(s)| == |s|
    ensures forall x :: x in ToSet(s) <==> x in s
    decreases |s|
  {
    if |s| > 0 {
      var init := s[..|s| - 1];
      ToSetCard(init);
      assert s[|s| - 1] !in init;
      assert forall x :: x in s <==> x in init || x == s[|s| - 1];
    }
  }

  function ToSet(s: seq<string>): set<string>
    decreases |s|
  {
    if |s| == 0 then {} else ToSet(s[..|s| - 1]) + {s[|s| - 1]}
  }

  /**
   * _update pairs keys with values consistently: one "k = ?" item per map
   * entry, and the item naming a key sits at the same position as that key's
   * value in the parameters; no key is named twice.
   */
  lemma UpdatePairs(table: string, m: GoMap)
    ensures |UpdateItems(m)| == |Update(table, m).vars| == |m.entries|
    ensures forall k :: k in m.entries ==>
              exists i :: 0 <= i < |m.order| && UpdateItems(m)[i] == k + " = ?" && Update(table, m).vars[i] == m.entries[k]
    ensures forall i, j :: 0 <= i < j < |m.order| ==> m.order[i] != m.order[j]
  {
    ToSetCard(m.order);
    assert ToSet(m.order) == m.entries.Keys;
    forall k | k in m.entries
      ensures exists i :: 0 <= i < |m.order| && UpdateItems(m)[i] == k + " = ?" && Update(table, m).vars[i] == m.entries[k]
    {
      var i :| 0 <= i < |m.order| && m.order[i] == k;
      assert UpdateItems(m)[i] == k + " = ?";
    }
  }

  /** Text with no placeholder in it (a table, column or raw fragment). */
  predicate Plain(s: string) {
    Marks(s) == 0
  }

  /** All parts are placeholder-free. */
  predicate AllPlain(parts: seq<string>) {
    forall i :: 0 <= i < |parts| ==> Plain(parts[i])
  }

  /**
   * Arguments whose fragment binds one parameter per placeholder: identifiers
   * carry no "?", a WHERE predicate has as many "?" as bound values, LIMIT
   * gets one value, and VALUES rows have equal width.
   */
  predicate Aligned(a: Args) {
    match a
    case InsertArgs(t, fs) => Plain(t) && AllPlain(fs)
    case ValuesArgs(rows) => |rows| == 0 || Uniform(rows, |rows[0]|)
    case SelectArgs(t, fs) => Plain(t) && AllPlain(fs)
    case LimitArgs(vs) => |vs| == 1
    case WhereArgs(desc, vs) => Marks(desc) == |vs|
    case OrderByArgs(desc) => Plain(desc)
    case UpdateArgs(t, m) => Plain(t) && AllPlain(m.order)
    case DeleteArgs(t) => Plain(t)
    case CountArgs(t) => Plain(t)
  }

  /** Joining placeholder-free parts with ", " gives placeholder-free text. */
  lemma PlainList(parts: seq<string>)
    requires AllPlain(parts)
    ensures Plain(Join(parts, ", "))
  {
    NoMarks(", ");
    MarksJoin(parts, ", ");
    SumMarksZero(parts);
  }

  /** Every generator binds exactly one parameter per placeholder when its arguments are aligned. */
  lemma GenerateBalanced(a: Args)
    requires Aligned(a)
    ensures Marks(Generate(a).text) == |Generate(a).vars|
  {
    match a
    case InsertArgs(t, fs) =>
      PlainList(fs);
      var j := Join(fs, ", ");
      NoMarks("INSERT INTO ");
      NoMarks(" (");
      NoMarks(")");
      MarksConcat("INSERT INTO ", t);
      MarksConcat("INSERT INTO " + t, " (");
      MarksConcat("INSERT INTO " + t + " (", j);
      MarksConcat("INSERT INTO " + t + " (" + j, ")");
    case ValuesArgs(rows) =>
      if |rows| > 0 {
        ValuesBalanced(rows, |rows[0]|);
      } else {
        ValuesBalanced(rows, 0);
      }
    case SelectArgs(t, fs) =>
      SelectBalanced(t, fs);
    case LimitArgs(vs) =>
      NoMarks("LIMIT ");
      OneMark();
      MarksConcat("LIMIT ", "?");
      assert "LIMIT ?" == "LIMIT " + "?";
    case WhereArgs(desc, vs) =>
      NoMarks("WHERE ");
      MarksConcat("WHERE ", desc);
    case OrderByArgs(desc) =>
      NoMarks("ORDER BY ");
      MarksConcat("ORDER BY ", desc);
    case UpdateArgs(t, m) =>
      UpdateBalanced(t, m);
    case DeleteArgs(t) =>
      NoMarks("DELETE FROM ");
      MarksConcat("DELETE FROM ", t);
    case CountArgs(t) =>
      NoMarks("count(*)");
      SelectBalanced(t, ["count(*)"]);
  }

  lemma SelectBalanced(t: string, fs: seq<string>)
    requires Plain(t) && AllPlain(fs)
    ensures Plain(Select(t, fs).text)
  {
    PlainList(fs);
    var j := Join(fs, ", ");
    NoMarks("SELECT ");
    NoMarks(" FROM ");
    MarksConcat("SELECT ", j);
    MarksConcat("SELECT " + j, " FROM ");
    MarksConcat("SELECT " + j + " FROM ", t);
  }

  lemma UpdateBalanced(t: string, m: GoMap)
    requires Plain(t) && AllPlain(m.order)
    ensures Marks(Update(t, m).text) == |Update(t, m).vars|
  {
    var items := UpdateItems(m);
    var j := Join(items, ", ");
    NoMarks(", ");
    MarksJoin(items, ", ");
    assert Marks(" = ?") == 1 by {
      NoMarks(" = ");
      OneMark();
      MarksConcat(" = ", "?");
      assert " = ?" == " = " + "?";
    }
    forall i | 0 <= i < |items| ensures Marks(items[i]) == 1 {
      MarksConcat(m.order[i], " = ?");
    }
    SumMarksOnes(items, |items|);
    assert items[..|items|] == items;
    NoMarks("UPDATE ");
    NoMarks(" SET ");
    MarksConcat("UPDATE ", t);
    MarksConcat("UPDATE " + t, " SET ");
    MarksConcat("UPDATE " + t + " SET ", j);
  }

  lemma {:induction false} SumMarksOnes(parts: seq<string>, k: nat)
    requires k <= |parts|
    requires forall i :: 0 <= i < |parts| ==> Marks(parts[i]) == 1
    ensures SumMarks(parts[..k]) == k
    decreases k
  {
    if k > 0 {
      assert parts[..k][..k - 1] == parts[..k - 1];
      SumMarksOnes(parts, k - 1);
    }
  }

  // ----- the clause accumulator -----

  /** clause.Clause: at most one argument list per kind. */
  datatype Clause = Clause(stored: map<Type, Args>)

  /** clause.Clause{}: nothing set. */
  const Empty: Clause := Clause(map[])

  /** Set: store the arguments for their kind, replacing what was stored for it. */
  function Set(c: Clause, a: Args): (r: Clause)
    ensures a.Kind() in r.stored && r.stored[a.Kind()] == a
    ensures forall k :: k != a.Kind() ==> (k in r.stored <==> k in c.stored)
    ensures forall k :: k != a.Kind() && k in c.stored ==> r.stored[k] == c.stored[k]
  {
    Clause(c.stored[a.Kind() := a])
  }

  /** The fragment Build takes from one kind: its generated SQL if the kind is set, nothing otherwise. */
  function Fragment(c: Clause, k: Type): seq<Sql> {
    if k in c.stored then [Generate(c.stored[k])] else []
  }

  /** The fragments Build produces: one per requested kind that is set, in the requested order. */
  function Produced(c: Clause, kinds: seq<Type>): seq<Sql>
    decreases |kinds|
  {
    if |kinds| == 0 then []
    else Produced(c, kinds[..|kinds| - 1]) + Fragment(c, kinds[|kinds| - 1])
  }

  function Texts(fs: seq<Sql>): (r: seq<string>)
    ensures |r| == |fs|
    decreases |fs|
  {
    if |fs| == 0 then [] else Texts(fs[..|fs| - 1]) + [fs[|fs| - 1].text]
  }

  function AllVars(fs: seq<Sql>): seq<Value>
    decreases |fs|
  {
    if |fs| == 0 then [] else AllVars(fs[..|fs| - 1]) + fs[|fs| - 1].vars
  }

  /** Build: the produced fragments joined by one space, their parameters concatenated in the same order. */
  function Build(c: Clause, kinds: seq<Type>): Sql {
    var fs := Produced(c, kinds);
    Sql(Join(Texts(fs), " "), AllVars(fs))
  }

  /** One " fragment" piece of a kind, present only when the kind is set. */
  function Optional(c: Clause, k: Type): string {
    if k in c.stored then " " + Generate(c.stored[k]).text else ""
  }

  /** The parameters of a kind, empty when the kind is not set. */
  function OptionalVars(c: Clause, k: Type): seq<Value> {
    if k in c.stored then Generate(c.stored[k]).vars else []
  }

  /** The " fragment" pieces the set kinds among `kinds` add after a leading fragment. */
  function Tail(c: Clause, kinds: seq<Type>): string
    decreases |kinds|
  {
    if |kinds| == 0 then "" else Tail(c, kinds[..|kinds| - 1]) + Optional(c, kinds[|kinds| - 1])
  }

  lemma ProducedSnoc(c: Clause, kinds: seq<Type>, k: Type)
    ensures Produced(c, kinds + [k]) == Produced(c, kinds) + Fragment(c, k)
    ensures Tail(c, kinds + [k]) == Tail(c, kinds) + Optional(c, k)
  {
    assert (kinds + [k])[..|kinds|] == kinds;
  }

  lemma SqlSnoc(fs: seq<Sql>, x: Sql)
    ensures Texts(fs + [x]) == Texts(fs) + [x.text]
    ensures AllVars(fs + [x]) == AllVars(fs) + x.vars
  {
    assert (fs + [x])[..|fs|] == fs;
  }

  /** Requesting one more kind appends that kind's parameters, if it is set. */
  lemma BuildVarsSnoc(c: Clause, kinds: seq<Type>, k: Type)
    ensures Build(c, kinds + [k]).vars == Build(c, kinds).vars + OptionalVars(c, k)
  {
    ProducedSnoc(c, kinds, k);
    var P := Produced(c, kinds);
    if k in c.stored {
      SqlSnoc(P, Generate(c.stored[k]));
    } else {
      assert P + Fragment(c, k) == P;
    }
  }

  /**
   * Build with a set kind first: that kind's fragment, then " " and the
   * fragment of each later kind that is set, in the requested order, with the
   * parameters in the same order. Unset kinds contribute nothing at all.
   */
  lemma {:induction false} BuildLeading(c: Clause, k: Type, kinds: seq<Type>)
    requires k in c.stored
    ensures Build(c, [k] + kinds).text == Generate(c.stored[k]).text + Tail(c, kinds)
    ensures Build(c, [k] + kinds).vars == Generate(c.stored[k]).vars + Build(c, kinds).vars
    ensures |Produced(c, [k] + kinds)| > 0
    decreases |kinds|
  {
    if |kinds| == 0 {
      assert [k] + kinds == [k];
      LeadingAlone(c, k);
    } else {
      var init := kinds[..|kinds| - 1];
      var last := kinds[|kinds| - 1];
      BuildLeading(c, k, init);
      assert kinds == init + [last];
      assert [k] + kinds == ([k] + init) + [last];
      LeadingSnoc(c, k, init, last);
    }
  }

  /** A set kind built alone: exactly its generator's output. */
  lemma LeadingAlone(c: Clause, k: Type)
    requires k in c.stored
    ensures Build(c, [k]).text == Generate(c.stored[k]).text + Tail(c, [])
    ensures Build(c, [k]).vars == Generate(c.stored[k]).vars + Build(c, []).vars
    ensures |Produced(c, [k])| > 0
  {
    var g := Generate(c.stored[k]);
    ProducedSnoc(c, [], k);
    assert [] + [k] == [k];
    assert Produced(c, [k]) == [g];
    SqlSnoc([], g);
    assert Texts([g]) == [g.text];
    assert Build(c, []) == Sql("", []);
  }

  /** One more requested kind after a set leading kind: the step of BuildLeading. */
  lemma LeadingSnoc(c: Clause, k: Type, init: seq<Type>, last: Type)
    requires k in c.stored
    requires Build(c, [k] + init).text == Generate(c.stored[k]).text + Tail(c, init)
    requires Build(c, [k] + init).vars == Generate(c.stored[k]).vars + Build(c, init).vars
    requires |Produced(c, [k] + init)| > 0
    ensures Build(c, ([k] + init) + [last]).text == Generate(c.stored[k]).text + Tail(c, init + [last])
    ensures Build(c, ([k] + init) + [last]).vars == Generate(c.stored[k]).vars + Build(c, init + [last]).vars
    ensures |Produced(c, ([k] + init) + [last])| > 0
  {
    var g := Generate(c.stored[k]);
    ProducedSnoc(c, [k] + init, last);
    ProducedSnoc(c, init, last);
    BuildVarsSnoc(c, [k] + init, last);
    BuildVarsSnoc(c, init, last);
    var P := Produced(c, [k] + init);
    if last in c.stored {
      var x := Generate(c.stored[last]);
      SqlSnoc(P, x);
      JoinSnoc(Texts(P), x.text, " ");
      Assoc(g.text, Tail(c, init), " " + x.text);
      Assoc(Join(Texts(P), " "), " ", x.text);
      Assoc(g.vars, Build(c, init).vars, x.vars);
    } else {
      assert P + Fragment(c, last) == P;
    }
  }

  /** Kinds that are not requested do not matter: setting one changes no Build that leaves it out. */
  lemma BuildIgnoresUnrequested(c: Clause, a: Args, kinds: seq<Type>)
    requires a.Kind() !in kinds
    ensures Build(Set(c, a), kinds) == Build(c, kinds)
  {
    ProducedIgnores(c, a, kinds);
  }

  lemma {:induction false} ProducedIgnores(c: Clause, a: Args, kinds: seq<Type>)
    requires a.Kind() !in kinds
    ensures Produced(Set(c, a), kinds) == Produced(c, kinds)
    decreases |kinds|
  {
    if |kinds| > 0 {
      assert forall k :: k in kinds[..|kinds| - 1] ==> k in kinds;
      ProducedIgnores(c, a, kinds[..|kinds| - 1]);
    }
  }

  /** Nothing set: Build produces no text and no parameters. */
  lemma BuildEmpty(kinds: seq<Type>)
    ensures Build(Empty, kinds) == Sql("", [])
  {
    ProducedEmpty(kinds);
  }

  lemma {:induction false} ProducedEmpty(kinds: seq<Type>)
    ensures Produced(Empty, kinds) == []
    decreases |kinds|
  {
    if |kinds| > 0 {
      ProducedEmpty(kinds[..|kinds| - 1]);
    }
  }

  /** After a reset, a single freshly set clause builds to exactly that clause's fragment. */
  lemma BuildAfterReset(a: Args)
    ensures Build(Set(Empty, a), [a.Kind()]) == Generate(a)
  {
    var c := Set(Empty, a);
    assert [a.Kind()] == [a.Kind()] + [];
    BuildLeading(c, a.Kind(), []);
  }

  lemma {:induction false} ProducedAligned(c: Clause, kinds: seq<Type>)
    requires forall k :: k in c.stored ==> Aligned(c.stored[k])
    ensures SumMarks(Texts(Produced(c, kinds))) == |AllVars(Produced(c, kinds))|
    decreases |kinds|
  {
    if |kinds| > 0 {
      var init := kinds[..|kinds| - 1];
      var k := kinds[|kinds| - 1];
      var P := Produced(c, init);
      ProducedAligned(c, init);
      assert kinds == init + [k];
      ProducedSnoc(c, init, k);
      if k in c.stored {
        var x := Generate(c.stored[k]);
        GenerateBalanced(c.stored[k]);
        SqlSnoc(P, x);
        assert (Texts(P) + [x.text])[..|P|] == Texts(P);
      } else {
        assert P + Fragment(c, k) == P;
      }
    }
  }

  /** If every stored clause is aligned, the built statement binds one parameter per placeholder. */
  lemma BuildBalanced(c: Clause, kinds: seq<Type>)
    requires forall k :: k in c.stored ==> Aligned(c.stored[k])
    ensures Marks(Build(c, kinds).text) == |Build(c, kinds).vars|
  {
    NoMarks(" ");
    MarksJoin(Texts(Produced(c, kinds)), " ");
    ProducedAligned(c, kinds);
  }

  /** The order Find builds in. */
  const FindOrder: seq<Type> := [SELECT, WHERE, ORDERBY, LIMIT]

  /**
   * Find's statement: the SELECT, then WHERE, ORDER BY and LIMIT each only
   * when set before, each after one space; parameters in the same order.
   */
  lemma FindStatement(c: Clause, table: string, fields: seq<string>)
    ensures Build(Set(c, SelectArgs(table, fields)), FindOrder).text
            == Select(table, fields).text + (Optional(c, WHERE) + Optional(c, ORDERBY) + Optional(c, LIMIT))
    ensures Build(Set(c, SelectArgs(table, fields)), FindOrder).vars
            == OptionalVars(c, WHERE) + OptionalVars(c, ORDERBY) + OptionalVars(c, LIMIT)
  {
    var c' := Set(c, SelectArgs(table, fields));
    assert FindOrder == [SELECT] + [WHERE, ORDERBY, LIMIT];
    SetKeepsOthers(c, SelectArgs(table, fields));
    BuildLeading(c', SELECT, [WHERE, ORDERBY, LIMIT]);
    FindTail(c, c');
    FindVars(c, c');
  }

  /** Setting one kind leaves every other kind's fragment and parameters as they were. */
  lemma SetKeepsOthers(c: Clause, a: Args)
    ensures forall k :: k != a.Kind() ==> Optional(Set(c, a), k) == Optional(c, k)
    ensures forall k :: k != a.Kind() ==> OptionalVars(Set(c, a), k) == OptionalVars(c, k)
  {
  }

  /** The modifiers' text after the leading SELECT. */
  lemma FindTail(c: Clause, c': Clause)
    requires forall k :: k != SELECT ==> Optional(c', k) == Optional(c, k)
    ensures Tail(c', [WHERE, ORDERBY, LIMIT]) == Optional(c, WHERE) + Optional(c, ORDERBY) + Optional(c, LIMIT)
  {
    assert Optional(c', WHERE) == Optional(c, WHERE);
    assert Optional(c', ORDERBY) == Optional(c, ORDERBY);
    assert Optional(c', LIMIT) == Optional(c, LIMIT);
    TailThree(c', WHERE, ORDERBY, LIMIT);
  }

  lemma TailThree(c: Clause, a: Type, b: Type, d: Type)
    ensures Tail(c, [a, b, d]) == Optional(c, a) + Optional(c, b) + Optional(c, d)
  {
    assert [a, b, d][..2] == [a, b];
    assert [a, b][..1] == [a];
    assert [a][..0] == [];
    assert Tail(c, [a]) == Optional(c, a);
    assert Tail(c, [a, b]) == Tail(c, [a]) + Optional(c, b);
    assert Tail(c, [a, b, d]) == Tail(c, [a, b]) + Optional(c, d);
  }

  /** The modifiers' parameters after the leading SELECT. */
  lemma FindVars(c: Clause, c': Clause)
    requires forall k :: k != SELECT ==> OptionalVars(c', k) == OptionalVars(c, k)
    ensures Build(c', [WHERE, ORDERBY, LIMIT]).vars
            == OptionalVars(c, WHERE) + OptionalVars(c, ORDERBY) + OptionalVars(c, LIMIT)
  {
    assert OptionalVars(c', WHERE) == OptionalVars(c, WHERE);
    assert OptionalVars(c', ORDERBY) == OptionalVars(c, ORDERBY);
    assert OptionalVars(c', LIMIT) == OptionalVars(c, LIMIT);
    VarsThree(c', WHERE, ORDERBY, LIMIT);
  }

  lemma VarsThree(c: Clause, a: Type, b: Type, d: Type)
    ensures Build(c, [a, b, d]).vars == OptionalVars(c, a) + OptionalVars(c, b) + OptionalVars(c, d)
  {
    KindAfter(c, a);
    BuildVarsSnoc(c, [a], b);
    assert [a] + [b] == [a, b];
    BuildVarsSnoc(c, [a, b], d);
    assert [a, b] + [d] == [a, b, d];
  }

  /** With no modifier set, Find's statement is the bare SELECT. */
  lemma FindWithoutModifiers(table: string, fields: seq<string>)
    ensures Build(Set(Empty, SelectArgs(table, fields)), FindOrder) == Select(table, fields)
  {
    FindStatement(Empty, table, fields);
  }

  /**
   * The example Find: Where("Age > ?", 17), OrderBy("Age desc"), Limit(2) on
   * User(Name, Age).
   */
  lemma FindExample()
    ensures var c := Set(Set(Set(Empty, WhereArgs("Age > ?", [Int(17)])), OrderByArgs("Age desc")), LimitArgs([Int(2)]));
            Build(Set(c, SelectArgs("User", ["Name", "Age"])), FindOrder)
              == Sql("SELECT Name, Age FROM User WHERE Age > ? ORDER BY Age desc LIMIT ?", [Int(17), Int(2)])
  {
    var c := Set(Set(Set(Empty, WhereArgs("Age > ?", [Int(17)])), OrderByArgs("Age desc")), LimitArgs([Int(2)]));
    assert c.stored == map[WHERE := WhereArgs("Age > ?", [Int(17)]), ORDERBY := OrderByArgs("Age desc"),
                           LIMIT := LimitArgs([Int(2)])];
    FindExampleModifiers(c);
    FindExampleSelect();
    FindStatement(c, "User", ["Name", "Age"]);
    FindExampleText();
  }

  lemma FindExampleModifiers(c: Clause)
    requires c.stored == map[WHERE := WhereArgs("Age > ?", [Int(17)]), ORDERBY := OrderByArgs("Age desc"),
                             LIMIT := LimitArgs([Int(2)])]
    ensures Optional(c, WHERE) + Optional(c, ORDERBY) + Optional(c, LIMIT) == " WHERE Age > ? ORDER BY Age desc LIMIT ?"
    ensures OptionalVars(c, WHERE) + OptionalVars(c, ORDERBY) + OptionalVars(c, LIMIT) == [Int(17), Int(2)]
  {
    assert Optional(c, WHERE) == " WHERE Age > ?" by {
      assert Optional(c, WHERE) == " " + ("WHERE " + "Age > ?");
    }
    assert Optional(c, ORDERBY) == " ORDER BY Age desc" by {
      assert Optional(c, ORDERBY) == " " + ("ORDER BY " + "Age desc");
    }
    assert Optional(c, LIMIT) == " LIMIT ?" by {
      assert Optional(c, LIMIT) == " " + "LIMIT ?";
    }
    FindExampleTail();
  }

  lemma FindExampleTail()
    ensures " WHERE Age > ?" + " ORDER BY Age desc" + " LIMIT ?" == " WHERE Age > ? ORDER BY Age desc LIMIT ?"
  {
    assert " WHERE Age > ?" + " ORDER BY Age desc" == " WHERE Age > ? ORDER BY Age desc";
  }

  lemma FindExampleSelect()
    ensures Select("User", ["Name", "Age"]).text == "SELECT Name, Age FROM User"
  {
    assert Join(["Name", "Age"], ", ") == "Name" + ", " + "Age" by {
      assert ["Name", "Age"][..1] == ["Name"];
    }
  }

  lemma FindExampleText()
    ensures "SELECT Name, Age FROM User" + " WHERE Age > ? ORDER BY Age desc LIMIT ?"
            == "SELECT Name, Age FROM User WHERE Age > ? ORDER BY Age desc LIMIT ?"
  {
  }

  /** The example Update: Update({"Age": 30}) with Where("Name = ?", "Tom") on User. */
  lemma UpdateExample()
    ensures var m: GoMap := Ranged(map["Age" := Int(30)], ["Age"]);
            var c := Set(Set(Empty, WhereArgs("Name = ?", [Str("Tom")])), UpdateArgs("User", m));
            Build(c, [UPDATE, WHERE]) == Sql("UPDATE User SET Age = ? WHERE Name = ?", [Int(30), Str("Tom")])
  {
    var m: GoMap := Ranged(map["Age" := Int(30)], ["Age"]);
    var c := Set(Set(Empty, WhereArgs("Name = ?", [Str("Tom")])), UpdateArgs("User", m));
    assert c.stored == map[WHERE := WhereArgs("Name = ?", [Str("Tom")]), UPDATE := UpdateArgs("User", m)];
    assert [UPDATE, WHERE] == [UPDATE] + [WHERE];
    BuildLeading(c, UPDATE, [WHERE]);
    UpdateExampleWhere(c);
    UpdateExampleSet(m);
    UpdateExampleText();
  }

  lemma UpdateExampleWhere(c: Clause)
    requires WHERE in c.stored && c.stored[WHERE] == WhereArgs("Name = ?", [Str("Tom")])
    ensures Tail(c, [WHERE]) == " WHERE Name = ?"
    ensures Build(c, [WHERE]).vars == [Str("Tom")]
  {
    KindAfter(c, WHERE);
    var a := c.stored[WHERE];
    assert Generate(a) == Where("Name = ?", [Str("Tom")]);
    assert Optional(c, WHERE) == " " + Where("Name = ?", [Str("Tom")]).text;
    WhereNameText();
  }

  lemma WhereNameText()
    ensures " " + Where("Name = ?", [Str("Tom")]).text == " WHERE Name = ?"
  {
    assert Where("Name = ?", [Str("Tom")]).text == "WHERE " + "Name = ?";
  }

  lemma UpdateExampleSet(m: GoMap)
    requires m == Ranged(map["Age" := Int(30)], ["Age"])
    ensures Update("User", m) == Sql("UPDATE User SET Age = ?", [Int(30)])
  {
    assert "Age" + " = ?" == "Age = ?";
    assert UpdateItems(m) == ["Age = ?"];
    assert UpdateVars(m) == [Int(30)];
    assert Update("User", m).text == "UPDATE " + "User" + " SET " + "Age = ?";
  }

  lemma UpdateExampleText()
    ensures "UPDATE User SET Age = ?" + " WHERE Name = ?" == "UPDATE User SET Age = ? WHERE Name = ?"
  {
  }

  /**
   * The statement of Update, Delete and Count: the verb's own fragment, then
   * " WHERE ..." when a WHERE clause was set, with the parameters in that order.
   */
  lemma VerbWithWhere(c: Clause, a: Args)
    requires a.Kind() != WHERE
    ensures Build(Set(c, a), [a.Kind(), WHERE]).text == Generate(a).text + Optional(c, WHERE)
    ensures Build(Set(c, a), [a.Kind(), WHERE]).vars == Generate(a).vars + OptionalVars(c, WHERE)
  {
    var c' := Set(c, a);
    assert [a.Kind(), WHERE] == [a.Kind()] + [WHERE];
    BuildLeading(c', a.Kind(), [WHERE]);
    KindAfter(c', WHERE);
    SetKeepsOthers(c, a);
  }

  /** Building one kind alone: its optional fragment and its parameters. */
  lemma KindAfter(c: Clause, k: Type)
    ensures Tail(c, [k]) == Optional(c, k)
    ensures Build(c, [k]).vars == OptionalVars(c, k)
  {
    assert [k] == [] + [k];
    ProducedSnoc(c, [], k);
    BuildVarsSnoc(c, [], k);
    BuildEmpty([]);
  }

  /** Insert's statement: "INSERT INTO t (fields)", one space, then the VALUES fragment and its parameters. */
  lemma InsertWithValues(c: Clause, table: string, fields: seq<string>, rows: seq<seq<Value>>)
    ensures Build(Set(Set(c, InsertArgs(table, fields)), ValuesArgs(rows)), [INSERT, VALUES])
            == Sql(Insert(table, fields).text + " " + ValuesSql(rows).text, Flatten(rows))
  {
    var c1 := Set(c, InsertArgs(table, fields));
    var c' := Set(c1, ValuesArgs(rows));
    assert INSERT in c'.stored && c'.stored[INSERT] == InsertArgs(table, fields) by {
      assert INSERT != ValuesArgs(rows).Kind();
    }
    InsertValuesBuild(c', table, fields, rows);
  }

  lemma InsertValuesBuild(c: Clause, table: string, fields: seq<string>, rows: seq<seq<Value>>)
    requires INSERT in c.stored && c.stored[INSERT] == InsertArgs(table, fields)
    requires VALUES in c.stored && c.stored[VALUES] == ValuesArgs(rows)
    ensures Build(c, [INSERT, VALUES]) == Sql(Insert(table, fields).text + " " + ValuesSql(rows).text, Flatten(rows))
  {
    BuildTwo(c, INSERT, VALUES);
    assert Generate(c.stored[INSERT]) == Insert(table, fields);
    assert Generate(c.stored[VALUES]) == ValuesSql(rows);
  }

  /** Two set kinds: the first fragment, one space, the second, and their parameters in the same order. */
  lemma BuildTwo(c: Clause, k1: Type, k2: Type)
    requires k1 in c.stored && k2 in c.stored
    ensures Build(c, [k1, k2]).text == Generate(c.stored[k1]).text + " " + Generate(c.stored[k2]).text
    ensures Build(c, [k1, k2]).vars == Generate(c.stored[k1]).vars + Generate(c.stored[k2]).vars
  {
    ProducedTwo(c, k1, k2);
    SqlPair(Generate(c.stored[k1]), Generate(c.stored[k2]));
  }

  lemma ProducedTwo(c: Clause, k1: Type, k2: Type)
    requires k1 in c.stored && k2 in c.stored
    ensures Produced(c, [k1, k2]) == [Generate(c.stored[k1]), Generate(c.stored[k2])]
  {
    assert [k1, k2][..1] == [k1] && [k1][..0] == [];
    assert Produced(c, [k1]) == Produced(c, []) + Fragment(c, k1);
  }

  /** Two fragments joined: the first text, one space, the second; the parameters concatenated. */
  lemma SqlPair(g1: Sql, g2: Sql)
    ensures Join(Texts([g1, g2]), " ") == g1.text + " " + g2.text
    ensures AllVars([g1, g2]) == g1.vars + g2.vars
  {
    assert [g1, g2][..1] == [g1] && [g1][..0] == [];
    assert Texts([g1]) == [g1.text] && AllVars([g1]) == g1.vars;
    assert Texts([g1, g2]) == [g1.text, g2.text];
    assert [g1.text, g2.text][..1] == [g1.text];
  }

  /** Insert with no records and no INSERT clause set: the statement is the bare "VALUES " of no rows. */
  lemma InsertNothing(c: Clause)
    requires INSERT !in c.stored
    ensures Build(Set(c, ValuesArgs([])), [INSERT, VALUES]) == Sql("VALUES ", [])
  {
    var c' := Set(c, ValuesArgs([]));
    assert INSERT !in c'.stored;
    assert VALUES in c'.stored && c'.stored[VALUES] == ValuesArgs([]);
    var g := Generate(ValuesArgs([]));
    assert g == Sql("VALUES ", []) by {
      assert Groups([], 0) == [];
      assert Flatten([]) == [];
    }
    assert Produced(c', [INSERT]) == [] by {
      ProducedSnoc(c', [], INSERT);
      assert [] + [INSERT] == [INSERT];
    }
    assert Produced(c', [INSERT, VALUES]) == [g] by {
      ProducedSnoc(c', [INSERT], VALUES);
      assert [INSERT] + [VALUES] == [INSERT, VALUES];
    }
    assert Texts([g]) == [g.text] && AllVars([g]) == g.vars by {
      SqlSnoc([], g);
      assert [] + [g] == [g];
    }
  }
}
