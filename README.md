# go-orm in Dafny

This project models the core of go-orm, a small object-relational mapper for Go over MySQL. The core has five parts:

- **Dialect**: maps Go types to MySQL column types, builds the table-existence query, and keeps the name-to-dialect registry.
- **Schema**: turns a struct type into a table descriptor (name, fields, field names, a field map) and reads a record's column values.
- **Clause**: holds one generator per clause kind (INSERT, VALUES, SELECT, LIMIT, WHERE, ORDER BY, UPDATE, DELETE, COUNT) and a clause accumulator that stores each kind's arguments and builds a statement from the kinds a verb asks for, in the order it asks.
- **Session**: a SQL buffer with its bound values, the cached table (`refTable`), the accumulator and the executor (the transaction if one is open, otherwise the database).
  - Raw appends to the buffer, and Exec, QueryRow and QueryRows send it and clear the session.
  - On top of that sit the record verbs (Insert, Find, Update, Delete, Count, First, and the modifiers Limit, Where and OrderBy) and the table operations (Model, RefTable, CreateTable, DropTable, HasTable).
- **Engine**: `difference` and the column plan and table rebuild that Migrate derives from it.

Modelling choices:

- **The executor is a `Conn` object.** It records every statement (`Sql(text, vars)`) it receives. What the database answers is passed into each method as a parameter (`reply`) and handed back unchanged. So every verb that does not panic is proved to send exactly one statement and return the database's answer, and the statement itself is given exactly. A verb that panics sends nothing.
- **Go panics are `Error.Panic` results.** They come from a nil `refTable`, a type the dialect cannot map, and a bad `Update` argument list.
- **Reflection is replaced by a plain value.** A struct type is a `Schema.RecordType`: a name and a list of attributes, each with a name, whether it is embedded, its Go type and its tag. The pointer flag that `reflect.TypeOf` sees is kept alongside it in `Schema.ModelType`. A record is a `Schema.Object`: its type and a map from attribute name to value.
- **The order in which Go ranges over a map in `_update` is an input.** It is any order that lists each key once (`Clause.RangeOrder`).
- **clause/clause.go (the accumulator) is not part of this model's source files.** Its behaviour is taken from its call sites in session/record.go and from the generator registry: `Set` replaces a kind's arguments, and `Build` runs the generators of the requested kinds that are set, skips the rest, joins the fragments with one space and concatenates the parameters.
- **Schema.RecordValues is cited from its test**, schema/schema_test.go:25-35, and from its call site, session/record.go:23. Its definition is not in schema/schema.go.
- **The ValuesSql placeholder group follows the code, not the documented behaviour.** The documented behaviour gives each VALUES tuple placeholders for its own record. `_values` computes the group once, from the first row that has any value, and reuses it for every later row (clause/generator.go:54-56). `Clause.ValuesFirstRowWidth` shows the difference. For records of one type, where all rows have the same width, the two agree (`Session.InsertSameTypeText`).

## Model

| member | source | states |
|---|---|---|
| Dialect.Dialect.DataTypeOf | dialect/mysql.go:18-39 | The mapping fails exactly for kinds outside bool, the integer kinds, the float kinds, string, array, slice and time.Time. The failure is the panic "invalid sql type NAME (KIND)". |
| Dialect.MySQLColumnTypes | dialect/mysql.go:19-36 | Column types: bool gives BOOLEAN. Int, Int8-32, Uint, Uint8-32 and Uintptr give INT. Int64 and Uint64 give BIGINT. Floats give DOUBLE, string gives VARCHAR(255), array and slice give BLOB, time.Time gives DATETIME. Any other struct is an error. |
| Dialect.MySQLTestCases | dialect/mysql_test.go:14-17 | string, int, float64 and a slice get VARCHAR(255), INT, DOUBLE and BLOB. |
| Dialect.Dialect.TableExistSQL | dialect/mysql.go:42-45 | The only bound value is the table name. |
| Dialect.TableExistBalanced | dialect/mysql.go:42-45 | The text is the INFORMATION_SCHEMA query, and it holds exactly one placeholder, matching its one value. |
| Dialect.Registry.constructor | dialect/mysql.go:11-15 | After package initialisation the registry maps "mysql" to the MySQL dialect. |
| Dialect.Registry.RegisterDialect | dialect/dialect.go:14-16 | The name now maps to the dialect. Every other name's lookup is unchanged. |
| Dialect.Registry.GetDialect | dialect/dialect.go:18-21 | The lookup's ok flag is true exactly when the name is registered. |
| Dialect.RegisteredLastWins | dialect/dialect.go:5-16 | After a sequence of registrations, a name is present iff some call registered it, and it maps to the last dialect registered under it. |
| Dialect.Registered | dialect/dialect.go:14-16 | The dialect map after a sequence of RegisterDialect calls, each of which overwrites its name's entry. `RegisteredLastWins` characterises it. |
| Schema.Parse | schema/schema.go:30-63 | The attribute loop computes `Resolve` (the loop invariant ties each iteration to `ParsePrefix`). |
| Schema.ParsePrefixErrSticks | schema/schema.go:41-61 | Once an attribute's type cannot be mapped, the loop's result is that panic whatever follows. |
| Schema.ParsePrefixSpec | schema/schema.go:34-61 | Each prefix succeeds iff every retained attribute maps. Field i is then the i-th non-embedded exported attribute, with its name, mapped type and go-orm tag. The name is the struct's name, the model is the type, and the map's keys are the field names. |
| Schema.ResolveOkIff | schema/schema.go:41-49 | Parse succeeds iff every non-embedded exported attribute has a column type. |
| Schema.ResolveColumns | schema/schema.go:34-59 | A successful Parse keeps the model and the struct name. Field i is built from the i-th retained attribute. |
| Schema.RetainedAttrsSubset | schema/schema.go:45 | Every kept attribute is an attribute of the struct, neither embedded nor unexported. |
| Schema.RetainedAttrsIndex | schema/schema.go:41-45 | The kept attributes keep their relative order. |
| Schema.RetainedDistinct | schema/schema.go:41-45 | When no two kept attributes share a name, the kept list has distinct names. |
| Schema.ResolveWellFormed | schema/schema.go:57-59 | When no two kept (exported, non-embedded) attributes share a name, Fields, FieldNames and FieldsMap agree in the same order, and FieldNames has no repeats. Repeated blank `_` fields, which Go allows, are not kept, so they do not matter. |
| Schema.PrefixWellFormed | schema/schema.go:57-59 | The same agreement holds at every iteration, and every field name so far comes from a kept attribute already visited. |
| Schema.BlankFieldsRepeat | schema/schema.go:41-45 | `struct { _ int; _ int; Name string }` repeats a name yet parses to the well-formed schema with the single column Name. |
| Schema.GetField | schema/schema.go:25-27 | The lookup finds a field iff the name is in FieldsMap. On a well-formed schema that is iff the name is in FieldNames, and the field found is the field at that position. |
| Schema.RecordValues | schema/schema_test.go:25-35 | One value per field name, in FieldNames order, read from the record's attribute of that name. |
| Schema.ParseUser | schema/schema_test.go:8-23 | User parses to table "User" with fields Name VARCHAR(255) "PRIMARY KEY" and Age INT, in that order. |
| Clause.GenBindVars | clause/generator.go:25-31 | The loop produces `num` "?" joined by ", ", and nothing for a non-positive count. |
| Clause.BindVarsMarks | clause/generator.go:25-31 | genBindVars(n) holds exactly n placeholders, and is empty iff n is 0. |
| Clause.BindVarsStep | clause/generator.go:27-30 | One more variable appends ", ?" (or is "?" alone). |
| Clause.GenValues | clause/generator.go:44-66 | The loop computes `ValuesSql`: "VALUES " and one parenthesised group per row, separated by ", ", with the rows' values concatenated in order. |
| Clause.ValuesStep | clause/generator.go:51-64 | One iteration appends the row's group (with ", " when it is not the last) and the row's values. |
| Clause.RowBindsFirstRow | clause/generator.go:54-56 | When the first row has values, every row's placeholder group is sized by the first row. |
| Clause.RowBindsUniform | clause/generator.go:54-58 | Rows of equal width n each get genBindVars(n). |
| Clause.RowBindsAllEmpty | clause/generator.go:54-58 | Rows with no values get empty groups. |
| Clause.ValuesUniformText | clause/generator.go:44-66 | For rows of width n, the VALUES text is "VALUES " followed by that many "(?, …)" groups joined by ", ". |
| Clause.ValuesFirstRowWidth | clause/generator.go:54-56 | The group is computed once: rows [1],[2,3] give "VALUES (?), (?)" with three values, and rows [],[1] give "VALUES (), (?)". |
| Clause.FlattenIndex | clause/generator.go:63 | Value j of row i sits at the row's offset plus j in the flat parameter list, and offsets advance by row width. |
| Clause.FlattenLength | clause/generator.go:63 | n-wide rows give n times as many parameters as rows. |
| Clause.ValuesBalanced | clause/generator.go:44-66 | For uniform rows, the VALUES text has one placeholder per parameter. |
| Clause.GroupMarks | clause/generator.go:58 | k groups of width n hold n*k placeholders. |
| Clause.GroupWidth | clause/generator.go:58 | One "(…)" group of a uniform row holds n placeholders. |
| Clause.GenUpdate | clause/generator.go:97-108 | The loop computes `Update`: "key = ?" items in range order, joined by ", ", with the values in the same order. |
| Clause.Insert | clause/generator.go:34-41 | _insert: "INSERT INTO t (f1, f2, …)", the field names joined by ", ", binding nothing. Its keyword and parameters are proved in `GeneratorsRegistered`. |
| Clause.Select | clause/generator.go:69-75 | _select: "SELECT f1, f2, … FROM t", binding nothing. `SelectBalanced` proves it has no placeholder. |
| Clause.Limit | clause/generator.go:78-81 | _limit: "LIMIT ?", with its arguments passed through as the parameters. |
| Clause.Where | clause/generator.go:84-88 | _where: "WHERE " then the predicate verbatim, with the remaining arguments as the parameters. |
| Clause.OrderBy | clause/generator.go:91-94 | _orderBy: "ORDER BY " then the ordering, binding nothing. |
| Clause.Delete | clause/generator.go:110-114 | _delete: "DELETE FROM t", binding nothing. |
| Clause.Generate | clause/generator.go:12-23 | The `generators` table: each kind's arguments go to the generator registered for that kind. `GeneratorsRegistered` and `GenerateBalanced` state what the result is. |
| Clause.UpdatePairs | clause/generator.go:102-105 | One item and one parameter per map entry. Each key's item is "key = ?" and its parameter is the key's value, at the same position. Keys are visited once each. |
| Clause.UpdateBalanced | clause/generator.go:97-108 | With placeholder-free table and keys, UPDATE holds one placeholder per parameter. |
| Clause.Count | clause/generator.go:116-118 | _count is _select of "count(*)": "SELECT count(*) FROM table", with no parameters. |
| Clause.SelectBalanced | clause/generator.go:69-75 | With placeholder-free names, SELECT holds no placeholder. |
| Clause.GeneratorsRegistered | clause/generator.go:12-23 | Every kind has a generator, and its fragment starts with the kind's keyword. INSERT, SELECT, ORDER BY, DELETE and COUNT bind nothing. WHERE binds its values after the predicate. LIMIT is "LIMIT ?" with its values. |
| Clause.GenerateBalanced | clause/generator.go:34-118 | For well-formed arguments every generator's placeholders match its parameters one to one. |
| Clause.PlainList | clause/generator.go:37 | Joining placeholder-free names with ", " stays placeholder-free. |
| Clause.Set | session/record.go:21 | Set stores the kind's arguments, replacing earlier ones, and keeps every other kind. |
| Clause.Build | session/record.go:29 | Build: the fragments of the requested kinds that are set, in the requested order, joined by one space, with their parameters concatenated in the same order. `BuildLeading`, `FindStatement` and `VerbWithWhere` state the result for each verb. |
| Clause.ProducedSnoc | session/record.go:29 | Building one more kind appends that kind's fragment, if it is set. |
| Clause.BuildVarsSnoc | session/record.go:29 | It also appends that kind's parameters. |
| Clause.BuildLeading | session/record.go:29 | A set leading kind contributes its generator's text, followed by the other kinds' fragments each preceded by a space, and its parameters come first. |
| Clause.BuildIgnoresUnrequested | session/record.go:50 | Arguments of kinds the build does not request change nothing. |
| Clause.BuildEmpty | session/raw.go:42 | A cleared accumulator builds the empty statement. |
| Clause.BuildAfterReset | session/raw.go:42 | After a reset, setting a single kind and building it gives exactly that generator's output, so nothing leaks from the previous verb. |
| Clause.BuildBalanced | session/record.go:29 | When every stored clause is well formed, the built text holds one placeholder per parameter. |
| Clause.FindStatement | session/record.go:48-50 | Find's statement is SELECT followed by WHERE, ORDER BY and LIMIT if set, in that order, with parameters in the same order. |
| Clause.FindTail | session/record.go:50 | Setting SELECT leaves the WHERE/ORDER BY/LIMIT tail unchanged. |
| Clause.FindVars | session/record.go:50 | The tail's parameters are WHERE's, then ORDER BY's, then LIMIT's. |
| Clause.FindWithoutModifiers | session/record.go:48-50 | With no modifier set, Find sends the SELECT alone. |
| Clause.SetKeepsOthers | session/record.go:21 | Setting one kind leaves the others' fragments and parameters as they were. |
| Clause.FindExample | session/record.go:48-50 | Where("Age > ?", 17), OrderBy("Age desc") and Limit(2) give "SELECT Name, Age FROM User WHERE Age > ? ORDER BY Age desc LIMIT ?" with [17, 2]. |
| Clause.UpdateExample | session/record.go:89-90 | Update({"Age": 30}) with Where("Name = ?", "Tom") gives "UPDATE User SET Age = ? WHERE Name = ?" with [30, "Tom"]. |
| Clause.UpdateExampleSet | clause/generator.go:97-108 | A one-entry map {"Age": 30} gives "UPDATE User SET Age = ?" with [30]. |
| Clause.VerbWithWhere | session/record.go:89-90 | A verb built with WHERE is its generator's text followed by " WHERE …" if set. Its parameters are the verb's followed by WHERE's. |
| Clause.KindAfter | session/record.go:103 | Building one kind alone gives its optional fragment and parameters. |
| Clause.InsertWithValues | session/record.go:21-29 | INSERT then VALUES builds "INSERT INTO t (f, …) VALUES …", with the rows' values as parameters. |
| Clause.BuildTwo | session/record.go:29 | Two set kinds build as the first fragment, one space and the second, with their parameters in the same order. |
| Clause.InsertNothing | session/record.go:27-29 | Insert with no records sends "VALUES " alone, with no INSERT part. |
| Session.DecodeRoundTrip | session/record.go:58-64 | A row scanned into a new record by field name reads back, through RecordValues, as the same row. |
| Session.AssignPrefixAt | session/record.go:60-61 | With distinct field names, the record's attribute for field i holds cell i. |
| Session.ScanFailureSticks | session/record.go:64-67 | After a failed Scan, later rows change nothing. |
| Session.ScanAllRows | session/record.go:57-71 | With every row scanning, one record per row, in row order, and no error. |
| Session.ScanFirstFailure | session/record.go:57-71 | The first failing row's error is returned. The records before it stay, in order. |
| Session.Collect | session/record.go:57-73 | The row loop appends the decoded records to the destination. It stops at the first Scan error, and otherwise returns Close's error. |
| Session.FoundAllRows | session/record.go:57-73 | With no errors Find yields one record per row and no error. |
| Session.FirstOfRows | session/record.go:148-156 | First is NotFound for no rows, otherwise the first row's record. |
| Session.PairUp | session/record.go:80-87 | The conversion computes `UpdateMap`. |
| Session.UpdateMapErrors | session/record.go:80-86 | An empty argument list panics with index out of range. A map first argument is used as is. An even key/value list converts. An odd one panics. A first argument that is neither a map nor a string panics on the key assertion. |
| Session.PairsKey | session/record.go:84-86 | A key is in the converted map iff it stands at some even position. |
| Session.PairsValue | session/record.go:84-86 | A key maps to the value after its last occurrence. |
| Session.PairsOk | session/record.go:84-86 | An even list whose even positions are strings converts without a panic. |
| Session.PairsErrSticks | session/record.go:84-86 | A panic at one pair ends the conversion. |
| Session.OddPairs | session/record.go:84-86 | An odd-length list panics on the last value. |
| Session.CreateUserTable | session/table.go:27-41 | User's table is "CREATE TABLE IF NOT EXISTS User (Name VARCHAR(255) PRIMARY KEY,Age INT ) ;". |
| Session.CreateTableSql | session/table.go:30-37 | "CREATE TABLE IF NOT EXISTS t (…) ;", with each field written as "name type tag" and the fields joined by ",". |
| Session.DropTableSql | session/table.go:44 | "DROP TABLE IF EXISTS t ;". |
| Session.UserColumns | session/table.go:30-36 | User's column definitions joined by ",". |
| Session.InsertRowsAt | session/record.go:13-24 | Tuple i is record i's values against its own schema. |
| Session.SameTypeRows | session/record.go:13-24 | Records of one parseable type give tuples all as wide as the schema. |
| Session.SameTypeStatement | session/record.go:21-29 | For records of one type, the statement is that schema's INSERT, a space, and the VALUES of the tuples. |
| Session.InsertSameTypeText | session/record.go:21-29 | For records of one type, the statement text is "INSERT INTO T (f, …) VALUES (?, …), …" with one group per record. |
| Session.InsertSameTypeVars | session/record.go:23-29 | For n fields, record i's values start at parameter n*i, and parameter n*i+j is field j of record i. |
| Session.InsertSameTypeCount | session/record.go:23-29 | For n fields there are n times as many parameters as records. |
| Session.RowAt | clause/generator.go:63 | In rows all n wide, value j of row i is parameter n*i+j. |
| Session.FlattenUniform | clause/generator.go:63 | For uniform rows, row i starts at n*i. |
| Session.UniformOffset | clause/generator.go:63 | The offset of row i is n*i. |
| Session.InsertBalanced | session/record.go:21-31 | With placeholder-free names, the INSERT statement holds one placeholder per parameter. |
| Session.Session.NewSession | session/raw.go:32-37 | A new session keeps the database and dialect. It has no transaction and no cached table, and its buffer and clauses are empty. |
| Session.Session.DB | session/raw.go:45-50 | The executor is the transaction when one is open, otherwise the database. |
| Session.Session.Clear | session/raw.go:39-43 | Buffer, values and clauses are emptied. The transaction and cached table stay. |
| Session.Session.Raw | session/raw.go:52-57 | The text and a space are appended to the buffer and the values to the bound values. It returns the same session. |
| Session.Session.Exec | session/raw.go:59-67 | The executor receives the buffered text and values once, the session is cleared, and the database's answer is returned. |
| Session.Session.QueryRow | session/raw.go:69-73 | The same guarantees as Exec, for a one-row query. |
| Session.Session.QueryRows | session/raw.go:75-83 | The same guarantees as Exec, for a row query. |
| Session.Session.Model | session/table.go:12-18 | A cached table of the same type is kept. Otherwise the type is re-parsed and cached. A parse panic leaves the cache as it was. The cache always equals Parse of its own model. |
| Session.Session.RefTable | session/table.go:20-25 | The cached table, or the nil-dereference panic with nothing cached. |
| Session.Session.CreateTable | session/table.go:27-41 | It sends "CREATE TABLE IF NOT EXISTS name (Name Type Tag,…) ;" after any buffered text and returns the execution error. With no model it panics without sending. |
| Session.Session.DropTable | session/table.go:43-47 | It sends "DROP TABLE IF EXISTS name ;" and returns the execution error. With no model it panics without sending. |
| Session.Session.HasTable | session/table.go:49-59 | It sends the existence query for the table's name and answers whether the scanned name equals it. A failed Scan compares the empty name. |
| Session.Session.Insert | session/record.go:11-38 | When every record parses, one INSERT…VALUES statement with all tuples is sent, the cached table is the last record's (unchanged when there are no records), and the session is cleared. Otherwise the first unparseable record's panic is returned without sending. |
| Session.Session.CollectRows | session/record.go:13-24 | The loop over the records: when all parse, the collected tuples are `InsertRows` and the INSERT clause is the last record's table, and the cached table is the last record's (unchanged when there are none). Otherwise it stops at the first record that fails, with that record's error. |
| Session.Session.ExecInsert | session/record.go:27-31 | Sets VALUES to the tuples, sends INSERT then VALUES with its parameters, and clears the session. |
| Session.InsertStep | session/record.go:18-23 | One more parsed record leaves its tuple as the newest row and its table in the INSERT clause. |
| Session.InsertStops | session/record.go:18 | A record that does not parse, after records that all do, is the first failure. |
| Session.Session.Find | session/record.go:40-74 | It sends SELECT with the set WHERE/ORDER BY/LIMIT for the element type's schema. Then it appends the decoded rows in order and returns the first Scan error or Close's. A parse panic sends nothing. |
| Session.Session.Update | session/record.go:77-97 | It sends "UPDATE t SET k = ?, …" with WHERE if set, with the converted map's values in range order. A conversion or nil-table panic sends nothing. |
| Session.Session.Delete | session/record.go:99-111 | It sends "DELETE FROM t" with WHERE if set. With no model it panics without sending. |
| Session.Session.Count | session/record.go:113-124 | It sends "SELECT count(*) FROM t" with WHERE if set, and returns the scanned count or its error. |
| Session.Session.Limit | session/record.go:126-129 | It stores LIMIT with the number as its one value and replaces an earlier limit. Nothing else changes. |
| Session.Session.Where | session/record.go:131-135 | It stores the predicate with its values. Nothing else changes. |
| Session.Session.OrderBy | session/record.go:137-140 | It stores the ordering. Nothing else changes. |
| Session.Session.First | session/record.go:144-158 | It sends Find's statement with LIMIT 1 set and caches the element type's schema. No row is NotFound, otherwise the first record. |
| Engine.Difference | engine.go:76-91 | The map-then-filter loops compute `Diff`. |
| Engine.DiffMembers | engine.go:76-91 | x is in the difference iff x is in a and not in b. |
| Engine.DiffConcat | engine.go:83-89 | The difference keeps a's order. |
| Engine.DiffCounts | engine.go:83-89 | Each kept name occurs as often as in a, and each removed one not at all. |
| Engine.DiffNothing | engine.go:76-91 | Nothing to remove keeps a as is. |
| Engine.DiffSelf | engine.go:76-91 | A list minus itself is empty. |
| Engine.MigratePlanSpec | engine.go:110-128 | The columns to add are the fields the table lacks, and the columns to drop are the table's columns the struct lacks. A rebuild happens iff some column is to be dropped. |
| Engine.MigratePlan | engine.go:110-111 | The columns to add are `difference(FieldNames, columns)`, and the columns to drop are `difference(columns, FieldNames)`. `MigratePlanSpec` states what they contain. |
| Engine.MigrateUnchanged | engine.go:110-128 | A table that already matches needs neither step. |
| Engine.Rebuild | engine.go:130-138 | The rebuild sends one statement: the buffer, then the copy, drop and rename commands each followed only by a space. The transaction and the cached table are unchanged. |
| Engine.RebuildAsWritten | engine.go:130-137 | The buffer the three Raw calls leave: the copy, drop and rename commands, each followed by one space. |
| Engine.RebuildIsOneStatement | engine.go:134-137 | With separator-free names, that text has no ';' at all. |
| Engine.RebuildUser | engine.go:130-138 | For User the text sent is "CREATE TABLE tmp_User AS SELECT Name,Age from User DROP TABLE User ALTER TABLE tmp_User RENAME to User ". |
| Engine.RebuildSeparately | engine.go:130-138 | It sends the copy, drop and rename as three statements in turn, stops at the first failure and returns its error. The transaction and the cached table are unchanged. |

## Left out

- Reflection itself (`reflect.Indirect`, `FieldByName`, `Addr`) is replaced by `RecordType`/`Object` values. A pointer-to-struct model is distinguished from a struct only by the `pointer` flag. `Find` over a slice of pointers, which panics in Go, is not modelled: `Find` always parses the element struct type.
- Hooks (`CallMethod` with BeforeInsert, AfterQuery, …), logging, and the `Transaction` wrapper are calls into code outside this core, so they are left out.
- Migrate's first half is not modelled as a method: the HasTable/CreateTable branch, the `SELECT * … LIMIT 1` column query and the `ALTER TABLE … ADD COLUMN` loop. The model covers its column plan (`MigratePlan`) and its rebuild.
- `Session.Session.Insert`, `Update` and `Delete` return the driver's reply as the rows-affected count. `RowsAffected()` and its own error are not modelled.
- `Session.Session.Count`: a count is an unbounded `int`. The 64-bit width of `int64` is not modelled.
- `Session.Session.Find`: `rows.Scan`'s type conversions and column-count check are folded into the driver's reply (a row either scans or carries an error).
- `Schema.IsExported` tests an ASCII capital first letter. Go's `ast.IsExported` accepts any Unicode upper-case letter.
- The type-assertion panics inside the generators (`values[0].(string)`, …) cannot happen, because `Clause.Args` gives each kind typed arguments.
- Runtime panic messages are abbreviated to "nil pointer dereference", "index out of range" and "interface conversion: key is not a string".
- `Session.Session.Model` compares types structurally (pointer flag and record value). Go compares them by identity of the `reflect.Type`.
- The order in which Go ranges over a map is a caller-supplied parameter. Go's randomised order is not modelled.
- `Clause.ValuesSql` follows the code's behaviour, not the documented one (see above).

## Findings

| source | as written | input that shows it | evidently intended | confidence | as-written member | corrected member |
|---|---|---|---|---|---|---|
| engine.go:134-138 | The copy, drop and rename commands are appended with only a space between them and sent as one statement by a single Exec. | A User table losing a column sends "CREATE TABLE tmp_User AS SELECT Name,Age from User DROP TABLE User ALTER TABLE tmp_User RENAME to User ", which MySQL reads as one malformed CREATE. | Three statements run in turn (or ';'-separated), so the copy, drop and rename each take effect. | not executed | Engine.Rebuild, Engine.RebuildIsOneStatement, Engine.RebuildUser | Engine.RebuildSeparately |
