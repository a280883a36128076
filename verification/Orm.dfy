/** Tables as the core's ORM sees them (runtimes/core/src/sqldb/orm.rs): the column
    whitelist, `where` maps, bulk update and delete, and the additive `ensure`. */
module Orm {
  import opened Wrappers

  datatype Value = Null | Text(s: string) | Number(n: int) | Flag(b: bool) | Json(j: string)

  type Row = map<string, Value>

  /** The logical types of a column; anything else is refused. */
  datatype Logical = Int | Str | Bool | Float | DateTime | Date | JsonValue | Unknown(typ: string)

  /** One column of a model: its logical type, and what the model says about it. */
  datatype Field = Field(name: string, typ: Logical, nullable: bool, primaryKey: bool, pii: bool)

  /** A table in the database: its columns, with their NOT NULL flags, and its rows. */
  datatype TableData = TableData(notNull: map<string, bool>, rows: seq<Row>)

  datatype SqlError = UnknownColumn | NoCriterion | NotNullViolation | UnknownType | Unavailable

  type Where = seq<(string, Value)>

  /** TableSchema.column: only the schema's columns are addressable. */
  predicate HasColumn(fields: seq<Field>, name: string) {
    exists i :: 0 <= i < |fields| && fields[i].name == name
  }

  /** Every row has exactly the table's columns, and no NULL where it is forbidden. */
  ghost predicate ValidTable(d: TableData) {
    forall i :: 0 <= i < |d.rows| ==>
      && d.rows[i].Keys == d.notNull.Keys
      && forall c :: c in d.notNull && d.notNull[c] ==> d.rows[i][c] != Null
  }

  /** The declared columns exist: what `ensure` has seen to before any other operation. */
  ghost predicate Ready(fields: seq<Field>, d: TableData) {
    ValidTable(d) && forall i :: 0 <= i < |fields| ==> fields[i].name in d.notNull
  }

  // ---------------------------------------------------------------- where

  /** `IS NULL` for a null criterion; otherwise SQL equality, which NULL never satisfies. */
  predicate CellMatches(row: Row, c: string, v: Value) {
    c in row && row[c] == v
  }

  predicate RowMatches(row: Row, where: Where) {
    forall i :: 0 <= i < |where| ==> CellMatches(row, where[i].0, where[i].1)
  }

  predicate WhereKnown(fields: seq<Field>, where: Where) {
    forall i :: 0 <= i < |where| ==> HasColumn(fields, where[i].0)
  }

  function Matching(rows: seq<Row>, where: Where): seq<Row> {
    if rows == [] then []
    else (if RowMatches(rows[0], where) then [rows[0]] else []) + Matching(rows[1..], where)
  }

  function Others(rows: seq<Row>, where: Where): seq<Row> {
    if rows == [] then []
    else (if RowMatches(rows[0], where) then [] else [rows[0]]) + Others(rows[1..], where)
  }

  function Updated(rows: seq<Row>, values: Row, where: Where): (r: seq<Row>)
    ensures |r| == |rows|
  {
    seq(|rows|, i requires 0 <= i < |rows| => if RowMatches(rows[i], where) then rows[i] + values else rows[i])
  }

  // ---------------------------------------------------------------- operations

  /** delete_where: a criterion is required. */
  function DeleteWhere(fields: seq<Field>, d: TableData, where: Where): Result<TableData, SqlError> {
    if where == [] then Err(NoCriterion)
    else if !WhereKnown(fields, where) then Err(UnknownColumn)
    else Ok(d.(rows := Others(d.rows, where)))
  }

  /** update_where: no values is no statement; a NULL in a NOT NULL column fails the whole
      statement as soon as one row matches. */
  function UpdateWhere(fields: seq<Field>, d: TableData, values: Row, where: Where): Result<TableData, SqlError> {
    if values == map[] then Ok(d)
    else if where == [] then Err(NoCriterion)
    else if (exists c :: c in values && !HasColumn(fields, c)) || !WhereKnown(fields, where) then Err(UnknownColumn)
    else if Matching(d.rows, where) != [] && exists c :: c in values && values[c] == Null && c in d.notNull && d.notNull[c]
    then Err(NotNullViolation)
    else Ok(d.(rows := Updated(d.rows, values, where)))
  }

  function Count(fields: seq<Field>, d: TableData, where: Where): Result<nat, SqlError> {
    if !WhereKnown(fields, where) then Err(UnknownColumn) else Ok(|Matching(d.rows, where)|)
  }

  function Find(fields: seq<Field>, d: TableData, where: Where): Result<seq<Row>, SqlError> {
    if !WhereKnown(fields, where) then Err(UnknownColumn) else Ok(Matching(d.rows, where))
  }

  lemma {:induction false} MatchingMembers(rows: seq<Row>, where: Where)
    ensures forall i :: 0 <= i < |Matching(rows, where)| ==> Matching(rows, where)[i] in rows && RowMatches(Matching(rows, where)[i], where)
    ensures forall i :: 0 <= i < |Others(rows, where)| ==> Others(rows, where)[i] in rows && !RowMatches(Others(rows, where)[i], where)
  {
    if rows != [] { MatchingMembers(rows[1..], where); }
  }

  /** Every row is either selected or left, once. */
  lemma {:induction false} MatchingPartition(rows: seq<Row>, where: Where)
    ensures multiset(Matching(rows, where)) + multiset(Others(rows, where)) == multiset(rows)
  {
    if rows != [] {
      MatchingPartition(rows[1..], where);
      assert rows == [rows[0]] + rows[1..];
    }
  }

  lemma {:induction false} MatchingEmpty(rows: seq<Row>, where: Where)
    ensures Matching(rows, where) == [] <==> forall i :: 0 <= i < |rows| ==> !RowMatches(rows[i], where)
    ensures Matching(rows, where) == [] ==> Others(rows, where) == rows
  {
    if rows != [] { MatchingEmpty(rows[1..], where); }
  }

  lemma {:induction false} MatchingOfOthers(rows: seq<Row>, where: Where)
    ensures Matching(Others(rows, where), where) == []
  {
    MatchingMembers(rows, where);
    MatchingEmpty(Others(rows, where), where);
  }

  /** delete_where needs a criterion and known columns; then it removes exactly the rows in which
      every column named has the value asked for (NULL for a null criterion), and find had
      returned exactly these. */
  lemma {:induction false} DeletesExactly(fields: seq<Field>, d: TableData, where: Where)
    ensures var r := DeleteWhere(fields, d, where);
            && (r.Ok? <==> where != [] && forall j :: 0 <= j < |where| ==> HasColumn(fields, where[j].0))
            && (where == [] ==> r == Err(NoCriterion))
            && (r.Ok? ==>
                  var found := Find(fields, d, where);
                  && found.Ok? && r.value.notNull == d.notNull
                  && multiset(found.value) + multiset(r.value.rows) == multiset(d.rows)
                  && (forall i, j :: 0 <= i < |found.value| && 0 <= j < |where| ==>
                        where[j].0 in found.value[i] && found.value[i][where[j].0] == where[j].1)
                  && (forall i :: 0 <= i < |r.value.rows| ==>
                        exists j :: 0 <= j < |where| && !(where[j].0 in r.value.rows[i] && r.value.rows[i][where[j].0] == where[j].1)))
  {
    MatchingMembers(d.rows, where);
    MatchingPartition(d.rows, where);
    if DeleteWhere(fields, d, where).Ok? {
      forall i, j | 0 <= i < |Matching(d.rows, where)| && 0 <= j < |where|
        ensures where[j].0 in Matching(d.rows, where)[i] && Matching(d.rows, where)[i][where[j].0] == where[j].1
      {
        assert CellMatches(Matching(d.rows, where)[i], where[j].0, where[j].1);
      }
    }
  }

  /** A row meets all criteria. */
  predicate Meets(row: Row, where: Where) {
    forall j :: 0 <= j < |where| ==> where[j].0 in row && row[where[j].0] == where[j].1
  }

  /** update_where does nothing without values, needs a criterion otherwise, and known columns; it is
      refused if a row that meets the criteria would get a forbidden NULL; else exactly these
      rows have the new values, and the old ones in all other columns. */
  lemma {:induction false} UpdatesExactly(fields: seq<Field>, d: TableData, values: Row, where: Where)
    ensures var r := UpdateWhere(fields, d, values, where);
            && (values == map[] ==> r == Ok(d))
            && (values != map[] && where == [] ==> r == Err(NoCriterion))
            && (values != map[] && where != [] ==>
                  (r.Ok? <==>
                    && (forall c :: c in values ==> HasColumn(fields, c)) && (forall j :: 0 <= j < |where| ==> HasColumn(fields, where[j].0))
                    && forall i, c :: 0 <= i < |d.rows| && Meets(d.rows[i], where) && c in values && values[c] == Null ==>
                         !(c in d.notNull && d.notNull[c])))
            && (r.Ok? ==>
                  && r.value.notNull == d.notNull && |r.value.rows| == |d.rows|
                  && forall i :: 0 <= i < |d.rows| ==> r.value.rows[i] == if Meets(d.rows[i], where) then d.rows[i] + values else d.rows[i])
  {
    forall row ensures RowMatches(row, where) <==> Meets(row, where) {
      forall j | 0 <= j < |where| ensures CellMatches(row, where[j].0, where[j].1) <==> where[j].0 in row && row[where[j].0] == where[j].1 {}
    }
    MatchingEmpty(d.rows, where);
    NoValues(d.rows);
  }

  lemma {:induction false} NoValues(rows: seq<Row>)
    ensures forall i :: 0 <= i < |rows| ==> rows[i] + map[] == rows[i]
  {}

  // ---------------------------------------------------------------- ensure

  /** column_def of a new table: an int primary key is a BIGSERIAL PRIMARY KEY. */
  function NotNullOf(f: Field): bool {
    (f.primaryKey && f.typ.Int?) || !f.nullable
  }

  predicate KnownTypes(fields: seq<Field>) {
    forall i :: 0 <= i < |fields| ==> !fields[i].typ.Unknown?
  }

  predicate DistinctNames(fields: seq<Field>) {
    forall i, j :: 0 <= i < j < |fields| ==> fields[i].name != fields[j].name
  }

  function NotNulls(fields: seq<Field>): map<string, bool> {
    if fields == [] then map[]
    else
      var last := fields[|fields| - 1];
      NotNulls(fields[..|fields| - 1])[last.name := NotNullOf(last)]
  }

  /** CREATE TABLE */
  function Created(fields: seq<Field>): TableData { TableData(NotNulls(fields), []) }

  /** ALTER TABLE ADD COLUMN, always nullable: the rows that are there get NULL. */
  function AddColumn(d: TableData, name: string): (r: TableData) {
    TableData(d.notNull[name := false], seq(|d.rows|, i requires 0 <= i < |d.rows| => d.rows[i][name := Null]))
  }

  /** The declared columns that are not there yet, in declared order. */
  function Missing(fields: seq<Field>, existing: set<string>): (names: seq<string>)
    ensures |names| <= |fields|
  {
    if fields == [] then []
    else
      var last := fields[|fields| - 1].name;
      Missing(fields[..|fields| - 1], existing) + if last in existing then [] else [last]
  }

  /** The table after columns of these names were added one by one. */
  function AddMissing(d: TableData, names: seq<string>): TableData {
    if names == [] then d
    else
      var before := AddMissing(d, names[..|names| - 1]);
      var name := names[|names| - 1];
      if name in before.notNull then before else AddColumn(before, name)
  }

  /** d' is d after more columns and rows have come: nothing stored is lost or changed, and
      a row reads NULL in the columns it did not have. */
  ghost predicate Extends(d: TableData, d': TableData) {
    && (forall c :: c in d.notNull ==> c in d'.notNull && d'.notNull[c] == d.notNull[c])
    && |d.rows| <= |d'.rows|
    && (forall i, c :: 0 <= i < |d.rows| && c in d.rows[i] ==> c in d'.rows[i] && d'.rows[i][c] == d.rows[i][c])
    && (forall i, c :: 0 <= i < |d.rows| && c in d'.rows[i] && c !in d.rows[i] ==> d'.rows[i][c] == Null)
  }

  lemma {:induction false} ExtendsTransitive(a: TableData, b: TableData, c: TableData)
    requires Extends(a, b) && Extends(b, c)
    ensures Extends(a, c)
  {
    forall i, k | 0 <= i < |a.rows| && k in c.rows[i] && k !in a.rows[i] ensures c.rows[i][k] == Null {
      if k in b.rows[i] { assert b.rows[i][k] == Null; }
    }
  }

  lemma {:induction false} AddColumnExtends(d: TableData, name: string)
    requires ValidTable(d) && name !in d.notNull
    ensures ValidTable(AddColumn(d, name)) && Extends(d, AddColumn(d, name))
  {
    var r := AddColumn(d, name);
    forall i | 0 <= i < |r.rows| ensures r.rows[i].Keys == r.notNull.Keys {
      assert d.rows[i].Keys == d.notNull.Keys;
    }
  }

  /** What a list of columns does to the table: the columns are the union, the rows extend. */
  lemma {:induction false} AddMissingExtends(d: TableData, names: seq<string>)
    requires ValidTable(d)
    ensures var r := AddMissing(d, names);
            && ValidTable(r) && Extends(d, r) && |r.rows| == |d.rows|
            && (forall c :: c in r.notNull <==> c in d.notNull || c in names)
  {
    if names != [] {
      var init, name := names[..|names| - 1], names[|names| - 1];
      AddMissingExtends(d, init);
      var before := AddMissing(d, init);
      if name !in before.notNull {
        AddColumnExtends(before, name);
        ExtendsTransitive(d, before, AddColumn(before, name));
      }
      assert names == init + [name];
    }
  }

  lemma {:induction false} MissingNames(fields: seq<Field>, existing: set<string>)
    ensures forall c :: c in Missing(fields, existing) <==> HasColumn(fields, c) && c !in existing
  {
    if fields != [] {
      var n := |fields| - 1;
      MissingNames(fields[..n], existing);
      ColumnsSnoc(fields);
    }
  }

  /** The columns to add are those declared and not there, in the order of the declaration. */
  lemma {:induction false} MissingInOrder(fields: seq<Field>, existing: set<string>, a: nat, b: nat) returns (i: nat, j: nat)
    requires a < b < |Missing(fields, existing)|
    ensures i < j < |fields| && fields[i].name == Missing(fields, existing)[a] && fields[j].name == Missing(fields, existing)[b]
  {
    var n := |fields| - 1;
    if b < |Missing(fields[..n], existing)| {
      i, j := MissingInOrder(fields[..n], existing, a, b);
    } else {
      MissingNames(fields[..n], existing);
      assert Missing(fields[..n], existing)[a] in Missing(fields[..n], existing);
      i :| 0 <= i < n && fields[..n][i].name == Missing(fields[..n], existing)[a];
      j := n;
    }
  }

  lemma {:induction false} NotNullsColumns(fields: seq<Field>)
    ensures forall c :: c in NotNulls(fields) <==> HasColumn(fields, c)
  {
    if fields != [] {
      NotNullsColumns(fields[..|fields| - 1]);
      ColumnsSnoc(fields);
    }
  }

  lemma {:induction false} ColumnsSnoc(fields: seq<Field>)
    requires fields != []
    ensures forall c :: HasColumn(fields, c) <==> HasColumn(fields[..|fields| - 1], c) || c == fields[|fields| - 1].name
  {
    var n := |fields| - 1;
    forall c ensures HasColumn(fields, c) <==> HasColumn(fields[..n], c) || c == fields[n].name {
      assert forall i :: 0 <= i < n ==> fields[..n][i] == fields[i];
    }
  }

  lemma {:induction false} CreatedIsReady(fields: seq<Field>)
    ensures Ready(fields, Created(fields)) && forall c :: c in Created(fields).notNull <==> HasColumn(fields, c)
  {
    NotNullsColumns(fields);
    forall i | 0 <= i < |fields| ensures HasColumn(fields, fields[i].name) {}
  }

  // ---------------------------------------------------------------- one `ensure`

  datatype Statement = CreateTable | ListColumns | AlterTable(column: string)

  function Alters(names: seq<string>): (r: seq<Statement>)
    ensures |r| == |names| && forall i :: 0 <= i < |r| ==> r[i] == AlterTable(names[i])
  {
    seq(|names|, i requires 0 <= i < |names| => AlterTable(names[i]))
  }

  /** The table `ensure` finds once CREATE TABLE IF NOT EXISTS is through. */
  function Found(table: Option<TableData>, fields: seq<Field>): TableData {
    if table.Some? then table.value else Created(fields)
  }

  function ToAdd(table: Option<TableData>, fields: seq<Field>): seq<string> {
    Missing(fields, Found(table, fields).notNull.Keys)
  }

  /** The statements of an `ensure` in which all goes well: CREATE, the column query, and one
      ALTER for each missing column. */
  function Plan(table: Option<TableData>, fields: seq<Field>): seq<Statement> {
    if KnownTypes(fields) then [CreateTable, ListColumns] + Alters(ToAdd(table, fields)) else []
  }

  /** An `ensure` of which n statements succeeded came to its end. */
  predicate Completes(table: Option<TableData>, fields: seq<Field>, n: nat) {
    KnownTypes(fields) && n >= |Plan(table, fields)|
  }

  /** The table when the first n statements of the plan have succeeded, and no other. */
  function EnsureTable(table: Option<TableData>, fields: seq<Field>, n: nat): Option<TableData> {
    if !KnownTypes(fields) || n == 0 then table
    else
      var names := ToAdd(table, fields);
      var k := if n <= 2 then 0 else if n - 2 < |names| then n - 2 else |names|;
      Some(AddMissing(Found(table, fields), names[..k]))
  }

  lemma {:induction false} EnsureStep(table: Option<TableData>, fields: seq<Field>, n: nat)
    requires table.Some? ==> ValidTable(table.value)
    ensures var t := EnsureTable(table, fields, n);
            && (t.Some? ==> ValidTable(t.value))
            && (table.Some? ==> t.Some? && Extends(table.value, t.value) && |t.value.rows| == |table.value.rows|)
            && (Completes(table, fields, n) ==> t.Some? && Ready(fields, t.value))
            && (forall c :: t.Some? && c in t.value.notNull ==> HasColumn(fields, c) || (table.Some? && c in table.value.notNull))
  {
    if KnownTypes(fields) && n > 0 {
      if table.None? { CreatedIsReady(fields); }
      var names := ToAdd(table, fields);
      var k := if n <= 2 then 0 else if n - 2 < |names| then n - 2 else |names|;
      AddPrefix(Found(table, fields), fields, k);
    } else if table.Some? {
      assert Extends(table.value, table.value);
    }
  }

  lemma {:induction false} AddPrefix(d: TableData, fields: seq<Field>, k: nat)
    requires ValidTable(d) && k <= |Missing(fields, d.notNull.Keys)|
    ensures var names := Missing(fields, d.notNull.Keys); var r := AddMissing(d, names[..k]);
            && ValidTable(r) && Extends(d, r) && |r.rows| == |d.rows|
            && (k == |names| ==> Ready(fields, r))
            && (forall c :: c in r.notNull ==> HasColumn(fields, c) || c in d.notNull)
  {
    var names := Missing(fields, d.notNull.Keys);
    AddMissingExtends(d, names[..k]);
    MissingNames(fields, d.notNull.Keys);
    forall c | c in names[..k] ensures c in names {}
    if k == |names| {
      assert names[..k] == names;
      forall i | 0 <= i < |fields| ensures HasColumn(fields, fields[i].name) {}
    }
  }

  // ------------------------------------------- schema versions over the table's life

  type Version = nat
  type Task = nat

  /** How far a call of `ensure` is: before CREATE, before the column query, or with these
      columns left to add. */
  datatype Progress = Creating | Listing | Adding(names: seq<string>)

  datatype Call = Call(version: Version, progress: Progress)

  /** One deployed table shared by several schema versions, each a running class with its own
      `__ensured` flag, and the calls of `ensure` that are under way. */
  datatype Life = Life(table: Option<TableData>, ensured: set<Version>, calls: map<Task, Call>)

  /** One statement each.  A statement that is refused ends the call, and so does the death of
      the process; an ALTER is refused when the column is there already. */
  datatype Event =
    | Begin(task: Task, version: Version)
    | Create(task: Task)
    | List(task: Task)
    | Alter(task: Task)
    | Complete(task: Task)
    | Fail(task: Task)
    | Insert(row: Row)

  type Versions = map<Version, seq<Field>>

  predicate At(s: Life, t: Task, p: Progress) { t in s.calls && s.calls[t].progress == p }

  predicate Enabled(versions: Versions, s: Life, e: Event) {
    match e
    case Begin(t, v) => t !in s.calls && v in versions && v !in s.ensured && KnownTypes(versions[v])
    case Create(t) => At(s, t, Creating) && s.calls[t].version in versions
    case List(t) => At(s, t, Listing) && s.table.Some? && s.calls[t].version in versions
    case Alter(t) =>
      && t in s.calls && s.calls[t].progress.Adding? && s.calls[t].progress.names != [] && s.table.Some?
      && s.calls[t].progress.names[0] !in s.table.value.notNull
    case Complete(t) => At(s, t, Adding([]))
    case Fail(t) => t in s.calls
    case Insert(row) =>
      && s.table.Some? && row.Keys == s.table.value.notNull.Keys
      && forall c :: c in row && s.table.value.notNull[c] ==> row[c] != Null
  }

  function Apply(versions: Versions, s: Life, e: Event): Life
    requires Enabled(versions, s, e)
  {
    match e
    case Begin(t, v) => s.(calls := s.calls[t := Call(v, Creating)])
    case Create(t) =>
      var v := s.calls[t].version;
      s.(table := Some(Found(s.table, versions[v])), calls := s.calls[t := Call(v, Listing)])
    case List(t) =>
      var v := s.calls[t].version;
      s.(calls := s.calls[t := Call(v, Adding(Missing(versions[v], s.table.value.notNull.Keys)))])
    case Alter(t) =>
      var names := s.calls[t].progress.names;
      s.(table := Some(AddColumn(s.table.value, names[0])), calls := s.calls[t := Call(s.calls[t].version, Adding(names[1..]))])
    case Complete(t) => s.(ensured := s.ensured + {s.calls[t].version}, calls := s.calls - {t})
    case Fail(t) => s.(calls := s.calls - {t})
    case Insert(row) => s.(table := Some(s.table.value.(rows := s.table.value.rows + [row])))
  }

  ghost predicate Run(versions: Versions, s: Life, es: seq<Event>)
    decreases |es|
  {
    es == [] || (Enabled(versions, s, es[0]) && Run(versions, Apply(versions, s, es[0]), es[1..]))
  }

  ghost function After(versions: Versions, s: Life, es: seq<Event>): Life
    requires Run(versions, s, es)
    decreases |es|
  {
    if es == [] then s else After(versions, Apply(versions, s, es[0]), es[1..])
  }

  /** A call knows its version, and when it has listed the columns, every declared one is there or
      still to be added. */
  ghost predicate CallInv(versions: Versions, table: Option<TableData>, c: Call) {
    && c.version in versions && (!c.progress.Creating? ==> table.Some?)
    && (c.progress.Adding? ==>
          && (forall i :: 0 <= i < |c.progress.names| ==> HasColumn(versions[c.version], c.progress.names[i]))
          && forall n :: HasColumn(versions[c.version], n) ==> n in table.value.notNull || n in c.progress.names)
  }

  ghost predicate LifeInv(versions: Versions, s: Life) {
    && (s.table.Some? ==> ValidTable(s.table.value))
    && (forall v :: v in s.ensured ==> v in versions && s.table.Some? && Ready(versions[v], s.table.value))
    && (forall t :: t in s.calls ==> CallInv(versions, s.table, s.calls[t]))
  }

  /** The table and the flags before the first call. */
  ghost predicate NoCallYet(versions: Versions, s: Life) {
    s.ensured == {} && s.calls == map[] && (s.table.Some? ==> ValidTable(s.table.value))
  }

  lemma {:induction false} StartLife(versions: Versions, s: Life)
    requires NoCallYet(versions, s)
    ensures LifeInv(versions, s)
  {}

  /** Nothing stored before is lost or changed. */
  ghost predicate TableGrew(a: Option<TableData>, b: Option<TableData>) {
    a.Some? ==> b.Some? && Extends(a.value, b.value)
  }

  ghost predicate Grew(s: Life, s': Life) { s.ensured <= s'.ensured && TableGrew(s.table, s'.table) }

  ghost predicate FromVersion(versions: Versions, c: string) {
    exists v :: v in versions && HasColumn(versions[v], c)
  }

  lemma {:induction false} ReadyStays(fields: seq<Field>, d: TableData, d': TableData)
    requires Ready(fields, d) && Extends(d, d') && ValidTable(d')
    ensures Ready(fields, d')
  {}

  lemma {:induction false} SameTable(d: TableData)
    ensures Extends(d, d)
  {}

  /** What a step does to the table. */
  lemma {:induction false} StepTable(versions: Versions, s: Life, e: Event)
    requires LifeInv(versions, s) && Enabled(versions, s, e)
    ensures var t := Apply(versions, s, e).table;
            && (t.Some? ==> ValidTable(t.value)) && TableGrew(s.table, t)
            && (forall c :: t.Some? && c in t.value.notNull ==> (s.table.Some? && c in s.table.value.notNull) || FromVersion(versions, c))
  {
    if s.table.Some? { SameTable(s.table.value); }
    match e
    case Create(t) =>
      CreatedIsReady(versions[s.calls[t].version]);
      if s.table.None? {
        forall c | c in Created(versions[s.calls[t].version]).notNull ensures FromVersion(versions, c) {
          assert HasColumn(versions[s.calls[t].version], c);
        }
      }
    case Alter(t) =>
      var name := s.calls[t].progress.names[0];
      AddColumnExtends(s.table.value, name);
      assert HasColumn(versions[s.calls[t].version], name);
      assert FromVersion(versions, name);
    case _ =>
  }

  /** A call that is under way stands as it did when the table grows. */
  lemma {:induction false} CallStays(versions: Versions, a: Option<TableData>, b: Option<TableData>, c: Call)
    requires CallInv(versions, a, c) && TableGrew(a, b)
    ensures CallInv(versions, b, c)
  {}

  lemma {:induction false} OwnCall(versions: Versions, s: Life, e: Event)
    requires LifeInv(versions, s) && Enabled(versions, s, e) && !e.Insert?
    ensures var s' := Apply(versions, s, e); e.task in s'.calls ==> CallInv(versions, s'.table, s'.calls[e.task])
    ensures e.Complete? ==> s.table.Some? && Ready(versions[s.calls[e.task].version], s.table.value)
  {
    match e
    case List(t) => MissingNames(versions[s.calls[t].version], s.table.value.notNull.Keys);
    case Alter(t) =>
      assert CallInv(versions, s.table, s.calls[t]);
      var names := s.calls[t].progress.names;
      assert forall i :: 0 <= i < |names[1..]| ==> names[1..][i] == names[i + 1];
      assert names == [names[0]] + names[1..];
    case Complete(t) =>
      var fields := versions[s.calls[t].version];
      assert CallInv(versions, s.table, s.calls[t]);
      forall i | 0 <= i < |fields| ensures fields[i].name in s.table.value.notNull { assert HasColumn(fields, fields[i].name); }
    case _ =>
  }

  lemma {:induction false} StepLife(versions: Versions, s: Life, e: Event)
    requires LifeInv(versions, s) && Enabled(versions, s, e)
    ensures LifeInv(versions, Apply(versions, s, e)) && Grew(s, Apply(versions, s, e))
  {
    var s' := Apply(versions, s, e);
    StepTable(versions, s, e);
    if !e.Insert? { OwnCall(versions, s, e); }
    forall t | t in s'.calls ensures CallInv(versions, s'.table, s'.calls[t]) {
      if e.Insert? || t != e.task { CallStays(versions, s.table, s'.table, s.calls[t]); }
    }
    forall v | v in s'.ensured ensures v in versions && s'.table.Some? && Ready(versions[v], s'.table.value) {
      if v in s.ensured { ReadyStays(versions[v], s.table.value, s'.table.value); }
    }
  }

  /** However the statements of `ensure` calls by any schema versions interleave, wherever calls
      are cut short, and with inserts between them: no row and no stored value is lost or
      changed, old rows read NULL in the columns added since, NOT NULL flags never change,
      and a version whose flag is set finds every one of its columns. */
  lemma {:induction false} TableOnlyGrows(versions: Versions, s: Life, es: seq<Event>)
    requires LifeInv(versions, s) && Run(versions, s, es)
    ensures LifeInv(versions, After(versions, s, es)) && Grew(s, After(versions, s, es))
    decreases |es|
  {
    if es == [] {
      if s.table.Some? { SameTable(s.table.value); }
    } else {
      var s1 := Apply(versions, s, es[0]);
      StepLife(versions, s, es[0]);
      TableOnlyGrows(versions, s1, es[1..]);
      if s.table.Some? {
        ExtendsTransitive(s.table.value, s1.table.value, After(versions, s, es).table.value);
      }
    }
  }

  /** Starting from no table, the columns are columns of versions only, and once every version is
      ensured they are exactly the union, however the calls interleaved. */
  lemma {:induction false} ColumnsAreTheUnion(versions: Versions, s: Life, es: seq<Event>, c: string)
    requires LifeInv(versions, s) && Run(versions, s, es)
    requires s.table.Some? && c in s.table.value.notNull ==> FromVersion(versions, c)
    ensures var s' := After(versions, s, es);
            && (s'.table.Some? && c in s'.table.value.notNull ==> FromVersion(versions, c))
            && (s'.ensured == versions.Keys && versions != map[] ==>
                  s'.table.Some? && (c in s'.table.value.notNull <==> FromVersion(versions, c)))
    decreases |es|
  {
    if es == [] {
      if s.ensured == versions.Keys && versions != map[] {
        var w :| w in versions;
        assert w in s.ensured;
        if v :| v in versions && HasColumn(versions[v], c) {
          assert Ready(versions[v], s.table.value);
        }
      }
    } else {
      StepLife(versions, s, es[0]);
      StepTable(versions, s, es[0]);
      ColumnsAreTheUnion(versions, Apply(versions, s, es[0]), es[1..], c);
    }
  }

  /** A call whose columns are all there lists nothing to add, and its plan has no ALTER. */
  lemma {:induction false} RepeatAddsNothing(versions: Versions, s: Life, t: Task, n: nat)
    requires LifeInv(versions, s) && Enabled(versions, s, List(t)) && Ready(versions[s.calls[t].version], s.table.value)
    ensures At(Apply(versions, s, List(t)), t, Adding([])) && Apply(versions, s, List(t)).table == s.table
    ensures var fields := versions[s.calls[t].version];
            && (KnownTypes(fields) ==> Plan(s.table, fields) == [CreateTable, ListColumns])
            && EnsureTable(s.table, fields, n) == s.table
  {
    NothingMissing(versions[s.calls[t].version], s.table.value.notNull.Keys);
    assert Alters([]) == [];
  }

  /** Two calls that have listed the same columns to add: after the first ALTER of the one, the
      other's is refused, so that its call fails and its flag stays unset. */
  lemma {:induction false} AlterRefused(versions: Versions, s: Life, t: Task, u: Task)
    requires t != u && Enabled(versions, s, Alter(t)) && u in s.calls && s.calls[u].progress == s.calls[t].progress
    ensures var s' := Apply(versions, s, Alter(t));
            && Enabled(versions, s, Alter(u)) && !Enabled(versions, s', Alter(u)) && !Enabled(versions, s', Complete(u)) && Enabled(versions, s', Fail(u))
  {}

  /** The first k columns one by one, from the front. */
  lemma {:induction false} AddMissingFront(d: TableData, names: seq<string>)
    requires names != [] && names[0] !in d.notNull
    ensures AddMissing(d, names) == AddMissing(AddColumn(d, names[0]), names[1..])
  {
    if |names| == 1 {
      assert names[..0] == [];
    } else {
      AddMissingFront(d, names[..|names| - 1]);
      assert names[1..][..|names| - 2] == names[..|names| - 1][1..];
    }
  }

  function AlterEvents(t: Task, k: nat): seq<Event> { seq(k, _ => Alter(t)) }

  lemma {:induction false} RunOne(versions: Versions, s: Life, e: Event, es: seq<Event>)
    requires Enabled(versions, s, e)
    ensures Run(versions, s, [e] + es) <==> Run(versions, Apply(versions, s, e), es)
    ensures Run(versions, s, [e] + es) ==> After(versions, s, [e] + es) == After(versions, Apply(versions, s, e), es)
  {
    assert ([e] + es)[1..] == es;
  }

  lemma {:induction false} AltersAlone(versions: Versions, s: Life, t: Task, k: nat)
    requires t in s.calls && s.calls[t].progress.Adding? && k <= |s.calls[t].progress.names| && s.table.Some?
    requires forall i :: 0 <= i < k ==> s.calls[t].progress.names[i] !in s.table.value.notNull
    requires Distinct(s.calls[t].progress.names)
    ensures Run(versions, s, AlterEvents(t, k))
    ensures var names := s.calls[t].progress.names;
            After(versions, s, AlterEvents(t, k))
            == s.(table := Some(AddMissing(s.table.value, names[..k])), calls := s.calls[t := Call(s.calls[t].version, Adding(names[k..]))])
    decreases k
  {
    var names := s.calls[t].progress.names;
    if k == 0 {
      assert names[..0] == [] && names[0..] == names;
      assert s.calls[t := s.calls[t]] == s.calls;
    } else {
      var s1 := Apply(versions, s, Alter(t));
      assert names[1..][..k - 1] == names[..k][1..] && names[1..][k - 1..] == names[k..];
      AltersAlone(versions, s1, t, k - 1);
      AddMissingFront(s.table.value, names[..k]);
      assert AlterEvents(t, k) == [Alter(t)] + AlterEvents(t, k - 1);
      RunOne(versions, s, Alter(t), AlterEvents(t, k - 1));
    }
  }

  predicate Distinct(names: seq<string>) { forall i, j :: 0 <= i < j < |names| ==> names[i] != names[j] }

  lemma {:induction false} MissingDistinct(fields: seq<Field>, existing: set<string>)
    requires DistinctNames(fields)
    ensures Distinct(Missing(fields, existing))
  {
    if fields != [] {
      var n := |fields| - 1;
      var m, names := Missing(fields[..n], existing), Missing(fields, existing);
      MissingDistinct(fields[..n], existing);
      MissingNames(fields[..n], existing);
      NotDeclaredYet(fields, n);
      forall i, j | 0 <= i < j < |names| ensures names[i] != names[j] {
        assert names[i] == m[i] && m[i] in m;
      }
    }
  }

  /** The three statements before the first ALTER. */
  lemma {:induction false} ListedAlone(versions: Versions, s: Life, t: Task, v: Version, rest: seq<Event>)
    requires Enabled(versions, s, Begin(t, v))
    ensures var es := [Begin(t, v)] + ([Create(t)] + ([List(t)] + rest));
            var listed := Life(Some(Found(s.table, versions[v])), s.ensured, s.calls[t := Call(v, Adding(ToAdd(s.table, versions[v])))]);
            && (Run(versions, s, es) <==> Run(versions, listed, rest))
            && (Run(versions, s, es) ==> After(versions, s, es) == After(versions, listed, rest))
  {
    var s1 := Apply(versions, s, Begin(t, v));
    var s2 := Apply(versions, s1, Create(t));
    var s3 := Apply(versions, s2, List(t));
    assert s3.calls == s.calls[t := Call(v, Adding(ToAdd(s.table, versions[v])))];
    RunOne(versions, s2, List(t), rest);
    RunOne(versions, s1, Create(t), [List(t)] + rest);
    RunOne(versions, s, Begin(t, v), [Create(t)] + ([List(t)] + rest));
  }

  /** A call that nobody disturbs sends its plan: CREATE, the column query and the first k ALTERs
      leave the table of EnsureTable, and after the last one the flag can be set. */
  lemma {:induction false} EnsureAlone(versions: Versions, s: Life, t: Task, v: Version, k: nat)
    requires Enabled(versions, s, Begin(t, v)) && DistinctNames(versions[v]) && k <= |ToAdd(s.table, versions[v])|
    ensures var es := [Begin(t, v)] + ([Create(t)] + ([List(t)] + AlterEvents(t, k)));
            && Run(versions, s, es)
            && After(versions, s, es).table == EnsureTable(s.table, versions[v], 2 + k)
            && (Enabled(versions, After(versions, s, es), Complete(t)) <==> Completes(s.table, versions[v], 2 + k))
  {
    var d, names := Found(s.table, versions[v]), ToAdd(s.table, versions[v]);
    MissingNames(versions[v], d.notNull.Keys);
    MissingDistinct(versions[v], d.notNull.Keys);
    forall i | 0 <= i < k ensures names[i] !in d.notNull { assert names[i] in names; }
    ListedAlone(versions, s, t, v, AlterEvents(t, k));
    AltersAlone(versions, Life(Some(d), s.ensured, s.calls[t := Call(v, Adding(names))]), t, k);
    PlanIsDone(s.table, versions[v], 2 + k);
    PlanSize(s.table, versions[v]);
    assert names[k..] == [] <==> k == |names|;
  }

  // ---------------------------------------------------------------- NULL or not

  /** The NOT NULL columns of a table that this model created: the int primary key, and what is
      not nullable; columns that came later allow NULL. */
  ghost predicate MadeBy(fields: seq<Field>, d: TableData) {
    forall c :: c in d.notNull ==>
      (d.notNull[c] <==> exists i :: 0 <= i < |fields| && fields[i].name == c
                                     && ((fields[i].primaryKey && fields[i].typ == Int) || !fields[i].nullable))
  }

  lemma {:induction false} CreatedFlags(fields: seq<Field>)
    requires DistinctNames(fields)
    ensures forall c :: c in NotNulls(fields) <==> HasColumn(fields, c)
    ensures forall i :: 0 <= i < |fields| ==>
              && fields[i].name in NotNulls(fields)
              && (NotNulls(fields)[fields[i].name] <==> (fields[i].primaryKey && fields[i].typ == Int) || !fields[i].nullable)
  {
    NotNullsColumns(fields);
    forall i | 0 <= i < |fields| ensures HasColumn(fields, fields[i].name) {}
    if fields != [] {
      var n := |fields| - 1;
      CreatedFlags(fields[..n]);
      forall i | 0 <= i < n
        ensures NotNulls(fields)[fields[i].name] <==> (fields[i].primaryKey && fields[i].typ == Int) || !fields[i].nullable
      {
        assert fields[..n][i] == fields[i];
      }
    }
  }

  lemma {:induction false} CreatedMadeBy(fields: seq<Field>)
    requires DistinctNames(fields)
    ensures MadeBy(fields, Created(fields))
  {
    CreatedFlags(fields);
    var d := Created(fields);
    forall c | c in d.notNull
      ensures d.notNull[c] <==> exists i :: 0 <= i < |fields| && fields[i].name == c
                                            && ((fields[i].primaryKey && fields[i].typ == Int) || !fields[i].nullable)
    {
      assert HasColumn(fields, c);
      var j :| 0 <= j < |fields| && fields[j].name == c;
    }
  }

  /** An `ensure` without a table, from its CREATE on: the table is empty, has the declared columns,
      and a column forbids NULL if and only if its field is the int primary key or not
      nullable.  So an INSERT is accepted if and only if it gives these columns values. */
  lemma {:induction false} FirstEnsure(versions: Versions, s: Life, fields: seq<Field>, n: nat, row: Row)
    requires DistinctNames(fields) && KnownTypes(fields) && n > 0 && s.table == EnsureTable(None, fields, n)
    ensures s.table.Some? && s.table.value.rows == [] && forall c :: c in s.table.value.notNull <==> HasColumn(fields, c)
    ensures forall i :: 0 <= i < |fields| ==>
              && fields[i].name in s.table.value.notNull
              && (s.table.value.notNull[fields[i].name] <==> (fields[i].primaryKey && fields[i].typ == Int) || !fields[i].nullable)
    ensures Enabled(versions, s, Insert(row)) <==>
            && (forall c :: c in row <==> HasColumn(fields, c))
            && (forall i :: 0 <= i < |fields| && fields[i].name in row ==>
                  (fields[i].primaryKey && fields[i].typ == Int) || !fields[i].nullable ==> row[fields[i].name] != Null)
  {
    var d := Created(fields);
    CreatedFlags(fields);
    forall i | 0 <= i < |fields| ensures fields[i].name in d.notNull { assert HasColumn(fields, fields[i].name); }
    NothingMissing(fields, d.notNull.Keys);
    assert s.table == Some(d);
    if forall c :: c in row <==> HasColumn(fields, c) {
      assert row.Keys == d.notNull.Keys;
      if Enabled(versions, s, Insert(row)) {
        forall i | 0 <= i < |fields| && ((fields[i].primaryKey && fields[i].typ == Int) || !fields[i].nullable) ensures row[fields[i].name] != Null {
          assert d.notNull[fields[i].name];
        }
      } else {
        var c :| c in row && d.notNull[c] && row[c] == Null;
        assert HasColumn(fields, c);
      }
    }
  }

  /** A column added by ALTER allows NULL, with rows in the table or without: the rows that are
      there read NULL in it, and an INSERT may say NULL. */
  lemma {:induction false} AlterAllowsNull(versions: Versions, s: Life, t: Task, row: Row)
    requires Enabled(versions, s, Alter(t)) && s.calls[t].progress.names[0] !in row
    ensures var name := s.calls[t].progress.names[0]; var s' := Apply(versions, s, Alter(t));
            && s'.table.Some? && name in s'.table.value.notNull && !s'.table.value.notNull[name]
            && |s'.table.value.rows| == |s.table.value.rows|
            && (forall i :: 0 <= i < |s'.table.value.rows| ==> s'.table.value.rows[i] == s.table.value.rows[i][name := Null])
            && (Enabled(versions, s', Insert(row[name := Null])) <==> Enabled(versions, s, Insert(row)))
  {
    var name, d := s.calls[t].progress.names[0], s.table.value;
    var d' := AddColumn(d, name);
    assert d'.notNull.Keys == d.notNull.Keys + {name} && row[name := Null].Keys == row.Keys + {name};
    assert row.Keys + {name} == d.notNull.Keys + {name} <==> row.Keys == d.notNull.Keys by {
      if row.Keys + {name} == d.notNull.Keys + {name} {
        assert row.Keys == (row.Keys + {name}) - {name} && d.notNull.Keys == (d.notNull.Keys + {name}) - {name};
      }
    }
    if row.Keys == d.notNull.Keys {
      if Enabled(versions, s, Insert(row)) {
        forall c | c in row[name := Null] && d'.notNull[c] ensures row[name := Null][c] != Null { assert c in row && d.notNull[c]; }
      } else {
        var c :| c in row && d.notNull[c] && row[c] == Null;
        assert c in row[name := Null] && d'.notNull[c];
      }
    }
  }

  /** The version that created the table decides which columns forbid NULL: in any run that starts
      without a table, however the calls interleave, those are its int primary key and its not
      nullable columns, and no other. */
  lemma {:induction false} CreatorDecides(versions: Versions, s: Life, es: seq<Event>) returns (v: Version)
    requires LifeInv(versions, s) && Run(versions, s, es) && (forall w :: w in versions ==> DistinctNames(versions[w]))
    requires s.table.None?
    ensures After(versions, s, es).table.Some? ==> v in versions && MadeBy(versions[v], After(versions, s, es).table.value)
    decreases |es|
  {
    v := 0;
    if es != [] {
      var s1 := Apply(versions, s, es[0]);
      StepLife(versions, s, es[0]);
      if s1.table.None? {
        v := CreatorDecides(versions, s1, es[1..]);
      } else {
        v := s.calls[es[0].task].version;
        CreatedMadeBy(versions[v]);
        CreatedFlags(versions[v]);
        StaysMadeBy(versions, s1, es[1..], v);
      }
    }
  }

  lemma {:induction false} StaysMadeBy(versions: Versions, s: Life, es: seq<Event>, v: Version)
    requires LifeInv(versions, s) && Run(versions, s, es)
    requires s.table.Some? && v in versions && MadeBy(versions[v], s.table.value)
    requires forall c :: HasColumn(versions[v], c) ==> c in s.table.value.notNull
    ensures After(versions, s, es).table.Some? && MadeBy(versions[v], After(versions, s, es).table.value)
    decreases |es|
  {
    if es != [] {
      var s1 := Apply(versions, s, es[0]);
      StepLife(versions, s, es[0]);
      StepMadeBy(versions, s, es[0], versions[v]);
      StaysMadeBy(versions, s1, es[1..], v);
    }
  }

  lemma {:induction false} StepMadeBy(versions: Versions, s: Life, e: Event, fields: seq<Field>)
    requires Enabled(versions, s, e) && s.table.Some? && MadeBy(fields, s.table.value)
    requires forall c :: HasColumn(fields, c) ==> c in s.table.value.notNull
    ensures Apply(versions, s, e).table.Some? && MadeBy(fields, Apply(versions, s, e).table.value)
  {
    var d, d' := s.table.value, Apply(versions, s, e).table.value;
    if e.Alter? {
      var name := s.calls[e.task].progress.names[0];
      forall c | c in d'.notNull
        ensures d'.notNull[c] <==> exists i :: 0 <= i < |fields| && fields[i].name == c
                                               && ((fields[i].primaryKey && fields[i].typ == Int) || !fields[i].nullable)
      {
        if c == name { assert !HasColumn(fields, name); }
      }
    }
  }

  lemma {:induction false} NothingMissing(fields: seq<Field>, existing: set<string>)
    requires forall i :: 0 <= i < |fields| ==> fields[i].name in existing
    ensures Missing(fields, existing) == []
  {
    if fields != [] { NothingMissing(fields[..|fields| - 1], existing); }
  }

  // ---------------------------------------------------------------- the code

  /** A model class: its columns, its `__ensured` flag, and the table in its database. */
  class ModelClass {
    const fields: seq<Field>
    var ensured: bool
    var table: Option<TableData>

    constructor (fields: seq<Field>, table: Option<TableData>)
      ensures this.fields == fields && !ensured && this.table == table
    {
      this.fields := fields;
      ensured := false;
      this.table := table;
    }

    /** The core's `ensure`.  `works` says which of the statements it sends, counted from 0,
        the database accepts; `done` is how many succeeded. */
    method EnsureColumns(works: nat -> bool) returns (ok: bool, done: nat)
      requires DistinctNames(fields)
      modifies this`table
      ensures done == Accepted(works, |Plan(old(table), fields)|)
      ensures ok <==> KnownTypes(fields) && forall k :: 0 <= k < |Plan(old(table), fields)| ==> works(k)
      ensures table == EnsureTable(old(table), fields, done)
    {
      if !KnownTypes(fields) || !works(0) {
        NoColumns(table, fields, works, 0);
        return false, 0;
      }
      table := Some(Found(table, fields));
      if !works(1) {
        NoColumns(old(table), fields, works, 1);
        return false, 1;
      }
      ghost var seen: nat;
      ok, done, seen := AddColumns(works);
      SomeColumns(old(table), fields, works, done, seen);
    }

    /** The loop of `ensure`, over the columns that the column query found; `seen` is how many
        declared columns it got through. */
    method AddColumns(works: nat -> bool) returns (ok: bool, done: nat, ghost seen: nat)
      requires DistinctNames(fields) && table.Some?
      modifies this`table
      ensures seen <= |fields| && (ok <==> seen == |fields|)
      ensures var d := old(table.value); var names := Missing(fields[..seen], d.notNull.Keys);
              done == 2 + |names| && table == Some(AddMissing(d, names))
      ensures !ok ==> !works(done) && fields[seen].name !in old(table.value).notNull
      ensures forall k :: 2 <= k < done ==> works(k)
    {
      ghost var d := table.value;
      var existing := table.value.notNull.Keys;
      done := 2;
      var i := 0;
      while i < |fields|
        invariant i <= |fields| && done == 2 + |Missing(fields[..i], existing)|
        invariant table == Some(AddMissing(d, Missing(fields[..i], existing)))
        invariant forall k :: 2 <= k < done ==> works(k)
      {
        AddNext(d, fields, i);
        if fields[i].name !in existing {
          if !works(done) { return false, done, i; }
          table := Some(AddColumn(table.value, fields[i].name));
          done := done + 1;
        }
        i := i + 1;
      }
      return true, done, i;
    }

    /** `_ensure`: nothing once the flag is set; the flag is set only when the core's call
        succeeded. */
    method EnsureOnce(works: nat -> bool) returns (ok: bool, done: nat)
      requires DistinctNames(fields)
      modifies this
      ensures old(ensured) ==> ok && done == 0 && ensured && table == old(table)
      ensures !old(ensured) ==>
                && done == Accepted(works, |Plan(old(table), fields)|)
                && ensured == ok && table == EnsureTable(old(table), fields, done)
                && (ok <==> KnownTypes(fields) && forall k :: 0 <= k < |Plan(old(table), fields)| ==> works(k))
    {
      if ensured { return true, 0; }
      ok, done := EnsureColumns(works);
      ensured := ok;
    }
  }

  /** How many of the first n statements succeed before one does not. */
  function Accepted(works: nat -> bool, n: nat): (k: nat)
    ensures k <= n
  {
    if n == 0 then 0
    else
      var k := Accepted(works, n - 1);
      if k == n - 1 && works(n - 1) then n else k
  }

  lemma {:induction false} AcceptedUnique(works: nat -> bool, n: nat, k: nat)
    requires k <= n && (forall j :: 0 <= j < k ==> works(j)) && (k < n ==> !works(k))
    ensures Accepted(works, n) == k
    ensures k == n <==> forall j :: 0 <= j < n ==> works(j)
  {
    if k < n {
      AcceptedUnique(works, n - 1, k);
    } else if n > 0 {
      AcceptedUnique(works, n - 1, n - 1);
    }
  }

  /** An `ensure` that stops before the loop. */
  lemma {:induction false} NoColumns(table: Option<TableData>, fields: seq<Field>, works: nat -> bool, done: nat)
    requires if KnownTypes(fields) then done < 2 && !works(done) && (done == 1 ==> works(0)) else done == 0
    ensures var n := |Plan(table, fields)|;
            && done == Accepted(works, n) && !(KnownTypes(fields) && forall k :: 0 <= k < n ==> works(k))
            && EnsureTable(table, fields, done) == if done == 0 then table else Some(Found(table, fields))
  {
    PlanSize(table, fields);
    PlanIsDone(table, fields, done);
    AcceptedUnique(works, |Plan(table, fields)|, done);
  }

  /** An `ensure` that got through so many of the declared columns. */
  lemma {:induction false} SomeColumns(table: Option<TableData>, fields: seq<Field>, works: nat -> bool, done: nat, seen: nat)
    requires KnownTypes(fields) && seen <= |fields|
    requires done == 2 + |Missing(fields[..seen], Found(table, fields).notNull.Keys)|
    requires forall k :: 0 <= k < done ==> works(k)
    requires seen < |fields| ==> !works(done) && fields[seen].name !in Found(table, fields).notNull
    ensures var n := |Plan(table, fields)|; var d := Found(table, fields);
            && done == Accepted(works, n) && (seen == |fields| <==> forall k :: 0 <= k < n ==> works(k))
            && EnsureTable(table, fields, done) == Some(AddMissing(d, Missing(fields[..seen], d.notNull.Keys)))
  {
    PlanSize(table, fields);
    MissingPrefix(fields, seen, Found(table, fields).notNull.Keys);
    PlanIsDone(table, fields, done);
    AcceptedUnique(works, |Plan(table, fields)|, done);
  }

  lemma {:induction false} PlanSize(table: Option<TableData>, fields: seq<Field>)
    ensures |Plan(table, fields)| == if KnownTypes(fields) then 2 + |ToAdd(table, fields)| else 0
  {}

  /** The table after so many statements of the plan. */
  lemma {:induction false} PlanIsDone(table: Option<TableData>, fields: seq<Field>, done: nat)
    requires done <= |Plan(table, fields)|
    ensures done == 0 ==> EnsureTable(table, fields, done) == table
    ensures done == 1 ==> EnsureTable(table, fields, done) == Some(Found(table, fields))
    ensures done >= 2 ==> EnsureTable(table, fields, done) == Some(AddMissing(Found(table, fields), ToAdd(table, fields)[..done - 2]))
  {
    assert ToAdd(table, fields)[..0] == [];
  }

  /** The loop meets the missing columns in order, and stops short before the last of them. */
  lemma {:induction false} MissingPrefix(fields: seq<Field>, i: nat, existing: set<string>)
    requires i <= |fields|
    ensures var seen, names := Missing(fields[..i], existing), Missing(fields, existing);
            && |seen| <= |names| && seen == names[..|seen|]
            && (if i == |fields| then seen == names else fields[i].name !in existing ==> |seen| < |names|)
    decreases |fields| - i
  {
    if i == |fields| {
      assert fields[..i] == fields;
    } else {
      MissingSnoc(fields, i, existing);
      MissingPrefix(fields, i + 1, existing);
    }
  }

  lemma {:induction false} MissingSnoc(fields: seq<Field>, i: nat, existing: set<string>)
    requires i < |fields|
    ensures Missing(fields[..i + 1], existing) ==
            if fields[i].name in existing then Missing(fields[..i], existing) else Missing(fields[..i], existing) + [fields[i].name]
  {
    assert fields[..i + 1][..i] == fields[..i] && fields[..i + 1][i] == fields[i];
    assert Missing(fields[..i], existing) + [] == Missing(fields[..i], existing);
  }

  /** One round of the loop; a missing column has not been added by the rounds before. */
  lemma {:induction false} AddNext(d: TableData, fields: seq<Field>, i: nat)
    requires DistinctNames(fields) && i < |fields|
    ensures var existing, name := d.notNull.Keys, fields[i].name;
            var seen, next := Missing(fields[..i], existing), Missing(fields[..i + 1], existing);
            && |next| == |seen| + (if name in existing then 0 else 1)
            && AddMissing(d, next) == if name in existing then AddMissing(d, seen) else AddColumn(AddMissing(d, seen), name)
  {
    var seen, name := Missing(fields[..i], d.notNull.Keys), fields[i].name;
    MissingSnoc(fields, i, d.notNull.Keys);
    if name !in d.notNull {
      MissingNames(fields[..i], d.notNull.Keys);
      NotDeclaredYet(fields, i);
      NotAddedYet(d, seen, name);
      assert (seen + [name])[..|seen|] == seen;
    }
  }

  lemma {:induction false} NotDeclaredYet(fields: seq<Field>, i: nat)
    requires DistinctNames(fields) && i < |fields|
    ensures !HasColumn(fields[..i], fields[i].name)
  {
    assert forall j :: 0 <= j < i ==> fields[..i][j] == fields[j];
  }

  lemma {:induction false} NotAddedYet(d: TableData, names: seq<string>, name: string)
    requires name !in names
    ensures name in AddMissing(d, names).notNull <==> name in d.notNull
  {
    if names != [] { NotAddedYet(d, names[..|names| - 1], name); }
  }
}
