/** What `forget_subject` and `export_subject` return (runtimes/python/python/vignemale/gdpr.py):
    dicts keyed by the name of a table, which tables of two databases can share; and the inputs
    that show the other exceptions of Gdpr. */
module GdprReports {
  import opened Gdpr
  import opened Orm
  import opened Wrappers

  /** The person has rows in the table, whose name is t. */
  predicate RowsUnder(m: Model, who: Value, tables: Tables, t: string)
    requires m.id in tables
  {
    m.id.table == t && Selected(m, who, tables[m.id]) != []
  }

  function EntryFor(m: Model, who: Value, dryRun: bool, tables: Tables): Entry
    requires m.id in tables
  {
    Entry(|Selected(m, who, tables[m.id])|, m.onForget, dryRun)
  }

  // ---------------------------------------------------------------- the report of forget_subject

  /** The first declared table with rows of the person under this name. */
  function First(ms: seq<Model>, who: Value, tables: Tables, t: string): Option<Model>
    requires Known(ms, tables)
  {
    if ms == [] then None
    else
      var m, before := ms[|ms| - 1], First(ms[..|ms| - 1], who, tables, t);
      if before.Some? then before else if RowsUnder(m, who, tables, t) then Some(m) else None
  }

  lemma {:induction false} FirstIs(ms: seq<Model>, who: Value, tables: Tables, t: string)
    requires Known(ms, tables)
    ensures var m := First(ms, who, tables, t);
            && (m.Some? ==> m.value in ms && m.value.id in tables && RowsUnder(m.value, who, tables, t))
            && (m.None? ==> forall i :: 0 <= i < |ms| ==> !RowsUnder(ms[i], who, tables, t))
  {
    if ms != [] { FirstIs(ms[..|ms| - 1], who, tables, t); }
  }

  /** The report names the tables that held rows of the person, each with its number of rows and
      its action; of tables with the same name the first declared one. */
  lemma {:induction false} ReportIs(ms: seq<Model>, who: Value, dryRun: bool, tables: Tables, t: string)
    requires DistinctTables(ms) && Known(ms, tables) && Forget(ms, who, dryRun, tables).error.None?
    ensures var report, m := Forget(ms, who, dryRun, tables).report, First(ms, who, tables, t);
            && (t in report <==> m.Some?)
            && (m.Some? ==> m.value.id in tables && report[t] == EntryFor(m.value, who, dryRun, tables))
  {
    FirstIs(ms, who, tables, t);
    LoopNotes(ms, Gdpr.StepOf(who, dryRun), EntryNote(who, dryRun), tables, map[]);
    NotesAre(ms, who, dryRun, tables, t);
    assert map[] + Notes(ms, EntryNote(who, dryRun), tables) == Notes(ms, EntryNote(who, dryRun), tables);
  }

  lemma {:induction false} NotesAre(ms: seq<Model>, who: Value, dryRun: bool, tables: Tables, t: string)
    requires Known(ms, tables)
    ensures var notes, m := Notes(ms, EntryNote(who, dryRun), tables), First(ms, who, tables, t);
            && (t in notes <==> m.Some?)
            && (m.Some? ==> m.value.id in tables && notes[t] == EntryFor(m.value, who, dryRun, tables))
  {
    if ms != [] { NotesAre(ms[..|ms| - 1], who, dryRun, tables, t); }
  }

  /** The same tables, declared in another order. */
  ghost predicate Reordered(ms: seq<Model>, ns: seq<Model>) {
    DistinctTables(ns) && forall m :: m in ms <==> m in ns
  }

  /** Two tables of one name with rows of the person and different entries. */
  predicate EntriesClash(ms: seq<Model>, who: Value, tables: Tables)
    requires Known(ms, tables)
  {
    exists i, j :: 0 <= i < |ms| && 0 <= j < |ms| && RowsUnder(ms[i], who, tables, ms[j].id.table) && RowsUnder(ms[j], who, tables, ms[j].id.table)
      && EntryFor(ms[i], who, false, tables) != EntryFor(ms[j], who, false, tables)
  }

  lemma {:induction false} ReadyReordered(ms: seq<Model>, ns: seq<Model>, tables: Tables)
    requires AllReady(ms, tables) && Reordered(ms, ns)
    ensures AllReady(ns, tables)
  {
    forall j | 0 <= j < |ns| ensures ns[j].id in tables && DistinctNames(ns[j].fields) && Ready(ns[j].fields, tables[ns[j].id]) {
      assert ns[j] in ms;
    }
  }

  /** Whether forget_subject succeeds does not depend on the order, in a dry run either. */
  lemma {:induction false} SuccessReordered(ms: seq<Model>, ns: seq<Model>, who: Value, dryRun: bool, tables: Tables)
    requires DistinctTables(ms) && AllReady(ms, tables) && Reordered(ms, ns) && AllReady(ns, tables)
    requires Forget(ms, who, dryRun, tables).error.None?
    ensures Forget(ns, who, dryRun, tables).error.None?
  {
    if dryRun {
      DryRunChangesNothing(ms, who, tables);
      DryRunChangesNothing(ns, who, tables);
      forall j | 0 <= j < |ns| ensures HasColumn(ns[j].fields, ns[j].subject) { assert ns[j] in ms; }
    } else {
      OrderDoesNotMatter(ms, ns, who, tables);
    }
  }

  lemma {:induction false} SameReport(ms: seq<Model>, ns: seq<Model>, who: Value, dryRun: bool, tables: Tables)
    requires DistinctTables(ms) && AllReady(ms, tables) && Forget(ms, who, dryRun, tables).error.None?
    requires Reordered(ms, ns) && Known(ns, tables) && !EntriesClash(ms, who, tables)
    ensures Forget(ns, who, dryRun, tables).report == Forget(ms, who, dryRun, tables).report
  {
    var a, b := Forget(ms, who, dryRun, tables).report, Forget(ns, who, dryRun, tables).report;
    ReadyReordered(ms, ns, tables);
    SuccessReordered(ms, ns, who, dryRun, tables);
    forall t ensures t in a <==> t in b
      ensures t in a && t in b ==> a[t] == b[t]
    {
      ReportIs(ms, who, dryRun, tables, t);
      ReportIs(ns, who, dryRun, tables, t);
      FirstIs(ms, who, tables, t);
      FirstIs(ns, who, tables, t);
      if t in a {
        var m := First(ms, who, tables, t).value;
        assert m in ns;
        var j :| 0 <= j < |ns| && ns[j] == m;
        assert RowsUnder(ns[j], who, tables, t);
      }
      if t in b {
        var n := First(ns, who, tables, t).value;
        assert n in ms;
        var i :| 0 <= i < |ms| && ms[i] == n;
        assert RowsUnder(ms[i], who, tables, t);
        var m := First(ms, who, tables, t).value;
        var k :| 0 <= k < |ms| && ms[k] == m;
        assert RowsUnder(ms[k], who, tables, ms[i].id.table);
      }
    }
  }

  /** Declaring one of the tables first. */
  lemma {:induction false} ToFront(ms: seq<Model>, i: nat) returns (ns: seq<Model>)
    requires DistinctTables(ms) && i < |ms|
    ensures Reordered(ms, ns) && ns != [] && ns[0] == ms[i]
  {
    ns := [ms[i]] + ms[..i] + ms[i + 1..];
    forall a, b | 0 <= a < b < |ns| ensures ns[a].id != ns[b].id {
      var a' := if a == 0 then i else if a <= i then a - 1 else a;
      var b' := if b <= i then b - 1 else b;
      assert ns[a] == ms[a'] && ns[b] == ms[b'] && a' != b';
    }
    assert ms == ms[..i] + [ms[i]] + ms[i + 1..];
  }

  lemma {:induction false} FirstAtFront(ms: seq<Model>, who: Value, tables: Tables, t: string)
    requires Known(ms, tables) && ms != [] && RowsUnder(ms[0], who, tables, t)
    ensures First(ms, who, tables, t) == Some(ms[0])
  {
    if |ms| > 1 { FirstAtFront(ms[..|ms| - 1], who, tables, t); }
  }

  lemma {:induction false} ReportWithFront(ms: seq<Model>, who: Value, dryRun: bool, tables: Tables, i: nat, t: string)
    requires DistinctTables(ms) && AllReady(ms, tables) && Forget(ms, who, dryRun, tables).error.None?
    requires forall ns :: Reordered(ms, ns) && Known(ns, tables) ==> Forget(ns, who, dryRun, tables).report == Forget(ms, who, dryRun, tables).report
    requires i < |ms| && RowsUnder(ms[i], who, tables, t)
    ensures t in Forget(ms, who, dryRun, tables).report && Forget(ms, who, dryRun, tables).report[t] == EntryFor(ms[i], who, dryRun, tables)
  {
    var ns := ToFront(ms, i);
    ReadyReordered(ms, ns, tables);
    SuccessReordered(ms, ns, who, dryRun, tables);
    FirstAtFront(ns, who, tables, t);
    ReportIs(ns, who, dryRun, tables, t);
  }

  /** The report is the same for every order of the declarations, if and only if no two tables of
      one name hold rows of the person and differ in their numbers or actions. */
  lemma {:induction false} ReportIgnoresOrder(ms: seq<Model>, who: Value, dryRun: bool, tables: Tables)
    requires DistinctTables(ms) && AllReady(ms, tables) && Forget(ms, who, dryRun, tables).error.None?
    ensures (forall ns :: Reordered(ms, ns) && Known(ns, tables) ==> Forget(ns, who, dryRun, tables).report == Forget(ms, who, dryRun, tables).report)
            <==> !EntriesClash(ms, who, tables)
  {
    if !EntriesClash(ms, who, tables) {
      forall ns | Reordered(ms, ns) && Known(ns, tables)
        ensures Forget(ns, who, dryRun, tables).report == Forget(ms, who, dryRun, tables).report
      {
        SameReport(ms, ns, who, dryRun, tables);
      }
    } else if forall ns :: Reordered(ms, ns) && Known(ns, tables) ==> Forget(ns, who, dryRun, tables).report == Forget(ms, who, dryRun, tables).report {
      var i, j :| 0 <= i < |ms| && 0 <= j < |ms| && RowsUnder(ms[i], who, tables, ms[j].id.table) && RowsUnder(ms[j], who, tables, ms[j].id.table)
        && EntryFor(ms[i], who, false, tables) != EntryFor(ms[j], who, false, tables);
      ReportWithFront(ms, who, dryRun, tables, i, ms[j].id.table);
      ReportWithFront(ms, who, dryRun, tables, j, ms[j].id.table);
      assert false;
    }
  }

  // ---------------------------------------------------------------- the dict of export_subject

  /** The last declared table with rows of the person under this name. */
  function Last(ms: seq<Model>, who: Value, tables: Tables, t: string): Option<Model>
    requires Known(ms, tables)
  {
    if ms == [] then None
    else
      var m := ms[|ms| - 1];
      if RowsUnder(m, who, tables, t) then Some(m) else Last(ms[..|ms| - 1], who, tables, t)
  }

  lemma {:induction false} ExportIs(ms: seq<Model>, who: Value, accepts: Check, tables: Tables, t: string)
    requires Known(ms, tables) && Export(ms, who, accepts, tables).Ok?
    ensures var out, m := Export(ms, who, accepts, tables).value, Last(ms, who, tables, t);
            && (t in out <==> m.Some?)
            && (m.Some? ==> m.value in ms && m.value.id in tables && RowsUnder(m.value, who, tables, t)
                            && out[t] == Selected(m.value, who, tables[m.value.id]))
            && (m.None? ==> forall i :: 0 <= i < |ms| ==> !RowsUnder(ms[i], who, tables, t))
  {
    if ms != [] { ExportIs(ms[..|ms| - 1], who, accepts, tables, t); }
  }

  /** Two tables of one name with different rows of the person. */
  predicate RowsClash(ms: seq<Model>, who: Value, tables: Tables)
    requires Known(ms, tables)
  {
    exists i, j :: 0 <= i < |ms| && 0 <= j < |ms| && RowsUnder(ms[i], who, tables, ms[j].id.table) && RowsUnder(ms[j], who, tables, ms[j].id.table)
      && Selected(ms[i], who, tables[ms[i].id]) != Selected(ms[j], who, tables[ms[j].id])
  }

  /** The rows of the person in this table are in the export, under its name. */
  predicate Exported(m: Model, who: Value, tables: Tables, out: map<string, seq<Row>>)
    requires m.id in tables
  {
    RowsUnder(m, who, tables, m.id.table) ==> m.id.table in out && out[m.id.table] == Selected(m, who, tables[m.id])
  }

  /** An export has all the data of the person, table by table, if and only if no two tables of one
      name hold different rows of the person. */
  lemma {:induction false} ExportIsComplete(ms: seq<Model>, who: Value, accepts: Check, tables: Tables)
    requires Known(ms, tables) && Export(ms, who, accepts, tables).Ok?
    ensures (forall i :: 0 <= i < |ms| ==> Exported(ms[i], who, tables, Export(ms, who, accepts, tables).value))
            <==> !RowsClash(ms, who, tables)
  {
    var out := Export(ms, who, accepts, tables).value;
    if !RowsClash(ms, who, tables) {
      forall i | 0 <= i < |ms| ensures Exported(ms[i], who, tables, out) {
        ExportIs(ms, who, accepts, tables, ms[i].id.table);
        if RowsUnder(ms[i], who, tables, ms[i].id.table) {
          var m := Last(ms, who, tables, ms[i].id.table).value;
          var k :| 0 <= k < |ms| && ms[k] == m;
          assert RowsUnder(ms[k], who, tables, ms[i].id.table);
        }
      }
    } else {
      var i, j :| 0 <= i < |ms| && 0 <= j < |ms| && RowsUnder(ms[i], who, tables, ms[j].id.table) && RowsUnder(ms[j], who, tables, ms[j].id.table)
        && Selected(ms[i], who, tables[ms[i].id]) != Selected(ms[j], who, tables[ms[j].id]);
      assert !(Exported(ms[i], who, tables, out) && Exported(ms[j], who, tables, out));
    }
  }

  // ---------------------------------------------------------------- the inputs that show it

  const WHO := Text("u")
  const UID := Field("uid", Str, false, false, false)

  /** The table users of a database, with n rows of the person. */
  function Users(database: string): Model { Model(TableId(database, "users"), [UID], "uid", Delete("delete")) }

  function UserRows(n: nat): TableData { TableData(map["uid" := true], seq(n, _ => map["uid" := WHO])) }

  lemma {:induction false} AllMatch(rows: seq<Row>, where: Where)
    requires forall i :: 0 <= i < |rows| ==> RowMatches(rows[i], where)
    ensures Matching(rows, where) == rows
  {
    if rows != [] { AllMatch(rows[1..], where); }
  }

  lemma {:induction false} UserRowsAre(database: string, n: nat)
    ensures Selected(Users(database), WHO, UserRows(n)) == UserRows(n).rows && |UserRows(n).rows| == n
    ensures DistinctNames([UID]) && Ready([UID], UserRows(n)) && HasColumn([UID], "uid") && Erasable(Users(database), WHO, UserRows(n))
  {
    var rows := UserRows(n).rows;
    forall i | 0 <= i < |rows| ensures RowMatches(rows[i], SubjectWhere(Users(database), WHO)) { assert rows[i] == map["uid" := WHO]; }
    AllMatch(rows, SubjectWhere(Users(database), WHO));
    assert [UID][0].name == "uid";
  }

  /** Two tables of one name: what the two calls return. */
  lemma {:induction false} OneReport(a: Model, b: Model, who: Value, tables: Tables)
    requires a.id != b.id && a.id.table == b.id.table && AllReady([a, b], tables) && AllErasable([a, b], who, tables)
    requires a.id in tables && RowsUnder(a, who, tables, a.id.table)
    ensures Forget([a, b], who, false, tables).report == map[a.id.table := EntryFor(a, who, false, tables)]
  {
    var ms := [a, b];
    SuccessIffErasable(ms, who, tables);
    var report := Forget(ms, who, false, tables).report;
    forall t ensures t in report <==> t == a.id.table {
      ReportIs(ms, who, false, tables, t);
      FirstIs(ms, who, tables, t);
      assert RowsUnder(ms[0], who, tables, a.id.table);
    }
    FirstAtFront(ms, who, tables, a.id.table);
    ReportIs(ms, who, false, tables, a.id.table);
  }

  lemma {:induction false} OneExport(a: Model, b: Model, who: Value, accepts: Check, tables: Tables)
    requires Known([a, b], tables) && Exportable([a, b], who, accepts, tables) && a.id.table == b.id.table
    requires b.id in tables && RowsUnder(b, who, tables, b.id.table)
    ensures Export([a, b], who, accepts, tables) == Ok(map[b.id.table := Selected(b, who, tables[b.id])])
  {
    var ms := [a, b];
    ExportSucceedsExactly(ms, who, accepts, tables);
    var out := Export(ms, who, accepts, tables).value;
    forall t ensures t in out <==> t == b.id.table {
      ExportIs(ms, who, accepts, tables, t);
      assert RowsUnder(ms[1], who, tables, b.id.table);
    }
    ExportIs(ms, who, accepts, tables, b.id.table);
    assert Last(ms, who, tables, b.id.table) == Some(b);
    assert out == map[b.id.table := Selected(b, who, tables[b.id])];
  }

  /** Two databases with a table users: the report counts the first declared table only, whichever
      it is, and the export has the rows of the last declared one only. */
  lemma {:induction false} SameNameLosesEntries(x: string, y: string, m: nat, n: nat, accepts: Check)
    requires x != y && 0 < m && 0 < n && m != n && accepts(UID, WHO)
    ensures var a, b := Users(x), Users(y);
            var tables: Tables := map[a.id := UserRows(m), b.id := UserRows(n)];
            && Forget([a, b], WHO, false, tables).report == map["users" := Entry(m, Delete("delete"), false)]
            && Forget([b, a], WHO, false, tables).report == map["users" := Entry(n, Delete("delete"), false)]
            && Export([a, b], WHO, accepts, tables) == Ok(map["users" := UserRows(n).rows])
  {
    var a, b := Users(x), Users(y);
    UserRowsAre(x, m);
    UserRowsAre(y, n);
    UserRowsValidate(x, m, accepts);
    UserRowsValidate(y, n, accepts);
    var tables: Tables := map[a.id := UserRows(m), b.id := UserRows(n)];
    OneReport(a, b, WHO, tables);
    OneReport(b, a, WHO, tables);
    OneExport(a, b, WHO, accepts, tables);
  }

  lemma {:induction false} UserRowsValidate(database: string, n: nat, accepts: Check)
    requires accepts(UID, WHO)
    ensures AllValidate(accepts, [UID], Selected(Users(database), WHO, UserRows(n)))
  {
    UserRowsAre(database, n);
    forall k | 0 <= k < n ensures Validates(accepts, [UID], UserRows(n).rows[k]) { assert UserRows(n).rows[k] == map["uid" := WHO]; }
  }

  /** A personal number with a default, `age: int = PII(0)`, and one that is required. */
  const AGE := Field("age", Int, true, false, true)
  const BORN := Field("born", Int, false, false, true)

  function People(column: Field): Model { Model(TableId("main", "people"), [UID, column], "uid", Anonymize) }

  /** One row, the person's. */
  function PeopleRow(column: Field): TableData {
    TableData(map["uid" := true, column.name := !column.nullable], [map["uid" := WHO, column.name := Number(30)]])
  }

  lemma {:induction false} PeopleRowIs(column: Field)
    requires column.name != "uid"
    ensures var m, d := People(column), PeopleRow(column);
            DistinctNames(m.fields) && Ready(m.fields, d) && Selected(m, WHO, d) == d.rows && SomebodyConcerned(m, WHO, d) && HasColumn(m.fields, "uid")
  {
    var m, d := People(column), PeopleRow(column);
    RowMatchesPerson(m, WHO, d.rows[0]);
    AllMatch(d.rows, SubjectWhere(m, WHO));
    assert Concerns(m, WHO, d.rows[0]);
    assert m.fields[0].name == "uid";
    assert d.rows[0].Keys == d.notNull.Keys;
  }

  /** `age: int = PII(0)`: the person can be exported and forgotten, and not exported again. */
  lemma {:induction false} DefaultIsNotOptional(accepts: Check)
    requires accepts(UID, WHO) && accepts(AGE, Number(30)) && !accepts(AGE, Null)
    ensures var m := People(AGE);
            var tables: Tables := map[m.id := PeopleRow(AGE)];
            var forgotten := Forget([m], WHO, false, tables);
            && Export([m], WHO, accepts, tables).Ok? && forgotten.error.None?
            && Known([m], forgotten.tables) && Export([m], WHO, accepts, forgotten.tables).Err?
  {
    var m, d := People(AGE), PeopleRow(AGE);
    var ms, tables: Tables := [m], map[m.id := d];
    PeopleRowIs(AGE);
    assert Validates(accepts, m.fields, d.rows[0]);
    ExportSucceedsExactly(ms, WHO, accepts, tables);
    SuccessIffErasable(ms, WHO, tables);
    ForgetSubjectErases(ms, WHO, tables);
    assert StillShown(m, WHO, d);
    assert m.fields[1].pii && Redacted(m.fields[1]) == Null;
    ForgottenIsExportable(ms, WHO, accepts, tables, Forget(ms, WHO, false, tables).tables);
  }

  /** `born: int = PII()`: a NOT NULL column cannot be redacted, and the table declared after it is
      already erased when forget_subject raises. */
  lemma {:induction false} StopsHalfway(database: string)
    ensures var m, later := People(BORN), Users(database);
            var tables: Tables := map[m.id := PeopleRow(BORN), later.id := UserRows(1)];
            var r := Forget([m, later], WHO, false, tables);
            && r.error.Some? && r.tables.Keys == tables.Keys
            && r.tables[m.id] == tables[m.id] && r.tables[later.id].rows == []
  {
    var m, later := People(BORN), Users(database);
    var ms, tables: Tables := [m, later], map[m.id := PeopleRow(BORN), later.id := UserRows(1)];
    PeopleRowIs(BORN);
    UserRowsAre(database, 1);
    assert m.fields[1].name in tables[m.id].notNull && tables[m.id].notNull[m.fields[1].name];
    HalfErased(m, later, WHO, tables);
    assert UserRows(1).rows == [map["uid" := WHO]];
  }

  lemma {:induction false} HalfErased(a: Model, b: Model, who: Value, tables: Tables)
    requires a.id != b.id && AllReady([a, b], tables) && a.id in tables && b.id in tables && b.onForget.Delete?
    requires !Erasable(a, who, tables[a.id]) && Erasable(b, who, tables[b.id])
    ensures var r := Forget([a, b], who, false, tables);
            && r.error.Some? && r.tables.Keys == tables.Keys
            && r.tables[a.id] == tables[a.id] && r.tables[b.id].rows == WithoutPerson(b, who, tables[b.id].rows)
  {
    var ms := [a, b];
    var k := Reached(ms, ForgetStep(who), tables);
    StopsWhereNotErasable(ms, who, tables);
    ForgetSubjectErases(ms, who, tables);
    assert Erasable(ms[1], who, tables[ms[1].id]) && !Erasable(ms[0], who, tables[ms[0].id]);
    assert k == 1;
    assert !Mentions(ms, 1, a.id);
    assert Erased(ms[1], who, tables[b.id], Forget(ms, who, false, tables).tables[b.id]);
  }
}
