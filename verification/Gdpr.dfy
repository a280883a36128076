/** `forget_subject` and `export_subject` of runtimes/python/python/vignemale/gdpr.py. */
module Gdpr {
  import opened Wrappers
  import opened Orm

  datatype TableId = TableId(database: string, table: string)

  /** `__on_forget__`: "anonymize", or any other text, which means deletion. */
  datatype Action = Anonymize | Delete(text: string)

  /** A declared table: where it lives, its columns, `__subject__` and `__on_forget__`. */
  datatype Model = Model(id: TableId, fields: seq<Field>, subject: string, onForget: Action)

  type Tables = map<TableId, TableData>

  datatype Entry = Entry(rows: nat, action: Action, dryRun: bool)

  type Report = map<string, Entry>

  // ---------------------------------------------------------------- what erasure means

  /** What a personal column holds after anonymisation. */
  function Redacted(f: Field): Value {
    if f.typ.Str? then Text("[redacted]") else Null
  }

  predicate IsPii(fields: seq<Field>, c: string) {
    exists i :: 0 <= i < |fields| && fields[i].pii && fields[i].name == c
  }

  /** Whether a row belongs to the person. */
  predicate Concerns(m: Model, who: Value, row: Row) { m.subject in row && row[m.subject] == who }

  /** All personal columns of the row are redacted. */
  ghost predicate AllRedacted(fields: seq<Field>, row: Row) {
    forall i :: 0 <= i < |fields| && fields[i].pii ==>
      fields[i].name in row && row[fields[i].name] == if fields[i].typ == Str then Text("[redacted]") else Null
  }

  /** Exactly the personal columns are redacted. */
  ghost predicate RedactedRow(fields: seq<Field>, row: Row, row': Row) {
    && row'.Keys == row.Keys
    && AllRedacted(fields, row')
    && forall c :: c in row && !IsPii(fields, c) ==> row'[c] == row[c]
  }

  ghost predicate AnonymizedRows(m: Model, who: Value, rows: seq<Row>, rows': seq<Row>) {
    && |rows'| == |rows|
    && forall i :: 0 <= i < |rows| ==>
         if Concerns(m, who, rows[i]) then RedactedRow(m.fields, rows[i], rows'[i]) else rows'[i] == rows[i]
  }

  /** The other people's rows, in order. */
  function WithoutPerson(m: Model, who: Value, rows: seq<Row>): seq<Row> {
    if rows == [] then []
    else (if Concerns(m, who, rows[0]) then [] else [rows[0]]) + WithoutPerson(m, who, rows[1..])
  }

  /** What erasure of `who` from a table means, independently of how it is done. */
  ghost predicate Erased(m: Model, who: Value, d: TableData, d': TableData) {
    && d'.notNull == d.notNull
    && if m.onForget.Anonymize? then AnonymizedRows(m, who, d.rows, d'.rows) else d'.rows == WithoutPerson(m, who, d.rows)
  }

  /** Every personal column that is not text may be NULL. */
  ghost predicate RedactionAllowed(fields: seq<Field>, d: TableData) {
    forall i :: 0 <= i < |fields| && fields[i].pii && !fields[i].typ.Str? && fields[i].name in d.notNull ==> !d.notNull[fields[i].name]
  }

  ghost predicate SomebodyConcerned(m: Model, who: Value, d: TableData) {
    exists i :: 0 <= i < |d.rows| && Concerns(m, who, d.rows[i])
  }

  /** A table can be erased unless the subject column is not declared, or a row of the person
      would have to hold NULL in a NOT NULL column. */
  ghost predicate Erasable(m: Model, who: Value, d: TableData) {
    && HasColumn(m.fields, m.subject)
    && (SomebodyConcerned(m, who, d) && m.onForget.Anonymize? ==> RedactionAllowed(m.fields, d))
  }

  // ---------------------------------------------------------------- one table

  /** The values `_anonymize` collects, field by field. */
  function Redaction(fields: seq<Field>): Row {
    if fields == [] then map[]
    else
      var f := fields[|fields| - 1];
      var values := Redaction(fields[..|fields| - 1]);
      if f.pii then values[f.name := Redacted(f)] else values
  }

  function SubjectWhere(m: Model, who: Value): Where { [(m.subject, who)] }

  /** One round of the loop on the table's data. */
  function ForgetTable(m: Model, who: Value, d: TableData): Result<TableData, SqlError> {
    var where := SubjectWhere(m, who);
    var n := Count(m.fields, d, where);
    if n.Err? then Err(n.error)
    else if n.value == 0 then Ok(d)
    else if m.onForget.Anonymize? then UpdateWhere(m.fields, d, Redaction(m.fields), where)
    else DeleteWhere(m.fields, d, where)
  }

  /** The same round in a dry run. */
  function CountTable(m: Model, who: Value, d: TableData): Result<TableData, SqlError> {
    var n := Count(m.fields, d, SubjectWhere(m, who));
    if n.Err? then Err(n.error) else Ok(d)
  }

  /** What the round adds to the report. */
  function EntryOf(m: Model, who: Value, dryRun: bool, d: TableData): Report {
    var n := |Matching(d.rows, SubjectWhere(m, who))|;
    if n == 0 then map[] else map[m.id.table := Entry(n, m.onForget, dryRun)]
  }

  lemma {:induction false} RedactionValues(fields: seq<Field>)
    requires DistinctNames(fields)
    ensures AllRedacted(fields, Redaction(fields))
    ensures forall c :: c in Redaction(fields) <==> IsPii(fields, c)
    ensures forall c :: c in Redaction(fields) && Redaction(fields)[c] == Null ==>
              exists i :: 0 <= i < |fields| && fields[i].pii && fields[i].name == c && !fields[i].typ.Str?
  {
    if fields != [] {
      var n := |fields| - 1;
      var f, init := fields[n], fields[..n];
      RedactionValues(init);
      PiiOfInit(fields);
      forall c | c in Redaction(fields) && Redaction(fields)[c] == Null
        ensures exists i :: 0 <= i < |fields| && fields[i].pii && fields[i].name == c && !fields[i].typ.Str?
      {
        if f.pii && c == f.name {
          assert fields[n].name == c;
        } else {
          var i :| 0 <= i < n && init[i].pii && init[i].name == c && !init[i].typ.Str?;
          assert fields[i] == init[i];
        }
      }
      forall i | 0 <= i < |fields| && fields[i].pii
        ensures fields[i].name in Redaction(fields) && Redaction(fields)[fields[i].name] == Redacted(fields[i])
      {
        if i < n { assert init[i] == fields[i]; }
      }
    }
  }

  lemma {:induction false} PiiOfInit(fields: seq<Field>)
    requires fields != []
    ensures var n := |fields| - 1;
            forall c :: IsPii(fields, c) <==> IsPii(fields[..n], c) || (fields[n].pii && fields[n].name == c)
  {
    var n := |fields| - 1;
    forall c ensures IsPii(fields, c) <==> IsPii(fields[..n], c) || (fields[n].pii && fields[n].name == c) {
      if i :| 0 <= i < n && fields[..n][i].pii && fields[..n][i].name == c { assert fields[i] == fields[..n][i]; }
      if i :| 0 <= i < |fields| && fields[i].pii && fields[i].name == c {
        if i < n { assert fields[..n][i] == fields[i]; }
      }
    }
  }

  lemma {:induction false} RowMatchesPerson(m: Model, who: Value, row: Row)
    ensures RowMatches(row, SubjectWhere(m, who)) <==> Concerns(m, who, row)
  {
    assert SubjectWhere(m, who)[0] == (m.subject, who);
  }

  lemma {:induction false} WhereKnownIsColumn(m: Model, who: Value)
    ensures WhereKnown(m.fields, SubjectWhere(m, who)) <==> HasColumn(m.fields, m.subject)
  {
    assert SubjectWhere(m, who)[0] == (m.subject, who);
  }

  lemma {:induction false} OthersArePeople(m: Model, who: Value, rows: seq<Row>)
    ensures Others(rows, SubjectWhere(m, who)) == WithoutPerson(m, who, rows)
  {
    if rows != [] {
      RowMatchesPerson(m, who, rows[0]);
      OthersArePeople(m, who, rows[1..]);
    }
  }

  lemma {:induction false} NobodyConcerned(m: Model, who: Value, rows: seq<Row>)
    ensures Matching(rows, SubjectWhere(m, who)) == [] <==> forall i :: 0 <= i < |rows| ==> !Concerns(m, who, rows[i])
    ensures Matching(rows, SubjectWhere(m, who)) == [] ==> WithoutPerson(m, who, rows) == rows
  {
    if rows != [] {
      RowMatchesPerson(m, who, rows[0]);
      NobodyConcerned(m, who, rows[1..]);
    }
  }

  /** The database refuses the redaction exactly when it would store a forbidden NULL. */
  lemma {:induction false} RedactionFits(m: Model, d: TableData)
    requires DistinctNames(m.fields)
    ensures var values := Redaction(m.fields);
            && (RedactionAllowed(m.fields, d) <==> !(exists c :: c in values && values[c] == Null && c in d.notNull && d.notNull[c]))
            && !(exists c :: c in values && !HasColumn(m.fields, c))
  {
    RedactionValues(m.fields);
    var values := Redaction(m.fields);
    forall c | c in values ensures HasColumn(m.fields, c) {
      assert IsPii(m.fields, c);
    }
    if i :| 0 <= i < |m.fields| && m.fields[i].pii && !m.fields[i].typ.Str? && m.fields[i].name in d.notNull && d.notNull[m.fields[i].name] {
      assert values[m.fields[i].name] == Null;
    }
  }

  lemma {:induction false} RedactsRow(m: Model, row: Row)
    requires DistinctNames(m.fields) && forall i :: 0 <= i < |m.fields| ==> m.fields[i].name in row
    ensures RedactedRow(m.fields, row, row + Redaction(m.fields))
  {
    RedactionValues(m.fields);
    var row' := row + Redaction(m.fields);
    forall c ensures c in row' <==> c in row {
      if c in Redaction(m.fields) { assert IsPii(m.fields, c); }
    }
  }

  lemma {:induction false} AnonymizesRows(m: Model, who: Value, rows: seq<Row>)
    requires DistinctNames(m.fields)
    requires forall k, i :: 0 <= k < |rows| && 0 <= i < |m.fields| ==> m.fields[i].name in rows[k]
    ensures AnonymizedRows(m, who, rows, Updated(rows, Redaction(m.fields), SubjectWhere(m, who)))
  {
    forall k | 0 <= k < |rows|
      ensures if Concerns(m, who, rows[k]) then RedactedRow(m.fields, rows[k], Updated(rows, Redaction(m.fields), SubjectWhere(m, who))[k])
              else Updated(rows, Redaction(m.fields), SubjectWhere(m, who))[k] == rows[k]
    {
      RowMatchesPerson(m, who, rows[k]);
      RedactsRow(m, rows[k]);
    }
  }

  /** The update in `UpdateWhere`, without its case of no personal column at all. */
  lemma {:induction false} UpdateWhereRows(m: Model, who: Value, d: TableData)
    requires DistinctNames(m.fields) && HasColumn(m.fields, m.subject)
    requires Matching(d.rows, SubjectWhere(m, who)) != []
    ensures var r := UpdateWhere(m.fields, d, Redaction(m.fields), SubjectWhere(m, who));
            && (r.Ok? <==> RedactionAllowed(m.fields, d))
            && (r.Ok? ==> r.value == d.(rows := Updated(d.rows, Redaction(m.fields), SubjectWhere(m, who))))
  {
    RedactionFits(m, d);
    WhereKnownIsColumn(m, who);
    if Redaction(m.fields) == map[] {
      NoUpdate(d.rows, SubjectWhere(m, who));
    }
  }

  lemma {:induction false} NoUpdate(rows: seq<Row>, where: Where)
    ensures Updated(rows, map[], where) == rows
  {
    forall i | 0 <= i < |rows| ensures rows[i] + map[] == rows[i] {}
  }

  lemma {:induction false} UpdatedTwice(rows: seq<Row>, values: Row, where: Where)
    ensures Updated(Updated(rows, values, where), values, where) == Updated(rows, values, where)
  {
    forall i | 0 <= i < |rows| ensures (rows[i] + values) + values == rows[i] + values {}
  }

  lemma {:induction false} ColumnsInRows(fields: seq<Field>, d: TableData)
    requires Ready(fields, d)
    ensures forall k, i :: 0 <= k < |d.rows| && 0 <= i < |fields| ==> fields[i].name in d.rows[k]
  {
    forall k, i | 0 <= k < |d.rows| && 0 <= i < |fields| ensures fields[i].name in d.rows[k] {
      assert fields[i].name in d.rows[k].Keys;
    }
  }

  /** The round of the loop by cases. */
  lemma {:induction false} ForgetTableCases(m: Model, who: Value, d: TableData)
    requires DistinctNames(m.fields)
    ensures ForgetTable(m, who, d).Ok? <==> Erasable(m, who, d)
    ensures ForgetTable(m, who, d).Ok? ==>
              ForgetTable(m, who, d).value == d.(rows :=
                if m.onForget.Anonymize? then Updated(d.rows, Redaction(m.fields), SubjectWhere(m, who))
                else Others(d.rows, SubjectWhere(m, who)))
  {
    var where := SubjectWhere(m, who);
    WhereKnownIsColumn(m, who);
    NobodyConcerned(m, who, d.rows);
    if HasColumn(m.fields, m.subject) {
      if Matching(d.rows, where) == [] {
        NothingToDo(d.rows, Redaction(m.fields), where);
        assert !SomebodyConcerned(m, who, d);
      } else if m.onForget.Anonymize? {
        UpdateWhereRows(m, who, d);
      }
    }
  }

  lemma {:induction false} NothingToDo(rows: seq<Row>, values: Row, where: Where)
    requires Matching(rows, where) == []
    ensures Updated(rows, values, where) == rows && Others(rows, where) == rows
  {
    MatchingEmpty(rows, where);
  }

  /** One round erases the person from the table, exactly when the table is erasable. */
  lemma {:induction false} ForgetTableErases(m: Model, who: Value, d: TableData)
    requires DistinctNames(m.fields) && Ready(m.fields, d)
    ensures ForgetTable(m, who, d).Ok? <==> Erasable(m, who, d)
    ensures ForgetTable(m, who, d).Ok? ==> Erased(m, who, d, ForgetTable(m, who, d).value)
  {
    ForgetTableCases(m, who, d);
    ColumnsInRows(m.fields, d);
    AnonymizesRows(m, who, d.rows);
    OthersArePeople(m, who, d.rows);
  }

  /** Erasing twice is erasing once. */
  lemma {:induction false} ForgetTableIdempotent(m: Model, who: Value, d: TableData)
    requires DistinctNames(m.fields) && ForgetTable(m, who, d).Ok?
    ensures ForgetTable(m, who, ForgetTable(m, who, d).value) == ForgetTable(m, who, d)
  {
    var where, d1 := SubjectWhere(m, who), ForgetTable(m, who, d).value;
    ForgetTableCases(m, who, d);
    if m.onForget.Anonymize? {
      StillErasable(m, who, d);
      ForgetTableCases(m, who, d1);
      UpdatedTwice(d.rows, Redaction(m.fields), where);
    } else {
      ForgetTableCases(m, who, d1);
      MatchingOfOthers(d.rows, where);
      NothingToDo(d1.rows, map[], where);
    }
  }

  lemma {:induction false} StillErasable(m: Model, who: Value, d: TableData)
    requires DistinctNames(m.fields) && Erasable(m, who, d) && m.onForget.Anonymize?
    ensures Erasable(m, who, d.(rows := Updated(d.rows, Redaction(m.fields), SubjectWhere(m, who))))
  {
    if !SomebodyConcerned(m, who, d) {
      NobodyConcerned(m, who, d.rows);
      NothingToDo(d.rows, Redaction(m.fields), SubjectWhere(m, who));
    }
  }

  /** The table is still well-formed afterwards, so that the next run finds it ready. */
  lemma {:induction false} StillReady(m: Model, who: Value, d: TableData)
    requires DistinctNames(m.fields) && Ready(m.fields, d) && ForgetTable(m, who, d).Ok?
    ensures Ready(m.fields, ForgetTable(m, who, d).value)
  {
    var where := SubjectWhere(m, who);
    ForgetTableCases(m, who, d);
    if m.onForget.Anonymize? {
      if SomebodyConcerned(m, who, d) {
        UpdatedIsValid(m, who, d);
      } else {
        NobodyConcerned(m, who, d.rows);
        NothingToDo(d.rows, Redaction(m.fields), where);
      }
    } else {
      MatchingMembers(d.rows, where);
    }
  }

  lemma {:induction false} UpdatedIsValid(m: Model, who: Value, d: TableData)
    requires DistinctNames(m.fields) && Ready(m.fields, d) && RedactionAllowed(m.fields, d)
    ensures ValidTable(d.(rows := Updated(d.rows, Redaction(m.fields), SubjectWhere(m, who))))
  {
    var values := Redaction(m.fields);
    RedactionFits(m, d);
    ColumnsInRows(m.fields, d);
    forall k | 0 <= k < |d.rows|
      ensures (d.rows[k] + values).Keys == d.notNull.Keys
      ensures forall c :: c in d.notNull && d.notNull[c] ==> (d.rows[k] + values)[c] != Null
    {
      RedactsRow(m, d.rows[k]);
      assert d.rows[k].Keys == d.notNull.Keys;
    }
  }

  // ---------------------------------------------------------------- a loop over tables

  predicate DistinctTables(ms: seq<Model>) {
    forall i, j :: 0 <= i < j < |ms| ==> ms[i].id != ms[j].id
  }

  predicate Known(ms: seq<Model>, tables: Tables) {
    forall i :: 0 <= i < |ms| ==> ms[i].id in tables
  }

  datatype Outcome = Outcome(tables: Tables, report: Report, error: Option<SqlError>)

  type Step = (Model, TableData) -> Result<TableData, SqlError>
  type Note = (Model, TableData) -> Report

  /** A loop over reversed(ms) that works on one table a round, raises as soon as a round
      fails, and collects notes. */
  function Loop(ms: seq<Model>, step: Step, note: Note, tables: Tables, report: Report): Outcome
    requires Known(ms, tables)
  {
    if ms == [] then Outcome(tables, report, None)
    else
      var m := ms[|ms| - 1];
      var r := step(m, tables[m.id]);
      if r.Err? then Outcome(tables, report, Some(r.error))
      else Loop(ms[..|ms| - 1], step, note, tables[m.id := r.value], report + note(m, tables[m.id]))
  }

  /** The tables from this position on are the ones the loop completes. */
  ghost function Reached(ms: seq<Model>, step: Step, tables: Tables): (k: nat)
    requires Known(ms, tables)
    ensures k <= |ms|
  {
    if ms == [] || step(ms[|ms| - 1], tables[ms[|ms| - 1].id]).Err? then |ms|
    else Reached(ms[..|ms| - 1], step, tables)
  }

  lemma {:induction false} ReachedSteps(ms: seq<Model>, step: Step, tables: Tables)
    requires Known(ms, tables)
    ensures var k := Reached(ms, step, tables);
            && (forall i :: k <= i < |ms| ==> step(ms[i], tables[ms[i].id]).Ok?)
            && (k > 0 ==> step(ms[k - 1], tables[ms[k - 1].id]).Err?)
  {
    if ms != [] { ReachedSteps(ms[..|ms| - 1], step, tables); }
  }

  /** The notes of these tables. */
  ghost function Notes(ms: seq<Model>, note: Note, tables: Tables): Report
    requires Known(ms, tables)
  {
    if ms == [] then map[] else note(ms[|ms| - 1], tables[ms[|ms| - 1].id]) + Notes(ms[..|ms| - 1], note, tables)
  }

  predicate Mentions(ms: seq<Model>, k: nat, id: TableId) {
    exists i :: k <= i < |ms| && ms[i].id == id
  }

  /** What the loop leaves: the completed tables are stepped once, all others untouched. */
  ghost predicate SteppedFrom(ms: seq<Model>, k: nat, step: Step, tables: Tables, tables': Tables)
    requires k <= |ms| && Known(ms, tables)
  {
    && tables'.Keys == tables.Keys
    && (forall i :: k <= i < |ms| ==> step(ms[i], tables[ms[i].id]) == Ok(tables'[ms[i].id]))
    && (forall id :: id in tables && !Mentions(ms, k, id) ==> tables'[id] == tables[id])
  }

  lemma {:induction false} LoopMeaning(ms: seq<Model>, step: Step, note: Note, tables: Tables, report: Report)
    requires DistinctTables(ms) && Known(ms, tables)
    ensures var k, r := Reached(ms, step, tables), Loop(ms, step, note, tables, report);
            (r.error.None? <==> k == 0) && SteppedFrom(ms, k, step, tables, r.tables)
  {
    if ms == [] { return; }
    var n := |ms| - 1;
    var m, init := ms[n], ms[..n];
    var r := step(m, tables[m.id]);
    if r.Ok? {
      var tables1 := tables[m.id := r.value];
      LoopMeaning(init, step, note, tables1, report + note(m, tables[m.id]));
      ReachedFrame(init, step, tables, tables1);
      OneMoreStepped(ms, Reached(init, step, tables1), step, tables, Loop(ms, step, note, tables, report).tables);
    }
  }

  lemma {:induction false} OneMoreStepped(ms: seq<Model>, k: nat, step: Step, tables: Tables, tables': Tables)
    requires DistinctTables(ms) && Known(ms, tables) && k < |ms|
    requires var m := ms[|ms| - 1];
             step(m, tables[m.id]).Ok?
             && SteppedFrom(ms[..|ms| - 1], k, step, tables[m.id := step(m, tables[m.id]).value], tables')
    ensures SteppedFrom(ms, k, step, tables, tables')
  {
    var n := |ms| - 1;
    var m, init := ms[n], ms[..n];
    var tables1 := tables[m.id := step(m, tables[m.id]).value];
    assert tables'[m.id] == tables1[m.id];
    forall i | k <= i < |ms| ensures step(ms[i], tables[ms[i].id]) == Ok(tables'[ms[i].id]) {
      if i < n {
        assert init[i] == ms[i];
        assert tables1[ms[i].id] == tables[ms[i].id];
      }
    }
    forall id | id in tables && !Mentions(ms, k, id) ensures tables'[id] == tables[id] {
      assert ms[n].id != id;
      forall i | k <= i < n ensures init[i].id != id { assert ms[i].id != id; }
      assert !Mentions(init, k, id);
    }
  }

  lemma {:induction false} ReachedFrame(ms: seq<Model>, step: Step, a: Tables, b: Tables)
    requires Known(ms, a) && Known(ms, b)
    requires forall i :: 0 <= i < |ms| ==> a[ms[i].id] == b[ms[i].id]
    ensures Reached(ms, step, a) == Reached(ms, step, b)
  {
    if ms != [] { ReachedFrame(ms[..|ms| - 1], step, a, b); }
  }

  lemma {:induction false} NotesFrame(ms: seq<Model>, note: Note, a: Tables, b: Tables)
    requires Known(ms, a) && Known(ms, b)
    requires forall i :: 0 <= i < |ms| ==> a[ms[i].id] == b[ms[i].id]
    ensures Notes(ms, note, a) == Notes(ms, note, b)
  {
    if ms != [] { NotesFrame(ms[..|ms| - 1], note, a, b); }
  }

  /** The report is about the tables as they were before the loop. */
  lemma {:induction false} LoopNotes(ms: seq<Model>, step: Step, note: Note, tables: Tables, report: Report)
    requires DistinctTables(ms) && Known(ms, tables)
    ensures var r := Loop(ms, step, note, tables, report);
            r.error.None? ==> r.report == report + Notes(ms, note, tables)
  {
    if ms == [] { return; }
    var n := |ms| - 1;
    var m, init := ms[n], ms[..n];
    var r := step(m, tables[m.id]);
    if r.Ok? {
      var tables1 := tables[m.id := r.value];
      var entry := note(m, tables[m.id]);
      LoopNotes(init, step, note, tables1, report + entry);
      NotesFrame(init, note, tables, tables1);
      NotesAssociate(report, entry, Notes(init, note, tables));
    }
  }

  lemma {:induction false} NotesAssociate(a: Report, b: Report, c: Report)
    ensures (a + b) + c == a + (b + c)
  {}

  // ---------------------------------------------------------------- forget_subject

  function ForgetStep(who: Value): Step { (m, d) => ForgetTable(m, who, d) }
  function CountStep(who: Value): Step { (m, d) => CountTable(m, who, d) }
  function StepOf(who: Value, dryRun: bool): Step { if dryRun then CountStep(who) else ForgetStep(who) }
  function EntryNote(who: Value, dryRun: bool): Note { (m, d) => EntryOf(m, who, dryRun, d) }

  /** The loop over reversed(_subject_tables()): the last declared table first. */
  function Forget(ms: seq<Model>, who: Value, dryRun: bool, tables: Tables): Outcome
    requires Known(ms, tables)
  {
    Loop(ms, StepOf(who, dryRun), EntryNote(who, dryRun), tables, map[])
  }

  ghost predicate AllReady(ms: seq<Model>, tables: Tables) {
    Known(ms, tables) && forall i :: 0 <= i < |ms| ==> DistinctNames(ms[i].fields) && Ready(ms[i].fields, tables[ms[i].id])
  }

  /** The person is erased from tables ms[k..], and everything else is as it was. */
  ghost predicate ErasedFrom(ms: seq<Model>, k: nat, who: Value, tables: Tables, tables': Tables)
    requires Known(ms, tables)
  {
    && tables'.Keys == tables.Keys
    && (forall i :: k <= i < |ms| ==> Erased(ms[i], who, tables[ms[i].id], tables'[ms[i].id]))
    && (forall id :: id in tables && !Mentions(ms, k, id) ==> tables'[id] == tables[id])
  }

  ghost predicate AllErasable(ms: seq<Model>, who: Value, tables: Tables)
    requires Known(ms, tables)
  {
    forall i :: 0 <= i < |ms| ==> Erasable(ms[i], who, tables[ms[i].id])
  }

  /** Where forget_subject stops: it gets through all tables exactly when all are erasable, and
      else to just after the last declared table that is not. */
  lemma {:induction false} StopsWhereNotErasable(ms: seq<Model>, who: Value, tables: Tables)
    requires Known(ms, tables) && forall i :: 0 <= i < |ms| ==> DistinctNames(ms[i].fields)
    ensures var k := Reached(ms, ForgetStep(who), tables);
            && (k == 0 <==> AllErasable(ms, who, tables))
            && (k > 0 ==> !Erasable(ms[k - 1], who, tables[ms[k - 1].id]))
            && (forall i :: k <= i < |ms| ==> Erasable(ms[i], who, tables[ms[i].id]))
  {
    var k := Reached(ms, ForgetStep(who), tables);
    ReachedSteps(ms, ForgetStep(who), tables);
    if k > 0 { StepErasable(ms[k - 1], who, tables[ms[k - 1].id]); }
    forall i | k <= i < |ms| ensures Erasable(ms[i], who, tables[ms[i].id]) {
      StepErasable(ms[i], who, tables[ms[i].id]);
    }
  }

  lemma {:induction false} StepErasable(m: Model, who: Value, d: TableData)
    requires DistinctNames(m.fields)
    ensures ForgetStep(who)(m, d).Ok? <==> Erasable(m, who, d)
  {
    ForgetTableCases(m, who, d);
  }

  /** With distinct tables, forget_subject erases the person from the tables it reaches, leaves
      everything else alone, and succeeds exactly when it reaches them all.  With the lemma
      before: a success erases everywhere, a failure leaves the tables declared after the
      last one that is not erasable erased, and all others untouched. */
  lemma {:induction false} ForgetSubjectErases(ms: seq<Model>, who: Value, tables: Tables)
    requires DistinctTables(ms) && AllReady(ms, tables)
    ensures var k, r := Reached(ms, ForgetStep(who), tables), Forget(ms, who, false, tables);
            (r.error.None? <==> k == 0) && ErasedFrom(ms, k, who, tables, r.tables)
  {
    LoopMeaning(ms, ForgetStep(who), EntryNote(who, false), tables, map[]);
    ErasedIfStepped(ms, Reached(ms, ForgetStep(who), tables), who, tables, Forget(ms, who, false, tables).tables);
  }

  lemma {:induction false} SuccessIffErasable(ms: seq<Model>, who: Value, tables: Tables)
    requires DistinctTables(ms) && AllReady(ms, tables)
    ensures Forget(ms, who, false, tables).error.None? <==> AllErasable(ms, who, tables)
  {
    LoopMeaning(ms, ForgetStep(who), EntryNote(who, false), tables, map[]);
    StopsWhereNotErasable(ms, who, tables);
  }

  lemma {:induction false} ErasedIfStepped(ms: seq<Model>, k: nat, who: Value, tables: Tables, tables': Tables)
    requires k <= |ms| && AllReady(ms, tables) && SteppedFrom(ms, k, ForgetStep(who), tables, tables')
    ensures ErasedFrom(ms, k, who, tables, tables')
  {
    forall i | k <= i < |ms| ensures Erased(ms[i], who, tables[ms[i].id], tables'[ms[i].id]) {
      var m := ms[i];
      assert ForgetStep(who)(m, tables[m.id]) == Ok(tables'[m.id]);
      ForgetTableErases(m, who, tables[m.id]);
    }
  }

  /** The result does not depend on the order in which the tables are declared. */
  lemma {:induction false} OrderDoesNotMatter(ms: seq<Model>, ns: seq<Model>, who: Value, tables: Tables)
    requires DistinctTables(ms) && DistinctTables(ns) && AllReady(ms, tables) && AllReady(ns, tables)
    requires forall m :: m in ms <==> m in ns
    ensures Forget(ms, who, false, tables).error.None? <==> Forget(ns, who, false, tables).error.None?
    ensures Forget(ms, who, false, tables).error.None? ==> Forget(ms, who, false, tables).tables == Forget(ns, who, false, tables).tables
  {
    SuccessIffErasable(ms, who, tables);
    SuccessIffErasable(ns, who, tables);
    if AllErasable(ms, who, tables) { SameErasable(ms, ns, who, tables); }
    if AllErasable(ns, who, tables) { SameErasable(ns, ms, who, tables); }
    if Forget(ms, who, false, tables).error.None? {
      var step, note := ForgetStep(who), EntryNote(who, false);
      LoopMeaning(ms, step, note, tables, map[]);
      LoopMeaning(ns, step, note, tables, map[]);
      SameStepped(ms, ns, step, tables, Forget(ms, who, false, tables).tables, Forget(ns, who, false, tables).tables);
    }
  }

  lemma {:induction false} SameErasable(ms: seq<Model>, ns: seq<Model>, who: Value, tables: Tables)
    requires Known(ms, tables) && Known(ns, tables) && AllErasable(ms, who, tables)
    requires forall m :: m in ms <==> m in ns
    ensures AllErasable(ns, who, tables)
  {
    forall j | 0 <= j < |ns| ensures Erasable(ns[j], who, tables[ns[j].id]) {
      assert ns[j] in ns && ns[j] in ms;
    }
  }

  lemma {:induction false} SameStepped(ms: seq<Model>, ns: seq<Model>, step: Step, tables: Tables, a: Tables, b: Tables)
    requires Known(ms, tables) && Known(ns, tables)
    requires forall m :: m in ms <==> m in ns
    requires SteppedFrom(ms, 0, step, tables, a) && SteppedFrom(ns, 0, step, tables, b)
    ensures a == b
  {
    forall id | id in tables ensures a[id] == b[id] {
      if j :| 0 <= j < |ns| && ns[j].id == id {
        assert ns[j] in ms;
        var i :| 0 <= i < |ms| && ms[i] == ns[j];
        assert step(ms[i], tables[id]) == Ok(a[id]);
      } else {
        forall i | 0 <= i < |ms| ensures ms[i].id != id {
          assert ms[i] in ns;
        }
      }
    }
  }

  /** Forgetting the same person again succeeds and changes nothing. */
  lemma {:induction false} ForgetTwice(ms: seq<Model>, who: Value, tables: Tables)
    requires DistinctTables(ms) && AllReady(ms, tables) && Forget(ms, who, false, tables).error.None?
    ensures var once := Forget(ms, who, false, tables).tables;
            Known(ms, once) && AllReady(ms, once)
            && Forget(ms, who, false, once).error.None? && Forget(ms, who, false, once).tables == once
  {
    var step, note := ForgetStep(who), EntryNote(who, false);
    ReachedSteps(ms, step, tables);
    var once := Forget(ms, who, false, tables).tables;
    LoopMeaning(ms, step, note, tables, map[]);
    forall i | 0 <= i < |ms|
      ensures step(ms[i], once[ms[i].id]) == Ok(once[ms[i].id]) && Ready(ms[i].fields, once[ms[i].id])
    {
      assert step(ms[i], tables[ms[i].id]) == Ok(once[ms[i].id]);
      ForgetTableIdempotent(ms[i], who, tables[ms[i].id]);
      StillReady(ms[i], who, tables[ms[i].id]);
    }
    FixedByLoop(ms, step, note, once);
  }

  lemma {:induction false} FixedByLoop(ms: seq<Model>, step: Step, note: Note, tables: Tables)
    requires DistinctTables(ms) && Known(ms, tables)
    requires forall i :: 0 <= i < |ms| ==> step(ms[i], tables[ms[i].id]) == Ok(tables[ms[i].id])
    ensures Loop(ms, step, note, tables, map[]).error.None? && Loop(ms, step, note, tables, map[]).tables == tables
  {
    LoopMeaning(ms, step, note, tables, map[]);
    ReachedSteps(ms, step, tables);
    var r := Loop(ms, step, note, tables, map[]).tables;
    forall id | id in tables ensures r[id] == tables[id] {
      if i :| 0 <= i < |ms| && ms[i].id == id {
        assert step(ms[i], tables[ms[i].id]) == Ok(r[id]);
      }
    }
  }

  /** The same report with the flag turned around. */
  function AsReal(report: Report): Report {
    map t | t in report :: report[t].(dryRun := false)
  }

  lemma {:induction false} NotesTurned(ms: seq<Model>, who: Value, tables: Tables)
    requires Known(ms, tables)
    ensures AsReal(Notes(ms, EntryNote(who, true), tables)) == Notes(ms, EntryNote(who, false), tables)
  {
    if ms != [] {
      NotesTurned(ms[..|ms| - 1], who, tables);
      var m := ms[|ms| - 1];
      var dry, wet := EntryOf(m, who, true, tables[m.id]), EntryOf(m, who, false, tables[m.id]);
      assert AsReal(dry) == wet;
      TurnedSum(dry, Notes(ms[..|ms| - 1], EntryNote(who, true), tables));
    }
  }

  lemma {:induction false} TurnedSum(a: Report, b: Report)
    ensures AsReal(a + b) == AsReal(a) + AsReal(b)
  {}

  /** A dry run changes nothing, succeeds exactly when every subject column is declared, and
      reports the counts and actions of the real run whenever that one succeeds. */
  lemma {:induction false} DryRunForetells(ms: seq<Model>, who: Value, tables: Tables)
    requires DistinctTables(ms) && AllReady(ms, tables)
    ensures var dry, wet := Forget(ms, who, true, tables), Forget(ms, who, false, tables);
            && dry.tables == tables
            && (dry.error.None? <==> forall i :: 0 <= i < |ms| ==> HasColumn(ms[i].fields, ms[i].subject))
            && (wet.error.None? ==> dry.error.None? && AsReal(dry.report) == wet.report)
  {
    DryRunChangesNothing(ms, who, tables);
    SuccessIffErasable(ms, who, tables);
    if Forget(ms, who, false, tables).error.None? { ReportsAgree(ms, who, tables); }
  }

  lemma {:induction false} ReportsAgree(ms: seq<Model>, who: Value, tables: Tables)
    requires DistinctTables(ms) && Known(ms, tables)
    requires Forget(ms, who, true, tables).error.None? && Forget(ms, who, false, tables).error.None?
    ensures AsReal(Forget(ms, who, true, tables).report) == Forget(ms, who, false, tables).report
  {
    LoopNotes(ms, CountStep(who), EntryNote(who, true), tables, map[]);
    LoopNotes(ms, ForgetStep(who), EntryNote(who, false), tables, map[]);
    NotesTurned(ms, who, tables);
    assert map[] + Notes(ms, EntryNote(who, true), tables) == Notes(ms, EntryNote(who, true), tables);
    assert map[] + Notes(ms, EntryNote(who, false), tables) == Notes(ms, EntryNote(who, false), tables);
  }

  lemma {:induction false} DryRunChangesNothing(ms: seq<Model>, who: Value, tables: Tables)
    requires DistinctTables(ms) && Known(ms, tables)
    ensures Forget(ms, who, true, tables).tables == tables
    ensures Forget(ms, who, true, tables).error.None? <==> forall i :: 0 <= i < |ms| ==> HasColumn(ms[i].fields, ms[i].subject)
  {
    var step := CountStep(who);
    LoopMeaning(ms, step, EntryNote(who, true), tables, map[]);
    ReachedSteps(ms, step, tables);
    var k, r := Reached(ms, step, tables), Forget(ms, who, true, tables).tables;
    forall i | 0 <= i < |ms|
      ensures step(ms[i], tables[ms[i].id]) == Ok(tables[ms[i].id]) <==> HasColumn(ms[i].fields, ms[i].subject)
      ensures step(ms[i], tables[ms[i].id]).Ok? ==> step(ms[i], tables[ms[i].id]).value == tables[ms[i].id]
    {
      WhereKnownIsColumn(ms[i], who);
    }
    forall id | id in tables ensures r[id] == tables[id] {
      if i :| k <= i < |ms| && ms[i].id == id {
        assert step(ms[i], tables[ms[i].id]) == Ok(r[id]);
      }
    }
  }

  // ---------------------------------------------------------------- export

  /** Whether Pydantic accepts a value for a field: a NULL, for one, only where the annotation
      is optional, which is less often than where the column is nullable. */
  type Check = (Field, Value) -> bool

  datatype ExportError = Sql(error: SqlError) | ValidationError

  /** model_validate on a row. */
  predicate Validates(accepts: Check, fields: seq<Field>, row: Row) {
    forall i :: 0 <= i < |fields| && fields[i].name in row ==> accepts(fields[i], row[fields[i].name])
  }

  predicate AllValidate(accepts: Check, fields: seq<Field>, rows: seq<Row>) {
    forall k :: 0 <= k < |rows| ==> Validates(accepts, fields, rows[k])
  }

  function Selected(m: Model, who: Value, d: TableData): seq<Row> { Matching(d.rows, SubjectWhere(m, who)) }

  /** `find` on the subject column: the rows of the core, each validated. */
  function FindModels(m: Model, who: Value, accepts: Check, d: TableData): Result<seq<Row>, ExportError> {
    var rows := Find(m.fields, d, SubjectWhere(m, who));
    if rows.Err? then Err(Sql(rows.error))
    else if !AllValidate(accepts, m.fields, rows.value) then Err(ValidationError)
    else Ok(rows.value)
  }

  /** export_subject: the person's rows, table by table; a later table of the same name
      replaces an earlier one. */
  function Export(ms: seq<Model>, who: Value, accepts: Check, tables: Tables): Result<map<string, seq<Row>>, ExportError>
    requires Known(ms, tables)
  {
    if ms == [] then Ok(map[])
    else
      var m := ms[|ms| - 1];
      var before := Export(ms[..|ms| - 1], who, accepts, tables);
      if before.Err? then before
      else
        var rows := FindModels(m, who, accepts, tables[m.id]);
        if rows.Err? then Err(rows.error)
        else Ok(if rows.value == [] then before.value else before.value[m.id.table := rows.value])
  }

  /** Every subject column is declared, and every row of the person validates. */
  predicate Exportable(ms: seq<Model>, who: Value, accepts: Check, tables: Tables)
    requires Known(ms, tables)
  {
    forall i :: 0 <= i < |ms| ==>
      HasColumn(ms[i].fields, ms[i].subject) && AllValidate(accepts, ms[i].fields, Selected(ms[i], who, tables[ms[i].id]))
  }

  /** The export succeeds exactly when every subject column is declared and every row of the
      person validates. */
  lemma {:induction false} ExportSucceedsExactly(ms: seq<Model>, who: Value, accepts: Check, tables: Tables)
    requires Known(ms, tables)
    ensures Export(ms, who, accepts, tables).Ok? <==> Exportable(ms, who, accepts, tables)
  {
    if ms != [] {
      var m, init := ms[|ms| - 1], ms[..|ms| - 1];
      ExportSucceedsExactly(init, who, accepts, tables);
      WhereKnownIsColumn(m, who);
      assert Exportable(ms, who, accepts, tables) <==>
        Exportable(init, who, accepts, tables) && FindModels(m, who, accepts, tables[m.id]).Ok?;
    }
  }

  /** What the export shows for t once the person is erased: rows of an "anonymize" table
      whose subject column is not itself redacted away, all personal data in them redacted. */
  ghost predicate ShownRedacted(m: Model, t: string, rows: seq<Row>) {
    && m.id.table == t && m.onForget.Anonymize?
    && forall k :: 0 <= k < |rows| ==> AllRedacted(m.fields, rows[k])
  }

  /** After a successful forget, an export of the same person that succeeds shows no row of a
      "delete" table, and all personal data in what it does show is redacted. */
  lemma {:induction false} ExportAfterForget(ms: seq<Model>, who: Value, accepts: Check, tables: Tables, after: Tables, t: string) returns (i: nat)
    requires Known(ms, tables) && Known(ms, after)
    requires forall i :: 0 <= i < |ms| ==> Erased(ms[i], who, tables[ms[i].id], after[ms[i].id])
    requires var out := Export(ms, who, accepts, after); out.Ok? && t in out.value
    ensures i < |ms| && ShownRedacted(ms[i], t, Export(ms, who, accepts, after).value[t])
  {
    var n := |ms| - 1;
    var m, init := ms[n], ms[..n];
    if Selected(m, who, after[m.id]) != [] && m.id.table == t {
      ShownRowsAreRedacted(m, who, tables[m.id], after[m.id]);
      i := n;
    } else {
      i := ExportAfterForget(init, who, accepts, tables, after, t);
    }
  }

  lemma {:induction false} ShownRowsAreRedacted(m: Model, who: Value, d: TableData, d': TableData)
    requires Erased(m, who, d, d') && Selected(m, who, d') != []
    ensures ShownRedacted(m, m.id.table, Selected(m, who, d'))
  {
    if !m.onForget.Anonymize? {
      OthersArePeople(m, who, d.rows);
      MatchingOfOthers(d.rows, SubjectWhere(m, who));
    } else {
      var rows := Selected(m, who, d');
      forall k | 0 <= k < |rows| ensures AllRedacted(m.fields, rows[k]) {
        var i := ShownWasSelected(m, who, d, d', k);
      }
    }
  }

  /** A row the person still has in an anonymized table comes from one they had before. */
  lemma {:induction false} ShownWasSelected(m: Model, who: Value, d: TableData, d': TableData, k: nat) returns (i: nat)
    requires m.onForget.Anonymize? && Erased(m, who, d, d') && k < |Selected(m, who, d')|
    ensures i < |d.rows| && Concerns(m, who, d.rows[i]) && RedactedRow(m.fields, d.rows[i], Selected(m, who, d')[k])
  {
    var where := SubjectWhere(m, who);
    MatchingMembers(d'.rows, where);
    var row := Selected(m, who, d')[k];
    i :| i < |d'.rows| && d'.rows[i] == row;
    RowMatchesPerson(m, who, row);
    assert Concerns(m, who, d.rows[i]);
  }

  /** Every field accepts what its personal data is replaced with. */
  predicate RedactionValidates(accepts: Check, fields: seq<Field>) {
    forall i :: 0 <= i < |fields| && fields[i].pii ==> accepts(fields[i], Redacted(fields[i]))
  }

  lemma {:induction false} RedactedRowValidates(accepts: Check, fields: seq<Field>, row: Row, row': Row)
    requires DistinctNames(fields) && RedactedRow(fields, row, row') && Validates(accepts, fields, row)
    ensures Validates(accepts, fields, row') <==> RedactionValidates(accepts, fields)
  {
    forall i | 0 <= i < |fields| && !fields[i].pii && fields[i].name in row'
      ensures accepts(fields[i], row'[fields[i].name])
    {
      assert !IsPii(fields, fields[i].name);
    }
  }

  lemma {:induction false} MatchingHas(rows: seq<Row>, where: Where, row: Row)
    requires row in rows && RowMatches(row, where)
    ensures row in Matching(rows, where)
  {
    if row != rows[0] { MatchingHas(rows[1..], where, row); }
  }

  lemma {:induction false} SelectedStillValidate(m: Model, who: Value, accepts: Check, d: TableData, d': TableData)
    requires DistinctNames(m.fields) && Erased(m, who, d, d') && AllValidate(accepts, m.fields, Selected(m, who, d))
    ensures AllValidate(accepts, m.fields, Selected(m, who, d')) <==>
            Selected(m, who, d') == [] || RedactionValidates(accepts, m.fields)
  {
    if m.onForget.Anonymize? {
      var rows := Selected(m, who, d');
      forall k | 0 <= k < |rows| ensures Validates(accepts, m.fields, rows[k]) <==> RedactionValidates(accepts, m.fields) {
        var i := ShownWasSelected(m, who, d, d', k);
        RowMatchesPerson(m, who, d.rows[i]);
        MatchingHas(d.rows, SubjectWhere(m, who), d.rows[i]);
        RedactedRowValidates(accepts, m.fields, d.rows[i], rows[k]);
      }
      if rows != [] { assert Validates(accepts, m.fields, rows[0]) <==> RedactionValidates(accepts, m.fields); }
    } else {
      OthersArePeople(m, who, d.rows);
      MatchingOfOthers(d.rows, SubjectWhere(m, who));
    }
  }

  /** The table still has rows of the person once they are erased: they were redacted, not
      deleted, and the subject column still names the person. */
  predicate StillShown(m: Model, who: Value, d: TableData) {
    && m.onForget.Anonymize? && Selected(m, who, d) != []
    && forall i :: 0 <= i < |m.fields| && m.fields[i].pii && m.fields[i].name == m.subject ==> Redacted(m.fields[i]) == who
  }

  lemma {:induction false} ShownAfterwards(m: Model, who: Value, d: TableData, d': TableData)
    requires Erased(m, who, d, d')
    ensures Selected(m, who, d') != [] <==> StillShown(m, who, d)
  {
    NobodyConcerned(m, who, d.rows);
    NobodyConcerned(m, who, d'.rows);
    if m.onForget.Anonymize? {
      forall k | 0 <= k < |d.rows|
        ensures Concerns(m, who, d'.rows[k]) <==> Concerns(m, who, d.rows[k]) && StillShown(m, who, d)
      {
        if Concerns(m, who, d.rows[k]) { SubjectAfterwards(m, who, d.rows[k], d'.rows[k]); }
      }
    } else {
      OthersArePeople(m, who, d.rows);
      MatchingOfOthers(d.rows, SubjectWhere(m, who));
    }
  }

  lemma {:induction false} SubjectAfterwards(m: Model, who: Value, row: Row, row': Row)
    requires Concerns(m, who, row) && RedactedRow(m.fields, row, row')
    ensures Concerns(m, who, row') <==>
            forall i :: 0 <= i < |m.fields| && m.fields[i].pii && m.fields[i].name == m.subject ==> Redacted(m.fields[i]) == who
  {
    if i :| 0 <= i < |m.fields| && m.fields[i].pii && m.fields[i].name == m.subject {
      assert row'[m.subject] == Redacted(m.fields[i]);
    }
  }

  /** A person whose data could be exported before they were forgotten can be exported
      afterwards exactly when, in every table that still has rows of theirs, every field
      accepts what its personal data was replaced with; which tables these are can be told
      before. */
  lemma {:induction false} ForgottenIsExportable(ms: seq<Model>, who: Value, accepts: Check, tables: Tables, after: Tables)
    requires Known(ms, tables) && Known(ms, after) && Exportable(ms, who, accepts, tables)
    requires forall i :: 0 <= i < |ms| ==> DistinctNames(ms[i].fields) && Erased(ms[i], who, tables[ms[i].id], after[ms[i].id])
    ensures Export(ms, who, accepts, after).Ok? <==>
            forall i :: 0 <= i < |ms| ==> Selected(ms[i], who, after[ms[i].id]) == [] || RedactionValidates(accepts, ms[i].fields)
    ensures Export(ms, who, accepts, after).Ok? <==>
            forall i :: 0 <= i < |ms| && StillShown(ms[i], who, tables[ms[i].id]) ==> RedactionValidates(accepts, ms[i].fields)
  {
    ExportSucceedsExactly(ms, who, accepts, after);
    forall i | 0 <= i < |ms|
      ensures AllValidate(accepts, ms[i].fields, Selected(ms[i], who, after[ms[i].id])) <==>
              Selected(ms[i], who, after[ms[i].id]) == [] || RedactionValidates(accepts, ms[i].fields)
      ensures Selected(ms[i], who, after[ms[i].id]) != [] <==> StillShown(ms[i], who, tables[ms[i].id])
    {
      SelectedStillValidate(ms[i], who, accepts, tables[ms[i].id], after[ms[i].id]);
      ShownAfterwards(ms[i], who, tables[ms[i].id], after[ms[i].id]);
    }
  }

  // ---------------------------------------------------------------- the code

  /** The databases behind the declared tables. */
  class Store {
    var tables: Tables

    constructor (tables: Tables)
      ensures this.tables == tables
    {
      this.tables := tables;
    }

    /** `_anonymize` */
    method AnonymizeRows(m: Model, who: Value) returns (error: Option<SqlError>)
      requires m.id in tables
      modifies this
      ensures var r := UpdateWhere(m.fields, old(tables[m.id]), Redaction(m.fields), SubjectWhere(m, who));
              && tables == (if r.Ok? then old(tables)[m.id := r.value] else old(tables))
              && error == (if r.Ok? then None else Some(r.error))
    {
      var values: Row := map[];
      var i := 0;
      while i < |m.fields|
        invariant i <= |m.fields| && values == Redaction(m.fields[..i])
      {
        assert m.fields[..i + 1][..i] == m.fields[..i];
        if m.fields[i].pii { values := values[m.fields[i].name := Redacted(m.fields[i])]; }
        i := i + 1;
      }
      assert m.fields[..i] == m.fields;
      if values == map[] {
        assert tables[m.id := tables[m.id]] == tables;
        return None;
      }
      var r := UpdateWhere(m.fields, tables[m.id], values, SubjectWhere(m, who));
      if r.Err? { return Some(r.error); }
      tables := tables[m.id := r.value];
      return None;
    }

    /** `delete_where` on the subject column */
    method DeleteRows(m: Model, who: Value) returns (error: Option<SqlError>)
      requires m.id in tables
      modifies this
      ensures var r := DeleteWhere(m.fields, old(tables[m.id]), SubjectWhere(m, who));
              && tables == (if r.Ok? then old(tables)[m.id := r.value] else old(tables))
              && error == (if r.Ok? then None else Some(r.error))
    {
      var r := DeleteWhere(m.fields, tables[m.id], SubjectWhere(m, who));
      if r.Err? { return Some(r.error); }
      tables := tables[m.id := r.value];
      return None;
    }

    /** One round of the loop. */
    method ForgetOne(m: Model, who: Value, dryRun: bool) returns (rows: nat, error: Option<SqlError>)
      requires m.id in tables
      modifies this
      ensures var d := old(tables[m.id]);
              var r := StepOf(who, dryRun)(m, d);
              && tables == (if r.Ok? then old(tables)[m.id := r.value] else old(tables))
              && error == (if r.Ok? then None else Some(r.error))
              && (r.Ok? ==> EntryNote(who, dryRun)(m, d) == if rows == 0 then map[] else map[m.id.table := Entry(rows, m.onForget, dryRun)])
    {
      var d := tables[m.id];
      assert tables[m.id := d] == tables;
      var n := Count(m.fields, d, SubjectWhere(m, who));
      if n.Err? { return 0, Some(n.error); }
      rows := n.value;
      if rows == 0 || dryRun { return rows, None; }
      if m.onForget.Anonymize? {
        error := AnonymizeRows(m, who);
      } else {
        error := DeleteRows(m, who);
      }
    }

    /** `forget_subject` */
    method ForgetSubject(ms: seq<Model>, who: Value, dryRun: bool) returns (report: Report, error: Option<SqlError>)
      requires Known(ms, tables)
      modifies this
      ensures tables == Forget(ms, who, dryRun, old(tables)).tables
      ensures error == Forget(ms, who, dryRun, old(tables)).error
      ensures error.None? ==> report == Forget(ms, who, dryRun, old(tables)).report
    {
      report, error := map[], None;
      ghost var step, note, start := StepOf(who, dryRun), EntryNote(who, dryRun), tables;
      assert ms[..|ms|] == ms;
      var i := |ms|;
      while i > 0
        invariant 0 <= i <= |ms| && Known(ms, start) && Known(ms, tables) && error.None?
        invariant Loop(ms, step, note, start, map[]) == Loop(ms[..i], step, note, tables, report)
      {
        i := i - 1;
        var m := ms[i];
        LoopStep(ms, i, step, note, tables, report);
        var n: nat;
        n, error := ForgetOne(m, who, dryRun);
        if error.Some? { return; }
        OneNote(report, m.id.table, Entry(n, m.onForget, dryRun));
        if n > 0 { report := report[m.id.table := Entry(n, m.onForget, dryRun)]; }
      }
    }

    /** `export_subject` */
    method ExportSubject(ms: seq<Model>, who: Value, accepts: Check) returns (r: Result<map<string, seq<Row>>, ExportError>)
      requires Known(ms, tables)
      ensures r == Export(ms, who, accepts, tables)
      ensures r.Ok? <==> Exportable(ms, who, accepts, tables)
    {
      ExportSucceedsExactly(ms, who, accepts, tables);
      var out: map<string, seq<Row>> := map[];
      var i := 0;
      while i < |ms|
        invariant i <= |ms| && Known(ms[..i], tables) && Export(ms[..i], who, accepts, tables) == Ok(out)
      {
        var m := ms[i];
        ExportStep(ms, i, who, accepts, tables);
        var rows := FindModels(m, who, accepts, tables[m.id]);
        if rows.Err? { return Err(rows.error); }
        if rows.value != [] { out := out[m.id.table := rows.value]; }
        i := i + 1;
      }
      assert ms[..i] == ms;
      return Ok(out);
    }
  }

  lemma {:induction false} ExportStep(ms: seq<Model>, i: nat, who: Value, accepts: Check, tables: Tables)
    requires i < |ms| && Known(ms, tables) && Export(ms[..i], who, accepts, tables).Ok?
    ensures var rows := FindModels(ms[i], who, accepts, tables[ms[i].id]);
            var before := Export(ms[..i], who, accepts, tables).value;
            Export(ms[..i + 1], who, accepts, tables)
            == if rows.Err? then Err(rows.error)
               else Ok(if rows.value == [] then before else before[ms[i].id.table := rows.value])
    ensures FindModels(ms[i], who, accepts, tables[ms[i].id]).Err? ==>
              Export(ms, who, accepts, tables) == Err(FindModels(ms[i], who, accepts, tables[ms[i].id]).error)
  {
    assert ms[..i + 1][..i] == ms[..i] && ms[..i + 1][i] == ms[i];
    if FindModels(ms[i], who, accepts, tables[ms[i].id]).Err? { ErrorStays(ms, i + 1, who, accepts, tables); }
  }

  /** The first failing table decides the error. */
  lemma {:induction false} ErrorStays(ms: seq<Model>, k: nat, who: Value, accepts: Check, tables: Tables)
    requires k <= |ms| && Known(ms, tables) && Export(ms[..k], who, accepts, tables).Err?
    ensures Export(ms, who, accepts, tables) == Export(ms[..k], who, accepts, tables)
  {
    if k < |ms| {
      var init := ms[..|ms| - 1];
      assert init[..k] == ms[..k];
      ErrorStays(init, k, who, accepts, tables);
    } else {
      assert ms[..k] == ms;
    }
  }

  lemma {:induction false} OneNote(report: Report, t: string, e: Entry)
    ensures report + map[] == report && report + map[t := e] == report[t := e]
  {}

  lemma {:induction false} LoopStep(ms: seq<Model>, i: nat, step: Step, note: Note, tables: Tables, report: Report)
    requires i < |ms| && Known(ms, tables)
    ensures var m := ms[i];
            var r := step(m, tables[m.id]);
            Loop(ms[..i + 1], step, note, tables, report)
            == if r.Err? then Outcome(tables, report, Some(r.error))
               else Loop(ms[..i], step, note, tables[m.id := r.value], report + note(m, tables[m.id]))
  {
    assert ms[..i + 1][..i] == ms[..i] && ms[..i + 1][i] == ms[i];
  }
}
