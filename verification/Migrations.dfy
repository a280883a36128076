/** `SQLDatabase.migrate` (runtimes/python/python/vignemale/sqldb.py), with crashes, restarts
    and concurrent runners.

    Each migration is one batch: BEGIN, the script, the INSERT of its name, COMMIT.  A failed
    batch commits nothing, and the primary key on the name makes a batch fail when another
    runner has recorded the same file. */
module Migrations {
  import opened Wrappers

  datatype Script = Script(name: string, sql: string)

  type Runner = nat

  /** A run of `migrate`: the names it read at the start, its place in the file list, and its
      `applied` counter. */
  datatype Progress =
    | Working(done: set<string>, next: nat, applied: nat)
    | Returned(applied: nat)
    | Raised

  /** `schema` is what the database has become; `sem` below says what a script does to it. */
  datatype State<S> = State(recorded: seq<string>, schema: S, runners: map<Runner, Progress>)

  datatype Event =
    | Start(runner: Runner)                   // read the recorded names
    | Skip(runner: Runner)                    // the next file was among them
    | Batch(runner: Runner, answered: bool)   // the batch commits; the runner may die before it hears
    | Fail(runner: Runner)                    // the batch fails, migrate raises
    | Finish(runner: Runner)                  // no file left, migrate returns
    | Crash(runner: Runner)

  predicate Distinct(files: seq<Script>) {
    forall i, j :: 0 <= i < j < |files| ==> files[i].name != files[j].name
  }

  function Names(files: seq<Script>): (r: seq<string>) {
    seq(|files|, i requires 0 <= i < |files| => files[i].name)
  }

  function NameSet(names: seq<string>): set<string> { set n | n in names }

  /** The schema after the given scripts, one after the other. */
  function Fold<S>(sem: (S, string) -> S, s0: S, files: seq<Script>): S {
    if files == [] then s0 else sem(Fold(sem, s0, files[..|files| - 1]), files[|files| - 1].sql)
  }

  predicate Active<S>(s: State<S>, r: Runner) { r in s.runners && s.runners[r].Working? }

  predicate Enabled<S>(files: seq<Script>, s: State<S>, e: Event) {
    var r := e.runner;
    match e
    case Start(_) => r !in s.runners
    case Skip(_) => Active(s, r) && s.runners[r].next < |files| && files[s.runners[r].next].name in s.runners[r].done
    case Batch(_, _) =>
      && Active(s, r) && s.runners[r].next < |files|
      && files[s.runners[r].next].name !in s.runners[r].done
      && files[s.runners[r].next].name !in s.recorded // PRIMARY KEY
    case Fail(_) => Active(s, r) && s.runners[r].next < |files| && files[s.runners[r].next].name !in s.runners[r].done
    case Finish(_) => Active(s, r) && s.runners[r].next == |files|
    case Crash(_) => Active(s, r)
  }

  function Apply<S>(sem: (S, string) -> S, files: seq<Script>, s: State<S>, e: Event): State<S>
    requires Enabled(files, s, e)
  {
    var r := e.runner;
    match e
    case Start(_) => s.(runners := s.runners[r := Working(NameSet(s.recorded), 0, 0)])
    case Skip(_) => var w := s.runners[r]; s.(runners := s.runners[r := w.(next := w.next + 1)])
    case Batch(_, answered) =>
      var w := s.runners[r];
      State(s.recorded + [files[w.next].name],
            sem(s.schema, files[w.next].sql),
            s.runners[r := if answered then w.(next := w.next + 1, applied := w.applied + 1) else Raised])
    case Fail(_) => s.(runners := s.runners[r := Raised])
    case Finish(_) => s.(runners := s.runners[r := Returned(s.runners[r].applied)])
    case Crash(_) => s.(runners := s.runners[r := Raised])
  }

  ghost predicate Run<S>(sem: (S, string) -> S, files: seq<Script>, s: State<S>, es: seq<Event>)
    decreases |es|
  {
    es == [] || (Enabled(files, s, es[0]) && Run(sem, files, Apply(sem, files, s, es[0]), es[1..]))
  }

  ghost function After<S>(sem: (S, string) -> S, files: seq<Script>, s: State<S>, es: seq<Event>): State<S>
    requires Run(sem, files, s, es)
    decreases |es|
  {
    if es == [] then s else After(sem, files, Apply(sem, files, s, es[0]), es[1..])
  }

  // ---------------------------------------------------------------- invariant

  /** The recorded names are the first k files, and the schema is the fold of exactly those. */
  ghost predicate PrefixApplied<S>(sem: (S, string) -> S, s0: S, files: seq<Script>, recorded: seq<string>, schema: S) {
    && |recorded| <= |files|
    && recorded == Names(files[..|recorded|])
    && schema == Fold(sem, s0, files[..|recorded|])
  }

  ghost predicate RunnersInv<S>(files: seq<Script>, s: State<S>) {
    forall r :: Active(s, r) ==>
      var w := s.runners[r];
      && w.next <= |files|
      && (forall n :: n in w.done ==> n in s.recorded)
      && (forall i :: 0 <= i < w.next ==> files[i].name in s.recorded)
  }

  ghost predicate Inv<S>(sem: (S, string) -> S, s0: S, files: seq<Script>, s: State<S>) {
    && PrefixApplied(sem, s0, files, s.recorded, s.schema)
    && RunnersInv(files, s)
    && (forall r :: r in s.runners && s.runners[r].Returned? ==> |s.recorded| == |files|)
  }

  /** Among distinct files, the recorded prefix determines which files are recorded. */
  lemma {:induction false} RecordedExactly(files: seq<Script>, recorded: seq<string>, i: nat)
    requires Distinct(files) && |recorded| <= |files| && recorded == Names(files[..|recorded|]) && i < |files|
    ensures files[i].name in recorded <==> i < |recorded|
  {
    assert forall j :: 0 <= j < |recorded| ==> recorded[j] == files[j].name;
  }

  /** One more file, in order, keeps the prefix. */
  lemma {:induction false} ExtendPrefix<S>(sem: (S, string) -> S, s0: S, files: seq<Script>, recorded: seq<string>, schema: S)
    requires PrefixApplied(sem, s0, files, recorded, schema) && |recorded| < |files|
    ensures PrefixApplied(sem, s0, files, recorded + [files[|recorded|].name], sem(schema, files[|recorded|].sql))
  {
    var k := |recorded|;
    assert files[..k + 1][..k] == files[..k];
    assert Names(files[..k + 1]) == recorded + [files[k].name];
  }

  /** A runner that has come to a file not yet recorded is at the end of the prefix. */
  lemma {:induction false} NextIsFirstMissing<S>(sem: (S, string) -> S, s0: S, files: seq<Script>, s: State<S>, r: Runner)
    requires Distinct(files) && Inv(sem, s0, files, s) && Active(s, r) && s.runners[r].next < |files|
    requires files[s.runners[r].next].name !in s.recorded
    ensures s.runners[r].next == |s.recorded|
  {
    var k, next := |s.recorded|, s.runners[r].next;
    RecordedExactly(files, s.recorded, next);
    if k < next { RecordedExactly(files, s.recorded, k); }
  }

  lemma {:induction false} StepInv<S>(sem: (S, string) -> S, s0: S, files: seq<Script>, s: State<S>, e: Event)
    requires Distinct(files) && Inv(sem, s0, files, s) && Enabled(files, s, e)
    ensures Inv(sem, s0, files, Apply(sem, files, s, e))
  {
    match e
    case Batch(r, _) =>
      NextIsFirstMissing(sem, s0, files, s, r);
      ExtendPrefix(sem, s0, files, s.recorded, s.schema);
    case Finish(r) =>
      if |s.recorded| < |files| { RecordedExactly(files, s.recorded, |s.recorded|); }
    case _ =>
  }

  /** In every run with crashes, restarts and concurrent runners, the recorded migrations are
      a prefix of the file list, each recorded once, and the schema is the fold of exactly
      that prefix. */
  lemma {:induction false} AlwaysAPrefix<S>(sem: (S, string) -> S, s0: S, files: seq<Script>, s: State<S>, es: seq<Event>)
    requires Distinct(files) && Inv(sem, s0, files, s) && Run(sem, files, s, es)
    ensures Inv(sem, s0, files, After(sem, files, s, es))
    decreases |es|
  {
    if es != [] {
      StepInv(sem, s0, files, s, es[0]);
      AlwaysAPrefix(sem, s0, files, Apply(sem, files, s, es[0]), es[1..]);
    }
  }

  /** Once some `migrate` has returned, whatever else happened, the database is what one
      uninterrupted run over all the files makes of the initial schema. */
  lemma {:induction false} ACompleteRunIsTheWholeFold<S>(sem: (S, string) -> S, s0: S, files: seq<Script>, es: seq<Event>, r: Runner)
    requires Distinct(files)
    requires var empty := State([], s0, map[]);
             Run(sem, files, empty, es) && r in After(sem, files, empty, es).runners && After(sem, files, empty, es).runners[r].Returned?
    ensures var s := After(sem, files, State([], s0, map[]), es);
            s.recorded == Names(files) && s.schema == Fold(sem, s0, files)
  {
    AlwaysAPrefix(sem, s0, files, State([], s0, map[]), es);
    assert files[..|files|] == files;
  }

  ghost predicate HasReadAll<S>(files: seq<Script>, s: State<S>, r: Runner) {
    r in s.runners ==>
      match s.runners[r]
      case Working(done, next, applied) => applied == 0 && next <= |files| && forall i :: 0 <= i < |files| ==> files[i].name in done
      case Returned(applied) => applied == 0
      case Raised => true
  }

  /** Once everything is recorded, no run changes anything: a further run can only crash or
      return 0. */
  lemma {:induction false} AFurtherRunAppliesNothing<S>(sem: (S, string) -> S, files: seq<Script>, s: State<S>, es: seq<Event>, r: Runner)
    requires s.recorded == Names(files) && HasReadAll(files, s, r) && Run(sem, files, s, es)
    ensures var s' := After(sem, files, s, es);
            && s'.recorded == s.recorded && s'.schema == s.schema
            && HasReadAll(files, s', r)
            && (forall k :: 0 <= k < |es| && es[k].runner == r ==> !es[k].Batch? && !es[k].Fail?)
    decreases |es|
  {
    if es != [] {
      var s1 := Apply(sem, files, s, es[0]);
      forall i | 0 <= i < |files| ensures files[i].name in s.recorded {
        assert s.recorded[i] == files[i].name;
      }
      AFurtherRunAppliesNothing(sem, files, s1, es[1..], r);
    }
  }

  /** A lone runner whose batches all succeed returns, having applied what was missing.
      `before` is what was recorded when it started. */
  lemma {:induction false} UninterruptedRun<S>(sem: (S, string) -> S, s0: S, files: seq<Script>, s: State<S>, r: Runner, before: seq<string>)
      returns (es: seq<Event>)
    requires Distinct(files) && Inv(sem, s0, files, s) && Active(s, r)
    requires s.runners[r].done == NameSet(before) && before <= s.recorded
    requires |s.recorded| == |before| + s.runners[r].applied
    requires |s.recorded| == if s.runners[r].next <= |before| then |before| else s.runners[r].next
    ensures Run(sem, files, s, es)
    ensures var s' := After(sem, files, s, es);
            && r in s'.runners && s'.runners[r] == Returned(|files| - |before|)
            && s'.recorded == Names(files) && s'.schema == Fold(sem, s0, files)
    decreases |files| - s.runners[r].next
  {
    var w := s.runners[r];
    if w.next == |files| {
      assert files[..|files|] == files;
      es := [Finish(r)];
      assert Run(sem, files, Apply(sem, files, s, es[0]), es[1..]);
    } else {
      RecordedExactly(files, s.recorded, w.next);
      RecordedExactly(files, before, w.next) by { assert before == Names(files[..|before|]); }
      var e := if files[w.next].name in w.done then Skip(r) else Batch(r, true);
      StepInv(sem, s0, files, s, e);
      var rest := UninterruptedRun(sem, s0, files, Apply(sem, files, s, e), r, before);
      es := [e] + rest;
      assert es[1..] == rest;
    }
  }

  // --------------------------------------------------- the loop of `migrate`

  /** What the database answers to the k-th batch this call sends. */
  datatype Answer = Committed | Refused

  class SQLDatabase<S> {
    const sem: (S, string) -> S
    var recorded: seq<string>
    var schema: S

    constructor (sem: (S, string) -> S, schema: S)
      ensures this.sem == sem && recorded == [] && this.schema == schema
    {
      this.sem := sem;
      this.schema := schema;
      recorded := [];
    }

    /** `batch`: all or nothing; a name that is already recorded violates the primary key. */
    method Batch(file: Script, answer: Answer) returns (ok: bool)
      modifies this
      ensures ok == (answer.Committed? && file.name !in old(recorded))
      ensures ok ==> recorded == old(recorded) + [file.name] && schema == sem(old(schema), file.sql)
      ensures !ok ==> recorded == old(recorded) && schema == old(schema)
    {
      ok := answer.Committed? && file.name !in recorded;
      if ok {
        recorded := recorded + [file.name];
        schema := sem(schema, file.sql);
      }
    }

    /** `migrate` as one runner alone executes it.  `files` is the sorted directory listing,
        or None when there is no migrations directory; `created` and `listed` are the answers
        to CREATE TABLE IF NOT EXISTS and to the SELECT, `answers` decides each batch. */
    method Migrate(files: Option<seq<Script>>, created: Answer, listed: Answer, answers: nat -> Answer, ghost s0: S) returns (r: Result<nat, string>)
      requires files.Some? ==> Distinct(files.value) && PrefixApplied(sem, s0, files.value, recorded, schema)
      modifies this
      ensures files.None? ==> r == Ok(0) && recorded == old(recorded) && schema == old(schema)
      ensures files.Some? ==> PrefixApplied(sem, s0, files.value, recorded, schema) && old(recorded) <= recorded
      ensures files.Some? && r.Ok? ==>
                && recorded == Names(files.value) && schema == Fold(sem, s0, files.value)
                && r.value == |files.value| - |old(recorded)|
      ensures files.Some? ==>
                (r.Ok? <==> created.Committed? && listed.Committed?
                            && forall k :: 0 <= k < |files.value| - |old(recorded)| ==> answers(k).Committed?)
      ensures files.Some? && (created.Refused? || listed.Refused?) ==> recorded == old(recorded) && schema == old(schema)
    {
      if files.None? { return Ok(0); }
      if created.Refused? || listed.Refused? { return Err("SQLError"); }
      var fs := files.value;
      var done := NameSet(recorded);
      var applied := 0;
      var next := 0;
      ghost var before := recorded;
      while next < |fs|
        invariant 0 <= next <= |fs|
        invariant PrefixApplied(sem, s0, fs, recorded, schema) && before <= recorded
        invariant done == NameSet(before)
        invariant |recorded| == |before| + applied
        invariant |recorded| == if next <= |before| then |before| else next
        invariant forall k :: 0 <= k < applied ==> answers(k).Committed?
      {
        RecordedExactly(fs, before, next) by { assert before == Names(fs[..|before|]); }
        if fs[next].name !in done {
          RecordedExactly(fs, recorded, next);
          ExtendPrefix(sem, s0, fs, recorded, schema);
          var ok := Batch(fs[next], answers(applied));
          if !ok { return Err("SQLError"); }
          applied := applied + 1;
        }
        next := next + 1;
      }
      assert fs[..|fs|] == fs;
      return Ok(applied);
    }
  }

  // ------------------------------------------------ the INSERT of the file name

  /** name.replace("'", "''") */
  function Escape(name: string): string {
    if name == "" then ""
    else (if name[0] == '\'' then "''" else [name[0]]) + Escape(name[1..])
  }

  /** How Postgres reads a string literal after its opening quote: a doubled quote is a quote,
      a single one ends the literal.  None when the literal does not end. */
  function ReadLiteral(text: string): Option<(string, string)> {
    if text == "" then None
    else if text[0] != '\'' then
      match ReadLiteral(text[1..])
      case None => None
      case Some((value, rest)) => Some(([text[0]] + value, rest))
    else if |text| > 1 && text[1] == '\'' then
      match ReadLiteral(text[2..])
      case None => None
      case Some((value, rest)) => Some(("'" + value, rest))
    else Some(("", text[1..]))
  }

  /** The INSERT records exactly the file's name, whatever characters it holds. */
  lemma {:induction false} RecordsTheName(name: string, rest: string)
    requires rest == "" || rest[0] != '\''
    ensures ReadLiteral(Escape(name) + "'" + rest) == Some((name, rest))
  {
    if name == "" {
      assert Escape(name) + "'" + rest == "'" + rest;
      assert ("'" + rest)[1..] == rest;
    } else {
      RecordsTheName(name[1..], rest);
      var tail := Escape(name[1..]) + "'" + rest;
      var head := if name[0] == '\'' then "''" else [name[0]];
      assert Escape(name) + "'" + rest == head + tail;
      assert (head + tail)[|head|..] == tail;
      assert [name[0]] + name[1..] == name;
    }
  }
}
