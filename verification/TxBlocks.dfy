/** `with db.transaction()` blocks (runtimes/python/python/vignemale/sqldb.py, `Transaction`)
    on top of the registry.

    Each block runs on its own task and follows the context manager's protocol: __enter__
    begins, the body issues statements one after the other with the block's own id, and
    __exit__ sends COMMIT when the body ended normally and ROLLBACK when an exception
    crossed it.  Any number of blocks interleave freely. */
module TxBlocks {
  import opened TxRegistry
  import opened Wrappers

  datatype Phase =
    | Outside                                  // before __enter__
    | Opening                                  // sqldb_begin, BEGIN sent
    | Numbering                                // sqldb_begin, id drawn
    | Inside                                   // between two statements of the body
    | Running                                  // a statement of the body is executing
    | Leaving                                  // __exit__, terminal statement sent
    | Left                                     // __exit__ done
    | NeverOpened                              // __enter__ raised

  /** What the block saw: the outcome of each of its statements, whether its body ended normally,
      and whether the terminal statement was answered without an error; and what it may not have
      seen, whether Postgres carried that statement out. */
  datatype Block = Block(phase: Phase, id: Id, log: seq<Outcome>, normal: bool, terminalOk: bool, carried: bool)

  datatype World = World(reg: State, blocks: map<Task, Block>, commits: seq<Task>)

  predicate Allowed(b: Block, e: Event) {
    match e
    case Acquire(_, _) => b.phase.Outside?
    case BeginFailed(_) => b.phase.Opening?
    case BeginOk(_) => b.phase.Opening?
    case Register(_) => b.phase.Numbering?
    case Take(_, id) => b.phase.Inside? && id == b.id
    case Return(_, _) => b.phase.Running?
    case TakeTerminal(_, id, _) => b.phase.Inside? && id == b.id
    case Finish(_, _, _) => b.phase.Leaving?
    case Refused(_, id) => b.phase.Inside? && id == b.id
  }

  function Advance(s: State, b: Block, e: Event): Block
    requires Enabled(s, e)
  {
    match e
    case Acquire(_, _) => b.(phase := Opening)
    case BeginFailed(_) => b.(phase := NeverOpened)
    case BeginOk(_) => b.(phase := Numbering, id := IdOf(s.begun + 1))
    case Register(_) => b.(phase := Inside)
    case Take(_, _) => b.(phase := Running)
    case Return(_, outcome) => b.(phase := Inside, log := b.log + [outcome])
    case TakeTerminal(_, _, terminal) => b.(phase := Leaving, normal := terminal.Commit?)
    case Finish(_, ok, carried) => b.(phase := Left, terminalOk := ok, carried := carried)
    case Refused(_, _) => b
  }

  /** The block's complete write list, in the order of its statements. */
  function WritesOf(log: seq<Outcome>): seq<Write> {
    if log == [] then []
    else
      var last := log[|log| - 1];
      WritesOf(log[..|log| - 1]) + if last.Rejected? then [] else last.writes
  }

  predicate AnyRejected(log: seq<Outcome>) {
    exists i :: 0 <= i < |log| && log[i].Rejected?
  }

  /** The block exited normally, no statement of it was rejected, and COMMIT was carried out. */
  predicate Succeeded(b: Block) {
    b.phase.Left? && b.normal && b.carried && !AnyRejected(b.log)
  }

  predicate CanStep(w: World, e: Event) {
    e.task in w.blocks && Allowed(w.blocks[e.task], e) && Enabled(w.reg, e)
  }

  function Step(w: World, e: Event): World
    requires CanStep(w, e)
  {
    var b := Advance(w.reg, w.blocks[e.task], e);
    World(Apply(w.reg, e),
          w.blocks[e.task := b],
          if Succeeded(b) && e.Finish? then w.commits + [e.task] else w.commits)
  }

  ghost predicate Steps(w: World, es: seq<Event>)
    decreases |es|
  {
    es == [] || (CanStep(w, es[0]) && Steps(Step(w, es[0]), es[1..]))
  }

  ghost function Final(w: World, es: seq<Event>): World
    requires Steps(w, es)
    decreases |es|
  {
    if es == [] then w else Final(Step(w, es[0]), es[1..])
  }

  /** Replaying whole blocks, one after the other. */
  ghost function Replay(blocks: map<Task, Block>, order: seq<Task>): seq<Write>
    requires forall i :: 0 <= i < |order| ==> order[i] in blocks
  {
    if order == [] then []
    else Replay(blocks, order[..|order| - 1]) + WritesOf(blocks[order[|order| - 1]].log)
  }

  ghost predicate Start(w: World) {
    && Init(w.reg) && w.commits == []
    && forall t :: t in w.blocks ==> w.blocks[t] == Block(Outside, 0, [], false, false, false)
  }

  // ---------------------------------------------------------------- invariant

  ghost predicate Agrees(s: State, t: Task, b: Block) {
    match b.phase
    case Outside => t !in s.held && b.log == []
    case Opening => t in s.held && s.held[t].Starting? && b.log == []
    case Numbering => Carries(s, t, b.id) && s.held[t].Numbered? && b.log == [] && OwnSession(s, s.held[t].conn, b)
    case Inside => t !in s.held && b.id in s.txs && OwnSession(s, s.txs[b.id], b)
    case Running => Carries(s, t, b.id) && s.held[t].InStatement? && OwnSession(s, s.held[t].conn, b)
    case Leaving => && Carries(s, t, b.id) && s.held[t].Finishing? && OwnSession(s, s.held[t].conn, b)
                    && (s.held[t].terminal.Commit? <==> b.normal)
    case Left => t !in s.held && (b.terminalOk ==> b.carried) && TerminalCount(s, b.id, if b.normal then Commit else Rollback)
    case NeverOpened => t !in s.held && b.log == []
  }

  /** The connection's private write list is what the block wrote, and it is aborted
      exactly when a statement of the block was rejected. */
  ghost predicate OwnSession(s: State, c: Conn, b: Block) {
    c in s.sessions && s.sessions[c] == Open(WritesOf(b.log), AnyRejected(b.log))
  }

  /** `id` got exactly one terminal statement, namely `terminal`. */
  ghost predicate TerminalCount(s: State, id: Id, terminal: Terminal) {
    exists i :: 0 <= i < |s.finished| && s.finished[i] == (id, terminal)
      && forall j :: 0 <= j < |s.finished| && s.finished[j].0 == id ==> j == i
  }

  /** Only blocks use the registry. */
  ghost predicate RegistryIsBlocks(w: World) {
    && (forall t :: t in w.reg.held ==> t in w.blocks)
    && (forall id :: id in w.reg.txs ==> exists t :: InsideWith(w, t, id))
  }

  predicate InsideWith(w: World, t: Task, id: Id) {
    t in w.blocks && w.blocks[t].phase.Inside? && w.blocks[t].id == id
  }

  predicate HasId(p: Phase) { !p.Outside? && !p.Opening? && !p.NeverOpened? }

  ghost predicate WorldInv(w: World) {
    && Inv(w.reg)
    && (forall t :: t in w.blocks ==> Agrees(w.reg, t, w.blocks[t]))
    && OwnIds(w)
    && CommitsInv(w)
    && RegistryIsBlocks(w)
  }

  /** Opened blocks have ids drawn from the counter, each its own. */
  ghost predicate OwnIds(w: World) {
    && (forall t :: t in w.blocks && HasId(w.blocks[t].phase) ==> Drawn(w.reg.begun, w.blocks[t].id))
    && (forall t, u :: t in w.blocks && u in w.blocks && t != u && HasId(w.blocks[t].phase) && HasId(w.blocks[u].phase)
          ==> w.blocks[t].id != w.blocks[u].id)
  }

  ghost predicate CommitsInv(w: World) {
    && (forall i :: 0 <= i < |w.commits| ==> w.commits[i] in w.blocks)
    && (forall i, j :: 0 <= i < j < |w.commits| ==> w.commits[i] != w.commits[j])
    && (forall t :: t in w.commits <==> t in w.blocks && Succeeded(w.blocks[t]))
    && w.reg.db == Replay(w.blocks, w.commits)
  }

  lemma {:induction false} StartInv(w: World)
    requires Start(w)
    ensures WorldInv(w)
  {
    InitInv(w.reg);
  }

  lemma {:induction false} ReplayFrame(before: map<Task, Block>, after: map<Task, Block>, order: seq<Task>)
    requires forall i :: 0 <= i < |order| ==> order[i] in before && order[i] in after && before[order[i]] == after[order[i]]
    ensures Replay(before, order) == Replay(after, order)
  {
    if order != [] {
      ReplayFrame(before, after, order[..|order| - 1]);
    }
  }

  /** A step leaves alone what another task holds, down to its session. */
  lemma {:induction false} HeldFrame(s: State, e: Event, t: Task)
    requires OnePlace(s) && Enabled(s, e) && t in s.held && t != e.task
    ensures t in Apply(s, e).held && Apply(s, e).held[t] == s.held[t]
    ensures s.held[t].conn in s.sessions && s.held[t].conn in Apply(s, e).sessions
    ensures Apply(s, e).sessions[s.held[t].conn] == s.sessions[s.held[t].conn]
  {
    assert At(s, s.held[t].conn, HeldBy(t));
    if !e.Refused? { assert At(s, Moved(s, e), Source(s, e)); }
  }

  /** A step about another id leaves a waiting transaction alone, down to its session. */
  lemma {:induction false} WaitingFrame(s: State, e: Event, id: Id)
    requires OnePlace(s) && Enabled(s, e) && id in s.txs
    requires MovesId(e) ==> MovedId(s, e) != id
    ensures id in Apply(s, e).txs && Apply(s, e).txs[id] == s.txs[id]
    ensures s.txs[id] in s.sessions && s.txs[id] in Apply(s, e).sessions
    ensures Apply(s, e).sessions[s.txs[id]] == s.sessions[s.txs[id]]
  {
    assert At(s, s.txs[id], InRegistry(id));
    if !e.Refused? { assert At(s, Moved(s, e), Source(s, e)); }
  }

  lemma {:induction false} TerminalFrame(s: State, e: Event, id: Id, terminal: Terminal)
    requires OneStage(s) && Enabled(s, e) && TerminalCount(s, id, terminal)
    ensures TerminalCount(Apply(s, e), id, terminal)
  {
    var s' := Apply(s, e);
    var i :| 0 <= i < |s.finished| && s.finished[i] == (id, terminal)
      && forall j :: 0 <= j < |s.finished| && s.finished[j].0 == id ==> j == i;
    assert InStage(s, id, Over(i));
    if e.Finish? {
      assert InStage(s, s.held[e.task].id, Owned(e.task));
      assert s.held[e.task].id != id;
    }
    assert s'.finished[i] == (id, terminal);
  }

  /** While a block is between two statements, only its own task can touch its id: block a,
      whose step this is, has another one. */
  lemma {:induction false} InsideIsPrivate(s: State, e: Event, a: Block, id: Id)
    requires OneStage(s) && Enabled(s, e) && Allowed(a, e) && Agrees(s, e.task, a)
    requires id in s.txs && (HasId(a.phase) ==> a.id != id)
    requires MovesId(e) && (e.BeginOk? ==> s.begun < U64)
    ensures MovedId(s, e) != id
  {
    assert InStage(s, id, Waiting);
    if e.BeginOk? {
      NextIdIsNew(s.begun);
    } else if !(e.Take? || e.TakeTerminal?) {
      assert InStage(s, s.held[e.task].id, Owned(e.task));
    }
  }

  /** Another block's step, here block a's, leaves this block's view of the registry as it was. */
  lemma {:induction false} OthersUndisturbed(s: State, e: Event, a: Block, t: Task, b: Block)
    requires OnePlace(s) && OneStage(s) && Enabled(s, e) && Allowed(a, e) && t != e.task
    requires Agrees(s, e.task, a) && Agrees(s, t, b)
    requires HasId(a.phase) && HasId(b.phase) ==> a.id != b.id
    requires e.BeginOk? ==> s.begun < U64
    ensures Agrees(Apply(s, e), t, b)
  {
    if t in s.held {
      HeldFrame(s, e, t);
    } else if b.phase.Inside? {
      if MovesId(e) { InsideIsPrivate(s, e, a, b.id); }
      WaitingFrame(s, e, b.id);
    } else if b.phase.Left? {
      TerminalFrame(s, e, b.id, if b.normal then Commit else Rollback);
    }
  }

  lemma {:induction false} SnocWrites(log: seq<Outcome>, o: Outcome)
    ensures WritesOf(log + [o]) == WritesOf(log) + if o.Rejected? then [] else o.writes
    ensures AnyRejected(log + [o]) <==> AnyRejected(log) || o.Rejected?
  {
    assert (log + [o])[..|log|] == log;
    assert (log + [o])[|log|] == o;
    if AnyRejected(log) {
      var i :| 0 <= i < |log| && log[i].Rejected?;
      assert (log + [o])[i].Rejected?;
    }
  }

  lemma {:induction false} FinishCounts(s: State, e: Event)
    requires OneStage(s) && Enabled(s, e) && e.Finish?
    ensures TerminalCount(Apply(s, e), s.held[e.task].id, s.held[e.task].terminal)
  {
    var t := e.task;
    var id, s' := s.held[t].id, Apply(s, e);
    assert InStage(s, id, Owned(t));
    assert s'.finished[|s.finished|] == (id, s.held[t].terminal);
    forall j: nat | j < |s'.finished| && s'.finished[j].0 == id ensures j == |s.finished| {
      assert j < |s.finished| ==> InStage(s, id, Over(j));
    }
  }

  lemma {:induction false} OwnStep(s: State, b: Block, e: Event)
    requires OnePlace(s) && OneStage(s) && Enabled(s, e) && Allowed(b, e) && Agrees(s, e.task, b)
    ensures Agrees(Apply(s, e), e.task, Advance(s, b, e))
  {
    if e.Return? {
      OwnReturn(s, b, e);
    } else if e.Finish? {
      FinishCounts(s, e);
    } else if e.BeginOk? {
      assert At(s, s.held[e.task].conn, HeldBy(e.task));
    }
  }

  lemma {:induction false} OwnReturn(s: State, b: Block, e: Event)
    requires Enabled(s, e) && Allowed(b, e) && Agrees(s, e.task, b) && e.Return?
    ensures Agrees(Apply(s, e), e.task, Advance(s, b, e))
  {
    SnocWrites(b.log, e.outcome);
  }

  lemma {:induction false} StepCommits(w: World, e: Event)
    requires CommitsInv(w) && CanStep(w, e) && Agrees(w.reg, e.task, w.blocks[e.task])
    ensures CommitsInv(Step(w, e))
  {
    assert !Succeeded(w.blocks[e.task]);
    assert e.task !in w.commits;
    CommitMembers(w, e);
    StepReplay(w, e);
  }

  /** What a step adds to the database is the write list of the block it completes. */
  lemma {:induction false} StepReplay(w: World, e: Event)
    requires forall i :: 0 <= i < |w.commits| ==> w.commits[i] in w.blocks
    requires e.task !in w.commits && w.reg.db == Replay(w.blocks, w.commits)
    requires CanStep(w, e) && Agrees(w.reg, e.task, w.blocks[e.task])
    ensures forall i :: 0 <= i < |Step(w, e).commits| ==> Step(w, e).commits[i] in Step(w, e).blocks
    ensures Step(w, e).reg.db == Replay(Step(w, e).blocks, Step(w, e).commits)
  {
    var w' := Step(w, e);
    var b := w'.blocks[e.task];
    forall i | 0 <= i < |w.commits| ensures w.commits[i] in w.blocks && w.blocks[w.commits[i]] == w'.blocks[w.commits[i]] {
      assert w.commits[i] in w.commits;
    }
    ReplayFrame(w.blocks, w'.blocks, w.commits);
    StepPublishes(w.reg, w.blocks[e.task], e);
    if e.Finish? && Succeeded(b) {
      assert w'.commits[..|w'.commits| - 1] == w.commits;
    }
  }

  lemma {:induction false} StepPublishes(s: State, b: Block, e: Event)
    requires Enabled(s, e) && Allowed(b, e) && Agrees(s, e.task, b)
    ensures Apply(s, e).db == s.db + if e.Finish? && Succeeded(Advance(s, b, e)) then WritesOf(b.log) else []
    ensures Advance(s, b, e).phase.Left? ==> e.Finish? && Advance(s, b, e).log == b.log
  {}

  lemma {:induction false} CommitMembers(w: World, e: Event)
    requires CommitsInv(w) && CanStep(w, e) && !w.blocks[e.task].phase.Left?
    ensures forall t :: t in Step(w, e).commits <==> t in Step(w, e).blocks && Succeeded(Step(w, e).blocks[t])
  {
    var w' := Step(w, e);
    assert e.task !in w.commits;
    assert Succeeded(w'.blocks[e.task]) ==> e.Finish?;
    forall t ensures t in w'.commits <==> t in w'.blocks && Succeeded(w'.blocks[t]) {
      assert t != e.task ==> (t in w'.commits <==> t in w.commits);
    }
  }

  lemma {:induction false} StepIds(w: World, e: Event)
    requires OwnIds(w) && CanStep(w, e)
    requires e.BeginOk? ==> w.reg.begun < U64
    ensures OwnIds(Step(w, e))
  {
    if e.BeginOk? { NextIdIsNew(w.reg.begun); }
  }

  lemma {:induction false} StepRegistryIsBlocks(w: World, e: Event)
    requires RegistryIsBlocks(w) && CanStep(w, e) && Agrees(w.reg, e.task, w.blocks[e.task])
    ensures RegistryIsBlocks(Step(w, e))
  {
    var w' := Step(w, e);
    forall id | id in w'.reg.txs ensures exists t :: InsideWith(w', t, id) {
      if (e.Register? || e.Return?) && id == w.reg.held[e.task].id {
        assert InsideWith(w', e.task, id);
      } else {
        var t :| InsideWith(w, t, id);
        assert InsideWith(w', t, id);
      }
    }
  }

  lemma {:induction false} IdsDiffer(w: World, t: Task, u: Task)
    requires OwnIds(w) && t in w.blocks && u in w.blocks && t != u
    ensures HasId(w.blocks[t].phase) && HasId(w.blocks[u].phase) ==> w.blocks[t].id != w.blocks[u].id
  {}

  lemma {:induction false} StepWorld(w: World, e: Event)
    requires WorldInv(w) && CanStep(w, e)
    requires e.BeginOk? ==> w.reg.begun < U64
    ensures WorldInv(Step(w, e))
  {
    var w' := Step(w, e);
    StepInv(w.reg, e);
    forall t | t in w'.blocks ensures Agrees(w'.reg, t, w'.blocks[t]) {
      if t == e.task {
        OwnStep(w.reg, w.blocks[t], e);
      } else {
        IdsDiffer(w, e.task, t);
        OthersUndisturbed(w.reg, e, w.blocks[e.task], t, w.blocks[t]);
      }
    }
    StepIds(w, e);
    StepCommits(w, e);
    StepRegistryIsBlocks(w, e);
  }

  lemma {:induction false} BlockBegunGrows(w: World, es: seq<Event>)
    requires Steps(w, es)
    ensures w.reg.begun <= Final(w, es).reg.begun
    decreases |es|
  {
    if es != [] { BlockBegunGrows(Step(w, es[0]), es[1..]); }
  }

  lemma {:induction false} StepsInv(w: World, es: seq<Event>)
    requires WorldInv(w) && Steps(w, es) && Final(w, es).reg.begun <= U64
    ensures WorldInv(Final(w, es))
    decreases |es|
  {
    if es != [] {
      BlockBegunGrows(Step(w, es[0]), es[1..]);
      StepWorld(w, es[0]);
      StepsInv(Step(w, es[0]), es[1..]);
    }
  }

  // ------------------------------------------------------------ main theorems

  /** However the blocks interleave, the database is the replay, in commit order, of the
      complete write lists of exactly the blocks that exited normally with no rejected
      statement and whose COMMIT was carried out; no block is replayed twice. */
  lemma {:induction false} AtomicityOfBlocks(w: World, es: seq<Event>)
    requires Start(w) && Steps(w, es) && Final(w, es).reg.begun <= U64
    ensures var f := Final(w, es);
            && (forall i :: 0 <= i < |f.commits| ==> f.commits[i] in f.blocks)
            && f.reg.db == Replay(f.blocks, f.commits)
            && (forall t :: t in f.commits <==> t in f.blocks && Succeeded(f.blocks[t]))
            && (forall i, j :: 0 <= i < j < |f.commits| ==> f.commits[i] != f.commits[j])
  {
    StartInv(w);
    StepsInv(w, es);
  }

  lemma {:induction false} StepsCons(w: World, e: Event, es: seq<Event>)
    requires CanStep(w, e) && Steps(Step(w, e), es)
    ensures Steps(w, [e] + es) && Final(w, [e] + es) == Final(Step(w, e), es)
  {
    assert ([e] + es)[1..] == es;
  }

  /** A block that has just opened, on connection c, in a world where nothing was committed. */
  ghost predicate JustOpened(w: World, t: Task, c: Conn) {
    && t in w.blocks && w.blocks[t] == Block(Inside, IdOf(1), [], false, false, false)
    && t !in w.reg.held && IdOf(1) in w.reg.txs && w.reg.txs[IdOf(1)] == c
    && c in w.reg.sessions && w.reg.sessions[c] == Open([], false) && w.reg.db == [] && w.commits == []
  }

  ghost predicate CommittedAlone(w: World, t: Task, log: seq<Outcome>, writes: seq<Write>) {
    t in w.blocks && w.blocks[t].log == log && Succeeded(w.blocks[t]) && w.commits == [t] && w.reg.db == writes
  }

  /** A block with one statement, and a COMMIT that is carried out; `ok` says whether its answer
      arrives. */
  lemma {:induction false} CommitsAnyway(w: World, t: Task, c: Conn, outcome: Outcome, ok: bool) returns (es: seq<Event>)
    requires JustOpened(w, t, c) && !outcome.Rejected?
    ensures Steps(w, es) && CommittedAlone(Final(w, es), t, [outcome], outcome.writes) && Final(w, es).blocks[t].terminalOk == ok
  {
    var id := IdOf(1);
    var w1 := Step(w, Take(t, id));
    var w2 := Step(w1, Return(t, outcome));
    var w3 := Step(w2, TakeTerminal(t, id, Commit));
    var w4 := Step(w3, Finish(t, ok, true));
    assert w2.reg.sessions[c] == Open(outcome.writes, false);
    assert !AnyRejected(w4.blocks[t].log);
    StepsCons(w3, Finish(t, ok, true), []);
    StepsCons(w2, TakeTerminal(t, id, Commit), [Finish(t, ok, true)] + []);
    es := [TakeTerminal(t, id, Commit)] + ([Finish(t, ok, true)] + []);
    StepsCons(w1, Return(t, outcome), es);
    es := [Return(t, outcome)] + es;
    StepsCons(w, Take(t, id), es);
    es := [Take(t, id)] + es;
  }

  lemma {:induction false} RunsAlone(w: World, t: Task, c: Conn, outcome: Outcome, ok: bool) returns (es: seq<Event>)
    requires Start(w) && t in w.blocks && c in w.reg.pool && !outcome.Rejected?
    ensures Steps(w, es) && CommittedAlone(Final(w, es), t, [outcome], outcome.writes) && Final(w, es).blocks[t].terminalOk == ok
  {
    var w1 := Step(w, Acquire(t, c));
    var w2 := Step(w1, BeginOk(t));
    var w3 := Step(w2, Register(t));
    assert JustOpened(w3, t, c);
    es := CommitsAnyway(w3, t, c, outcome, ok);
    StepsCons(w2, Register(t), es);
    es := [Register(t)] + es;
    StepsCons(w1, BeginOk(t), es);
    es := [BeginOk(t)] + es;
    StepsCons(w, Acquire(t, c), es);
    es := [Acquire(t, c)] + es;
  }

  /** A statement that fails on our side only does not stop a block that goes on: the block
      commits, and the writes of that statement are published. */
  lemma {:induction false} ClientErrorStillCommits(w: World, t: Task, c: Conn, writes: seq<Write>) returns (es: seq<Event>)
    requires Start(w) && t in w.blocks && c in w.reg.pool
    ensures Steps(w, es) && CommittedAlone(Final(w, es), t, [ClientError(writes)], writes)
  {
    es := RunsAlone(w, t, c, ClientError(writes), true);
  }

  /** When the answer of a COMMIT gets lost, the block raises, and its writes are published. */
  lemma {:induction false} LostAnswerStillCommits(w: World, t: Task, c: Conn, writes: seq<Write>) returns (es: seq<Event>)
    requires Start(w) && t in w.blocks && c in w.reg.pool
    ensures Steps(w, es) && CommittedAlone(Final(w, es), t, [Done(writes)], writes) && !Final(w, es).blocks[t].terminalOk
  {
    es := RunsAlone(w, t, c, Done(writes), false);
  }

  /** A block that exits normally and raises nothing is committed if and only if no statement of it
      was rejected. */
  lemma {:induction false} SilentExitIsCommitted(w: World, es: seq<Event>, t: Task)
    requires Start(w) && Steps(w, es) && Final(w, es).reg.begun <= U64
    requires t in Final(w, es).blocks && Final(w, es).blocks[t].phase.Left?
    ensures var f := Final(w, es); var b := f.blocks[t];
            b.normal && b.terminalOk ==> (t in f.commits <==> !AnyRejected(b.log))
  {
    StartInv(w);
    StepsInv(w, es);
    assert Agrees(Final(w, es).reg, t, Final(w, es).blocks[t]);
  }

  /** A block that has left after opening got exactly one terminal statement: COMMIT if its
      body ended normally, ROLLBACK otherwise. */
  lemma {:induction false} OneTerminalPerBlock(w: World, es: seq<Event>, t: Task)
    requires Start(w) && Steps(w, es) && Final(w, es).reg.begun <= U64
    requires t in Final(w, es).blocks && Final(w, es).blocks[t].phase.Left?
    ensures var f := Final(w, es);
            TerminalCount(f.reg, f.blocks[t].id, if f.blocks[t].normal then Commit else Rollback)
  {
    StartInv(w);
    StepsInv(w, es);
    assert Agrees(Final(w, es).reg, t, Final(w, es).blocks[t]);
  }

  /** A block that uses its own id from its own thread is never told that the transaction
      is unknown or already finished, and can always issue its next statement or leave. */
  lemma {:induction false} NoSpuriousRefusal(w: World, es: seq<Event>, t: Task, terminal: Terminal)
    requires Start(w) && Steps(w, es) && Final(w, es).reg.begun <= U64
    requires t in Final(w, es).blocks && Final(w, es).blocks[t].phase.Inside?
    ensures var f := Final(w, es); var id := f.blocks[t].id;
            && CanStep(f, Take(t, id)) && CanStep(f, TakeTerminal(t, id, terminal))
            && !CanStep(f, Refused(t, id))
  {
    StartInv(w);
    StepsInv(w, es);
    assert Agrees(Final(w, es).reg, t, Final(w, es).blocks[t]);
  }

  /** When every block is done, every connection is back in the pool and no transaction is
      left in the registry. */
  lemma {:induction false} NothingLeaks(w: World, es: seq<Event>)
    requires Start(w) && Steps(w, es) && Final(w, es).reg.begun <= U64
    requires forall t :: t in Final(w, es).blocks ==> Final(w, es).blocks[t].phase.Left? || Final(w, es).blocks[t].phase.NeverOpened?
    ensures Final(w, es).reg.pool == Final(w, es).reg.sessions.Keys && Final(w, es).reg.txs == map[]
  {
    StartInv(w);
    StepsInv(w, es);
    IdleWorld(Final(w, es));
  }

  lemma {:induction false} IdleWorld(f: World)
    requires OnePlace(f.reg) && RegistryIsBlocks(f)
    requires forall t :: t in f.blocks ==> Agrees(f.reg, t, f.blocks[t]) && (f.blocks[t].phase.Left? || f.blocks[t].phase.NeverOpened?)
    ensures f.reg.pool == f.reg.sessions.Keys && f.reg.txs == map[]
  {
    forall t ensures t !in f.reg.held {
      if t in f.blocks { assert Agrees(f.reg, t, f.blocks[t]); }
    }
    forall c | c in f.reg.sessions ensures c in f.reg.pool {
      var p :| At(f.reg, c, p);
    }
    forall c | c in f.reg.pool ensures c in f.reg.sessions { assert At(f.reg, c, InPool); }
  }

  // ---------------------------------------------------------------- the code

  /** The run from s to s' consists of these events. */
  ghost predicate Emits(s: State, es: seq<Event>, s': State) {
    Run(s, es) && After(s, es) == s'
  }

  lemma {:induction false} EmitsCons(s: State, e: Event, es: seq<Event>, s': State)
    ensures Emits(s, [e] + es, s') <==> Enabled(s, e) && Emits(Apply(s, e), es, s')
  {
    assert ([e] + es)[1..] == es;
  }

  lemma {:induction false} EmitsTwo(s: State, e: Event, f: Event, s': State)
    ensures Emits(s, [e, f], s') <==> Enabled(s, e) && Enabled(Apply(s, e), f) && s' == Apply(Apply(s, e), f)
  {
    EmitsCons(s, e, [f], s');
    assert [e] + [f] == [e, f] && [f] + [] == [f];
    if Enabled(s, e) { EmitsCons(Apply(s, e), f, [], s'); }
  }

  lemma {:induction false} EmitsThree(s: State, e: Event, f: Event, g: Event, s': State)
    ensures Emits(s, [e, f, g], s') <==>
            Enabled(s, e) && Enabled(Apply(s, e), f) && Enabled(Apply(Apply(s, e), f), g) && s' == Apply(Apply(Apply(s, e), f), g)
  {
    assert [e] + [f, g] == [e, f, g];
    EmitsCons(s, e, [f, g], s');
    if Enabled(s, e) { EmitsTwo(Apply(s, e), f, g, s'); }
  }

  /** The context manager, here run by one thread without others in between: its methods
      emit exactly the events a `Block` may, and `_id` is set exactly from a successful
      __enter__ to the end of __exit__. */
  class Transaction {
    const reg: Registry
    const task: Task
    var id: Option<Id>

    constructor (reg: Registry, task: Task)
      ensures this.reg == reg && this.task == task && id == None
    {
      this.reg := reg;
      this.task := task;
      id := None;
    }

    /** __enter__; `ok` says whether BEGIN succeeds. */
    method Enter(c: Conn, ok: bool)
      requires reg.Valid() && id.None? && Enabled(reg.View(), Acquire(task, c))
      modifies this, reg
      ensures reg.Valid() && id.Some? == ok
      ensures Emits(old(reg.View()), if ok then [Acquire(task, c), BeginOk(task), Register(task)] else [Acquire(task, c), BeginFailed(task)], reg.View())
      ensures ok ==> id.value == IdOf(old(reg.begun) + 1)
    {
      ghost var s := reg.View();
      reg.GetConn(task, c);
      reg.Begun(task, ok);
      if ok {
        var drawn := reg.Insert(task);
        id := Some(drawn);
        EmitsThree(s, Acquire(task, c), BeginOk(task), Register(task), reg.View());
      } else {
        EmitsTwo(s, Acquire(task, c), BeginFailed(task), reg.View());
      }
    }

    /** query and execute: a refused id and a failed statement both surface as an error. */
    method Execute(outcome: Outcome) returns (failed: bool)
      requires reg.Valid() && id.Some? && task !in reg.held
      requires id.value in reg.txs ==> Run(reg.View(), [Take(task, id.value), Return(task, outcome)])
      modifies this, reg
      ensures reg.Valid() && id == old(id)
      ensures Emits(old(reg.View()), if id.value in old(reg.txs) then [Take(task, id.value), Return(task, outcome)] else [Refused(task, id.value)], reg.View())
      ensures failed == (id.value !in old(reg.txs) || !outcome.Done?)
    {
      ghost var s := reg.View();
      if id.value in reg.txs { EmitsTwo(s, Take(task, id.value), Return(task, outcome), After(s, [Take(task, id.value), Return(task, outcome)])); }
      var found := reg.StartStatement(task, id.value);
      if found {
        failed := reg.EndStatement(task, outcome);
        EmitsTwo(s, Take(task, id.value), Return(task, outcome), reg.View());
      } else {
        EmitsCons(s, Refused(task, id.value), [], reg.View());
        assert [Refused(task, id.value)] + [] == [Refused(task, id.value)];
        failed := true;
      }
    }

    /** __exit__: COMMIT when no exception crosses the block, else ROLLBACK, whose own failure
        is not raised; the id is cleared in any case. */
    method Exit(normal: bool, ok: bool, ghost carried: bool) returns (raised: bool)
      requires reg.Valid() && task !in reg.held
      requires id.Some? && id.value in reg.txs ==>
        Run(reg.View(), [TakeTerminal(task, id.value, if normal then Commit else Rollback), Finish(task, ok, carried)])
      modifies this, reg
      ensures reg.Valid() && id == None
      ensures old(id).None? ==> reg.View() == old(reg.View()) && !raised
      ensures old(id).Some? ==>
        var x := old(id).value;
        Emits(old(reg.View()),
          if x in old(reg.txs) then [TakeTerminal(task, x, if normal then Commit else Rollback), Finish(task, ok, carried)] else [Refused(task, x)],
          reg.View())
        && raised == (normal && (x !in old(reg.txs) || !ok))
    {
      if id.None? { return false; }
      ghost var s := reg.View();
      var x, terminal := id.value, if normal then Commit else Rollback;
      if x in reg.txs { EmitsTwo(s, TakeTerminal(task, x, terminal), Finish(task, ok, carried), After(s, [TakeTerminal(task, x, terminal), Finish(task, ok, carried)])); }
      var found := reg.StartFinish(task, x, terminal);
      if found {
        raised := reg.EndFinish(task, ok, carried);
        raised := raised && normal;
        EmitsTwo(s, TakeTerminal(task, x, terminal), Finish(task, ok, carried), reg.View());
      } else {
        EmitsCons(s, Refused(task, x), [], reg.View());
        assert [Refused(task, x)] + [] == [Refused(task, x)];
        raised := normal;
      }
      id := None;
    }
  }
}
