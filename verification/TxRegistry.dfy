/** The transaction registry of runtimes/core/src/sqldb/transaction.rs.

    The Rust functions are asynchronous: between two `await`s another thread may run.
    Each `Event` is one stretch of code that runs without interruption, so a run is
    any interleaving of begin, query, execute, commit and rollback, with arbitrary
    (also bogus) transaction ids.  The Postgres side is the session of each connection:
    writes stay private until COMMIT, a rejected statement aborts the transaction,
    COMMIT of an aborted transaction publishes nothing, and an answer may get lost. */
module TxRegistry {

  /** TX_SEQ is an AtomicU64. */
  const U64: nat := 0x1_0000_0000_0000_0000

  type Conn = nat
  type Id = nat
  type Task = nat
  type Write = string

  datatype Terminal = Commit | Rollback

  datatype Session = Idle | Open(writes: seq<Write>, aborted: bool)

  /** What became of one statement.  `ClientError`: the caller sees an error, but it was
      raised on our side (unreadable result, unbindable parameter), so Postgres did not
      abort the transaction and the writes the statement made, if any, stand. */
  datatype Outcome = Done(writes: seq<Write>) | ClientError(writes: seq<Write>) | Rejected

  /** A connection owned by a task that is inside one of the async functions. */
  datatype Holding =
    | Starting(conn: Conn)                              // tx_begin, BEGIN not answered yet
    | Numbered(conn: Conn, id: Id)                      // tx_begin, id drawn, not inserted yet
    | InStatement(conn: Conn, id: Id)                   // with_tx, between take and insert
    | Finishing(conn: Conn, id: Id, terminal: Terminal) // tx_finish, terminal not answered yet

  datatype State = State(
    pool: set<Conn>,              // idle connections
    txs: map<Id, Conn>,           // the registry TXS
    begun: nat,                   // how often TX_SEQ was bumped
    held: map<Task, Holding>,
    sessions: map<Conn, Session>, // every connection there is
    db: seq<Write>,               // published writes, in publication order
    finished: seq<(Id, Terminal)>)

  datatype Event =
    | Acquire(task: Task, conn: Conn)
    | BeginFailed(task: Task)
    | BeginOk(task: Task)
    | Register(task: Task)
    | Take(task: Task, id: Id)
    | Return(task: Task, outcome: Outcome)
    | TakeTerminal(task: Task, id: Id, terminal: Terminal)
    | Finish(task: Task, ok: bool, carried: bool)       // answered without an error; carried out by Postgres
    | Refused(task: Task, id: Id)

  /** The k-th id drawn from TX_SEQ (k counts from 1; the counter wraps). */
  function IdOf(k: nat): Id { k % U64 }

  predicate Enabled(s: State, e: Event) {
    match e
    case Acquire(t, c) => t !in s.held && c in s.pool
    case BeginFailed(t) => t in s.held && s.held[t].Starting?
    case BeginOk(t) => t in s.held && s.held[t].Starting?
    case Register(t) => t in s.held && s.held[t].Numbered?
    case Take(t, id) => t !in s.held && id in s.txs
    case Return(t, outcome) =>
      && t in s.held && s.held[t].InStatement?
      && s.held[t].conn in s.sessions && s.sessions[s.held[t].conn].Open?
      // Postgres rejects everything in an aborted transaction
      && (s.sessions[s.held[t].conn].aborted ==> !outcome.Done? && (outcome.ClientError? ==> outcome.writes == []))
    case TakeTerminal(t, id, _) => t !in s.held && id in s.txs
    case Finish(t, ok, carried) =>
      // an answer without an error is a statement carried out, but the answer may get lost
      (ok ==> carried) && t in s.held && s.held[t].Finishing? && s.held[t].conn in s.sessions && s.sessions[s.held[t].conn].Open?
    case Refused(t, id) => t !in s.held && id !in s.txs
  }

  function AfterStatement(session: Session, outcome: Outcome): Session
    requires session.Open?
  {
    match outcome
    case Done(ws) => session.(writes := session.writes + ws)
    case ClientError(ws) => session.(writes := session.writes + ws)
    case Rejected => session.(aborted := true)
  }

  function Published(session: Session, terminal: Terminal, carried: bool): seq<Write>
    requires session.Open?
  {
    if terminal.Commit? && carried && !session.aborted then session.writes else []
  }

  function Apply(s: State, e: Event): State
    requires Enabled(s, e)
  {
    match e
    case Acquire(t, c) => s.(pool := s.pool - {c}, held := s.held[t := Starting(c)])
    case BeginFailed(t) => s.(pool := s.pool + {s.held[t].conn}, held := s.held - {t})
    case BeginOk(t) =>
      var c := s.held[t].conn;
      s.(begun := s.begun + 1,
         sessions := s.sessions[c := Open([], false)],
         held := s.held[t := Numbered(c, IdOf(s.begun + 1))])
    case Register(t) => s.(txs := s.txs[s.held[t].id := s.held[t].conn], held := s.held - {t})
    case Take(t, id) => s.(txs := s.txs - {id}, held := s.held[t := InStatement(s.txs[id], id)])
    case Return(t, outcome) =>
      var c := s.held[t].conn;
      s.(txs := s.txs[s.held[t].id := c],
         sessions := s.sessions[c := AfterStatement(s.sessions[c], outcome)],
         held := s.held - {t})
    case TakeTerminal(t, id, terminal) =>
      s.(txs := s.txs - {id}, held := s.held[t := Finishing(s.txs[id], id, terminal)])
    case Finish(t, _, carried) =>
      var h := s.held[t];
      s.(pool := s.pool + {h.conn},
         sessions := s.sessions[h.conn := Idle],
         held := s.held - {t},
         db := s.db + Published(s.sessions[h.conn], h.terminal, carried),
         finished := s.finished + [(h.id, h.terminal)])
    case Refused(_, _) => s
  }

  ghost predicate Run(s: State, es: seq<Event>)
    decreases |es|
  {
    es == [] || (Enabled(s, es[0]) && Run(Apply(s, es[0]), es[1..]))
  }

  ghost function After(s: State, es: seq<Event>): State
    requires Run(s, es)
    decreases |es|
  {
    if es == [] then s else After(Apply(s, es[0]), es[1..])
  }

  ghost predicate Init(s: State) {
    && s.pool == s.sessions.Keys
    && s.txs == map[] && s.held == map[] && s.begun == 0 && s.db == [] && s.finished == []
    && forall c :: c in s.sessions ==> s.sessions[c] == Idle
  }

  // ---------------------------------------------------------------- invariant

  /** Where a connection is. */
  datatype Place = InPool | InRegistry(id: Id) | HeldBy(task: Task)

  ghost predicate At(s: State, c: Conn, p: Place) {
    match p
    case InPool => c in s.pool
    case InRegistry(id) => id in s.txs && s.txs[id] == c
    case HeldBy(t) => t in s.held && s.held[t].conn == c
  }

  /** Where a transaction id is: waiting in the registry, owned by a task, or over. */
  datatype Stage = Waiting | Owned(task: Task) | Over(index: nat)

  ghost predicate Carries(s: State, t: Task, id: Id) {
    t in s.held && !s.held[t].Starting? && s.held[t].id == id
  }

  ghost predicate InStage(s: State, id: Id, g: Stage) {
    match g
    case Waiting => id in s.txs
    case Owned(t) => Carries(s, t, id)
    case Over(i) => i < |s.finished| && s.finished[i].0 == id
  }

  /** The ids drawn so far, as long as the counter has not wrapped. */
  predicate Drawn(begun: nat, id: Id) {
    id < U64 && if id == 0 then begun >= U64 else id <= begun
  }

  ghost predicate OnePlace(s: State) {
    && (forall c, p, q :: At(s, c, p) && At(s, c, q) ==> p == q)
    && (forall c, p :: At(s, c, p) ==> c in s.sessions)
    && (forall c :: c in s.sessions ==> exists p :: At(s, c, p))
  }

  ghost predicate OneStage(s: State) {
    && (forall id, g, h :: InStage(s, id, g) && InStage(s, id, h) ==> g == h)
    && (forall id, g :: InStage(s, id, g) ==> Drawn(s.begun, id))
    && (forall id :: Drawn(s.begun, id) ==> exists g :: InStage(s, id, g))
  }

  /** A session is open exactly while its connection belongs to a numbered transaction. */
  ghost predicate SessionsMatch(s: State) {
    && (forall c :: c in s.pool && c in s.sessions ==> s.sessions[c].Idle?)
    && (forall id :: id in s.txs && s.txs[id] in s.sessions ==> s.sessions[s.txs[id]].Open?)
    && (forall t :: t in s.held && s.held[t].conn in s.sessions ==>
                      (s.sessions[s.held[t].conn].Idle? <==> s.held[t].Starting?))
  }

  ghost predicate Inv(s: State) {
    s.begun <= U64 && OnePlace(s) && OneStage(s) && SessionsMatch(s)
  }

  lemma {:induction false} InitInv(s: State)
    requires Init(s)
    ensures Inv(s)
  {
    forall c | c in s.sessions ensures exists p :: At(s, c, p) {
      assert At(s, c, InPool);
    }
  }

  /** Where the connections go in one step: only the connection the event is about moves. */
  ghost function Moved(s: State, e: Event): Conn
    requires Enabled(s, e) && !e.Refused?
  {
    if e.Acquire? then e.conn
    else if e.Take? || e.TakeTerminal? then s.txs[e.id]
    else s.held[e.task].conn
  }

  ghost function Source(s: State, e: Event): Place
    requires Enabled(s, e) && !e.Refused?
  {
    if e.Acquire? then InPool
    else if e.Take? || e.TakeTerminal? then InRegistry(e.id)
    else HeldBy(e.task)
  }

  ghost function Destination(s: State, e: Event): Place
    requires Enabled(s, e) && !e.Refused?
  {
    match e
    case BeginFailed(_) => InPool
    case Register(t) => InRegistry(s.held[t].id)
    case Return(t, _) => InRegistry(s.held[t].id)
    case Finish(_, _, _) => InPool
    case _ => HeldBy(e.task)
  }

  lemma {:induction false} StepPlaces(s: State, e: Event, c: Conn, p: Place)
    requires Inv(s) && Enabled(s, e) && !e.Refused?
    ensures At(Apply(s, e), c, p) <==> if c == Moved(s, e) then p == Destination(s, e) else At(s, c, p)
  {
    assert At(s, Moved(s, e), Source(s, e));
    if e.Register? || e.Return? {
      assert InStage(s, s.held[e.task].id, Owned(e.task));
      assert !InStage(s, s.held[e.task].id, Waiting);
    }
    if c != Moved(s, e) {
      assert At(Apply(s, e), c, p) <==> At(s, c, p);
    } else {
      assert At(s, c, p) ==> p == Source(s, e);
    }
  }

  lemma {:induction false} StepOnePlace(s: State, e: Event)
    requires Inv(s) && Enabled(s, e)
    ensures OnePlace(Apply(s, e))
  {
    if e.Refused? { return; }
    var s' := Apply(s, e);
    forall c, p ensures At(s', c, p) <==> if c == Moved(s, e) then p == Destination(s, e) else At(s, c, p) {
      StepPlaces(s, e, c, p);
    }
    assert Moved(s, e) in s.sessions by { SourcePlace(s, e); }
    forall c | c in s'.sessions ensures exists p :: At(s', c, p) {
      if c == Moved(s, e) {
        assert At(s', c, Destination(s, e));
      } else {
        var p :| At(s, c, p);
        assert At(s', c, p);
      }
    }
  }

  lemma {:induction false} SourcePlace(s: State, e: Event)
    requires Inv(s) && Enabled(s, e) && !e.Refused?
    ensures Moved(s, e) in s.sessions
  {
    assert At(s, Moved(s, e), Source(s, e));
  }

  /** The id an event is about, and the stage it moves to. */
  ghost predicate MovesId(e: Event) { !e.Refused? && !e.Acquire? && !e.BeginFailed? }

  ghost function MovedId(s: State, e: Event): Id
    requires Enabled(s, e) && MovesId(e)
  {
    if e.BeginOk? then IdOf(s.begun + 1)
    else if e.Take? || e.TakeTerminal? then e.id
    else s.held[e.task].id
  }

  ghost function NewStage(s: State, e: Event): Stage
    requires Enabled(s, e) && MovesId(e)
  {
    match e
    case Register(_) => Waiting
    case Return(_, _) => Waiting
    case Finish(_, _, _) => Over(|s.finished|)
    case _ => Owned(e.task)
  }

  /** The next id is new until 2^64 transactions have begun. */
  lemma {:induction false} NextIdIsNew(begun: nat)
    requires begun < U64
    ensures !Drawn(begun, IdOf(begun + 1))
    ensures forall id :: Drawn(begun + 1, id) <==> Drawn(begun, id) || id == IdOf(begun + 1)
  {
    if begun + 1 == U64 {
      assert IdOf(begun + 1) == 0;
    } else {
      assert IdOf(begun + 1) == begun + 1;
    }
  }

  lemma {:induction false} StepStages(s: State, e: Event, id: Id, g: Stage)
    requires Inv(s) && Enabled(s, e) && MovesId(e)
    requires e.BeginOk? ==> s.begun < U64
    ensures InStage(Apply(s, e), id, g) <==> if id == MovedId(s, e) then g == NewStage(s, e) else InStage(s, id, g)
  {
    var s' := Apply(s, e);
    if e.BeginOk? {
      NextIdIsNew(s.begun);
      assert !InStage(s, MovedId(s, e), g);
    } else if e.Take? || e.TakeTerminal? {
      assert InStage(s, e.id, Waiting);
    } else {
      assert InStage(s, s.held[e.task].id, Owned(e.task));
    }
    match g
    case Waiting => assert id in s.txs <==> InStage(s, id, g);
    case Owned(t) =>
      if t != e.task {
        assert Carries(s', t, id) <==> InStage(s, id, g);
      } else {
        assert InStage(s, id, g) ==> id == MovedId(s, e);
      }
    case Over(i) =>
      if i < |s.finished| {
        assert s'.finished[i] == s.finished[i];
        assert InStage(s', id, g) <==> InStage(s, id, g);
      }
  }

  lemma {:induction false} StepOneStage(s: State, e: Event)
    requires Inv(s) && Enabled(s, e)
    requires e.BeginOk? ==> s.begun < U64
    ensures OneStage(Apply(s, e))
  {
    var s' := Apply(s, e);
    if !MovesId(e) {
      forall id, g ensures InStage(s', id, g) <==> InStage(s, id, g) {
        if g.Owned? { assert Carries(s', g.task, id) <==> Carries(s, g.task, id); }
      }
      return;
    }
    var moved := MovedId(s, e);
    forall id, g ensures InStage(s', id, g) <==> if id == moved then g == NewStage(s, e) else InStage(s, id, g) {
      StepStages(s, e, id, g);
    }
    if e.BeginOk? {
      NextIdIsNew(s.begun);
    } else if e.Take? || e.TakeTerminal? {
      assert InStage(s, moved, Waiting);
    } else {
      assert InStage(s, moved, Owned(e.task));
    }
    forall id | Drawn(s'.begun, id) ensures exists g :: InStage(s', id, g) {
      if id == moved {
        assert InStage(s', id, NewStage(s, e));
      } else {
        assert Drawn(s.begun, id);
        var g :| InStage(s, id, g);
        assert InStage(s', id, g);
      }
    }
  }

  lemma {:induction false} StepSessions(s: State, e: Event)
    requires Inv(s) && Enabled(s, e)
    ensures SessionsMatch(Apply(s, e))
  {
    if e.Refused? { return; }
    var s' := Apply(s, e);
    var c := Moved(s, e);
    SourcePlace(s, e);
    forall d, p | d == c || At(s', d, p) ensures At(s', d, p) <==> if d == c then p == Destination(s, e) else At(s, d, p) {
      StepPlaces(s, e, d, p);
    }
    forall d | d in s'.pool && d in s'.sessions ensures s'.sessions[d].Idle? {
      assert At(s', d, InPool);
    }
    forall id | id in s'.txs && s'.txs[id] in s'.sessions ensures s'.sessions[s'.txs[id]].Open? {
      assert At(s', s'.txs[id], InRegistry(id));
    }
    forall t | t in s'.held && s'.held[t].conn in s'.sessions
      ensures s'.sessions[s'.held[t].conn].Idle? <==> s'.held[t].Starting?
    {
      assert At(s', s'.held[t].conn, HeldBy(t));
    }
  }

  /** Every step keeps the invariant, as long as the counter does not wrap. */
  lemma {:induction false} StepInv(s: State, e: Event)
    requires Inv(s) && Enabled(s, e)
    requires e.BeginOk? ==> s.begun < U64
    ensures Inv(Apply(s, e))
  {
    StepOnePlace(s, e);
    StepOneStage(s, e);
    StepSessions(s, e);
  }

  lemma {:induction false} BegunGrows(s: State, es: seq<Event>)
    requires Run(s, es)
    ensures s.begun <= After(s, es).begun
    decreases |es|
  {
    if es != [] { BegunGrows(Apply(s, es[0]), es[1..]); }
  }

  /** Over every interleaving that begins at most 2^64 transactions: every connection is in
      exactly one of pool, registry and tasks; every id drawn is in exactly one of registry,
      task (so at most one operation on it is in flight) and finished list (so it is
      finished at most once). */
  lemma {:induction false} RunInv(s: State, es: seq<Event>)
    requires Inv(s) && Run(s, es) && After(s, es).begun <= U64
    ensures Inv(After(s, es))
    decreases |es|
  {
    if es != [] {
      BegunGrows(Apply(s, es[0]), es[1..]);
      StepInv(s, es[0]);
      RunInv(Apply(s, es[0]), es[1..]);
    }
  }

  /** Two draws give the same id exactly when they are a multiple of 2^64 apart. */
  lemma {:induction false} IdsRepeatOnlyByWrapping(j: nat, k: nat)
    requires j <= k
    ensures IdOf(j) == IdOf(k) <==> (k - j) % U64 == 0
  {
    var dj, dk := j / U64, k / U64;
    assert j == dj * U64 + IdOf(j) && k == dk * U64 + IdOf(k);
    assert k - j == (dk - dj) * U64 + (IdOf(k) - IdOf(j));
    if IdOf(j) == IdOf(k) {
      ModOfMultiple(dk - dj);
    }
  }

  lemma {:induction false} ModOfMultiple(q: int)
    requires q >= 0
    ensures (q * U64) % U64 == 0
  {}

  /** Registering keeps every connection reachable exactly when the drawn id is not in use:
      after 2^64 begins the HashMap insert drops the older transaction's connection. */
  lemma {:induction false} RegisterKeepsConnections(s: State, t: Task, id: Id)
    requires OnePlace(s) && Enabled(s, Register(t)) && id == s.held[t].id
    ensures OnePlace(Apply(s, Register(t))) <==> id !in s.txs
  {
    var s' := Apply(s, Register(t));
    assert At(s, s.held[t].conn, HeldBy(t));
    if id in s.txs {
      var lost := s.txs[id];
      assert At(s, lost, InRegistry(id));
      forall p ensures !At(s', lost, p) {
        assert At(s, lost, p) ==> p == InRegistry(id);
      }
    } else {
      forall c | c in s'.sessions ensures exists p :: At(s', c, p) {
        if c == s.held[t].conn {
          assert At(s', c, InRegistry(id));
        } else {
          var p :| At(s, c, p);
          assert At(s', c, p);
        }
      }
      forall c, p | At(s', c, p) ensures c in s.sessions && if c == s.held[t].conn then p == InRegistry(id) else At(s, c, p) {
        assert p == InRegistry(id) || At(s, c, p);
      }
    }
  }

  // ------------------------------------------------------- after the terminal

  /** A commit or rollback of `id` has started, and maybe completed. */
  ghost predicate Terminated(s: State, id: Id) {
    || (exists t :: t in s.held && s.held[t].Finishing? && s.held[t].id == id)
    || (exists i :: 0 <= i < |s.finished| && s.finished[i].0 == id)
  }

  lemma {:induction false} TerminatedNotWaiting(s: State, id: Id)
    requires Inv(s) && Terminated(s, id)
    ensures id !in s.txs
    ensures forall t :: Carries(s, t, id) ==> s.held[t].Finishing?
  {
    if t :| t in s.held && s.held[t].Finishing? && s.held[t].id == id {
      assert InStage(s, id, Owned(t));
    } else {
      var i :| 0 <= i < |s.finished| && s.finished[i].0 == id;
      assert InStage(s, id, Over(i));
    }
    assert id in s.txs ==> InStage(s, id, Waiting);
    forall t | Carries(s, t, id) ensures s.held[t].Finishing? {
      assert InStage(s, id, Owned(t));
    }
  }

  lemma {:induction false} TerminatedStays(s: State, e: Event, id: Id)
    requires Inv(s) && Enabled(s, e) && Terminated(s, id)
    ensures Terminated(Apply(s, e), id)
  {
    var s' := Apply(s, e);
    TerminatedNotWaiting(s, id);
    if i :| 0 <= i < |s.finished| && s.finished[i].0 == id {
      assert s'.finished[i].0 == id;
    } else {
      var t :| t in s.held && s.held[t].Finishing? && s.held[t].id == id;
      if e.Finish? && e.task == t {
        assert s'.finished[|s.finished|].0 == id;
      } else {
        assert t in s'.held && s'.held[t] == s.held[t];
      }
    }
  }

  /** Once a commit or rollback of `id` has taken the connection, every later query,
      execute, commit or rollback of `id` is refused, in every run. */
  lemma {:induction false} TerminatedIsRefused(s: State, es: seq<Event>, id: Id, k: nat)
    requires Inv(s) && Run(s, es) && After(s, es).begun <= U64
    requires Terminated(s, id) && k < |es|
    ensures !(es[k].Take? && es[k].id == id) && !(es[k].TakeTerminal? && es[k].id == id)
    decreases |es|
  {
    TerminatedNotWaiting(s, id);
    if k > 0 {
      BegunGrows(Apply(s, es[0]), es[1..]);
      StepInv(s, es[0]);
      TerminatedStays(s, es[0], id);
      TerminatedIsRefused(Apply(s, es[0]), es[1..], id, k - 1);
    }
  }

  /** An operation that names `id` gets its connection exactly when the transaction is begun
      and neither finished (or finishing) nor in use by another operation: a second
      concurrent operation on a live transaction is refused too. */
  lemma {:induction false} TakenExactlyWhenIdle(s: State, t: Task, id: Id)
    requires Inv(s) && t !in s.held
    ensures Enabled(s, Take(t, id)) <==>
            Drawn(s.begun, id) && !Terminated(s, id) && forall u :: !Carries(s, u, id)
  {
    if id in s.txs {
      assert InStage(s, id, Waiting);
      if Terminated(s, id) { TerminatedNotWaiting(s, id); }
      forall u ensures !Carries(s, u, id) {
        if Carries(s, u, id) { assert InStage(s, id, Owned(u)); }
      }
    } else if Drawn(s.begun, id) {
      var g :| InStage(s, id, g);
      if g.Over? { assert s.finished[g.index].0 == id; }
    }
  }

  // -------------------------------------------------------------- the registry

  /** TXS, TX_SEQ and the pool as the runtime holds them.  Each method is one uninterrupted
      stretch of the async functions and is proved against `Apply`. */
  class Registry {
    var pool: set<Conn>
    var txs: map<Id, Conn>
    var txSeq: nat
    var held: map<Task, Holding>
    ghost var sessions: map<Conn, Session>   // the state of Postgres
    ghost var db: seq<Write>
    ghost var begun: nat
    ghost var finished: seq<(Id, Terminal)>

    ghost predicate Valid()
      reads this
    {
      txSeq == IdOf(begun)
    }

    ghost function View(): State
      reads this
    {
      State(pool, txs, begun, held, sessions, db, finished)
    }

    constructor (conns: set<Conn>)
      ensures Valid() && Init(View()) && sessions.Keys == conns
    {
      pool := conns;
      txs := map[];
      txSeq := 0;
      held := map[];
      sessions := map c | c in conns :: Idle;
      db := [];
      begun := 0;
      finished := [];
    }

    /** take_tx: removes the connection of `id`, or reports it unknown or already finished. */
    method TakeTx(id: Id) returns (conn: Conn, found: bool)
      modifies this`txs
      ensures found == (id in old(txs))
      ensures found ==> conn == old(txs)[id] && txs == old(txs) - {id}
      ensures !found ==> txs == old(txs)
    {
      found := id in txs;
      conn := 0;
      if found {
        conn := txs[id];
        txs := txs - {id};
      }
    }

    /** tx_begin up to the answer of BEGIN: `get_conn`. */
    method GetConn(t: Task, c: Conn)
      requires Valid() && Enabled(View(), Acquire(t, c))
      modifies this
      ensures Valid() && View() == Apply(old(View()), Acquire(t, c))
    {
      pool := pool - {c};
      held := held[t := Starting(c)];
    }

    /** tx_begin when BEGIN is answered: on success an id is drawn from TX_SEQ. */
    method Begun(t: Task, ok: bool)
      requires Valid() && t in held && held[t].Starting?
      modifies this
      ensures Valid() && View() == Apply(old(View()), if ok then BeginOk(t) else BeginFailed(t))
    {
      var c := held[t].conn;
      if ok {
        sessions := sessions[c := Open([], false)];
        var id := (txSeq + 1) % U64;
        assert id == IdOf(begun + 1);
        txSeq := id;
        begun := begun + 1;
        held := held[t := Numbered(c, id)];
      } else {
        held := held - {t};
        pool := pool + {c};
      }
    }

    /** The rest of tx_begin: the insert, and the id that is returned. */
    method Insert(t: Task) returns (id: Id)
      requires Valid() && Enabled(View(), Register(t))
      modifies this
      ensures Valid() && View() == Apply(old(View()), Register(t)) && id == old(held)[t].id
    {
      id := held[t].id;
      txs := txs[id := held[t].conn];
      held := held - {t};
    }

    /** with_tx up to the await. */
    method StartStatement(t: Task, id: Id) returns (found: bool)
      requires Valid() && t !in held
      modifies this
      ensures Valid() && found == Enabled(old(View()), Take(t, id))
      ensures View() == Apply(old(View()), if found then Take(t, id) else Refused(t, id))
    {
      var c;
      c, found := TakeTx(id);
      if found { held := held[t := InStatement(c, id)]; }
    }

    /** with_tx after the await: the connection goes back even after a SQL error. */
    method EndStatement(t: Task, outcome: Outcome) returns (failed: bool)
      requires Valid() && Enabled(View(), Return(t, outcome))
      modifies this
      ensures Valid() && View() == Apply(old(View()), Return(t, outcome))
      ensures failed == !outcome.Done?
    {
      var h := held[t];
      sessions := sessions[h.conn := AfterStatement(sessions[h.conn], outcome)];
      txs := txs[h.id := h.conn];
      held := held - {t};
      failed := !outcome.Done?;
    }

    /** tx_finish up to the await. */
    method StartFinish(t: Task, id: Id, terminal: Terminal) returns (found: bool)
      requires Valid() && t !in held
      modifies this
      ensures Valid() && found == Enabled(old(View()), TakeTerminal(t, id, terminal))
      ensures View() == Apply(old(View()), if found then TakeTerminal(t, id, terminal) else Refused(t, id))
    {
      var c;
      c, found := TakeTx(id);
      if found { held := held[t := Finishing(c, id, terminal)]; }
    }

    /** tx_finish after the await: the connection is dropped, i.e. returns to the pool. */
    method EndFinish(t: Task, ok: bool, ghost carried: bool) returns (failed: bool)
      requires Valid() && Enabled(View(), Finish(t, ok, carried))
      modifies this
      ensures Valid() && View() == Apply(old(View()), Finish(t, ok, carried))
      ensures failed == !ok
    {
      var h := held[t];
      db := db + Published(sessions[h.conn], h.terminal, carried);
      sessions := sessions[h.conn := Idle];
      held := held - {t};
      pool := pool + {h.conn};
      finished := finished + [(h.id, h.terminal)];
      failed := !ok;
    }
  }
}
