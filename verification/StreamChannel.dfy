/** A streaming response: `PyStreamSink` (runtimes/python/src/lib.rs), `StreamSink` and the
    64-slot channel behind it (runtimes/core/src/api/server.rs).

    Any number of threads write through one sink; the binding closes the sink when the
    handler returns, possibly while writes are waiting for room; the server sends what it
    receives to the client, who may disconnect.  The channel is tokio's bounded mpsc: first
    in first out, a send waits for room and fails when the receiver is gone, and the stream
    ends when no sender is left and the queue is empty. */
module StreamChannel {

  const CAPACITY: nat := 64

  type Writer = nat
  type Chunk = string

  datatype State = State(
    open: bool,                       // the binding's own sender is still there
    sending: map<Writer, Chunk>,      // writers inside blocking_send, each with its clone of the sender
    queue: seq<Chunk>,
    alive: bool,                      // the receiver is still there
    ended: bool,                      // the client was sent the end of the stream
    accepted: seq<Chunk>,             // chunks whose write returned true, in order
    received: seq<Chunk>)             // chunks that went out to the client

  datatype Event =
    | BeginWrite(writer: Writer, chunk: Chunk)    // the sink is open: clone the sender
    | RefuseWrite(writer: Writer, chunk: Chunk)   // the sink is closed: write returns false
    | Push(writer: Writer)                        // there is room: write returns true
    | PushFails(writer: Writer)                   // the receiver is gone: write returns false
    | Close
    | Receive
    | End
    | Disconnect

  predicate Enabled(s: State, e: Event) {
    match e
    case BeginWrite(w, _) => w !in s.sending && s.open
    case RefuseWrite(w, _) => w !in s.sending && !s.open
    case Push(w) => w in s.sending && s.alive && |s.queue| < CAPACITY
    case PushFails(w) => w in s.sending && !s.alive
    case Close => s.open
    case Receive => s.alive && s.queue != []
    case End => s.alive && !s.ended && !s.open && s.sending == map[] && s.queue == []
    case Disconnect => s.alive
  }

  function Apply(s: State, e: Event): State
    requires Enabled(s, e)
  {
    match e
    case BeginWrite(w, c) => s.(sending := s.sending[w := c])
    case RefuseWrite(_, _) => s
    case Push(w) =>
      s.(queue := s.queue + [s.sending[w]], accepted := s.accepted + [s.sending[w]], sending := s.sending - {w})
    case PushFails(w) => s.(sending := s.sending - {w})
    case Close => s.(open := false)
    case Receive => s.(queue := s.queue[1..], received := s.received + [s.queue[0]])
    case End => s.(ended := true)
    case Disconnect => s.(alive := false, queue := [])
  }

  ghost predicate Run(s: State, es: seq<Event>)
    decreases |es|
  {
    es == [] || (Enabled(s, es[0]) && Run(Apply(s, es[0]), es[1..]))
  }

  ghost function After(s: State, es: seq<Event>): State
    requires Run(s, es)
    decreases |es|
  {
    if es == [] then s else After(Apply(s, es[0]), es[1..])
  }

  const START := State(true, map[], [], true, false, [], [])

  // ---------------------------------------------------------------- invariant

  predicate Inv(s: State) {
    && |s.queue| <= CAPACITY
    && s.received <= s.accepted
    && (s.alive ==> s.accepted == s.received + s.queue)
    && (!s.alive ==> s.queue == [])
    && (s.ended ==> !s.open && s.sending == map[] && s.received == s.accepted)
  }

  lemma {:induction false} StepInv(s: State, e: Event)
    requires Inv(s) && Enabled(s, e)
    ensures Inv(Apply(s, e))
  {
    if e.Receive? {
      assert s.accepted == (s.received + [s.queue[0]]) + s.queue[1..];
    }
  }

  /** There is room for 64 chunks: a write waits exactly when so many are there. */
  lemma {:induction false} WaitsAt64(s: State, w: Writer)
    requires Inv(s) && s.alive && w in s.sending
    ensures Enabled(s, Push(w)) <==> |s.queue| != 64
  {}

  /** In every interleaving of writers, close, consumer and disconnect: at most 64 chunks are
      buffered; what the client got is a prefix of the accepted chunks, in acceptance order;
      and if it was sent the end of the stream, it got every accepted chunk. */
  lemma {:induction false} RunInv(s: State, es: seq<Event>)
    requires Inv(s) && Run(s, es)
    ensures Inv(After(s, es))
    decreases |es|
  {
    if es != [] {
      StepInv(s, es[0]);
      RunInv(Apply(s, es[0]), es[1..]);
    }
  }

  /** The chunk was accepted, or a writer waits with it. */
  predicate Known(s: State, c: Chunk) { c in s.accepted || exists w :: w in s.sending && s.sending[w] == c }

  /** Nothing is made up: an accepted chunk, and one that waits, is the chunk of a write that
      began. */
  lemma {:induction false} OnlyWhatWasWritten(s: State, es: seq<Event>, c: Chunk)
    requires Run(s, es) && Known(After(s, es), c)
    ensures Known(s, c) || exists k :: 0 <= k < |es| && es[k].BeginWrite? && es[k].chunk == c
    decreases |es|
  {
    if es != [] {
      var s1 := Apply(s, es[0]);
      OnlyWhatWasWritten(s1, es[1..], c);
      if Known(s1, c) {
        if w :| w in s1.sending && s1.sending[w] == c {
          assert (w in s.sending && s.sending[w] == c) || (es[0].BeginWrite? && es[0].chunk == c);
        }
      } else {
        var k :| 0 <= k < |es[1..]| && es[1..][k].BeginWrite? && es[1..][k].chunk == c;
        assert es[k + 1] == es[1..][k];
      }
    }
  }

  /** Once the sink is closed no write begins any more: every later write returns false, and
      only the writes that were waiting can still be accepted. */
  lemma {:induction false} ClosedStaysClosed(s: State, es: seq<Event>, k: nat)
    requires !s.open && Run(s, es) && k < |es|
    ensures !es[k].BeginWrite?
    ensures !After(s, es).open && After(s, es).sending.Keys <= s.sending.Keys
    decreases |es|
  {
    if |es| > 1 || k > 0 {
      ClosedStaysClosed(Apply(s, es[0]), es[1..], if k > 0 then k - 1 else 0);
    }
  }

  /** After the end of the stream nothing is accepted and nothing goes out. */
  lemma {:induction false} EndIsFinal(s: State, es: seq<Event>)
    requires Inv(s) && s.ended && Run(s, es)
    ensures After(s, es).ended && After(s, es).accepted == s.accepted && After(s, es).received == s.received
    decreases |es|
  {
    if es != [] {
      StepInv(s, es[0]);
      EndIsFinal(Apply(s, es[0]), es[1..]);
    }
  }

  // ---------------------------------------------------------------- progress

  /** The steps the server and the waiting writers take by themselves. */
  predicate Draining(e: Event) { e.Push? || e.Receive? || e.End? }

  function Work(s: State): nat {
    2 * |s.sending| + |s.queue| + if s.ended then 0 else 1
  }

  lemma {:induction false} DrainStep(s: State, e: Event)
    requires Inv(s) && Enabled(s, e) && Draining(e)
    ensures Work(Apply(s, e)) < Work(s)
    ensures Apply(s, e).open == s.open && Apply(s, e).alive
  {
    if e.Push? {
      var s' := Apply(s, e);
      assert s'.sending.Keys == s.sending.Keys - {e.writer};
      assert |s.sending.Keys| == |s'.sending.Keys| + 1;
      assert |s.sending| == |s.sending.Keys| && |s'.sending| == |s'.sending.Keys|;
    }
  }

  /** With a live client the stream is never stuck after the close: until the end is sent,
      the queue can be read, or a waiting writer has room, or the end is due. */
  lemma {:induction false} NeverStuck(s: State)
    requires Inv(s) && s.alive && !s.open && !s.ended
    ensures exists e :: Draining(e) && Enabled(s, e)
  {
    if s.queue != [] {
      assert Draining(Receive) && Enabled(s, Receive);
    } else if s.sending != map[] {
      var w :| w in s.sending;
      assert Draining(Push(w)) && Enabled(s, Push(w));
    } else {
      assert Draining(End) && Enabled(s, End);
    }
  }

  /** Draining ends after boundedly many steps, whatever their order; and once nothing more
      can be drained, a live client of a closed sink has been sent everything and the end. */
  lemma {:induction false} DrainingEnds(s: State, es: seq<Event>)
    requires Inv(s) && Run(s, es) && s.alive && !s.open
    requires forall k :: 0 <= k < |es| ==> Draining(es[k])
    ensures |es| <= Work(s)
    ensures var f := After(s, es);
            (forall e :: Draining(e) ==> !Enabled(f, e)) ==> f.ended && f.received == f.accepted && f.sending == map[]
    decreases |es|
  {
    if es == [] {
      if !s.ended { NeverStuck(s); }
    } else {
      StepInv(s, es[0]);
      DrainStep(s, es[0]);
      DrainingEnds(Apply(s, es[0]), es[1..]);
    }
  }

  // -------------------------------------------------------- the sink as it runs

  class PyStreamSink {
    var sink: bool                    // Some(sender) or None
    var sending: map<Writer, Chunk>
    var queue: seq<Chunk>
    var rx: bool
    var ended: bool
    ghost var accepted: seq<Chunk>
    ghost var received: seq<Chunk>

    ghost function View(): State
      reads this
    {
      State(sink, sending, queue, rx, ended, accepted, received)
    }

    /** The channel is made for one request, with the sink holding its first sender. */
    constructor ()
      ensures View() == START && Inv(View())
    {
      sink, sending, queue, rx, ended := true, map[], [], true, false;
      accepted, received := [], [];
    }

    /** `write` up to `blocking_send`: false at once when the sink is closed. */
    method StartWrite(w: Writer, chunk: Chunk) returns (waits: bool)
      requires Inv(View()) && w !in sending
      modifies this
      ensures waits == old(sink) && sending == (if waits then old(sending)[w := chunk] else old(sending)) && queue == old(queue)
      ensures Inv(View()) && View() == Apply(old(View()), if waits then BeginWrite(w, chunk) else RefuseWrite(w, chunk))
    {
      waits := sink;
      if waits { sending := sending[w := chunk]; }
    }

    /** The rest of `write`, when there is room or the receiver is gone. */
    method FinishWrite(w: Writer) returns (ok: bool)
      requires Inv(View()) && w in sending && (rx ==> |queue| < CAPACITY)
      modifies this
      ensures ok == old(rx) && sending == old(sending) - {w}
      ensures queue == (if ok then old(queue) + [old(sending)[w]] else old(queue))
      ensures Inv(View()) && View() == Apply(old(View()), if ok then Push(w) else PushFails(w))
    {
      StepInv(View(), if rx then Push(w) else PushFails(w));
      ok := rx;
      if ok {
        queue := queue + [sending[w]];
        accepted := accepted + [sending[w]];
      }
      sending := sending - {w};
    }

    /** `close`; closing twice is harmless. */
    method DoClose()
      requires Inv(View())
      modifies this
      ensures Inv(View()) && !sink
      ensures View() == if old(sink) then Apply(old(View()), Close) else old(View())
    {
      sink := false;
    }

    /** The receiver stream: the next chunk, or the end when no sender is left. */
    method Next() returns (chunk: Chunk, isEnd: bool)
      requires Inv(View()) && (Enabled(View(), Receive) || Enabled(View(), End))
      modifies this
      ensures Inv(View()) && isEnd == (old(queue) == [])
      ensures View() == Apply(old(View()), if isEnd then End else Receive)
      ensures !isEnd ==> chunk == old(queue)[0] && queue == old(queue)[1..]
    {
      StepInv(View(), if queue == [] then End else Receive);
      isEnd := queue == [];
      chunk := "";
      if isEnd {
        ended := true;
      } else {
        chunk := queue[0];
        queue := queue[1..];
        received := received + [chunk];
      }
    }
  }
}
