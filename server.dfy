/** The server loops of `src/server.rs`: accepting connections with an
    exponential backoff, and the per-connection handler that reads frames,
    decodes them into commands and applies them until the peer leaves or
    the server shuts down. */
module Server {
  import opened Wrappers
  import opened Bytes
  import opened Frames
  import opened Parsing
  import opened Database
  import opened Connections
  import opened Commands
  import opened SubscribeMode
  import opened Execution
  import opened Encoding

  /** 2^n. */
  function Pow2(n: nat): (r: nat)
    ensures r >= 1
  {
    if n == 0 then 1 else 2 * Pow2(n - 1)
  }

  /** The waits after the first `n` failed attempts: 1, 2, 4, ... seconds. */
  function Backoffs(n: nat): (r: seq<nat>)
    ensures |r| == n
    decreases n
  {
    if n == 0 then [] else Backoffs(n - 1) + [Pow2(n - 1)]
  }

  function Sum(s: seq<nat>): nat
    decreases |s|
  {
    if |s| == 0 then 0 else Sum(s[..|s| - 1]) + s[|s| - 1]
  }

  /** The last backoff the loop tries before giving up. */
  const MAX_BACKOFF: nat := 64

  /** The number of attempts before `accept` gives up: backoff 1, 2, ...,
      64 each allow one more, and 128 ends the loop. */
  const MAX_ATTEMPTS: nat := 8

  /** The waits grow as powers of two, and add up to one less than the
      next. */
  lemma {:induction false} BackoffsSum(n: nat)
    ensures Sum(Backoffs(n)) == Pow2(n) - 1
    decreases n
  {
    if n > 0 {
      BackoffsSum(n - 1);
      assert Backoffs(n)[..n - 1] == Backoffs(n - 1);
    }
  }

  /** Every wait is a power of two no larger than 64. */
  lemma {:induction false} BackoffsBounded(n: nat)
    requires n < MAX_ATTEMPTS
    ensures forall i | 0 <= i < n :: 1 <= Backoffs(n)[i] <= MAX_BACKOFF && Backoffs(n)[i] == Pow2(i)
    decreases n
  {
    if n > 0 {
      BackoffsBounded(n - 1);
      assert Backoffs(n)[..n - 1] == Backoffs(n - 1);
      assert Pow2(6) == 64;
      PowMonotone(n - 1, 6);
    }
  }

  lemma {:induction false} PowMonotone(m: nat, n: nat)
    requires m <= n
    ensures Pow2(m) <= Pow2(n)
    decreases n
  {
    if m < n {
      PowMonotone(m, n - 1);
    }
  }

  /** The backoff passes 64 on the eighth attempt, and not before. */
  lemma Threshold(n: nat)
    requires n < MAX_ATTEMPTS
    ensures Pow2(n) > MAX_BACKOFF <==> n == MAX_ATTEMPTS - 1
  {
    assert Pow2(6) == 64 && Pow2(7) == 128;
    if n < 6 {
      PowMonotone(n, 6);
    }
  }

  /** `Server::accept`: the listener's outcome for attempt `i` is
      `outcome(i)` (success or error). The first success is returned;
      after a failure the loop waits `backoff` seconds and doubles it,
      until a failure with a backoff above 64 ends it with the error
      (`None`). It returns the attempt that succeeded and the waits. */
  method Accept(outcome: nat -> bool) returns (accepted: Option<nat>, waits: seq<nat>)
    ensures accepted.Some? ==>
      accepted.value < MAX_ATTEMPTS && outcome(accepted.value) && waits == Backoffs(accepted.value)
    ensures accepted.None? ==> waits == Backoffs(MAX_ATTEMPTS - 1)
    ensures accepted.None? ==> forall i | 0 <= i < MAX_ATTEMPTS :: !outcome(i)
    ensures forall i | 0 <= i < |waits| :: !outcome(i)
  {
    var backoff := 1;
    var attempt := 0;
    waits := [];
    while true
      invariant attempt < MAX_ATTEMPTS && backoff == Pow2(attempt) && waits == Backoffs(attempt)
      invariant forall i | 0 <= i < attempt :: !outcome(i)
      decreases MAX_ATTEMPTS - attempt
    {
      if outcome(attempt) {
        return Some(attempt), waits;
      }
      Threshold(attempt);
      if backoff > MAX_BACKOFF {
        return None, waits;
      }
      waits := waits + [backoff];
      backoff := backoff * 2;
      attempt := attempt + 1;
    }
  }

  /** A listener that never succeeds is tried eight times, with waits of
      1, 2, ..., 64 seconds, 127 in all; the doc comment of `accept` says
      six. */
  lemma GiveUp(waits: seq<nat>)
    requires waits == Backoffs(MAX_ATTEMPTS - 1)
    ensures |waits| + 1 == 8 && Sum(waits) == 127
    ensures waits[|waits| - 1] == 64
  {
    BackoffsSum(MAX_ATTEMPTS - 1);
    BackoffsBounded(MAX_ATTEMPTS - 1);
    assert Pow2(7) == 128;
    assert Pow2(6) == 64;
  }

  /** How the loop of `Handler::run` goes on after `Command::apply` returned
      `exit` having taken `more` of the events `rest`: `run` returns the
      error, or is still waiting when subscribe mode is; after a success it
      ends only when subscribe mode took the shutdown signal. */
  function Outcome(exit: Exit, rest: seq<Event>, more: nat): (r: Option<Exit>)
    ensures exit.StillWaiting? ==> r == Some(StillWaiting)
    ensures r.None? ==> exit.Returned? && exit.result.Success?
  {
    if exit.StillWaiting? || exit.result.Failure? then Some(exit)
    else if 0 < more <= |rest| && rest[more - 1].ShutdownSignal? then Some(Returned(Success(())))
    else None
  }

  /** One turn of the loop of `Handler::run` on the event `e`, from `s` to
      `t`, with `rest` the events after it: `ended` is what `run` returns,
      or `None` when the loop goes on, and `more` counts the events of
      `rest` that subscribe mode took. The shutdown signal ends `run`; a
      message published outside subscribe mode is not seen. A frame is read
      from the unread bytes: a failed read ends `run` with its error, the
      end of the stream ends it with `Ok`, a frame that is not a command
      ends it with the parse error, and a command is applied. */
  ghost predicate Serves(s: Snapshot, e: Event, rest: seq<Event>, t: Snapshot, ended: Option<Exit>, more: nat) {
    match e
    case ShutdownSignal => ended == Some(Returned(Success(()))) && more == 0 && t == s
    case Published(_, _) => ended == None && more == 0 && t == s
    case Incoming(now) =>
      var read := ReadOutcome(s.unread);
      var next := s.(unread := Rest(s.unread));
      if read.Failure? then ended == Some(Returned(Failure(ReadFailed(read.error)))) && more == 0 && t == next
      else if read.value.None? then ended == Some(Returned(Success(()))) && more == 0 && t == next
      else if Decode(read.value.value).Failure? then
        ended == Some(Returned(Failure(CommandFailed(Decode(read.value.value).error)))) && more == 0 && t == next
      else
        exists exit :: Applies(next, Decode(read.value.value).value, now, rest, exit, more, t) &&
          ended == Outcome(exit, rest, more)
  }

  /** A client that writes a command which is answered with one frame
      has it read, decoded and applied in one turn that does not end `run`:
      the bytes after it stay unread, the reply to what the server
      received is written, and only a SET changes the entries. */
  lemma ClientCommandServed(s: Snapshot, c: Command, tail: Bytes, now: nat, rest: seq<Event>, t: Snapshot,
                            ended: Option<Exit>, more: nat)
    requires Sendable(c) && FitsU64(c) && !c.Subscribe? && !c.Unsubscribe?
    requires s.unread == Wire(c) + tail
    requires Serves(s, Incoming(now), rest, t, ended, more)
    ensures ended == None && more == 0
    ensures t.unread == tail && t.pubSub == s.pubSub
    ensures t.written == s.written + WriteFrame(Reply(Received(c), s.entries, s.pubSub))
    ensures !c.Set? ==> t.entries == s.entries
    ensures c.Set? ==> var cmd := Received(c).setCmd;
      t.entries == s.entries[cmd.key := Entry(cmd.value, Deadline(cmd.expire, now))]
  {
    ReadsClientCommand(c, tail);
  }

  /** The bytes a client writes for the command `c`. */
  function Wire(c: Command): Bytes
    requires Sendable(c) && FitsU64(c)
  {
    ClientFrameEncodable(c);
    WriteFrame(ClientFrame(c))
  }

  /** The bytes of a client's command, and whatever follows them, are read
      as the client's frame, which decodes to what the server receives, and
      leave what follows unread. */
  lemma ReadsClientCommand(c: Command, tail: Bytes)
    requires Sendable(c) && FitsU64(c)
    ensures ReadOutcome(Wire(c) + tail) == Success(Some(ClientFrame(c))) && Rest(Wire(c) + tail) == tail
    ensures Decode(ClientFrame(c)) == Success(Received(c))
  {
    OverTheWire(c, tail);
    var sent := Wire(c);
    assert (sent + tail)[|sent|..] == tail;
  }

  /** The turn of `run` that starts at `events[at]` went from `s` to `t`,
      with `stop` what `run` returns (`None` when the loop goes on), and
      handed the `more` events after it to subscribe mode. */
  ghost predicate TurnAt(s: Snapshot, events: seq<Event>, at: nat, t: Snapshot, stop: Option<Exit>, more: nat) {
    at + 1 + more <= |events| && Serves(s, events[at], events[at + 1..], t, stop, more)
  }

  /** `states` and `marks` trace the turns of `run`, started in `s`, that
      did not end it: turn `k` starts in `states[k]` at event `marks[k]`,
      and each after the first extends the trace before it. */
  ghost predicate Turns(s: Snapshot, states: seq<Snapshot>, marks: seq<nat>, events: seq<Event>)
    decreases |states|, 2
  {
    |states| == |marks| && 0 < |marks| && marks[|marks| - 1] <= |events| &&
    if |marks| == 1 then states[0] == s && marks[0] == 0 else Extends(s, states, marks, events)
  }

  /** A trace of two or more turns grows by its last turn: that turn starts
      at a later event than the one before it and follows the trace. */
  ghost predicate Extends(s: Snapshot, states: seq<Snapshot>, marks: seq<nat>, events: seq<Event>)
    decreases |states|, 1
  {
    2 <= |states| == |marks| && marks[|marks| - 2] < marks[|marks| - 1] && Follows(s, states, marks, events)
  }

  /** The last turn follows the trace before it: the turn that starts in
      the state before the last at its event went, without ending `run`,
      to the last state at the last event. */
  ghost predicate Follows(s: Snapshot, states: seq<Snapshot>, marks: seq<nat>, events: seq<Event>)
    requires 2 <= |states| == |marks| && marks[|marks| - 2] < marks[|marks| - 1]
    decreases |states|, 0
  {
    Turns(s, states[..|states| - 1], marks[..|marks| - 1], events) &&
    TurnAt(states[|states| - 2], events, marks[|marks| - 2], states[|states| - 1], None,
           marks[|marks| - 1] - marks[|marks| - 2] - 1)
  }

  /** `Handler::run` started in `s` and given `events` ends as `exit`
      having taken `used` of them, in the state `t`: after turns that did
      not end it, either the events ran out, or one more turn ended it. */
  ghost predicate HandlerRuns(s: Snapshot, events: seq<Event>, exit: Exit, used: nat, t: Snapshot) {
    exists states, marks :: Ends(s, states, marks, events, exit, used, t)
  }

  /** The trace `states`, `marks` of the turns that did not end `run` ends
      as `exit` in `t` having used `used` events: the events ran out, or the
      turn after the last of the trace ended `run`. */
  ghost predicate Ends(s: Snapshot, states: seq<Snapshot>, marks: seq<nat>, events: seq<Event>, exit: Exit,
                       used: nat, t: Snapshot)
  {
    Turns(s, states, marks, events) &&
    var m := marks[|marks| - 1];
    if m == |events| then exit == StillWaiting && used == m && t == states[|states| - 1]
    else m < used && TurnAt(states[|states| - 1], events, m, t, Some(exit), used - m - 1)
  }

  /** One more turn that did not end `run` extends its trace. */
  lemma TurnsStep(s: Snapshot, states: seq<Snapshot>, marks: seq<nat>, events: seq<Event>, t: Snapshot, more: nat,
                  next: nat)
    requires Turns(s, states, marks, events) && next == marks[|marks| - 1] + 1 + more
    requires TurnAt(states[|states| - 1], events, marks[|marks| - 1], t, None, more)
    ensures Turns(s, states + [t], marks + [next], events)
  {
    var ss, ms := states + [t], marks + [next];
    assert ss[..|ss| - 1] == states && ms[..|ms| - 1] == marks;
    assert ss[|ss| - 2] == states[|states| - 1] && ss[|ss| - 1] == t;
    assert ms[|ms| - 2] == marks[|marks| - 1] && ms[|ms| - 1] - ms[|ms| - 2] - 1 == more;
    SameTurn(states[|states| - 1], events, marks[|marks| - 1], t, None, more,
             ss[|ss| - 2], ms[|ms| - 2], ss[|ss| - 1], ms[|ms| - 1] - ms[|ms| - 2] - 1);
    assert Follows(s, ss, ms, events);
    assert Extends(s, ss, ms, events);
  }

  /** A turn is the same turn whichever way its start, its end and the
      events it hands on are written. */
  lemma SameTurn(s: Snapshot, events: seq<Event>, at: nat, t: Snapshot, stop: Option<Exit>, more: nat,
                 s': Snapshot, at': nat, t': Snapshot, more': nat)
    requires s == s' && at == at' && t == t' && more == more'
    requires TurnAt(s, events, at, t, stop, more)
    ensures TurnAt(s', events, at', t', stop, more')
  {
  }

  /** A handler that has used every event is still waiting. */
  lemma WaitingHandler(s: Snapshot, states: seq<Snapshot>, marks: seq<nat>, events: seq<Event>)
    requires Turns(s, states, marks, events) && marks[|marks| - 1] == |events|
    ensures HandlerRuns(s, events, StillWaiting, |events|, states[|states| - 1])
  {
    assert Ends(s, states, marks, events, StillWaiting, |events|, states[|states| - 1]);
  }

  /** A turn that ended `run` ends its run. */
  lemma {:induction false} EndedHandler(s: Snapshot, states: seq<Snapshot>, marks: seq<nat>, events: seq<Event>, t: Snapshot,
                     stop: Option<Exit>, more: nat, next: nat)
    requires Turns(s, states, marks, events) && stop.Some? && next == marks[|marks| - 1] + 1 + more
    requires TurnAt(states[|states| - 1], events, marks[|marks| - 1], t, stop, more)
    ensures HandlerRuns(s, events, stop.value, next, t)
  {
    var m := marks[|marks| - 1];
    assert stop == Some(stop.value) && next - m - 1 == more;
    SameTurn(states[|states| - 1], events, m, t, stop, more, states[|states| - 1], m, t, next - m - 1);
    assert Ends(s, states, marks, events, stop.value, next, t);
  }

  /** The turns of a trace start at distinct, rising events, so a trace
      has at most one more turn than the events its last turn starts at. */
  lemma {:induction false} TurnsBound(s: Snapshot, states: seq<Snapshot>, marks: seq<nat>, events: seq<Event>)
    requires Turns(s, states, marks, events)
    ensures |marks| - 1 <= marks[|marks| - 1]
    decreases |states|
  {
    if |marks| > 1 {
      var n := |marks| - 1;
      TurnsPrefix(s, states, marks, events);
      TurnsBound(s, states[..n], marks[..n], events);
      assert marks[..n][n - 1] == marks[n - 1];
    }
  }

  /** A handler whose connection holds a client's command, answered with
      one frame, and that sees one frame arrive, answers it and waits. */
  lemma HandlerAnswersOne(s: Snapshot, c: Command, tail: Bytes, now: nat, exit: Exit, used: nat, t: Snapshot)
    requires Sendable(c) && FitsU64(c) && !c.Subscribe? && !c.Unsubscribe?
    requires s.unread == Wire(c) + tail
    requires HandlerRuns(s, [Incoming(now)], exit, used, t)
    ensures exit == StillWaiting && used == 1
    ensures t.unread == tail && t.written == s.written + WriteFrame(Reply(Received(c), s.entries, s.pubSub))
    ensures !c.Set? ==> t.entries == s.entries
  {
    var states, marks := PickTrace(s, [Incoming(now)], exit, used, t);
    AnswerFromTrace(s, c, tail, now, states, marks, exit, used, t);
  }

  /** The trace of turns behind a run. */
  lemma PickTrace(s: Snapshot, events: seq<Event>, exit: Exit, used: nat, t: Snapshot)
    returns (states: seq<Snapshot>, marks: seq<nat>)
    requires HandlerRuns(s, events, exit, used, t)
    ensures Ends(s, states, marks, events, exit, used, t)
  {
    states, marks :| Ends(s, states, marks, events, exit, used, t);
  }

  /** The last turn of a trace of two or more follows the trace before
      it, and starts at a later event. */
  lemma LastTurn(s: Snapshot, states: seq<Snapshot>, marks: seq<nat>, events: seq<Event>)
    requires Turns(s, states, marks, events) && |marks| > 1
    ensures marks[|marks| - 2] < marks[|marks| - 1] && Follows(s, states, marks, events)
  {
    assert Extends(s, states, marks, events);
  }

  /** The turns before the last of a trace of two or more are a trace,
      and the last starts at a later event. */
  lemma TurnsPrefix(s: Snapshot, states: seq<Snapshot>, marks: seq<nat>, events: seq<Event>)
    requires Turns(s, states, marks, events) && |marks| > 1
    ensures Turns(s, states[..|states| - 1], marks[..|marks| - 1], events)
    ensures marks[|marks| - 2] < marks[|marks| - 1]
  {
    LastTurn(s, states, marks, events);
  }

  /** A trace of two turns starts in `s` at the first event. */
  lemma TwoTurns(s: Snapshot, states: seq<Snapshot>, marks: seq<nat>, events: seq<Event>)
    requires Turns(s, states, marks, events) && |marks| == 2
    ensures states[0] == s && marks[0] == 0
  {
    TurnsPrefix(s, states, marks, events);
    assert states[..1][0] == states[0] && marks[..1][0] == marks[0];
  }

  /** `HandlerAnswersOne`, on the trace of the run. */
  lemma {:induction false} AnswerFromTrace(s: Snapshot, c: Command, tail: Bytes, now: nat, states: seq<Snapshot>, marks: seq<nat>,
                        exit: Exit, used: nat, t: Snapshot)
    requires Sendable(c) && FitsU64(c) && !c.Subscribe? && !c.Unsubscribe?
    requires s.unread == Wire(c) + tail
    requires Ends(s, states, marks, [Incoming(now)], exit, used, t)
    ensures exit == StillWaiting && used == 1
    ensures t.unread == tail && t.written == s.written + WriteFrame(Reply(Received(c), s.entries, s.pubSub))
    ensures !c.Set? ==> t.entries == s.entries
  {
    TurnsBound(s, states, marks, [Incoming(now)]);
    FirstTurnGoesOn(s, c, tail, now, states, marks, exit, used, t);
    TwoTurns(s, states, marks, [Incoming(now)]);
    LastTurn(s, states, marks, [Incoming(now)]);
    FirstTurnAnswers(states[|states| - 2], c, tail, now, states[|states| - 1], None,
                     marks[|marks| - 1] - marks[|marks| - 2] - 1);
  }

  /** The first turn on a client's command does not end `run`, so the
      trace of the run has a second turn. */
  lemma {:induction false} FirstTurnGoesOn(s: Snapshot, c: Command, tail: Bytes, now: nat, states: seq<Snapshot>,
                                           marks: seq<nat>, exit: Exit, used: nat, t: Snapshot)
    requires Sendable(c) && FitsU64(c) && !c.Subscribe? && !c.Unsubscribe?
    requires s.unread == Wire(c) + tail
    requires Ends(s, states, marks, [Incoming(now)], exit, used, t)
    ensures 1 < |marks|
  {
    if |marks| == 1 {
      assert states[|states| - 1] == s && marks[|marks| - 1] == 0;
      FirstTurnAnswers(states[|states| - 1], c, tail, now, t, Some(exit), used - marks[|marks| - 1] - 1);
    }
  }

  /** The turn on the one frame that arrived answers a client's command
      and does not end `run`. */
  lemma FirstTurnAnswers(s: Snapshot, c: Command, tail: Bytes, now: nat, t: Snapshot, stop: Option<Exit>, more: nat)
    requires Sendable(c) && FitsU64(c) && !c.Subscribe? && !c.Unsubscribe?
    requires s.unread == Wire(c) + tail
    requires TurnAt(s, [Incoming(now)], 0, t, stop, more)
    ensures stop == None && more == 0
    ensures t.unread == tail && t.written == s.written + WriteFrame(Reply(Received(c), s.entries, s.pubSub))
    ensures !c.Set? ==> t.entries == s.entries
  {
    ClientCommandServed(s, c, tail, now, [Incoming(now)][1..], t, stop, more);
  }

  /** How a turn that starts at `event` and hands `more` events of `rest`
      to subscribe mode meets the shutdown signal: only as the last event it
      uses, and then it ends `run` with `Ok` and `shutdown` records it. */
  predicate Settles(event: Event, rest: seq<Event>, stop: Option<Exit>, more: nat, shutdown: bool)
    requires more <= |rest|
  {
    (event.ShutdownSignal? ==> stop == Some(Returned(Success(()))) && more == 0) &&
    (forall k | 0 <= k < more - 1 :: !rest[k].ShutdownSignal?) &&
    (more > 0 && rest[more - 1].ShutdownSignal? ==> stop == Some(Returned(Success(())))) &&
    (shutdown <==> stop.Some? && (event.ShutdownSignal? || (more > 0 && rest[more - 1].ShutdownSignal?)))
  }

  /** The events before a turn, the event that starts it and the first `n`
      events it hands to subscribe mode hold no shutdown signal. */
  lemma QuietPrefix(events: seq<Event>, used: nat, rest: seq<Event>, n: nat)
    requires used < |events| && rest == events[used + 1..] && n <= |rest|
    requires forall k | 0 <= k < used :: !events[k].ShutdownSignal?
    requires !events[used].ShutdownSignal?
    requires forall k | 0 <= k < n :: !rest[k].ShutdownSignal?
    ensures forall k | 0 <= k < used + 1 + n :: !events[k].ShutdownSignal?
  {
    forall k | used < k < used + 1 + n
      ensures !events[k].ShutdownSignal?
    {
      assert events[k] == rest[k - used - 1];
    }
  }

  /** A turn that ends the run meets the shutdown signal, if at all, as the
      last event it uses. */
  lemma QuietUntilLast(events: seq<Event>, m: nat, rest: seq<Event>, stop: Option<Exit>, more: nat, shutdown: bool,
                        next: nat)
    requires next == m + 1 + more <= |events| && rest == events[m + 1..] && stop.Some?
    requires forall k | 0 <= k < m :: !events[k].ShutdownSignal?
    requires Settles(events[m], rest, stop, more, shutdown)
    ensures forall k | 0 <= k < next - 1 :: !events[k].ShutdownSignal?
    ensures events[next - 1].ShutdownSignal? ==> stop.value == Returned(Success(())) && shutdown
  {
    if more > 0 {
      assert events[next - 1] == rest[more - 1];
      QuietPrefix(events, m, rest, more - 1);
    }
  }

  /** A turn that does not end the run meets no shutdown signal. */
  lemma QuietThrough(events: seq<Event>, m: nat, rest: seq<Event>, more: nat, shutdown: bool, next: nat)
    requires next == m + 1 + more <= |events| && rest == events[m + 1..]
    requires forall k | 0 <= k < m :: !events[k].ShutdownSignal?
    requires Settles(events[m], rest, None, more, shutdown)
    ensures !shutdown && forall k | 0 <= k < next :: !events[k].ShutdownSignal?
  {
    QuietPrefix(events, m, rest, more);
  }

  /** A connection's handler: the database, the connection and whether the
      shutdown signal has been seen (`Shutdown::is_shutdown`). */
  class Handler {
    const db: Db
    const connection: Connection
    var shutdown: bool

    /** `Handler` for a connection just accepted. */
    constructor(db: Db, connection: Connection)
      ensures this.db == db && this.connection == connection && !shutdown
    {
      this.db := db;
      this.connection := connection;
      shutdown := false;
    }

    /** `Handler::run`, over the events that reach the connection: while no
        shutdown has been seen, the next frame is read (or the shutdown
        signal taken), decoded and applied. The peer closing the
        connection or a shutdown end it with `Ok`; a read that fails, a
        frame that is not a command, or a command that fails end it with the
        error. When the events run out it is still waiting. */
    method Run(events: seq<Event>) returns (exit: Exit, used: nat)
      requires db.Valid() && NonEmptyChunks(connection.incoming)
      modifies this`shutdown, db`entries, db`expirations, db`pubSub
      modifies connection`buffer, connection`incoming, connection`output
      ensures old(shutdown) ==> exit == Returned(Success(())) && used == 0
      ensures !old(shutdown) ==> HandlerRuns(old(Snap(db, connection)), events, exit, used, Snap(db, connection))
      ensures db.Valid() && used <= |events|
      ensures exit.Returned? ==> forall ch :: Held(db.pubSub, ch) == Held(old(db.pubSub), ch)
      ensures forall k | 0 <= k < used - 1 :: !events[k].ShutdownSignal?
      ensures used > 0 && events[used - 1].ShutdownSignal? ==> exit == Returned(Success(())) && shutdown
      ensures old(connection.output) <= connection.output
    {
      if shutdown {
        return Returned(Success(())), 0;
      }
      ghost var base := db.pubSub;
      ghost var start := connection.output;
      ghost var init := Snap(db, connection);
      ghost var states := [init];
      ghost var marks: seq<nat> := [0];
      used := 0;
      while true
        invariant db.Valid() && NonEmptyChunks(connection.incoming) && used <= |events| && !shutdown
        invariant Turns(init, states, marks, events) && marks[|marks| - 1] == used
        invariant states[|states| - 1] == Snap(db, connection)
        invariant forall ch :: Held(db.pubSub, ch) == Held(base, ch)
        invariant forall k | 0 <= k < used :: !events[k].ShutdownSignal?
        invariant start <= connection.output
        decreases |events| - used
      {
        ghost var written := connection.output;
        var stop, next := Advance(events, used, init, states, marks);
        PrefixStep(start, written, connection.output);
        if stop.Some? {
          return stop.value, next;
        }
        states, marks := states + [Snap(db, connection)], marks + [next];
        used := next;
      }
    }

    /** The turn of `run` that starts at `events[used]`, with the trace of
        the turns before it: either it ends the run, or the trace grows by
        one turn. With no event left, `run` is still waiting. */
    method Advance(events: seq<Event>, used: nat, ghost init: Snapshot, ghost states: seq<Snapshot>, ghost marks: seq<nat>)
      returns (stop: Option<Exit>, next: nat)
      requires !shutdown && db.Valid() && NonEmptyChunks(connection.incoming) && used <= |events|
      requires Turns(init, states, marks, events) && marks[|marks| - 1] == used
      requires states[|states| - 1] == Snap(db, connection)
      requires forall k | 0 <= k < used :: !events[k].ShutdownSignal?
      modifies this`shutdown, db`entries, db`expirations, db`pubSub
      modifies connection`buffer, connection`incoming, connection`output
      ensures db.Valid() && NonEmptyChunks(connection.incoming) && used <= next <= |events|
      ensures used == |events| ==> stop == Some(StillWaiting) && next == used
      ensures stop != Some(StillWaiting) ==> forall ch :: Held(db.pubSub, ch) == Held(old(db.pubSub), ch)
      ensures old(connection.output) <= connection.output
      ensures stop.Some? ==> HandlerRuns(init, events, stop.value, next, Snap(db, connection))
      ensures stop.Some? ==> forall k | 0 <= k < next - 1 :: !events[k].ShutdownSignal?
      ensures stop.Some? && 0 < next && events[next - 1].ShutdownSignal? ==>
        stop.value == Returned(Success(())) && shutdown
      ensures stop.None? ==> !shutdown && used < next && Turns(init, states + [Snap(db, connection)], marks + [next], events)
      ensures stop.None? ==> forall k | 0 <= k < next :: !events[k].ShutdownSignal?
    {
      if used == |events| {
        WaitingHandler(init, states, marks, events);
        return Some(StillWaiting), used;
      }
      var more;
      stop, more := Turn(events, used);
      next := used + 1 + more;
      if stop.Some? {
        QuietUntilLast(events, used, events[used + 1..], stop, more, shutdown, next);
        EndedHandler(init, states, marks, events, Snap(db, connection), stop, more, next);
      } else {
        QuietThrough(events, used, events[used + 1..], more, shutdown, next);
        TurnsStep(init, states, marks, events, Snap(db, connection), more, next);
      }
    }

    /** One turn of the loop of `Handler::run`, on the event `events[at]`; a
        SUBSCRIBE takes the events after it, and `more` says how many. The
        result is `Some` when `run` returns. */
    method Turn(events: seq<Event>, at: nat) returns (stop: Option<Exit>, more: nat)
      requires !shutdown && db.Valid() && NonEmptyChunks(connection.incoming) && at < |events|
      modifies this`shutdown, db`entries, db`expirations, db`pubSub
      modifies connection`buffer, connection`incoming, connection`output
      ensures TurnAt(old(Snap(db, connection)), events, at, Snap(db, connection), stop, more)
      ensures db.Valid() && NonEmptyChunks(connection.incoming) && at + 1 + more <= |events|
      ensures Settles(events[at], events[at + 1..], stop, more, shutdown)
      ensures stop != Some(StillWaiting) ==> forall ch :: Held(db.pubSub, ch) == Held(old(db.pubSub), ch)
      ensures old(connection.output) <= connection.output
    {
      more := 0;
      stop := None;
      match events[at] {
        case ShutdownSignal =>
          shutdown := true;
          stop := Some(Returned(Success(())));
        case Published(_, _) =>
          // Nothing outside subscribe mode holds a receiver.
        case Incoming(now) =>
          stop, more := Serve(events, at, now);
      }
    }

    /** The `Incoming` turn of `Handler::run`: a frame is read, decoded into
        a command and applied at time `now`. */
    method Serve(events: seq<Event>, at: nat, now: nat) returns (stop: Option<Exit>, more: nat)
      requires !shutdown && db.Valid() && NonEmptyChunks(connection.incoming)
      requires at < |events| && events[at] == Incoming(now)
      modifies this`shutdown, db`entries, db`expirations, db`pubSub
      modifies connection`buffer, connection`incoming, connection`output
      ensures TurnAt(old(Snap(db, connection)), events, at, Snap(db, connection), stop, more)
      ensures db.Valid() && NonEmptyChunks(connection.incoming) && at + 1 + more <= |events|
      ensures Settles(Incoming(now), events[at + 1..], stop, more, shutdown)
      ensures stop != Some(StillWaiting) ==> forall ch :: Held(db.pubSub, ch) == Held(old(db.pubSub), ch)
      ensures old(connection.output) <= connection.output
    {
      var read := connection.ReadFrame();
      if read.Failure? {
        return Some(Returned(Failure(ReadFailed(read.error)))), 0;
      }
      if read.value.None? {
        return Some(Returned(Success(()))), 0;
      }
      var command := FromFrame(read.value.value);
      if command.Failure? {
        return Some(Returned(Failure(CommandFailed(command.error)))), 0;
      }
      stop, more := Dispatch(command.value, now, events[at + 1..]);
    }

    /** The end of the `Incoming` turn: `Command::apply` on `command`, and
        the shutdown that subscribe mode may have taken. */
    method Dispatch(command: Command, now: nat, rest: seq<Event>) returns (stop: Option<Exit>, more: nat)
      requires !shutdown && db.Valid() && NonEmptyChunks(connection.incoming)
      modifies this`shutdown, db`entries, db`expirations, db`pubSub
      modifies connection`buffer, connection`incoming, connection`output
      ensures
        exists exit :: Applies(old(Snap(db, connection)), command, now, rest, exit, more, Snap(db, connection)) &&
          stop == Outcome(exit, rest, more)
      ensures db.Valid() && NonEmptyChunks(connection.incoming) && more <= |rest|
      ensures Settles(Incoming(now), rest, stop, more, shutdown)
      ensures stop != Some(StillWaiting) ==> forall ch :: Held(db.pubSub, ch) == Held(old(db.pubSub), ch)
      ensures old(connection.output) <= connection.output
    {
      ghost var before := Snap(db, connection);
      var ran;
      ran, more := Apply(command, now, rest, db, connection);
      ApplyStopsAtShutdown(before, command, now, rest, ran, more, Snap(db, connection));
      stop := Outcome(ran, rest, more);
      if ran.Returned? && ran.result.Success? && stop.Some? {
        // Subscribe mode took the shutdown signal, which `Shutdown::recv`
        // records.
        shutdown := true;
      }
    }
  }
}
