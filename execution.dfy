/** `Command::apply` (`src/cmd/mod.rs`): running a decoded command against
    the database, with the reply written to the connection. SUBSCRIBE
    switches the connection to subscribe mode, which takes the events that
    follow. */
module Execution {
  import opened Wrappers
  import opened Bytes
  import opened Decimal
  import opened Frames
  import opened Encoding
  import opened Parsing
  import opened Database
  import opened Connections
  import opened Commands
  import opened SubscribeMode
  import CmdGet
  import CmdSet
  import CmdDel
  import CmdPublish
  import CmdPing
  import CmdUnknown

  /** The database and a connection as values: the stored entries, the
      receiver counts of the channels, the bytes of the connection not read
      yet and every byte written to it. */
  datatype Snapshot = Snapshot(entries: map<Bytes, Entry>, pubSub: map<Bytes, nat>, unread: Bytes, written: Bytes)

  ghost function Snap(db: Db, dst: Connection): Snapshot
    reads db, dst
  {
    Snapshot(db.entries, db.pubSub, dst.Unread(), dst.output)
  }

  /** The one reply of a command that is answered with a single frame,
      chosen from the entries and receiver counts before the command runs. */
  function Reply(c: Command, entries: map<Bytes, Entry>, pubSub: map<Bytes, nat>): (r: Frame)
    requires !c.Subscribe? && !c.Unsubscribe?
    ensures WritableValue(r)
    ensures c.Set? || c.Del? ==> r == Simple(Ascii("OK"))
    ensures c.Get? ==> (r.Bulk? || r.Null?) && (r.Null? <==> c.getCmd.key !in entries)
    ensures c.Get? && r.Bulk? ==> r.data == entries[c.getCmd.key].data
    ensures c.Publish? ==> r.Integer? && (c.publishCmd.channel !in pubSub ==> r.number == 0)
    ensures c.Ping? ==> r == CmdPing.Response(c.pingCmd)
    ensures c.Unknown? ==> r.Error?
  {
    match c
    case Get(g) => CmdGet.Response(Lookup(entries, g.key))
    case Set(_) => Simple(Ascii("OK"))
    case Del(_) => Simple(Ascii("OK"))
    case Publish(m) => Integer(Held(pubSub, m.channel) % U64_LIMIT)
    case Ping(p) => CmdPing.Response(p)
    case Unknown(u) => CmdUnknown.Response(u)
  }

  /** The deadline of a SET received at `now`. */
  function Deadline(expire: Option<nat>, now: nat): Option<nat> {
    if expire.Some? then Some(now + expire.value) else None
  }

  /** `Command::apply` on `c` at time `now`, from `s` to `t`, with `events`
      the events after the frame: `exit` is what `apply` returns and `used`
      how many events it took. UNSUBSCRIBE is an error and changes nothing;
      SUBSCRIBE runs subscribe mode over the events, from the channels it
      lists, and gives back every receiver it took once it returns; SET
      stores its entry; every other command only writes its `Reply`. */
  ghost predicate Applies(s: Snapshot, c: Command, now: nat, events: seq<Event>, exit: Exit, used: nat, t: Snapshot) {
    match c
    case Unsubscribe(_) =>
      exit == Returned(Failure(CommandFailed(ProtocolError(UnsubscribeUnsupported)))) && used == 0 && t == s
    case Subscribe(cmd) =>
      t.entries == s.entries &&
      (exit.Returned? ==> forall ch :: Held(t.pubSub, ch) == Held(s.pubSub, ch)) &&
      exists u :: SessionRuns(SessionState(cmd.channels, {}, s.unread, s.written), events, exit, used, u) &&
        u.unread == t.unread && u.written == t.written
    case Set(cmd) =>
      exit == Returned(Success(())) && used == 0 &&
      t == s.(entries := s.entries[cmd.key := Entry(cmd.value, Deadline(cmd.expire, now))],
              written := s.written + WriteFrame(Reply(c, s.entries, s.pubSub)))
    case _ =>
      exit == Returned(Success(())) && used == 0 && t == s.(written := s.written + WriteFrame(Reply(c, s.entries, s.pubSub)))
  }

  /** `Command::apply` takes events only in subscribe mode, ends at the
      first shutdown signal it takes, and leaves the receiver counts as it
      found them once it returns. */
  lemma ApplyStopsAtShutdown(s: Snapshot, c: Command, now: nat, events: seq<Event>, exit: Exit, used: nat, t: Snapshot)
    requires Applies(s, c, now, events, exit, used, t)
    ensures used <= |events|
    ensures exit.StillWaiting? ==> c.Subscribe? && used == |events|
    ensures exit.Returned? ==> forall ch :: Held(t.pubSub, ch) == Held(s.pubSub, ch)
    ensures forall k | 0 <= k < used - 1 :: !events[k].ShutdownSignal?
    ensures 0 < used && events[used - 1].ShutdownSignal? ==> exit.Returned? && exit.result.Success?
  {
    if c.Subscribe? {
      var u :| SessionRuns(SessionState(c.subscribeCmd.channels, {}, s.unread, s.written), events, exit, used, u) &&
        u.unread == t.unread && u.written == t.written;
      RunStopsAtShutdown(SessionState(c.subscribeCmd.channels, {}, s.unread, s.written), events, exit, used, u);
    }
  }

  /** `Command::apply`. UNSUBSCRIBE outside subscribe mode is an error;
      SUBSCRIBE runs subscribe mode over the events that follow, and
      reports how many it used; every other command writes its `Reply`.
      Only SET changes the stored entries, and only SUBSCRIBE touches the
      receiver counts or reads from the connection. */
  method Apply(c: Command, now: nat, events: seq<Event>, db: Db, dst: Connection) returns (exit: Exit, used: nat)
    requires db.Valid() && NonEmptyChunks(dst.incoming)
    modifies db`entries, db`expirations, db`pubSub, dst`buffer, dst`incoming, dst`output
    ensures Applies(old(Snap(db, dst)), c, now, events, exit, used, Snap(db, dst))
    ensures db.Valid() && NonEmptyChunks(dst.incoming) && old(dst.output) <= dst.output
  {
    used := 0;
    exit := Returned(Success(()));
    match c {
      case Get(g) => CmdGet.Apply(g, db, dst);
      case Set(s) => CmdSet.Apply(s, db, dst, now);
      case Del(d) => CmdDel.Apply(d, dst);
      case Publish(m) => CmdPublish.Apply(m, db, dst);
      case Ping(p) => CmdPing.Apply(p, dst);
      case Unknown(u) => CmdUnknown.Apply(u, dst);
      case Unsubscribe(_) =>
        exit := Returned(Failure(CommandFailed(ProtocolError(UnsubscribeUnsupported))));
      case Subscribe(s) =>
        exit, used := EnterSubscribeMode(s, events, db, dst);
    }
  }

  /** The SUBSCRIBE arm of `Command::apply`: a new session over the channels
      it lists runs over the events. */
  method EnterSubscribeMode(s: CmdSubscribe.Subscribe, events: seq<Event>, db: Db, dst: Connection)
    returns (exit: Exit, used: nat)
    requires NonEmptyChunks(dst.incoming)
    modifies db`pubSub, dst`buffer, dst`incoming, dst`output
    ensures Applies(old(Snap(db, dst)), Subscribe(s), 0, events, exit, used, Snap(db, dst))
    ensures NonEmptyChunks(dst.incoming) && old(dst.output) <= dst.output
  {
    var session := new Session(s.channels);
    exit, used := session.Run(events, db, dst);
    assert SessionRuns(SessionState(s.channels, {}, old(dst.Unread()), old(dst.output)), events, exit, used,
                       session.View(dst));
  }
}
