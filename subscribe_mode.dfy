/** Subscribe mode (`src/cmd/subscribe.rs`): what a connection does once it
    has sent SUBSCRIBE.

    The `StreamMap` of the Rust code, one message stream per subscribed
    channel, is kept as the set of its keys, `subscriptions`: the order of
    its keys is not specified, and a stream's only effect on the database is
    the broadcast receiver it holds, counted in `Db.pubSub`. */
module SubscribeMode {
  import opened Wrappers
  import opened Bytes
  import opened Decimal
  import opened Frames
  import opened Encoding
  import opened Parsing
  import opened Database
  import opened Connections
  import opened Commands
  import CmdSubscribe
  import CmdUnknown

  /** What happens next on a connection: the peer's next frame arrives (at
      time `now`), a message is published on a channel, or the server shuts
      down. The branches of the Rust `select!` become one event each. */
  datatype Event = Incoming(now: nat) | Published(channel: Bytes, message: Bytes) | ShutdownSignal

  /** `crate::Error` as the handler sees it: a failed read, or a command
      that could not be read or run. */
  datatype Fault = ReadFailed(message: Bytes) | CommandFailed(error: ParserError)

  /** How a run of the session over a finite list of events ends: `apply`
      returned (with its result), or it is still waiting for an event. */
  datatype Exit = Returned(result: Result<(), Fault>) | StillWaiting

  /** The channels still subscribed to after unsubscribing from `channels`. */
  function Remaining(subs: set<Bytes>, channels: seq<Bytes>): (r: set<Bytes>)
    ensures r <= subs
  {
    set c | c in subs && c !in channels
  }

  /** What unsubscribing from `channels` writes, in order: each channel
      with the number of channels subscribed to once it is gone. */
  function UnsubscribeReplies(subs: set<Bytes>, channels: seq<Bytes>): Bytes
    decreases |channels|
  {
    if |channels| == 0 then []
    else
      var last := |channels| - 1;
      UnsubscribeReplies(subs, channels[..last]) +
      WriteFrame(CmdSubscribe.UnsubscribeFrame(channels[last], |Remaining(subs, channels)|))
  }

  predicate NoDuplicates(s: seq<Bytes>) {
    forall i, j :: 0 <= i < j < |s| ==> s[i] != s[j]
  }

  /** `channels` lists the set `subs`, each channel once. */
  predicate Enumerates(channels: seq<Bytes>, subs: set<Bytes>) {
    NoDuplicates(channels) && (forall c | c in channels :: c in subs) && (forall c | c in subs :: c in channels)
  }

  /** Each reply's count is the one before it, less one when the channel was
      still subscribed to. */
  lemma RemainingStep(subs: set<Bytes>, channels: seq<Bytes>, i: nat)
    requires i < |channels|
    ensures Remaining(subs, channels[..i + 1]) == Remaining(subs, channels[..i]) - {channels[i]}
  {
    assert channels[..i + 1] == channels[..i] + [channels[i]];
  }

  /** A channel listed twice, or never subscribed to, leaves the count as
      it was. */
  lemma UnsubscribeAbsent(subs: set<Bytes>, channels: seq<Bytes>, i: nat)
    requires i < |channels| && (channels[i] !in subs || channels[i] in channels[..i])
    ensures Remaining(subs, channels[..i + 1]) == Remaining(subs, channels[..i])
  {
    RemainingStep(subs, channels, i);
  }

  /** The channels of a list without duplicates are as many as its
      entries. */
  lemma {:induction false} CountDistinct(s: seq<Bytes>)
    requires NoDuplicates(s)
    ensures |set c | c in s| == |s|
    decreases |s|
  {
    if |s| > 0 {
      var tail := s[1..];
      CountDistinct(tail);
      assert (set c | c in s) == (set c | c in tail) + {s[0]};
      assert s[0] !in tail;
    }
  }

  /** Unsubscribing from the first `i` channels of a list of every
      subscribed channel leaves `i` fewer. */
  lemma {:induction false} Drain(subs: set<Bytes>, channels: seq<Bytes>, i: nat)
    requires Enumerates(channels, subs) && i <= |channels|
    ensures |Remaining(subs, channels[..i])| == |subs| - i
    decreases i
  {
    if i == 0 {
      assert Remaining(subs, channels[..0]) == subs;
    } else {
      Drain(subs, channels, i - 1);
      RemainingStep(subs, channels, i - 1);
      var c := channels[i - 1];
      assert forall k :: 0 <= k < i - 1 ==> channels[k] != c;
      assert c !in channels[..i - 1];
      assert c in Remaining(subs, channels[..i - 1]);
    }
  }

  /** An UNSUBSCRIBE that lists every subscribed channel once, as the
      expansion of an empty one does, confirms each channel with the count
      one lower than the one before, down to zero, and leaves nothing
      subscribed. */
  lemma UnsubscribeAll(subs: set<Bytes>, channels: seq<Bytes>)
    requires Enumerates(channels, subs)
    ensures Remaining(subs, channels) == {}
    ensures forall k :: 0 < k <= |channels| ==> |Remaining(subs, channels[..k])| == |channels| - k
  {
    CountDistinct(channels);
    assert (set c | c in channels) == subs;
    assert |subs| == |channels|;
    Drain(subs, channels, |channels|);
    assert channels[..|channels|] == channels;
    forall k | 0 < k <= |channels|
      ensures |Remaining(subs, channels[..k])| == |channels| - k
    {
      Drain(subs, channels, k);
    }
  }

  /** The channels of a set, each once, in an order the model leaves open
      (`StreamMap::keys`). */
  method Enumerate(subs: set<Bytes>) returns (channels: seq<Bytes>)
    ensures Enumerates(channels, subs)
  {
    channels := [];
    var left := subs;
    while left != {}
      invariant NoDuplicates(channels)
      invariant forall c :: c in channels ==> c !in left
      invariant forall c :: c in subs <==> c in left || c in channels
      decreases |left|
    {
      var c :| c in left;
      channels := channels + [c];
      left := left - {c};
    }
  }

  /** A session as values: the channels queued, the channels subscribed
      to, the bytes of the connection not read yet and every byte written
      to it. */
  datatype SessionState = SessionState(pending: seq<Bytes>, subs: set<Bytes>, unread: Bytes, written: Bytes)

  /** The `drain` of the queued channels at the top of the loop of `apply`:
      each is subscribed to and confirmed, in order. */
  function Drained(s: SessionState): SessionState {
    SessionState([], Added(s.subs, s.pending), s.unread, s.written + SubscribeReplies(s.subs, s.pending))
  }

  /** `handle_command` on the command `c`, from `s` to `t`: SUBSCRIBE queues
      its channels; UNSUBSCRIBE leaves the channels it lists (every channel,
      in some order, when it lists none) and confirms each; anything else
      is answered as an unknown command. */
  ghost predicate Handles(s: SessionState, c: Command, t: SessionState) {
    match c
    case Subscribe(cmd) => t == s.(pending := s.pending + cmd.channels)
    case Unsubscribe(cmd) =>
      exists channels :: Unsubscribes(cmd.channels, s.subs, channels) &&
        t == s.(subs := Remaining(s.subs, channels), written := s.written + UnsubscribeReplies(s.subs, channels))
    case _ => t == s.(written := s.written + WriteFrame(CmdUnknown.Response(CmdUnknown.Unknown(GetName(c)))))
  }

  /** One turn of the `select!` of `apply` on the event `e`, from `s` to
      `t`; `ended` is the result `apply` returns, or `None` when the loop
      goes on. A message on a channel subscribed to is passed on, and one on
      any other channel is not seen. A frame from the peer is read from the
      unread bytes: a failed read, the end of the stream and a frame that
      is not a command end the session; a command is handled. */
  ghost predicate Takes(s: SessionState, e: Event, t: SessionState, ended: Option<Result<(), Fault>>) {
    match e
    case ShutdownSignal => ended == Some(Success(())) && t == s
    case Published(channel, message) =>
      ended == None &&
      t == s.(written := s.written + if channel in s.subs then WriteFrame(CmdSubscribe.MessageFrame(channel, message)) else [])
    case Incoming(_) =>
      var read := ReadOutcome(s.unread);
      var next := s.(unread := Rest(s.unread));
      if read.Failure? then ended == Some(Failure(ReadFailed(read.error))) && t == next
      else if read.value.None? then ended == Some(Success(())) && t == next
      else if Decode(read.value.value).Failure? then
        ended == Some(Failure(CommandFailed(Decode(read.value.value).error))) && t == next
      else ended == None && Handles(next, Decode(read.value.value).value, t)
  }

  /** `states` are the states of a session that starts in `s` and takes
      the first `|states| - 1` of `events` without ending: each state is the
      one before it, drained, after the event between them. */
  ghost predicate Continues(s: SessionState, states: seq<SessionState>, events: seq<Event>) {
    0 < |states| <= |events| + 1 && states[0] == s &&
    forall k | 0 <= k < |states| - 1 :: Takes(Drained(states[k]), events[k], states[k + 1], None)
  }

  /** `apply` started in `s` and given `events` ends as `exit` having taken
      `used` of them, in the state `t`: it is still waiting, drained, once
      every event has gone by without ending it; or the last event it took
      ended it, and dropping the `StreamMap` left nothing subscribed. */
  ghost predicate SessionRuns(s: SessionState, events: seq<Event>, exit: Exit, used: nat, t: SessionState) {
    match exit
    case StillWaiting =>
      used == |events| &&
      exists states :: Continues(s, states, events) && |states| == |events| + 1 && t == Drained(states[|events|])
    case Returned(result) =>
      0 < used <= |events| && t.subs == {} &&
      exists states :: Continues(s, states, events) && |states| == used &&
        Takes(Drained(states[used - 1]), events[used - 1], t.(subs := Drained(states[used - 1]).subs), Some(result))
  }

  /** A run whose every event went by without ending it is still waiting. */
  lemma WaitingRun(s: SessionState, states: seq<SessionState>, events: seq<Event>, t: SessionState)
    requires Continues(s, states, events) && |states| == |events| + 1 && t == Drained(states[|events|])
    ensures SessionRuns(s, events, StillWaiting, |events|, t)
  {
  }

  /** A run whose last event ended it has returned. */
  lemma ReturnedRun(s: SessionState, states: seq<SessionState>, events: seq<Event>, d: SessionState, e: Event,
                    result: Result<(), Fault>, last: SessionState, t: SessionState)
    requires Continues(s, states, events) && 0 < |states| <= |events|
    requires d == Drained(states[|states| - 1]) && e == events[|states| - 1] && Takes(d, e, last, Some(result))
    requires last.subs == d.subs && t == last.(subs := {})
    ensures SessionRuns(s, events, Returned(result), |states|, t)
  {
    assert t.(subs := d.subs) == last;
  }

  /** A session ends at the first shutdown signal it takes, and never on a
      published message; one still waiting has seen no shutdown signal. */
  lemma RunStopsAtShutdown(s: SessionState, events: seq<Event>, exit: Exit, used: nat, t: SessionState)
    requires SessionRuns(s, events, exit, used, t)
    ensures used <= |events|
    ensures forall k | 0 <= k < used - 1 :: !events[k].ShutdownSignal?
    ensures exit.StillWaiting? ==> forall k | 0 <= k < used :: !events[k].ShutdownSignal?
    ensures exit.Returned? ==> 0 < used && !events[used - 1].Published?
    ensures 0 < used && events[used - 1].ShutdownSignal? ==> exit == Returned(Success(()))
  {
    var n := if exit.StillWaiting? then used + 1 else used;
    var states :| Continues(s, states, events) && |states| == n;
    forall k | 0 <= k < n - 1 ensures !events[k].ShutdownSignal? {
      assert Takes(Drained(states[k]), events[k], states[k + 1], None);
    }
  }

  /** A client that subscribes to one channel, on which a message is then
      published, is sent the confirmation and then the message, and the
      session goes on waiting. */
  lemma PublishedForwarded(channel: Bytes, msg: Bytes, unread: Bytes, written: Bytes, exit: Exit, used: nat,
                           t: SessionState)
    requires SessionRuns(SessionState([channel], {}, unread, written), [Published(channel, msg)], exit, used, t)
    ensures exit == StillWaiting && used == 1 && t.subs == {channel} && t.unread == unread
    ensures t.written ==
      written + WriteFrame(CmdSubscribe.SubscribeFrame(channel, 1)) + WriteFrame(CmdSubscribe.MessageFrame(channel, msg))
  {
    var s := SessionState([channel], {}, unread, written);
    var events := [Published(channel, msg)];
    RunStopsAtShutdown(s, events, exit, used, t);
    var states: seq<SessionState> :| Continues(s, states, events) && |states| == 2 && t == Drained(states[1]);
    SubscribeOne(channel, unread, written);
    ForwardTurn(Drained(states[0]), channel, msg, states[1]);
  }

  /** Subscribing to one channel from none confirms it with a count of 1. */
  lemma SubscribeOne(channel: Bytes, unread: Bytes, written: Bytes)
    ensures Drained(SessionState([channel], {}, unread, written)) ==
      SessionState([], {channel}, unread, written + WriteFrame(CmdSubscribe.SubscribeFrame(channel, 1)))
  {
    var added := Added({}, [channel]);
    assert added == {channel};
    assert |added| == 1;
    assert [channel][..0] == [];
    assert SubscribeReplies({}, [channel]) == WriteFrame(CmdSubscribe.SubscribeFrame(channel, |added|));
  }

  /** A message on the one channel subscribed to is passed on, and the
      session, with nothing left to subscribe to, stays as it is. */
  lemma ForwardTurn(d: SessionState, channel: Bytes, msg: Bytes, t: SessionState)
    requires d.subs == {channel} && d.pending == []
    requires Takes(d, Published(channel, msg), t, None)
    ensures Drained(t) == d.(written := d.written + WriteFrame(CmdSubscribe.MessageFrame(channel, msg)))
  {
    assert Added(t.subs, []) == t.subs;
  }

  /** The shutdown signal as the first event ends the session at once, with
      `Ok`, once the channels it started with are subscribed to. */
  lemma ShutdownFirst(s: SessionState, events: seq<Event>, exit: Exit, used: nat, t: SessionState)
    requires 0 < |events| && events[0].ShutdownSignal?
    requires SessionRuns(s, events, exit, used, t)
    ensures exit == Returned(Success(())) && used == 1
    ensures t == Drained(s).(subs := {})
  {
    RunStopsAtShutdown(s, events, exit, used, t);
    var states: seq<SessionState> :| Continues(s, states, events) && |states| == used &&
      Takes(Drained(states[used - 1]), events[used - 1], t.(subs := Drained(states[used - 1]).subs), Some(exit.result));
    assert states[0] == s;
  }

  /** A turn that ends the session leaves its channels as they were. */
  lemma EndingKeepsChannels(s: SessionState, e: Event, t: SessionState, result: Result<(), Fault>)
    requires Takes(s, e, t, Some(result))
    ensures t.(subs := s.subs) == t && t.pending == s.pending
  {
  }

  /** One more turn that does not end the session extends its run. */
  lemma ContinuesStep(s: SessionState, states: seq<SessionState>, events: seq<Event>, d: SessionState, e: Event,
                      t: SessionState)
    requires Continues(s, states, events) && |states| <= |events|
    requires d == Drained(states[|states| - 1]) && e == events[|states| - 1] && Takes(d, e, t, None)
    ensures Continues(s, states + [t], events)
  {
    var next := states + [t];
    forall k | 0 <= k < |next| - 1
      ensures Takes(Drained(next[k]), events[k], next[k + 1], None)
    {
      if k < |states| - 1 {
        assert next[k] == states[k] && next[k + 1] == states[k + 1];
      }
    }
  }

  /** The state of one connection in subscribe mode: the channels waiting
      to be subscribed to (`self.channels`) and the channels subscribed to
      (the keys of `subscriptions`). */
  class Session {
    var pending: seq<Bytes>
    var subscriptions: set<Bytes>

    constructor(channels: seq<Bytes>)
      ensures pending == channels && subscriptions == {}
    {
      pending := channels;
      subscriptions := {};
    }

    /** The session and its connection as values. */
    ghost function View(dst: Connection): SessionState
      reads this, dst
    {
      SessionState(pending, subscriptions, dst.Unread(), dst.output)
    }

    /** The database counts one receiver of this session for each channel
        it subscribes to, on top of those held by others (`base`). */
    ghost predicate Accounts(base: map<Bytes, nat>, db: Db)
      reads this, db
    {
      Accounted(base, db.pubSub, subscriptions)
    }

    /** `subscribe_to_channel`: a new receiver on the channel; the stream
        replaces any earlier one for the same channel, whose receiver is
        dropped; then the confirmation with the number of channels
        subscribed to. */
    method SubscribeToChannel(channel: Bytes, db: Db, dst: Connection)
      modifies this`subscriptions, db`pubSub, dst`output
      ensures subscriptions == old(subscriptions) + {channel}
      ensures db.pubSub == old(db.pubSub)[channel :=
        Held(old(db.pubSub), channel) + if channel in old(subscriptions) then 0 else 1]
      ensures dst.output == old(dst.output) + WriteFrame(CmdSubscribe.SubscribeFrame(channel, |subscriptions|))
    {
      ghost var counts := old(db.pubSub)[channel :=
        Held(old(db.pubSub), channel) + if channel in old(subscriptions) then 0 else 1];
      db.Subscribe(channel);
      if channel in subscriptions {
        db.DropReceiver(channel);
      }
      assert db.pubSub == counts;
      subscriptions := subscriptions + {channel};
      dst.WriteFrame(CmdSubscribe.SubscribeFrame(channel, |subscriptions|));
      assert db.pubSub == counts;
    }

    /** The loop of `handle_command` over the channels of an UNSUBSCRIBE:
        each is removed (its receiver dropped) if it is there, and
        confirmed with the number of channels left. */
    method Unsubscribe(channels: seq<Bytes>, db: Db, dst: Connection)
      requires forall c | c in subscriptions :: c in db.pubSub && db.pubSub[c] > 0
      modifies this`subscriptions, db`pubSub, dst`output
      ensures subscriptions == Remaining(old(subscriptions), channels)
      ensures db.pubSub == Released(old(db.pubSub), old(subscriptions) - subscriptions)
      ensures dst.output == old(dst.output) + UnsubscribeReplies(old(subscriptions), channels)
    {
      ghost var subs := subscriptions;
      ghost var base := db.pubSub;
      ghost var start := dst.output;
      assert channels[..0] == [] && Remaining(subs, []) == subs;
      for i := 0 to |channels|
        invariant subscriptions == Remaining(subs, channels[..i])
        invariant db.pubSub == Released(base, subs - subscriptions)
        invariant dst.output == start + UnsubscribeReplies(subs, channels[..i])
      {
        UnsubscribeNext(channels, i, subs, base, start, db, dst);
      }
      assert channels[..|channels|] == channels;
    }

    /** One channel of an UNSUBSCRIBE: removed, and its receiver dropped,
        if it is there; then confirmed with the number of channels left. */
    method UnsubscribeNext(channels: seq<Bytes>, i: nat, ghost subs: set<Bytes>, ghost base: map<Bytes, nat>,
                           ghost start: Bytes, db: Db, dst: Connection)
      requires i < |channels| && subscriptions == Remaining(subs, channels[..i])
      requires db.pubSub == Released(base, subs - subscriptions)
      requires forall c | c in subs :: c in base && base[c] > 0
      requires dst.output == start + UnsubscribeReplies(subs, channels[..i])
      modifies this`subscriptions, db`pubSub, dst`output
      ensures subscriptions == Remaining(subs, channels[..i + 1])
      ensures db.pubSub == Released(base, subs - subscriptions)
      ensures dst.output == start + UnsubscribeReplies(subs, channels[..i + 1])
    {
      var channel := channels[i];
      ghost var next := Remaining(subs, channels[..i + 1]);
      ghost var counts := Released(base, subs - next);
      RemainingStep(subs, channels, i);
      ReleaseStep(base, subs, subscriptions, channel);
      Drop(channel, db);
      assert subscriptions == next;
      assert db.pubSub == counts;
      Confirm(channels, i, subs, start, dst);
    }

    /** The confirmation of channel `i` of an UNSUBSCRIBE, with the number
        of channels left once it is gone. */
    method Confirm(channels: seq<Bytes>, i: nat, ghost subs: set<Bytes>, ghost start: Bytes, dst: Connection)
      requires i < |channels| && subscriptions == Remaining(subs, channels[..i + 1])
      requires dst.output == start + UnsubscribeReplies(subs, channels[..i])
      modifies dst`output
      ensures dst.output == start + UnsubscribeReplies(subs, channels[..i + 1])
    {
      var reply := CmdSubscribe.UnsubscribeFrame(channels[i], |subscriptions|);
      ReplyNext(subs, channels, i, start, reply);
      dst.WriteFrame(reply);
    }

    /** Removes a channel, if it is there, and drops its receiver. */
    method Drop(channel: Bytes, db: Db)
      requires channel in subscriptions ==> channel in db.pubSub && db.pubSub[channel] > 0
      modifies this`subscriptions, db`pubSub
      ensures subscriptions == old(subscriptions) - {channel}
      ensures db.pubSub == if channel in old(subscriptions) then old(db.pubSub)[channel := old(db.pubSub)[channel] - 1] else old(db.pubSub)
    {
      if channel in subscriptions {
        subscriptions := subscriptions - {channel};
        db.DropReceiver(channel);
      }
    }

    /** The `drain` of `self.channels` at the top of the loop of `apply`:
        every queued channel is subscribed to, in order. */
    method SubscribePending(ghost base: map<Bytes, nat>, db: Db, dst: Connection)
      requires Accounts(base, db)
      modifies this`pending, this`subscriptions, db`pubSub, dst`output
      ensures pending == [] && subscriptions == Added(old(subscriptions), old(pending))
      ensures Accounts(base, db)
      ensures dst.output == old(dst.output) + SubscribeReplies(old(subscriptions), old(pending))
    {
      ghost var subs := subscriptions;
      ghost var start := dst.output;
      var channels := pending;
      assert channels[..0] == [] && Added(subs, []) == subs;
      for i := 0 to |channels|
        invariant subscriptions == Added(subs, channels[..i]) && pending == channels
        invariant Accounts(base, db)
        invariant dst.output == start + SubscribeReplies(subs, channels[..i])
      {
        SubscribeNext(channels, i, base, subs, start, db, dst);
      }
      assert channels[..|channels|] == channels;
      pending := [];
    }

    /** One queued channel: `subscribe_to_channel`, and the counts still
        add up. */
    method SubscribeNext(channels: seq<Bytes>, i: nat, ghost base: map<Bytes, nat>, ghost subs: set<Bytes>,
                         ghost start: Bytes, db: Db, dst: Connection)
      requires i < |channels| && subscriptions == Added(subs, channels[..i]) && Accounts(base, db)
      requires dst.output == start + SubscribeReplies(subs, channels[..i])
      modifies this`subscriptions, db`pubSub, dst`output
      ensures subscriptions == Added(subs, channels[..i + 1]) && Accounts(base, db)
      ensures dst.output == start + SubscribeReplies(subs, channels[..i + 1])
    {
      var channel := channels[i];
      ghost var next := Added(subs, channels[..i + 1]);
      ghost var out := start + SubscribeReplies(subs, channels[..i + 1]);
      AddedStep(subs, channels, i);
      SubscribeAccounted(base, db.pubSub, subscriptions, channel);
      SubscribeReplyNext(subs, channels, i, start);
      SubscribeToChannel(channel, db, dst);
      assert subscriptions == next;
      assert dst.output == out;
    }

    /** The end of `apply`: dropping the `StreamMap` drops the receiver of
        every channel still subscribed to. */
    method Close(db: Db)
      requires forall c | c in subscriptions :: c in db.pubSub && db.pubSub[c] > 0
      modifies this`subscriptions, db`pubSub
      ensures subscriptions == {}
      ensures db.pubSub == Released(old(db.pubSub), old(subscriptions))
    {
      ghost var subs := subscriptions;
      ghost var base := db.pubSub;
      var channels := Enumerate(subscriptions);
      assert channels[..0] == [] && Remaining(subs, []) == subs;
      for i := 0 to |channels|
        invariant subscriptions == Remaining(subs, channels[..i])
        invariant db.pubSub == Released(base, subs - subscriptions)
      {
        var channel := channels[i];
        ghost var next := Remaining(subs, channels[..i + 1]);
        ghost var counts := Released(base, subs - next);
        RemainingStep(subs, channels, i);
        ReleaseStep(base, subs, subscriptions, channel);
        Drop(channel, db);
        assert subscriptions == next;
        assert db.pubSub == counts;
      }
      assert channels[..|channels|] == channels;
      UnsubscribeAll(subs, channels);
      assert subs - {} == subs;
    }

    /** `handle_command`: a command read in subscribe mode. SUBSCRIBE queues
        its channels; UNSUBSCRIBE leaves the channels it lists, or every
        channel when it lists none; any other command is answered as an
        unknown one. A frame that is not a command is an error and changes
        nothing. */
    method HandleCommand(frame: Frame, db: Db, dst: Connection) returns (r: Result<(), ParserError>)
      requires forall c | c in subscriptions :: c in db.pubSub && db.pubSub[c] > 0
      modifies this`pending, this`subscriptions, db`pubSub, dst`output
      ensures r.Failure? <==> Decode(frame).Failure?
      ensures r.Failure? ==> r.error == Decode(frame).error
      ensures r.Failure? || Decode(frame).value.Subscribe? ==> dst.output == old(dst.output)
      ensures old(dst.output) <= dst.output
      ensures !(r.Success? && Decode(frame).value.Subscribe?) ==> pending == old(pending)
      ensures !(r.Success? && Decode(frame).value.Unsubscribe?) ==>
        subscriptions == old(subscriptions) && db.pubSub == old(db.pubSub)
      ensures r.Success? && Decode(frame).value.Subscribe? ==>
        pending == old(pending) + Decode(frame).value.subscribeCmd.channels
      ensures r.Success? && Decode(frame).value.Unsubscribe? ==>
        db.pubSub == Released(old(db.pubSub), old(subscriptions) - subscriptions) &&
        exists channels :: Unsubscribes(Decode(frame).value.unsubscribeCmd.channels, old(subscriptions), channels) &&
          subscriptions == Remaining(old(subscriptions), channels) &&
          dst.output == old(dst.output) + UnsubscribeReplies(old(subscriptions), channels)
      ensures r.Success? && !Decode(frame).value.Subscribe? && !Decode(frame).value.Unsubscribe? ==>
        dst.output == old(dst.output) + WriteFrame(CmdUnknown.Response(CmdUnknown.Unknown(GetName(Decode(frame).value))))
      ensures r.Success? ==> Handles(old(View(dst)), Decode(frame).value, View(dst))
    {
      var command :- FromFrame(frame);
      match command {
        case Subscribe(s) =>
          pending := pending + s.channels;
        case Unsubscribe(u) =>
          var channels := u.channels;
          if |channels| == 0 {
            channels := Enumerate(subscriptions);
          }
          Unsubscribe(channels, db, dst);
          assert Unsubscribes(u.channels, old(subscriptions), channels);
        case _ =>
          CmdUnknown.Apply(CmdUnknown.Unknown(GetName(command)), dst);
      }
      r := Success(());
    }

    /** `Subscribe::apply`, over the events that reach the connection: the
        queued channels are subscribed to, then the next event is taken
        (`Step`). The peer closing the connection, a shutdown, or an error
        end the session, and every receiver it holds is dropped. When the
        events run out the session is still waiting, and still holds its
        receivers. */
    method Run(events: seq<Event>, db: Db, dst: Connection) returns (exit: Exit, used: nat)
      requires subscriptions == {} && NonEmptyChunks(dst.incoming)
      modifies this`pending, this`subscriptions, db`pubSub, dst`buffer, dst`incoming, dst`output
      ensures SessionRuns(old(View(dst)), events, exit, used, View(dst))
      ensures NonEmptyChunks(dst.incoming) && old(dst.output) <= dst.output
      ensures exit.StillWaiting? ==> Accounts(old(db.pubSub), db)
      ensures exit.Returned? ==> forall c :: Held(db.pubSub, c) == Held(old(db.pubSub), c)
    {
      ghost var base := db.pubSub;
      AccountedAtStart(base);
      exit, used := Listen(events, base, db, dst);
      if exit.Returned? {
        AccountedHeld(base, db.pubSub, subscriptions);
        ghost var kept := subscriptions;
        ghost var counts := db.pubSub;
        Close(db);
        ReleaseAccounted(base, counts, kept, kept);
        assert Accounted(base, db.pubSub, {});
      }
    }

    /** The loop of `apply`, up to the point where it returns or the events
        run out. */
    method Listen(events: seq<Event>, ghost base: map<Bytes, nat>, db: Db, dst: Connection) returns (exit: Exit, used: nat)
      requires Accounts(base, db) && NonEmptyChunks(dst.incoming)
      modifies this`pending, this`subscriptions, db`pubSub, dst`buffer, dst`incoming, dst`output
      ensures Accounts(base, db) && NonEmptyChunks(dst.incoming) && old(dst.output) <= dst.output
      ensures SessionRuns(old(View(dst)), events, exit, used, if exit.Returned? then View(dst).(subs := {}) else View(dst))
    {
      ghost var start := dst.output;
      ghost var init := View(dst);
      ghost var states := [init];
      ghost var before, last := init, init;
      var event := ShutdownSignal;
      used := 0;
      while true
        invariant used <= |events| && Accounts(base, db) && NonEmptyChunks(dst.incoming)
        invariant Continues(init, states, events) && |states| == used + 1 && states[used] == View(dst)
        invariant start <= dst.output
        decreases |events| - used
      {
        ghost var written := dst.output;
        before := View(dst);
        if used == |events| {
          SubscribePending(base, db, dst);
          PrefixStep(start, written, dst.output);
          WaitingRun(init, states, events, View(dst));
          return StillWaiting, used;
        }
        event := events[used];
        var ended := Round(event, base, db, dst);
        ghost var after := View(dst);
        PrefixStep(start, written, dst.output);
        if ended.Some? {
          EndingKeepsChannels(Drained(before), event, after, ended.value);
          ReturnedRun(init, states, events, Drained(before), event, ended.value, after, after.(subs := {}));
          return Returned(ended.value), used + 1;
        }
        ContinuesStep(init, states, events, Drained(before), event, after);
        states := states + [after];
        used := used + 1;
      }
    }

    /** One round of the loop of `apply`: the queued channels are subscribed
        to, then the event is taken. */
    method Round(event: Event, ghost base: map<Bytes, nat>, db: Db, dst: Connection)
      returns (ended: Option<Result<(), Fault>>)
      requires Accounts(base, db) && NonEmptyChunks(dst.incoming)
      modifies this`pending, this`subscriptions, db`pubSub, dst`buffer, dst`incoming, dst`output
      ensures Accounts(base, db) && NonEmptyChunks(dst.incoming)
      ensures old(dst.output) <= dst.output
      ensures Takes(Drained(old(View(dst))), event, View(dst), ended)
      ensures event.Published? ==> ended == None
    {
      ghost var written := dst.output;
      SubscribePending(base, db, dst);
      ghost var drained := View(dst);
      ghost var between := dst.output;
      ended := Step(event, base, db, dst);
      PrefixStep(written, between, dst.output);
    }

    /** One turn of the `select!` in `apply`: a message on a channel
        subscribed to is passed on; a frame from the peer is handled as a
        command. The result is `Some` when the session ends: on a shutdown
        or when the peer closed the connection (`Ok`), on a read that failed
        or a command that could not be read (the error). */
    method Step(event: Event, ghost base: map<Bytes, nat>, db: Db, dst: Connection) returns (ended: Option<Result<(), Fault>>)
      requires Accounts(base, db) && NonEmptyChunks(dst.incoming)
      modifies this`pending, this`subscriptions, db`pubSub, dst`buffer, dst`incoming, dst`output
      ensures Accounts(base, db) && NonEmptyChunks(dst.incoming)
      ensures old(dst.output) <= dst.output
      ensures event.ShutdownSignal? ==> ended == Some(Success(()))
      ensures event.Published? ==> ended == None
      ensures event.Published? && event.channel in subscriptions ==>
        dst.output == old(dst.output) + WriteFrame(CmdSubscribe.MessageFrame(event.channel, event.message))
      ensures event.Published? && event.channel !in subscriptions ==> dst.output == old(dst.output)
      ensures Takes(old(View(dst)), event, View(dst), ended)
      ensures event.Incoming? ==>
        var read := ReadOutcome(old(dst.Unread()));
        (read.Failure? ==> ended == Some(Failure(ReadFailed(read.error)))) &&
        (read == Success(None) ==> ended == Some(Success(()))) &&
        (read.Success? && read.value.Some? ==>
          ended == if Decode(read.value.value).Success? then None
                   else Some(Failure(CommandFailed(Decode(read.value.value).error))))
    {
      match event {
        case ShutdownSignal =>
          return Some(Success(()));
        case Published(channel, message) =>
          if channel in subscriptions {
            dst.WriteFrame(CmdSubscribe.MessageFrame(channel, message));
          }
          return None;
        case Incoming(_) =>
          var read := dst.ReadFrame();
          if read.Failure? {
            return Some(Failure(ReadFailed(read.error)));
          }
          if read.value.None? {
            return Some(Success(()));
          }
          AccountedHeld(base, db.pubSub, subscriptions);
          ghost var counts := db.pubSub;
          ghost var subs := subscriptions;
          var handled := HandleCommand(read.value.value, db, dst);
          if handled.Failure? {
            return Some(Failure(CommandFailed(handled.error)));
          }
          if Decode(read.value.value).value.Unsubscribe? {
            ReleaseAccounted(base, counts, subs, subs - subscriptions);
            assert subs - (subs - subscriptions) == subscriptions;
          }
          return None;
      }
    }
  }

  /** The receiver counts `before` less one for each channel of `gone`
      (the receivers of the channels no longer subscribed to). */
  function Released(before: map<Bytes, nat>, gone: set<Bytes>): map<Bytes, nat> {
    map c | c in before :: if c in gone && before[c] > 0 then before[c] - 1 else before[c]
  }

  /** Unsubscribing from one more channel drops one more receiver, if the
      channel was still subscribed to. */
  lemma ReleaseStep(base: map<Bytes, nat>, subs: set<Bytes>, kept: set<Bytes>, c: Bytes)
    requires kept <= subs && forall x | x in subs :: x in base && base[x] > 0
    ensures c in kept ==> c in Released(base, subs - kept) && Released(base, subs - kept)[c] > 0
    ensures Released(base, subs - (kept - {c})) ==
      if c in kept then Released(base, subs - kept)[c := Released(base, subs - kept)[c] - 1]
      else Released(base, subs - kept)
  {
    if c in kept {
      assert subs - (kept - {c}) == (subs - kept) + {c};
    } else {
      assert subs - (kept - {c}) == subs - kept;
    }
  }

  /** The replies to the first `i + 1` channels: those to the first `i`,
      then the confirmation of channel `i`. */
  lemma ReplyNext(subs: set<Bytes>, channels: seq<Bytes>, i: nat, start: Bytes, reply: Frame)
    requires i < |channels|
    requires reply == CmdSubscribe.UnsubscribeFrame(channels[i], |Remaining(subs, channels[..i + 1])|)
    ensures start + UnsubscribeReplies(subs, channels[..i + 1]) ==
      start + UnsubscribeReplies(subs, channels[..i]) + WriteFrame(reply)
  {
    assert channels[..i + 1][..i] == channels[..i];
  }

  /** The database holds, for each channel, the receivers held by others
      (`base`) and one more for each channel of `subs`. */
  ghost predicate Accounted(base: map<Bytes, nat>, counts: map<Bytes, nat>, subs: set<Bytes>) {
    subs <= counts.Keys && forall c :: Held(counts, c) == Held(base, c) + (if c in subs then 1 else 0)
  }

  /** Before the first subscription, the counts are those of others. */
  lemma AccountedAtStart(base: map<Bytes, nat>)
    ensures Accounted(base, base, {})
  {
  }

  /** Every channel subscribed to has a receiver to drop. */
  lemma AccountedHeld(base: map<Bytes, nat>, counts: map<Bytes, nat>, subs: set<Bytes>)
    requires Accounted(base, counts, subs)
    ensures forall c | c in subs :: c in counts && counts[c] > 0
  {
    forall c | c in subs ensures c in counts && counts[c] > 0 {
      assert Held(counts, c) == Held(base, c) + 1;
    }
  }

  /** `subscribe_to_channel` keeps the counts adding up: one receiver more
      for a new channel, the same number for one subscribed to again. */
  lemma SubscribeAccounted(base: map<Bytes, nat>, counts: map<Bytes, nat>, subs: set<Bytes>, channel: Bytes)
    requires Accounted(base, counts, subs)
    ensures Accounted(base, counts[channel := Held(counts, channel) + if channel in subs then 0 else 1], subs + {channel})
  {
    var after := counts[channel := Held(counts, channel) + if channel in subs then 0 else 1];
    forall c ensures Held(after, c) == Held(base, c) + (if c in subs + {channel} then 1 else 0) {
      if c != channel {
        assert Held(after, c) == Held(counts, c);
      }
    }
  }

  /** Dropping the receivers of the channels `gone`, all subscribed to,
      keeps the counts adding up for the channels left. */
  lemma ReleaseAccounted(base: map<Bytes, nat>, counts: map<Bytes, nat>, subs: set<Bytes>, gone: set<Bytes>)
    requires Accounted(base, counts, subs) && gone <= subs
    ensures Accounted(base, Released(counts, gone), subs - gone)
  {
    var after := Released(counts, gone);
    forall c ensures Held(after, c) == Held(base, c) + (if c in subs - gone then 1 else 0) {
      assert Held(counts, c) == Held(base, c) + (if c in subs then 1 else 0);
    }
  }

  /** The channels subscribed to after subscribing to `channels`. */
  function Added(subs: set<Bytes>, channels: seq<Bytes>): (r: set<Bytes>)
    ensures subs <= r
  {
    subs + set c | c in channels
  }

  lemma AddedStep(subs: set<Bytes>, channels: seq<Bytes>, i: nat)
    requires i < |channels|
    ensures Added(subs, channels[..i + 1]) == Added(subs, channels[..i]) + {channels[i]}
  {
    assert channels[..i + 1] == channels[..i] + [channels[i]];
  }

  /** What subscribing to `channels` writes, in order: each channel with
      the number of channels subscribed to once it is added. */
  function SubscribeReplies(subs: set<Bytes>, channels: seq<Bytes>): Bytes
    decreases |channels|
  {
    if |channels| == 0 then []
    else
      var last := |channels| - 1;
      SubscribeReplies(subs, channels[..last]) +
      WriteFrame(CmdSubscribe.SubscribeFrame(channels[last], |Added(subs, channels)|))
  }

  lemma SubscribeReplyNext(subs: set<Bytes>, channels: seq<Bytes>, i: nat, start: Bytes)
    requires i < |channels|
    ensures start + SubscribeReplies(subs, channels[..i + 1]) ==
      start + SubscribeReplies(subs, channels[..i]) +
      WriteFrame(CmdSubscribe.SubscribeFrame(channels[i], |Added(subs, channels[..i + 1])|))
  {
    assert channels[..i + 1][..i] == channels[..i];
  }

  /** The channels an UNSUBSCRIBE leaves: those it lists, or, when it lists
      none, every channel subscribed to, each once. */
  predicate Unsubscribes(listed: seq<Bytes>, subs: set<Bytes>, channels: seq<Bytes>) {
    if |listed| > 0 then channels == listed else Enumerates(channels, subs)
  }

  /** Output that only grows keeps every earlier prefix. */
  lemma PrefixStep(start: Bytes, before: Bytes, after: Bytes)
    requires start <= before && before <= after
    ensures start <= after
  {
    assert after[..|start|] == before[..|start|];
  }
}
