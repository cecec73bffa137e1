/** The client of `src/clients/client.rs`: each request writes a command
    frame and checks the server's answer; a `Subscriber` also keeps the list
    of channels it is subscribed to.

    The connection is modelled by what the client writes, `sent` (one frame
    per `write_frame`), and by `replies`, what its successive `read_frame`
    calls return: a frame, `None` once the server has closed the
    connection, or the read's error. A read waits until the server answers;
    the model covers runs in which the answers are there, hence the
    preconditions on the number of `replies`. */
module Client {
  import opened Wrappers
  import opened Bytes
  import opened Frames
  import opened Encoding
  import opened Decimal
  import opened Connections
  import CmdGet
  import CmdSet
  import CmdDel
  import CmdPublish
  import CmdPing
  import CmdSubscribe

  /** What one `read_frame` gives the client. */
  type Read = Result<Option<Frame>, Bytes>

  /** The client's errors: the read failed, the server answered with an
      Error frame, the server closed the connection ("connection reset by
      server"), or the answer is not the one expected (`frame.to_error()`,
      which keeps the frame). */
  datatype ClientError =
    | ReadFailed(message: Bytes)
    | ServerError(message: Bytes)
    | ConnectionReset
    | Unexpected(frame: Frame)

  /** A message received on a subscribed channel: the channel and content
      frames of the server's "message" array. */
  datatype Message = Message(channel: Frame, content: Frame)

  /** The outcome of a run of answers: the result and how many replies it
      took. */
  datatype Outcome = Outcome(result: Result<(), ClientError>, used: nat)

  /** The outcome of the confirmations of an UNSUBSCRIBE, with the channel
      list as it is left. */
  datatype Retired = Retired(result: Result<(), ClientError>, used: nat, remaining: seq<Bytes>)

  /** `read_response`: an Error frame becomes the server's error, a closed
      connection `ConnectionReset`, and any other frame is the answer. */
  function Response(read: Read): (r: Result<Frame, ClientError>)
    ensures r.Success? <==> read.Success? && read.value.Some? && !read.value.value.Error?
    ensures r.Success? ==> r.value == read.value.value
    ensures r == Failure(ConnectionReset) <==> read == Success(None)
    ensures read.Failure? <==> r.Failure? && r.error.ReadFailed?
    ensures read.Failure? ==> r.error.message == read.error
    ensures r.Failure? && r.error.ServerError? <==> read.Success? && read.value.Some? && read.value.value.Error?
    ensures r.Failure? && r.error.ServerError? ==> r.error.message == read.value.value.message
  {
    match read
    case Failure(m) => Failure(ReadFailed(m))
    case Success(None) => Failure(ConnectionReset)
    case Success(Some(Error(m))) => Failure(ServerError(m))
    case Success(Some(f)) => Success(f)
  }

  /** The answer to PING: the text of a Simple frame or the data of a Bulk
      frame. */
  function PingValue(r: Result<Frame, ClientError>): (v: Result<Bytes, ClientError>)
    ensures v.Success? <==> r.Success? && (r.value.Simple? || r.value.Bulk?)
    ensures v.Success? ==> EqStr(r.value, v.value)
    ensures r.Failure? ==> v == r.PropagateFailure()
    ensures r.Success? && v.Failure? ==> v.error == Unexpected(r.value)
  {
    match r
    case Failure(e) => Failure(e)
    case Success(Simple(s)) => Success(s)
    case Success(Bulk(d)) => Success(d)
    case Success(f) => Failure(Unexpected(f))
  }

  /** The answer to GET: a Simple or Bulk frame is the value, Null says
      the key is absent. */
  function GetValue(r: Result<Frame, ClientError>): (v: Result<Option<Bytes>, ClientError>)
    ensures v.Success? <==> r.Success? && (r.value.Simple? || r.value.Bulk? || r.value.Null?)
    ensures v.Success? ==> (v.value.None? <==> r.value.Null?)
    ensures v.Success? && v.value.Some? ==> EqStr(r.value, v.value.value)
    ensures r.Failure? ==> v == r.PropagateFailure()
    ensures r.Success? && v.Failure? ==> v.error == Unexpected(r.value)
  {
    match r
    case Failure(e) => Failure(e)
    case Success(Simple(s)) => Success(Some(s))
    case Success(Bulk(d)) => Success(Some(d))
    case Success(Null) => Success(None)
    case Success(f) => Failure(Unexpected(f))
  }

  /** The answer to SET and DEL: only Simple "OK" is a success. */
  function OkValue(r: Result<Frame, ClientError>): (v: Result<(), ClientError>)
    ensures v.Success? <==> r == Success(Simple(Ascii("OK")))
    ensures r.Failure? ==> v == r.PropagateFailure()
    ensures r.Success? && v.Failure? ==> v.error == Unexpected(r.value)
  {
    match r
    case Failure(e) => Failure(e)
    case Success(f) => if f == Simple(Ascii("OK")) then Success(()) else Failure(Unexpected(f))
  }

  /** The answer to PUBLISH: an Integer frame, the number of receivers. */
  function IntegerValue(r: Result<Frame, ClientError>): (v: Result<U64, ClientError>)
    ensures v.Success? <==> r.Success? && r.value.Integer?
    ensures v.Success? ==> v.value == r.value.number
    ensures r.Failure? ==> v == r.PropagateFailure()
    ensures r.Success? && v.Failure? ==> v.error == Unexpected(r.value)
  {
    match r
    case Failure(e) => Failure(e)
    case Success(Integer(n)) => Success(n)
    case Success(f) => Failure(Unexpected(f))
  }

  /** A confirmation of `verb` for a channel: an Array whose first two
      elements equal the verb and the channel (`PartialEq<&str>`); more
      elements may follow. */
  predicate Confirms(f: Frame, verb: string, channel: Bytes) {
    f.Array? && |f.elements| >= 2 && EqStr(f.elements[0], Ascii(verb)) && EqStr(f.elements[1], channel)
  }

  /** An Array that starts with `verb` and names some channel. */
  predicate Names(f: Frame, verb: string) {
    f.Array? && |f.elements| >= 2 && EqStr(f.elements[0], Ascii(verb))
  }

  /** The outcome of `o`, after `k` replies were taken before it. */
  function After(k: nat, o: Outcome): Outcome {
    Outcome(o.result, o.used + k)
  }

  /** `subscribe_cmd` after its request: one reply per channel, in order,
      each of which must confirm the SUBSCRIBE of that channel; the first
      that does not ends the run with its error. */
  function Confirmations(channels: seq<Bytes>, answers: seq<Read>): (r: Outcome)
    requires |answers| >= |channels|
    ensures r.result.Success? ==> r.used == |channels|
    ensures r.result.Failure? ==> 0 < r.used <= |channels|
    ensures r.result.Success? <==>
      forall i | 0 <= i < |channels| :: Response(answers[i]).Success? && Confirms(Response(answers[i]).value, "subscribe", channels[i])
    decreases |channels|
  {
    if |channels| == 0 then Outcome(Success(()), 0)
    else match Response(answers[0])
      case Failure(e) => Outcome(Failure(e), 1)
      case Success(f) =>
        if Confirms(f, "subscribe", channels[0]) then After(1, Confirmations(channels[1..], answers[1..]))
        else Outcome(Failure(Unexpected(f)), 1)
  }

  /** `retain(|c| *channel != &c[..])`: the names, in order, without every
      one that `channel` equals. */
  function Retain(names: seq<Bytes>, channel: Frame): (r: seq<Bytes>)
    ensures |r| <= |names|
    ensures forall c :: c in r <==> c in names && !EqStr(channel, c)
    decreases |names|
  {
    if |names| == 0 then []
    else (if EqStr(channel, names[0]) then [] else [names[0]]) + Retain(names[1..], channel)
  }

  /** How many confirmations `unsubscribe` waits for: one per channel named,
      or, when none is, one per channel subscribed to. */
  function Expected(channels: seq<Bytes>, subscribed: seq<Bytes>): nat {
    if |channels| == 0 then |subscribed| else |channels|
  }

  /** One confirmation of `unsubscribe`, read while the list is
      `subscribed`: it must be an Array starting with "unsubscribe", the
      list must not be empty, and dropping the named channel must shrink it
      by exactly one. A failed check leaves the list as `retain` left it. */
  function UnsubscribeStep(subscribed: seq<Bytes>, read: Read): (r: Retired)
    ensures r.used == 1 && |r.remaining| <= |subscribed|
    ensures r.result.Success? ==> |r.remaining| + 1 == |subscribed|
    ensures |subscribed| == 0 ==> r.result.Failure?
  {
    match Response(read)
    case Failure(e) => Retired(Failure(e), 1, subscribed)
    case Success(f) =>
      if !Names(f, "unsubscribe") || |subscribed| == 0 then Retired(Failure(Unexpected(f)), 1, subscribed)
      else
        var kept := Retain(subscribed, f.elements[1]);
        if |kept| != |subscribed| - 1 then Retired(Failure(Unexpected(f)), 1, kept)
        else Retired(Success(()), 1, kept)
  }

  /** The loop of `unsubscribe` over the replies `answers[i..num]`, with
      the channel list `subscribed`; the first failed check ends it. `used`
      counts every reply taken, from the first. */
  function Unsubscriptions(subscribed: seq<Bytes>, answers: seq<Read>, i: nat, num: nat): (r: Retired)
    requires i <= num <= |answers|
    ensures i <= r.used <= num && |r.remaining| <= |subscribed|
    ensures r.result.Success? ==> r.used == num && |r.remaining| + num == |subscribed| + i
    ensures r.result.Failure? ==> r.used > i
    ensures i < num && |subscribed| == 0 ==> r.result.Failure?
    decreases num - i
  {
    if i == num then Retired(Success(()), i, subscribed)
    else
      var first := UnsubscribeStep(subscribed, answers[i]);
      if first.result.Failure? then Retired(first.result, i + 1, first.remaining)
      else Unsubscriptions(first.remaining, answers, i + 1, num)
  }

  /** `next_message`: a "message" Array of three elements is a message, a
      closed connection is the end of the subscription (`None`), and any
      other frame, an Error frame included, is unexpected. */
  function MessageOf(read: Read): (r: Result<Option<Message>, ClientError>)
    ensures r == Success(None) <==> read == Success(None)
    ensures r.Success? && r.value.Some? <==>
      read.Success? && read.value.Some? && read.value.value.Array? && |read.value.value.elements| == 3 &&
      EqStr(read.value.value.elements[0], Ascii("message"))
    ensures r.Success? && r.value.Some? ==>
      r.value.value == Message(read.value.value.elements[1], read.value.value.elements[2])
    ensures read.Failure? ==> r == Failure(ReadFailed(read.error))
  {
    match read
    case Failure(m) => Failure(ReadFailed(m))
    case Success(None) => Success(None)
    case Success(Some(f)) =>
      if f.Array? && |f.elements| == 3 && EqStr(f.elements[0], Ascii("message")) then
        Success(Some(Message(f.elements[1], f.elements[2])))
      else Failure(Unexpected(f))
  }

  predicate NoDuplicates(names: seq<Bytes>) {
    forall i, j | 0 <= i < j < |names| :: names[i] != names[j]
  }

  class Client {
    var sent: seq<Frame>
    var replies: seq<Read>

    /** `Client::connect`: nothing sent yet; `replies` are what the
        connection's answers will give. */
    constructor(replies: seq<Read>)
      ensures sent == [] && this.replies == replies
    {
      sent := [];
      this.replies := replies;
    }

    /** `write_frame`. */
    method Send(frame: Frame)
      modifies this`sent
      ensures sent == old(sent) + [frame]
    {
      sent := sent + [frame];
    }

    /** `read_response`. */
    method ReadResponse() returns (r: Result<Frame, ClientError>)
      requires |replies| > 0
      modifies this`replies
      ensures r == Response(old(replies)[0]) && replies == old(replies)[1..]
    {
      r := Response(replies[0]);
      replies := replies[1..];
    }

    /** `ping`: the message back, or "PONG". */
    method Ping(msg: Option<Bytes>) returns (r: Result<Bytes, ClientError>)
      requires |replies| > 0
      modifies this`sent, this`replies
      ensures sent == old(sent) + [CmdPing.ToFrame(CmdPing.Ping(msg))]
      ensures r == PingValue(Response(old(replies)[0])) && replies == old(replies)[1..]
    {
      Send(CmdPing.ToFrame(CmdPing.Ping(msg)));
      var response := ReadResponse();
      r := PingValue(response);
    }

    /** `get`: the value of `key`, or `None`. */
    method Get(key: Bytes) returns (r: Result<Option<Bytes>, ClientError>)
      requires |replies| > 0
      modifies this`sent, this`replies
      ensures sent == old(sent) + [CmdGet.ToFrame(CmdGet.Get(key))]
      ensures r == GetValue(Response(old(replies)[0])) && replies == old(replies)[1..]
    {
      Send(CmdGet.ToFrame(CmdGet.Get(key)));
      var response := ReadResponse();
      r := GetValue(response);
    }

    /** `set` and `set_expires` (an expiration in milliseconds) through
        `set_cmd`. */
    method Set(key: Bytes, value: Bytes, expire: Option<nat>) returns (r: Result<(), ClientError>)
      requires |replies| > 0
      modifies this`sent, this`replies
      ensures sent == old(sent) + [CmdSet.ToFrame(CmdSet.Set(key, value, expire))]
      ensures r == OkValue(Response(old(replies)[0])) && replies == old(replies)[1..]
    {
      r := SetCmd(CmdSet.Set(key, value, expire));
    }

    /** `set_cmd`: "OK" or an error. */
    method SetCmd(cmd: CmdSet.Set) returns (r: Result<(), ClientError>)
      requires |replies| > 0
      modifies this`sent, this`replies
      ensures sent == old(sent) + [CmdSet.ToFrame(cmd)]
      ensures r == OkValue(Response(old(replies)[0])) && replies == old(replies)[1..]
    {
      Send(CmdSet.ToFrame(cmd));
      var response := ReadResponse();
      r := OkValue(response);
    }

    /** `del`: "OK" or an error. */
    method Del(keys: seq<Bytes>) returns (r: Result<(), ClientError>)
      requires |replies| > 0
      modifies this`sent, this`replies
      ensures sent == old(sent) + [CmdDel.FrameOf(CmdDel.Del(keys))]
      ensures r == OkValue(Response(old(replies)[0])) && replies == old(replies)[1..]
    {
      Send(CmdDel.FrameOf(CmdDel.Del(keys)));
      var response := ReadResponse();
      r := OkValue(response);
    }

    /** `publish`: the number of receivers. */
    method Publish(channel: Bytes, message: Bytes) returns (r: Result<U64, ClientError>)
      requires |replies| > 0
      modifies this`sent, this`replies
      ensures sent == old(sent) + [CmdPublish.ToFrame(CmdPublish.Publish(channel, message))]
      ensures r == IntegerValue(Response(old(replies)[0])) && replies == old(replies)[1..]
    {
      Send(CmdPublish.ToFrame(CmdPublish.Publish(channel, message)));
      var response := ReadResponse();
      r := IntegerValue(response);
    }

    /** `subscribe_cmd`: sends SUBSCRIBE and answers one confirmation per
        channel. */
    method SubscribeCmd(channels: seq<Bytes>) returns (r: Result<(), ClientError>)
      requires |replies| >= |channels|
      modifies this`sent, this`replies
      ensures sent == old(sent) + [CmdSubscribe.CommandFrame("subscribe", channels)]
      ensures r == Confirmations(channels, old(replies)).result
      ensures replies == old(replies)[Confirmations(channels, old(replies)).used..]
    {
      Send(CmdSubscribe.CommandFrame("subscribe", channels));
      ghost var written := sent;
      ghost var answers := replies;
      var i := 0;
      while i < |channels|
        invariant 0 <= i <= |channels| && replies == answers[i..] && sent == written
        invariant Confirmations(channels, answers) == After(i, Confirmations(channels[i..], answers[i..]))
        decreases |channels| - i
      {
        assert channels[i..][1..] == channels[i + 1..] && answers[i..][1..] == answers[i + 1..];
        var response := ReadResponse();
        if response.Failure? {
          return Failure(response.error);
        }
        if !Confirms(response.value, "subscribe", channels[i]) {
          return Failure(Unexpected(response.value));
        }
        i := i + 1;
      }
      r := Success(());
    }

    /** `Client::subscribe`: once every channel is confirmed, the client
        becomes a `Subscriber` to them. */
    method Subscribe(channels: seq<Bytes>) returns (r: Result<Subscriber, ClientError>)
      requires |replies| >= |channels|
      modifies this`sent, this`replies
      ensures sent == old(sent) + [CmdSubscribe.CommandFrame("subscribe", channels)]
      ensures r.Success? <==> Confirmations(channels, old(replies)).result.Success?
      ensures r.Failure? ==> r.error == Confirmations(channels, old(replies)).result.error
      ensures r.Success? ==> fresh(r.value) && r.value.client == this && r.value.subscribed == channels
      ensures replies == old(replies)[Confirmations(channels, old(replies)).used..]
    {
      var done := SubscribeCmd(channels);
      if done.Failure? {
        return Failure(done.error);
      }
      var subscriber := new Subscriber(this, channels);
      r := Success(subscriber);
    }
  }

  /** A client in pub/sub mode and the channels it is subscribed to
      (`get_subscribed` answers `subscribed`). */
  class Subscriber {
    const client: Client
    var subscribed: seq<Bytes>

    constructor(client: Client, channels: seq<Bytes>)
      ensures this.client == client && subscribed == channels
    {
      this.client := client;
      subscribed := channels;
    }

    /** `next_message`. */
    method NextMessage() returns (r: Result<Option<Message>, ClientError>)
      requires |client.replies| > 0
      modifies client`replies
      ensures r == MessageOf(old(client.replies)[0]) && client.replies == old(client.replies)[1..]
    {
      r := MessageOf(client.replies[0]);
      client.replies := client.replies[1..];
    }

    /** `Subscriber::subscribe`: the channels join the list once the server
        has confirmed each of them. */
    method Subscribe(channels: seq<Bytes>) returns (r: Result<(), ClientError>)
      requires |client.replies| >= |channels|
      modifies this`subscribed, client`sent, client`replies
      ensures client.sent == old(client.sent) + [CmdSubscribe.CommandFrame("subscribe", channels)]
      ensures r == Confirmations(channels, old(client.replies)).result
      ensures client.replies == old(client.replies)[Confirmations(channels, old(client.replies)).used..]
      ensures subscribed == if r.Success? then old(subscribed) + channels else old(subscribed)
    {
      r := client.SubscribeCmd(channels);
      if r.Success? {
        subscribed := subscribed + channels;
      }
    }

    /** `Subscriber::unsubscribe`: sends UNSUBSCRIBE and checks the
        confirmations, dropping each confirmed channel from the list. */
    method Unsubscribe(channels: seq<Bytes>) returns (r: Result<(), ClientError>)
      requires |client.replies| >= Expected(channels, subscribed)
      modifies this`subscribed, client`sent, client`replies
      ensures client.sent == old(client.sent) + [CmdSubscribe.CommandFrame("unsubscribe", channels)]
      ensures var o := Unsubscriptions(old(subscribed), old(client.replies), 0, Expected(channels, old(subscribed)));
        r == o.result && subscribed == o.remaining && client.replies == old(client.replies)[o.used..]
    {
      client.Send(CmdSubscribe.CommandFrame("unsubscribe", channels));
      var num := if |channels| == 0 then |subscribed| else |channels|;
      ghost var written := client.sent;
      ghost var answers := client.replies;
      ghost var start := subscribed;
      var i := 0;
      while i < num
        invariant 0 <= i <= num && client.replies == answers[i..] && client.sent == written
        invariant Unsubscriptions(start, answers, 0, num) == Unsubscriptions(subscribed, answers, i, num)
        decreases num - i
      {
        var step := Confirm();
        if step.Failure? {
          return step;
        }
        assert answers[i..][1..] == answers[i + 1..];
        i := i + 1;
      }
      r := Success(());
    }

    /** One pass of the loop of `unsubscribe`: reads a confirmation and
        drops its channel from the list. */
    method Confirm() returns (r: Result<(), ClientError>)
      requires |client.replies| > 0
      modifies this`subscribed, client`replies
      ensures r == UnsubscribeStep(old(subscribed), old(client.replies)[0]).result
      ensures subscribed == UnsubscribeStep(old(subscribed), old(client.replies)[0]).remaining
      ensures client.replies == old(client.replies)[1..]
    {
      var response := client.ReadResponse();
      if response.Failure? {
        return Failure(response.error);
      }
      var frame := response.value;
      if !Names(frame, "unsubscribe") {
        return Failure(Unexpected(frame));
      }
      var len := |subscribed|;
      if len == 0 {
        return Failure(Unexpected(frame));
      }
      subscribed := Retain(subscribed, frame.elements[1]);
      if |subscribed| != len - 1 {
        return Failure(Unexpected(frame));
      }
      r := Success(());
    }
  }

  // ---------------------------------------------------------------------
  // What the client makes of the server's answers

  /** The answers the server builds in `src/cmd/subscribe.rs` start with
      their verb and the channel, as Bulk frames. */
  lemma ConfirmationHeads(channel: Bytes, n: nat, msg: Bytes)
    ensures CmdSubscribe.SubscribeFrame(channel, n).elements[..2] == [Bulk(Ascii("subscribe")), Bulk(channel)]
    ensures CmdSubscribe.UnsubscribeFrame(channel, n).elements[..2] == [Bulk(Ascii("unsubscribe")), Bulk(channel)]
    ensures CmdSubscribe.MessageFrame(channel, msg).elements == [Bulk(Ascii("message")), Bulk(channel), Bulk(msg)]
  {
    var s := CmdSubscribe.SubscribeFrame(channel, n);
    var u := CmdSubscribe.UnsubscribeFrame(channel, n);
    var m := CmdSubscribe.MessageFrame(channel, msg);
    assert s.elements[..2] == s.elements[..3][..2];
    assert u.elements[..2] == u.elements[..3][..2];
    assert m.elements == m.elements[..2] + [m.elements[2]];
  }

  /** The reply to GET, sent by the server for the value `v` and read back
      by the client, is `v`. */
  lemma GetAnswer(v: Option<Bytes>, rest: Bytes)
    requires v.Some? ==> |v.value| < U64_LIMIT
    ensures GetValue(Response(ReadOutcome(Encoding.WriteFrame(CmdGet.Response(v)) + rest))) == Success(v)
  {
    ReadEncoded(CmdGet.Response(v), rest);
  }

  /** The reply to PING comes back as the message, or "PONG" without one. */
  lemma PingAnswer(p: CmdPing.Ping, rest: Bytes)
    requires p.msg.Some? ==> |p.msg.value| < U64_LIMIT
    ensures PingValue(Response(ReadOutcome(Encoding.WriteFrame(CmdPing.Response(p)) + rest))) ==
      Success(if p.msg.Some? then p.msg.value else Ascii("PONG"))
  {
    var f := CmdPing.Response(p);
    if p.msg.None? {
      AsciiLiteral("PONG");
      assert NoCrlf(f.text);
    }
    ReadEncoded(f, rest);
  }

  /** The "OK" of SET and DEL is read as a success. */
  lemma OkAnswer(rest: Bytes)
    ensures OkValue(Response(ReadOutcome(Encoding.WriteFrame(Simple(Ascii("OK"))) + rest))) == Success(())
  {
    AsciiLiteral("OK");
    assert NoCrlf(Ascii("OK"));
    ReadEncoded(Simple(Ascii("OK")), rest);
  }

  /** The receiver count PUBLISH replies with is what the client returns. */
  lemma PublishAnswer(n: U64, rest: Bytes)
    ensures IntegerValue(Response(ReadOutcome(Encoding.WriteFrame(Integer(n)) + rest))) == Success(n)
  {
    ReadEncoded(Integer(n), rest);
  }

  /** An Error frame fails every request with its message. */
  lemma ServerErrorAnswer(m: Bytes)
    ensures var r := Response(Success(Some(Error(m))));
      PingValue(r) == Failure(ServerError(m)) && GetValue(r) == Failure(ServerError(m)) &&
      OkValue(r) == Failure(ServerError(m)) && IntegerValue(r) == Failure(ServerError(m))
  {
  }

  /** A SUBSCRIBE confirmation confirms its own channel and no other; an
      UNSUBSCRIBE confirmation confirms no SUBSCRIBE. */
  lemma ConfirmsOwnChannel(channel: Bytes, n: nat, other: Bytes)
    ensures Confirms(CmdSubscribe.SubscribeFrame(channel, n), "subscribe", other) <==> other == channel
    ensures !Confirms(CmdSubscribe.UnsubscribeFrame(channel, n), "subscribe", other)
  {
    ConfirmationHeads(channel, n, []);
    var u := CmdSubscribe.UnsubscribeFrame(channel, n);
    assert u.elements[0] == Bulk(Ascii("unsubscribe"));
    assert |Ascii("unsubscribe")| != |Ascii("subscribe")|;
  }

  /** The server's confirmations of a SUBSCRIBE, one per channel in
      request order, are all accepted. */
  lemma {:induction false} SubscribeConfirmed(channels: seq<Bytes>, counts: seq<nat>, answers: seq<Read>)
    requires |counts| == |channels| <= |answers|
    requires forall i | 0 <= i < |channels| :: answers[i] == Success(Some(CmdSubscribe.SubscribeFrame(channels[i], counts[i])))
    ensures Confirmations(channels, answers) == Outcome(Success(()), |channels|)
    decreases |channels|
  {
    if |channels| > 0 {
      ConfirmsOwnChannel(channels[0], counts[0], channels[0]);
      SubscribeConfirmed(channels[1..], counts[1..], answers[1..]);
    }
  }

  /** With distinct names, dropping one that is there shrinks the list by
      exactly one, and the names stay distinct. */
  lemma {:induction false} RetainOne(names: seq<Bytes>, c: Bytes)
    requires NoDuplicates(names) && c in names
    ensures |Retain(names, Bulk(c))| + 1 == |names|
    ensures NoDuplicates(Retain(names, Bulk(c)))
    decreases |names|
  {
    var rest := Retain(names[1..], Bulk(c));
    if names[0] == c {
      RetainNone(names[1..], c);
      assert Retain(names, Bulk(c)) == rest;
    } else {
      RetainOne(names[1..], c);
      assert Retain(names, Bulk(c)) == [names[0]] + rest;
      assert names[0] !in rest;
    }
  }

  /** Dropping a name that is not there changes nothing. */
  lemma {:induction false} RetainNone(names: seq<Bytes>, c: Bytes)
    requires c !in names
    ensures Retain(names, Bulk(c)) == names
    decreases |names|
  {
    if |names| > 0 {
      RetainNone(names[1..], c);
      assert [names[0]] + names[1..] == names;
    }
  }

  /** A name listed twice is dropped twice. */
  lemma {:induction false} RetainTwice(names: seq<Bytes>, c: Bytes, i: nat, j: nat)
    requires i < j < |names| && names[i] == c && names[j] == c
    ensures |Retain(names, Bulk(c))| + 2 <= |names|
    decreases |names|
  {
    var rest := Retain(names[1..], Bulk(c));
    if i == 0 {
      assert names[1..][j - 1] == c;
      RetainDrops(names[1..], c, j - 1);
    } else {
      RetainTwice(names[1..], c, i - 1, j - 1);
    }
  }

  /** A name that is listed is dropped at least once. */
  lemma {:induction false} RetainDrops(names: seq<Bytes>, c: Bytes, i: nat)
    requires i < |names| && names[i] == c
    ensures |Retain(names, Bulk(c))| + 1 <= |names|
    decreases |names|
  {
    if i > 0 {
      RetainDrops(names[1..], c, i - 1);
    }
  }

  /** The server's confirmations for distinct channels that the subscriber
      holds, in any order, drop exactly those channels. */
  lemma {:induction false} UnsubscribeConfirmed(subscribed: seq<Bytes>, names: seq<Bytes>, counts: seq<nat>,
                                                answers: seq<Read>, i: nat)
    requires i <= |names| == |counts| <= |answers|
    requires NoDuplicates(subscribed) && NoDuplicates(names)
    requires forall k | i <= k < |names| :: names[k] in subscribed
    requires forall k | 0 <= k < |names| :: answers[k] == Success(Some(CmdSubscribe.UnsubscribeFrame(names[k], counts[k])))
    ensures var r := Unsubscriptions(subscribed, answers, i, |names|);
      r.result.Success? && r.used == |names| && NoDuplicates(r.remaining) &&
      forall c :: c in r.remaining <==> c in subscribed && c !in names[i..]
    decreases |names| - i
  {
    if i < |names| {
      var c := names[i];
      UnsubscribeAnswered(subscribed, c, counts[i]);
      var kept := Retain(subscribed, Bulk(c));
      forall k | i + 1 <= k < |names|
        ensures names[k] in kept
      {
        assert names[k] != c;
      }
      UnsubscribeConfirmed(kept, names, counts, answers, i + 1);
      assert names[i..] == [c] + names[i + 1..];
    }
  }

  /** One confirmation for a channel the subscriber holds drops it. */
  lemma UnsubscribeAnswered(subscribed: seq<Bytes>, c: Bytes, count: nat)
    requires NoDuplicates(subscribed) && c in subscribed
    ensures var kept := Retain(subscribed, Bulk(c));
      UnsubscribeStep(subscribed, Success(Some(CmdSubscribe.UnsubscribeFrame(c, count)))) == Retired(Success(()), 1, kept) &&
      NoDuplicates(kept)
  {
    ConfirmationHeads(c, count, []);
    var frame := CmdSubscribe.UnsubscribeFrame(c, count);
    assert frame.elements[0] == Bulk(Ascii("unsubscribe")) && frame.elements[1] == Bulk(c);
    RetainOne(subscribed, c);
  }

  /** `unsubscribe(&[])` after subscribing to distinct channels, answered by
      the server once for each of them, in any order, leaves the list
      empty. */
  lemma UnsubscribeEverything(subscribed: seq<Bytes>, names: seq<Bytes>, counts: seq<nat>, answers: seq<Read>)
    requires |names| == |subscribed| == |counts| <= |answers|
    requires NoDuplicates(subscribed) && NoDuplicates(names)
    requires forall k | 0 <= k < |names| :: names[k] in subscribed
    requires forall k | 0 <= k < |names| :: answers[k] == Success(Some(CmdSubscribe.UnsubscribeFrame(names[k], counts[k])))
    ensures var r := Unsubscriptions(subscribed, answers, 0, Expected([], subscribed));
      r.result.Success? && r.used == |subscribed| && r.remaining == []
  {
    UnsubscribeConfirmed(subscribed, names, counts, answers, 0);
  }

  /** A channel the list holds twice is dropped twice by `retain`, so its
      confirmation fails the UNSUBSCRIBE, and the list keeps neither. */
  lemma DuplicateRejected(subscribed: seq<Bytes>, i: nat, j: nat, n: nat, answers: seq<Read>, num: nat)
    requires i < j < |subscribed| && subscribed[i] == subscribed[j]
    requires 0 < num <= |answers|
    requires answers[0] == Success(Some(CmdSubscribe.UnsubscribeFrame(subscribed[i], n)))
    ensures var r := Unsubscriptions(subscribed, answers, 0, num);
      r.result == Failure(Unexpected(CmdSubscribe.UnsubscribeFrame(subscribed[i], n))) && r.used == 1 &&
      subscribed[i] !in r.remaining
  {
    var c := subscribed[i];
    ConfirmationHeads(c, n, []);
    var frame := CmdSubscribe.UnsubscribeFrame(c, n);
    assert frame.elements[0] == Bulk(Ascii("unsubscribe")) && frame.elements[1] == Bulk(c);
    RetainTwice(subscribed, c, i, j);
  }

  /** A message the server forwards is delivered with its channel and
      content. */
  lemma MessageDelivered(channel: Bytes, msg: Bytes)
    ensures MessageOf(Success(Some(CmdSubscribe.MessageFrame(channel, msg)))) ==
      Success(Some(Message(Bulk(channel), Bulk(msg))))
  {
    ConfirmationHeads(channel, 0, msg);
  }
}
