/** SUBSCRIBE and UNSUBSCRIBE (`src/cmd/subscribe.rs`): their arguments,
    the frames a client sends for them and the frames the server sends in
    subscribe mode. The subscribe mode itself is in `SubscribeMode`. */
module CmdSubscribe {
  import opened Wrappers
  import opened Bytes
  import opened Decimal
  import opened Frames
  import opened Encoding
  import opened Parsing

  datatype Subscribe = Subscribe(channels: seq<Bytes>)

  datatype Unsubscribe = Unsubscribe(channels: seq<Bytes>)

  /** `Subscribe::try_from`: a first channel, which must be there, then
      every remaining element as a channel, in order. */
  function SubscribeArgs(parts: seq<Frame>): Parsed<Subscribe> {
    var first := TakeString(parts);
    if first.result.Failure? then Parsed(Failure(first.result.error), first.rest)
    else Map(Prepend([first.result.value], TakeStrings(first.rest)), (channels: seq<Bytes>) => Subscribe(channels))
  }

  /** `Unsubscribe::try_from`: every remaining element as a channel, in
      order; there may be none. */
  function UnsubscribeArgs(parts: seq<Frame>): Parsed<Unsubscribe> {
    Map(TakeStrings(parts), (channels: seq<Bytes>) => Unsubscribe(channels))
  }

  /** `Subscribe::try_from` on the parser's cursor. */
  method ParseSubscribe(p: Parser) returns (r: Result<Subscribe, ParserError>)
    modifies p
    ensures r == SubscribeArgs(old(p.parts)).result && p.parts == SubscribeArgs(old(p.parts)).rest
  {
    var first :- p.NextString();
    var channels := [first];
    ghost var start := p.parts;
    while true
      invariant Prepend(channels, TakeStrings(p.parts)) == Prepend([first], TakeStrings(start))
      decreases |p.parts|
    {
      ghost var before := p.parts;
      var next := p.NextString();
      if next.Success? {
        TakeStringsStep(channels, before);
        channels := channels + [next.value];
      } else if next.error == EndOfStream {
        assert channels + [] == channels;
        break;
      } else {
        return Failure(next.error);
      }
    }
    return Success(Subscribe(channels));
  }

  /** `Unsubscribe::try_from` on the parser's cursor. */
  method ParseUnsubscribe(p: Parser) returns (r: Result<Unsubscribe, ParserError>)
    modifies p
    ensures r == UnsubscribeArgs(old(p.parts)).result && p.parts == UnsubscribeArgs(old(p.parts)).rest
  {
    var channels: seq<Bytes> := [];
    ghost var start := p.parts;
    if TakeStrings(start).result.Success? {
      assert [] + TakeStrings(start).result.value == TakeStrings(start).result.value;
    }
    while true
      invariant Prepend(channels, TakeStrings(p.parts)) == TakeStrings(start)
      decreases |p.parts|
    {
      ghost var before := p.parts;
      var next := p.NextString();
      if next.Success? {
        TakeStringsStep(channels, before);
        channels := channels + [next.value];
      } else if next.error == EndOfStream {
        assert channels + [] == channels;
        break;
      } else {
        return Failure(next.error);
      }
    }
    return Success(Unsubscribe(channels));
  }

  /** The frame a command named `verb` with arguments `names` is sent as:
      "verb", then one Bulk frame per name. */
  function CommandFrame(verb: string, names: seq<Bytes>): Frame {
    Array([Bulk(Ascii(verb))] + BulksOf(names))
  }

  /** The loop of `From<Subscribe>` and `From<Unsubscribe>`: one Bulk frame
      per channel pushed, in order, after the verb. */
  method PushChannels(verb: string, channels: seq<Bytes>) returns (f: Frame)
    ensures f == CommandFrame(verb, channels)
  {
    f := PushBulk(EmptyArray(), Ascii(verb));
    for i := 0 to |channels|
      invariant f == Array([Bulk(Ascii(verb))] + BulksOf(channels[..i]))
    {
      assert BulksOf(channels[..i + 1]) == BulksOf(channels[..i]) + [Bulk(channels[i])];
      f := PushBulk(f, channels[i]);
    }
    assert channels[..|channels|] == channels;
  }

  /** `From<Subscribe> for Frame`. */
  method SubscribeToFrame(s: Subscribe) returns (f: Frame)
    ensures f == CommandFrame("subscribe", s.channels)
  {
    f := PushChannels("subscribe", s.channels);
  }

  /** `From<Unsubscribe> for Frame`. */
  method UnsubscribeToFrame(u: Unsubscribe) returns (f: Frame)
    ensures f == CommandFrame("unsubscribe", u.channels)
  {
    f := PushChannels("unsubscribe", u.channels);
  }

  /** The server reads back the channels, in order, of a SUBSCRIBE a client
      sends with at least one channel, each a Rust `String`. */
  lemma SubscribeArgsOfFrame(s: Subscribe)
    requires |s.channels| > 0 && AllUtf8(s.channels)
    ensures SubscribeArgs(CommandFrame("subscribe", s.channels).elements[1..]) == Parsed(Success(s), [])
  {
    var es := CommandFrame("subscribe", s.channels).elements;
    assert es[1..] == BulksOf(s.channels);
    assert BulksOf(s.channels)[1..] == BulksOf(s.channels[1..]);
    assert AllUtf8(s.channels[1..]);
    TakeStringsOfBulks(s.channels[1..]);
    assert [s.channels[0]] + s.channels[1..] == s.channels;
  }

  /** The server reads back the channels, in order, of an UNSUBSCRIBE a
      client sends, none at all included. */
  lemma UnsubscribeArgsOfFrame(u: Unsubscribe)
    requires AllUtf8(u.channels)
    ensures UnsubscribeArgs(CommandFrame("unsubscribe", u.channels).elements[1..]) == Parsed(Success(u), [])
  {
    assert CommandFrame("unsubscribe", u.channels).elements[1..] == BulksOf(u.channels);
    TakeStringsOfBulks(u.channels);
  }

  /** A command frame can be written to the wire and read back when it has
      fewer than 2^64 - 1 arguments, each of a length a `u64` holds. */
  lemma CommandFrameEncodable(verb: string, names: seq<Bytes>)
    requires |verb| < U64_LIMIT && |names| + 1 < U64_LIMIT && AllShort(names)
    ensures Encodable(CommandFrame(verb, names))
  {
    var es := CommandFrame(verb, names).elements;
    forall i | 0 <= i < |es| ensures EncodableValue(es[i]) {
      if i > 0 {
        assert es[i] == Bulk(names[i - 1]);
      }
    }
    AllEncodable(es);
  }

  /** A confirmation: the verb, the channel and the number of channels
      subscribed to afterwards, as a `u64`. */
  function Confirmation(verb: string, channel: Bytes, subscriptions: nat): (f: Frame)
    ensures Writable(f)
  {
    var f := PushInt(PushBulk(PushBulk(EmptyArray(), Ascii(verb)), channel), subscriptions % U64_LIMIT);
    AllValuesWritable(f.elements);
    f
  }

  /** `make_subscribe_frame`: the confirmation of a subscription, with the
      number of channels subscribed to. */
  function SubscribeFrame(channel: Bytes, subscriptions: nat): (f: Frame)
    ensures Writable(f)
  {
    Confirmation("subscribe", channel, subscriptions)
  }

  /** `make_unsubscribe_frame`: the confirmation of an unsubscription, with
      the number of channels still subscribed to. */
  function UnsubscribeFrame(channel: Bytes, subscriptions: nat): (f: Frame)
    ensures Writable(f)
  {
    Confirmation("unsubscribe", channel, subscriptions)
  }

  /** `make_message_frame`: a message published on a subscribed channel. */
  function MessageFrame(channel: Bytes, msg: Bytes): (f: Frame)
    ensures Writable(f)
  {
    var f := PushBulk(PushBulk(PushBulk(EmptyArray(), Ascii("message")), channel), msg);
    AllValuesWritable(f.elements);
    f
  }
}
