/** The command set of `src/cmd/mod.rs`: the `Command` union, reading a
    command out of a frame (`TryFrom<Frame>`), and `get_name`. */
module Commands {
  import opened Wrappers
  import opened Bytes
  import opened Decimal
  import opened Frames
  import opened Encoding
  import opened Parsing
  import opened Connections
  import CmdGet
  import CmdSet
  import CmdDel
  import CmdPublish
  import CmdPing
  import CmdUnknown
  import CmdSubscribe

  datatype Command =
    | Get(getCmd: CmdGet.Get)
    | Set(setCmd: CmdSet.Set)
    | Del(delCmd: CmdDel.Del)
    | Publish(publishCmd: CmdPublish.Publish)
    | Subscribe(subscribeCmd: CmdSubscribe.Subscribe)
    | Unsubscribe(unsubscribeCmd: CmdSubscribe.Unsubscribe)
    | Ping(pingCmd: CmdPing.Ping)
    | Unknown(unknownCmd: CmdUnknown.Unknown)

  /** The lower-cased verbs `try_from` recognises. */
  predicate KnownVerb(name: Bytes) {
    name == Ascii("get") || name == Ascii("set") || name == Ascii("del") || name == Ascii("publish") ||
    name == Ascii("subscribe") || name == Ascii("unsubscribe") || name == Ascii("ping")
  }

  /** The `match` of `try_from` on the lower-cased verb `name`, with the
      elements after the verb: the parser of the command that verb names,
      or, for any other verb, an `Unknown` command that takes nothing. */
  function Dispatch(name: Bytes, parts: seq<Frame>): (r: Parsed<Command>)
    ensures !KnownVerb(name) ==> r == Parsed(Success(Unknown(CmdUnknown.Unknown(name))), parts)
    ensures KnownVerb(name) && r.result.Success? ==> !r.result.value.Unknown?
  {
    if name == Ascii("get") then Map(CmdGet.Args(parts), (c: CmdGet.Get) => Get(c))
    else if name == Ascii("set") then Map(CmdSet.Args(parts), (c: CmdSet.Set) => Set(c))
    else if name == Ascii("del") then Map(CmdDel.Args(parts), (c: CmdDel.Del) => Del(c))
    else if name == Ascii("publish") then Map(CmdPublish.Args(parts), (c: CmdPublish.Publish) => Publish(c))
    else if name == Ascii("subscribe") then
      Map(CmdSubscribe.SubscribeArgs(parts), (c: CmdSubscribe.Subscribe) => Subscribe(c))
    else if name == Ascii("unsubscribe") then
      Map(CmdSubscribe.UnsubscribeArgs(parts), (c: CmdSubscribe.Unsubscribe) => Unsubscribe(c))
    else if name == Ascii("ping") then Map(CmdPing.Args(parts), (c: CmdPing.Ping) => Ping(c))
    else Parsed(Success(Unknown(CmdUnknown.Unknown(name))), parts)
  }

  /** `Command::try_from`: the frame must be an Array whose first element is
      a string; the verb is lower-cased and picks the command's parser; a
      recognised command must use up every element, an unknown one ignores
      whatever follows its verb. */
  function Decode(frame: Frame): (r: Result<Command, ParserError>)
    ensures !frame.Array? ==> r == Failure(ProtocolError(ExpectedArray(frame)))
    ensures frame.Array? && |frame.elements| == 0 ==> r == Failure(EndOfStream)
    ensures r.Success? ==> frame.Array? && |frame.elements| > 0 && StringOf(frame.elements[0]).Success?
  {
    if !frame.Array? then Failure(ProtocolError(ExpectedArray(frame)))
    else
      var verb := TakeString(frame.elements);
      if verb.result.Failure? then Failure(verb.result.error)
      else
        var cmd := Dispatch(ToLower(verb.result.value), verb.rest);
        if cmd.result.Failure? || cmd.result.value.Unknown? then cmd.result
        else
          var end := Finished(cmd.rest);
          if end.result.Failure? then Failure(end.result.error) else cmd.result
  }

  /** `Command::try_from`, threading one parser through the verb, the
      command's own parser and `finish`. */
  method FromFrame(frame: Frame) returns (r: Result<Command, ParserError>)
    ensures r == Decode(frame)
  {
    var parser :- Parser.New(frame);
    var verb :- parser.NextString();
    var name := ToLower(verb);
    var cmd: Command;
    if name == Ascii("get") {
      var c :- CmdGet.ParseFrom(parser);
      cmd := Get(c);
    } else if name == Ascii("set") {
      var c :- CmdSet.ParseFrom(parser);
      cmd := Set(c);
    } else if name == Ascii("del") {
      var c :- CmdDel.ParseFrom(parser);
      cmd := Del(c);
    } else if name == Ascii("publish") {
      var c :- CmdPublish.ParseFrom(parser);
      cmd := Publish(c);
    } else if name == Ascii("subscribe") {
      var c :- CmdSubscribe.ParseSubscribe(parser);
      cmd := Subscribe(c);
    } else if name == Ascii("unsubscribe") {
      var c :- CmdSubscribe.ParseUnsubscribe(parser);
      cmd := Unsubscribe(c);
    } else if name == Ascii("ping") {
      var c :- CmdPing.ParseFrom(parser);
      cmd := Ping(c);
    } else {
      return Success(Unknown(CmdUnknown.Unknown(name)));
    }
    var done :- parser.Finish();
    return Success(cmd);
  }

  /** `Command::get_name`. */
  function GetName(c: Command): Bytes {
    match c
    case Get(_) => Ascii("get")
    case Set(_) => Ascii("set")
    case Del(_) => Ascii("del")
    case Publish(_) => Ascii("pub")
    case Subscribe(_) => Ascii("subscribe")
    case Unsubscribe(_) => Ascii("unsubscribe")
    case Ping(_) => Ascii("ping")
    case Unknown(u) => CmdUnknown.GetName(u)
  }

  /** The frame a client sends for a command (`From<...> for Frame`); an
      unknown command is never sent. */
  function ClientFrame(c: Command): Frame
    requires !c.Unknown?
  {
    match c
    case Get(g) => CmdGet.ToFrame(g)
    case Set(s) => CmdSet.ToFrame(s)
    case Del(d) => CmdDel.FrameOf(d)
    case Publish(m) => CmdPublish.ToFrame(m)
    case Subscribe(s) => CmdSubscribe.CommandFrame("subscribe", s.channels)
    case Unsubscribe(u) => CmdSubscribe.CommandFrame("unsubscribe", u.channels)
    case Ping(p) => CmdPing.ToFrame(p)
  }

  /** A command a client can send and have read back: its names are Rust
      `String`s, and DEL and SUBSCRIBE name at least one key or channel. */
  predicate Sendable(c: Command) {
    match c
    case Get(g) => ValidUtf8(g.key)
    case Set(s) => ValidUtf8(s.key)
    case Del(d) => |d.keys| > 0 && AllUtf8(d.keys)
    case Publish(m) => ValidUtf8(m.channel)
    case Subscribe(s) => |s.channels| > 0 && AllUtf8(s.channels)
    case Unsubscribe(u) => AllUtf8(u.channels)
    case Ping(_) => true
    case Unknown(_) => false
  }

  /** What the server reads from the frame of a sendable command: the same
      command, except that the expiration of a SET keeps only what its
      `u64` encoding holds. */
  function Received(c: Command): Command {
    if c.Set? then Set(CmdSet.Sent(c.setCmd)) else c
  }

  /** A verb in lower-case letters is a string, and lower-casing leaves it
      as it is. */
  lemma LowerVerb(verb: string)
    requires forall i :: 0 <= i < |verb| ==> 'a' <= verb[i] <= 'z'
    ensures ValidUtf8(Ascii(verb)) && ToLower(Ascii(verb)) == Ascii(verb)
  {
    AsciiLiteral(verb);
    forall i | 0 <= i < |verb| ensures ToLower(Ascii(verb))[i] == Ascii(verb)[i] {
      assert !IsUpper(Ascii(verb)[i]);
    }
  }

  /** A frame whose first element is a lower-case verb, and whose other
      elements that verb's parser takes in full, is read as that command. */
  lemma DecodeVerb(frame: Frame, verb: string, c: Command)
    requires forall i :: 0 <= i < |verb| ==> 'a' <= verb[i] <= 'z'
    requires frame.Array? && |frame.elements| > 0 && frame.elements[0] == Bulk(Ascii(verb))
    requires Dispatch(Ascii(verb), frame.elements[1..]) == Parsed(Success(c), []) && !c.Unknown?
    ensures Decode(frame) == Success(c)
  {
    LowerVerb(verb);
  }

  /** Every command a client sends is read back by the server as the same
      command (a SET's expiration modulo 2^64 milliseconds). */
  lemma DecodeClientFrame(c: Command)
    requires Sendable(c)
    ensures Decode(ClientFrame(c)) == Success(Received(c))
  {
    match c
    case Get(g) => DecodeGet(g);
    case Set(s) => DecodeSet(s);
    case Del(d) => DecodeDel(d);
    case Publish(m) => DecodePublish(m);
    case Subscribe(s) => DecodeSubscribe(s);
    case Unsubscribe(u) => DecodeUnsubscribe(u);
    case Ping(p) => DecodePing(p);
  }

  lemma DecodeGet(g: CmdGet.Get)
    requires ValidUtf8(g.key)
    ensures Decode(ClientFrame(Get(g))) == Success(Get(g))
  {
    CmdGet.ArgsOfFrame(g);
    DecodeVerb(ClientFrame(Get(g)), "get", Get(g));
  }

  lemma DecodeSet(s: CmdSet.Set)
    requires ValidUtf8(s.key)
    ensures Decode(ClientFrame(Set(s))) == Success(Set(CmdSet.Sent(s)))
  {
    CmdSet.ArgsOfFrame(s);
    assert Ascii("set")[0] != Ascii("get")[0];
    DecodeVerb(ClientFrame(Set(s)), "set", Set(CmdSet.Sent(s)));
  }

  lemma DecodeDel(d: CmdDel.Del)
    requires |d.keys| > 0 && AllUtf8(d.keys)
    ensures Decode(ClientFrame(Del(d))) == Success(Del(d))
  {
    CmdDel.ArgsOfFrame(d);
    assert Ascii("del")[0] != Ascii("get")[0] && Ascii("del")[0] != Ascii("set")[0];
    DecodeVerb(ClientFrame(Del(d)), "del", Del(d));
  }

  lemma DecodePublish(m: CmdPublish.Publish)
    requires ValidUtf8(m.channel)
    ensures Decode(ClientFrame(Publish(m))) == Success(Publish(m))
  {
    CmdPublish.ArgsOfFrame(m);
    DecodeVerb(ClientFrame(Publish(m)), "publish", Publish(m));
  }

  lemma DecodeSubscribe(s: CmdSubscribe.Subscribe)
    requires |s.channels| > 0 && AllUtf8(s.channels)
    ensures Decode(ClientFrame(Subscribe(s))) == Success(Subscribe(s))
  {
    CmdSubscribe.SubscribeArgsOfFrame(s);
    DecodeVerb(ClientFrame(Subscribe(s)), "subscribe", Subscribe(s));
  }

  lemma DecodeUnsubscribe(u: CmdSubscribe.Unsubscribe)
    requires AllUtf8(u.channels)
    ensures Decode(ClientFrame(Unsubscribe(u))) == Success(Unsubscribe(u))
  {
    CmdSubscribe.UnsubscribeArgsOfFrame(u);
    DecodeVerb(ClientFrame(Unsubscribe(u)), "unsubscribe", Unsubscribe(u));
  }

  lemma DecodePing(p: CmdPing.Ping)
    ensures Decode(ClientFrame(Ping(p))) == Success(Ping(p))
  {
    CmdPing.ArgsOfFrame(p);
    DecodeVerb(ClientFrame(Ping(p)), "ping", Ping(p));
  }

  /** The verb is matched whatever the case of its letters. */
  lemma VerbCaseInsensitive(verb: Bytes, word: Bytes, rest: seq<Frame>)
    requires ValidUtf8(verb) && ValidUtf8(word) && ToLower(word) == word
    requires SameIgnoringCase(verb, word)
    ensures Decode(Array([Bulk(verb)] + rest)) == Decode(Array([Bulk(word)] + rest))
  {
    ToLowerMatches(verb, word);
  }

  /** A verb the server does not know is read as an `Unknown` command
      carrying the lower-cased verb, whatever elements follow it. */
  lemma UnknownVerb(verb: Bytes, rest: seq<Frame>)
    requires ValidUtf8(verb) && !KnownVerb(ToLower(verb))
    ensures Decode(Array([Bulk(verb)] + rest)) == Success(Unknown(CmdUnknown.Unknown(ToLower(verb))))
  {
  }

  /** `get_name` of a command read from a frame is its lower-cased verb,
      except that PUBLISH calls itself "pub". */
  lemma NameOfDecoded(frame: Frame)
    requires Decode(frame).Success?
    ensures var name := ToLower(StringOf(frame.elements[0]).value);
      GetName(Decode(frame).value) == if name == Ascii("publish") then Ascii("pub") else name
  {
  }

  /** A recognised command whose parser leaves an element over is refused
      by `finish`. */
  lemma DecodeVerbLeftover(frame: Frame, verb: string, c: Command, rest: seq<Frame>)
    requires forall i :: 0 <= i < |verb| ==> 'a' <= verb[i] <= 'z'
    requires frame.Array? && |frame.elements| > 0 && frame.elements[0] == Bulk(Ascii(verb))
    requires Dispatch(Ascii(verb), frame.elements[1..]) == Parsed(Success(c), rest)
    requires !c.Unknown? && |rest| > 0
    ensures Decode(frame) == Failure(ProtocolError(ExpectedEnd))
  {
    LowerVerb(verb);
  }

  /** GET, PUBLISH and PING with a message take a fixed number of
      arguments: one more element makes the whole frame an error. */
  lemma TrailingArgument(c: Command, x: Frame)
    requires Sendable(c) && (c.Get? || c.Publish? || (c.Ping? && c.pingCmd.msg.Some?))
    ensures Decode(Array(ClientFrame(c).elements + [x])) == Failure(ProtocolError(ExpectedEnd))
  {
    var es := ClientFrame(c).elements + [x];
    match c
    case Get(g) =>
      assert es[1..] == [Bulk(g.key), x];
      DecodeVerbLeftover(Array(es), "get", c, [x]);
    case Publish(m) =>
      assert es[1..] == [Bulk(m.channel), Bulk(m.message), x];
      assert es[1..][1..] == [Bulk(m.message), x];
      DecodeVerbLeftover(Array(es), "publish", c, [x]);
    case Ping(p) =>
      assert es[1..] == [Bulk(p.msg.value), x];
      DecodeVerbLeftover(Array(es), "ping", c, [x]);
  }

  /** The lengths of a command's names fit the `u64` the encoder writes
      them as. */
  predicate FitsU64(c: Command) {
    match c
    case Get(g) => |g.key| < U64_LIMIT
    case Set(s) => |s.key| < U64_LIMIT && |s.value| < U64_LIMIT
    case Del(d) => |d.keys| + 1 < U64_LIMIT && AllShort(d.keys)
    case Publish(m) => |m.channel| < U64_LIMIT && |m.message| < U64_LIMIT
    case Subscribe(s) => |s.channels| + 1 < U64_LIMIT && AllShort(s.channels)
    case Unsubscribe(u) => |u.channels| + 1 < U64_LIMIT && AllShort(u.channels)
    case Ping(p) => p.msg.Some? ==> |p.msg.value| < U64_LIMIT
    case Unknown(_) => true
  }

  /** The frame a client sends for a command can be written to the wire. */
  lemma ClientFrameEncodable(c: Command)
    requires !c.Unknown? && FitsU64(c)
    ensures Encodable(ClientFrame(c))
  {
    match c
    case Get(g) => CmdGet.FrameEncodable(g);
    case Set(s) => CmdSet.FrameEncodable(s);
    case Del(d) => CmdDel.FrameEncodable(d);
    case Publish(m) => CmdPublish.FrameEncodable(m);
    case Subscribe(s) => CmdSubscribe.CommandFrameEncodable("subscribe", s.channels);
    case Unsubscribe(u) => CmdSubscribe.CommandFrameEncodable("unsubscribe", u.channels);
    case Ping(p) => CmdPing.FrameEncodable(p);
  }

  /** A command a client writes to the socket, followed by anything else,
      is read by the server's connection as the client's frame, taking
      exactly its bytes, and that frame is read as the command. */
  lemma OverTheWire(c: Command, rest: Bytes)
    requires Sendable(c) && FitsU64(c)
    ensures Writable(ClientFrame(c))
    ensures var sent := WriteFrame(ClientFrame(c));
      ParseStep(sent + rest) == Got(ClientFrame(c), |sent|) &&
      Decode(ParseStep(sent + rest).frame) == Success(Received(c))
  {
    ClientFrameEncodable(c);
    ReadEncoded(ClientFrame(c), rest);
    DecodeClientFrame(c);
  }
}
