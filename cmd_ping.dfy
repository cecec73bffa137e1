/** PING (`src/cmd/ping.rs`): an optional message to echo. */
module CmdPing {
  import opened Wrappers
  import opened Bytes
  import opened Decimal
  import opened Frames
  import opened Encoding
  import opened Parsing
  import opened Connections

  datatype Ping = Ping(msg: Option<Bytes>)

  /** `Ping::try_from`: the message is the next element as bytes, if there
      is one. */
  function Args(parts: seq<Frame>): Parsed<Ping> {
    var msg := TakeBytes(parts);
    match msg.result
    case Success(m) => Parsed(Success(Ping(Some(m))), msg.rest)
    case Failure(EndOfStream) => Parsed(Success(Ping(None)), msg.rest)
    case Failure(e) => Parsed(Failure(e), msg.rest)
  }

  /** `Ping::try_from` on the parser's cursor. */
  method ParseFrom(p: Parser) returns (r: Result<Ping, ParserError>)
    modifies p
    ensures r == Args(old(p.parts)).result && p.parts == Args(old(p.parts)).rest
  {
    var msg := p.NextBytes();
    if msg.Success? {
      return Success(Ping(Some(msg.value)));
    } else if msg.error == EndOfStream {
      return Success(Ping(None));
    }
    return Failure(msg.error);
  }

  /** `From<Ping> for Frame`. */
  function ToFrame(g: Ping): Frame {
    var f := PushBulk(EmptyArray(), Ascii("ping"));
    if g.msg.Some? then PushBulk(f, g.msg.value) else f
  }

  /** The server reads back the PING a client sends, with or without a
      message (any bytes). */
  lemma ArgsOfFrame(g: Ping)
    ensures ToFrame(g).elements[0] == Bulk(Ascii("ping"))
    ensures Args(ToFrame(g).elements[1..]) == Parsed(Success(g), [])
  {
    if g.msg.Some? {
      assert ToFrame(g).elements[1..] == [Bulk(g.msg.value)];
    } else {
      assert ToFrame(g).elements[1..] == [];
    }
  }

  /** A PING argument that is neither Simple nor Bulk is refused. */
  lemma RejectsNonString(f: Frame, rest: seq<Frame>)
    requires !f.Simple? && !f.Bulk?
    ensures Args([f] + rest).result == Failure(ProtocolError(ExpectedString(f)))
  {
  }

  /** The PING a client sends can be written to the wire and read back, as
      long as the message's length fits in a `u64`. */
  lemma FrameEncodable(g: Ping)
    requires g.msg.Some? ==> |g.msg.value| < U64_LIMIT
    ensures Encodable(ToFrame(g))
  {
    AllEncodable(ToFrame(g).elements);
  }

  /** The reply to PING: the message, as a Bulk frame, or "PONG". */
  function Response(g: Ping): (f: Frame)
    ensures g.msg.None? <==> f == Simple(Ascii("PONG"))
    ensures g.msg.Some? <==> f.Bulk?
    ensures g.msg.Some? ==> f.data == g.msg.value
  {
    if g.msg.Some? then Bulk(g.msg.value) else Simple(Ascii("PONG"))
  }

  /** `Ping::apply`: writes the reply; no database is involved. */
  method Apply(g: Ping, dst: Connection)
    modifies dst`output
    ensures dst.output == old(dst.output) + WriteFrame(Response(g))
  {
    dst.WriteFrame(Response(g));
  }
}
