/** PUBLISH (`src/cmd/publish.rs`): a message on a channel. */
module CmdPublish {
  import opened Wrappers
  import opened Bytes
  import opened Decimal
  import opened Frames
  import opened Encoding
  import opened Parsing
  import opened Database
  import opened Connections

  datatype Publish = Publish(channel: Bytes, message: Bytes)

  /** `Publish::try_from`: the channel (a string), then the message (any
      bytes). */
  function Args(parts: seq<Frame>): Parsed<Publish> {
    var channel := TakeString(parts);
    if channel.result.Failure? then Parsed(Failure(channel.result.error), channel.rest)
    else Map(TakeBytes(channel.rest), (message: Bytes) => Publish(channel.result.value, message))
  }

  /** `Publish::try_from` on the parser's cursor. */
  method ParseFrom(p: Parser) returns (r: Result<Publish, ParserError>)
    modifies p
    ensures r == Args(old(p.parts)).result && p.parts == Args(old(p.parts)).rest
  {
    var channel :- p.NextString();
    var message :- p.NextBytes();
    return Success(Publish(channel, message));
  }

  /** `From<Publish> for Frame`. */
  function ToFrame(m: Publish): Frame {
    PushBulk(PushBulk(PushBulk(EmptyArray(), Ascii("publish")), m.channel), m.message)
  }

  /** The server reads back channel and message of the PUBLISH a client
      sends, for a channel that is a Rust `String`. */
  lemma ArgsOfFrame(m: Publish)
    requires ValidUtf8(m.channel)
    ensures ToFrame(m).elements[0] == Bulk(Ascii("publish"))
    ensures Args(ToFrame(m).elements[1..]) == Parsed(Success(m), [])
  {
    assert ToFrame(m).elements[1..] == [Bulk(m.channel), Bulk(m.message)];
  }

  /** The PUBLISH a client sends can be written to the wire and read back,
      as long as channel and message have lengths a `u64` holds. */
  lemma FrameEncodable(m: Publish)
    requires |m.channel| < U64_LIMIT && |m.message| < U64_LIMIT
    ensures Encodable(ToFrame(m))
  {
    AllEncodable(ToFrame(m).elements);
  }

  /** `Publish::apply`: replies with the number of receivers of the
      channel, as a `u64`; 0 for a channel nobody subscribed to (see
      `Db.Publish`). */
  method Apply(m: Publish, db: Db, dst: Connection)
    modifies dst`output
    ensures dst.output == old(dst.output) + WriteFrame(Integer(db.Publish(m.channel) % U64_LIMIT))
  {
    var subscribers := db.Publish(m.channel);
    dst.WriteFrame(Integer(subscribers % U64_LIMIT));
  }
}
