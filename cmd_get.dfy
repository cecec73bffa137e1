/** GET (`src/cmd/get.rs`): reads one key. */
module CmdGet {
  import opened Wrappers
  import opened Bytes
  import opened Decimal
  import opened Frames
  import opened Encoding
  import opened Parsing
  import opened Database
  import opened Connections

  datatype Get = Get(key: Bytes)

  /** `Get::try_from`: the key is the next element, as a string. */
  function Args(parts: seq<Frame>): Parsed<Get> {
    Map(TakeString(parts), (key: Bytes) => Get(key))
  }

  /** `Get::try_from` on the parser's cursor. */
  method ParseFrom(p: Parser) returns (r: Result<Get, ParserError>)
    modifies p
    ensures r == Args(old(p.parts)).result && p.parts == Args(old(p.parts)).rest
  {
    var key :- p.NextString();
    return Success(Get(key));
  }

  /** `From<Get> for Frame`: the frame a client sends. */
  function ToFrame(g: Get): Frame {
    PushBulk(PushBulk(EmptyArray(), Ascii("get")), g.key)
  }

  /** The server reads back the GET a client sends, for any key that is a
      Rust `String`. */
  lemma ArgsOfFrame(g: Get)
    requires ValidUtf8(g.key)
    ensures ToFrame(g).elements[0] == Bulk(Ascii("get"))
    ensures Args(ToFrame(g).elements[1..]) == Parsed(Success(g), [])
  {
    assert ToFrame(g).elements[1..] == [Bulk(g.key)];
  }

  /** The GET a client sends can be written to the wire and read back, as
      long as the key's length fits in a `u64`. */
  lemma FrameEncodable(g: Get)
    requires |g.key| < U64_LIMIT
    ensures Encodable(ToFrame(g))
  {
    AllEncodable(ToFrame(g).elements);
  }

  /** The reply to GET: the value as a Bulk frame, or Null when the key is
      absent. */
  function Response(value: Option<Bytes>): Frame {
    if value.Some? then Bulk(value.value) else Null
  }

  /** `Get::apply`: replies with the value stored under the key, expired or
      not, and leaves the database as it was. */
  method Apply(g: Get, db: Db, dst: Connection)
    modifies dst`output
    ensures dst.output == old(dst.output) + WriteFrame(Response(db.Get(g.key)))
  {
    var value := db.Get(g.key);
    dst.WriteFrame(Response(value));
  }
}
