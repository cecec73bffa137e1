/** SET (`src/cmd/set.rs`): stores a value, with an optional expiration.
    A `Duration` is kept as a whole number of milliseconds. */
module CmdSet {
  import opened Wrappers
  import opened Bytes
  import opened Decimal
  import opened Frames
  import opened Encoding
  import opened Parsing
  import opened Database
  import opened Connections

  datatype Set = Set(key: Bytes, value: Bytes, expire: Option<nat>)

  /** The optional expiration after the value: `EX seconds` or
      `PX milliseconds`, the keyword in any case, or nothing at all. Any
      other string is refused. */
  function ExpireArg(parts: seq<Frame>): Parsed<Option<nat>> {
    var option := TakeString(parts);
    match option.result
    case Success(s) =>
      if ToUpper(s) == Ascii("EX") then Map(TakeInt(option.rest), (secs: U64) => Some(secs as nat * 1000))
      else if ToUpper(s) == Ascii("PX") then Map(TakeInt(option.rest), (ms: U64) => Some(ms as nat))
      else Parsed(Failure(ProtocolError(SetOptionUnsupported)), option.rest)
    case Failure(EndOfStream) => Parsed(Success(None), option.rest)
    case Failure(e) => Parsed(Failure(e), option.rest)
  }

  /** `Set::try_from`: the key (a string), the value (any bytes), then the
      optional expiration. */
  function Args(parts: seq<Frame>): Parsed<Set> {
    var key := TakeString(parts);
    if key.result.Failure? then Parsed(Failure(key.result.error), key.rest)
    else
      var value := TakeBytes(key.rest);
      if value.result.Failure? then Parsed(Failure(value.result.error), value.rest)
      else Map(ExpireArg(value.rest), (expire: Option<nat>) => Set(key.result.value, value.result.value, expire))
  }

  /** `Set::try_from` on the parser's cursor. */
  method ParseFrom(p: Parser) returns (r: Result<Set, ParserError>)
    modifies p
    ensures r == Args(old(p.parts)).result && p.parts == Args(old(p.parts)).rest
  {
    var key :- p.NextString();
    var value :- p.NextBytes();
    var expire: Option<nat> := None;
    var option := p.NextString();
    if option.Success? {
      if ToUpper(option.value) == Ascii("EX") {
        var secs :- p.NextInt();
        expire := Some(secs as nat * 1000);
      } else if ToUpper(option.value) == Ascii("PX") {
        var ms :- p.NextInt();
        expire := Some(ms as nat);
      } else {
        return Failure(ProtocolError(SetOptionUnsupported));
      }
    } else if option.error != EndOfStream {
      return Failure(option.error);
    }
    return Success(Set(key, value, expire));
  }

  /** `From<Set> for Frame`: key and value, then "px" and the expiration in
      milliseconds, cast to a `u64`. */
  function ToFrame(s: Set): Frame {
    var f := PushBulk(PushBulk(PushBulk(EmptyArray(), Ascii("set")), s.key), s.value);
    if s.expire.Some? then PushInt(PushBulk(f, Ascii("px")), s.expire.value % U64_LIMIT) else f
  }

  /** What the server reads back from a SET a client sends: the expiration
      only to the milliseconds the encoding keeps. */
  function Sent(s: Set): (r: Set)
    ensures r.key == s.key && r.value == s.value && r.expire.Some? == s.expire.Some?
    ensures s.expire.Some? && s.expire.value < U64_LIMIT ==> r == s
  {
    Set(s.key, s.value, if s.expire.Some? then Some(s.expire.value % U64_LIMIT) else None)
  }

  /** The expiration a client sends is read back in milliseconds. */
  lemma ExpireArgPx(ms: U64)
    ensures ExpireArg([Bulk(Ascii("px")), Integer(ms)]) == Parsed(Success(Some(ms as nat)), [])
  {
    var px := Ascii("px");
    assert px == ['p' as byte, 'x' as byte];
    assert ToUpper(px) == Ascii("PX");
    assert Ascii("PX")[0] != Ascii("EX")[0];
    AsciiLiteral("px");
    assert [Bulk(px), Integer(ms)][1..] == [Integer(ms)];
  }

  /** The server reads back the SET a client sends, for a key that is a Rust
      `String`: same key and value, and the expiration in milliseconds
      modulo 2^64. */
  lemma ArgsOfFrame(s: Set)
    requires ValidUtf8(s.key)
    ensures ToFrame(s).elements[0] == Bulk(Ascii("set"))
    ensures Args(ToFrame(s).elements[1..]) == Parsed(Success(Sent(s)), [])
  {
    var es := ToFrame(s).elements;
    var tail: seq<Frame> := if s.expire.Some? then [Bulk(Ascii("px")), Integer(s.expire.value % U64_LIMIT)] else [];
    assert es[1..] == [Bulk(s.key), Bulk(s.value)] + tail;
    assert es[1..][1..][1..] == tail;
    if s.expire.Some? {
      ExpireArgPx(s.expire.value % U64_LIMIT);
    }
  }

  /** The SET a client sends can be written to the wire and read back, as
      long as key and value have lengths a `u64` can hold. */
  lemma FrameEncodable(s: Set)
    requires |s.key| < U64_LIMIT && |s.value| < U64_LIMIT
    ensures Encodable(ToFrame(s))
  {
    AllEncodable(ToFrame(s).elements);
  }

  /** `Set::apply`: stores the value with its expiration counted from `now`
      and replies "OK". */
  method Apply(s: Set, db: Db, dst: Connection, now: nat)
    requires db.Valid()
    modifies db`entries, db`expirations, dst`output
    ensures db.Valid()
    ensures db.entries == old(db.entries)[s.key := Entry(s.value, if s.expire.Some? then Some(now + s.expire.value) else None)]
    ensures db.Get(s.key) == Some(s.value)
    ensures dst.output == old(dst.output) + WriteFrame(Simple(Ascii("OK")))
  {
    // Whether the purge task must be woken; waking it is not modelled.
    var notify := db.Set(s.key, s.value, s.expire, now);
    dst.WriteFrame(Simple(Ascii("OK")));
  }
}
