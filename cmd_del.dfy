/** DEL (`src/cmd/del.rs`): one or more keys. */
module CmdDel {
  import opened Wrappers
  import opened Bytes
  import opened Decimal
  import opened Frames
  import opened Encoding
  import opened Parsing
  import opened Connections

  datatype Del = Del(keys: seq<Bytes>)

  /** `Del::try_from`: a first key, which must be there, then every
      remaining element as a key, in order. */
  function Args(parts: seq<Frame>): Parsed<Del> {
    var first := TakeString(parts);
    if first.result.Failure? then Parsed(Failure(first.result.error), first.rest)
    else Map(Prepend([first.result.value], TakeStrings(first.rest)), (keys: seq<Bytes>) => Del(keys))
  }

  /** `Del::try_from` on the parser's cursor: strings are pushed until
      `EndOfStream`; any other error ends the parse. */
  method ParseFrom(p: Parser) returns (r: Result<Del, ParserError>)
    modifies p
    ensures r == Args(old(p.parts)).result && p.parts == Args(old(p.parts)).rest
  {
    var first :- p.NextString();
    var keys := [first];
    ghost var start := p.parts;
    while true
      invariant Prepend(keys, TakeStrings(p.parts)) == Prepend([first], TakeStrings(start))
      decreases |p.parts|
    {
      ghost var before := p.parts;
      var next := p.NextString();
      if next.Success? {
        TakeStringsStep(keys, before);
        keys := keys + [next.value];
      } else if next.error == EndOfStream {
        assert keys + [] == keys;
        break;
      } else {
        return Failure(next.error);
      }
    }
    return Success(Del(keys));
  }

  /** The frame `From<Del> for Frame` builds. */
  function FrameOf(d: Del): Frame {
    Array([Bulk(Ascii("del"))] + BulksOf(d.keys))
  }

  /** `From<Del> for Frame`: "del", then one Bulk frame per key, pushed in
      order. */
  method ToFrame(d: Del) returns (f: Frame)
    ensures f == FrameOf(d)
  {
    f := PushBulk(EmptyArray(), Ascii("del"));
    for i := 0 to |d.keys|
      invariant f == Array([Bulk(Ascii("del"))] + BulksOf(d.keys[..i]))
    {
      assert BulksOf(d.keys[..i + 1]) == BulksOf(d.keys[..i]) + [Bulk(d.keys[i])];
      f := PushBulk(f, d.keys[i]);
    }
    assert d.keys[..|d.keys|] == d.keys;
  }

  /** The server reads back the keys, in order, of a DEL a client sends
      with at least one key, each a Rust `String`. */
  lemma ArgsOfFrame(d: Del)
    requires |d.keys| > 0 && AllUtf8(d.keys)
    ensures FrameOf(d).elements[0] == Bulk(Ascii("del"))
    ensures Args(FrameOf(d).elements[1..]) == Parsed(Success(d), [])
  {
    var es := FrameOf(d).elements;
    assert es[1..] == BulksOf(d.keys);
    assert BulksOf(d.keys)[1..] == BulksOf(d.keys[1..]);
    assert AllUtf8(d.keys[1..]);
    TakeStringsOfBulks(d.keys[1..]);
    assert [d.keys[0]] + d.keys[1..] == d.keys;
  }

  /** A DEL without keys, which a client can build, is refused by the
      server. */
  lemma NoKeys()
    ensures Args(FrameOf(Del([])).elements[1..]).result == Failure(EndOfStream)
  {
    assert FrameOf(Del([])).elements[1..] == [];
  }

  /** The DEL a client sends can be written to the wire and read back, as
      long as it has fewer than 2^64 - 1 keys, each of a length a `u64`
      holds. */
  lemma FrameEncodable(d: Del)
    requires |d.keys| + 1 < U64_LIMIT && AllShort(d.keys)
    ensures Encodable(FrameOf(d))
  {
    var es := FrameOf(d).elements;
    forall i | 0 <= i < |es| ensures EncodableValue(es[i]) {
      if i > 0 {
        assert es[i] == Bulk(d.keys[i - 1]);
      }
    }
    AllEncodable(es);
  }

  /** `Del::apply`: replies "OK". The keys are not removed: the database
      has no `del`. */
  method Apply(d: Del, dst: Connection)
    modifies dst`output
    ensures dst.output == old(dst.output) + WriteFrame(Simple(Ascii("OK")))
  {
    dst.WriteFrame(Simple(Ascii("OK")));
  }
}
