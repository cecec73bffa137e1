/** The frame encoder of `src/connection.rs` (`write_frame`, `write_value`,
    `write_decimal`), as the bytes it writes, and the round trip through the
    frame reader of `src/frame.rs`. */
module Encoding {
  import opened Wrappers
  import opened Bytes
  import opened Decimal
  import opened Frames
  import opened FrameTheory

  const CRLF: Bytes := [CR, LF]

  /** `write_decimal`: the base-10 digits of `n`, then "\r\n". */
  function WriteDecimal(n: U64): (r: Bytes)
    ensures |r| >= 3 && r[|r| - 2..] == CRLF
    ensures AllDigits(r[..|r| - 2])
    ensures Atoi(r) == Some(n)
  {
    AtoiOfDigitsOf(n, CRLF);
    assert (DigitsOf(n) + CRLF)[..|DigitsOf(n)|] == DigitsOf(n);
    DigitsOf(n) + CRLF
  }

  /** A frame `write_value` writes: anything but an Array, on which the
      Rust code reaches `unreachable!()`. */
  predicate WritableValue(f: Frame) {
    !f.Array?
  }

  /** A frame `write_frame` writes: a value, or an Array of values. */
  predicate Writable(f: Frame) {
    match f
    case Array(es) => AllWritable(es)
    case _ => WritableValue(f)
  }

  predicate AllWritable(fs: seq<Frame>) {
    |fs| == 0 || (WritableValue(fs[0]) && AllWritable(fs[1..]))
  }

  /** Casting a length that fits in a `u64` keeps it. */
  lemma AsU64(n: nat)
    requires n < U64_LIMIT
    ensures n % U64_LIMIT == n
  {
  }

  /** `write_value`: the layout of every frame but an Array. A length is
      cast to a `u64` before `write_decimal`. */
  function WriteValue(f: Frame): (r: Bytes)
    requires WritableValue(f)
    ensures |r| > 0 && IsTypeByte(r[0])
  {
    match f
    case Simple(s) => [PLUS] + s + CRLF
    case Error(s) => [MINUS] + s + CRLF
    case Integer(n) => [COLON] + WriteDecimal(n)
    case Null => [DOLLAR, MINUS, '1' as byte, CR, LF]
    case Bulk(d) => [DOLLAR] + WriteDecimal(|d| % U64_LIMIT) + d + CRLF
  }

  /** A text the reader gives back unchanged as one line. */
  predicate NoCrlf(s: Bytes) {
    forall j :: 0 <= j < |s| ==> !CrlfAt(s, j)
  }

  /** A frame that can be an element of an encoded Array and reads back as
      itself: not an Array, a Rust `String` for Simple and Error (valid UTF-8)
      without "\r\n" inside, and a Bulk whose length fits in a `u64`. */
  predicate EncodableValue(f: Frame) {
    WritableValue(f) && ReadsBack(f)
  }

  /** A value the reader gives back: a Simple or Error text that is a Rust
      `String` (valid UTF-8) without "\r\n" inside, a Bulk whose length
      fits in a `u64`. */
  predicate ReadsBack(f: Frame) {
    (f.Simple? ==> ValidUtf8(f.text) && NoCrlf(f.text)) &&
    (f.Error? ==> ValidUtf8(f.message) && NoCrlf(f.message)) &&
    (f.Bulk? ==> |f.data| < U64_LIMIT)
  }

  predicate AllReadBack(fs: seq<Frame>) {
    |fs| == 0 || (ReadsBack(fs[0]) && AllReadBack(fs[1..]))
  }

  /** A frame `write_frame` can write and the reader gives back: an encodable
      value, or an Array of fewer than 2^64 encodable values. */
  predicate Encodable(f: Frame) {
    match f
    case Array(es) => |es| < U64_LIMIT && AllWritable(es) && AllReadBack(es)
    case _ => EncodableValue(f)
  }

  /** The elements of an Array, each with `write_value`, one after the
      other. */
  function WriteValues(fs: seq<Frame>): (r: Bytes)
    requires AllWritable(fs)
    ensures |fs| == 0 <==> |r| == 0
  {
    if |fs| == 0 then [] else WriteValue(fs[0]) + WriteValues(fs[1..])
  }

  /** `write_frame`: an Array is "*", its element count and each element
      with `write_value`; any other frame is its `write_value`. */
  function WriteFrame(f: Frame): (r: Bytes)
    requires Writable(f)
    ensures |r| > 0 && IsTypeByte(r[0])
    ensures f.Array? <==> r[0] == STAR
  {
    match f
    case Array(es) => [STAR] + WriteDecimal(|es| % U64_LIMIT) + WriteValues(es)
    case _ => WriteValue(f)
  }

  /** The method the Rust code runs for `write_frame`: the header, then one
      `write_value` per element, in order, onto the output. */
  method WriteFrameTo(output: Bytes, f: Frame) returns (r: Bytes)
    requires Writable(f)
    ensures r == output + WriteFrame(f)
  {
    if !f.Array? {
      return output + WriteValue(f);
    }
    var es := f.elements;
    r := output + [STAR] + WriteDecimal(|es| % U64_LIMIT);
    var i := 0;
    while i < |es|
      invariant i <= |es| && AllWritable(es[i..])
      invariant r + WriteValues(es[i..]) == output + WriteFrame(f)
    {
      var v := WriteValue(es[i]);
      assert es[i..][1..] == es[i + 1..];
      assert WriteValues(es[i..]) == v + WriteValues(es[i + 1..]);
      assert (r + v) + WriteValues(es[i + 1..]) == r + WriteValues(es[i..]);
      r := r + v;
      i := i + 1;
    }
    assert WriteValues(es[i..]) == [];
  }

  /** An Array of encodable values is encodable. */
  lemma {:induction false} AllEncodable(es: seq<Frame>)
    requires forall i :: 0 <= i < |es| ==> EncodableValue(es[i])
    ensures AllWritable(es) && AllReadBack(es)
    decreases |es|
  {
    if |es| > 0 {
      AllEncodable(es[1..]);
    }
  }

  /** An Array of values that are not Arrays can be written. */
  lemma {:induction false} AllValuesWritable(es: seq<Frame>)
    requires forall i :: 0 <= i < |es| ==> WritableValue(es[i])
    ensures Writable(Array(es))
    decreases |es|
  {
    if |es| > 0 {
      AllValuesWritable(es[1..]);
    }
  }

  /** Byte strings whose lengths fit in a `u64`. */
  predicate AllShort(names: seq<Bytes>) {
    forall i :: 0 <= i < |names| ==> |names[i]| < U64_LIMIT
  }

  /** Bulk frames of such byte strings can be written, and read back. */
  lemma {:induction false} BulksEncodable(names: seq<Bytes>)
    requires AllShort(names)
    ensures AllWritable(BulksOf(names)) && AllReadBack(BulksOf(names))
    decreases |names|
  {
    if |names| > 0 {
      assert BulksOf(names)[1..] == BulksOf(names[1..]);
      assert AllShort(names[1..]);
      BulksEncodable(names[1..]);
    }
  }

  // ---------------------------------------------------------------------
  // Reading back

  /** `e` sits in `buf` at `pos`. */
  predicate Occurs(buf: Bytes, pos: nat, e: Bytes) {
    pos + |e| <= |buf| && buf[pos..pos + |e|] == e
  }

  lemma OccursSplit(buf: Bytes, pos: nat, a: Bytes, b: Bytes)
    requires Occurs(buf, pos, a + b)
    ensures Occurs(buf, pos, a) && Occurs(buf, pos + |a|, b)
  {
    assert buf[pos..pos + |a|] == (a + b)[..|a|];
    assert buf[pos + |a|..pos + |a| + |b|] == (a + b)[|a|..];
  }

  lemma OccursAt(buf: Bytes, pos: nat, e: Bytes, i: nat)
    requires Occurs(buf, pos, e) && i < |e|
    ensures buf[pos + i] == e[i]
  {
    assert buf[pos..pos + |e|][i] == e[i];
  }

  /** A text without "\r\n" followed by "\r\n" is read back as one line. */
  lemma LineAt(buf: Bytes, p: nat, text: Bytes)
    requires NoCrlf(text) && Occurs(buf, p, text + CRLF)
    ensures GetLine(buf, p) == Success((text, p + |text| + 2))
  {
    var e := text + CRLF;
    var i := p + |text|;
    OccursAt(buf, p, e, |text|);
    OccursAt(buf, p, e, |text| + 1);
    forall j | p <= j < i ensures !CrlfAt(buf, j) {
      OccursAt(buf, p, e, j - p);
      OccursAt(buf, p, e, j + 1 - p);
      assert !CrlfAt(text, j - p);
    }
    FindCrlfIs(buf, p, i);
    OccursSplit(buf, p, text, CRLF);
  }

  lemma DigitsHaveNoCrlf(n: nat)
    ensures NoCrlf(DigitsOf(n))
  {
    var d := DigitsOf(n);
    forall j | 0 <= j < |d| ensures !CrlfAt(d, j) {
      assert IsDigit(d[j]);
    }
  }

  /** What `write_decimal` wrote is read back by `get_decimal` as the same
      number, ending where it ended. */
  lemma DecimalAt(buf: Bytes, p: nat, n: U64)
    requires Occurs(buf, p, WriteDecimal(n))
    ensures GetDecimal(buf, p) == Success((n, p + |WriteDecimal(n)|))
  {
    DigitsHaveNoCrlf(n);
    LineAt(buf, p, DigitsOf(n));
    AtoiOfDigitsOf(n, []);
    assert DigitsOf(n) + [] == DigitsOf(n);
  }

  lemma LineValueRoundTrip(buf: Bytes, pos: nat, f: Frame, end: nat)
    requires (f.Simple? || f.Error?) && EncodableValue(f) && Occurs(buf, pos, WriteValue(f))
    requires end == pos + |WriteValue(f)|
    ensures CheckHead(buf, pos, true) == Success(Done(end))
    ensures ParseHead(buf, pos) == Some(Whole(f, end))
  {
    var text := if f.Simple? then f.text else f.message;
    var b := if f.Simple? then PLUS else MINUS;
    var p1 := pos + 1;
    assert WriteValue(f) == [b] + (text + CRLF);
    OccursSplit(buf, pos, [b], text + CRLF);
    OccursAt(buf, pos, [b], 0);
    LineAt(buf, p1, text);
    assert buf[pos] == b && ValidUtf8(text) && end == p1 + |text| + 2;
    assert GetU8(buf, pos) == Success((b, p1));
  }

  lemma IntegerRoundTrip(buf: Bytes, pos: nat, n: U64, end: nat)
    requires Occurs(buf, pos, WriteValue(Integer(n))) && end == pos + |WriteValue(Integer(n))|
    ensures CheckHead(buf, pos, true) == Success(Done(end))
    ensures ParseHead(buf, pos) == Some(Whole(Integer(n), end))
  {
    var p1 := pos + 1;
    OccursSplit(buf, pos, [COLON], WriteDecimal(n));
    OccursAt(buf, pos, [COLON], 0);
    DecimalAt(buf, p1, n);
  }

  lemma NullRoundTrip(buf: Bytes, pos: nat)
    requires Occurs(buf, pos, WriteValue(Null))
    ensures CheckHead(buf, pos, true) == Success(Done(pos + 5))
    ensures ParseHead(buf, pos) == Some(Whole(Null, pos + 5))
  {
    var e := WriteValue(Null);
    OccursAt(buf, pos, e, 0);
    OccursAt(buf, pos, e, 1);
    OccursAt(buf, pos, e, 2);
    OccursAt(buf, pos, e, 3);
    OccursAt(buf, pos, e, 4);
    assert NullAt(buf, pos + 1);
    NullLine(buf, pos + 1);
  }

  lemma BulkRoundTrip(buf: Bytes, pos: nat, d: Bytes, end: nat)
    requires |d| < U64_LIMIT && Occurs(buf, pos, WriteValue(Bulk(d)))
    requires end == pos + |WriteValue(Bulk(d))|
    ensures CheckHead(buf, pos, true) == Success(Done(end))
    ensures ParseHead(buf, pos) == Some(Whole(Bulk(d), end))
  {
    AsU64(|d|);
    var dec := WriteDecimal(|d|);
    assert WriteValue(Bulk(d)) == ([DOLLAR] + dec) + (d + CRLF);
    BulkBytes(buf, pos, d, |d|, pos + 1 + |dec|, end);
    BulkHeadIs(buf, pos, true, |d|, pos + 1 + |dec|, end);
  }

  /** The bytes of a Bulk string: "$", its length as `get_decimal` reads
      it, then the data at `start` and "\r\n". */
  lemma BulkBytes(buf: Bytes, pos: nat, d: Bytes, n: U64, start: nat, end: nat)
    requires n == |d| && Occurs(buf, pos, ([DOLLAR] + WriteDecimal(n)) + (d + CRLF))
    requires start == pos + 1 + |WriteDecimal(n)| && end == start + |d| + 2
    ensures pos + 1 < |buf| && buf[pos] == DOLLAR && buf[pos + 1] != MINUS
    ensures GetDecimal(buf, pos + 1) == Success((n, start))
    ensures end <= |buf| && buf[start..start + |d|] == d
  {
    OccursSplit(buf, pos, [DOLLAR] + WriteDecimal(n), d + CRLF);
    LengthHeaderBytes(buf, pos, DOLLAR, n, start);
    DecimalStartsWithDigit(buf, pos + 1, n);
    OccursSplit(buf, start, d, CRLF);
  }

  /** Every encodable value is checked and parsed back as itself, and both
      stop exactly at the end of its encoding. */
  lemma ValueRoundTrip(buf: Bytes, pos: nat, f: Frame, end: nat)
    requires EncodableValue(f) && Occurs(buf, pos, WriteValue(f)) && end == pos + |WriteValue(f)|
    ensures Check(buf, pos, true) == Success(end)
    ensures Parse(buf, pos) == Some((f, end))
  {
    match f
    case Simple(_) => LineValueRoundTrip(buf, pos, f, end);
    case Error(_) => LineValueRoundTrip(buf, pos, f, end);
    case Integer(n) => IntegerRoundTrip(buf, pos, n, end);
    case Null => NullRoundTrip(buf, pos);
    case Bulk(d) => BulkRoundTrip(buf, pos, d, end);
  }

  lemma {:induction false} ValuesCheck(buf: Bytes, pos: nat, fs: seq<Frame>, end: nat)
    requires AllWritable(fs) && AllReadBack(fs)
    requires Occurs(buf, pos, WriteValues(fs)) && end == pos + |WriteValues(fs)|
    ensures CheckN(buf, pos, |fs|, true) == Success(end)
    decreases |fs|
  {
    if |fs| > 0 {
      var first := WriteValue(fs[0]);
      var next := pos + |first|;
      OccursSplit(buf, pos, first, WriteValues(fs[1..]));
      ValueRoundTrip(buf, pos, fs[0], next);
      ValuesCheck(buf, next, fs[1..], end);
      CheckNCons(buf, pos, |fs|, true, next, end);
    }
  }

  lemma {:induction false} ValuesParse(buf: Bytes, pos: nat, fs: seq<Frame>, end: nat)
    requires AllWritable(fs) && AllReadBack(fs)
    requires Occurs(buf, pos, WriteValues(fs)) && end == pos + |WriteValues(fs)|
    ensures ParseN(buf, pos, |fs|) == Some((fs, end))
    decreases |fs|
  {
    if |fs| > 0 {
      var first := WriteValue(fs[0]);
      var next := pos + |first|;
      OccursSplit(buf, pos, first, WriteValues(fs[1..]));
      ValueRoundTrip(buf, pos, fs[0], next);
      ValuesParse(buf, next, fs[1..], end);
      ParseNCons(buf, pos, fs, next, end);
    }
  }

  /** The header of an Array: `*`, its length and "\r\n". */
  lemma ArrayHeaderAt(buf: Bytes, pos: nat, n: U64, next: nat)
    requires Occurs(buf, pos, [STAR] + WriteDecimal(n)) && next == pos + 1 + |WriteDecimal(n)|
    ensures CheckHead(buf, pos, true) == Success(Elements(n, next))
    ensures ParseHead(buf, pos) == Some(ArrayOf(n, next))
  {
    LengthHeaderBytes(buf, pos, STAR, n, next);
    ArrayHeadIs(buf, pos, true, n, next);
  }

  /** A length header is its type byte and then the length as
      `get_decimal` reads it. */
  lemma LengthHeaderBytes(buf: Bytes, pos: nat, kind: byte, n: U64, next: nat)
    requires Occurs(buf, pos, [kind] + WriteDecimal(n)) && next == pos + 1 + |WriteDecimal(n)|
    ensures pos < |buf| && buf[pos] == kind && Occurs(buf, pos + 1, WriteDecimal(n))
    ensures GetDecimal(buf, pos + 1) == Success((n, next))
  {
    OccursSplit(buf, pos, [kind], WriteDecimal(n));
    OccursAt(buf, pos, [kind], 0);
    DecimalAt(buf, pos + 1, n);
  }

  /** A written decimal starts with a digit, never with a sign. */
  lemma DecimalStartsWithDigit(buf: Bytes, p: nat, n: U64)
    requires Occurs(buf, p, WriteDecimal(n))
    ensures p < |buf| && IsDigit(buf[p])
  {
    var dec := WriteDecimal(n);
    OccursAt(buf, p, dec, 0);
    assert dec[..|dec| - 2][0] == dec[0];
  }

  /** The encoding of an Array is its header followed by its elements. */
  lemma ArraySplit(buf: Bytes, pos: nat, f: Frame, next: nat)
    requires f.Array? && Encodable(f) && Occurs(buf, pos, WriteFrame(f))
    requires next == pos + 1 + |WriteDecimal(|f.elements|)|
    ensures Occurs(buf, pos, [STAR] + WriteDecimal(|f.elements|))
    ensures Occurs(buf, next, WriteValues(f.elements))
    ensures next + |WriteValues(f.elements)| == pos + |WriteFrame(f)|
  {
    ArrayEncoding(f);
    var header := [STAR] + WriteDecimal(|f.elements|);
    var values := WriteValues(f.elements);
    assert WriteFrame(f) == header + values;
    OccursSplit(buf, pos, header, values);
    assert next == pos + |header|;
  }

  /** The encoding of an Array frame short enough for its length to fit a
      `u64`: the header with the length, then the elements. */
  lemma ArrayEncoding(f: Frame)
    requires f.Array? && Writable(f) && |f.elements| < U64_LIMIT
    ensures WriteFrame(f) == [STAR] + WriteDecimal(|f.elements|) + WriteValues(f.elements)
  {
    AsU64(|f.elements|);
  }

  lemma ArrayRoundTrip(buf: Bytes, pos: nat, f: Frame, end: nat)
    requires f.Array? && Encodable(f) && Occurs(buf, pos, WriteFrame(f)) && end == pos + |WriteFrame(f)|
    ensures Check(buf, pos, true) == Success(end)
    ensures Parse(buf, pos) == Some((f, end))
  {
    var es := f.elements;
    var next := pos + 1 + |WriteDecimal(|es|)|;
    ArraySplit(buf, pos, f, next);
    ArrayHeaderAt(buf, pos, |es|, next);
    ValuesCheck(buf, next, es, end);
    ValuesParse(buf, next, es, end);
    CheckArray(buf, pos, true, |es|, next, end);
    ParseArray(buf, pos, |es|, next, es, end);
  }

  /** The round trip of the codec: whatever follows it in the buffer, an
      encoded frame passes the check, and the parse gives the same frame
      back, both consuming exactly the encoding. */
  lemma RoundTrip(f: Frame, rest: Bytes)
    requires Encodable(f)
    ensures var enc := WriteFrame(f);
      Check(enc + rest, 0, true) == Success(|enc|) &&
      Parse(enc + rest, 0) == Some((f, |enc|))
  {
    var enc := WriteFrame(f);
    var buf := enc + rest;
    assert buf[0..|enc|] == enc;
    if f.Array? {
      ArrayRoundTrip(buf, 0, f, |enc|);
    } else {
      ValueRoundTrip(buf, 0, f, |enc|);
    }
  }
}
