/** `Connection` of `src/connection.rs`: frames read from, and written to,
    one peer.

    The socket is modelled by two fields: `incoming`, the chunks the peer's
    bytes arrive in (one chunk per `read_buf` that returns data; once it is
    empty, `read_buf` returns 0, the end of the stream), and `output`, every
    byte written so far (the `BufWriter` is flushed at the end of each
    `write_frame`, so what was written is what the peer can read). The read
    buffer is `buffer`. */
module Connections {
  import opened Wrappers
  import opened Bytes
  import opened Frames
  import opened FrameTheory
  import opened Encoding

  /** The bytes of a sequence of chunks, in order. */
  function Concat(chunks: seq<Bytes>): Bytes {
    if |chunks| == 0 then [] else chunks[0] + Concat(chunks[1..])
  }

  /** A read that returns data returns at least one byte. */
  predicate NonEmptyChunks(chunks: seq<Bytes>) {
    |chunks| == 0 || (|chunks[0]| > 0 && NonEmptyChunks(chunks[1..]))
  }

  function ConnectionReset(): Bytes {
    Ascii("connection reset by peer")
  }

  /** What `parse_frame` finds at the front of the read buffer: a frame and
      the number of bytes it takes, not enough bytes yet, or bytes that are
      not a frame. */
  datatype Step = Got(frame: Frame, len: nat) | NeedMore | Bad(message: Bytes)

  /** `parse_frame`, with the corrected check in front of the parse (see
      `Check`): the parse never panics, reads exactly the checked bytes and
      builds a well-formed frame. */
  function ParseStep(buf: Bytes): (r: Step)
    ensures r.Got? ==> 0 < r.len <= |buf| && Parse(buf, 0) == Some((r.frame, r.len)) && WellFormed(r.frame)
    ensures r.NeedMore? <==> Check(buf, 0, true) == Failure(Incomplete)
    ensures r.Bad? <==> Check(buf, 0, true).Failure? && Check(buf, 0, true).error.Other?
  {
    match Check(buf, 0, true)
    case Success(len) =>
      StrictCheckAgreesWithParse(buf, 0);
      Got(Parse(buf, 0).value.0, len)
    case Failure(Incomplete) => NeedMore
    case Failure(Other(m)) => Bad(m)
  }

  /** What `read_frame` returns once the peer has sent `all` (what was
      buffered, then every chunk still to arrive) and closed the stream: the
      first frame of `all`; `None` when nothing at all was sent; the error of
      a malformed frame; "connection reset by peer" when the stream ends
      inside a frame. */
  function ReadOutcome(all: Bytes): (r: Result<Option<Frame>, Bytes>) {
    match ParseStep(all)
    case Got(f, _) => Success(Some(f))
    case Bad(m) => Failure(m)
    case NeedMore => if |all| == 0 then Success(None) else Failure(ConnectionReset())
  }

  /** What is left to read after `read_frame` on the bytes `all`: the bytes
      after the frame read, or all of them when no frame was read (the
      stream ended or its bytes are not a frame). */
  function Rest(all: Bytes): (r: Bytes)
    ensures ReadOutcome(all).Success? && ReadOutcome(all).value.Some? ==> |r| < |all|
    ensures ReadOutcome(all).Success? && ReadOutcome(all).value.Some? ==> all == all[..|all| - |r|] + r
  {
    if ParseStep(all).Got? then all[ParseStep(all).len..] else all
  }

  class Connection {
    var buffer: Bytes
    var incoming: seq<Bytes>
    var output: Bytes

    /** `Connection::new`: an empty read buffer over a fresh socket. */
    constructor(chunks: seq<Bytes>)
      requires NonEmptyChunks(chunks)
      ensures buffer == [] && incoming == chunks && output == []
    {
      buffer := [];
      incoming := chunks;
      output := [];
    }

    /** The bytes not read yet: those buffered, then those still to
        arrive. */
    ghost function Unread(): Bytes
      reads this
    {
      buffer + Concat(incoming)
    }

    /** `parse_frame`: on a whole frame, returns it and drops its bytes from
        the buffer; otherwise leaves the buffer as it was and reports "not
        yet" (`Ok(None)`) or the error. */
    method ParseFrame() returns (r: Result<Option<Frame>, Bytes>)
      modifies this`buffer
      ensures match ParseStep(old(buffer))
        case Got(f, len) => r == Success(Some(f)) && buffer == old(buffer)[len..]
        case NeedMore => r == Success(None) && buffer == old(buffer)
        case Bad(m) => r == Failure(m) && buffer == old(buffer)
    {
      match Check(buffer, 0, true)
      case Success(len) =>
        StrictCheckAgreesWithParse(buffer, 0);
        var f := Parse(buffer, 0).value.0;
        buffer := buffer[len..];
        r := Success(Some(f));
      case Failure(Incomplete) =>
        r := Success(None);
      case Failure(Other(m)) =>
        r := Failure(m);
    }

    /** `read_frame`: parses from the buffer, reading more chunks until a
        frame is complete or the stream ends. Its result depends only on
        the bytes, never on how they were split into reads. */
    method ReadFrame() returns (r: Result<Option<Frame>, Bytes>)
      requires NonEmptyChunks(incoming)
      modifies this`buffer, this`incoming
      ensures NonEmptyChunks(incoming)
      ensures r == ReadOutcome(old(Unread()))
      ensures Unread() == Rest(old(Unread()))
    {
      ghost var all := Unread();
      while true
        invariant Unread() == all
        invariant NonEmptyChunks(incoming)
        decreases |incoming|
      {
        ghost var before := buffer;
        r := ParseFrame();
        if r.Failure? || r.value.Some? {
          ReadFromPrefix(before, Concat(incoming));
          return;
        }
        assert ParseStep(buffer).NeedMore?;
        if |incoming| > 0 {
          buffer := buffer + incoming[0];
          incoming := incoming[1..];
        } else {
          assert buffer == all;
          if |buffer| == 0 {
            return Success(None);
          }
          return Failure(ConnectionReset());
        }
      }
    }

    /** `write_frame`: the encoding of `frame` goes out after everything
        written before. */
    method WriteFrame(frame: Frame)
      requires Writable(frame)
      modifies this`output
      ensures output == old(output) + Encoding.WriteFrame(frame)
    {
      output := WriteFrameTo(output, frame);
    }
  }

  /** Once the buffered bytes decide the step, bytes that arrive later change
      neither the frame nor the error. */
  lemma ReadFromPrefix(buf: Bytes, more: Bytes)
    requires !ParseStep(buf).NeedMore?
    ensures ParseStep(buf + more) == ParseStep(buf)
    ensures ParseStep(buf).Got? ==> (buf + more)[ParseStep(buf).len..] == buf[ParseStep(buf).len..] + more
  {
    CheckExtend(buf, more, 0, true);
    if ParseStep(buf).Got? {
      ParseExtend(buf, more, 0);
    }
  }

  /** A peer that sends the encoding of `f` (and then anything) is read as
      `f`, and the bytes after it stay for the next read. */
  lemma ReadEncoded(f: Frame, rest: Bytes)
    requires Encodable(f)
    ensures ParseStep(Encoding.WriteFrame(f) + rest) == Got(f, |Encoding.WriteFrame(f)|)
    ensures ReadOutcome(Encoding.WriteFrame(f) + rest) == Success(Some(f))
  {
    RoundTrip(f, rest);
  }

  /** A peer that closes the stream part-way through the encoding of `f`
      makes `read_frame` fail with "connection reset by peer". */
  lemma ReadTruncated(f: Frame, k: nat)
    requires Encodable(f) && 0 < k < |Encoding.WriteFrame(f)|
    ensures ReadOutcome(Encoding.WriteFrame(f)[..k]) == Failure(ConnectionReset())
  {
    var enc := Encoding.WriteFrame(f);
    RoundTrip(f, []);
    assert enc + [] == enc;
    CheckPrefix(enc, 0, k, true);
  }
}
