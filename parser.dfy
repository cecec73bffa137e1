/** The command parser of `src/parser.rs`: a cursor over the elements of an
    Array frame, with typed consumers.

    The Rust `Parser` holds a `vec::IntoIter<Frame>`; here the class holds
    the elements not yet taken, `parts`, and every consumer drops the first
    one. The consumers are specified by the pure functions `TakeString`,
    `TakeBytes`, `TakeInt` and `Finished`, which give both the value (or
    error) and the elements left afterwards; the command parsers are
    specified in the same terms. */
module Parsing {
  import opened Wrappers
  import opened Bytes
  import opened Decimal
  import opened Frames

  /** What the protocol errors of the command layer complain about. The
      Rust code formats each into a message; the model keeps which one it
      is (and the offending frame where the message shows it). */
  datatype Problem =
    | ExpectedArray(got: Frame)
    | InvalidString
    | ExpectedString(got: Frame)
    | InvalidNumber
    | ExpectedInteger(got: Frame)
    | ExpectedEnd
    | SetOptionUnsupported
    | UnsubscribeUnsupported

  /** `ParserError`: the array has no element left, or any other error
      (`ParserError::Other`). */
  datatype ParserError = EndOfStream | ProtocolError(problem: Problem)

  /** The outcome of a run of consumers: the value or the error, and the
      elements still to be taken. */
  datatype Parsed<T> = Parsed(result: Result<T, ParserError>, rest: seq<Frame>)

  /** The value of a run of consumers passed through `f`; errors and the
      elements left are kept. */
  function Map<T, U>(p: Parsed<T>, f: T -> U): (r: Parsed<U>)
    ensures r.result.Success? <==> p.result.Success?
    ensures r.result.Success? ==> r.result.value == f(p.result.value)
    ensures r.result.Failure? ==> r.result.error == p.result.error
    ensures r.rest == p.rest
  {
    Parsed(if p.result.Success? then Success(f(p.result.value)) else Failure(p.result.error), p.rest)
  }

  /** An element as raw bytes: the text of a Simple frame or the data of a
      Bulk frame. */
  function BytesOf(f: Frame): (r: Result<Bytes, ParserError>)
    ensures r.Success? <==> f.Simple? || f.Bulk?
    ensures r.Success? ==> EqStr(f, r.value)
    ensures r.Failure? ==> r.error == ProtocolError(ExpectedString(f))
  {
    match f
    case Simple(s) => Success(s)
    case Bulk(data) => Success(data)
    case _ => Failure(ProtocolError(ExpectedString(f)))
  }

  /** An element as a Rust `String`: a Simple frame, or a Bulk frame whose
      data is well-formed UTF-8. A string is the same bytes `BytesOf` gives,
      and it is well-formed whenever the frame is. */
  function StringOf(f: Frame): (r: Result<Bytes, ParserError>)
    ensures r.Success? <==> f.Simple? || (f.Bulk? && ValidUtf8(f.data))
    ensures r.Success? ==> BytesOf(f) == r
    ensures r.Success? && WellFormed(f) ==> ValidUtf8(r.value)
    ensures r.Failure? ==> r.error.ProtocolError?
  {
    match f
    case Simple(s) => Success(s)
    case Bulk(data) =>
      if ValidUtf8(data) then Success(data) else Failure(ProtocolError(InvalidString))
    case _ => Failure(ProtocolError(ExpectedString(f)))
  }

  /** An element as a `u64`: an Integer frame as it is, a Simple or Bulk
      frame through `atoi`. */
  function IntOf(f: Frame): (r: Result<U64, ParserError>)
    ensures f.Integer? ==> r == Success(f.number)
    ensures r.Success? ==> f.Integer? || BytesOf(f).Success?
    ensures BytesOf(f).Success? ==>
      (r.Success? <==> Atoi(BytesOf(f).value).Some?) &&
      (r.Success? ==> r.value == Atoi(BytesOf(f).value).value)
    ensures r.Failure? ==> r.error.ProtocolError?
  {
    match f
    case Integer(v) => Success(v)
    case Simple(data) =>
      if Atoi(data).Some? then Success(Atoi(data).value) else Failure(ProtocolError(InvalidNumber))
    case Bulk(data) =>
      if Atoi(data).Some? then Success(Atoi(data).value) else Failure(ProtocolError(InvalidNumber))
    case _ => Failure(ProtocolError(ExpectedInteger(f)))
  }

  /** A number sent as text, the way redis-cli sends the argument of PX, is
      read as that number, whether it comes as a Simple or a Bulk frame. */
  lemma IntOfDigits(n: U64)
    ensures IntOf(Bulk(DigitsOf(n))) == Success(n)
    ensures IntOf(Simple(DigitsOf(n))) == Success(n)
  {
    AtoiOfDigitsOf(n, []);
    assert DigitsOf(n) + [] == DigitsOf(n);
  }

  /** `next_string` on the elements `parts`: one element is taken, whether
      or not it is a string; `EndOfStream` exactly when none is left. */
  function TakeString(parts: seq<Frame>): (r: Parsed<Bytes>)
    ensures r.result == Failure(EndOfStream) <==> |parts| == 0
    ensures r.rest == if |parts| == 0 then parts else parts[1..]
  {
    if |parts| == 0 then Parsed(Failure(EndOfStream), parts)
    else Parsed(StringOf(parts[0]), parts[1..])
  }

  /** `next_bytes`: one element is taken; `EndOfStream` exactly when none is
      left. */
  function TakeBytes(parts: seq<Frame>): (r: Parsed<Bytes>)
    ensures r.result == Failure(EndOfStream) <==> |parts| == 0
    ensures r.rest == if |parts| == 0 then parts else parts[1..]
  {
    if |parts| == 0 then Parsed(Failure(EndOfStream), parts)
    else Parsed(BytesOf(parts[0]), parts[1..])
  }

  /** `next_int`: one element is taken; `EndOfStream` exactly when none is
      left. */
  function TakeInt(parts: seq<Frame>): (r: Parsed<U64>)
    ensures r.result == Failure(EndOfStream) <==> |parts| == 0
    ensures r.rest == if |parts| == 0 then parts else parts[1..]
  {
    if |parts| == 0 then Parsed(Failure(EndOfStream), parts)
    else Parsed(IntOf(parts[0]), parts[1..])
  }

  /** `finish`: succeeds exactly when no element is left. */
  function Finished(parts: seq<Frame>): (r: Parsed<()>)
    ensures r.result.Success? <==> |parts| == 0
    ensures r.result.Failure? ==> r.result.error == ProtocolError(ExpectedEnd)
    ensures r.rest == if |parts| == 0 then parts else parts[1..]
  {
    if |parts| == 0 then Parsed(Success(()), parts)
    else Parsed(Failure(ProtocolError(ExpectedEnd)), parts[1..])
  }

  /** Calling `next_string` until `EndOfStream`, as the parsers of DEL,
      SUBSCRIBE and UNSUBSCRIBE do: every remaining element as a string, or
      the first element that is not one. */
  function TakeStrings(parts: seq<Frame>): (r: Parsed<seq<Bytes>>)
    ensures r.result.Success? ==> |r.result.value| == |parts| && r.rest == []
    ensures r.result.Failure? ==> r.result.error.ProtocolError? && |r.rest| < |parts|
    decreases |parts|
  {
    if |parts| == 0 then Parsed(Success([]), [])
    else match StringOf(parts[0])
      case Failure(e) => Parsed(Failure(e), parts[1..])
      case Success(s) =>
        var more := TakeStrings(parts[1..]);
        Parsed(if more.result.Success? then Success([s] + more.result.value) else more.result, more.rest)
  }

  /** The strings `strings` put first in front of what a run of
      `TakeStrings` found (the error, if any, stays). */
  function Prepend(strings: seq<Bytes>, t: Parsed<seq<Bytes>>): Parsed<seq<Bytes>> {
    Parsed(if t.result.Success? then Success(strings + t.result.value) else t.result, t.rest)
  }

  /** One step of the loop over `next_string`: a string taken from the
      front moves from what is left to what was found. */
  lemma TakeStringsStep(strings: seq<Bytes>, parts: seq<Frame>)
    requires |parts| > 0 && StringOf(parts[0]).Success?
    ensures Prepend(strings + [StringOf(parts[0]).value], TakeStrings(parts[1..])) ==
            Prepend(strings, TakeStrings(parts))
  {
    var more := TakeStrings(parts[1..]);
    if more.result.Success? {
      assert strings + [StringOf(parts[0]).value] + more.result.value ==
             strings + ([StringOf(parts[0]).value] + more.result.value);
    }
  }

  predicate AllUtf8(names: seq<Bytes>) {
    forall i :: 0 <= i < |names| ==> ValidUtf8(names[i])
  }

  /** Names sent as Bulk frames are read back, in order, by the loop over
      `next_string`, provided each is a well-formed string. */
  lemma {:induction false} TakeStringsOfBulks(names: seq<Bytes>)
    requires AllUtf8(names)
    ensures TakeStrings(BulksOf(names)) == Parsed(Success(names), [])
    decreases |names|
  {
    if |names| > 0 {
      assert BulksOf(names)[1..] == BulksOf(names[1..]);
      assert AllUtf8(names[1..]);
      TakeStringsOfBulks(names[1..]);
      assert [names[0]] + names[1..] == names;
    }
  }

  /** A name that is not well-formed UTF-8 stops the loop with
      `InvalidString`. */
  lemma {:induction false} TakeStringsRejects(names: seq<Bytes>, i: nat)
    requires i < |names| && !ValidUtf8(names[i])
    requires forall j :: 0 <= j < i ==> ValidUtf8(names[j])
    ensures TakeStrings(BulksOf(names)).result == Failure(ProtocolError(InvalidString))
    decreases i
  {
    if i > 0 {
      assert BulksOf(names)[1..] == BulksOf(names[1..]);
      TakeStringsRejects(names[1..], i - 1);
    }
  }

  class Parser {
    var parts: seq<Frame>

    constructor Over(elements: seq<Frame>)
      ensures parts == elements
    {
      parts := elements;
    }

    /** `Parser::new`: a cursor over the elements of an Array frame; any
        other frame is an error. */
    static method New(frame: Frame) returns (r: Result<Parser, ParserError>)
      ensures r.Success? <==> frame.Array?
      ensures r.Success? ==> fresh(r.value) && r.value.parts == frame.elements
      ensures r.Failure? ==> r.error == ProtocolError(ExpectedArray(frame))
    {
      if !frame.Array? {
        return Failure(ProtocolError(ExpectedArray(frame)));
      }
      var p := new Parser.Over(frame.elements);
      return Success(p);
    }

    /** `next`: the next element, or `EndOfStream`. */
    method Next() returns (r: Result<Frame, ParserError>)
      modifies this
      ensures |old(parts)| == 0 ==> r == Failure(EndOfStream) && parts == old(parts)
      ensures |old(parts)| > 0 ==> r == Success(old(parts)[0]) && parts == old(parts)[1..]
    {
      if |parts| == 0 {
        return Failure(EndOfStream);
      }
      r := Success(parts[0]);
      parts := parts[1..];
    }

    /** `next_string`. */
    method NextString() returns (r: Result<Bytes, ParserError>)
      modifies this
      ensures r == TakeString(old(parts)).result && parts == TakeString(old(parts)).rest
    {
      var frame :- Next();
      r := StringOf(frame);
    }

    /** `next_bytes`. */
    method NextBytes() returns (r: Result<Bytes, ParserError>)
      modifies this
      ensures r == TakeBytes(old(parts)).result && parts == TakeBytes(old(parts)).rest
    {
      var frame :- Next();
      r := BytesOf(frame);
    }

    /** `next_int`. */
    method NextInt() returns (r: Result<U64, ParserError>)
      modifies this
      ensures r == TakeInt(old(parts)).result && parts == TakeInt(old(parts)).rest
    {
      var frame :- Next();
      r := IntOf(frame);
    }

    /** `finish`. */
    method Finish() returns (r: Result<(), ParserError>)
      modifies this
      ensures r == Finished(old(parts)).result && parts == Finished(old(parts)).rest
    {
      var next := Next();
      r := if next.Success? then Failure(ProtocolError(ExpectedEnd)) else Success(());
    }
  }
}
