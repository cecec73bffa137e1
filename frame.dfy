/** RESP2 frames and the frame reader of `src/frame.rs`.

    The reader works on a `Cursor<&[u8]>`: a byte buffer and a position that
    every step advances. Here the position is threaded explicitly: each
    cursor operation takes the buffer and the current position and returns
    the new position with its result. `Check` is the completeness check
    (`Frame::check`) and `Parse` the allocation of the frame
    (`From<&mut Cursor>`). */
module Frames {
  import opened Wrappers
  import opened Bytes
  import opened Decimal

  /** A frame of the Redis serialization protocol. `Simple` and `Error` hold
      the UTF-8 bytes of a Rust `String`. */
  datatype Frame =
    | Simple(text: Bytes)
    | Error(message: Bytes)
    | Integer(number: U64)
    | Bulk(data: Bytes)
    | Null
    | Array(elements: seq<Frame>)

  /** The cursor operations fail with `Incomplete` when the buffer ends too
      early and with `Other` when its bytes cannot be a frame. */
  datatype FrameError = Incomplete | Other(message: Bytes)

  const PLUS: byte := '+' as byte
  const MINUS: byte := '-' as byte
  const COLON: byte := ':' as byte
  const DOLLAR: byte := '$' as byte
  const STAR: byte := '*' as byte

  function InvalidFormat(): Bytes {
    Ascii("protocol error; invalid frame format")
  }

  function InvalidTypeByte(b: byte): Bytes {
    Ascii("protocol error; invalid frame type byte `") + DigitsOf(b as nat) + Ascii("`")
  }

  predicate IsTypeByte(b: byte) {
    b == PLUS || b == MINUS || b == COLON || b == DOLLAR || b == STAR
  }

  /** A frame whose strings are Rust `String`s: well-formed UTF-8. */
  predicate WellFormed(f: Frame) {
    match f
    case Simple(s) => ValidUtf8(s)
    case Error(s) => ValidUtf8(s)
    case Array(elements) => forall i :: 0 <= i < |elements| ==> WellFormed(elements[i])
    case _ => true
  }

  // ---------------------------------------------------------------------
  // Building frames (the client side)

  /** `Frame::array`: an Array frame with no elements. */
  function EmptyArray(): (f: Frame)
    ensures f.Array? && |f.elements| == 0
  {
    Array([])
  }

  /** `push_bulk`: appends one Bulk frame to an Array. The Rust method panics
      on any other frame, hence the precondition. */
  function PushBulk(f: Frame, data: Bytes): (r: Frame)
    requires f.Array?
    ensures r.Array? && |r.elements| == |f.elements| + 1
    ensures r.elements[..|f.elements|] == f.elements
    ensures r.elements[|f.elements|] == Bulk(data)
  {
    Array(f.elements + [Bulk(data)])
  }

  /** `push_int`: appends one Integer frame to an Array; panics on any other
      frame, hence the precondition. */
  function PushInt(f: Frame, value: U64): (r: Frame)
    requires f.Array?
    ensures r.Array? && |r.elements| == |f.elements| + 1
    ensures r.elements[..|f.elements|] == f.elements
    ensures r.elements[|f.elements|] == Integer(value)
  {
    Array(f.elements + [Integer(value)])
  }

  /** `impl PartialEq<&str> for Frame`: only Simple and Bulk frames can equal
      a string, and then exactly when their bytes are the string's bytes. */
  function EqStr(f: Frame, s: Bytes): (r: bool)
    ensures r ==> f.Simple? || f.Bulk?
    ensures f.Simple? ==> (r <==> f.text == s)
    ensures f.Bulk? ==> (r <==> f.data == s)
  {
    match f
    case Simple(t) => t == s
    case Bulk(d) => d == s
    case _ => false
  }

  /** The elements a client sends for a list of names: one Bulk frame each. */
  function BulksOf(names: seq<Bytes>): (r: seq<Frame>)
    ensures |r| == |names|
    ensures forall i :: 0 <= i < |r| ==> r[i] == Bulk(names[i])
  {
    seq(|names|, i requires 0 <= i < |names| => Bulk(names[i]))
  }

  // ---------------------------------------------------------------------
  // Cursor operations

  /** `peek_u8`: the byte under the cursor, which does not move. */
  function PeekU8(buf: Bytes, pos: nat): (r: Result<byte, FrameError>)
    ensures r.Success? <==> pos < |buf|
    ensures r.Success? ==> r.value == buf[pos]
    ensures r.Failure? ==> r.error == Incomplete
  {
    if pos < |buf| then Success(buf[pos]) else Failure(Incomplete)
  }

  /** `get_u8`: the byte under the cursor; the cursor moves past it. */
  function GetU8(buf: Bytes, pos: nat): (r: Result<(byte, nat), FrameError>)
    ensures r.Success? <==> pos < |buf|
    ensures r.Success? ==> r.value == (buf[pos], pos + 1)
    ensures r.Failure? ==> r.error == Incomplete
  {
    if pos < |buf| then Success((buf[pos], pos + 1)) else Failure(Incomplete)
  }

  /** `skip`: moves the cursor `n` bytes on, if that many remain. */
  function Skip(buf: Bytes, pos: nat, n: nat): (r: Result<nat, FrameError>)
    requires pos <= |buf|
    ensures r.Success? <==> pos + n <= |buf|
    ensures r.Success? ==> r.value == pos + n
    ensures r.Failure? ==> r.error == Incomplete
  {
    if |buf| - pos < n then Failure(Incomplete) else Success(pos + n)
  }

  /** A line terminator starts at `i`. */
  predicate CrlfAt(buf: Bytes, i: int) {
    0 <= i && i + 1 < |buf| && buf[i] == CR && buf[i + 1] == LF
  }

  /** The first index at or after `from` where "\r\n" starts, scanning up to
      the second-to-last byte as `get_line` does. `FindCrlfSpec` states that
      it is the first. */
  function FindCrlf(buf: Bytes, from: nat): (r: Option<nat>)
    ensures r.Some? ==> from <= r.value && r.value + 1 < |buf|
    decreases |buf| - from
  {
    if from + 1 >= |buf| then None
    else if buf[from] == CR && buf[from + 1] == LF then Some(from)
    else FindCrlf(buf, from + 1)
  }

  /** `get_line`: the bytes from the cursor up to the first "\r\n"; the
      cursor moves just past the "\n". With no "\r\n" ahead the result is
      `Incomplete`. The Rust code computes `len() - 1`, which underflows on an
      empty buffer; every caller has read a byte first, hence the
      precondition. `GetLineSpec` characterizes the result. */
  function GetLine(buf: Bytes, pos: nat): (r: Result<(Bytes, nat), FrameError>)
    requires 0 < |buf| && pos <= |buf|
    ensures r.Success? ==> r.value.1 == pos + |r.value.0| + 2 <= |buf|
    ensures r.Failure? ==> r.error == Incomplete
  {
    match FindCrlf(buf, pos)
    case None => Failure(Incomplete)
    case Some(i) => Success((buf[pos..i], i + 2))
  }

  /** `FindCrlf` finds the first "\r\n" at or after `from`, and finds
      nothing exactly when there is none. */
  lemma {:induction false} FindCrlfSpec(buf: Bytes, from: nat)
    ensures FindCrlf(buf, from).Some? ==>
      CrlfAt(buf, FindCrlf(buf, from).value) &&
      forall j :: from <= j < FindCrlf(buf, from).value ==> !CrlfAt(buf, j)
    ensures FindCrlf(buf, from).None? ==> forall j :: from <= j ==> !CrlfAt(buf, j)
    decreases |buf| - from
  {
    if from + 1 < |buf| && !(buf[from] == CR && buf[from + 1] == LF) {
      FindCrlfSpec(buf, from + 1);
    }
  }

  /** A line that `get_line` returns is the bytes up to the first "\r\n",
      and it returns `Incomplete` exactly when no "\r\n" follows the
      cursor. */
  lemma GetLineSpec(buf: Bytes, pos: nat)
    requires 0 < |buf| && pos <= |buf|
    ensures GetLine(buf, pos).Success? ==>
      var (line, next) := GetLine(buf, pos).value;
      line == buf[pos..pos + |line|] && CrlfAt(buf, pos + |line|) &&
      forall j :: pos <= j < pos + |line| ==> !CrlfAt(buf, j)
    ensures GetLine(buf, pos).Failure? <==> forall j :: pos <= j ==> !CrlfAt(buf, j)
  {
    FindCrlfSpec(buf, pos);
  }

  /** The scan inside `get_line` as the Rust code runs it: the indices from
      the cursor up to the second-to-last byte, in turn, until one starts
      "\r\n". It computes exactly `GetLine`. */
  method ScanLine(buf: Bytes, pos: nat) returns (r: Result<(Bytes, nat), FrameError>)
    requires 0 < |buf| && pos <= |buf|
    ensures r == GetLine(buf, pos)
  {
    var end := |buf| - 1;
    var i := pos;
    while i < end
      invariant pos <= i
      invariant FindCrlf(buf, pos) == FindCrlf(buf, i)
      decreases end - i
    {
      if buf[i] == CR && buf[i + 1] == LF {
        return Success((buf[pos..i], i + 2));
      }
      i := i + 1;
    }
    return Failure(Incomplete);
  }

  /** `get_decimal`: a line read as a `u64`. A complete line that is not a
      number is a protocol error, never `Incomplete`. */
  function GetDecimal(buf: Bytes, pos: nat): (r: Result<(U64, nat), FrameError>)
    requires 0 < |buf| && pos <= |buf|
    ensures r.Success? ==> GetLine(buf, pos).Success? && r.value.1 == GetLine(buf, pos).value.1
    ensures r.Failure? && r.error == Incomplete <==> GetLine(buf, pos).Failure?
  {
    match GetLine(buf, pos)
    case Failure(e) => Failure(e)
    case Success((line, next)) =>
      match Atoi(line)
      case None => Failure(Other(InvalidFormat()))
      case Some(n) => Success((n, next))
  }

  // ---------------------------------------------------------------------
  // Frame::check

  /** What the check learns from the bytes of one frame before any nested
      frame: either where the frame ends, or that it is an Array whose
      `count` elements start at `next`. */
  datatype Head = Done(next: nat) | Elements(count: nat, next: nat)

  /** The first step of `Frame::check` on the frame under the cursor.
      `strict` selects between the check as written (`false`) and the check
      the parse relies on (`true`), which in addition rejects a Simple or
      Error line that is not well-formed UTF-8 (the parse unwraps
      `String::from_utf8`) and a null bulk that is not exactly "-1\r\n" (the
      parse reads the null up to its "\r\n"). Both extra failures are
      `protocol error; invalid frame format`. As written, a null bulk is
      four bytes after the `$`, whatever they are, and a bulk string needs its
      length line and `len + 2` further bytes. */
  function CheckHead(buf: Bytes, pos: nat, strict: bool): (r: Result<Head, FrameError>)
    requires pos <= |buf|
    ensures r.Success? ==> pos < r.value.next <= |buf|
    ensures pos == |buf| ==> r == Failure(Incomplete)
    ensures pos < |buf| && !IsTypeByte(buf[pos]) ==> r == Failure(Other(InvalidTypeByte(buf[pos])))
    ensures r.Success? && r.value.Elements? ==> buf[pos] == STAR
  {
    match GetU8(buf, pos)
    case Failure(e) => Failure(e)
    case Success((b, p)) =>
      if b == PLUS || b == MINUS then
        match GetLine(buf, p)
        case Failure(e) => Failure(e)
        case Success((line, next)) =>
          if strict && !ValidUtf8(line) then Failure(Other(InvalidFormat())) else Success(Done(next))
      else if b == COLON then
        match GetDecimal(buf, p)
        case Failure(e) => Failure(e)
        case Success((_, next)) => Success(Done(next))
      else if b == DOLLAR then
        match PeekU8(buf, p)
        case Failure(e) => Failure(e)
        case Success(c) =>
          if c == MINUS then
            match Skip(buf, p, 4)
            case Failure(e) => Failure(e)
            case Success(next) =>
              if strict && !NullAt(buf, p) then Failure(Other(InvalidFormat())) else Success(Done(next))
          else
            match GetDecimal(buf, p)
            case Failure(e) => Failure(e)
            case Success((len, next)) =>
              match Skip(buf, next, len + 2)
              case Failure(e) => Failure(e)
              case Success(end) => Success(Done(end))
      else if b == STAR then
        match GetDecimal(buf, p)
        case Failure(e) => Failure(e)
        case Success((count, next)) => Success(Elements(count, next))
      else Failure(Other(InvalidTypeByte(b)))
  }

  /** The four bytes "-1\r\n" of a null bulk start at `p`. */
  predicate NullAt(buf: Bytes, p: int) {
    0 <= p && p + 4 <= |buf| &&
    buf[p] == MINUS && buf[p + 1] == '1' as byte && buf[p + 2] == CR && buf[p + 3] == LF
  }

  /** `Frame::check`: advances over one complete frame without building it,
      giving the position just after it. `Check(buf, pos, false)` is the
      check as written; `Check(buf, pos, true)` the corrected one. */
  function Check(buf: Bytes, pos: nat, strict: bool): (r: Result<nat, FrameError>)
    requires pos <= |buf|
    ensures r.Success? ==> pos < r.value <= |buf|
    ensures pos == |buf| ==> r == Failure(Incomplete)
    ensures pos < |buf| && !IsTypeByte(buf[pos]) ==> r == Failure(Other(InvalidTypeByte(buf[pos])))
    decreases |buf| - pos, 0
  {
    match CheckHead(buf, pos, strict)
    case Failure(e) => Failure(e)
    case Success(Done(next)) => Success(next)
    case Success(Elements(count, next)) => CheckN(buf, next, count, strict)
  }

  /** `(0..count).try_for_each(|_| Frame::check(src))`: `count` frames, one
      after the other, stopping at the first error. */
  function CheckN(buf: Bytes, pos: nat, count: nat, strict: bool): (r: Result<nat, FrameError>)
    requires pos <= |buf|
    ensures r.Success? ==> pos <= r.value <= |buf|
    ensures r.Success? && count > 0 ==> pos < r.value
    decreases |buf| - pos, 1
  {
    if count == 0 then Success(pos)
    else
      match Check(buf, pos, strict)
      case Failure(e) => Failure(e)
      case Success(next) => CheckN(buf, next, count - 1, strict)
  }

  // ---------------------------------------------------------------------
  // From<&mut Cursor> for Frame, as written

  /** What the parse builds from the bytes of one frame before any nested
      frame: a whole frame ending at `next`, or the element count of an
      Array whose elements start at `next`. */
  datatype ParsedHead = Whole(frame: Frame, next: nat) | ArrayOf(count: nat, next: nat)

  /** The first step of the parse, which the Rust code runs only after
      `check` succeeded. Every `unwrap` that fails is a panic, modelled as
      `None`. A Simple or Error line must be UTF-8; a Bulk copies `len` bytes
      and then skips two more without looking at them; a null bulk reads up
      to the next "\r\n", ignoring a missing one. */
  function ParseHead(buf: Bytes, pos: nat): (r: Option<ParsedHead>)
    requires pos <= |buf|
    ensures r.Some? ==> pos < r.value.next <= |buf|
    ensures r.Some? && r.value.ArrayOf? ==> buf[pos] == STAR
  {
    if pos == |buf| then None
    else
      var b, p := buf[pos], pos + 1;
      if b == PLUS || b == MINUS then
        match GetLine(buf, p)
        case Failure(_) => None
        case Success((line, next)) =>
          if !ValidUtf8(line) then None
          else if b == PLUS then Some(Whole(Simple(line), next))
          else Some(Whole(Error(line), next))
      else if b == COLON then
        match GetDecimal(buf, p)
        case Failure(_) => None
        case Success((n, next)) => Some(Whole(Integer(n), next))
      else if b == DOLLAR then
        if p == |buf| then None
        else if buf[p] == MINUS then
          match GetLine(buf, p)
          case Failure(_) => Some(Whole(Null, p))
          case Success((_, next)) => Some(Whole(Null, next))
        else
          match GetDecimal(buf, p)
          case Failure(_) => None
          case Success((len, next)) =>
            if |buf| - next < len + 2 then None
            else Some(Whole(Bulk(buf[next..next + len]), next + len + 2))
      else if b == STAR then
        match GetDecimal(buf, p)
        case Failure(_) => None
        case Success((count, next)) => Some(ArrayOf(count, next))
      else None
  }

  /** The parse of one frame and the position just after it; `None` is a
      panic. */
  function Parse(buf: Bytes, pos: nat): (r: Option<(Frame, nat)>)
    requires pos <= |buf|
    ensures r.Some? ==> pos < r.value.1 <= |buf|
    decreases |buf| - pos, 0
  {
    match ParseHead(buf, pos)
    case None => None
    case Some(Whole(f, next)) => Some((f, next))
    case Some(ArrayOf(count, next)) =>
      match ParseN(buf, next, count)
      case None => None
      case Some((elements, end)) => Some((Array(elements), end))
  }

  /** `(0..len).map(|_| Frame::from(&mut *src)).collect()`: `count` frames in
      stream order. */
  function ParseN(buf: Bytes, pos: nat, count: nat): (r: Option<(seq<Frame>, nat)>)
    requires pos <= |buf|
    ensures r.Some? ==> |r.value.0| == count && pos <= r.value.1 <= |buf|
    decreases |buf| - pos, 1
  {
    if count == 0 then Some(([], pos))
    else
      match Parse(buf, pos)
      case None => None
      case Some((first, next)) =>
        match ParseN(buf, next, count - 1)
        case None => None
        case Some((rest, end)) => Some(([first] + rest, end))
  }
}
