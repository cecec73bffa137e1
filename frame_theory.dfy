/** What the frame reader of `src/frame.rs` guarantees, and where `check`
    and the parse disagree.

    `Check` tells "need more bytes" apart from "not a frame": appending bytes
    never changes a result other than `Incomplete`, and cutting a complete
    frame short always gives `Incomplete`. The corrected check
    (`Check(buf, pos, true)`) is the one the parse can rely on: whenever it
    succeeds the parse does not panic, consumes exactly the checked bytes,
    and yields a well-formed frame. The check as written
    (`Check(buf, pos, false)`) accepts two inputs on which it and the parse
    part ways. */
module FrameTheory {
  import opened Wrappers
  import opened Bytes
  import opened Decimal
  import opened Frames

  // ---------------------------------------------------------------------
  // Lines

  lemma FindCrlfIs(buf: Bytes, from: nat, i: nat)
    requires from <= i && CrlfAt(buf, i)
    requires forall j :: from <= j < i ==> !CrlfAt(buf, j)
    ensures FindCrlf(buf, from) == Some(i)
  {
    FindCrlfSpec(buf, from);
  }

  /** A line found in a buffer is found again, unchanged, once more bytes
      arrive. */
  lemma GetLineExtend(buf: Bytes, more: Bytes, pos: nat)
    requires 0 < |buf| && pos <= |buf| && GetLine(buf, pos).Success?
    ensures GetLine(buf + more, pos) == GetLine(buf, pos)
  {
    GetLineSpec(buf, pos);
    var (line, next) := GetLine(buf, pos).value;
    var i := pos + |line|;
    var all := buf + more;
    assert CrlfAt(all, i) by { assert CrlfAt(buf, i); }
    forall j | pos <= j < i ensures !CrlfAt(all, j) {
      assert !CrlfAt(buf, j);
    }
    FindCrlfIs(all, pos, i);
    assert all[pos..i] == buf[pos..i];
  }

  /** Cutting a buffer inside a line (or its "\r\n") loses the line; cutting
      it after the line keeps it. */
  lemma GetLinePrefix(buf: Bytes, pos: nat, k: nat)
    requires 0 < k && pos <= k <= |buf| && GetLine(buf, pos).Success?
    ensures GetLine(buf[..k], pos) ==
      if k < GetLine(buf, pos).value.1 then Failure(Incomplete) else GetLine(buf, pos)
  {
    GetLineSpec(buf, pos);
    var (line, next) := GetLine(buf, pos).value;
    var i := pos + |line|;
    var cut := buf[..k];
    if k < next {
      forall j | pos <= j ensures !CrlfAt(cut, j) {
        if j + 1 < k {
          assert !CrlfAt(buf, j) && cut[j] == buf[j] && cut[j + 1] == buf[j + 1];
        }
      }
      GetLineSpec(cut, pos);
    } else {
      assert CrlfAt(cut, i) by { assert CrlfAt(buf, i); }
      forall j | pos <= j < i ensures !CrlfAt(cut, j) {
        assert !CrlfAt(buf, j);
      }
      FindCrlfIs(cut, pos, i);
      assert cut[pos..i] == buf[pos..i];
    }
  }

  // ---------------------------------------------------------------------
  // Only Incomplete depends on bytes not yet received

  lemma CheckHeadExtend(buf: Bytes, more: Bytes, pos: nat, strict: bool)
    requires pos <= |buf| && CheckHead(buf, pos, strict) != Failure(Incomplete)
    ensures CheckHead(buf + more, pos, strict) == CheckHead(buf, pos, strict)
  {
    assert pos < |buf|;
    var b := buf[pos];
    if b == DOLLAR {
      if buf[pos + 1] == MINUS {
        NullHeadExtend(buf, more, pos, strict);
      } else {
        BulkHeadExtend(buf, more, pos, strict);
      }
    } else if IsTypeByte(b) {
      LineHeadExtend(buf, more, pos, strict);
    }
  }

  lemma LineHeadExtend(buf: Bytes, more: Bytes, pos: nat, strict: bool)
    requires pos < |buf| && CheckHead(buf, pos, strict) != Failure(Incomplete)
    requires buf[pos] in {PLUS, MINUS, COLON, STAR}
    ensures CheckHead(buf + more, pos, strict) == CheckHead(buf, pos, strict)
  {
    assert (buf + more)[pos] == buf[pos];
    GetLineExtend(buf, more, pos + 1);
  }

  lemma NullHeadExtend(buf: Bytes, more: Bytes, pos: nat, strict: bool)
    requires pos + 1 < |buf| && CheckHead(buf, pos, strict) != Failure(Incomplete)
    requires buf[pos] == DOLLAR && buf[pos + 1] == MINUS
    ensures CheckHead(buf + more, pos, strict) == CheckHead(buf, pos, strict)
  {
    var all := buf + more;
    assert all[pos] == buf[pos] && all[pos + 1] == buf[pos + 1];
    assert NullAt(all, pos + 1) == NullAt(buf, pos + 1);
  }

  lemma BulkHeadExtend(buf: Bytes, more: Bytes, pos: nat, strict: bool)
    requires pos + 1 < |buf| && CheckHead(buf, pos, strict) != Failure(Incomplete)
    requires buf[pos] == DOLLAR && buf[pos + 1] != MINUS
    ensures CheckHead(buf + more, pos, strict) == CheckHead(buf, pos, strict)
  {
    var all := buf + more;
    assert all[pos] == buf[pos] && all[pos + 1] == buf[pos + 1];
    GetLineExtend(buf, more, pos + 1);
  }

  /** A frame `check` accepts or rejects as malformed stays accepted (with
      the same length) or rejected when more bytes are appended: only
      `Incomplete` can change. */
  lemma {:induction false} CheckExtend(buf: Bytes, more: Bytes, pos: nat, strict: bool)
    requires pos <= |buf| && Check(buf, pos, strict) != Failure(Incomplete)
    ensures Check(buf + more, pos, strict) == Check(buf, pos, strict)
    decreases |buf| - pos, 0
  {
    CheckHeadExtend(buf, more, pos, strict);
    var h := CheckHead(buf, pos, strict);
    if h.Success? && h.value.Elements? {
      CheckNExtend(buf, more, h.value.next, h.value.count, strict);
    }
  }

  lemma {:induction false} CheckNExtend(buf: Bytes, more: Bytes, pos: nat, count: nat, strict: bool)
    requires pos <= |buf| && CheckN(buf, pos, count, strict) != Failure(Incomplete)
    ensures CheckN(buf + more, pos, count, strict) == CheckN(buf, pos, count, strict)
    decreases |buf| - pos, 1
  {
    if count > 0 {
      CheckExtend(buf, more, pos, strict);
      if Check(buf, pos, strict).Success? {
        CheckNExtend(buf, more, Check(buf, pos, strict).value, count - 1, strict);
      }
    }
  }

  lemma CheckHeadPrefix(buf: Bytes, pos: nat, k: nat, strict: bool)
    requires pos <= k <= |buf| && CheckHead(buf, pos, strict).Success?
    ensures CheckHead(buf[..k], pos, strict) ==
      if k < CheckHead(buf, pos, strict).value.next then Failure(Incomplete) else CheckHead(buf, pos, strict)
  {
    if k > pos + 1 {
      var b := buf[pos];
      if b == DOLLAR {
        if buf[pos + 1] == MINUS {
          NullHeadPrefix(buf, pos, k, strict);
        } else {
          BulkHeadPrefix(buf, pos, k, strict);
        }
      } else {
        LineHeadPrefix(buf, pos, k, strict);
      }
    }
  }

  lemma LineHeadPrefix(buf: Bytes, pos: nat, k: nat, strict: bool)
    requires pos + 1 < k <= |buf| && CheckHead(buf, pos, strict).Success?
    requires buf[pos] in {PLUS, MINUS, COLON, STAR}
    ensures CheckHead(buf[..k], pos, strict) ==
      if k < CheckHead(buf, pos, strict).value.next then Failure(Incomplete) else CheckHead(buf, pos, strict)
  {
    assert buf[..k][pos] == buf[pos];
    GetLinePrefix(buf, pos + 1, k);
  }

  lemma NullHeadPrefix(buf: Bytes, pos: nat, k: nat, strict: bool)
    requires pos + 1 < k <= |buf| && CheckHead(buf, pos, strict).Success?
    requires buf[pos] == DOLLAR && buf[pos + 1] == MINUS
    ensures CheckHead(buf[..k], pos, strict) ==
      if k < CheckHead(buf, pos, strict).value.next then Failure(Incomplete) else CheckHead(buf, pos, strict)
  {
    var cut := buf[..k];
    assert cut[pos] == buf[pos] && cut[pos + 1] == buf[pos + 1];
    assert pos + 5 <= k ==> NullAt(cut, pos + 1) == NullAt(buf, pos + 1);
  }

  lemma BulkHeadPrefix(buf: Bytes, pos: nat, k: nat, strict: bool)
    requires pos + 1 < k <= |buf| && CheckHead(buf, pos, strict).Success?
    requires buf[pos] == DOLLAR && buf[pos + 1] != MINUS
    ensures CheckHead(buf[..k], pos, strict) ==
      if k < CheckHead(buf, pos, strict).value.next then Failure(Incomplete) else CheckHead(buf, pos, strict)
  {
    var cut := buf[..k];
    assert cut[pos] == buf[pos] && cut[pos + 1] == buf[pos + 1];
    GetLinePrefix(buf, pos + 1, k);
  }

  /** Running out of bytes anywhere inside a frame the check accepts yields
      `Incomplete`, never a protocol error; a buffer that holds the whole
      frame gives the same length as the full buffer. */
  lemma {:induction false} CheckPrefix(buf: Bytes, pos: nat, k: nat, strict: bool)
    requires pos <= k <= |buf| && Check(buf, pos, strict).Success?
    ensures Check(buf[..k], pos, strict) ==
      if k < Check(buf, pos, strict).value then Failure(Incomplete) else Check(buf, pos, strict)
    decreases |buf| - pos, 0
  {
    CheckHeadPrefix(buf, pos, k, strict);
    var h := CheckHead(buf, pos, strict).value;
    if h.Elements? && h.next <= k {
      CheckNPrefix(buf, h.next, h.count, k, strict);
    }
  }

  lemma {:induction false} CheckNPrefix(buf: Bytes, pos: nat, count: nat, k: nat, strict: bool)
    requires pos <= k <= |buf| && CheckN(buf, pos, count, strict).Success?
    ensures CheckN(buf[..k], pos, count, strict) ==
      if k < CheckN(buf, pos, count, strict).value then Failure(Incomplete) else CheckN(buf, pos, count, strict)
    decreases |buf| - pos, 1
  {
    if count > 0 {
      CheckPrefix(buf, pos, k, strict);
      var next := Check(buf, pos, strict).value;
      assert CheckN(buf, pos, count, strict) == CheckN(buf, next, count - 1, strict);
      if next <= k {
        CheckNPrefix(buf, next, count - 1, k, strict);
        assert CheckN(buf[..k], pos, count, strict) == CheckN(buf[..k], next, count - 1, strict);
      } else {
        assert CheckN(buf[..k], pos, count, strict) == Failure(Incomplete);
      }
    }
  }

  // ---------------------------------------------------------------------
  // The corrected check, and its agreement with the parse

  lemma CheckHeadStrictIsCheckHead(buf: Bytes, pos: nat)
    requires pos <= |buf| && CheckHead(buf, pos, true).Success?
    ensures CheckHead(buf, pos, false) == CheckHead(buf, pos, true)
  {
  }

  /** The corrected check only narrows `check`: what it accepts, `check`
      accepts with the same length. */
  lemma {:induction false} StrictCheckIsCheck(buf: Bytes, pos: nat)
    requires pos <= |buf| && Check(buf, pos, true).Success?
    ensures Check(buf, pos, false) == Check(buf, pos, true)
    decreases |buf| - pos, 0
  {
    CheckHeadStrictIsCheckHead(buf, pos);
    var h := CheckHead(buf, pos, true).value;
    if h.Elements? {
      StrictCheckNIsCheckN(buf, h.next, h.count);
    }
  }

  lemma {:induction false} StrictCheckNIsCheckN(buf: Bytes, pos: nat, count: nat)
    requires pos <= |buf| && CheckN(buf, pos, count, true).Success?
    ensures CheckN(buf, pos, count, false) == CheckN(buf, pos, count, true)
    decreases |buf| - pos, 1
  {
    if count > 0 {
      StrictCheckIsCheck(buf, pos);
      StrictCheckNIsCheckN(buf, Check(buf, pos, true).value, count - 1);
    }
  }

  /** "$-1\r\n" is read as a null by the parse, which stops at its "\r\n". */
  lemma NullLine(buf: Bytes, p: nat)
    requires NullAt(buf, p)
    ensures GetLine(buf, p) == Success((buf[p..p + 2], p + 4))
  {
    FindCrlfIs(buf, p, p + 2);
  }

  /** Where the corrected check reads a whole frame, the parse builds one
      with valid UTF-8 strings ending at the same byte; where it reads an
      Array header, the parse reads the same count. */
  lemma HeadsAgree(buf: Bytes, pos: nat)
    requires pos <= |buf| && CheckHead(buf, pos, true).Success?
    ensures ParseHead(buf, pos).Some?
    ensures CheckHead(buf, pos, true).value.Done? ==>
      ParseHead(buf, pos).value.Whole? &&
      ParseHead(buf, pos).value.next == CheckHead(buf, pos, true).value.next &&
      WellFormed(ParseHead(buf, pos).value.frame)
    ensures CheckHead(buf, pos, true).value.Elements? ==>
      ParseHead(buf, pos).value == ArrayOf(CheckHead(buf, pos, true).value.count, CheckHead(buf, pos, true).value.next)
  {
    var b, p := buf[pos], pos + 1;
    if b == DOLLAR && buf[p] == MINUS {
      NullLine(buf, p);
    }
  }

  /** Whenever the corrected check accepts a frame, the parse does not panic,
      consumes exactly the bytes the check advanced over, and produces a
      frame whose strings are valid UTF-8. */
  lemma {:induction false} StrictCheckAgreesWithParse(buf: Bytes, pos: nat)
    requires pos <= |buf| && Check(buf, pos, true).Success?
    ensures Parse(buf, pos).Some?
    ensures Parse(buf, pos).value.1 == Check(buf, pos, true).value
    ensures WellFormed(Parse(buf, pos).value.0)
    decreases |buf| - pos, 0
  {
    HeadsAgree(buf, pos);
    var h := CheckHead(buf, pos, true).value;
    if h.Elements? {
      StrictCheckAgreesWithParseN(buf, h.next, h.count);
    }
  }

  lemma {:induction false} StrictCheckAgreesWithParseN(buf: Bytes, pos: nat, count: nat)
    requires pos <= |buf| && CheckN(buf, pos, count, true).Success?
    ensures ParseN(buf, pos, count).Some?
    ensures ParseN(buf, pos, count).value.1 == CheckN(buf, pos, count, true).value
    ensures forall i :: 0 <= i < count ==> WellFormed(ParseN(buf, pos, count).value.0[i])
    decreases |buf| - pos, 1
  {
    if count > 0 {
      StrictCheckAgreesWithParse(buf, pos);
      StrictCheckAgreesWithParseN(buf, Check(buf, pos, true).value, count - 1);
    }
  }

  /** A bulk header "$<len>\r\n" followed by `len` bytes and "\r\n"
      (the last two bytes are skipped, not checked). */
  lemma BulkHeadIs(buf: Bytes, pos: nat, strict: bool, len: nat, start: nat, end: nat)
    requires pos + 1 < |buf| && buf[pos] == DOLLAR && buf[pos + 1] != MINUS
    requires GetDecimal(buf, pos + 1) == Success((len, start))
    requires end == start + len + 2 <= |buf|
    ensures CheckHead(buf, pos, strict) == Success(Done(end))
    ensures ParseHead(buf, pos) == Some(Whole(Bulk(buf[start..start + len]), end))
  {
  }

  /** An Array header "*<count>\r\n": the elements start after it. */
  lemma ArrayHeadIs(buf: Bytes, pos: nat, strict: bool, count: nat, next: nat)
    requires pos < |buf| && buf[pos] == STAR
    requires GetDecimal(buf, pos + 1) == Success((count, next))
    ensures CheckHead(buf, pos, strict) == Success(Elements(count, next))
    ensures ParseHead(buf, pos) == Some(ArrayOf(count, next))
  {
  }

  /** A checked frame followed by `count - 1` checked frames is `count`
      checked frames. */
  lemma CheckNCons(buf: Bytes, pos: nat, count: nat, strict: bool, next: nat, end: nat)
    requires pos <= |buf| && count > 0 && Check(buf, pos, strict) == Success(next)
    requires CheckN(buf, next, count - 1, strict) == Success(end)
    ensures CheckN(buf, pos, count, strict) == Success(end)
  {
  }

  /** An Array header followed by its checked elements is a checked
      frame. */
  lemma CheckArray(buf: Bytes, pos: nat, strict: bool, count: nat, next: nat, end: nat)
    requires pos <= |buf| && CheckHead(buf, pos, strict) == Success(Elements(count, next))
    requires CheckN(buf, next, count, strict) == Success(end)
    ensures Check(buf, pos, strict) == Success(end)
  {
  }

  /** An Array header followed by its parsed elements parses as that
      Array. */
  lemma ParseArray(buf: Bytes, pos: nat, count: nat, next: nat, es: seq<Frame>, end: nat)
    requires pos <= |buf| && ParseHead(buf, pos) == Some(ArrayOf(count, next))
    requires ParseN(buf, next, count) == Some((es, end))
    ensures Parse(buf, pos) == Some((Array(es), end))
  {
  }

  /** A frame ending at `next` followed by the remaining frames of a
      sequence parses as the whole sequence. */
  lemma ParseNCons(buf: Bytes, pos: nat, fs: seq<Frame>, next: nat, end: nat)
    requires pos <= |buf| && |fs| > 0 && Parse(buf, pos) == Some((fs[0], next))
    requires ParseN(buf, next, |fs| - 1) == Some((fs[1..], end))
    ensures ParseN(buf, pos, |fs|) == Some((fs, end))
  {
    assert [fs[0]] + fs[1..] == fs;
  }

  lemma ParseHeadExtend(buf: Bytes, more: Bytes, pos: nat)
    requires pos <= |buf| && CheckHead(buf, pos, true).Success?
    ensures ParseHead(buf + more, pos) == ParseHead(buf, pos)
  {
    var all := buf + more;
    var b, p := buf[pos], pos + 1;
    assert all[pos] == b;
    if b == DOLLAR {
      assert all[p] == buf[p];
      if buf[p] == MINUS {
        NullLine(buf, p);
      } else {
        var (len, next) := GetDecimal(buf, p).value;
        assert all[next..next + len] == buf[next..next + len];
      }
    }
    GetLineExtend(buf, more, p);
  }

  /** The parse of a checked frame looks at none of the bytes after it: more
      bytes in the buffer do not change the frame or its length. */
  lemma {:induction false} ParseExtend(buf: Bytes, more: Bytes, pos: nat)
    requires pos <= |buf| && Check(buf, pos, true).Success?
    ensures Parse(buf + more, pos) == Parse(buf, pos)
    decreases |buf| - pos, 0
  {
    ParseHeadExtend(buf, more, pos);
    var h := CheckHead(buf, pos, true).value;
    if h.Elements? {
      HeadsAgree(buf, pos);
      ParseNExtend(buf, more, h.next, h.count);
    }
  }

  lemma {:induction false} ParseNExtend(buf: Bytes, more: Bytes, pos: nat, count: nat)
    requires pos <= |buf| && CheckN(buf, pos, count, true).Success?
    ensures ParseN(buf + more, pos, count) == ParseN(buf, pos, count)
    decreases |buf| - pos, 1
  {
    if count > 0 {
      ParseExtend(buf, more, pos);
      StrictCheckAgreesWithParse(buf, pos);
      ParseNExtend(buf, more, Check(buf, pos, true).value, count - 1);
    }
  }

  // ---------------------------------------------------------------------
  // Where `check` as written and the parse disagree

  /** `check` accepts a Simple line that is not UTF-8, on which the parse's
      `String::from_utf8(line).unwrap()` panics; the corrected check reports
      the protocol error instead. */
  lemma CheckPassesNonUtf8Line()
    ensures var buf: Bytes := [PLUS, 0xFF, CR, LF];
      Check(buf, 0, false) == Success(4) && Parse(buf, 0).None? &&
      Check(buf, 0, true) == Failure(Other(InvalidFormat()))
  {
    var buf: Bytes := [PLUS, 0xFF, CR, LF];
    FindCrlfIs(buf, 1, 2);
    assert buf[1..2] == [0xFF];
    assert Utf8SequenceLength([0xFF]) == 0;
  }

  /** `check` skips four bytes after "$-" while the parse reads up to the
      next "\r\n": on "$-12\r\n" the check ends at byte 5 and the parse at
      byte 6, so `parse_frame` leaves a stray "\n" in the buffer. The
      corrected check rejects the frame. */
  lemma CheckMisreadsNull()
    ensures var buf: Bytes := [DOLLAR, MINUS, '1' as byte, '2' as byte, CR, LF];
      Check(buf, 0, false) == Success(5) && Parse(buf, 0) == Some((Null, 6)) &&
      Check(buf, 0, true) == Failure(Other(InvalidFormat()))
  {
    var buf: Bytes := [DOLLAR, MINUS, '1' as byte, '2' as byte, CR, LF];
    FindCrlfIs(buf, 1, 4);
  }
}
