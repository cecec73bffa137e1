/** Bytes and text. Rust `Bytes` and `&[u8]` are sequences of bytes; a Rust
    `String` is a byte sequence that is well-formed UTF-8, so the model keeps
    every string as its UTF-8 bytes and states well-formedness with
    `ValidUtf8` where `String::from_utf8` would check it. */
module Bytes {

  newtype byte = x: int | 0 <= x < 256

  type Bytes = seq<byte>

  const CR: byte := 13
  const LF: byte := 10

  /** The bytes of an ASCII literal (every character of the literals used by
      the server is below 128, where this is the identity). */
  function Ascii(s: string): Bytes {
    seq(|s|, i requires 0 <= i < |s| => (s[i] as int % 128) as byte)
  }

  predicate IsAscii(s: Bytes) {
    forall i :: 0 <= i < |s| ==> s[i] < 128
  }

  predicate IsDigit(b: byte) {
    '0' as byte <= b <= '9' as byte
  }

  predicate IsUpper(b: byte) {
    'A' as byte <= b <= 'Z' as byte
  }

  predicate IsLower(b: byte) {
    'a' as byte <= b <= 'z' as byte
  }

  function LowerByte(b: byte): byte {
    if IsUpper(b) then b + 32 else b
  }

  function UpperByte(b: byte): byte {
    if IsLower(b) then b - 32 else b
  }

  /** `str::to_lowercase` on the ASCII letters. */
  function ToLower(s: Bytes): (r: Bytes)
    ensures |r| == |s|
    ensures forall i :: 0 <= i < |s| ==> r[i] == LowerByte(s[i])
  {
    seq(|s|, i requires 0 <= i < |s| => LowerByte(s[i]))
  }

  /** `str::to_uppercase` on the ASCII letters. */
  function ToUpper(s: Bytes): (r: Bytes)
    ensures |r| == |s|
    ensures forall i :: 0 <= i < |s| ==> r[i] == UpperByte(s[i])
  {
    seq(|s|, i requires 0 <= i < |s| => UpperByte(s[i]))
  }

  /** Two byte strings that are equal up to the case of ASCII letters. */
  predicate SameIgnoringCase(a: Bytes, b: Bytes) {
    |a| == |b| && forall i :: 0 <= i < |a| ==> LowerByte(a[i]) == LowerByte(b[i])
  }

  /** A lower-cased name equals a lower-case word exactly when the name is that
      word in some mixture of cases: this is what makes verb matching
      case-insensitive. */
  lemma ToLowerMatches(s: Bytes, word: Bytes)
    requires ToLower(word) == word
    ensures ToLower(s) == word <==> SameIgnoringCase(s, word)
  {
    if SameIgnoringCase(s, word) {
      forall i | 0 <= i < |s| ensures ToLower(s)[i] == word[i] {
        assert ToLower(word)[i] == LowerByte(word[i]);
      }
    }
  }

  // ---------------------------------------------------------------------
  // UTF-8 well-formedness, after the table of well-formed byte sequences in
  // section 3.9 of the Unicode Standard (Table 3-7), as `String::from_utf8`
  // checks it.

  predicate IsContinuation(b: byte) {
    0x80 <= b <= 0xBF
  }

  /** The length of the well-formed UTF-8 sequence at the start of `s`, or 0
      when `s` does not start with one. */
  function Utf8SequenceLength(s: Bytes): (n: nat)
    ensures n <= |s| && n <= 4
    ensures |s| > 0 && s[0] < 0x80 ==> n == 1
  {
    if |s| == 0 then 0
    else
      var b0 := s[0];
      if b0 < 0x80 then 1
      else if 0xC2 <= b0 <= 0xDF then
        if |s| >= 2 && IsContinuation(s[1]) then 2 else 0
      else if 0xE0 <= b0 <= 0xEF then
        var lo: byte := if b0 == 0xE0 then 0xA0 else 0x80;
        var hi: byte := if b0 == 0xED then 0x9F else 0xBF;
        if |s| >= 3 && lo <= s[1] <= hi && IsContinuation(s[2]) then 3 else 0
      else if 0xF0 <= b0 <= 0xF4 then
        var lo: byte := if b0 == 0xF0 then 0x90 else 0x80;
        var hi: byte := if b0 == 0xF4 then 0x8F else 0xBF;
        if |s| >= 4 && lo <= s[1] <= hi && IsContinuation(s[2]) && IsContinuation(s[3]) then 4 else 0
      else 0
  }

  predicate ValidUtf8(s: Bytes)
    decreases |s|
  {
    |s| == 0 || (Utf8SequenceLength(s) > 0 && ValidUtf8(s[Utf8SequenceLength(s)..]))
  }

  /** Only the first bytes, as many as the sequence takes, decide its
      length. */
  lemma Utf8SequenceOfPrefix(a: Bytes, b: Bytes)
    requires Utf8SequenceLength(a) > 0
    ensures Utf8SequenceLength(a + b) == Utf8SequenceLength(a)
  {
    var n := Utf8SequenceLength(a);
    assert forall i :: 0 <= i < |a| ==> (a + b)[i] == a[i];
  }

  /** Well-formed UTF-8 texts put together stay well-formed. */
  lemma {:induction false} Utf8Concat(a: Bytes, b: Bytes)
    requires ValidUtf8(a) && ValidUtf8(b)
    ensures ValidUtf8(a + b)
    decreases |a|
  {
    if |a| == 0 {
      assert a + b == b;
    } else {
      var n := Utf8SequenceLength(a);
      Utf8SequenceOfPrefix(a, b);
      assert (a + b)[n..] == a[n..] + b;
      Utf8Concat(a[n..], b);
    }
  }

  /** ASCII text is well-formed UTF-8: the command names and replies the server
      writes pass `String::from_utf8`. */
  lemma {:induction false} AsciiIsUtf8(s: Bytes)
    requires IsAscii(s)
    ensures ValidUtf8(s)
    decreases |s|
  {
    if |s| > 0 {
      assert IsAscii(s[1..]);
      AsciiIsUtf8(s[1..]);
    }
  }

  lemma AsciiLiteral(s: string)
    requires forall i :: 0 <= i < |s| ==> s[i] as int < 128
    ensures IsAscii(Ascii(s)) && ValidUtf8(Ascii(s))
  {
    AsciiIsUtf8(Ascii(s));
  }
}
