/** A command the server does not know (`src/cmd/unknown.rs`). */
module CmdUnknown {
  import opened Wrappers
  import opened Bytes
  import opened Frames
  import opened Encoding
  import opened Connections

  datatype Unknown = Unknown(name: Bytes)

  /** `Unknown::get_name`: the name it was made with. */
  function GetName(u: Unknown): Bytes {
    u.name
  }

  /** The reply to an unknown command: always an Error frame,
      "ERR unknown command '<name>'". */
  function Response(u: Unknown): (f: Frame)
    ensures f.Error?
    ensures |f.message| == |u.name| + 22
    ensures f.message[..21] == Ascii("ERR unknown command '")
    ensures f.message[21..|f.message| - 1] == u.name
  {
    Error(Ascii("ERR unknown command '") + u.name + Ascii("'"))
  }

  /** The reply text has no line break when the name has none. */
  lemma ResponseHasNoCrlf(name: Bytes)
    requires NoCrlf(name)
    ensures NoCrlf(Ascii("ERR unknown command '") + name + Ascii("'"))
  {
    var prefix := Ascii("ERR unknown command '");
    var quote := Ascii("'");
    var m := prefix + name + quote;
    forall j | 0 <= j < |m| ensures !CrlfAt(m, j) {
      if j < 21 {
        assert m[j] == prefix[j];
      } else if j + 2 < |m| {
        assert m[j] == name[j - 21] && m[j + 1] == name[j - 20];
        assert !CrlfAt(name, j - 21);
      } else if j + 2 == |m| {
        assert m[j + 1] == quote[0];
      }
    }
  }

  /** The reply text is a Rust `String` when the name is one. */
  lemma ResponseIsUtf8(name: Bytes)
    requires ValidUtf8(name)
    ensures ValidUtf8(Ascii("ERR unknown command '") + name + Ascii("'"))
  {
    AsciiLiteral("ERR unknown command '");
    AsciiLiteral("'");
    QuotedIsUtf8(Ascii("ERR unknown command '"), name, Ascii("'"));
  }

  /** A well-formed text between two well-formed texts stays well-formed. */
  lemma QuotedIsUtf8(prefix: Bytes, name: Bytes, quote: Bytes)
    requires ValidUtf8(prefix) && ValidUtf8(name) && ValidUtf8(quote)
    ensures ValidUtf8(prefix + name + quote)
  {
    Utf8Concat(prefix, name);
    Utf8Concat(prefix + name, quote);
  }

  /** The client reads the error back with the name in it, whenever the
      name is a Rust `String` without a line break in it. */
  lemma ResponseReadsBack(u: Unknown)
    requires ValidUtf8(u.name) && NoCrlf(u.name)
    ensures Encodable(Response(u))
  {
    ResponseIsUtf8(u.name);
    ResponseHasNoCrlf(u.name);
  }

  /** `Unknown::apply`: writes the error reply. */
  method Apply(u: Unknown, dst: Connection)
    modifies dst`output
    ensures dst.output == old(dst.output) + WriteFrame(Response(u))
  {
    dst.WriteFrame(Response(u));
  }
}
