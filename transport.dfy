/** The text transport of the contents API, as `getFileContent` and
    `putFileContent` in docs/js/admin.js do it: a write sends the base 64 of
    the UTF-8 bytes of the text; a read removes the line breaks the API puts
    into its base 64, then decodes base 64, then UTF-8. */
module Transport {
  import opened Wrappers
  import Utf8
  import Base64

  /** `s.replace(/\n/g, '')`. */
  function StripNewlines(s: string): (t: string)
    ensures '\n' !in t && |t| <= |s|
    ensures '\n' !in s ==> t == s
  {
    if s == [] then []
    else if s[0] == '\n' then StripNewlines(s[1..])
    else [s[0]] + StripNewlines(s[1..])
  }

  lemma {:induction false} StripNewlinesConcat(a: string, b: string)
    ensures StripNewlines(a + b) == StripNewlines(a) + StripNewlines(b)
  {
    if a == [] {
      assert a + b == b;
    } else {
      assert (a + b)[0] == a[0] && (a + b)[1..] == a[1..] + b;
      StripNewlinesConcat(a[1..], b);
    }
  }

  /** The encoded text of a write: `btoa(unescape(encodeURIComponent(text)))`. */
  function EncodeContent(text: string): (encoded: string)
    ensures '\n' !in encoded && |encoded| % 4 == 0
  {
    Base64.EncodeLengthMultiple(Utf8.Encode(text));
    Base64.Encode(Utf8.Encode(text))
  }

  /** The text of a read: `decodeURIComponent(escape(atob(…)))` after the
      line breaks are removed; `None` where `atob` or `decodeURIComponent`
      would throw. */
  function DecodeContent(encoded: string): Option<string>
  {
    match Base64.Decode(StripNewlines(encoded))
    case None => None
    case Some(bytes) => Utf8.Decode(bytes)
  }

  /** Round trip: reading back what a write sends gives the written text. */
  lemma DecodeEncodeContent(text: string)
    ensures DecodeContent(EncodeContent(text)) == Some(text)
  {
    Base64.DecodeEncode(Utf8.Encode(text));
    Utf8.DecodeEncode(text);
  }

  /** A successful read returns text whose encoding is exactly the base 64
      that was read, once line breaks are removed. */
  lemma EncodeDecodeContent(encoded: string)
    requires DecodeContent(encoded).Some?
    ensures Utf8.Encode(DecodeContent(encoded).value) == Base64.Decode(StripNewlines(encoded)).value
  {
    Utf8.EncodeDecode(Base64.Decode(StripNewlines(encoded)).value, DecodeContent(encoded).value);
  }

  /** Base 64 broken into lines of `width` characters, as the contents API
      returns it. */
  function Wrap(s: string, width: nat): (t: string)
    requires width > 0
    decreases |s|
  {
    if |s| <= width then s else s[..width] + "\n" + Wrap(s[width..], width)
  }

  lemma StripBreak(line: string)
    requires '\n' !in line
    ensures StripNewlines(line + "\n") == line
  {
    StripNewlinesConcat(line, "\n");
    assert StripNewlines("\n") == StripNewlines([]);
  }

  lemma StripLine(line: string, rest: string)
    requires '\n' !in line
    ensures StripNewlines(line + "\n" + rest) == line + StripNewlines(rest)
  {
    StripNewlinesConcat(line + "\n", rest);
    StripBreak(line);
  }

  lemma {:induction false} StripWrap(s: string, width: nat)
    requires width > 0 && '\n' !in s
    ensures StripNewlines(Wrap(s, width)) == s
    decreases |s|
  {
    if |s| > width {
      var head, tail := s[..width], s[width..];
      assert s == head + tail;
      StripWrap(tail, width);
      StripLine(head, Wrap(tail, width));
    }
  }

  /** Line breaks in the base 64 do not change what a read returns. */
  lemma DecodeWrappedContent(text: string, width: nat)
    requires width > 0
    ensures DecodeContent(Wrap(EncodeContent(text), width)) == Some(text)
  {
    StripWrap(EncodeContent(text), width);
    DecodeEncodeContent(text);
  }

  /** Only the line breaks of a read are dropped: every other character is
      kept, and in its order, since stripping distributes over concatenation. */
  lemma StripNewlinesChar(c: char)
    ensures StripNewlines([c]) == if c == '\n' then [] else [c]
  {
    assert [c][1..] == [];
  }

  /** A read does not depend on where the line breaks of its base 64 fall. */
  lemma DecodeContentIgnoresNewlines(encoded: string)
    ensures DecodeContent(encoded) == DecodeContent(StripNewlines(encoded))
  {
  }
}
