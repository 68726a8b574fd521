/** Base 64 encoding as section 4 of RFC 4648 defines it: three bytes become
    four characters of a 64-character alphabet, and a final group of one or
    two bytes is padded with `=`. `btoa` encodes this way on a write and
    `atob` decodes on a read. */
module Base64 {
  import opened Wrappers
  import opened Utf8

  type sextet = x: int | 0 <= x < 64

  /** Character for a 6-bit value (Table 1 of RFC 4648). */
  function CharOf(x: sextet): (c: char)
    ensures c != '=' && c != '\n'
  {
    if x < 26 then ('A' as int + x) as char
    else if x < 52 then ('a' as int + (x - 26)) as char
    else if x < 62 then ('0' as int + (x - 52)) as char
    else if x == 62 then '+'
    else '/'
  }

  /** The 6-bit value of an alphabet character, or `None` for any other. */
  function ValueOf(c: char): (r: Option<sextet>)
    ensures r.Some? ==> CharOf(r.value) == c
  {
    if 'A' <= c <= 'Z' then Some(c as int - 'A' as int)
    else if 'a' <= c <= 'z' then Some(c as int - 'a' as int + 26)
    else if '0' <= c <= '9' then Some(c as int - '0' as int + 52)
    else if c == '+' then Some(62)
    else if c == '/' then Some(63)
    else None
  }

  lemma ValueOfCharOf(x: sextet)
    ensures ValueOf(CharOf(x)) == Some(x)
  {
  }

  /** Encodes a whole 24-bit group. */
  function EncodeGroup(b0: byte, b1: byte, b2: byte): string
  {
    var x0, x1, x2 := b0 as int, b1 as int, b2 as int;
    [CharOf(x0 / 4), CharOf(x0 % 4 * 16 + x1 / 16), CharOf(x1 % 16 * 4 + x2 / 64), CharOf(x2 % 64)]
  }

  /** A final group of one byte: two characters and two `=`. */
  function EncodeLastOne(b0: byte): string
  {
    var x0 := b0 as int;
    [CharOf(x0 / 4), CharOf(x0 % 4 * 16), '=', '=']
  }

  /** A final group of two bytes: three characters and one `=`. */
  function EncodeLastTwo(b0: byte, b1: byte): string
  {
    var x0, x1 := b0 as int, b1 as int;
    [CharOf(x0 / 4), CharOf(x0 % 4 * 16 + x1 / 16), CharOf(x1 % 16 * 4), '=']
  }

  function Encode(b: seq<byte>): (s: string)
    ensures '\n' !in s
    decreases |b|
  {
    if |b| == 0 then []
    else if |b| == 1 then EncodeLastOne(b[0])
    else if |b| == 2 then EncodeLastTwo(b[0], b[1])
    else EncodeGroup(b[0], b[1], b[2]) + Encode(b[3..])
  }

  lemma GroupsStep(n: int)
    requires n > 3
    ensures (n + 2) / 3 * 4 == 4 + (n - 3 + 2) / 3 * 4
  {
  }

  lemma EncodeLengthShort(b: seq<byte>)
    requires |b| <= 3
    ensures |Encode(b)| == (|b| + 2) / 3 * 4
  {
    if |b| == 3 {
      assert Encode(b) == EncodeGroup(b[0], b[1], b[2]) + Encode(b[3..]);
    }
  }

  /** Every started group of three bytes yields four characters. */
  lemma {:induction false} EncodeLength(b: seq<byte>)
    ensures |Encode(b)| == (|b| + 2) / 3 * 4
    decreases |b|
  {
    if |b| <= 3 {
      EncodeLengthShort(b);
    } else {
      EncodeFront(b);
      EncodeLength(b[3..]);
      GroupsStep(|b|);
    }
  }

  lemma EncodeLengthMultiple(b: seq<byte>)
    ensures |Encode(b)| % 4 == 0
  {
    EncodeLength(b);
    var k := (|b| + 2) / 3;
    assert |Encode(b)| == 4 * k;
  }

  /** The three bytes of a group, each from the 6-bit values it straddles. */
  function First(y0: sextet, y1: sextet): byte
  {
    (y0 as int * 4 + y1 as int / 16) as byte
  }

  function Second(y1: sextet, y2: sextet): byte
  {
    (y1 as int % 16 * 16 + y2 as int / 4) as byte
  }

  function Third(y2: sextet, y3: sextet): byte
  {
    (y2 as int % 4 * 64 + y3 as int) as byte
  }

  /** Decodes four characters none of which is padding. */
  function DecodeGroup(q: string): Option<seq<byte>>
    requires |q| == 4
  {
    match (ValueOf(q[0]), ValueOf(q[1]), ValueOf(q[2]), ValueOf(q[3]))
    case (Some(y0), Some(y1), Some(y2), Some(y3)) =>
      Some([First(y0, y1), Second(y1, y2), Third(y2, y3)])
    case _ => None
  }

  /** Decodes the last group, which may end in one or two padding characters;
      the bits that padding leaves over are ignored, as `atob` ignores them. */
  function DecodeLastGroup(q: string): Option<seq<byte>>
    requires |q| == 4
  {
    if q[2] == '=' && q[3] == '=' then
      match (ValueOf(q[0]), ValueOf(q[1]))
      case (Some(y0), Some(y1)) => Some([First(y0, y1)])
      case _ => None
    else if q[3] == '=' then
      match (ValueOf(q[0]), ValueOf(q[1]), ValueOf(q[2]))
      case (Some(y0), Some(y1), Some(y2)) =>
        Some([First(y0, y1), Second(y1, y2)])
      case _ => None
    else
      DecodeGroup(q)
  }

  /** The bytes a base 64 text stands for, or `None` when its length is not a
      multiple of four, a character is outside the alphabet, or padding
      appears anywhere but at the end. */
  function Decode(s: string): (r: Option<seq<byte>>)
    decreases |s|
  {
    if |s| == 0 then Some([])
    else if |s| < 4 then None
    else if |s| == 4 then DecodeLastGroup(s)
    else
      match DecodeGroup(s[..4])
      case None => None
      case Some(group) =>
        match Decode(s[4..])
        case None => None
        case Some(rest) => Some(group + rest)
  }

  lemma DecodeEncodeGroup(b0: byte, b1: byte, b2: byte)
    ensures DecodeGroup(EncodeGroup(b0, b1, b2)) == Some([b0, b1, b2])
  {
    var x0, x1, x2 := b0 as int, b1 as int, b2 as int;
    ValueOfCharOf(x0 / 4);
    ValueOfCharOf(x0 % 4 * 16 + x1 / 16);
    ValueOfCharOf(x1 % 16 * 4 + x2 / 64);
    ValueOfCharOf(x2 % 64);
    assert First(x0 / 4, x0 % 4 * 16 + x1 / 16) == b0;
    assert Second(x0 % 4 * 16 + x1 / 16, x1 % 16 * 4 + x2 / 64) == b1;
    assert Third(x1 % 16 * 4 + x2 / 64, x2 % 64) == b2;
  }

  lemma DecodeLastOne(b0: byte)
    ensures DecodeLastGroup(EncodeLastOne(b0)) == Some([b0])
  {
    var x0 := b0 as int;
    ValueOfCharOf(x0 / 4);
    ValueOfCharOf(x0 % 4 * 16);
    assert First(x0 / 4, x0 % 4 * 16) == b0;
  }

  lemma DecodeLastTwo(b0: byte, b1: byte)
    ensures DecodeLastGroup(EncodeLastTwo(b0, b1)) == Some([b0, b1])
  {
    var x0, x1 := b0 as int, b1 as int;
    ValueOfCharOf(x0 / 4);
    ValueOfCharOf(x0 % 4 * 16 + x1 / 16);
    ValueOfCharOf(x1 % 16 * 4);
    assert First(x0 / 4, x0 % 4 * 16 + x1 / 16) == b0;
    assert Second(x0 % 4 * 16 + x1 / 16, x1 % 16 * 4) == b1;
  }

  /** A full last group has no padding and decodes as any other group. */
  lemma DecodeLastThree(b0: byte, b1: byte, b2: byte)
    ensures DecodeLastGroup(EncodeGroup(b0, b1, b2)) == Some([b0, b1, b2])
  {
    DecodeEncodeGroup(b0, b1, b2);
  }

  /** A full group in front of a non-empty rest decodes group by group. */
  lemma DecodeGroupThenRest(g: string, t: string, x: seq<byte>, y: seq<byte>)
    requires |g| == 4 && |t| > 0
    requires DecodeGroup(g) == Some(x) && Decode(t) == Some(y)
    ensures Decode(g + t) == Some(x + y)
  {
    assert (g + t)[..4] == g && (g + t)[4..] == t;
  }

  lemma DecodeEncodeOne(b: seq<byte>)
    requires |b| == 1
    ensures Decode(Encode(b)) == Some(b)
  {
    DecodeLastOne(b[0]);
    assert b == [b[0]];
  }

  lemma DecodeEncodeTwo(b: seq<byte>)
    requires |b| == 2
    ensures Decode(Encode(b)) == Some(b)
  {
    DecodeLastTwo(b[0], b[1]);
    assert b == [b[0], b[1]];
  }

  lemma DecodeEncodeThree(b: seq<byte>)
    requires |b| == 3
    ensures Decode(Encode(b)) == Some(b)
  {
    assert Encode(b) == EncodeGroup(b[0], b[1], b[2]) + [];
    DecodeLastThree(b[0], b[1], b[2]);
    assert b == [b[0], b[1], b[2]];
  }

  lemma DecodeEncodeShort(b: seq<byte>)
    requires |b| <= 3
    ensures Decode(Encode(b)) == Some(b)
  {
    if |b| == 1 {
      DecodeEncodeOne(b);
    } else if |b| == 2 {
      DecodeEncodeTwo(b);
    } else if |b| == 3 {
      DecodeEncodeThree(b);
    }
  }

  /** Beyond three bytes, the encoding is a full group followed by the
      encoding of the rest. */
  lemma EncodeFront(b: seq<byte>)
    requires |b| > 3
    ensures Encode(b) == EncodeGroup(b[0], b[1], b[2]) + Encode(b[3..])
  {
  }

  lemma SplitFront(b: seq<byte>)
    requires |b| > 3
    ensures b == [b[0], b[1], b[2]] + b[3..]
  {
  }

  /** Round trip: decoding the encoding of any bytes gives the bytes back. */
  lemma {:induction false} DecodeEncode(b: seq<byte>)
    ensures Decode(Encode(b)) == Some(b)
    decreases |b|
  {
    if |b| <= 3 {
      DecodeEncodeShort(b);
    } else {
      EncodeFront(b);
      DecodeEncodeGroup(b[0], b[1], b[2]);
      DecodeEncode(b[3..]);
      DecodeGroupThenRest(EncodeGroup(b[0], b[1], b[2]), Encode(b[3..]), [b[0], b[1], b[2]], b[3..]);
      SplitFront(b);
    }
  }

  /** A text that decodes is a whole number of four-character groups, each
      standing for three bytes, less one or two for the padding of the last. */
  lemma {:induction false} DecodeLength(s: string)
    requires Decode(s).Some?
    ensures |s| % 4 == 0
    ensures |s| / 4 * 3 - 2 <= |Decode(s).value| <= |s| / 4 * 3
    decreases |s|
  {
    if |s| > 4 {
      DecodeLength(s[4..]);
    }
  }

  /** Decoding is not injective: the bits under padding are ignored, so a text
      that is not the encoding of its bytes decodes to them all the same. */
  lemma DecodeIgnoresPaddingBits()
    ensures Decode("AB==") == Some([0]) && Encode([0]) == "AA=="
  {
    assert ValueOf('A') == Some(0) && ValueOf('B') == Some(1);
    assert CharOf(0) == 'A';
  }
}
