/** UTF-8 as RFC 3629 defines it, over Unicode scalar values (Dafny's `char`).
    On a write the panel encodes text with `unescape(encodeURIComponent(t))`,
    which yields the UTF-8 bytes of `t`; on a read it decodes with
    `decodeURIComponent(escape(b))`, which accepts exactly the well-formed
    UTF-8 byte sequences and throws on any other. */
module Utf8 {
  import opened Wrappers

  newtype byte = b: int | 0 <= b < 0x100

  predicate IsContinuation(b: byte)
  {
    0x80 <= b <= 0xBF
  }

  /** The six payload bits of a continuation byte. */
  function Low6(b: byte): int
  {
    b as int - 0x80
  }

  /** The continuation byte carrying the low six bits of `x`. */
  function Cont(x: int): (b: byte)
    requires x >= 0
    ensures IsContinuation(b) && Low6(b) == x % 0x40
  {
    (0x80 + x % 0x40) as byte
  }

  // Section 3 of RFC 3629: one row of its table per sequence length.

  function EncodeTwo(n: int): (bytes: seq<byte>)
    requires 0x80 <= n < 0x800
  {
    [(0xC0 + n / 0x40) as byte, Cont(n)]
  }

  function EncodeThree(n: int): (bytes: seq<byte>)
    requires 0x800 <= n < 0x10000
  {
    [(0xE0 + n / 0x1000) as byte, Cont(n / 0x40), Cont(n)]
  }

  function EncodeFour(n: int): (bytes: seq<byte>)
    requires 0x10000 <= n < 0x110000
  {
    [(0xF0 + n / 0x40000) as byte, Cont(n / 0x1000), Cont(n / 0x40), Cont(n)]
  }

  /** The one to four bytes of a single scalar value. */
  function EncodeChar(c: char): (bytes: seq<byte>)
    ensures 1 <= |bytes| <= 4
    ensures |bytes| == 1 <==> c as int < 0x80
  {
    var n := c as int;
    if n < 0x80 then [n as byte]
    else if n < 0x800 then EncodeTwo(n)
    else if n < 0x10000 then EncodeThree(n)
    else EncodeFour(n)
  }

  function Encode(s: string): (bytes: seq<byte>)
    ensures |s| <= |bytes| <= 4 * |s|
  {
    if s == [] then [] else EncodeChar(s[0]) + Encode(s[1..])
  }

  function DecodeTwo(b: seq<byte>): (r: Option<char>)
    requires |b| >= 2
  {
    if !IsContinuation(b[1]) then None
    else
      var n := (b[0] as int - 0xC0) * 0x40 + Low6(b[1]);
      if n < 0x80 || 0x800 <= n then None else Some(n as char)
  }

  function DecodeThree(b: seq<byte>): (r: Option<char>)
    requires |b| >= 3
  {
    if !IsContinuation(b[1]) || !IsContinuation(b[2]) then None
    else
      var n := ((b[0] as int - 0xE0) * 0x40 + Low6(b[1])) * 0x40 + Low6(b[2]);
      if n < 0x800 || 0x10000 <= n || 0xD800 <= n <= 0xDFFF then None else Some(n as char)
  }

  function DecodeFour(b: seq<byte>): (r: Option<char>)
    requires |b| >= 4
  {
    if !IsContinuation(b[1]) || !IsContinuation(b[2]) || !IsContinuation(b[3]) then None
    else
      var n := (((b[0] as int - 0xF0) * 0x40 + Low6(b[1])) * 0x40 + Low6(b[2])) * 0x40 + Low6(b[3]);
      if n < 0x10000 || 0x110000 <= n then None else Some(n as char)
  }

  /** The length of the sequence a lead byte announces, 0 for a byte that
      cannot start one (a continuation byte, C0, C1 or F5 to FF). */
  function SequenceLength(b0: byte): (k: nat)
    ensures k <= 4
  {
    if b0 < 0x80 then 1
    else if 0xC2 <= b0 <= 0xDF then 2
    else if 0xE0 <= b0 <= 0xEF then 3
    else if 0xF0 <= b0 <= 0xF4 then 4
    else 0
  }

  /** Reads the scalar value at the front of `b`, with the number of bytes it
      takes, or fails on a byte sequence RFC 3629 does not allow there: a bad
      lead or continuation byte, a truncated sequence, an overlong form, a
      surrogate or a value above U+10FFFF. */
  function DecodeFirst(b: seq<byte>): (r: Option<(char, nat)>)
    requires |b| > 0
    ensures r.Some? ==> 1 <= r.value.1 <= |b| && r.value.1 == SequenceLength(b[0])
  {
    var k := SequenceLength(b[0]);
    if k == 0 || |b| < k then None
    else
      var c := if k == 1 then Some(b[0] as int as char)
               else if k == 2 then DecodeTwo(b)
               else if k == 3 then DecodeThree(b)
               else DecodeFour(b);
      if c.None? then None else Some((c.value, k))
  }

  /** The text a well-formed UTF-8 byte sequence stands for, or `None`. */
  function Decode(b: seq<byte>): (r: Option<string>)
    decreases |b|
  {
    if b == [] then Some([])
    else
      match DecodeFirst(b)
      case None => None
      case Some((c, k)) =>
        match Decode(b[k..])
        case None => None
        case Some(rest) => Some([c] + rest)
  }

  // The arithmetic of the bit fields, apart from sequences.

  lemma DigitsTwo(n: int)
    requires 0x80 <= n < 0x800
    ensures n == (n / 0x40) * 0x40 + n % 0x40 && 2 <= n / 0x40 < 0x20
  {
  }

  lemma DigitsThree(n: int)
    requires 0x800 <= n < 0x10000
    ensures n == (n / 0x1000 * 0x40 + n / 0x40 % 0x40) * 0x40 + n % 0x40
    ensures n / 0x1000 < 0x10
  {
    var q := n / 0x40;
    assert q / 0x40 == n / 0x1000;
  }

  lemma DigitsFour(n: int)
    requires 0x10000 <= n < 0x110000
    ensures n == ((n / 0x40000 * 0x40 + n / 0x1000 % 0x40) * 0x40 + n / 0x40 % 0x40) * 0x40 + n % 0x40
    ensures n / 0x40000 <= 4
  {
    var q := n / 0x40;
    var q' := q / 0x40;
    assert q' == n / 0x1000;
    assert q' / 0x40 == n / 0x40000;
  }

  /** `(x * 64 + r) / 64 == x` and `(x * 64 + r) % 64 == r`. */
  lemma Shift6(x: int, r: int)
    requires x >= 0 && 0 <= r < 0x40
    ensures (x * 0x40 + r) / 0x40 == x && (x * 0x40 + r) % 0x40 == r
  {
  }

  lemma DecodeEncodeTwo(n: int, rest: seq<byte>)
    requires 0x80 <= n < 0x800
    ensures DecodeFirst(EncodeTwo(n) + rest) == Some((n as char, 2))
  {
    DigitsTwo(n);
    var b := EncodeTwo(n) + rest;
    assert b[0] as int - 0xC0 == n / 0x40 && Low6(b[1]) == n % 0x40;
    assert DecodeTwo(b) == Some(n as char);
  }

  lemma DecodeEncodeThree(n: int, rest: seq<byte>)
    requires 0x800 <= n < 0x10000 && !(0xD800 <= n <= 0xDFFF)
    ensures DecodeFirst(EncodeThree(n) + rest) == Some((n as char, 3))
  {
    DigitsThree(n);
    var b := EncodeThree(n) + rest;
    assert b[0] as int - 0xE0 == n / 0x1000;
    assert Low6(b[1]) == n / 0x40 % 0x40 && Low6(b[2]) == n % 0x40;
    assert DecodeThree(b) == Some(n as char);
  }

  lemma DecodeEncodeFour(n: int, rest: seq<byte>)
    requires 0x10000 <= n < 0x110000
    ensures DecodeFirst(EncodeFour(n) + rest) == Some((n as char, 4))
  {
    DigitsFour(n);
    var b := EncodeFour(n) + rest;
    assert b[0] as int - 0xF0 == n / 0x40000;
    assert Low6(b[1]) == n / 0x1000 % 0x40;
    assert Low6(b[2]) == n / 0x40 % 0x40 && Low6(b[3]) == n % 0x40;
    assert DecodeFour(b) == Some(n as char);
  }

  /** Decoding reads back exactly the character an encoding starts with. */
  lemma DecodeFirstEncodeChar(c: char, rest: seq<byte>)
    ensures DecodeFirst(EncodeChar(c) + rest) == Some((c, |EncodeChar(c)|))
  {
    var n := c as int;
    if n < 0x80 {
    } else if n < 0x800 {
      DecodeEncodeTwo(n, rest);
    } else if n < 0x10000 {
      DecodeEncodeThree(n, rest);
    } else {
      DecodeEncodeFour(n, rest);
    }
  }

  /** Round trip: decoding the UTF-8 encoding of any text gives the text back. */
  lemma {:induction false} DecodeEncode(s: string)
    ensures Decode(Encode(s)) == Some(s)
  {
    if s != [] {
      var e := EncodeChar(s[0]);
      DecodeFirstEncodeChar(s[0], Encode(s[1..]));
      assert (e + Encode(s[1..]))[|e|..] == Encode(s[1..]);
      DecodeEncode(s[1..]);
      assert [s[0]] + s[1..] == s;
    }
  }

  lemma EncodeDecodeTwo(b: seq<byte>)
    requires |b| >= 2 && 0xC2 <= b[0] <= 0xDF && DecodeTwo(b).Some?
    ensures EncodeChar(DecodeTwo(b).value) == b[..2]
  {
    var x0 := b[0] as int - 0xC0;
    var n := DecodeTwo(b).value as int;
    Shift6(x0, Low6(b[1]));
    assert n / 0x40 == x0 && n % 0x40 == Low6(b[1]);
  }

  lemma EncodeDecodeThree(b: seq<byte>)
    requires |b| >= 3 && 0xE0 <= b[0] <= 0xEF && DecodeThree(b).Some?
    ensures EncodeChar(DecodeThree(b).value) == b[..3]
  {
    var x0 := b[0] as int - 0xE0;
    var n := DecodeThree(b).value as int;
    var q := x0 * 0x40 + Low6(b[1]);
    Shift6(q, Low6(b[2]));
    Shift6(x0, Low6(b[1]));
    assert n / 0x40 == q && n % 0x40 == Low6(b[2]);
    assert n / 0x1000 == q / 0x40;
  }

  lemma EncodeDecodeFour(b: seq<byte>)
    requires |b| >= 4 && 0xF0 <= b[0] <= 0xF4 && DecodeFour(b).Some?
    ensures EncodeChar(DecodeFour(b).value) == b[..4]
  {
    var x0 := b[0] as int - 0xF0;
    var n := DecodeFour(b).value as int;
    var q1 := x0 * 0x40 + Low6(b[1]);
    var q2 := q1 * 0x40 + Low6(b[2]);
    Shift6(q2, Low6(b[3]));
    Shift6(q1, Low6(b[2]));
    Shift6(x0, Low6(b[1]));
    assert n / 0x40 == q2 && n % 0x40 == Low6(b[3]);
    assert n / 0x1000 == q2 / 0x40;
    assert n / 0x40000 == q1 / 0x40;
  }

  /** A decoded character is encoded back to exactly the bytes it was read
      from: the decoder accepts no overlong or otherwise non-canonical form. */
  lemma EncodeCharDecodeFirst(b: seq<byte>)
    requires |b| > 0 && DecodeFirst(b).Some?
    ensures EncodeChar(DecodeFirst(b).value.0) == b[..DecodeFirst(b).value.1]
  {
    var k := SequenceLength(b[0]);
    if k == 2 {
      EncodeDecodeTwo(b);
    } else if k == 3 {
      EncodeDecodeThree(b);
    } else if k == 4 {
      EncodeDecodeFour(b);
    }
  }

  /** The first step of a successful decode: a character whose encoding is
      the bytes it was read from, then the decode of the remaining bytes. */
  lemma DecodeStep(b: seq<byte>, s: string) returns (k: nat, c: char, rest: string)
    requires b != [] && Decode(b) == Some(s)
    ensures 1 <= k <= |b| && EncodeChar(c) == b[..k]
    ensures Decode(b[k..]) == Some(rest) && s == [c] + rest
  {
    c, k := DecodeFirst(b).value.0, DecodeFirst(b).value.1;
    rest := Decode(b[k..]).value;
    EncodeCharDecodeFirst(b);
  }

  lemma EncodeCons(c: char, rest: string)
    ensures Encode([c] + rest) == EncodeChar(c) + Encode(rest)
  {
    assert ([c] + rest)[1..] == rest;
  }

  lemma Reassemble(b: seq<byte>, k: nat, x: seq<byte>, y: seq<byte>)
    requires k <= |b| && x == b[..k] && y == b[k..]
    ensures x + y == b
  {
  }

  /** Decoding succeeds only on the encoding of what it returns. */
  lemma {:induction false} EncodeDecode(b: seq<byte>, s: string)
    requires Decode(b) == Some(s)
    ensures Encode(s) == b
    decreases |b|
  {
    if b != [] {
      var k, c, rest := DecodeStep(b, s);
      EncodeCons(c, rest);
      EncodeDecode(b[k..], rest);
      Reassemble(b, k, EncodeChar(c), Encode(rest));
    }
  }

  /** A byte sequence that decodes holds one to four bytes per character. */
  lemma DecodeLength(b: seq<byte>)
    requires Decode(b).Some?
    ensures |Decode(b).value| <= |b| <= 4 * |Decode(b).value|
  {
    EncodeDecode(b, Decode(b).value);
  }
}
