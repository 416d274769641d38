/** Strict UTF-8 as Python's `bytes.decode("utf-8")` applies it: only the
    well-formed byte sequences of section 4 of RFC 3629 are accepted (no
    overlong forms, no surrogates, nothing above U+10FFFF), and no byte
    order mark is removed. */
module Utf8 {
  import opened Wrappers

  type byte = x: int | 0 <= x < 256

  /** A continuation byte, `%x80-BF`. */
  predicate IsTail(x: byte) {
    0x80 <= x <= 0xBF
  }

  /** How many bytes the sequence led by `b0` takes; 0 for a byte that
      cannot lead (a continuation byte, `C0`, `C1`, `F5`..`FF`). */
  function SequenceLength(b0: byte): nat {
    if b0 < 0x80 then 1
    else if 0xC2 <= b0 <= 0xDF then 2
    else if 0xE0 <= b0 <= 0xEF then 3
    else if 0xF0 <= b0 <= 0xF4 then 4
    else 0
  }

  /** The range allowed for the second byte after lead `b0`: narrowed
      after `E0`, `ED`, `F0` and `F4`, a plain continuation byte
      otherwise. */
  function SecondLow(b0: byte): byte {
    if b0 == 0xE0 then 0xA0 else if b0 == 0xF0 then 0x90 else 0x80
  }

  function SecondHigh(b0: byte): byte {
    if b0 == 0xED then 0x9F else if b0 == 0xF4 then 0x8F else 0xBF
  }

  /** `b` starts with one well-formed sequence, `UTF8-1` to `UTF8-4`. */
  predicate WellFormedFirst(b: seq<byte>) {
    b != [] && SequenceLength(b[0]) > 0 && |b| >= SequenceLength(b[0])
    && (SequenceLength(b[0]) >= 2 ==> SecondLow(b[0]) <= b[1] <= SecondHigh(b[0]))
    && (SequenceLength(b[0]) >= 3 ==> IsTail(b[2]))
    && (SequenceLength(b[0]) == 4 ==> IsTail(b[3]))
  }

  /** A Unicode scalar value: a code point that is not a surrogate. */
  predicate IsScalar(n: int) {
    0 <= n < 0xD800 || 0xE000 <= n < 0x11_0000
  }

  /** The code points spelled by two, three and four bytes, each byte
      contributing its payload bits. */
  function CodePoint2(b0: int, b1: int): int {
    (b0 - 0xC0) * 64 + (b1 - 0x80)
  }

  function CodePoint3(b0: int, b1: int, b2: int): int {
    (b0 - 0xE0) * 4096 + (b1 - 0x80) * 64 + (b2 - 0x80)
  }

  function CodePoint4(b0: int, b1: int, b2: int, b3: int): int {
    (b0 - 0xF0) * 262144 + (b1 - 0x80) * 4096 + (b2 - 0x80) * 64 + (b3 - 0x80)
  }

  /** The code point a well-formed first sequence spells. */
  function FirstCodePoint(b: seq<byte>): (n: int)
    requires WellFormedFirst(b)
    ensures IsScalar(n)
  {
    var k := SequenceLength(b[0]);
    if k == 1 then b[0]
    else if k == 2 then CodePoint2(b[0], b[1])
    else if k == 3 then CodePoint3(b[0], b[1], b[2])
    else CodePoint4(b[0], b[1], b[2], b[3])
  }

  /** Decodes the first character: the character and the number of bytes
      it took, or `None` where the strict decoder raises. */
  function DecodeFirst(b: seq<byte>): Option<(char, nat)> {
    if WellFormedFirst(b) then Some((FirstCodePoint(b) as char, SequenceLength(b[0]))) else None
  }

  /** `bytes.decode("utf-8")`: the text, or `None` for the
      `UnicodeDecodeError`. */
  function Decode(b: seq<byte>): Option<string>
    decreases |b|
  {
    if b == [] then Some([])
    else match DecodeFirst(b)
      case None => None
      case Some((c, k)) =>
        match Decode(b[k..])
        case None => None
        case Some(rest) => Some([c] + rest)
  }

  /** The shortest encoding of one code point of each length. */
  function Bytes2(n: int): seq<int> {
    [0xC0 + n / 64, 0x80 + n % 64]
  }

  function Bytes3(n: int): seq<int> {
    [0xE0 + n / 4096, 0x80 + (n % 4096) / 64, 0x80 + n % 64]
  }

  function Bytes4(n: int): seq<int> {
    [0xF0 + n / 262144, 0x80 + (n % 262144) / 4096, 0x80 + (n % 4096) / 64, 0x80 + n % 64]
  }

  /** Each character's encoding, one to four bytes by the size of its
      code point. */
  function EncodeChar(c: char): (e: seq<byte>)
    ensures 1 <= |e| <= 4
  {
    var n := c as int;
    if n < 0x80 then [n]
    else if n < 0x800 then Encoded2(n); Bytes2(n)
    else if n < 0x1_0000 then Encoded3(n); Bytes3(n)
    else Encoded4(n); Bytes4(n)
  }

  /** `str.encode("utf-8")`. */
  function Encode(s: string): seq<byte>
    decreases |s|
  {
    if s == [] then [] else EncodeChar(s[0]) + Encode(s[1..])
  }

  /** The two-, three- and four-byte encodings are well formed and spell
      the code point they encode. */
  lemma Encoded2(n: int)
    requires 0x80 <= n < 0x800
    ensures var e := Bytes2(n);
      0xC2 <= e[0] <= 0xDF && 0x80 <= e[1] <= 0xBF && CodePoint2(e[0], e[1]) == n
  {
  }

  lemma Encoded3(n: int)
    requires 0x800 <= n < 0x1_0000 && IsScalar(n)
    ensures var e := Bytes3(n);
      0xE0 <= e[0] <= 0xEF && (e[0] == 0xE0 ==> 0xA0 <= e[1]) && (e[0] == 0xED ==> e[1] <= 0x9F)
      && 0x80 <= e[1] <= 0xBF && 0x80 <= e[2] <= 0xBF && CodePoint3(e[0], e[1], e[2]) == n
  {
  }

  lemma Encoded4(n: int)
    requires 0x1_0000 <= n < 0x11_0000
    ensures var e := Bytes4(n);
      0xF0 <= e[0] <= 0xF4 && (e[0] == 0xF0 ==> 0x90 <= e[1]) && (e[0] == 0xF4 ==> e[1] <= 0x8F)
      && 0x80 <= e[1] <= 0xBF && 0x80 <= e[2] <= 0xBF && 0x80 <= e[3] <= 0xBF
      && CodePoint4(e[0], e[1], e[2], e[3]) == n
  {
  }

  /** Conversely, the payload bits of well-formed bytes re-encode to the
      same bytes. */
  lemma Decoded2(b0: int, b1: int)
    requires 0xC2 <= b0 <= 0xDF && 0x80 <= b1 <= 0xBF
    ensures Bytes2(CodePoint2(b0, b1)) == [b0, b1]
  {
  }

  lemma Decoded3(b0: int, b1: int, b2: int)
    requires 0xE0 <= b0 <= 0xEF && 0x80 <= b1 <= 0xBF && 0x80 <= b2 <= 0xBF
    ensures Bytes3(CodePoint3(b0, b1, b2)) == [b0, b1, b2]
  {
    var n := CodePoint3(b0, b1, b2);
    assert n % 4096 == (b1 - 0x80) * 64 + (b2 - 0x80);
  }

  lemma Decoded4(b0: int, b1: int, b2: int, b3: int)
    requires 0xF0 <= b0 <= 0xF4 && 0x80 <= b1 <= 0xBF && 0x80 <= b2 <= 0xBF && 0x80 <= b3 <= 0xBF
    ensures Bytes4(CodePoint4(b0, b1, b2, b3)) == [b0, b1, b2, b3]
  {
    var n := CodePoint4(b0, b1, b2, b3);
    assert n % 262144 == (b1 - 0x80) * 4096 + (b2 - 0x80) * 64 + (b3 - 0x80);
    assert n % 4096 == (b2 - 0x80) * 64 + (b3 - 0x80);
  }

  /** One encoded character is one well-formed sequence that decodes back
      to it, whatever follows. */
  lemma DecodeEncodeChar(c: char, rest: seq<byte>)
    ensures DecodeFirst(EncodeChar(c) + rest) == Some((c, |EncodeChar(c)|))
  {
    var n := c as int;
    var e := EncodeChar(c);
    if n < 0x80 {
    } else if n < 0x800 {
      Encoded2(n);
    } else if n < 0x1_0000 {
      Encoded3(n);
    } else {
      Encoded4(n);
    }
    assert (e + rest)[..|e|] == e;
  }

  /** Every text encodes to bytes the strict decoder accepts, and decoding
      gives the text back. */
  lemma {:induction false} DecodeEncode(s: string)
    ensures Decode(Encode(s)) == Some(s)
    decreases |s|
  {
    if s != [] {
      var e := EncodeChar(s[0]);
      var b := e + Encode(s[1..]);
      DecodeEncodeChar(s[0], Encode(s[1..]));
      assert b[|e|..] == Encode(s[1..]);
      DecodeEncode(s[1..]);
      assert Decode(b) == Some([s[0]] + s[1..]);
      assert [s[0]] + s[1..] == s;
    }
  }

  /** A well-formed first sequence is the encoding of the character it
      decodes to. */
  lemma EncodeDecodeChar(b: seq<byte>)
    requires WellFormedFirst(b)
    ensures EncodeChar(FirstCodePoint(b) as char) == b[..SequenceLength(b[0])]
  {
    var k := SequenceLength(b[0]);
    if k == 2 {
      Decoded2(b[0], b[1]);
    } else if k == 3 {
      Decoded3(b[0], b[1], b[2]);
    } else if k == 4 {
      Decoded4(b[0], b[1], b[2], b[3]);
    }
  }

  /** Bytes the strict decoder accepts are exactly the encoding of the
      text it returns: decoding loses nothing. */
  lemma {:induction false} EncodeDecode(b: seq<byte>)
    requires Decode(b).Some?
    ensures Encode(Decode(b).value) == b
    decreases |b|
  {
    if b != [] {
      var k := SequenceLength(b[0]);
      var c := FirstCodePoint(b) as char;
      var rest := Decode(b[k..]).value;
      assert Decode(b).value == [c] + rest;
      assert ([c] + rest)[1..] == rest;
      assert Encode([c] + rest) == EncodeChar(c) + Encode(rest);
      EncodeDecodeChar(b);
      EncodeDecode(b[k..]);
      assert b == b[..k] + b[k..];
    }
  }

  /** Examples of what the strict decoder refuses: a lone continuation
      byte, an overlong `/`, an encoded surrogate, a code point above
      U+10FFFF and a truncated sequence. */
  lemma RejectedExamples()
    ensures Decode([0x80]).None?
    ensures Decode([0xC0, 0xAF]).None?
    ensures Decode([0xED, 0xA0, 0x80]).None?
    ensures Decode([0xF4, 0x90, 0x80, 0x80]).None?
    ensures Decode([0xE2, 0x82]).None?
  {
  }
}
