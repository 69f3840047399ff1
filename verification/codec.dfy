/** The session code's hand-written text encodings of byte strings: lower-case hex
    and padded base64. Bytes are `bv8`; the base64 routines pack three bytes
    into a `bv32` word exactly as the Rust code does. */
module Codec {
  import Text

  type Byte = bv8

  /** The UTF-8 encoding of one scalar value. */
  function Utf8Char(c: char): (r: seq<Byte>)
    ensures |r| == Text.Utf8Width(c)
    ensures (c as int) < 0x80 ==> r == [c as int as Byte]
  {
    var n := c as int;
    if n < 0x80 then [n as Byte]
    else if n < 0x800 then [(0xC0 + n / 64) as Byte, (0x80 + n % 64) as Byte]
    else if n < 0x10000 then [(0xE0 + n / 4096) as Byte, (0x80 + n / 64 % 64) as Byte, (0x80 + n % 64) as Byte]
    else [(0xF0 + n / 262144) as Byte, (0x80 + n / 4096 % 64) as Byte, (0x80 + n / 64 % 64) as Byte, (0x80 + n % 64) as Byte]
  }

  /** `str::as_bytes`: the UTF-8 encoding, as long as `str::len` says. */
  function Utf8Bytes(s: string): (r: seq<Byte>)
    ensures |r| == Text.Utf8Len(s)
  {
    if |s| == 0 then [] else Utf8Bytes(s[..|s| - 1]) + Utf8Char(s[|s| - 1])
  }

  lemma {:induction false} Utf8BytesAppend(a: string, b: string)
    ensures Utf8Bytes(a + b) == Utf8Bytes(a) + Utf8Bytes(b)
    decreases |b|
  {
    if |b| == 0 {
      assert a + b == a;
    } else {
      var init, c := b[..|b| - 1], b[|b| - 1];
      assert (a + b)[..|a + b| - 1] == a + init;
      assert (a + b)[|a + b| - 1] == c;
      Utf8BytesAppend(a, init);
      var x, y, z := Utf8Bytes(a), Utf8Bytes(init), Utf8Char(c);
      assert Utf8Bytes(a + b) == Utf8Bytes(a + init) + z;
      assert Utf8Bytes(b) == y + z;
      assert (x + y) + z == x + (y + z);
    }
  }

  /** The character at position `i` of the base64 alphabet
      "A".."Z", "a".."z", "0".."9", "+", "/". */
  function CharAt(i: int): char
    requires 0 <= i < 64
  {
    if i < 26 then ('A' as int + i) as char
    else if i < 52 then ('a' as int + i - 26) as char
    else if i < 62 then ('0' as int + i - 52) as char
    else if i == 62 then '+'
    else '/'
  }

  /** The 64 characters of the alphabet. */
  predicate InAlphabet(c: char) {
    'A' <= c <= 'Z' || 'a' <= c <= 'z' || '0' <= c <= '9' || c == '+' || c == '/'
  }

  /** The decoder's value of a character; any character outside the alphabet reads as 0. */
  function PositionOf(c: char): (v: int)
    ensures 0 <= v < 64
  {
    if 'A' <= c <= 'Z' then c as int - 'A' as int
    else if 'a' <= c <= 'z' then c as int - 'a' as int + 26
    else if '0' <= c <= '9' then c as int - '0' as int + 52
    else if c == '+' then 62
    else if c == '/' then 63
    else 0
  }

  /** Position and character are inverse on the alphabet, and no character of
      the alphabet is the padding character. */
  lemma AlphabetInverse(i: int, c: char)
    requires 0 <= i < 64
    ensures PositionOf(CharAt(i)) == i
    ensures InAlphabet(CharAt(i)) && CharAt(i) != '='
    ensures InAlphabet(c) ==> CharAt(PositionOf(c)) == c
  {
  }

  function Char(x: Byte): char
    requires x < 64
  {
    CharAt(x as int)
  }

  function Value(c: char): Byte {
    PositionOf(c) as Byte
  }

  /** The byte-valued form of `AlphabetInverse`. */
  lemma ValueOfChar(x: Byte)
    requires x < 64
    ensures Value(Char(x)) == x
    ensures InAlphabet(Char(x)) && Char(x) != '='
  {
    AlphabetInverse(x as int, 'A');
  }

  /** The 24-bit word of one input chunk; missing bytes count as zero. */
  function Pack3(b0: Byte, b1: Byte, b2: Byte): bv32 {
    ((b0 as bv32) << 16) | ((b1 as bv32) << 8) | (b2 as bv32)
  }

  /** The 6-bit group of a packed word starting at bit `shift`. */
  function Sextet(b: bv32, shift: bv32): Byte
    requires shift <= 18
  {
    ((b >> shift) & 63) as Byte
  }

  /** One chunk of one to three bytes becomes four characters; the places of
      missing bytes after the first two characters are padding. */
  function EncodeChunk(c: seq<Byte>): (r: string)
    requires 1 <= |c| <= 3
    ensures |r| == 4
    ensures InAlphabet(r[0]) && InAlphabet(r[1])
    ensures r[2] == '=' <==> |c| == 1
    ensures r[3] == '=' <==> |c| <= 2
    ensures r[2] != '=' ==> InAlphabet(r[2])
    ensures r[3] != '=' ==> InAlphabet(r[3])
  {
    var b := Pack3(c[0], if |c| > 1 then c[1] else 0, if |c| > 2 then c[2] else 0);
    ValueOfChar(Sextet(b, 18));
    ValueOfChar(Sextet(b, 12));
    ValueOfChar(Sextet(b, 6));
    ValueOfChar(Sextet(b, 0));
    [Char(Sextet(b, 18)), Char(Sextet(b, 12)),
     if |c| > 1 then Char(Sextet(b, 6)) else '=',
     if |c| > 2 then Char(Sextet(b, 0)) else '=']
  }

  /** The number of padding characters for `n` input bytes. */
  function Padding(n: nat): nat {
    (3 - n % 3) % 3
  }

  /** `base64_encode`: chunks of three bytes, each giving four characters, so
      the output has 4·⌈n/3⌉ characters. */
  function Base64Encode(d: seq<Byte>): (r: string)
    ensures |r| == 4 * ((|d| + 2) / 3)
  {
    if |d| == 0 then ""
    else if |d| <= 3 then EncodeChunk(d)
    else EncodeChunk(d[..3]) + Base64Encode(d[3..])
  }

  /** The output of `base64_encode` is padded with '=' exactly in its last
      `Padding(n)` places. */
  lemma {:induction false} Base64Padding(d: seq<Byte>)
    ensures forall i :: 0 <= i < |Base64Encode(d)| ==> (Base64Encode(d)[i] == '=' <==> i >= |Base64Encode(d)| - Padding(|d|))
  {
    if |d| > 3 {
      var head := EncodeChunk(d[..3]);
      var tail := Base64Encode(d[3..]);
      var r := Base64Encode(d);
      Base64Padding(d[3..]);
      assert r == head + tail;
      assert |d[..3]| == 3 && |d[3..]| == |d| - 3 >= 1;
      assert Padding(|d|) == Padding(|d| - 3) <= 2;
      assert |tail| >= 4;
      forall i | 0 <= i < |r|
        ensures r[i] == '=' <==> i >= |r| - Padding(|d|)
      {
        if i >= 4 {
          assert r[i] == tail[i - 4];
        } else {
          assert r[i] == head[i];
          assert i == 0 || i == 1 || i == 2 || i == 3;
        }
      }
    }
  }

  /** Every other character of the output belongs to the alphabet. */
  lemma {:induction false} Base64Alphabet(d: seq<Byte>)
    ensures forall i :: 0 <= i < |Base64Encode(d)| && Base64Encode(d)[i] != '=' ==> InAlphabet(Base64Encode(d)[i])
  {
    if |d| > 3 {
      var head := EncodeChunk(d[..3]);
      var tail := Base64Encode(d[3..]);
      var r := Base64Encode(d);
      Base64Alphabet(d[3..]);
      assert r == head + tail;
      assert |d[..3]| == 3;
      forall i | 0 <= i < |r| && r[i] != '='
        ensures InAlphabet(r[i])
      {
        if i >= 4 {
          assert r[i] == tail[i - 4];
        } else {
          assert r[i] == head[i];
          assert i == 0 || i == 1 || i == 2 || i == 3;
        }
      }
    }
  }

  /** The decoder's first pass: drop every '=' wherever it stands, and read
      every other character as its value. */
  function Sextets(s: string): (v: seq<Byte>)
    ensures |v| <= |s|
    ensures forall i :: 0 <= i < |v| ==> v[i] < 64
  {
    if |s| == 0 then []
    else if s[0] == '=' then Sextets(s[1..])
    else [Value(s[0])] + Sextets(s[1..])
  }

  function At(v: seq<Byte>, i: nat): Byte {
    if i < |v| then v[i] else 0
  }

  /** One group of up to four values: a group of one value yields nothing,
      otherwise one byte fewer than the group has values. */
  function DecodeChunk(v: seq<Byte>): (r: seq<Byte>)
    requires 1 <= |v| <= 4
    ensures |r| == |v| - 1
  {
    if |v| < 2 then []
    else
      var b := ((v[0] as bv32) << 18) | ((At(v, 1) as bv32) << 12) | ((At(v, 2) as bv32) << 6) | (At(v, 3) as bv32);
      [((b >> 16) & 0xFF) as Byte]
      + (if |v| > 2 then [((b >> 8) & 0xFF) as Byte] else [])
      + (if |v| > 3 then [(b & 0xFF) as Byte] else [])
  }

  function DecodeGroups(v: seq<Byte>): seq<Byte> {
    if |v| == 0 then []
    else if |v| <= 4 then DecodeChunk(v)
    else DecodeChunk(v[..4]) + DecodeGroups(v[4..])
  }

  /** `base64_decode`. It never fails: unknown characters read as 0 and padding
      is ignored wherever it appears. */
  function Base64Decode(s: string): seq<Byte> {
    DecodeGroups(Sextets(s))
  }

  lemma {:induction false} SextetsAppend(a: string, b: string)
    ensures Sextets(a + b) == Sextets(a) + Sextets(b)
  {
    if |a| == 0 {
      assert a + b == b;
    } else {
      assert (a + b)[1..] == a[1..] + b;
      SextetsAppend(a[1..], b);
    }
  }

  lemma PackedBits(b0: Byte, b1: Byte, b2: Byte)
    ensures var b := Pack3(b0, b1, b2);
            var w := ((Sextet(b, 18) as bv32) << 18) | ((Sextet(b, 12) as bv32) << 12) | ((Sextet(b, 6) as bv32) << 6) | (Sextet(b, 0) as bv32);
            ((w >> 16) & 0xFF) as Byte == b0 && ((w >> 8) & 0xFF) as Byte == b1 && (w & 0xFF) as Byte == b2
  {
  }

  lemma PackedBitsTwo(b0: Byte, b1: Byte)
    ensures var b := Pack3(b0, b1, 0);
            var w := ((Sextet(b, 18) as bv32) << 18) | ((Sextet(b, 12) as bv32) << 12) | ((Sextet(b, 6) as bv32) << 6);
            ((w >> 16) & 0xFF) as Byte == b0 && ((w >> 8) & 0xFF) as Byte == b1
  {
  }

  lemma PackedBitsOne(b0: Byte)
    ensures var b := Pack3(b0, 0, 0);
            var w := ((Sextet(b, 18) as bv32) << 18) | ((Sextet(b, 12) as bv32) << 12);
            ((w >> 16) & 0xFF) as Byte == b0
  {
  }

  /** The values of one encoded chunk, padding dropped: one more than the
      chunk has bytes. */
  lemma SextetsThree(b0: Byte, b1: Byte, b2: Byte)
    ensures var b := Pack3(b0, b1, b2);
            Sextets(EncodeChunk([b0, b1, b2])) == [Sextet(b, 18), Sextet(b, 12), Sextet(b, 6), Sextet(b, 0)]
  {
    var b := Pack3(b0, b1, b2);
    var s := EncodeChunk([b0, b1, b2]);
    ValueOfChar(Sextet(b, 18));
    ValueOfChar(Sextet(b, 12));
    ValueOfChar(Sextet(b, 6));
    ValueOfChar(Sextet(b, 0));
    assert s[1..][1..][1..][1..] == [];
    assert Sextets(s[1..][1..][1..]) == [Sextet(b, 0)];
    assert Sextets(s[1..][1..]) == [Sextet(b, 6), Sextet(b, 0)];
    assert Sextets(s[1..]) == [Sextet(b, 12), Sextet(b, 6), Sextet(b, 0)];
  }

  lemma SextetsTwo(b0: Byte, b1: Byte)
    ensures var b := Pack3(b0, b1, 0);
            Sextets(EncodeChunk([b0, b1])) == [Sextet(b, 18), Sextet(b, 12), Sextet(b, 6)]
  {
    var b := Pack3(b0, b1, 0);
    var s := EncodeChunk([b0, b1]);
    ValueOfChar(Sextet(b, 18));
    ValueOfChar(Sextet(b, 12));
    ValueOfChar(Sextet(b, 6));
    assert s[1..][1..][1..][1..] == [];
    assert Sextets(s[1..][1..][1..]) == [];
    assert Sextets(s[1..][1..]) == [Sextet(b, 6)];
    assert Sextets(s[1..]) == [Sextet(b, 12), Sextet(b, 6)];
  }

  lemma SextetsOne(b0: Byte)
    ensures var b := Pack3(b0, 0, 0);
            Sextets(EncodeChunk([b0])) == [Sextet(b, 18), Sextet(b, 12)]
  {
    var b := Pack3(b0, 0, 0);
    var s := EncodeChunk([b0]);
    ValueOfChar(Sextet(b, 18));
    ValueOfChar(Sextet(b, 12));
    assert s[1..][1..][1..][1..] == [];
    assert Sextets(s[1..][1..][1..]) == [];
    assert Sextets(s[1..][1..]) == [];
  }

  lemma DecodeThree(b0: Byte, b1: Byte, b2: Byte)
    ensures var b := Pack3(b0, b1, b2);
            DecodeChunk([Sextet(b, 18), Sextet(b, 12), Sextet(b, 6), Sextet(b, 0)]) == [b0, b1, b2]
  {
    PackedBits(b0, b1, b2);
  }

  lemma DecodeTwo(b0: Byte, b1: Byte)
    ensures var b := Pack3(b0, b1, 0);
            DecodeChunk([Sextet(b, 18), Sextet(b, 12), Sextet(b, 6)]) == [b0, b1]
  {
    PackedBitsTwo(b0, b1);
  }

  lemma DecodeOne(b0: Byte)
    ensures var b := Pack3(b0, 0, 0);
            DecodeChunk([Sextet(b, 18), Sextet(b, 12)]) == [b0]
  {
    PackedBitsOne(b0);
  }

  /** Decoding one encoded chunk gives the chunk back. */
  lemma ChunkRoundTrip(c: seq<Byte>)
    requires 1 <= |c| <= 3
    ensures |Sextets(EncodeChunk(c))| == |c| + 1
    ensures DecodeChunk(Sextets(EncodeChunk(c))) == c
  {
    if |c| == 3 {
      assert c == [c[0], c[1], c[2]];
      SextetsThree(c[0], c[1], c[2]);
      DecodeThree(c[0], c[1], c[2]);
    } else if |c| == 2 {
      assert c == [c[0], c[1]];
      SextetsTwo(c[0], c[1]);
      DecodeTwo(c[0], c[1]);
    } else {
      assert c == [c[0]];
      SextetsOne(c[0]);
      DecodeOne(c[0]);
    }
  }

  lemma GroupsFront(q: seq<Byte>, w: seq<Byte>)
    requires |q| == 4 && |w| >= 1
    ensures DecodeGroups(q + w) == DecodeChunk(q) + DecodeGroups(w)
  {
    assert (q + w)[..4] == q;
    assert (q + w)[4..] == w;
  }

  /** The decoder's values of an encoding: n of the bytes' data plus one per chunk. */
  lemma {:induction false} EncodedSextets(d: seq<Byte>)
    ensures |Sextets(Base64Encode(d))| == |d| + (|d| + 2) / 3
  {
    if |d| == 0 {
    } else if |d| <= 3 {
      ChunkRoundTrip(d);
    } else {
      ChunkRoundTrip(d[..3]);
      SextetsAppend(EncodeChunk(d[..3]), Base64Encode(d[3..]));
      EncodedSextets(d[3..]);
    }
  }

  /** `base64_decode` undoes `base64_encode` on every byte string. */
  lemma {:induction false} Base64RoundTrip(d: seq<Byte>)
    ensures Base64Decode(Base64Encode(d)) == d
  {
    if |d| == 0 {
    } else if |d| <= 3 {
      ChunkRoundTrip(d);
    } else {
      var head := EncodeChunk(d[..3]);
      var tail := Base64Encode(d[3..]);
      ChunkRoundTrip(d[..3]);
      SextetsAppend(head, tail);
      EncodedSextets(d[3..]);
      GroupsFront(Sextets(head), Sextets(tail));
      Base64RoundTrip(d[3..]);
      assert d == d[..3] + d[3..];
    }
  }

  /** A lower-case hexadecimal digit. */
  predicate IsLowerHex(c: char) {
    '0' <= c <= '9' || 'a' <= c <= 'f'
  }

  /** The lower-case digit of a value below 16. */
  function HexChar(x: int): (c: char)
    requires 0 <= x < 16
    ensures IsLowerHex(c)
  {
    if x < 10 then ('0' as int + x) as char else ('a' as int + x - 10) as char
  }

  /** The value of a hexadecimal digit; anything else reads as 0. */
  function HexValue(c: char): (x: int)
    ensures 0 <= x < 16
    ensures IsLowerHex(c) ==> HexChar(x) == c
  {
    if '0' <= c <= '9' then c as int - '0' as int
    else if 'a' <= c <= 'f' then c as int - 'a' as int + 10
    else if 'A' <= c <= 'F' then c as int - 'A' as int + 10
    else 0
  }

  function High(b: Byte): int { b as int / 16 }

  function Low(b: Byte): int { b as int % 16 }

  /** `hex_encode`: every byte as two lower-case digits, high nibble first
      (`{:02x}`), so the text is twice as long as the data. */
  function HexEncode(d: seq<Byte>): (r: string)
    ensures |r| == 2 * |d|
    ensures forall i :: 0 <= i < |r| ==> IsLowerHex(r[i])
  {
    if |d| == 0 then ""
    else [HexChar(High(d[0])), HexChar(Low(d[0]))] + HexEncode(d[1..])
  }

  /** The reading of a digit pair as a byte; the inverse `hex_encode` is checked against. */
  function HexDecode(s: string): seq<Byte> {
    if |s| < 2 then []
    else [(16 * HexValue(s[0]) + HexValue(s[1])) as Byte] + HexDecode(s[2..])
  }

  lemma HexDigitRoundTrip(x: int)
    requires 0 <= x < 16
    ensures HexValue(HexChar(x)) == x
  {
  }

  /** The two digits of a byte read back as that byte. */
  lemma DigitsRoundTrip(b: Byte)
    ensures (16 * HexValue(HexChar(High(b))) + HexValue(HexChar(Low(b)))) as Byte == b
  {
    HexDigitRoundTrip(High(b));
    HexDigitRoundTrip(Low(b));
  }

  /** Reading the digits back gives the bytes: `hex_encode` loses nothing. */
  lemma {:induction false} HexRoundTrip(d: seq<Byte>)
    ensures HexDecode(HexEncode(d)) == d
  {
    if |d| > 0 {
      var r := HexEncode(d);
      assert r[0] == HexChar(High(d[0])) && r[1] == HexChar(Low(d[0]));
      assert r[2..] == HexEncode(d[1..]);
      DigitsRoundTrip(d[0]);
      HexRoundTrip(d[1..]);
      assert d == [d[0]] + d[1..];
    }
  }

  /** Two byte strings with the same hex text are equal. */
  lemma HexInjective(d: seq<Byte>, e: seq<Byte>)
    requires HexEncode(d) == HexEncode(e)
    ensures d == e
  {
    HexRoundTrip(d);
    HexRoundTrip(e);
  }
}
