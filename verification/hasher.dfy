/** The session code's stand-in for SHA-256. It collects every byte it is fed
    and, when finished, folds them into one 32-bit word with a wrapping add and
    a rotation, then writes eight multiples of that word as the 32-byte digest.
    All word arithmetic is `bv32`, so it wraps exactly as `u32` does. */
module Hasher {
  import opened Codec

  /** The initial word, the first constant of SHA-256's initial state. */
  const Seed: bv32 := 0x6A09E667

  datatype Sha256Hasher = Sha256Hasher(buffer: seq<Byte>)

  function New(): (h: Sha256Hasher)
    ensures |h.buffer| == 0
  {
    Sha256Hasher([])
  }

  /** `update`: the bytes are appended to everything fed so far. */
  function Update(h: Sha256Hasher, data: seq<Byte>): (g: Sha256Hasher)
    ensures |g.buffer| == |h.buffer| + |data|
    ensures g.buffer[..|h.buffer|] == h.buffer && g.buffer[|h.buffer|..] == data
  {
    Sha256Hasher(h.buffer + data)
  }

  /** One byte folded in: a wrapping add, then a rotation left by seven bits. */
  function Step(state: bv32, b: Byte): bv32 {
    (state + b as bv32).RotateLeft(7)
  }

  /** The word after folding in every byte of `data`, first to last. */
  function Absorb(state: bv32, data: seq<Byte>): bv32 {
    if |data| == 0 then state else Step(Absorb(state, data[..|data| - 1]), data[|data| - 1])
  }

  /** Folding in two pieces one after the other is folding in their concatenation,
      so the digest does not depend on how the input was split between updates. */
  lemma {:induction false} AbsorbAppend(state: bv32, a: seq<Byte>, b: seq<Byte>)
    ensures Absorb(state, a + b) == Absorb(Absorb(state, a), b)
    decreases |b|
  {
    if |b| == 0 {
      assert a + b == a;
    } else {
      assert (a + b)[..|a + b| - 1] == a + b[..|b| - 1];
      assert (a + b)[|a + b| - 1] == b[|b| - 1];
      AbsorbAppend(state, a, b[..|b| - 1]);
    }
  }

  /** `u32::to_le_bytes`. */
  function LeBytes(w: bv32): (r: seq<Byte>)
    ensures |r| == 4
  {
    [(w & 0xFF) as Byte, ((w >> 8) & 0xFF) as Byte, ((w >> 16) & 0xFF) as Byte, ((w >> 24) & 0xFF) as Byte]
  }

  /** `u32::from_le_bytes`, the inverse `LeBytes` is checked against. */
  function FromLe(b: seq<Byte>): bv32
    requires |b| == 4
  {
    (b[0] as bv32) | ((b[1] as bv32) << 8) | ((b[2] as bv32) << 16) | ((b[3] as bv32) << 24)
  }

  lemma LeRoundTrip(w: bv32)
    ensures FromLe(LeBytes(w)) == w
  {
  }

  /** The word the digest's bytes `4i` to `4i + 3` encode: the final word times `i + 1`, wrapping. */
  function DigestWord(state: bv32, i: nat): bv32
    requires i < 8
  {
    state * Factor(i)
  }

  /** The multiplier of word `i`, as the `u32` value `i + 1`. */
  function Factor(i: nat): bv32
    requires i < 8
  {
    (i + 1) as bv32
  }

  /** Bytes `4i` to `4i + 3` of a digest. */
  function Chunk(r: seq<Byte>, i: nat): (c: seq<Byte>)
    requires 4 * i + 4 <= |r|
    ensures |c| == 4
  {
    r[4 * i..4 * i + 4]
  }

  /** The eight words of the digest of a final word. */
  function DigestWords(state: bv32): (ws: seq<bv32>)
    ensures |ws| == 8
  {
    seq(8, i requires 0 <= i < 8 => DigestWord(state, i))
  }

  /** Eight words laid out as 32 little-endian bytes: byte `j` is byte `j % 4`
      of word `j / 4`. */
  function Spread(ws: seq<bv32>): (r: seq<Byte>)
    requires |ws| == 8
    ensures |r| == 32
  {
    seq(32, j requires 0 <= j < 32 => LeBytes(ws[j / 4])[j % 4])
  }

  /** Bytes `4i` to `4i + 3` of the layout are word `i`. */
  lemma ChunkOfSpread(ws: seq<bv32>, i: nat)
    requires |ws| == 8 && i < 8
    ensures Chunk(Spread(ws), i) == LeBytes(ws[i])
  {
    var c, w := Chunk(Spread(ws), i), LeBytes(ws[i]);
    forall k | 0 <= k < 4
      ensures c[k] == w[k]
    {
      assert (4 * i + k) / 4 == i && (4 * i + k) % 4 == k;
    }
  }

  /** The words `finalize` has written after `n` rounds of its loop, each as four
      little-endian bytes. */
  function Words(state: bv32, n: nat): (r: seq<Byte>)
    requires n <= 8
    ensures |r| == 4 * n
    ensures forall j :: 0 <= j < 4 * n ==> r[j] == Spread(DigestWords(state))[j]
  {
    if n == 0 then []
    else
      var r := Words(state, n - 1) + LeBytes(DigestWord(state, n - 1));
      assert forall j :: 4 * (n - 1) <= j < 4 * n ==> j / 4 == n - 1 && j % 4 == j - 4 * (n - 1);
      r
  }

  /** The word left after folding in everything the hasher was fed. */
  function FinalState(h: Sha256Hasher): bv32 {
    Absorb(Seed, h.buffer)
  }

  /** `finalize`: 32 bytes, the eight words of the final word, little-endian. */
  function Finalize(h: Sha256Hasher): (r: seq<Byte>)
    ensures |r| == 32
  {
    Spread(DigestWords(FinalState(h)))
  }

  /** Bytes `4i` to `4i + 3` of the digest encode the final word times `i + 1`,
      wrapping, and the first four bytes the final word itself. */
  lemma FinalizeWords(h: Sha256Hasher)
    ensures forall i :: 0 <= i < 8 ==> FromLe(Chunk(Finalize(h), i)) == DigestWord(FinalState(h), i)
    ensures FromLe(Finalize(h)[..4]) == FinalState(h)
  {
    var ws := DigestWords(FinalState(h));
    var r := Finalize(h);
    forall i | 0 <= i < 8
      ensures FromLe(Chunk(r, i)) == DigestWord(FinalState(h), i)
    {
      ChunkOfSpread(ws, i);
      LeRoundTrip(ws[i]);
    }
    assert r[..4] == Chunk(r, 0);
    assert Factor(0) == 1;
  }

  /** The digest of a byte string fed in one piece. */
  function Digest(data: seq<Byte>): (r: seq<Byte>)
    ensures |r| == 32
  {
    Finalize(Update(New(), data))
  }

  /** Two hashers give the same digest exactly when their final words agree: the
      digest carries 32 bits, whatever its length. */
  lemma DigestIffState(g: Sha256Hasher, h: Sha256Hasher)
    ensures Finalize(g) == Finalize(h) <==> FinalState(g) == FinalState(h)
  {
    FinalizeWords(g);
    FinalizeWords(h);
    if Finalize(g) == Finalize(h) {
      assert FromLe(Finalize(g)[..4]) == FromLe(Finalize(h)[..4]);
    }
  }

  /** Feeding the hasher in several updates gives the digest of the concatenation. */
  lemma UpdatesConcatenate(a: seq<Byte>, b: seq<Byte>)
    ensures Finalize(Update(Update(New(), a), b)) == Digest(a + b)
  {
    assert Update(Update(New(), a), b) == Update(New(), a + b);
  }

  /** The first half of `finalize` as written: the buffer is walked in chunks
      of 64 bytes and every byte folded in; the chunking changes nothing. */
  method AbsorbChunks(data: seq<Byte>) returns (state: bv32)
    ensures state == Absorb(Seed, data)
  {
    state := Seed;
    var start := 0;
    while start < |data|
      invariant 0 <= start <= |data|
      invariant state == Absorb(Seed, data[..start])
    {
      var end := if start + 64 <= |data| then start + 64 else |data|;
      var k := start;
      while k < end
        invariant start <= k <= end
        invariant state == Absorb(Seed, data[..k])
      {
        assert data[..k + 1][..k] == data[..k];
        state := Step(state, data[k]);
        k := k + 1;
      }
      start := end;
    }
    assert data[..|data|] == data;
  }

  /** The second half: the eight words written into a zeroed 32-byte array. */
  method WriteWords(state: bv32) returns (hash: seq<Byte>)
    ensures hash == Words(state, 8)
  {
    hash := seq(32, _ => 0 as Byte);
    var i := 0;
    while i < 8
      invariant 0 <= i <= 8 && |hash| == 32
      invariant hash[..4 * i] == Words(state, i)
      invariant forall j :: 4 * i <= j < 32 ==> hash[j] == 0
    {
      var bytes := LeBytes(state * Factor(i));
      hash := hash[..4 * i] + bytes + hash[4 * i + 4..];
      i := i + 1;
    }
    assert hash == hash[..32];
  }

  /** `finalize` as written, step by step. */
  method FinalizeSteps(h: Sha256Hasher) returns (hash: seq<Byte>)
    ensures hash == Finalize(h)
  {
    var state := AbsorbChunks(h.buffer);
    hash := WriteWords(state);
    assert hash == Finalize(h);
  }
}
