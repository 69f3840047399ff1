/** `CryptoUtils` of the session code: a keyed digest, key derivation, and the
    XOR stream cipher the session payload and the stored session are "encrypted"
    with. Strings enter as their UTF-8 bytes (`as_bytes`). */
module Crypto {
  import opened Codec
  import Hasher
  import Text

  /** `hmac_sha256`: the digest of the key followed by the data. */
  function HmacSha256(key: seq<Byte>, data: seq<Byte>): (r: seq<Byte>)
    ensures |r| == 32
  {
    Hasher.Finalize(Hasher.Update(Hasher.Update(Hasher.New(), key), data))
  }

  /** The keyed digest is the plain digest of the concatenation, so the boundary
      between key and data is not bound into it: moving bytes from the end of the
      key to the front of the data keeps the digest. */
  lemma HmacIsDigestOfConcatenation(key: seq<Byte>, data: seq<Byte>, key2: seq<Byte>, data2: seq<Byte>)
    ensures HmacSha256(key, data) == Hasher.Digest(key + data)
    ensures key + data == key2 + data2 ==> HmacSha256(key, data) == HmacSha256(key2, data2)
  {
    Hasher.UpdatesConcatenate(key, data);
    Hasher.UpdatesConcatenate(key2, data2);
  }

  /** `derive_session_key`: the digest of the three strings' bytes, fed in order. */
  function DeriveSessionKey(secret: string, entropy: string, sessionId: string): (r: seq<Byte>)
    ensures |r| == 32
  {
    var h := Hasher.Update(Hasher.New(), Utf8Bytes(secret));
    var h := Hasher.Update(h, Utf8Bytes(entropy));
    Hasher.Finalize(Hasher.Update(h, Utf8Bytes(sessionId)))
  }

  /** The derived key is the digest of the three strings run together. */
  lemma DeriveSessionKeyConcatenates(secret: string, entropy: string, sessionId: string)
    ensures DeriveSessionKey(secret, entropy, sessionId) == Hasher.Digest(Utf8Bytes(secret + entropy + sessionId))
  {
    Utf8BytesAppend(secret, entropy);
    Utf8BytesAppend(secret + entropy, sessionId);
    var a, b, c := Utf8Bytes(secret), Utf8Bytes(entropy), Utf8Bytes(sessionId);
    assert Hasher.Update(Hasher.Update(Hasher.Update(Hasher.New(), a), b), c) == Hasher.Update(Hasher.New(), a + b + c);
  }

  /** `expand_key`: the key repeated until `length` bytes are taken; an empty key
      repeats to nothing. */
  function ExpandKey(key: seq<Byte>, length: nat): (r: seq<Byte>)
    ensures |key| == 0 ==> |r| == 0
  {
    if |key| == 0 then [] else seq(length, i requires 0 <= i < length => key[i % |key|])
  }

  /** A non-empty key expands to exactly `length` bytes, and the first `|key|`
      of them are the key itself. */
  lemma ExpandKeyStartsWithKey(key: seq<Byte>, length: nat)
    requires |key| > 0
    ensures |ExpandKey(key, length)| == length
    ensures length >= |key| ==> ExpandKey(key, length)[..|key|] == key
  {
    if length >= |key| {
      var r := ExpandKey(key, length);
      forall i | 0 <= i < |key|
        ensures r[i] == key[i]
      {
        assert i % |key| == i;
      }
    }
  }

  /** Taking fewer bytes gives a prefix of taking more. */
  lemma ExpandKeyPrefix(key: seq<Byte>, m: nat, n: nat)
    requires m <= n
    ensures |key| > 0 ==> ExpandKey(key, m) == ExpandKey(key, n)[..m]
  {
  }

  /** The three-way zip of `encrypt_data`: data, expanded key and the nonce
      repeated without end. `zip` stops at the shorter side, and an empty nonce
      repeats to nothing. */
  function ZipXor(data: seq<Byte>, keyBytes: seq<Byte>, nonce: seq<Byte>): seq<Byte> {
    if |nonce| == 0 then []
    else
      var n := if |data| <= |keyBytes| then |data| else |keyBytes|;
      seq(n, i requires 0 <= i < n => data[i] ^ keyBytes[i] ^ nonce[i % |nonce|])
  }

  /** The bytes `encrypt_data` encodes: byte `i` of the data XOR byte `i` of the
      repeated key XOR byte `i` of the repeated nonce, as long as the data when
      key and nonce are both non-empty, and empty otherwise. */
  function XorBytes(data: seq<Byte>, key: seq<Byte>, nonce: seq<Byte>): (r: seq<Byte>)
    ensures |r| == if |key| > 0 && |nonce| > 0 then |data| else 0
    ensures forall i :: 0 <= i < |r| ==> r[i] == data[i] ^ key[i % |key|] ^ nonce[i % |nonce|]
  {
    ZipXor(data, ExpandKey(key, |data|), nonce)
  }

  /** With the same key and nonce the cipher undoes itself. */
  lemma XorInvolution(data: seq<Byte>, key: seq<Byte>, nonce: seq<Byte>)
    requires |key| > 0 && |nonce| > 0
    ensures XorBytes(XorBytes(data, key, nonce), key, nonce) == data
  {
    var c := XorBytes(data, key, nonce);
    var p := XorBytes(c, key, nonce);
    forall i | 0 <= i < |data|
      ensures p[i] == data[i]
    {
      XorCancels(data[i], key[i % |key|], nonce[i % |nonce|]);
    }
  }

  lemma XorCancels(d: Byte, k: Byte, n: Byte)
    ensures d ^ k ^ n ^ k ^ n == d
  {
  }

  /** `encrypt_data`: the cipher bytes of the text's UTF-8 bytes, in base64. It
      never reports an error. */
  function EncryptData(data: string, key: seq<Byte>, nonce: string): string {
    Base64Encode(XorBytes(Utf8Bytes(data), key, Utf8Bytes(nonce)))
  }

  /** Decoding the base64 text and applying the cipher again gives back the
      plaintext bytes; with an empty key or nonce, the text is empty and
      nothing of the data is kept. */
  lemma EncryptDataRecoverable(data: string, key: seq<Byte>, nonce: string)
    ensures |key| > 0 && |nonce| > 0 ==>
              XorBytes(Base64Decode(EncryptData(data, key, nonce)), key, Utf8Bytes(nonce)) == Utf8Bytes(data)
    ensures |key| == 0 || |nonce| == 0 ==> EncryptData(data, key, nonce) == ""
  {
    Base64RoundTrip(XorBytes(Utf8Bytes(data), key, Utf8Bytes(nonce)));
    if |key| > 0 && |nonce| > 0 {
      Text.Utf8LenBounds(nonce);
      XorInvolution(Utf8Bytes(data), key, Utf8Bytes(nonce));
    }
  }
}
