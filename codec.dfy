/** The identifier codec and hasher a FileBasedDataService is constructed with
    (`encoder`, `decoder`, `hasher`), and the UTF-8 encoding used to hash the
    text of a triple. */
module Codec {
  import opened Streams

  /** `encoder` (base-58 text of bytes), `decoder` (its inverse) and the digest the
      `hasher` object yields once it has absorbed a byte sequence. Hashing is taken
      to depend only on the bytes absorbed, not on how they were chunked. */
  datatype Codec = Codec(encode: Bytes -> string, decode: string -> Bytes, hash: Bytes -> Bytes)

  /** The one property of the codec the store relies on: decoding an encoding gives
      back the bytes. */
  ghost predicate ValidCodec(c: Codec)
  {
    forall b: Bytes :: c.decode(c.encode(b)) == b
  }

  /** The content identifier of a payload: the encoded digest of its bytes. */
  function Cid(c: Codec, data: Bytes): string
  {
    c.encode(c.hash(data))
  }

  /** Encoding is injective: two byte strings with the same text are equal. */
  lemma EncodeInjective(c: Codec, a: Bytes, b: Bytes)
    requires ValidCodec(c)
    ensures c.encode(a) == c.encode(b) <==> a == b
  {
    if c.encode(a) == c.encode(b) {
      calc {
        a;
        c.decode(c.encode(a));
        c.decode(c.encode(b));
        b;
      }
    }
  }

  /** Two payloads share an identifier exactly when their digests are equal. */
  lemma CidIffSameDigest(c: Codec, a: Bytes, b: Bytes)
    requires ValidCodec(c)
    ensures Cid(c, a) == Cid(c, b) <==> c.hash(a) == c.hash(b)
  {
    EncodeInjective(c, c.hash(a), c.hash(b));
  }

  /** A leading byte: the marker bits `mark` followed by the top bits `v` of the
      scalar value. */
  function Lead(mark: int, v: int): (r: Byte)
    requires mark == 0xC0 || mark == 0xE0 || mark == 0xF0
    requires 0 <= v && mark + v < 0xF8
    ensures r >= 0xC0
  {
    (mark + v) as Byte
  }

  /** A continuation byte: "10" followed by the low six bits of `v`. */
  function Continuation(v: int): (r: Byte)
    requires v >= 0
    ensures 0x80 <= r < 0xC0
  {
    (0x80 + v % 64) as Byte
  }

  /** The UTF-8 encoding of one Unicode scalar value (RFC 3629, section 3). */
  function EncodeChar(ch: char): (r: Bytes)
    ensures 1 <= |r| <= 4
    ensures |r| == 1 <==> ch as int < 0x80
    ensures |r| == 1 ==> r[0] as int == ch as int
    ensures |r| > 1 ==> r[0] >= 0xC0
  {
    var n := ch as int;
    if n < 0x80 then [n as Byte]
    else if n < 0x800 then [Lead(0xC0, n / 64), Continuation(n)]
    else if n < 0x10000 then [Lead(0xE0, n / 4096), Continuation(n / 64), Continuation(n)]
    else [Lead(0xF0, n / 262144), Continuation(n / 4096), Continuation(n / 64), Continuation(n)]
  }

  /** `bytes(s, 'utf8')`. */
  function Utf8(s: string): (r: Bytes)
    ensures |r| >= |s|
  {
    if s == [] then [] else EncodeChar(s[0]) + Utf8(s[1..])
  }

  /** The encoding of a concatenation is the concatenation of the encodings. */
  lemma {:induction false} Utf8Concat(a: string, b: string)
    ensures Utf8(a + b) == Utf8(a) + Utf8(b)
  {
    if a == [] {
      assert a + b == b;
    } else {
      assert (a + b)[1..] == a[1..] + b;
      Utf8Concat(a[1..], b);
    }
  }

  /** ASCII text is encoded byte for byte. */
  lemma {:induction false} Utf8Ascii(s: string)
    requires forall k | 0 <= k < |s| :: s[k] as int < 0x80
    ensures |Utf8(s)| == |s|
    ensures forall k | 0 <= k < |s| :: Utf8(s)[k] as int == s[k] as int
  {
    if s != [] {
      Utf8Ascii(s[1..]);
      assert Utf8(s) == EncodeChar(s[0]) + Utf8(s[1..]);
    }
  }
}
