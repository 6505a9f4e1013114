/** Content addressing: core/src/hasher.rs and the digest shape check. */
module Hashing {
  import opened Types

  /** A raw SHA-256 value (section 6.2 of FIPS 180-4 gives 256 bits). */
  type Raw = s: seq<byte> | |s| == 32 witness seq(32, _ => 0)

  datatype Codec = Codec(encode: Bytes -> Option<Bytes>, decode: Bytes -> Option<Bytes>)

  /** What the store is configured with: the hash function and an optional blob
      codec. `plain` is used in specifications only: it chooses one payload for
      every digest, and says which payloads are in play. */
  datatype Cfg = Cfg(sha: Bytes -> Raw, codec: Option<Codec>, ghost plain: string -> Bytes)

  predicate IsHexDigit(c: char) {
    '0' <= c <= '9' || 'a' <= c <= 'f' || 'A' <= c <= 'F'
  }

  /** The shape shared by `is_chunk_digest` and `validate_digest`. */
  predicate IsChunkDigest(name: string) {
    |name| == 64 && forall i :: 0 <= i < |name| ==> IsHexDigit(name[i])
  }

  /** That shape, character by character. */
  lemma DigestShape(name: string)
    ensures IsChunkDigest(name) <==> |name| == 64 && forall c :: c in name ==> c in "0123456789abcdefABCDEF"
  {
    var digits := "0123456789abcdefABCDEF";
    forall c: char ensures IsHexDigit(c) <==> c in digits {
      if '0' <= c <= '9' {
        assert digits[c as int - '0' as int] == c;
      } else if 'a' <= c <= 'f' {
        assert digits[c as int - 'a' as int + 10] == c;
      } else if 'A' <= c <= 'F' {
        assert digits[c as int - 'A' as int + 16] == c;
      }
    }
    hide IsHexDigit;
  }

  const HEX := "0123456789abcdef"

  function HexPair(b: byte): string {
    [HEX[b as int / 16], HEX[b as int % 16]]
  }

  function Hex(bytes: seq<byte>): (r: string)
    ensures |r| == 2 * |bytes|
    ensures forall i :: 0 <= i < |r| ==> IsHexDigit(r[i])
  {
    if bytes == [] then [] else HexPair(bytes[0]) + Hex(bytes[1..])
  }

  lemma {:induction false} HexAppend(a: seq<byte>, b: seq<byte>)
    ensures Hex(a + b) == Hex(a) + Hex(b)
  {
    if a == [] {
      assert a + b == b;
    } else {
      assert (a + b)[0] == a[0] && (a + b)[1..] == a[1..] + b;
      HexAppend(a[1..], b);
    }
  }

  lemma HexPairInjective(a: byte, b: byte)
    requires HexPair(a) == HexPair(b)
    ensures a == b
  {
    assert HexPair(a)[0] == HexPair(b)[0] && HexPair(a)[1] == HexPair(b)[1];
    assert forall i, j :: 0 <= i < j < 16 ==> HEX[i] != HEX[j];
  }

  /** What a lower-case hex digit stands for; other characters stand for nothing. */
  function DigitValue(c: char): int {
    if '0' <= c <= '9' then c as int - '0' as int
    else if 'a' <= c <= 'f' then c as int - 'a' as int + 10
    else -1
  }

  /** The text writes the bytes in lower-case hex, the high half of each first. */
  ghost predicate Denotes(text: string, bytes: seq<byte>) {
    && |text| == 2 * |bytes|
    && (forall i :: 0 <= i < |text| ==> DigitValue(text[i]) >= 0)
    && forall i :: 0 <= i < |bytes| ==> DigitValue(text[2 * i]) * 16 + DigitValue(text[2 * i + 1]) == bytes[i] as int
  }

  lemma PairDenotes(b: byte)
    ensures HexPair(b) == [HexPair(b)[0], HexPair(b)[1]]
    ensures DigitValue(HexPair(b)[0]) >= 0 && DigitValue(HexPair(b)[1]) >= 0
    ensures DigitValue(HexPair(b)[0]) * 16 + DigitValue(HexPair(b)[1]) == b as int
  {
    forall i | 0 <= i < 16 ensures DigitValue(HEX[i]) == i {
      assert HEX[i] == if i < 10 then ('0' as int + i) as char else ('a' as int + i - 10) as char;
    }
  }

  lemma {:induction false} HexAt(bytes: seq<byte>, i: nat)
    requires i < |bytes|
    ensures Hex(bytes)[2 * i] == HexPair(bytes[i])[0] && Hex(bytes)[2 * i + 1] == HexPair(bytes[i])[1]
  {
    hide HexPair;
    if i > 0 {
      HexAt(bytes[1..], i - 1);
      PairDenotes(bytes[0]);
      assert Hex(bytes) == HexPair(bytes[0]) + Hex(bytes[1..]);
      assert Hex(bytes)[2 * i] == Hex(bytes[1..])[2 * (i - 1)];
      assert Hex(bytes)[2 * i + 1] == Hex(bytes[1..])[2 * (i - 1) + 1];
    } else {
      PairDenotes(bytes[0]);
    }
  }

  /** The hex text denotes the bytes. */
  lemma HexDenotes(bytes: seq<byte>)
    ensures Denotes(Hex(bytes), bytes)
  {
    var text := Hex(bytes);
    hide Hex, HexPair, DigitValue;
    forall i | 0 <= i < |bytes|
      ensures DigitValue(text[2 * i]) * 16 + DigitValue(text[2 * i + 1]) == bytes[i] as int
      ensures DigitValue(text[2 * i]) >= 0 && DigitValue(text[2 * i + 1]) >= 0
    {
      HexAt(bytes, i);
      PairDenotes(bytes[i]);
    }
    forall k | 0 <= k < |text| ensures DigitValue(text[k]) >= 0 {
      var i := k / 2;
      assert 0 <= i < |bytes| && (k == 2 * i || k == 2 * i + 1);
    }
  }

  lemma DigitValueInjective(a: char, b: char)
    requires DigitValue(a) == DigitValue(b) >= 0
    ensures a == b && DigitValue(a) < 16
  {
    assert (a as int) as char == a && (b as int) as char == b;
  }

  /** No other text does. */
  lemma DenotesOnce(text: string, other: string, bytes: seq<byte>)
    requires Denotes(text, bytes) && Denotes(other, bytes)
    ensures text == other
  {
    forall i | 0 <= i < |text| ensures text[i] == other[i] {
      var k := i / 2;
      assert 0 <= k < |bytes| && (i == 2 * k || i == 2 * k + 1);
      SameDigits(text[2 * k], text[2 * k + 1], other[2 * k], other[2 * k + 1]);
    }
  }

  lemma SameDigits(a: char, b: char, c: char, d: char)
    requires DigitValue(a) >= 0 && DigitValue(b) >= 0 && DigitValue(c) >= 0 && DigitValue(d) >= 0
    requires DigitValue(a) * 16 + DigitValue(b) == DigitValue(c) * 16 + DigitValue(d)
    ensures a == c && b == d
  {
    DigitValueInjective(a, a);
    DigitValueInjective(b, b);
    DigitValueInjective(c, c);
    DigitValueInjective(d, d);
    DigitValueInjective(a, c);
    DigitValueInjective(b, d);
  }

  /** Hex text identifies the bytes, so two payloads share a digest exactly
      when they share the raw hash. */
  lemma {:induction false} HexInjective(a: seq<byte>, b: seq<byte>)
    requires Hex(a) == Hex(b)
    ensures a == b
  {
    assert |a| == |b|;
    if a != [] {
      assert Hex(a)[..2] == HexPair(a[0]) && Hex(a)[2..] == Hex(a[1..]);
      assert Hex(b)[..2] == HexPair(b[0]) && Hex(b)[2..] == Hex(b[1..]);
      HexPairInjective(a[0], b[0]);
      HexInjective(a[1..], b[1..]);
    }
  }

  method EncodeHex(bytes: seq<byte>) returns (out: string)
    ensures out == Hex(bytes) && Denotes(out, bytes)
  {
    HexDenotes(bytes);
    hide Denotes, DigitValue;
    out := "";
    for i := 0 to |bytes|
      invariant out == Hex(bytes[..i])
    {
      var b := bytes[i];
      HexAppend(bytes[..i], [b]);
      assert bytes[..i + 1] == bytes[..i] + [b];
      assert Hex([b]) == HexPair(b) + Hex([]);
      out := out + [HEX[b as int / 16]];
      out := out + [HEX[b as int % 16]];
    }
    assert bytes[..|bytes|] == bytes;
  }

  function DigestHex(cfg: Cfg, data: Bytes): (d: string)
    ensures IsChunkDigest(d)
  {
    Hex(cfg.sha(data))
  }

  /** The digest of a payload is the text that denotes its hash. */
  lemma DigestDenotes(cfg: Cfg, data: Bytes, text: string)
    ensures Denotes(text, cfg.sha(data)) <==> text == DigestHex(cfg, data)
  {
    HexDenotes(cfg.sha(data));
    hide Hex, Denotes;
    if Denotes(text, cfg.sha(data)) {
      DenotesOnce(text, DigestHex(cfg, data), cfg.sha(data));
    }
  }

  /** `verify_digest`: the payload is accepted exactly when it hashes to the
      expected digest. */
  method VerifyDigest(cfg: Cfg, data: Bytes, expected: string) returns (r: Result<()>)
    ensures r == if DigestHex(cfg, data) == expected then Ok(()) else Err(DigestMismatch)
    ensures r.Ok? <==> Denotes(expected, cfg.sha(data))
  {
    DigestDenotes(cfg, data, expected);
    var actual := EncodeHex(cfg.sha(data));
    if actual == expected {
      return Ok(());
    }
    return Err(DigestMismatch);
  }

  function Encode(cfg: Cfg, data: Bytes): Option<Bytes> {
    match cfg.codec
    case None => Some(data)
    case Some(c) => c.encode(data)
  }

  function Decode(cfg: Cfg, blob: Bytes): Option<Bytes> {
    match cfg.codec
    case None => Some(blob)
    case Some(c) => c.decode(blob)
  }

  /** The codec law of core/src/store/codec.rs: decoding undoes encoding. */
  ghost predicate LawfulCodec(cfg: Cfg) {
    forall b :: Encode(cfg, b).Some? ==> Decode(cfg, Encode(cfg, b).value) == Some(b)
  }

  /** The payload is the one chosen for its digest. No two payloads in play
      share a digest. */
  ghost predicate InPlay(cfg: Cfg, data: Bytes) {
    cfg.plain(DigestHex(cfg, data)) == data
  }

  ghost predicate AllInPlay(cfg: Cfg, chunks: seq<Bytes>) {
    forall i :: 0 <= i < |chunks| ==> InPlay(cfg, chunks[i])
  }

  /** The codec accepts every chunk. */
  ghost predicate Encodable(cfg: Cfg, chunks: seq<Bytes>) {
    forall i :: 0 <= i < |chunks| ==> Encode(cfg, chunks[i]).Some?
  }

  /** "In play" loses nothing: whenever the hash has no collision inside a set
      of payloads, `plain` can be chosen so that the whole set is in play. */
  lemma {:induction false} CollisionFreeSetsAreInPlay(cfg: Cfg, payloads: iset<Bytes>) returns (plain: string -> Bytes)
    requires forall a, b :: a in payloads && b in payloads && cfg.sha(a) == cfg.sha(b) ==> a == b
    ensures forall a :: a in payloads ==> InPlay(cfg.(plain := plain), a)
  {
    plain := (d: string) => Choice(cfg, payloads, d);
    forall a | a in payloads
      ensures InPlay(cfg.(plain := plain), a)
    {
      var b := Choice(cfg, payloads, DigestHex(cfg, a));
      HexInjective(cfg.sha(a), cfg.sha(b));
    }
  }

  ghost function Choice(cfg: Cfg, payloads: iset<Bytes>, d: string): Bytes {
    if exists p :: p in payloads && DigestHex(cfg, p) == d
    then var p :| p in payloads && DigestHex(cfg, p) == d; p
    else []
  }
}
