/** The three primitive wire formats the message codecs embed: a timestamp,
    a 32-byte hash and a full signature. Their implementations are not part
    of this model; each is given a fixed-width format here, and decoding
    fails, writing nothing, when fewer bytes remain than the width. */
module Primitives {
  import opened Encoding

  /** Width of a marshalled timestamp: the low 48 bits of its milliseconds. */
  const TimestampSize: nat := 6
  /** Width of a hash (constants.HASH_LENGTH). */
  const HashLength: nat := 32
  /** Width of a full signature: a 32-byte public key, then 64 signature bytes. */
  const SignatureSize: nat := 96

  /** A timestamp, as its milliseconds (the value GetTimeMilli returns). */
  type Timestamp = x: int | 0 <= x < 0x1_0000_0000_0000

  type Hash = b: Bytes | |b| == 32 witness seq(32, _ => 0)

  type Signature = b: Bytes | |b| == 96 witness seq(96, _ => 0)

  /** The hash a freshly allocated primitives.Hash holds. */
  const ZeroHash: Hash := seq(32, _ => 0)

  datatype PrimitiveError = NotEnoughData

  /** The signature part of a full signature, without its public key
      (Signature.GetSignature). */
  function SignatureBody(sig: Signature): (r: Bytes)
    ensures |r| == SignatureSize - 32 && sig[..32] + r == sig
  {
    sig[32..]
  }

  function MarshalTimestamp(t: Timestamp): (r: Bytes)
    ensures |r| == TimestampSize
  {
    BigEndian(t, TimestampSize)
  }

  function UnmarshalTimestamp(s: Bytes): Result<(Timestamp, Bytes), PrimitiveError>
  {
    if |s| < TimestampSize then Failure(NotEnoughData)
    else
      assert Pow256(6) == 0x1_0000_0000_0000;
      Success((FromBigEndian(s[..TimestampSize]), s[TimestampSize..]))
  }

  function UnmarshalHash(s: Bytes): Result<(Hash, Bytes), PrimitiveError>
  {
    if |s| < HashLength then Failure(NotEnoughData) else Success((s[..HashLength], s[HashLength..]))
  }

  function UnmarshalSignature(s: Bytes): Result<(Signature, Bytes), PrimitiveError>
  {
    if |s| < SignatureSize then Failure(NotEnoughData) else Success((s[..SignatureSize], s[SignatureSize..]))
  }

  /** A timestamp read back after it is marshalled, whatever follows it. */
  lemma {:induction false} TimestampRoundTrip(t: Timestamp, rest: Bytes)
    ensures UnmarshalTimestamp(MarshalTimestamp(t) + rest) == Success((t, rest))
  {
    var s := MarshalTimestamp(t) + rest;
    assert Pow256(6) == 0x1_0000_0000_0000;
    BigEndianRoundTrip(t, 6);
    assert s[..6] == MarshalTimestamp(t);
    assert s[6..] == rest;
  }

  /** Whatever the timestamp decoder accepts is a marshalled timestamp. */
  lemma {:induction false} TimestampDecodeInverse(s: Bytes)
    requires UnmarshalTimestamp(s).Success?
    ensures var (t, rest) := UnmarshalTimestamp(s).value;
      s == MarshalTimestamp(t) + rest
  {
    FromBigEndianRoundTrip(s[..6]);
    assert s == s[..6] + s[6..];
  }

  lemma HashRoundTrip(h: Hash, rest: Bytes)
    ensures UnmarshalHash(h + rest) == Success((h, rest))
  {
    assert (h + rest)[..32] == h;
  }

  lemma SignatureRoundTrip(sig: Signature, rest: Bytes)
    ensures UnmarshalSignature(sig + rest) == Success((sig, rest))
  {
    assert (sig + rest)[..96] == sig;
  }
}
