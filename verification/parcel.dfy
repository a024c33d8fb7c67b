/** The p2p envelope: a Parcel is a fixed 28-byte big-endian header, three
    length-prefixed strings and a length-prefixed payload, whose first four
    bytes are patched with the total encoded length. */
module Parcels {
  import opened Encoding

  /** Number of bytes in the fixed part of an encoded parcel header. */
  const ParcelHeaderSize: nat := 28

  // ParcelCommandType values, in wire order.
  const TypeHeartbeat: uint16 := 0
  const TypePing: uint16 := 1
  const TypePong: uint16 := 2
  const TypePeerRequest: uint16 := 3
  const TypePeerResponse: uint16 := 4
  const TypeAlert: uint16 := 5
  const TypeMessage: uint16 := 6

  /** The protocol version and the listening port this node stamps into a new
      header; both are settings of the p2p package whose values are not part
      of this model. */
  const ProtocolVersion: uint16
  const NetworkListenPort: Bytes

  /** A parcel header. It is a Go struct copied by value into a parcel, so it
      is a value here too. */
  datatype ParcelHeader = ParcelHeader(
    Network: uint32,
    Version: uint16,
    Type: uint16,
    Length: uint32,
    Crc32: uint32,
    NodeID: uint64,
    TargetPeer: Bytes,
    PeerAddress: Bytes,
    PeerPort: Bytes)
  {
    /** The header after ParcelHeader.Init(network) has run on it. */
    function Init(network: uint32): (r: ParcelHeader)
      ensures r.Network == network && r.Version == ProtocolVersion && r.Type == TypeMessage
      ensures r.TargetPeer == [] && r.PeerPort == NetworkListenPort
      ensures r.Length == Length && r.Crc32 == Crc32 && r.NodeID == NodeID && r.PeerAddress == PeerAddress
    {
      this.(Network := network, Version := ProtocolVersion, Type := TypeMessage,
            TargetPeer := [], PeerPort := NetworkListenPort)
    }
  }

  /** The zero header, as new(ParcelHeader) allocates it. */
  const ZeroHeader := ParcelHeader(0, 0, 0, 0, 0, 0, [], [], [])

  // ---------------------------------------------------------------------
  // Checksum: CRC-32 over the table built from Koopman's polynomial.

  /** Koopman's polynomial in the reversed (LSB-first) form Go's hash/crc32 uses. */
  const KoopmanReversed: bv32 := 0xEB31_D82E

  /** k rounds of the bitwise CRC shift register. */
  function CrcShift(crc: bv32, k: nat): bv32
    decreases k
  {
    if k == 0 then crc
    else CrcShift(if crc & 1 == 1 then (crc >> 1) ^ KoopmanReversed else crc >> 1, k - 1)
  }

  /** Feeding bytes through the register, one table step per byte. */
  function CrcUpdate(crc: bv32, data: Bytes): bv32
    decreases |data|
  {
    if data == [] then crc else CrcUpdate(CrcShift(crc ^ (data[0] as bv32), 8), data[1..])
  }

  /** crc32.Checksum(data, CRCKoopmanTable). */
  function Crc32Koopman(data: Bytes): uint32
  {
    (!CrcUpdate(0xFFFF_FFFF, data)) as int
  }

  /** The invariant UpdateHeader establishes: the header describes its payload. */
  ghost predicate Describes(h: ParcelHeader, payload: Bytes)
  {
    h.Length == |payload| % 0x1_0000_0000 && h.Crc32 == Crc32Koopman(payload)
  }

  // ---------------------------------------------------------------------
  // Encoding

  /** A string or payload as written on the wire: its uint32 length, then its bytes. */
  function LengthPrefixed(b: Bytes): (r: Bytes)
    ensures |r| == 4 + |b|
  {
    BigEndian(|b|, 4) + b
  }

  /** The fixed 28 bytes of the header, with `first` in bytes 0..4. */
  function FixedHeader(first: nat, h: ParcelHeader): (r: Bytes)
    ensures |r| == ParcelHeaderSize
  {
    BigEndian(first, 4) + BigEndian(h.Network, 4) + BigEndian(h.Version, 2)
    + BigEndian(h.Type, 2) + BigEndian(h.Length, 4) + BigEndian(h.Crc32, 4)
    + BigEndian(h.NodeID, 8)
  }

  /** Everything after the fixed header. */
  function Strings(h: ParcelHeader, payload: Bytes): Bytes
  {
    LengthPrefixed(h.TargetPeer)
    + (LengthPrefixed(h.PeerAddress) + (LengthPrefixed(h.PeerPort) + LengthPrefixed(payload)))
  }

  /** Size of the encoding: the fixed header, four length prefixes, and the bytes. */
  function EncodedSize(h: ParcelHeader, payload: Bytes): nat
  {
    ParcelHeaderSize + 16 + |h.TargetPeer| + |h.PeerAddress| + |h.PeerPort| + |payload|
  }

  /** The bytes MarshalBinary returns for a parcel with this header and payload. */
  function Encode(h: ParcelHeader, payload: Bytes): (r: Bytes)
    ensures |r| == EncodedSize(h, payload)
  {
    FixedHeader(EncodedSize(h, payload), h) + Strings(h, payload)
  }

  // ---------------------------------------------------------------------
  // Decoding

  datatype DecodeError =
    | Truncated   // a fixed field or a declared length runs past the end of the buffer
    | Panic       // the source indexes or slices past the end of its buffer

  /** What a decode assigns: the private `length`, the header and the payload. */
  datatype DecodedParcel = DecodedParcel(length: uint32, Header: ParcelHeader, Payload: Bytes)

  /** One length-prefixed field read at the cursor: the bytes and the rest. */
  function TakePrefixed(s: Bytes): Result<(Bytes, Bytes), DecodeError>
  {
    if |s| < 4 then Failure(Truncated)
    else
      var n := Uint32BE(s);
      if |s| - 4 < n then Failure(Truncated) else Success((s[4..4 + n], s[4 + n..]))
  }

  /** The intended decoder: every field is read at the advancing cursor, a
      declared length that runs past the end is a framing error, and the
      remainder starts after the payload. */
  function Decode(data: Bytes): Result<(DecodedParcel, Bytes), DecodeError>
  {
    if |data| < ParcelHeaderSize then Failure(Truncated)
    else
      var tp :- TakePrefixed(data[28..]);
      var pa :- TakePrefixed(tp.1);
      var pp :- TakePrefixed(pa.1);
      var pl :- TakePrefixed(pp.1);
      var h := ParcelHeader(Uint32BE(data[4..]), Uint16BE(data[8..]), Uint16BE(data[10..]),
                            Uint32BE(data[12..]), Uint32BE(data[16..]), Uint64BE(data[20..]),
                            tp.0, pa.0, pp.0);
      Success((DecodedParcel(Uint32BE(data), h, pl.0), pl.1))
  }

  /** UnmarshalBinaryData exactly as written: every value is read from the
      start of Data, the cursor moves only over the fixed fields and the four
      length prefixes (never over the string bytes), every declared length is
      the first four bytes of Data, and a slice past the end panics. */
  function DecodeAsWritten(Data: Bytes): (r: Result<(DecodedParcel, Bytes), DecodeError>)
    ensures r.Failure? <==> |Data| < 44 || |Data| - 44 < Uint32BE(Data)
    ensures r.Failure? ==> r.error == Panic
    ensures r.Success? ==> var (d, rest) := r.value;
      && d.length == Uint32BE(Data)
      && d.Header.Network == d.length && d.Header.Length == d.length && d.Header.Crc32 == d.length
      && d.Header.Version == Uint16BE(Data) && d.Header.Type == Uint16BE(Data) && d.Header.NodeID == Uint64BE(Data)
      && d.Header.TargetPeer == Data[32..32 + d.length]
      && d.Header.PeerAddress == Data[36..36 + d.length]
      && d.Header.PeerPort == Data[40..40 + d.length]
      && rest == Data[44..] && |d.Payload| == d.length && rest[..|d.Payload|] == d.Payload
  {
    if |Data| < 44 || |Data| - 44 < Uint32BE(Data) then Failure(Panic)
    else
      var blen := Uint32BE(Data);
      var h := ParcelHeader(blen, Uint16BE(Data), Uint16BE(Data), blen, blen, Uint64BE(Data),
                            Data[32..32 + blen], Data[36..36 + blen], Data[40..40 + blen]);
      Success((DecodedParcel(blen, h, Data[44..44 + blen]), Data[44..]))
  }

  // ---------------------------------------------------------------------
  // Properties of the encoding

  lemma TakePrefixedOfLengthPrefixed(b: Bytes, rest: Bytes)
    requires |b| < 0x1_0000_0000
    ensures TakePrefixed(LengthPrefixed(b) + rest) == Success((b, rest))
  {
    var s := LengthPrefixed(b) + rest;
    assert s[..4] == BigEndian(|b|, 4);
    BigEndianRoundTrip(|b|, 4);
    assert s[4..4 + |b|] == b;
    assert s[4 + |b|..] == rest;
  }

  /** Reading a fixed field at offset k of the fixed header gives back the value written there. */
  lemma FixedHeaderFields(first: nat, h: ParcelHeader, tail: Bytes)
    requires first < 0x1_0000_0000
    ensures var d := FixedHeader(first, h) + tail;
      && Uint32BE(d) == first && Uint32BE(d[4..]) == h.Network
      && Uint16BE(d[8..]) == h.Version && Uint16BE(d[10..]) == h.Type
      && Uint32BE(d[12..]) == h.Length && Uint32BE(d[16..]) == h.Crc32
      && Uint64BE(d[20..]) == h.NodeID && d[28..] == tail
  {
    var d := FixedHeader(first, h) + tail;
    assert d[..4] == BigEndian(first, 4);
    assert d[4..][..4] == BigEndian(h.Network, 4);
    assert d[8..][..2] == BigEndian(h.Version, 2);
    assert d[10..][..2] == BigEndian(h.Type, 2);
    assert d[12..][..4] == BigEndian(h.Length, 4);
    assert d[16..][..4] == BigEndian(h.Crc32, 4);
    assert d[20..][..8] == BigEndian(h.NodeID, 8);
    BigEndianRoundTrip(first, 4);
    BigEndianRoundTrip(h.Network, 4);
    BigEndianRoundTrip(h.Version, 2);
    BigEndianRoundTrip(h.Type, 2);
    BigEndianRoundTrip(h.Length, 4);
    BigEndianRoundTrip(h.Crc32, 4);
    BigEndianRoundTrip(h.NodeID, 8);
  }

  /** A length-prefixed field found at offset k: its uint32 length, its bytes,
      and what follows it. */
  lemma PrefixedFieldAt(s: Bytes, k: nat, b: Bytes, post: Bytes)
    requires |b| < 0x1_0000_0000
    requires k <= |s| && s[k..] == LengthPrefixed(b) + post
    ensures k + 4 + |b| <= |s|
    ensures Uint32BE(s[k..]) == |b| && s[k + 4..k + 4 + |b|] == b && s[k + 4 + |b|..] == post
  {
    assert s[k..][..4] == BigEndian(|b|, 4);
    BigEndianRoundTrip(|b|, 4);
    assert s[k + 4..k + 4 + |b|] == s[k..][4..4 + |b|];
    assert s[k + 4 + |b|..] == s[k..][4 + |b|..];
  }

  /** Byte layout of an encoded parcel, fixed part: the total length, then
      the header fields at their offsets. */
  lemma EncodeHeaderLayout(h: ParcelHeader, payload: Bytes)
    requires EncodedSize(h, payload) < 0x1_0000_0000
    ensures var e := Encode(h, payload);
      && Uint32BE(e) == |e|
      && Uint32BE(e[4..]) == h.Network && Uint16BE(e[8..]) == h.Version
      && Uint16BE(e[10..]) == h.Type && Uint32BE(e[12..]) == h.Length
      && Uint32BE(e[16..]) == h.Crc32 && Uint64BE(e[20..]) == h.NodeID
      && e[28..] == Strings(h, payload)
  {
    FixedHeaderFields(EncodedSize(h, payload), h, Strings(h, payload));
  }

  /** Byte layout of an encoded parcel, after the fixed part: each string and
      the payload after its uint32 length. */
  lemma EncodeStringsLayout(h: ParcelHeader, payload: Bytes)
    requires EncodedSize(h, payload) < 0x1_0000_0000
    ensures var e := Encode(h, payload);
      var a := 32 + |h.TargetPeer|;
      var b := a + 4 + |h.PeerAddress|;
      var c := b + 4 + |h.PeerPort|;
      && Uint32BE(e[28..]) == |h.TargetPeer| && e[32..a] == h.TargetPeer
      && Uint32BE(e[a..]) == |h.PeerAddress| && e[a + 4..b] == h.PeerAddress
      && Uint32BE(e[b..]) == |h.PeerPort| && e[b + 4..c] == h.PeerPort
      && Uint32BE(e[c..]) == |payload| && e[c + 4..] == payload
  {
    EncodeHeaderLayout(h, payload);
    StringsAt(Encode(h, payload), h, payload);
  }

  lemma StringsAt(e: Bytes, h: ParcelHeader, payload: Bytes)
    requires |h.TargetPeer| + |h.PeerAddress| + |h.PeerPort| + |payload| < 0x1_0000_0000
    requires |e| >= 28 && e[28..] == Strings(h, payload)
    ensures var a := 32 + |h.TargetPeer|;
      var b := a + 4 + |h.PeerAddress|;
      var c := b + 4 + |h.PeerPort|;
      && c + 4 + |payload| == |e|
      && Uint32BE(e[28..]) == |h.TargetPeer| && e[32..a] == h.TargetPeer
      && Uint32BE(e[a..]) == |h.PeerAddress| && e[a + 4..b] == h.PeerAddress
      && Uint32BE(e[b..]) == |h.PeerPort| && e[b + 4..c] == h.PeerPort
      && Uint32BE(e[c..]) == |payload| && e[c + 4..] == payload
  {
    var B, C, D := LengthPrefixed(h.PeerAddress), LengthPrefixed(h.PeerPort), LengthPrefixed(payload);
    PrefixedFieldAt(e, 28, h.TargetPeer, B + (C + D));
    PrefixedFieldAt(e, 32 + |h.TargetPeer|, h.PeerAddress, C + D);
    PrefixedFieldAt(e, 36 + |h.TargetPeer| + |h.PeerAddress|, h.PeerPort, D);
    assert D == LengthPrefixed(payload) + [];
    PrefixedFieldAt(e, 40 + |h.TargetPeer| + |h.PeerAddress| + |h.PeerPort|, payload, []);
  }

  /** Round trip: decoding an encoding (followed by anything) restores every
      header field and the payload, sets `length` to the encoded size, and
      leaves exactly the bytes that followed. */
  lemma DecodeEncode(h: ParcelHeader, payload: Bytes, rest: Bytes)
    requires EncodedSize(h, payload) < 0x1_0000_0000
    ensures Decode(Encode(h, payload) + rest)
         == Success((DecodedParcel(EncodedSize(h, payload), h, payload), rest))
  {
    var t3 := LengthPrefixed(payload) + rest;
    var t2 := LengthPrefixed(h.PeerPort) + t3;
    var t1 := LengthPrefixed(h.PeerAddress) + t2;
    var tail := LengthPrefixed(h.TargetPeer) + t1;
    var A, B, C, D := LengthPrefixed(h.TargetPeer), LengthPrefixed(h.PeerAddress),
                      LengthPrefixed(h.PeerPort), LengthPrefixed(payload);
    Assoc(FixedHeader(EncodedSize(h, payload), h), Strings(h, payload), rest);
    Assoc(A, B + (C + D), rest);
    Assoc(B, C + D, rest);
    Assoc(C, D, rest);
    FixedHeaderFields(EncodedSize(h, payload), h, tail);
    TakePrefixedOfLengthPrefixed(h.TargetPeer, t1);
    TakePrefixedOfLengthPrefixed(h.PeerAddress, t2);
    TakePrefixedOfLengthPrefixed(h.PeerPort, t3);
    TakePrefixedOfLengthPrefixed(payload, rest);
  }

  /** Appending each length and string in turn to the fixed header builds
      the encoding's tail. */
  lemma AppendStrings(fixed: Bytes, h: ParcelHeader, payload: Bytes)
    ensures fixed + BigEndian(|h.TargetPeer|, 4) + h.TargetPeer
            + BigEndian(|h.PeerAddress|, 4) + h.PeerAddress
            + BigEndian(|h.PeerPort|, 4) + h.PeerPort
            + BigEndian(|payload|, 4) + payload
         == fixed + Strings(h, payload)
  {
    var A, B, C, D := LengthPrefixed(h.TargetPeer), LengthPrefixed(h.PeerAddress),
                      LengthPrefixed(h.PeerPort), LengthPrefixed(payload);
    Assoc(fixed, BigEndian(|h.TargetPeer|, 4), h.TargetPeer);
    Assoc(fixed + A, BigEndian(|h.PeerAddress|, 4), h.PeerAddress);
    Assoc(fixed + A + B, BigEndian(|h.PeerPort|, 4), h.PeerPort);
    Assoc(fixed + A + B + C, BigEndian(|payload|, 4), payload);
    Assoc(fixed + A + B, C, D);
    Assoc(fixed + A, B, C + D);
    Assoc(fixed, A, B + (C + D));
  }

  lemma Assoc(a: Bytes, b: Bytes, c: Bytes)
    ensures a + b + c == a + (b + c)
  {
  }

  /** Overwriting bytes 0..4 of a fixed header with another value's image
      gives the fixed header with that value first. */
  lemma PatchFirst(x: nat, y: nat, h: ParcelHeader, tail: Bytes)
    ensures BigEndian(x, 4) + (FixedHeader(y, h) + tail)[4..] == FixedHeader(x, h) + tail
  {
    var rest := BigEndian(h.Network, 4) + BigEndian(h.Version, 2) + BigEndian(h.Type, 2)
                + BigEndian(h.Length, 4) + BigEndian(h.Crc32, 4) + BigEndian(h.NodeID, 8);
    assert FixedHeader(y, h) == BigEndian(y, 4) + rest;
    assert FixedHeader(x, h) == BigEndian(x, 4) + rest;
    assert (BigEndian(y, 4) + rest + tail)[4..] == rest + tail;
  }

  /** The round trip with nothing after the encoding. */
  lemma DecodeEncodeExact(h: ParcelHeader, payload: Bytes)
    requires EncodedSize(h, payload) < 0x1_0000_0000
    ensures Decode(Encode(h, payload)) == Success((DecodedParcel(EncodedSize(h, payload), h, payload), []))
  {
    var e := Encode(h, payload);
    DecodeEncode(h, payload, []);
    assert e + [] == e;
  }

  lemma TakePrefixedInverse(s: Bytes)
    requires TakePrefixed(s).Success?
    ensures var (b, rest) := TakePrefixed(s).value;
      |b| < 0x1_0000_0000 && s == LengthPrefixed(b) + rest
  {
    var (b, rest) := TakePrefixed(s).value;
    FromBigEndianRoundTrip(s[..4]);
    assert s == s[..4] + b + rest;
  }

  lemma FixedHeaderInverse(data: Bytes, h: ParcelHeader)
    requires |data| >= ParcelHeaderSize
    requires h.Network == Uint32BE(data[4..]) && h.Version == Uint16BE(data[8..])
    requires h.Type == Uint16BE(data[10..]) && h.Length == Uint32BE(data[12..])
    requires h.Crc32 == Uint32BE(data[16..]) && h.NodeID == Uint64BE(data[20..])
    ensures data == FixedHeader(Uint32BE(data), h) + data[28..]
  {
    FromBigEndianRoundTrip(data[..4]);
    FromBigEndianRoundTrip(data[4..8]);
    FromBigEndianRoundTrip(data[8..10]);
    FromBigEndianRoundTrip(data[10..12]);
    FromBigEndianRoundTrip(data[12..16]);
    FromBigEndianRoundTrip(data[16..20]);
    FromBigEndianRoundTrip(data[20..28]);
    assert data[4..][..4] == data[4..8];
    assert data[8..][..2] == data[8..10];
    assert data[10..][..2] == data[10..12];
    assert data[12..][..4] == data[12..16];
    assert data[16..][..4] == data[16..20];
    assert data[20..][..8] == data[20..28];
    assert data == data[..4] + data[4..8] + data[8..10] + data[10..12] + data[12..16]
                   + data[16..20] + data[20..28] + data[28..];
  }

  /** The converse round trip: whatever Decode accepts is an encoding of what
      it returns, apart from bytes 0..4, which it reads back as `length`. */
  lemma EncodeDecode(data: Bytes)
    requires Decode(data).Success?
    ensures var (d, rest) := Decode(data).value;
      data == FixedHeader(d.length, d.Header) + Strings(d.Header, d.Payload) + rest
  {
    var (d, rest) := Decode(data).value;
    var tp := TakePrefixed(data[28..]).value;
    var pa := TakePrefixed(tp.1).value;
    var pp := TakePrefixed(pa.1).value;
    TakePrefixedInverse(data[28..]);
    TakePrefixedInverse(tp.1);
    TakePrefixedInverse(pa.1);
    TakePrefixedInverse(pp.1);
    FixedHeaderInverse(data, d.Header);
    var A, B, C, D := LengthPrefixed(tp.0), LengthPrefixed(pa.0), LengthPrefixed(pp.0), LengthPrefixed(d.Payload);
    assert data[28..] == A + (B + (C + (D + rest)));
    Assoc(C, D, rest);
    Assoc(B, C + D, rest);
    Assoc(A, B + (C + D), rest);
    Assoc(FixedHeader(d.length, d.Header), Strings(d.Header, d.Payload), rest);
  }

  /** Decode never reads past the end of its buffer: every length it accepts
      fits in what was given. */
  lemma DecodeIsBounded(data: Bytes)
    requires Decode(data).Success?
    ensures var (d, rest) := Decode(data).value;
      EncodedSize(d.Header, d.Payload) + |rest| == |data|
  {
    EncodeDecode(data);
  }

  // ---------------------------------------------------------------------
  // What the decoder as written does

  /** As written, the decoder rejects every encoding shorter than 4 GiB: it
      takes the total length in bytes 0..4 for the target-peer length, which
      is always longer than what is left after the 32 bytes it has moved
      over. */
  lemma AsWrittenRejectsEveryEncoding(h: ParcelHeader, payload: Bytes)
    requires EncodedSize(h, payload) < 0x1_0000_0000
    ensures DecodeAsWritten(Encode(h, payload)) == Failure(Panic)
    ensures Decode(Encode(h, payload)).Success?
  {
    EncodeHeaderLayout(h, payload);
    DecodeEncodeExact(h, payload);
  }

  /** A concrete buffer the decoder as written accepts: its one-byte payload
      is returned, and the remainder it hands back still begins with it. */
  lemma AsWrittenRemainderNotAdvanced()
    ensures var data := [0, 0, 0, 1] + seq(40, _ => 0) + [7];
      && DecodeAsWritten(data).Success?
      && DecodeAsWritten(data).value.0.Payload == [7]
      && DecodeAsWritten(data).value.1 == [7]
  {
    var data: Bytes := [0, 0, 0, 1] + seq(40, _ => 0) + [7];
    assert data[..4] == [0, 0, 0, 1];
    assert FromBigEndian([0]) == 0 && FromBigEndian([0, 0]) == 0 && FromBigEndian([0, 0, 0]) == 0;
    assert [0, 0, 0, 1][..3] == [0, 0, 0];
    assert Uint32BE(data) == 1;
    assert data[44..45] == [7] && data[44..] == [7];
  }

  // ---------------------------------------------------------------------
  // The Parcel object

  /** The header NewParcel(network, payload) produces: a zero header after
      Init(network), then described by UpdateHeader. */
  function NewHeader(network: uint32, payload: Bytes): ParcelHeader
  {
    ZeroHeader.Init(network).(Crc32 := Crc32Koopman(payload), Length := |payload| % 0x1_0000_0000)
  }

  /** A parcel made by NewParcel decodes to its network, type Message, its
      payload, a Length equal to the payload size and the payload's
      checksum, with nothing left over. */
  lemma NewParcelRoundTrip(network: uint32, payload: Bytes)
    requires EncodedSize(NewHeader(network, payload), payload) < 0x1_0000_0000
    ensures var r := Decode(Encode(NewHeader(network, payload), payload));
      && r.Success? && r.value.1 == []
      && r.value.0.Payload == payload
      && r.value.0.Header.Network == network
      && r.value.0.Header.Type == TypeMessage
      && r.value.0.Header.Length == |payload|
      && r.value.0.Header.Crc32 == Crc32Koopman(payload)
  {
    var h := NewHeader(network, payload);
    assert h.Network == network && h.Type == TypeMessage;
    assert h.Length == |payload| && h.Crc32 == Crc32Koopman(payload);
    DecodeEncodeExact(h, payload);
  }

  /** A parcel: the private `length` a decode records, the header and the payload. */
  class Parcel {
    var length: int
    var Header: ParcelHeader
    var Payload: Bytes

    /** new(Parcel): every field zero. */
    constructor ()
      ensures length == 0 && Header == ZeroHeader && Payload == []
    {
      length, Header, Payload := 0, ZeroHeader, [];
    }

    /** Parcel.Init: install a copy of the given header. */
    method Init(header: ParcelHeader)
      modifies this`Header
      ensures Header == header
    {
      Header := header;
    }

    /** Make the header describe the payload: its CRC-32 (Koopman) and its
        length truncated to 32 bits. No other field changes. */
    method UpdateHeader()
      modifies this`Header
      ensures Header == old(Header).(Crc32 := Crc32Koopman(Payload), Length := |Payload| % 0x1_0000_0000)
      ensures Describes(Header, Payload)
    {
      Header := Header.(Crc32 := Crc32Koopman(Payload));
      Header := Header.(Length := |Payload| % 0x1_0000_0000);
    }

    /** Write the fields in order into a buffer (Header.Length as a placeholder
        in bytes 0..4), copy it, and patch bytes 0..4 with the copy's length. */
    method MarshalBinary() returns (data: Bytes)
      ensures data == Encode(Header, Payload)
    {
      var buf: Bytes := BigEndian(Header.Length, 4);
      buf := buf + BigEndian(Header.Network, 4);
      buf := buf + BigEndian(Header.Version, 2);
      buf := buf + BigEndian(Header.Type, 2);
      buf := buf + BigEndian(Header.Length, 4);
      buf := buf + BigEndian(Header.Crc32, 4);
      buf := buf + BigEndian(Header.NodeID, 8);
      assert buf == FixedHeader(Header.Length, Header);
      ghost var fixed := buf;
      var b := Header.TargetPeer;
      buf := buf + BigEndian(|b|, 4);
      buf := buf + b;
      b := Header.PeerAddress;
      buf := buf + BigEndian(|b|, 4);
      buf := buf + b;
      b := Header.PeerPort;
      buf := buf + BigEndian(|b|, 4);
      buf := buf + b;
      b := Payload;
      buf := buf + BigEndian(|b|, 4);
      buf := buf + b;
      AppendStrings(fixed, Header, Payload);

      // Patch up the parcel length.
      var a := new byte[|buf|](i requires 0 <= i < |buf| => buf[i]);
      var blen := a.Length;
      a[0] := blen / 0x100_0000 % 0x100;
      a[1] := blen / 0x1_0000 % 0x100;
      a[2] := blen / 0x100 % 0x100;
      a[3] := blen % 0x100;
      data := a[..];

      BigEndian4(blen);
      assert data == BigEndian(blen, 4) + buf[4..];
      PatchFirst(blen, Header.Length, Header, Strings(Header, Payload));
    }

    /** The intended, cursor-reading UnmarshalBinaryData. On success it
        assigns `length`, the whole header and the payload (replacing, not
        appending to, the old payload) and returns the bytes after the
        payload; on a framing error it returns the error and changes nothing. */
    method UnmarshalBinaryData(Data: Bytes) returns (newData: Bytes, err: Option<DecodeError>)
      modifies this
      ensures Decode(Data).Success? ==>
        var (d, rest) := Decode(Data).value;
        && err == None && newData == rest
        && length == d.length && Header == d.Header && Payload == d.Payload
      ensures Decode(Data).Failure? ==>
        && err == Some(Decode(Data).error) && newData == []
        && length == old(length) && Header == old(Header) && Payload == old(Payload)
    {
      if |Data| < ParcelHeaderSize {
        return [], Some(Truncated);
      }
      var len := Uint32BE(Data);
      newData := Data[4..];
      var network := Uint32BE(newData);
      newData := newData[4..];
      var version := Uint16BE(newData);
      newData := newData[2..];
      var typ := Uint16BE(newData);
      newData := newData[2..];
      var plen := Uint32BE(newData);
      newData := newData[4..];
      var crc := Uint32BE(newData);
      newData := newData[4..];
      var node := Uint64BE(newData);
      newData := newData[8..];
      assert newData == Data[28..];
      assert network == Uint32BE(Data[4..]) && version == Uint16BE(Data[8..]) && typ == Uint16BE(Data[10..]);
      assert plen == Uint32BE(Data[12..]) && crc == Uint32BE(Data[16..]) && node == Uint64BE(Data[20..]);

      var targetPeer, peerAddress, peerPort, payload;
      var ok;
      targetPeer, newData, ok := ReadPrefixed(newData);
      if !ok {
        return [], Some(Truncated);
      }
      peerAddress, newData, ok := ReadPrefixed(newData);
      if !ok {
        return [], Some(Truncated);
      }
      peerPort, newData, ok := ReadPrefixed(newData);
      if !ok {
        return [], Some(Truncated);
      }
      payload, newData, ok := ReadPrefixed(newData);
      if !ok {
        return [], Some(Truncated);
      }

      length := len;
      Header := ParcelHeader(network, version, typ, plen, crc, node, targetPeer, peerAddress, peerPort);
      Payload := payload;
      err := None;
    }
  }

  /** One length-prefixed string at the cursor: its uint32 length, then the
      bytes, advancing the cursor past both. */
  method ReadPrefixed(newData: Bytes) returns (b: Bytes, rest: Bytes, ok: bool)
    ensures ok == TakePrefixed(newData).Success?
    ensures ok ==> (b, rest) == TakePrefixed(newData).value
  {
    b, rest := [], newData;
    if |rest| < 4 {
      return b, rest, false;
    }
    var blen := Uint32BE(rest);
    rest := rest[4..];
    if |rest| < blen {
      return b, rest, false;
    }
    b := rest[..blen];
    rest := rest[blen..];
    assert b == newData[4..4 + blen] && rest == newData[4 + blen..];
    ok := true;
  }

  /** NewParcel: a zero header initialised for the network, installed in a
      new parcel together with the payload, then updated to describe it. */
  method NewParcel(network: uint32, payload: Bytes) returns (p: Parcel)
    ensures fresh(p)
    ensures p.Header == NewHeader(network, payload)
    ensures p.Header.Network == network && p.Header.Type == TypeMessage
    ensures p.Header.Version == ProtocolVersion && p.Header.PeerPort == NetworkListenPort
    ensures p.Header.TargetPeer == [] && p.Header.PeerAddress == [] && p.Header.NodeID == 0
    ensures p.Payload == payload && p.length == 0
    ensures Describes(p.Header, p.Payload)
  {
    var header := ZeroHeader.Init(network);
    p := new Parcel();
    p.Init(header);
    p.Payload := payload;
    p.UpdateHeader();
  }
}
