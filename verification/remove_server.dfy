/** The RemoveServer message: asks the network to drop a federated (0) or
    audit (1) server. On the wire it is a type byte, a timestamp, the
    server's chain id, a one-byte server type and, optionally, a signature
    over those first four parts. */
module RemoveServer {
  import opened Encoding
  import opened Primitives

  /** constants.REMOVESERVER_MSG: the type byte of this message. Its value is
      set elsewhere in the program and is not part of this model. */
  const RemoveServerMsgType: byte

  /** The message's content: everything but the cached hash. */
  datatype Fields = Fields(
    Timestamp: Timestamp,
    ServerChainID: Hash,
    ServerType: int,
    Signature: Option<Signature>)

  datatype DecodeError =
    | Panic                               // indexing an empty buffer: the deferred recover never runs
    | InvalidMessageType                  // the leading byte is not RemoveServerMsgType
    | Primitive(cause: PrimitiveError)    // a timestamp, hash or signature is cut short

  /** Size of the signable part: type byte, timestamp, chain id, server type. */
  const SignableSize: nat := 1 + TimestampSize + HashLength + 1

  /** The bytes that are signed and hashed. The server type is written as a
      uint8, keeping its low 8 bits. */
  function SignableEncoding(f: Fields): (r: Bytes)
    ensures |r| == SignableSize
    ensures r[0] == RemoveServerMsgType && r[SignableSize - 1] == f.ServerType % 256
  {
    [RemoveServerMsgType] + MarshalTimestamp(f.Timestamp) + f.ServerChainID + [f.ServerType % 256]
  }

  /** The full encoding: the signable part, then the signature if there is one. */
  function FullEncoding(f: Fields): (r: Bytes)
    ensures |r| == SignableSize + (if f.Signature.Some? then SignatureSize else 0)
    ensures r[..SignableSize] == SignableEncoding(f)
  {
    SignableEncoding(f) + if f.Signature.Some? then f.Signature.value else []
  }

  /** UnmarshalBinaryData as a function of its input: the decoded content and
      the rest. A signature is read only when more than 32 bytes follow the
      server type; otherwise the decoded Signature is None. */
  function Decode(data: Bytes): Result<(Fields, Bytes), DecodeError>
  {
    if |data| == 0 then Failure(Panic)
    else if data[0] != RemoveServerMsgType then Failure(InvalidMessageType)
    else match UnmarshalTimestamp(data[1..])
      case Failure(e) => Failure(Primitive(e))
      case Success((ts, r1)) =>
        match UnmarshalHash(r1)
        case Failure(e) => Failure(Primitive(e))
        case Success((id, r2)) =>
          if |r2| == 0 then Failure(Panic)
          else
            var st, r3 := r2[0], r2[1..];
            if |r3| > 32 then
              match UnmarshalSignature(r3)
              case Failure(e) => Failure(Primitive(e))
              case Success((sig, r4)) => Success((Fields(ts, id, st, Some(sig)), r4))
            else Success((Fields(ts, id, st, None), r3))
  }

  // ---------------------------------------------------------------------
  // Properties of the codec

  /** The signable part reads back as the timestamp, the chain id, the
      server type's low 8 bits, and whatever follows. */
  lemma SignableLayout(f: Fields, tail: Bytes)
    ensures var s := SignableEncoding(f) + tail;
      && UnmarshalTimestamp(s[1..]) == Success((f.Timestamp, f.ServerChainID + ([f.ServerType % 256] + tail)))
      && UnmarshalHash(f.ServerChainID + ([f.ServerType % 256] + tail)) == Success((f.ServerChainID, [f.ServerType % 256] + tail))
  {
    var s := SignableEncoding(f) + tail;
    var T := MarshalTimestamp(f.Timestamp);
    assert s[1..] == T + (f.ServerChainID + ([f.ServerType % 256] + tail));
    TimestampRoundTrip(f.Timestamp, f.ServerChainID + ([f.ServerType % 256] + tail));
    HashRoundTrip(f.ServerChainID, [f.ServerType % 256] + tail);
  }

  /** Round trip: decoding an encoding restores the content, with the server
      type cut to its low 8 bits, and returns what followed. An unsigned
      encoding reads back unsigned only when at most 32 bytes follow it. */
  lemma DecodeEncode(f: Fields, rest: Bytes)
    requires f.Signature.Some? || |rest| <= 32
    ensures Decode(FullEncoding(f) + rest) == Success((f.(ServerType := f.ServerType % 256), rest))
  {
    var tail := (if f.Signature.Some? then f.Signature.value else []) + rest;
    assert FullEncoding(f) + rest == SignableEncoding(f) + tail;
    SignableLayout(f, tail);
    if f.Signature.Some? {
      SignatureRoundTrip(f.Signature.value, rest);
    } else {
      assert tail == rest;
    }
  }

  /** The converse: whatever Decode accepts is the encoding of what it
      returns, followed by the rest; the decoded server type is one byte. */
  lemma EncodeDecode(data: Bytes)
    requires Decode(data).Success?
    ensures var (f, rest) := Decode(data).value;
      && 0 <= f.ServerType < 256
      && data == FullEncoding(f) + rest
  {
    var (f, rest) := Decode(data).value;
    TimestampDecodeInverse(data[1..]);
    var r1 := UnmarshalTimestamp(data[1..]).value.1;
    var r2 := r1[32..];
    assert data == [data[0]] + MarshalTimestamp(f.Timestamp) + (f.ServerChainID + ([r2[0]] + r2[1..]));
    if f.Signature.Some? {
      assert r2[1..] == f.Signature.value + rest;
    }
  }

  /** A buffer whose first byte is not the type byte is refused. */
  lemma DecodeRejectsOtherTags(data: Bytes)
    requires |data| > 0 && data[0] != RemoveServerMsgType
    ensures Decode(data) == Failure(InvalidMessageType)
  {
  }

  /** The signature rule: a decoded message carries a signature exactly when
      more than 32 bytes followed its server type. */
  lemma SignaturePresentIffLong(data: Bytes)
    requires Decode(data).Success?
    ensures Decode(data).value.0.Signature.Some? <==> |data| > SignableSize + 32
  {
    EncodeDecode(data);
  }

  /** ... so between 33 and 95 trailing bytes are an error: they are taken
      for a signature and are too short for one. */
  lemma ShortSignatureRejected(f: Fields, tail: Bytes)
    requires 32 < |tail| < SignatureSize
    ensures Decode(SignableEncoding(f) + tail) == Failure(Primitive(NotEnoughData))
  {
    SignableLayout(f, tail);
    assert ([f.ServerType % 256] + tail)[1..] == tail;
  }

  // ---------------------------------------------------------------------
  // Validation

  /** Validate as the evidently intended code after its first statement
      would run: the chain id must be an authority, and a signature must be
      present, and its signature part (without the public key) must verify as
      a federated signature over the signable bytes.
      `isAuthority` and `verifyFederated` stand for the state's checks; the
      latter returns None for an error. */
  function ValidateIntended(f: Fields, isAuthority: Hash -> bool,
                            verifyFederated: (Bytes, Bytes) -> Option<bool>): (r: int)
    ensures r == 1 || r == -1
    ensures r == 1 <==> isAuthority(f.ServerChainID) && f.Signature.Some?
                        && verifyFederated(SignableEncoding(f), SignatureBody(f.Signature.value)) == Some(true)
  {
    if !isAuthority(f.ServerChainID) then -1
    else if f.Signature.None? then -1
    else match verifyFederated(SignableEncoding(f), SignatureBody(f.Signature.value))
      case None => -1
      case Some(authSigned) => if !authSigned then -1 else 1
  }

  // ---------------------------------------------------------------------
  // The message object

  class RemoveServerMsg {
    var MsgHash: Option<Hash>
    var Timestamp: Timestamp
    var ServerChainID: Hash
    var ServerType: int
    var Signature: Option<Signature>

    /** The message's content. */
    function Value(): Fields
      reads this
    {
      Fields(Timestamp, ServerChainID, ServerType, Signature)
    }

    /** NewRemoveServerMsg: the chain id and server type given, the state's
        current time (`now`), no signature and no cached hash. */
    constructor (now: Timestamp, chainId: Hash, serverType: int)
      ensures Value() == Fields(now, chainId, serverType, None)
      ensures MsgHash == None
    {
      MsgHash := None;
      Timestamp := now;
      ServerChainID := chainId;
      ServerType := serverType;
      Signature := None;
    }

    function Type(): byte
    {
      RemoveServerMsgType
    }

    /** Validate as written: its first statement returns 1, so none of the
        checks that follow it run. */
    function Validate(): int
    {
      1
    }

    /** Write the type byte, the timestamp, the chain id and the server type
        as a uint8 into a buffer. */
    method MarshalForSignature() returns (data: Bytes)
      ensures data == SignableEncoding(Value())
      ensures |data| == SignableSize && data[0] == Type()
    {
      var buf: Bytes := [Type()];
      buf := buf + MarshalTimestamp(Timestamp);
      buf := buf + ServerChainID;
      buf := buf + [ServerType % 256];
      data := buf;
    }

    /** The signable bytes, then the signature's bytes when there is one. */
    method MarshalBinary() returns (data: Bytes)
      ensures data == FullEncoding(Value())
      ensures data[..SignableSize] == SignableEncoding(Value())
    {
      var buf := MarshalForSignature();
      if Signature.Some? {
        buf := buf + Signature.value;
      }
      data := buf;
    }

    /** Decode into this message. On success the content is the decoded one,
        except that an absent signature leaves the old Signature in place;
        the cached hash is never touched. A wrong leading byte changes
        nothing; an error after it leaves the fields assigned so far (a
        missing timestamp or chain id is left zero, as the fresh value
        allocated before reading it) and keeps the fields not yet reached. */
    method UnmarshalBinaryData(data: Bytes) returns (newData: Bytes, err: Option<DecodeError>)
      modifies this`Timestamp, this`ServerChainID, this`ServerType, this`Signature
      ensures Decode(data).Success? ==>
        var (f, rest) := Decode(data).value;
        && err == None && newData == rest
        && Value() == f.(Signature := if f.Signature.Some? then f.Signature else old(Signature))
      ensures Decode(data).Failure? ==> err == Some(Decode(data).error) && newData == []
      ensures (|data| == 0 || data[0] != RemoveServerMsgType) ==> Value() == old(Value())
      ensures |data| > 0 && data[0] == RemoveServerMsgType && |data| < 1 + TimestampSize ==> Timestamp == 0
      ensures |data| > 0 && data[0] == RemoveServerMsgType && 1 + TimestampSize <= |data| < 1 + TimestampSize + HashLength
              ==> ServerChainID == ZeroHash
      ensures |data| > 0 && data[0] == RemoveServerMsgType && UnmarshalTimestamp(data[1..]).Failure? ==>
        ServerChainID == old(ServerChainID) && ServerType == old(ServerType) && Signature == old(Signature)
      ensures |data| > 0 && data[0] == RemoveServerMsgType && UnmarshalTimestamp(data[1..]).Success? ==>
        var (ts, r1) := UnmarshalTimestamp(data[1..]).value;
        && Timestamp == ts
        && (UnmarshalHash(r1).Failure? ==> ServerType == old(ServerType) && Signature == old(Signature))
        && (UnmarshalHash(r1).Success? && |UnmarshalHash(r1).value.1| == 0 ==>
              ServerChainID == UnmarshalHash(r1).value.0 && ServerType == old(ServerType) && Signature == old(Signature))
        && (UnmarshalHash(r1).Success? && |UnmarshalHash(r1).value.1| > 0 ==>
              ServerChainID == UnmarshalHash(r1).value.0 && ServerType == UnmarshalHash(r1).value.1[0])
    {
      newData := data;
      if |newData| == 0 {
        return [], Some(Panic);
      }
      if newData[0] != Type() {
        return [], Some(InvalidMessageType);
      }
      newData := newData[1..];

      Timestamp := 0;
      match UnmarshalTimestamp(newData) {
        case Failure(e) =>
          return [], Some(Primitive(e));
        case Success((ts, r1)) =>
          Timestamp, newData := ts, r1;
      }

      ServerChainID := ZeroHash;
      match UnmarshalHash(newData) {
        case Failure(e) =>
          return [], Some(Primitive(e));
        case Success((id, r2)) =>
          ServerChainID, newData := id, r2;
      }

      if |newData| == 0 {
        return [], Some(Panic);
      }
      ServerType := newData[0];
      newData := newData[1..];

      if |newData| > 32 {
        match UnmarshalSignature(newData) {
          case Failure(e) =>
            return [], Some(Primitive(e));
          case Success((sig, r4)) =>
            Signature, newData := Some(sig), r4;
        }
      }
      err := None;
    }

    /** The message hash: on the first call, the hash of the signable bytes
        (`sha` stands for primitives.Sha), cached; afterwards the cached one. */
    method GetMsgHash(sha: Bytes -> Hash) returns (h: Hash)
      modifies this`MsgHash
      ensures MsgHash == Some(h)
      ensures old(MsgHash).Some? ==> h == old(MsgHash).value
      ensures old(MsgHash).None? ==> h == sha(SignableEncoding(Value()))
    {
      if MsgHash.None? {
        var data := MarshalForSignature();
        MsgHash := Some(sha(data));
      }
      h := MsgHash.value;
    }

    /** Sign the signable bytes with `signer` (None when it fails). The new
        signature replaces the old one; on failure nothing changes. */
    method Sign(signer: Bytes -> Option<Signature>) returns (ok: bool)
      modifies this`Signature
      ensures var s := signer(SignableEncoding(old(Value())));
        && ok == s.Some?
        && Signature == (if s.Some? then s else old(Signature))
    {
      var data := MarshalForSignature();
      var signature := signer(data);
      if signature.None? {
        return false;
      }
      Signature := signature;
      ok := true;
    }

    /** Field-by-field comparison with another message: a missing message is
        never the same; timestamps are compared by milliseconds, and a
        present signature never matches an absent one. */
    function IsSameAs(b: RemoveServerMsg?): (r: bool)
      reads this, b
      ensures r <==> b != null && Value() == b.Value()
    {
      if b == null then false
      else if Timestamp != b.Timestamp then false
      else if ServerChainID != b.ServerChainID then false
      else if ServerType != b.ServerType then false
      else if Signature.None? && b.Signature.Some? then false
      else if Signature.Some? && (b.Signature.None? || Signature.value != b.Signature.value) then false
      else true
    }
  }

  /** The signable bytes do not depend on the signature, so signing a
      message never changes its hash. */
  lemma SignableIgnoresSignature(f: Fields, s: Option<Signature>)
    ensures SignableEncoding(f.(Signature := s)) == SignableEncoding(f)
  {
  }

  /** A message's encoding always decodes, and a message holding what it
      decodes to is the same as the original, provided its server type fits
      in a byte. */
  lemma UnmarshalOfMarshalIsSame(m: RemoveServerMsg, n: RemoveServerMsg)
    requires 0 <= m.ServerType < 256
    ensures Decode(FullEncoding(m.Value())).Success?
    ensures n.Value() == Decode(FullEncoding(m.Value())).value.0 ==> n.IsSameAs(m) && m.IsSameAs(n)
  {
    DecodeEncode(m.Value(), []);
    assert FullEncoding(m.Value()) + [] == FullEncoding(m.Value());
  }

  /** As written, Validate accepts every message, even an unsigned one from
      a chain that is not an authority, which the intended checks refuse. */
  lemma ValidateAcceptsUnsigned(m: RemoveServerMsg, isAuthority: Hash -> bool,
                                verifyFederated: (Bytes, Bytes) -> Option<bool>)
    requires m.Signature.None?
    ensures m.Validate() == 1
    ensures ValidateIntended(m.Value(), isAuthority, verifyFederated) == -1
  {
  }
}
