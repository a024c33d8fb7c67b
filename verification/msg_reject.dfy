/** The reject message of Bitcoin's BIP 61, as carried over from btcd: the
    command that was rejected, a one-byte reason code, a free-text reason
    and, for a rejected block or transaction, its hash. It has two codecs:
    the Bitcoin one (BtcEncode/BtcDecode), gated on the protocol version and
    carrying the hash only for blocks and transactions, and the binary one
    (MarshalBinary/UnmarshalBinaryData), which always carries it. */
module Reject {
  import opened Encoding
  import opened Primitives

  // ---------------------------------------------------------------------
  // Reject codes

  const RejectMalformed: byte := 0x01
  const RejectInvalid: byte := 0x10
  const RejectObsolete: byte := 0x11
  const RejectDuplicate: byte := 0x12
  const RejectNonstandard: byte := 0x40
  const RejectDust: byte := 0x41
  const RejectInsufficientFee: byte := 0x42
  const RejectCheckpoint: byte := 0x43

  /** The printable name of each defined code. */
  const RejectCodeStrings: map<byte, string> := map[
    RejectMalformed := "REJECT_MALFORMED",
    RejectInvalid := "REJECT_INVALID",
    RejectObsolete := "REJECT_OBSOLETE",
    RejectDuplicate := "REJECT_DUPLICATE",
    RejectNonstandard := "REJECT_NONSTANDARD",
    RejectDust := "REJECT_DUST",
    RejectInsufficientFee := "REJECT_INSUFFICIENTFEE",
    RejectCheckpoint := "REJECT_CHECKPOINT"]

  function DigitChar(d: nat): char
    requires d < 10
  {
    ['0', '1', '2', '3', '4', '5', '6', '7', '8', '9'][d]
  }

  function DigitValue(c: char): nat
  {
    if '0' <= c <= '9' then (c as int - '0' as int) else 0
  }

  /** The decimal digits of n, as %d prints them. */
  function Decimal(n: nat): (s: string)
    ensures |s| > 0
    ensures forall i :: 0 <= i < |s| ==> '0' <= s[i] <= '9'
  {
    if n < 10 then [DigitChar(n)] else Decimal(n / 10) + [DigitChar(n % 10)]
  }

  /** The number a string of decimal digits denotes. */
  function ParseDecimal(s: string): nat
  {
    if s == [] then 0 else ParseDecimal(s[..|s| - 1]) * 10 + DigitValue(s[|s| - 1])
  }

  lemma {:induction false} DecimalRoundTrip(n: nat)
    ensures ParseDecimal(Decimal(n)) == n
  {
    var s := Decimal(n);
    if n < 10 {
      assert s[..0] == [];
    } else {
      DecimalRoundTrip(n / 10);
      assert s[..|s| - 1] == Decimal(n / 10);
      assert DigitValue(s[|s| - 1]) == n % 10;
    }
  }

  /** RejectCode.String: the name of a defined code, and
      "Unknown RejectCode (n)" for any other. */
  function RejectCodeString(code: byte): (r: string)
    ensures code in RejectCodeStrings ==> r == RejectCodeStrings[code]
    ensures code !in RejectCodeStrings ==> r == "Unknown RejectCode (" + Decimal(code) + ")"
  {
    if code in RejectCodeStrings then RejectCodeStrings[code]
    else "Unknown RejectCode (" + Decimal(code) + ")"
  }

  /** Every name begins with "R", every unknown code's text with "U". */
  lemma FirstLetter(c: byte)
    ensures RejectCodeString(c)[0] == if c in RejectCodeStrings then 'R' else 'U'
  {
  }

  /** Different codes print differently: the names are distinct, no name
      reads "Unknown ...", and the number in an unknown code is printed in
      full. */
  lemma RejectCodeStringInjective(a: byte, b: byte)
    requires RejectCodeString(a) == RejectCodeString(b)
    ensures a == b
  {
    var prefix := "Unknown RejectCode (";
    FirstLetter(a);
    FirstLetter(b);
    if a !in RejectCodeStrings && b !in RejectCodeStrings {
      var sa, sb := RejectCodeString(a), RejectCodeString(b);
      assert sa[|prefix|..|sa| - 1] == Decimal(a);
      assert sb[|prefix|..|sb| - 1] == Decimal(b);
      DecimalRoundTrip(a);
      DecimalRoundTrip(b);
    }
  }

  // ---------------------------------------------------------------------
  // Wire constants. These come from the Bitcoin wire package the message
  // was carried over from (the file defining them is not part of this
  // model); the values are btcd's.

  /** The protocol version that introduced the reject message. */
  const RejectVersion: uint32 := 70002
  /** The largest payload of any message, 32 MiB. */
  const MaxMessagePayload: uint32 := 1024 * 1024 * 32
  const CmdBlock: Bytes := [0x62, 0x6c, 0x6f, 0x63, 0x6b]  // "block"
  const CmdTx: Bytes := [0x74, 0x78]                       // "tx"

  datatype WireError =
    | InvalidForVersion     // messageError: the protocol version predates the message
    | UnexpectedEOF         // the reader ran out of bytes
    | NonCanonicalVarInt    // a var-int not in its shortest form
    | StringTooLong         // a var-string longer than MaxMessagePayload
    | NilHash               // writing a hash the message does not have

  // ---------------------------------------------------------------------
  // Bitcoin var-ints and var-strings (little-endian "compact size")

  function WriteVarInt(v: uint64): (r: Bytes)
    ensures 1 <= |r| <= 9
  {
    if v < 0xfd then [v]
    else if v <= 0xffff then [0xfd] + LittleEndian(v, 2)
    else if v <= 0xffff_ffff then [0xfe] + LittleEndian(v, 4)
    else [0xff] + LittleEndian(v, 8)
  }

  /** Read a var-int: a discriminant byte and then 0, 2, 4 or 8 bytes; a
      value that a shorter form could have held is refused. */
  function ReadVarInt(s: Bytes): Result<(uint64, Bytes), WireError>
  {
    if |s| < 1 then Failure(UnexpectedEOF)
    else if s[0] == 0xff then
      if |s| < 9 then Failure(UnexpectedEOF)
      else
        assert Pow256(8) == 0x1_0000_0000_0000_0000;
        var v := FromLittleEndian(s[1..9]);
        if v < 0x1_0000_0000 then Failure(NonCanonicalVarInt) else Success((v, s[9..]))
    else if s[0] == 0xfe then
      if |s| < 5 then Failure(UnexpectedEOF)
      else
        assert Pow256(4) == 0x1_0000_0000;
        var v := FromLittleEndian(s[1..5]);
        if v < 0x1_0000 then Failure(NonCanonicalVarInt) else Success((v, s[5..]))
    else if s[0] == 0xfd then
      if |s| < 3 then Failure(UnexpectedEOF)
      else
        assert Pow256(2) == 0x1_0000;
        var v := FromLittleEndian(s[1..3]);
        if v < 0xfd then Failure(NonCanonicalVarInt) else Success((v, s[3..]))
    else Success((s[0], s[1..]))
  }

  lemma VarIntRoundTrip(v: uint64, rest: Bytes)
    ensures ReadVarInt(WriteVarInt(v) + rest) == Success((v, rest))
  {
    var s := WriteVarInt(v) + rest;
    if v < 0xfd {
      assert s[1..] == rest;
    } else if v <= 0xffff {
      assert Pow256(2) == 0x1_0000;
      LittleEndianRoundTrip(v, 2);
      assert s[1..3] == LittleEndian(v, 2) && s[3..] == rest;
    } else if v <= 0xffff_ffff {
      assert Pow256(4) == 0x1_0000_0000;
      LittleEndianRoundTrip(v, 4);
      assert s[1..5] == LittleEndian(v, 4) && s[5..] == rest;
    } else {
      assert Pow256(8) == 0x1_0000_0000_0000_0000;
      LittleEndianRoundTrip(v, 8);
      assert s[1..9] == LittleEndian(v, 8) && s[9..] == rest;
    }
  }

  /** The converse: a var-int the reader accepts is the unique encoding of
      its value, so the reader and the writer are inverse. */
  lemma VarIntDecodeInverse(s: Bytes)
    requires ReadVarInt(s).Success?
    ensures var (v, rest) := ReadVarInt(s).value;
      s == WriteVarInt(v) + rest
  {
    if s[0] == 0xff {
      FromLittleEndianRoundTrip(s[1..9]);
      assert s == [s[0]] + s[1..9] + s[9..];
    } else if s[0] == 0xfe {
      FromLittleEndianRoundTrip(s[1..5]);
      assert s == [s[0]] + s[1..5] + s[5..];
    } else if s[0] == 0xfd {
      FromLittleEndianRoundTrip(s[1..3]);
      assert s == [s[0]] + s[1..3] + s[3..];
    } else {
      assert s == [s[0]] + s[1..];
    }
  }

  /** A Go string's bytes: its length is a non-negative Go `int`. */
  type GoString = s: Bytes | |s| < 0x8000_0000_0000_0000

  /** writeVarString: the length as a var-int, then the bytes, whatever the
      length (the limit is enforced only when reading). */
  function WriteVarString(str: GoString): (r: Bytes)
    ensures |r| > |str|
  {
    WriteVarInt(|str|) + str
  }

  /** readVarString: a var-int count, at most MaxMessagePayload, then that
      many bytes. */
  function ReadVarString(s: Bytes): Result<(GoString, Bytes), WireError>
  {
    var (count, r) :- ReadVarInt(s);
    if count > MaxMessagePayload then Failure(StringTooLong)
    else if |r| < count then Failure(UnexpectedEOF)
    else Success((r[..count], r[count..]))
  }

  lemma VarStringRoundTrip(str: Bytes, rest: Bytes)
    requires |str| <= MaxMessagePayload
    ensures ReadVarString(WriteVarString(str) + rest) == Success((str, rest))
  {
    VarIntRoundTrip(|str|, str + rest);
    assert WriteVarString(str) + rest == WriteVarInt(|str|) + (str + rest);
    assert (str + rest)[..|str|] == str && (str + rest)[|str|..] == rest;
  }

  /** A string longer than MaxMessagePayload is written, but its count is
      refused when it is read back. */
  lemma VarStringRefusesLong(str: GoString, rest: Bytes)
    requires |str| > MaxMessagePayload
    ensures ReadVarString(WriteVarString(str) + rest) == Failure(StringTooLong)
  {
    VarIntRoundTrip(|str|, str + rest);
    assert WriteVarString(str) + rest == WriteVarInt(|str|) + (str + rest);
  }

  /** Hashes are written as their 32 raw bytes; a missing hash cannot be written. */
  function WriteHash(h: Option<Hash>): Result<Bytes, WireError>
  {
    if h.None? then Failure(NilHash) else Success(h.value)
  }

  // ---------------------------------------------------------------------
  // The two codecs, as functions of the message's content

  datatype RejectFields = RejectFields(Cmd: GoString, Code: byte, Reason: GoString, Hash: Option<Hash>)

  /** The strings are short enough to be read back: the writers accept
      longer ones, the readers do not. */
  predicate Readable(f: RejectFields)
  {
    |f.Cmd| <= MaxMessagePayload && |f.Reason| <= MaxMessagePayload
  }

  /** Only a rejected block or transaction carries its hash in the Bitcoin codec. */
  predicate CarriesHash(cmd: Bytes)
  {
    cmd == CmdBlock || cmd == CmdTx
  }

  /** Cmd, Code and Reason, the part both codecs share. */
  function Prefix(f: RejectFields): Bytes
  {
    WriteVarString(f.Cmd) + [f.Code] + WriteVarString(f.Reason)
  }

  /** What BtcEncode writes, and the error it stops with. A failed hash
      write leaves the fields before it written. */
  function BtcWrite(f: RejectFields, pver: uint32): (r: (Bytes, Option<WireError>))
    ensures pver < RejectVersion ==> r == ([], Some(InvalidForVersion))
  {
    if pver < RejectVersion then ([], Some(InvalidForVersion))
    else if CarriesHash(f.Cmd) then
      match WriteHash(f.Hash)
      case Failure(e) => (Prefix(f), Some(e))
      case Success(hb) => (Prefix(f) + hb, None)
    else (Prefix(f), None)
  }

  /** What BtcDecode leaves in the message fields (starting from `f`), the
      unread bytes and the error. Each field is assigned as soon as it has
      been read; the position of the reader after an error is not modelled
      (the rest is then empty). */
  function BtcRead(f: RejectFields, data: Bytes, pver: uint32): (RejectFields, Bytes, Option<WireError>)
  {
    if pver < RejectVersion then (f, [], Some(InvalidForVersion))
    else match ReadVarString(data)
      case Failure(e) => (f, [], Some(e))
      case Success((cmd, r1)) =>
        var f1 := f.(Cmd := cmd);
        if |r1| < 1 then (f1, [], Some(UnexpectedEOF))
        else
          var f2 := f1.(Code := r1[0]);
          match ReadVarString(r1[1..])
          case Failure(e) => (f2, [], Some(e))
          case Success((reason, r3)) =>
            var f3 := f2.(Reason := reason);
            if !CarriesHash(cmd) then (f3, r3, None)
            else match UnmarshalHash(r3)
              case Failure(_) => (f3, [], Some(UnexpectedEOF))
              case Success((h, r4)) => (f3.(Hash := Some(h)), r4, None)
  }

  /** MarshalBinary: the shared part, then the hash, whatever the command. */
  function Marshal(f: RejectFields): Result<Bytes, WireError>
  {
    var hb :- WriteHash(f.Hash);
    Success(Prefix(f) + hb)
  }

  /** What UnmarshalBinaryData leaves in the fields (starting from `f`) and
      the error. A failed string read still assigns the empty string it
      returns; a failed code or hash read leaves that field alone. */
  function Unmarshal(f: RejectFields, data: Bytes): (RejectFields, Option<WireError>)
  {
    match ReadVarString(data)
    case Failure(e) => (f.(Cmd := []), Some(e))
    case Success((cmd, r1)) =>
      var f1 := f.(Cmd := cmd);
      if |r1| < 1 then (f1, Some(UnexpectedEOF))
      else
        var f2 := f1.(Code := r1[0]);
        match ReadVarString(r1[1..])
        case Failure(e) => (f2.(Reason := []), Some(e))
        case Success((reason, r3)) =>
          var f3 := f2.(Reason := reason);
          match UnmarshalHash(r3)
          case Failure(_) => (f3, Some(UnexpectedEOF))
          case Success((h, _)) => (f3.(Hash := Some(h)), None)
  }

  /** MaxPayloadLength: nothing before RejectVersion, the overall maximum from it on. */
  function MaxPayloadLength(pver: uint32): (r: uint32)
    ensures r == 0 <==> pver < RejectVersion
    ensures pver >= RejectVersion ==> r == MaxMessagePayload
  {
    if pver >= RejectVersion then MaxMessagePayload else 0
  }

  // ---------------------------------------------------------------------
  // Properties of the codecs

  /** The shared part reads back as Cmd, Code and Reason, followed by whatever came after it. */
  lemma PrefixRoundTrip(f: RejectFields, rest: Bytes)
    requires Readable(f)
    ensures var s := Prefix(f) + rest;
      && ReadVarString(s) == Success((f.Cmd, [f.Code] + (WriteVarString(f.Reason) + rest)))
      && ReadVarString(WriteVarString(f.Reason) + rest) == Success((f.Reason, rest))
  {
    var C, R := WriteVarString(f.Cmd), WriteVarString(f.Reason);
    assert Prefix(f) + rest == C + ([f.Code] + (R + rest));
    VarStringRoundTrip(f.Cmd, [f.Code] + (R + rest));
    VarStringRoundTrip(f.Reason, rest);
  }

  /** The version gate: below RejectVersion both Bitcoin-codec directions
      fail before touching anything. */
  lemma BtcVersionGate(f: RejectFields, data: Bytes, pver: uint32)
    requires pver < RejectVersion
    ensures BtcWrite(f, pver) == ([], Some(InvalidForVersion))
    ensures BtcRead(f, data, pver) == (f, [], Some(InvalidForVersion))
    ensures MaxPayloadLength(pver) == 0
  {
  }

  /** Bitcoin-codec round trip: reading back what BtcEncode wrote restores
      Cmd, Code and Reason, restores Hash exactly when Cmd is a block or a
      transaction (otherwise the reader's Hash is left as it was), and
      leaves what followed unread. */
  lemma BtcRoundTrip(f: RejectFields, g: RejectFields, pver: uint32, rest: Bytes)
    requires Readable(f) && pver >= RejectVersion
    requires BtcWrite(f, pver).1 == None
    ensures BtcRead(g, BtcWrite(f, pver).0 + rest, pver)
         == (f.(Hash := if CarriesHash(f.Cmd) then f.Hash else g.Hash), rest, None)
  {
    var P := Prefix(f);
    if CarriesHash(f.Cmd) {
      var H := f.Hash.value;
      assert P + H + rest == P + (H + rest);
      PrefixRoundTrip(f, H + rest);
      HashRoundTrip(H, rest);
    } else {
      PrefixRoundTrip(f, rest);
    }
  }

  /** Binary-codec round trip: UnmarshalBinaryData restores every field of
      what MarshalBinary wrote, whatever the reader held before, and
      ignores (drops) any bytes after it. */
  lemma MarshalRoundTrip(f: RejectFields, g: RejectFields, rest: Bytes)
    requires Readable(f) && Marshal(f).Success?
    ensures Unmarshal(g, Marshal(f).value + rest) == (f, None)
  {
    var P, H := Prefix(f), f.Hash.value;
    assert P + H + rest == P + (H + rest);
    PrefixRoundTrip(f, H + rest);
    HashRoundTrip(H, rest);
  }

  /** The two codecs agree on a rejected block or transaction; for any other
      command the binary codec writes the hash the Bitcoin codec leaves out. */
  lemma MarshalVersusBtc(f: RejectFields, pver: uint32)
    requires pver >= RejectVersion && f.Hash.Some?
    ensures CarriesHash(f.Cmd) ==> Marshal(f) == Success(BtcWrite(f, pver).0)
    ensures !CarriesHash(f.Cmd) ==> Marshal(f) == Success(BtcWrite(f, pver).0 + f.Hash.value)
    ensures BtcWrite(f, pver).1 == None
  {
  }

  /** A message without a hash cannot be marshalled, and its Bitcoin
      encoding fails exactly when it is a block or transaction reject. */
  lemma NoHashNoMarshal(f: RejectFields, pver: uint32)
    requires f.Hash.None? && pver >= RejectVersion
    ensures Marshal(f) == Failure(NilHash)
    ensures BtcWrite(f, pver).1.Some? <==> CarriesHash(f.Cmd)
  {
  }

  /** A Cmd longer than MaxMessagePayload is refused as soon as it is read. */
  lemma LongCmdRefused(f: RejectFields, rest: Bytes)
    requires |f.Cmd| > MaxMessagePayload
    ensures ReadVarString(Prefix(f) + rest) == Failure(StringTooLong)
  {
    var R := WriteVarString(f.Reason);
    assert Prefix(f) + rest == WriteVarString(f.Cmd) + ([f.Code] + (R + rest));
    VarStringRefusesLong(f.Cmd, [f.Code] + (R + rest));
  }

  /** With a readable Cmd, a long Reason is refused after Cmd and Code are read. */
  lemma LongReasonRefused(f: RejectFields, rest: Bytes)
    requires |f.Cmd| <= MaxMessagePayload < |f.Reason|
    ensures ReadVarString(Prefix(f) + rest) == Success((f.Cmd, [f.Code] + (WriteVarString(f.Reason) + rest)))
    ensures ReadVarString(([f.Code] + (WriteVarString(f.Reason) + rest))[1..]) == Failure(StringTooLong)
  {
    var R := WriteVarString(f.Reason);
    assert Prefix(f) + rest == WriteVarString(f.Cmd) + ([f.Code] + (R + rest));
    VarStringRoundTrip(f.Cmd, [f.Code] + (R + rest));
    assert ([f.Code] + (R + rest))[1..] == R + rest;
    VarStringRefusesLong(f.Reason, rest);
  }

  /** The binary codec writes a message whose Cmd or Reason is longer than
      MaxMessagePayload, and its own reader refuses what it wrote. */
  lemma MarshalLongRefused(f: RejectFields, g: RejectFields, rest: Bytes)
    requires |f.Cmd| > MaxMessagePayload || |f.Reason| > MaxMessagePayload
    requires f.Hash.Some?
    ensures Marshal(f).Success?
    ensures Unmarshal(g, Marshal(f).value + rest).1 == Some(StringTooLong)
  {
    var H := f.Hash.value;
    assert Marshal(f).value + rest == Prefix(f) + (H + rest);
    if |f.Cmd| > MaxMessagePayload {
      LongCmdRefused(f, H + rest);
    } else {
      LongReasonRefused(f, H + rest);
    }
  }

  /** The same for the Bitcoin codec: BtcEncode writes the long string and
      BtcDecode refuses it. */
  lemma BtcLongRefused(f: RejectFields, g: RejectFields, pver: uint32, rest: Bytes)
    requires |f.Cmd| > MaxMessagePayload || |f.Reason| > MaxMessagePayload
    requires pver >= RejectVersion && BtcWrite(f, pver).1 == None
    ensures BtcRead(g, BtcWrite(f, pver).0 + rest, pver).2 == Some(StringTooLong)
  {
    var tail := if CarriesHash(f.Cmd) then f.Hash.value + rest else rest;
    assert BtcWrite(f, pver).0 + rest == Prefix(f) + tail;
    if |f.Cmd| > MaxMessagePayload {
      LongCmdRefused(f, tail);
    } else {
      LongReasonRefused(f, tail);
    }
  }

  // ---------------------------------------------------------------------
  // The message object

  class MsgReject {
    var MsgHash: Option<Hash>
    var Cmd: GoString
    var Code: byte
    var Reason: GoString
    var Hash: Option<Hash>

    function Value(): RejectFields
      reads this
    {
      RejectFields(Cmd, Code, Reason, Hash)
    }

    /** NewMsgReject: the command, code and reason given, and no hash. */
    constructor (command: GoString, code: byte, reason: GoString)
      ensures Value() == RejectFields(command, code, reason, None)
      ensures MsgHash == None
    {
      MsgHash := None;
      Cmd, Code, Reason, Hash := command, code, reason, None;
    }

    /** BtcEncode: append the fields to the writer `w`, field by field. */
    method BtcEncode(w: Bytes, pver: uint32) returns (out: Bytes, err: Option<WireError>)
      ensures out == w + BtcWrite(Value(), pver).0 && err == BtcWrite(Value(), pver).1
    {
      out := w;
      if pver < RejectVersion {
        return out, Some(InvalidForVersion);
      }
      out := out + WriteVarString(Cmd);
      out := out + [Code];
      out := out + WriteVarString(Reason);
      if Cmd == CmdBlock || Cmd == CmdTx {
        if Hash.None? {
          return out, Some(NilHash);
        }
        out := out + Hash.value;
      }
      err := None;
    }

    /** BtcDecode: read the fields from `r`, assigning each as it is read. */
    method BtcDecode(r: Bytes, pver: uint32) returns (rest: Bytes, err: Option<WireError>)
      modifies this`Cmd, this`Code, this`Reason, this`Hash
      ensures (Value(), rest, err) == BtcRead(old(Value()), r, pver)
    {
      if pver < RejectVersion {
        return [], Some(InvalidForVersion);
      }
      match ReadVarString(r) {
        case Failure(e) =>
          return [], Some(e);
        case Success((cmd, r1)) =>
          Cmd, rest := cmd, r1;
      }
      if |rest| < 1 {
        return [], Some(UnexpectedEOF);
      }
      Code, rest := rest[0], rest[1..];
      match ReadVarString(rest) {
        case Failure(e) =>
          return [], Some(e);
        case Success((reason, r3)) =>
          Reason, rest := reason, r3;
      }
      if Cmd == CmdBlock || Cmd == CmdTx {
        match UnmarshalHash(rest) {
          case Failure(_) =>
            return [], Some(UnexpectedEOF);
          case Success((h, r4)) =>
            Hash, rest := Some(h), r4;
        }
      }
      err := None;
    }

    /** MarshalBinary: Cmd, Code, Reason and always the hash. */
    method MarshalBinary() returns (data: Bytes, err: Option<WireError>)
      ensures Marshal(Value()).Success? ==> data == Marshal(Value()).value && err == None
      ensures Marshal(Value()).Failure? ==> data == [] && err == Some(Marshal(Value()).error)
    {
      var buf := WriteVarString(Cmd);
      buf := buf + [Code];
      buf := buf + WriteVarString(Reason);
      if Hash.None? {
        return [], Some(NilHash);
      }
      buf := buf + Hash.value;
      data, err := buf, None;
    }

    /** UnmarshalBinaryData: read Cmd, Code, Reason and the hash; the
        remainder it returns is always empty. */
    method UnmarshalBinaryData(data: Bytes) returns (newdata: Bytes, err: Option<WireError>)
      modifies this`Cmd, this`Code, this`Reason, this`Hash
      ensures newdata == []
      ensures (Value(), err) == Unmarshal(old(Value()), data)
    {
      newdata := [];
      match ReadVarString(data) {
        case Failure(e) =>
          Cmd := [];
          return [], Some(e);
        case Success((cmd, r1)) =>
          Cmd := cmd;
          var rest := r1;
          if |rest| < 1 {
            return [], Some(UnexpectedEOF);
          }
          Code, rest := rest[0], rest[1..];
          match ReadVarString(rest) {
            case Failure(e) =>
              Reason := [];
              return [], Some(e);
            case Success((reason, r3)) =>
              Reason := reason;
              match UnmarshalHash(r3) {
                case Failure(_) =>
                  return [], Some(UnexpectedEOF);
                case Success((h, _)) =>
                  Hash := Some(h);
              }
          }
      }
      err := None;
    }

    /** The message hash: on the first successful call, the hash (`sha`)
        of MarshalBinary's bytes, cached; if marshalling fails, nothing and
        the cache stays empty. */
    method GetMsgHash(sha: Bytes -> Hash) returns (h: Option<Hash>)
      modifies this`MsgHash
      ensures old(MsgHash).Some? ==> h == old(MsgHash) && MsgHash == old(MsgHash)
      ensures old(MsgHash).None? && Marshal(Value()).Success? ==>
        h == Some(sha(Marshal(Value()).value)) && MsgHash == h
      ensures old(MsgHash).None? && Marshal(Value()).Failure? ==> h == None && MsgHash == None
    {
      if MsgHash.None? {
        var data, err := MarshalBinary();
        if err.Some? {
          return None;
        }
        MsgHash := Some(sha(data));
      }
      h := MsgHash;
    }

    /** Validate: "cannot tell", for every message and state. */
    function Validate(dbheight: uint32): (r: int)
      ensures r == 0
    {
      0
    }

    /** Follower: every node handles a reject as a follower. */
    function Follower(): (r: bool)
      ensures r
    {
      true
    }
  }
}
