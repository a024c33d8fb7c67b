# factomd message codecs and role state, in Dafny

This project models four pieces of factomd's message pipeline and proves
properties of them:

- **The p2p parcel** (`parcel.dfy`, module `Parcels`). A parcel is the
  envelope a node sends to a peer. It has a fixed 28-byte big-endian header:
  - the total length, network, version and command type;
  - the payload length and the payload's CRC-32 (Koopman polynomial);
  - the node id.

  Then come three length-prefixed strings (target peer, peer address, peer
  port) and the length-prefixed payload. `Parcel` is a class. Its
  `MarshalBinary` fills a buffer field by field, copies it into an array and
  patches bytes 0..4 in place with the total length. `UnmarshalBinaryData`
  moves a cursor along the input.

  The decoder as written reads every value from offset 0 of its input. It
  never moves its cursor past a string's bytes. So it rejects every real
  encoding shorter than 4 GiB (see Findings). The model states that decoder as
  `DecodeAsWritten` and proves what it does. The `Parcel` class uses the
  intended cursor decoder `Decode`, whose round trip is proved in both
  directions.
- **The RemoveServer message** (`remove_server.dfy`, module `RemoveServer`).
  - Its signable part is a type byte, a timestamp, a chain id and a one-byte
    server type. A signature may follow.
  - The decoder checks the type byte. It reads a signature only when more
    than 32 bytes follow the server type.
  - The message hash is cached, and `Sign` replaces the signature.
  - `IsSameAs` is field-by-field equality.
  - `Validate` returns 1 before any of its checks.
  - An empty buffer or a missing server-type byte makes the decoder index
    past the end. Its deferred `recover` returns before recovering, so this
    is a crash; the model reports it as the error `Panic`.
- **The reject message** (`msg_reject.dfy`, module `Reject`). It comes from
  Bitcoin's BIP 61, by way of btcd. It has two codecs:
  - the Bitcoin codec, gated on the protocol version, which carries the hash
    only for a rejected block or transaction;
  - the binary codec, which always carries the hash, and whose decoder
    always returns an empty remainder.

  The module also has the reject-code name table.
- **The node's role state** (`state.dfy`, module `NodeState`). It covers:
  - `LeaderFor`;
  - the network-name switch and role defaults of `Init`;
  - the getter/setter pairs for the height, the current directory block,
    the current admin block and the database.

Two shared modules support these:

- `encoding.dfy` (`Encoding`): fixed-width integers, `Option`/`Result`, and
  big- and little-endian images with their round trips.
- `primitives.dfy` (`Primitives`): the timestamp, hash and signature formats
  that the messages embed.

Inputs the model cannot see become parameters:

- the hash function `sha`;
- a signer;
- the state's authority and signature checks;
- the current time `now`;
- the configured network name.

## Model

| member | source | states |
|---|---|---|
| Encoding.BigEndianRoundTrip | p2p/parcel.go:43-49 | a value below 256^n written as n big-endian bytes reads back unchanged |
| Encoding.FromBigEndianRoundTrip | p2p/parcel.go:81-87 | n bytes read as a big-endian value and written back give the same bytes |
| Encoding.BigEndian4 | p2p/parcel.go:65-71 | the four shifted-and-truncated bytes of the length patch are its 4-byte big-endian image |
| Encoding.LittleEndianRoundTrip | common/messages/msgreject.go:87 | a little-endian image reads back as its value (var-int bodies) |
| Encoding.FromLittleEndianRoundTrip | common/messages/msgreject.go:87 | little-endian bytes read and written back are unchanged |
| Parcels.ParcelHeader.Init | p2p/parcel.go:138-145 | sets network, version, type Message, empty target peer and the listening port; keeps every other field |
| Parcels.Encode | p2p/parcel.go:41-73 | an encoding is 28 + 4·4 + the lengths of the three strings and the payload bytes long |
| Parcels.FixedHeaderFields | p2p/parcel.go:43-49 | each fixed field reads back from its offset (0, 4, 8, 10, 12, 16, 20); the strings start at 28 |
| Parcels.EncodeHeaderLayout | p2p/parcel.go:43-71 | bytes 0..4 of an encoding hold its own length; then network, version, type, length, CRC and node id at their offsets |
| Parcels.EncodeStringsLayout | p2p/parcel.go:50-62 | target peer, peer address, peer port and payload follow, in order, each after its 4-byte length |
| Parcels.AppendStrings | p2p/parcel.go:50-62 | appending each length and string in turn to the buffer builds the encoding's tail |
| Parcels.PatchFirst | p2p/parcel.go:65-71 | overwriting bytes 0..4 of the placeholder header with the total length gives the final header |
| Parcels.TakePrefixedOfLengthPrefixed | p2p/parcel.go:89-98 | a length-prefixed field reads back as its bytes and the rest |
| Parcels.TakePrefixedInverse | p2p/parcel.go:89-98 | an accepted length-prefixed field is its length followed by its bytes |
| Parcels.FixedHeaderInverse | p2p/parcel.go:81-87 | the fixed fields read from a buffer re-encode to its first 28 bytes |
| Parcels.PrefixedFieldAt | p2p/parcel.go:50-62 | a length-prefixed field found at an offset has its length in the 4 bytes there, its bytes next, and then what follows it |
| Parcels.StringsAt | p2p/parcel.go:50-62 | after the fixed header, the four length-prefixed fields sit back to back and end exactly at the end of the encoding |
| Parcels.DecodeEncode | p2p/parcel.go:80-101 | cursor decoding of an encoding plus any suffix restores every header field and the payload, sets `length` to the encoded size, and returns exactly the suffix |
| Parcels.DecodeEncodeExact | p2p/parcel.go:80-101 | the same with nothing after the encoding: the remainder is empty |
| Parcels.EncodeDecode | p2p/parcel.go:80-101 | whatever the cursor decoder accepts is the encoding of what it returns (with `length` in bytes 0..4), followed by the remainder |
| Parcels.DecodeIsBounded | p2p/parcel.go:89-98 | every accepted declared length fits the buffer: the encoded size plus the remainder is the input size |
| Parcels.AsWrittenRejectsEveryEncoding | p2p/parcel.go:81-98 | the decoder as written panics on every encoding shorter than 4 GiB, while the cursor decoder accepts it |
| Parcels.DecodeAsWritten | p2p/parcel.go:80-101 | the decoder as written panics exactly when the buffer is shorter than 44 bytes plus the declared length. On success every value comes from offset 0: network, Length and CRC equal the first four bytes, and each string is the declared length of bytes after its own prefix. The remainder is `Data[44:]`, which still begins with the payload |
| Parcels.AsWrittenRemainderNotAdvanced | p2p/parcel.go:96-100 | a concrete 45-byte buffer the decoder as written accepts returns payload [7] and the remainder [7] |
| Parcels.NewParcelRoundTrip | p2p/parcel.go:130-154 | a new parcel's encoding decodes to its network, type Message, payload, Length equal to the payload size and its CRC, with nothing left over |
| Parcels.Parcel.constructor | p2p/parcel.go:18-22 | a new parcel has zero length, a zero header and no payload |
| Parcels.Parcel.Init | p2p/parcel.go:146-149 | the header becomes the given one; nothing else changes |
| Parcels.Parcel.UpdateHeader | p2p/parcel.go:151-154 | Crc32 becomes the payload's CRC-32 (Koopman) and Length its size mod 2^32; no other header field changes |
| Parcels.Parcel.MarshalBinary | p2p/parcel.go:41-73 | the bytes returned are the encoding of the header and payload, with the total length patched into bytes 0..4 |
| Parcels.Parcel.UnmarshalBinaryData | p2p/parcel.go:80-101 | on success sets `length`, the header and the payload (replacing it) to what `Decode` returns and returns its remainder; on a framing error changes nothing |
| Parcels.ReadPrefixed | p2p/parcel.go:89-94 | reads one length and that many bytes at the cursor, advancing past both |
| Parcels.NewParcel | p2p/parcel.go:130-136 | a fresh parcel with network n, type Message, empty target peer, payload pl, Length = \|pl\| mod 2^32 and its CRC |
| Primitives.TimestampRoundTrip | common/messages/removeServer.go:155-159 | a marshalled timestamp reads back, leaving what follows |
| Primitives.TimestampDecodeInverse | common/messages/removeServer.go:155-159 | an accepted timestamp is the marshalling of its value |
| Primitives.HashRoundTrip | common/messages/removeServer.go:161-165 | a hash reads back from its 32 bytes |
| Primitives.SignatureRoundTrip | common/messages/removeServer.go:170-176 | a signature reads back from its 96 bytes |
| Primitives.SignatureBody | common/messages/removeServer.go:79 | the signature part is the 64 bytes after the 32-byte public key; together they give back the full signature |
| RemoveServer.SignableEncoding | common/messages/removeServer.go:185-206 | the signable bytes are 40 long, begin with the type byte and end with the server type mod 256 |
| RemoveServer.FullEncoding | common/messages/removeServer.go:208-226 | the full encoding is the signable bytes, followed by the 96 signature bytes exactly when there is a signature |
| RemoveServer.SignableLayout | common/messages/removeServer.go:153-165 | after the type byte, the timestamp and then the chain id read back from the signable bytes, leaving the server-type byte and what follows |
| RemoveServer.DecodeEncode | common/messages/removeServer.go:142-178 | decoding an encoding restores timestamp, chain id, server type mod 256 and signature, returning what followed (for an unsigned message, at most 32 bytes may follow) |
| RemoveServer.EncodeDecode | common/messages/removeServer.go:142-178 | whatever is decoded is the encoding of the result plus the rest; the decoded server type is in 0..255 |
| RemoveServer.DecodeRejectsOtherTags | common/messages/removeServer.go:149-152 | a buffer whose first byte is not the type byte is refused with InvalidMessageType |
| RemoveServer.SignaturePresentIffLong | common/messages/removeServer.go:170-176 | a decoded message has a signature exactly when more than 32 bytes followed its server type |
| RemoveServer.ShortSignatureRejected | common/messages/removeServer.go:170-175 | 33 to 95 trailing bytes are taken for a signature and rejected as too short |
| RemoveServer.ValidateIntended | common/messages/removeServer.go:64-90 | the checks after the early return give 1 exactly when the chain is an authority, a signature is present, and its signature part (the 64 bytes after the public key) verifies over the signable bytes; otherwise -1 |
| RemoveServer.ValidateAcceptsUnsigned | common/messages/removeServer.go:62-63 | Validate as written returns 1 for an unsigned message, which the intended checks refuse |
| RemoveServer.SignableIgnoresSignature | common/messages/removeServer.go:185-206 | the signable bytes, and so the message hash, do not depend on the signature |
| RemoveServer.UnmarshalOfMarshalIsSame | common/messages/removeServer.go:243-265 | when the server type fits in a byte, a message's encoding always decodes, and a message holding the decoded content is the same as the original, both ways |
| RemoveServer.RemoveServerMsg.constructor | common/messages/removeServer.go:267-275 | the chain id and server type given, the current time, no signature and no cached hash |
| RemoveServer.RemoveServerMsg.MarshalForSignature | common/messages/removeServer.go:185-206 | returns the signable bytes of the message: 40 bytes, the first being Type() |
| RemoveServer.RemoveServerMsg.MarshalBinary | common/messages/removeServer.go:208-226 | returns the full encoding, whose first 40 bytes are the signable bytes |
| RemoveServer.RemoveServerMsg.UnmarshalBinaryData | common/messages/removeServer.go:142-178 | on success the fields are the decoded ones, an absent signature keeps the old one, and the rest is returned; a wrong tag changes nothing; a missing timestamp or chain id leaves it zeroed; after any failed read the fields already read hold their decoded values and the fields not yet reached keep their old values |
| RemoveServer.RemoveServerMsg.GetMsgHash | common/messages/removeServer.go:35-44 | the first call caches the hash of the signable bytes; later calls return the cached hash unchanged |
| RemoveServer.RemoveServerMsg.Sign | common/messages/removeServer.go:125-132 | the signer's signature over the signable bytes replaces the old one; when the signer fails nothing changes |
| RemoveServer.RemoveServerMsg.IsSameAs | common/messages/removeServer.go:243-265 | true exactly when the other message exists and has the same timestamp, chain id, server type and signature (present in both or in neither) |
| Reject.DecimalRoundTrip | common/messages/msgreject.go:50 | the decimal digits of a number parse back to it |
| Reject.RejectCodeString | common/messages/msgreject.go:21-51 | each of the eight codes prints its name; any other prints "Unknown RejectCode (n)" |
| Reject.FirstLetter | common/messages/msgreject.go:33-51 | names begin with R and unknown-code texts with U |
| Reject.RejectCodeStringInjective | common/messages/msgreject.go:33-51 | different codes print differently |
| Reject.WriteVarInt | common/messages/msgreject.go:129 | a var-int is 1 to 9 bytes |
| Reject.VarIntRoundTrip | common/messages/msgreject.go:87 | a written var-int reads back, leaving what follows |
| Reject.VarIntDecodeInverse | common/messages/msgreject.go:87 | an accepted var-int is the canonical encoding of its value |
| Reject.WriteVarString | common/messages/msgreject.go:129 | any Go string is written, its length first, so a var-string is longer than its text |
| Reject.VarStringRoundTrip | common/messages/msgreject.go:87-91 | a written var-string of at most MaxMessagePayload bytes reads back |
| Reject.VarStringRefusesLong | common/messages/msgreject.go:87-91 | a written var-string longer than MaxMessagePayload is refused with StringTooLong |
| Reject.PrefixRoundTrip | common/messages/msgreject.go:86-105 | Cmd, Code and Reason read back in order from their encoding, when Cmd and Reason are at most MaxMessagePayload bytes |
| Reject.BtcWrite | common/messages/msgreject.go:121-126 | below RejectVersion nothing is written and the error is the version error, whatever the strings' lengths |
| Reject.BtcVersionGate | common/messages/msgreject.go:79-84 | below RejectVersion both Bitcoin-codec directions fail before any field, and MaxPayloadLength is 0 |
| Reject.BtcRoundTrip | common/messages/msgreject.go:79-157 | for Cmd and Reason of at most MaxMessagePayload bytes, reading what BtcEncode wrote restores Cmd, Code and Reason; the hash is restored exactly for block/tx and otherwise left as the reader had it; what followed stays unread |
| Reject.MarshalRoundTrip | common/messages/msgreject.go:227-288 | for Cmd and Reason of at most MaxMessagePayload bytes, UnmarshalBinaryData restores every field of what MarshalBinary wrote and drops any trailing bytes |
| Reject.MarshalVersusBtc | common/messages/msgreject.go:258-288 | for block/tx the two codecs write the same bytes; for any other command MarshalBinary adds the hash |
| Reject.NoHashNoMarshal | common/messages/msgreject.go:275-278 | a message without a hash cannot be marshalled; its Bitcoin encoding fails exactly for block/tx |
| Reject.LongCmdRefused | common/messages/msgreject.go:86-91 | a Cmd longer than MaxMessagePayload is refused with StringTooLong as soon as it is read |
| Reject.LongReasonRefused | common/messages/msgreject.go:86-105 | with a Cmd of at most MaxMessagePayload bytes, Cmd reads back, and a longer Reason after the code byte is refused with StringTooLong |
| Reject.MarshalLongRefused | common/messages/msgreject.go:227-288 | MarshalBinary writes a message whose Cmd or Reason is longer than MaxMessagePayload, and UnmarshalBinaryData refuses those bytes with StringTooLong |
| Reject.BtcLongRefused | common/messages/msgreject.go:79-157 | BtcEncode writes such a message and BtcDecode refuses it with StringTooLong |
| Reject.MaxPayloadLength | common/messages/msgreject.go:167-179 | 0 exactly below RejectVersion, MaxMessagePayload from it on |
| Reject.MsgReject.constructor | common/messages/msgreject.go:183-189 | command, code and reason as given, no hash |
| Reject.MsgReject.BtcEncode | common/messages/msgreject.go:121-157 | appends to the writer what BtcWrite gives, including the fields written before a failed hash write, and returns its error |
| Reject.MsgReject.BtcDecode | common/messages/msgreject.go:77-117 | the fields after the call, the unread bytes and the error are those of BtcRead from the old fields |
| Reject.MsgReject.MarshalBinary | common/messages/msgreject.go:258-288 | returns Marshal's bytes, or its error and no bytes |
| Reject.MsgReject.UnmarshalBinaryData | common/messages/msgreject.go:227-251 | the fields after the call and the error are those of Unmarshal from the old fields; the remainder is always empty |
| Reject.MsgReject.GetMsgHash | common/messages/msgreject.go:199-208 | the first successful call caches the hash of MarshalBinary's bytes; a marshal failure returns nothing and leaves the cache empty; later calls return the cached hash |
| Reject.MsgReject.Validate | common/messages/msgreject.go:302-304 | always 0 ("cannot tell") |
| Reject.MsgReject.Follower | common/messages/msgreject.go:327-329 | always true |
| NodeState.ParseNetwork | state/state.go:179-190 | exactly the names MAIN, TEST, LOCAL and CUSTOM are accepted, each giving a network number in 0..3 |
| NodeState.ParseNetworkInverse | state/state.go:179-190 | each of the four names selects its own number, and only that name selects it |
| NodeState.State.constructor | state/state.go:16-50 | a new state has every field zero or absent |
| NodeState.State.LeaderFor | state/state.go:85-90 | true exactly when TotalServers = 1, ServerState = 1 and the network is LOCAL, whatever the key |
| NodeState.State.Init | state/state.go:156-190 | six queues of capacity 10000, TotalServers = ServerState = 1, and the network the name selects; a bad name is refused and leaves the network number |
| NodeState.LeaderAfterInit | state/state.go:170-190 | after Init with a valid name, the node leads for every key exactly when the name is LOCAL |
| NodeState.State.SetDBHeight | state/state.go:288-294 | GetDBHeight returns the height set; only DBHeight may change |
| NodeState.State.SetCurrentDirectoryBlock | state/state.go:272-278 | GetCurrentDirectoryBlock returns the block set; only that field may change |
| NodeState.State.SetCurrentAdminBlock | state/state.go:54-60 | GetCurrentAdminBlock returns the block set; only that field may change |
| NodeState.State.SetDB | state/state.go:280-286 | GetDB returns the database set; only that field may change |

## Left out

- Parcel checksum: the CRC table's construction is not part of this model.
  `Crc32Koopman` computes bit by bit with the reversed Koopman polynomial
  0xEB31D82E, which is what `crc32.MakeTable(crc32.Koopman)` gives.
- The header carries the payload's CRC-32, and the package defines
  `MaxPayloadSize` (p2p/parcel.go:128). `UnmarshalBinaryData` checks neither,
  and the model follows the code.
- Parcels.Parcel.UnmarshalBinaryData treats the payload as a value, but
  the source reuses the old payload's backing array in place
  (`p.Payload[:0]` and `append`). When that array is large enough, the
  source overwrites bytes that any other holder of the old payload slice
  still sees. The model does not capture this aliasing.
- Parcels.NewParcel treats the payload as a value, but the source stores
  the caller's slice without copying it. A later write by the caller
  changes the parcel's payload while `Crc32` and `Length` still describe
  the old bytes. The model does not capture this sharing.
- Parcels.Encode and Parcels.AsWrittenRejectsEveryEncoding: an encoding of
  4 GiB or more has a total length that wraps in its first four bytes.
  `Encode` models the wrap, but the as-written decoder's rejection is
  proved only for encodings shorter than 4 GiB. A longer encoding can
  declare a small length and be accepted.
- Go slices have a capacity beyond their length. Slicing up to the capacity
  is not modelled: a slice past the length counts as a panic.
- `ProtocolVersion` and `NetworkListenPort` are settings of the p2p package.
  `REMOVESERVER_MSG` is a program constant. The files defining their values
  are not part of this model, so they are unspecified constants.
- `RejectVersion` (70002), `MaxMessagePayload` (32 MiB), `CmdBlock` and
  `CmdTx` are btcd's values. The file defining them is not part of this
  model.
- The primitive formats:
  - a timestamp is its milliseconds as 6 big-endian bytes;
  - a hash is its 32 raw bytes;
  - a signature is a 32-byte public key and 64 signature bytes.

  A decoder fails, writing nothing, when too few bytes remain. These are
  fixed formats standing in for implementations that are not part of this
  model.
- A Go string's length is a non-negative `int`, so `Cmd` and `Reason` are
  byte strings shorter than 2^63. The writers accept any such string; only
  the readers enforce MaxMessagePayload.
- The btcd helpers `readVarString`, `writeVarString`, `readElement` and
  `writeElement` are not part of this model. They follow btcd:
  - a compact-size var-int, where the reader refuses non-canonical forms;
  - a var-string limit of MaxMessagePayload;
  - a code is one byte;
  - a hash is 32 raw bytes;
  - writing an absent hash is an error.
- Reject.BtcRead: after an error, the reader's position is not modelled;
  the rest is reported empty.
- Reject.MsgReject.BtcDecode: after an error, the position it leaves the
  reader at is not modelled; the unread bytes it returns are empty.
- RemoveServer.RemoveServerMsg.UnmarshalBinaryData: after a failed
  signature read, the source leaves a freshly allocated empty signature
  object in Signature. The model states nothing about Signature on that
  path; Timestamp, ServerChainID and ServerType are stated to hold their
  decoded values there.
- A RemoveServer message whose timestamp or chain id is nil (the source
  would dereference nil) is not modelled: the fields always hold values.
- The primitive marshallers never fail for these fixed formats, so the
  error returns of `MarshalForSignature`/`MarshalBinary` are never taken.
- `Signature.IsSameAs(nil)` is not part of this model. It is taken to be
  false, so a present signature never matches an absent one.
- NodeState.State.Init: reading the configuration (`GetCfg`), logging,
  `InitBoltDB` (which sets `DB`) and `loadDatabase` are not modelled. The
  network name is a parameter. A bad name, which panics in the source,
  returns false.
- The message queues are Go channels for concurrent hand-off. Only their
  capacity is recorded.
- I/O and presentation are left out: `SetPort`/`GetPort`, `ReadCfg`,
  `InitLevelDB`, the JSON methods, `String`, `Print` and `MessageType`,
  with the `CommandStrings` name table they print from.
- `MsgReject.Leader` panics for every network and is left out.
- Accessors and hand-offs to code that is not part of this model are left
  out. They compute nothing the model states:
  - `Parcel.UnmarshalBinary` and `PrintMessageType`;
  - `GetHash`, `Int`, `Bytes`, `GetTimestamp`, `GetSignature`,
    `VerifySignature`, `ComputeVMIndex`, `LeaderExecute`,
    `FollowerExecute`, `Process` and `UnmarshalBinary` of both messages;
  - `MsgReject.Command`, `Type` and `MarshalForSignature`, which return
    constants;
  - the State's queue getters, `GetTotalServers`, `GetServerState`,
    `GetNetworkNumber`, `GetMatryoshka`, `GetLastAck`, `GetFactoidState`,
    `GetNetworkName` and `GetNewHash`.
- The State fields `Matryoshka`, `Port`, `LastAck`, `FactoidState` and
  `Cfg` are not modelled.
- `RemoveServer.RemoveServerMsg.Type` and `Validate` carry no contract of
  their own. Their results are stated by `MarshalForSignature` and
  `ValidateAcceptsUnsigned`.
- Go's `int` is 64-bit, and `ServerType` is an unbounded integer here. Only
  its low 8 bits reach the wire, as the `uint8` conversion keeps.

## Findings

| source | as written | input that shows it | evidently intended | confidence | as-written member | corrected member |
|---|---|---|---|---|---|---|
| p2p/parcel.go:81-98 | every field and every declared length is read from offset 0 of `Data`, and the cursor moves only past each 4-byte length, never past the string bytes | any parcel produced by `MarshalBinary` that is shorter than 4 GiB: bytes 0..4 hold the total length, so the target-peer slice runs past the end and panics | read each value at the advancing cursor and move past each string | high (not executed) | Parcels.AsWrittenRejectsEveryEncoding | Parcels.DecodeEncode |
| p2p/parcel.go:96-100 | the remainder returned is `Data[44:]`, which still begins with the payload bytes | `[0,0,0,1]` followed by 40 zero bytes and `[7]`: payload `[7]`, remainder `[7]` | return the bytes after the payload | high (not executed) | Parcels.AsWrittenRemainderNotAdvanced | Parcels.DecodeEncode |
| common/messages/removeServer.go:62-90 | `Validate` returns 1 before its authority and signature checks | an unsigned message whose chain id is not an authority: 1 | -1 unless the chain is an authority and a present signature verifies | high (not executed) | RemoveServer.ValidateAcceptsUnsigned | RemoveServer.ValidateIntended |
