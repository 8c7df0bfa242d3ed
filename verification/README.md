# Disconnect control-message codec

Gateways and nodes of the cluster send each other short binary control
frames on the same channel as data frames. This project models the codec of
one of them, the disconnect operation. A node uses it to ask a gateway to
close a client session, either forcibly or gracefully. The codec has four
functions: `EncodeDisconnectReq`, `DecodeDisconnectReq`,
`EncodeDisconnectRes` and `DecodeDisconnectRes`.

A request frame is 24 bytes:

| offset | field | width |
|---|---|---|
| 0 | size (bytes that follow it) | 4 |
| 4 | header (data bit) | 1 |
| 5 | route (disconnect) | 1 |
| 6 | seq | 8 |
| 14 | session kind | 1 |
| 15 | target | 8 |
| 23 | isForce | 1 |

A response frame is 16 bytes: the same first 14 bytes, then a 2-byte status
code. Every multi-byte field is big-endian. Signed fields are stored in two's
complement.

The project has four modules:

- `Bytes` (bytes.dfy) models fixed-width Go integers and the
  `encoding/binary` big-endian order. `BigEndian` and `FromBigEndian` are
  proved inverse in both directions. So are `ToTwosComplement` and
  `FromTwosComplement`.
- `Errors` (errors.dfy) holds the error values and a `Result` type.
- `Buffer` (buffer.dfy) models the cursor substrate the codec drives.
  - `Writer` is a class over an `array` of exactly the size passed to
    `Malloc`. Each write stores its bytes at the cursor and moves the cursor
    past them. The ghost `Written()` is the prefix written so far.
  - `Reader` is a class over a byte sequence with a position. `Seek` is
    relative to the start, the current position or the end. Reads move the
    position and fail past the end.
- `Protocol` (protocol.dfy) holds the layout constants and the four codec
  operations, written as methods that drive a `Writer` or a `Reader`.
  - The functions `DisconnectReqFrame`, `DisconnectResFrame`,
    `ParseDisconnectReq` and `ParseDisconnectRes` state the layout
    independently, by byte offset. Each method is proved equal to its
    function.
  - Lemmas state what the layout promises: frame length, the value of the
    size field, field offsets, round trips in both directions, and which
    bytes each decoder ignores.

The constants `defaultSizeBytes`, `defaultHeaderBytes`, `defaultRouteBytes`,
`defaultSeqBytes` and `defaultCodeBytes` are declared outside the modelled
file. The model takes them as 4, 1, 1, 8 and 2.

The response decoder checks the length against `bindResBytes`, not against
`disconnectResBytes`. The model does the same: `BindResBytes` is a separate
constant, taken as 16. `DisconnectResRoundTrip` names the equality it relies
on, `BindResBytes == DisconnectResBytes`, as a precondition.

## Model

| member | source | states |
|---|---|---|
| Bytes.FromBigEndianInverse | internal/stream/internal/protocol/disconnect.go:25 | reading back the big-endian bytes of a value of any width gives that value |
| Bytes.BigEndianInverse | internal/stream/internal/protocol/disconnect.go:47 | every byte string is the big-endian image of the value read from it, so reading loses nothing |
| Bytes.ToTwosComplement | internal/stream/internal/protocol/disconnect.go:27 | the bit pattern of a signed value is below 256^width, is the value or the value plus 256^width, and is below the sign bound exactly when the value is non-negative |
| Bytes.FromTwosComplement | internal/stream/internal/protocol/disconnect.go:58 | the signed value of a bit pattern lies in the signed range and is the pattern or the pattern minus 256^width |
| Bytes.TwosComplementInverse | internal/stream/internal/protocol/disconnect.go:27 | signed-to-pattern and pattern-to-signed are inverse in both directions |
| Buffer.Writer.Malloc | internal/stream/internal/protocol/disconnect.go:21 | allocates a fresh region of exactly n bytes with nothing written yet |
| Buffer.Writer.WriteBigEndian | internal/stream/internal/protocol/disconnect.go:22 | appends the big-endian bytes of v to what was written, advances the cursor by the width, and keeps the region |
| Buffer.Writer.WriteUint8 | internal/stream/internal/protocol/disconnect.go:23-24 | appends one byte and advances the cursor by one |
| Buffer.Writer.WriteBool | internal/stream/internal/protocol/disconnect.go:28 | appends 1 for true and 0 for false |
| Buffer.Writer.WriteUint32 | internal/stream/internal/protocol/disconnect.go:22 | appends the 4 big-endian bytes of v |
| Buffer.Writer.WriteUint64 | internal/stream/internal/protocol/disconnect.go:25 | appends the 8 big-endian bytes of v |
| Buffer.Writer.WriteInt64 | internal/stream/internal/protocol/disconnect.go:27 | appends the 8 big-endian bytes of v's two's complement pattern |
| Buffer.Writer.WriteInt16 | internal/stream/internal/protocol/disconnect.go:78 | appends the 2 big-endian bytes of v's two's complement pattern |
| Buffer.Reader.constructor | internal/stream/internal/protocol/disconnect.go:41 | wraps the given bytes with the position at 0 |
| Buffer.Reader.Seek | internal/stream/internal/protocol/disconnect.go:43 | moves to the start-, current- or end-relative target and returns it when it lies within the span; otherwise fails with the position unchanged |
| Buffer.Reader.ReadBigEndian | internal/stream/internal/protocol/disconnect.go:47 | returns the big-endian value of the next width bytes and advances past them; fails without moving when fewer remain |
| Buffer.Reader.ReadUint64 | internal/stream/internal/protocol/disconnect.go:47 | returns the big-endian value of the next 8 bytes, or fails without moving when fewer remain |
| Buffer.Reader.ReadUint8 | internal/stream/internal/protocol/disconnect.go:52 | returns the next byte, or fails without moving at the end |
| Buffer.Reader.ReadInt64 | internal/stream/internal/protocol/disconnect.go:58 | returns the signed value of the next 8 big-endian bytes, or fails without moving when fewer remain |
| Buffer.Reader.ReadBool | internal/stream/internal/protocol/disconnect.go:62 | returns whether the next byte is non-zero, or fails without moving at the end |
| Buffer.Reader.ReadInt16 | internal/stream/internal/protocol/disconnect.go:97 | returns the signed value of the next 2 big-endian bytes, or fails without moving when fewer remain |
| Protocol.EncodeDisconnectReq | internal/stream/internal/protocol/disconnect.go:19-31 | the writes fill the allocated region exactly, and the returned bytes are the request layout of (seq, kind, target, isForce) |
| Protocol.DecodeDisconnectReq | internal/stream/internal/protocol/disconnect.go:35-67 | fails, with InvalidMessage, exactly when the length is not DisconnectReqBytes; otherwise no seek or read fails and the fields are those at offsets 6, 14, 15 and 23 |
| Protocol.EncodeDisconnectRes | internal/stream/internal/protocol/disconnect.go:71-81 | the writes fill the allocated region exactly, and the returned bytes are the response layout of (seq, code) |
| Protocol.DecodeDisconnectRes | internal/stream/internal/protocol/disconnect.go:85-102 | fails, with InvalidMessage, exactly when the length is not BindResBytes; otherwise returns the signed big-endian value of the last two bytes, reached by an end-relative seek |
| Protocol.DisconnectReqFrameLayout | internal/stream/internal/protocol/disconnect.go:13 | an encoded request is 24 bytes, the sum of its field widths; its size field reads length minus 4; header, route, seq, kind, target and isForce sit at offsets 4, 5, 6, 14, 15 and 23 |
| Protocol.DisconnectReqRoundTrip | internal/stream/internal/protocol/disconnect.go:19-67 | decoding an encoded request succeeds and gives back seq, target, isForce and uint8(kind), which is the kind itself for kinds 0 to 255 |
| Protocol.DisconnectReqEncodesDecoded | internal/stream/internal/protocol/disconnect.go:35-67 | a 24-byte frame with the encoder's size, header and route bytes and an isForce byte of 0 or 1 decodes, and re-encoding the result gives the same bytes |
| Protocol.DisconnectReqIgnoresHeader | internal/stream/internal/protocol/disconnect.go:43 | inputs that differ only in bytes 0 to 5 decode alike, because the decoder seeks past size, header and route |
| Protocol.DisconnectResFrameLayout | internal/stream/internal/protocol/disconnect.go:14 | an encoded response is 16 bytes; its size field reads length minus 4; header and route are at 4 and 5, seq at 6 to 13, and the status code is in the last 2 bytes |
| Protocol.DisconnectResRoundTrip | internal/stream/internal/protocol/disconnect.go:71-102 | assuming BindResBytes equals DisconnectResBytes, decoding an encoded response gives back its status code |
| Protocol.DisconnectResReadsOnlyTrailer | internal/stream/internal/protocol/disconnect.go:93 | inputs of the same length that agree in their last 2 bytes decode alike, whatever precedes those bytes |

## Left out

- Transport (the RPC framework wiring), the request façade that forwards to the proxy, and log formatting are not part of this model. They hold no codec logic.
- Sequence correlation, the pending-request table, deadlines and cancellation do not appear in the modelled code. They are not part of this model.
- The no-copy buffer of `core/buffer` and its zero-copy composition are not part of this model. Only the writer and reader cursors the codec drives are modelled. The encoders return the frame's bytes rather than the buffer object that holds them.
- The `Write*s` calls of the writer take any number of values. The codec always passes one, so the model's writes take one value.
- Buffer.Writer.WriteBigEndian: writing past the allocated region is a precondition here. The writer's behaviour there is not visible, and the encoders never do it.
- Buffer.Reader.Seek: the reader's code is not visible. The model assumes a seek fails for a target before the start or past the end, and leaves the position unchanged. The decoders only seek within the span, so this choice does not affect them.
- Buffer.Reader.ReadBool: the reader's code is not visible. The model takes any non-zero byte as true. The round trips hold whatever is chosen for bytes other than 0 and 1, because the encoder writes only 0 and 1.
- The values of `dataBit` and `route.Disconnect` are not visible. `DataBit` and `DisconnectRoute` are stand-in constants, and no lemma depends on their values.
- The enumeration values of `session.Kind` are not visible. `Kind` is a 64-bit Go `int`, and the encoder keeps `uint8(kind)`, its value modulo 256.
- `bindResBytes` is declared with the bind messages, which are not part of this model. It is taken to be 16, the response layout's length.
- When a Go decoder returns an error, it also returns zero values for the other results. The model returns only the error.
