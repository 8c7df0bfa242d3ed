/**
 * The binary codec of the disconnect control message exchanged between
 * gateways and nodes. A request frame is
 *
 *   size:4 | header:1 | route:1 | seq:8 | kind:1 | target:8 | isForce:1   (24 bytes)
 *
 * and a response frame is
 *
 *   size:4 | header:1 | route:1 | seq:8 | code:2                          (16 bytes)
 *
 * with every multi-byte field big-endian and `size` counting the bytes that
 * follow it. The encoders write through a Writer; the decoders check the
 * exact length, then seek and read through a Reader. The functions
 * DisconnectReqFrame, DisconnectResFrame, ParseDisconnectReq and
 * ParseDisconnectRes state the layout by byte offsets; the methods are
 * proved to agree with them and the lemmas state what the layout promises.
 */
module Protocol {
  import opened Bytes
  import opened Errors
  import opened Buffer

  // Field widths shared by every message of the protocol.
  const SizeBytes: int := 4
  const HeaderBytes: int := 1
  const RouteBytes: int := 1
  const SeqBytes: int := 8
  const CodeBytes: int := 2

  const DisconnectReqBytes: int := SizeBytes + HeaderBytes + RouteBytes + SeqBytes + 1 + 8 + 1
  const DisconnectResBytes: int := SizeBytes + HeaderBytes + RouteBytes + SeqBytes + CodeBytes

  /**
   * The length the response decoder checks against. It is declared with the
   * bind messages, separately from DisconnectResBytes; the response round
   * trip holds only because the two are equal.
   */
  const BindResBytes: int := 16

  /** Header byte of the frames the codec writes. Its value is a stand-in. */
  const DataBit: byte := 0

  /** Route code of the disconnect operation. Its value is a stand-in. */
  const DisconnectRoute: byte := 6

  /** The namespace a target identifier belongs to (session.Kind, a Go int). */
  type Kind = int64

  /** The fields a disconnect request carries. */
  datatype DisconnectReq = DisconnectReq(sequence: uint64, kind: Kind, target: int64, isForce: bool)

  /** The common first 14 bytes of a frame of `frameBytes` bytes: size, header, route, seq. */
  function FrameHeader(frameBytes: nat, sequence: uint64): seq<byte>
    requires SizeBytes <= frameBytes < 0x1_0000_0000
  {
    BigEndian(frameBytes - SizeBytes, 4) + [DataBit, DisconnectRoute] + BigEndian(sequence, 8)
  }

  /** The wire image of a disconnect request, field by field. */
  function DisconnectReqFrame(sequence: uint64, kind: Kind, target: int64, isForce: bool): seq<byte>
  {
    FrameHeader(DisconnectReqBytes, sequence)
      + [kind % 256]
      + BigEndian(ToTwosComplement(target, 8), 8)
      + [BoolByte(isForce)]
  }

  /** The wire image of a disconnect response, field by field. */
  function DisconnectResFrame(sequence: uint64, code: int16): seq<byte>
  {
    FrameHeader(DisconnectResBytes, sequence) + BigEndian(ToTwosComplement(code, 2), 2)
  }

  /**
   * What decoding a request yields, by byte offset: an exact-length check,
   * then seq at 6, kind at 14, target at 15 and isForce at 23.
   */
  function ParseDisconnectReq(data: seq<byte>): Result<DisconnectReq>
  {
    if |data| != DisconnectReqBytes then Failure(InvalidMessage)
    else Success(DisconnectReq(
      FromBigEndian(data[6..14]),
      data[14],
      FromTwosComplement(FromBigEndian(data[15..23]), 8),
      data[23] != 0))
  }

  /** What decoding a response yields: a length check, then the status in the last two bytes. */
  function ParseDisconnectRes(data: seq<byte>): Result<int16>
  {
    if |data| != BindResBytes then Failure(InvalidMessage)
    else Success(FromTwosComplement(FromBigEndian(data[|data| - CodeBytes..|data|]), 2))
  }

  /** Encodes a disconnect request into a buffer of exactly DisconnectReqBytes bytes. */
  method EncodeDisconnectReq(sequence: uint64, kind: Kind, target: int64, isForce: bool)
    returns (frame: seq<byte>)
    ensures frame == DisconnectReqFrame(sequence, kind, target, isForce)
  {
    var writer := new Writer.Malloc(DisconnectReqBytes);
    writer.WriteUint32(DisconnectReqBytes - SizeBytes);
    writer.WriteUint8(DataBit);
    writer.WriteUint8(DisconnectRoute);
    writer.WriteUint64(sequence);
    assert writer.Written() == FrameHeader(DisconnectReqBytes, sequence);
    writer.WriteUint8(kind % 256);
    writer.WriteInt64(target);
    writer.WriteBool(isForce);
    assert writer.data[..] == writer.Written();
    frame := writer.data[..];
  }

  /**
   * Decodes a disconnect request: InvalidMessage exactly when the length is
   * not DisconnectReqBytes; otherwise the fields, skipping size, header and
   * route. Once the length is right, no seek or read can fail.
   */
  method DecodeDisconnectReq(data: seq<byte>) returns (r: Result<DisconnectReq>)
    ensures r.Failure? <==> |data| != DisconnectReqBytes
    ensures r.Failure? ==> r.error == InvalidMessage
    ensures r == ParseDisconnectReq(data)
  {
    if |data| != DisconnectReqBytes {
      return Failure(InvalidMessage);
    }
    var reader := new Reader(data);
    var sought := reader.Seek(SizeBytes + HeaderBytes + RouteBytes, SeekStart);
    match sought {
      case Failure(e) => return Failure(e);
      case Success(_) =>
    }
    var sequence := reader.ReadUint64();
    match sequence {
      case Failure(e) => return Failure(e);
      case Success(_) =>
    }
    var kind := reader.ReadUint8();
    match kind {
      case Failure(e) => return Failure(e);
      case Success(_) =>
    }
    var target := reader.ReadInt64();
    match target {
      case Failure(e) => return Failure(e);
      case Success(_) =>
    }
    var isForce := reader.ReadBool();
    match isForce {
      case Failure(e) => return Failure(e);
      case Success(_) =>
    }
    r := Success(DisconnectReq(sequence.value, kind.value, target.value, isForce.value));
  }

  /** Encodes a disconnect response into a buffer of exactly DisconnectResBytes bytes. */
  method EncodeDisconnectRes(sequence: uint64, code: int16) returns (frame: seq<byte>)
    ensures frame == DisconnectResFrame(sequence, code)
  {
    var writer := new Writer.Malloc(DisconnectResBytes);
    writer.WriteUint32(DisconnectResBytes - SizeBytes);
    writer.WriteUint8(DataBit);
    writer.WriteUint8(DisconnectRoute);
    writer.WriteUint64(sequence);
    assert writer.Written() == FrameHeader(DisconnectResBytes, sequence);
    writer.WriteInt16(code);
    assert writer.data[..] == writer.Written();
    frame := writer.data[..];
  }

  /**
   * Decodes a disconnect response: InvalidMessage exactly when the length is
   * not BindResBytes; otherwise the status code, reached by seeking
   * CodeBytes back from the end.
   */
  method DecodeDisconnectRes(data: seq<byte>) returns (r: Result<int16>)
    ensures r.Failure? <==> |data| != BindResBytes
    ensures r.Failure? ==> r.error == InvalidMessage
    ensures r == ParseDisconnectRes(data)
  {
    if |data| != BindResBytes {
      return Failure(InvalidMessage);
    }
    var reader := new Reader(data);
    var sought := reader.Seek(-CodeBytes, SeekEnd);
    match sought {
      case Failure(e) => return Failure(e);
      case Success(_) =>
    }
    var code := reader.ReadInt16();
    match code {
      case Failure(e) => return Failure(e);
      case Success(_) =>
    }
    r := Success(code.value);
  }

  /**
   * An encoded request is DisconnectReqBytes long, the sum of its field
   * widths; its size field holds the frame length minus the size field
   * itself; and each field sits at its offset in the byte order given.
   */
  lemma DisconnectReqFrameLayout(sequence: uint64, kind: Kind, target: int64, isForce: bool)
    ensures var frame := DisconnectReqFrame(sequence, kind, target, isForce);
      && |frame| == DisconnectReqBytes == 24
      && FromBigEndian(frame[..4]) == |frame| - SizeBytes
      && frame[4] == DataBit && frame[5] == DisconnectRoute
      && frame[6..14] == BigEndian(sequence, 8) && FromBigEndian(frame[6..14]) == sequence
      && frame[14] == kind % 256
      && frame[15..23] == BigEndian(ToTwosComplement(target, 8), 8)
      && FromTwosComplement(FromBigEndian(frame[15..23]), 8) == target
      && frame[23] == (if isForce then 1 else 0)
  {
    var frame := DisconnectReqFrame(sequence, kind, target, isForce);
    var size := BigEndian(DisconnectReqBytes - SizeBytes, 4);
    var seqBytes := BigEndian(sequence, 8);
    var targetBytes := BigEndian(ToTwosComplement(target, 8), 8);
    assert frame == size + [DataBit, DisconnectRoute] + seqBytes + [kind % 256] + targetBytes + [BoolByte(isForce)];
    assert frame[..4] == size;
    assert frame[6..14] == seqBytes;
    assert frame[15..23] == targetBytes;
    FromBigEndianInverse(DisconnectReqBytes - SizeBytes, 4);
    FromBigEndianInverse(sequence, 8);
    FromBigEndianInverse(ToTwosComplement(target, 8), 8);
    TwosComplementInverse(target, 0, 8);
  }

  /**
   * Decoding an encoded request gives back its fields; the kind comes back
   * as the byte uint8(kind) kept of it, which is the kind itself for every
   * kind below 256.
   */
  lemma DisconnectReqRoundTrip(sequence: uint64, kind: Kind, target: int64, isForce: bool)
    ensures ParseDisconnectReq(DisconnectReqFrame(sequence, kind, target, isForce))
      == Success(DisconnectReq(sequence, kind % 256, target, isForce))
    ensures 0 <= kind < 256 ==>
      ParseDisconnectReq(DisconnectReqFrame(sequence, kind, target, isForce))
        == Success(DisconnectReq(sequence, kind, target, isForce))
  {
    DisconnectReqFrameLayout(sequence, kind, target, isForce);
  }

  /**
   * The converse round trip: a 24-byte frame whose size, header and route
   * bytes are the ones the encoder writes and whose isForce byte is 0 or 1
   * is exactly the encoding of what it decodes to.
   */
  lemma DisconnectReqEncodesDecoded(data: seq<byte>)
    requires |data| == DisconnectReqBytes
    requires data[..6] == BigEndian(DisconnectReqBytes - SizeBytes, 4) + [DataBit, DisconnectRoute]
    requires data[23] <= 1
    ensures ParseDisconnectReq(data).Success?
    ensures var m := ParseDisconnectReq(data).value;
      DisconnectReqFrame(m.sequence, m.kind, m.target, m.isForce) == data
  {
    var m := ParseDisconnectReq(data).value;
    BigEndianInverse(data[6..14]);
    BigEndianInverse(data[15..23]);
    TwosComplementInverse(0, FromBigEndian(data[15..23]), 8);
    var frame := DisconnectReqFrame(m.sequence, m.kind, m.target, m.isForce);
    assert frame == data[..6] + data[6..14] + [data[14]] + data[15..23] + [data[23]];
    assert data == data[..6] + data[6..14] + [data[14]] + data[15..23] + [data[23]];
  }

  /**
   * The request decoder skips size, header and route: inputs that differ
   * only in bytes 0 to 5 decode alike.
   */
  lemma {:induction false} DisconnectReqIgnoresHeader(a: seq<byte>, b: seq<byte>)
    requires |a| == |b| && |a| >= 6 && a[6..] == b[6..]
    ensures ParseDisconnectReq(a) == ParseDisconnectReq(b)
  {
    if |a| == DisconnectReqBytes {
      assert a[6..14] == a[6..][..8] == b[6..][..8] == b[6..14];
      assert a[15..23] == a[6..][9..17] == b[6..][9..17] == b[15..23];
      assert a[14] == a[6..][8] == b[6..][8] == b[14];
      assert a[23] == a[6..][17] == b[6..][17] == b[23];
    }
  }

  /**
   * An encoded response is DisconnectResBytes long; its size field holds the
   * frame length minus the size field; seq sits at bytes 6 to 13 and the
   * status code in the last CodeBytes bytes.
   */
  lemma DisconnectResFrameLayout(sequence: uint64, code: int16)
    ensures var frame := DisconnectResFrame(sequence, code);
      && |frame| == DisconnectResBytes == 16
      && FromBigEndian(frame[..4]) == |frame| - SizeBytes
      && frame[4] == DataBit && frame[5] == DisconnectRoute
      && FromBigEndian(frame[6..14]) == sequence
      && frame[|frame| - CodeBytes..] == BigEndian(ToTwosComplement(code, 2), 2)
      && FromTwosComplement(FromBigEndian(frame[|frame| - CodeBytes..]), 2) == code
  {
    var frame := DisconnectResFrame(sequence, code);
    var size := BigEndian(DisconnectResBytes - SizeBytes, 4);
    var seqBytes := BigEndian(sequence, 8);
    var codeBytes := BigEndian(ToTwosComplement(code, 2), 2);
    assert frame == size + [DataBit, DisconnectRoute] + seqBytes + codeBytes;
    assert frame[..4] == size;
    assert frame[6..14] == seqBytes;
    assert frame[14..] == codeBytes;
    FromBigEndianInverse(DisconnectResBytes - SizeBytes, 4);
    FromBigEndianInverse(sequence, 8);
    FromBigEndianInverse(ToTwosComplement(code, 2), 2);
    TwosComplementInverse(code, 0, 2);
  }

  /**
   * Decoding an encoded response gives back its status code. This rests on
   * the length the decoder checks, BindResBytes, being DisconnectResBytes.
   */
  lemma DisconnectResRoundTrip(sequence: uint64, code: int16)
    requires BindResBytes == DisconnectResBytes
    ensures ParseDisconnectRes(DisconnectResFrame(sequence, code)) == Success(code)
  {
    DisconnectResFrameLayout(sequence, code);
    var frame := DisconnectResFrame(sequence, code);
    assert frame[|frame| - CodeBytes..|frame|] == frame[|frame| - CodeBytes..];
  }

  /**
   * The response decoder looks only at the last CodeBytes bytes: inputs of
   * the same length that agree there decode alike, whatever precedes them.
   */
  lemma DisconnectResReadsOnlyTrailer(a: seq<byte>, b: seq<byte>)
    requires |a| == |b| >= CodeBytes && a[|a| - CodeBytes..] == b[|b| - CodeBytes..]
    ensures ParseDisconnectRes(a) == ParseDisconnectRes(b)
  {
    assert a[|a| - CodeBytes..|a|] == a[|a| - CodeBytes..];
    assert b[|b| - CodeBytes..|b|] == b[|b| - CodeBytes..];
  }
}
