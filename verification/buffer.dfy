/**
 * The cursor substrate the codec drives: a writer over a region of exactly
 * the requested size whose writes advance a cursor, and a reader over a byte
 * span with a position that seeks and reads move.
 */
module Buffer {
  import opened Bytes
  import opened Errors

  /** A writer over a freshly allocated region of fixed size (what Malloc hands out). */
  class Writer {
    var data: array<byte>
    var pos: nat

    ghost predicate Valid()
      reads this
    {
      pos <= data.Length
    }

    /** The bytes written so far, in order. */
    ghost function Written(): seq<byte>
      reads this, data
      requires Valid()
    {
      data[..pos]
    }

    /** Allocates exactly n bytes, no more, and places the cursor at the start. */
    constructor Malloc(n: nat)
      ensures Valid() && fresh(data)
      ensures data.Length == n && Written() == []
    {
      data := new byte[n];
      pos := 0;
    }

    /**
     * Writes v as `width` bytes, most significant first, at the cursor and
     * advances it. Writing past the region is a programming error, not a
     * recoverable one, hence the precondition.
     */
    method WriteBigEndian(v: nat, width: nat)
      requires Valid() && v < Pow256(width) && pos + width <= data.Length
      modifies this, data
      ensures Valid() && data == old(data) && pos == old(pos) + width
      ensures Written() == old(Written()) + BigEndian(v, width)
    {
      var x: nat, i: nat := v, width;
      while i > 0
        invariant i <= width && x < Pow256(i)
        invariant data[..pos] == old(data[..pos])
        invariant BigEndian(x, i) + data[pos + i..pos + width] == BigEndian(v, width)
        modifies data
      {
        data[pos + i - 1] := x % 256;
        x, i := x / 256, i - 1;
      }
      assert data[..pos + width] == data[..pos] + data[pos..pos + width];
      pos := pos + width;
    }

    method WriteUint8(v: byte)
      requires Valid() && pos + 1 <= data.Length
      modifies this, data
      ensures Valid() && data == old(data) && pos == old(pos) + 1
      ensures Written() == old(Written()) + [v]
    {
      data[pos] := v;
      pos := pos + 1;
      assert Written() == old(Written()) + [v];
    }

    method WriteBool(b: bool)
      requires Valid() && pos + 1 <= data.Length
      modifies this, data
      ensures Valid() && data == old(data) && pos == old(pos) + 1
      ensures Written() == old(Written()) + [BoolByte(b)]
    {
      WriteUint8(BoolByte(b));
    }

    method WriteUint32(v: uint32)
      requires Valid() && pos + 4 <= data.Length
      modifies this, data
      ensures Valid() && data == old(data) && pos == old(pos) + 4
      ensures Written() == old(Written()) + BigEndian(v, 4)
    {
      WriteBigEndian(v, 4);
    }

    method WriteUint64(v: uint64)
      requires Valid() && pos + 8 <= data.Length
      modifies this, data
      ensures Valid() && data == old(data) && pos == old(pos) + 8
      ensures Written() == old(Written()) + BigEndian(v, 8)
    {
      WriteBigEndian(v, 8);
    }

    /** Writes the two's complement pattern of v, big-endian. */
    method WriteInt64(v: int64)
      requires Valid() && pos + 8 <= data.Length
      modifies this, data
      ensures Valid() && data == old(data) && pos == old(pos) + 8
      ensures Written() == old(Written()) + BigEndian(ToTwosComplement(v, 8), 8)
    {
      WriteBigEndian(ToTwosComplement(v, 8), 8);
    }

    method WriteInt16(v: int16)
      requires Valid() && pos + 2 <= data.Length
      modifies this, data
      ensures Valid() && data == old(data) && pos == old(pos) + 2
      ensures Written() == old(Written()) + BigEndian(ToTwosComplement(v, 2), 2)
    {
      WriteBigEndian(ToTwosComplement(v, 2), 2);
    }
  }

  /** The origin a seek offset is taken from (io.SeekStart, io.SeekCurrent, io.SeekEnd). */
  datatype Whence = SeekStart | SeekCurrent | SeekEnd

  /** The absolute position a seek asks for, from the current position and the span's size. */
  function SeekTarget(pos: nat, size: nat, offset: int, whence: Whence): int
  {
    match whence
    case SeekStart => offset
    case SeekCurrent => pos + offset
    case SeekEnd => size + offset
  }

  /** A reader over an existing byte span; it never changes the span. */
  class Reader {
    const data: seq<byte>
    var pos: nat

    constructor (data: seq<byte>)
      ensures this.data == data && pos == 0
    {
      this.data := data;
      pos := 0;
    }

    /**
     * Moves the position to the target of (offset, whence) when that lies
     * within the span, and reports the new position; otherwise fails and
     * leaves the position where it was.
     */
    method Seek(offset: int, whence: Whence) returns (r: Result<nat>)
      modifies this
      ensures var target := SeekTarget(old(pos), |data|, offset, whence);
        if 0 <= target <= |data|
        then r == Success(target) && pos == target
        else r == Failure(SeekOutOfRange) && pos == old(pos)
    {
      var target := SeekTarget(pos, |data|, offset, whence);
      if target < 0 || target > |data| {
        return Failure(SeekOutOfRange);
      }
      pos := target;
      r := Success(target);
    }

    /**
     * Reads `width` bytes at the position as a big-endian unsigned value and
     * advances past them; fails, without moving, when fewer bytes remain.
     */
    method ReadBigEndian(width: nat) returns (r: Result<nat>)
      modifies this
      ensures old(pos) + width <= |data| ==>
        r == Success(FromBigEndian(data[old(pos)..old(pos) + width])) && pos == old(pos) + width
      ensures old(pos) + width > |data| ==> r == Failure(ShortRead) && pos == old(pos)
    {
      if pos + width > |data| {
        return Failure(ShortRead);
      }
      var v: nat, i: nat := 0, 0;
      while i < width
        invariant i <= width
        invariant v == FromBigEndian(data[pos..pos + i])
      {
        assert data[pos..pos + i + 1][..i] == data[pos..pos + i];
        v := v * 256 + data[pos + i];
        i := i + 1;
      }
      pos := pos + width;
      r := Success(v);
    }

    method ReadUint8() returns (r: Result<byte>)
      modifies this
      ensures old(pos) + 1 <= |data| ==> r == Success(data[old(pos)]) && pos == old(pos) + 1
      ensures old(pos) + 1 > |data| ==> r == Failure(ShortRead) && pos == old(pos)
    {
      if pos + 1 > |data| {
        return Failure(ShortRead);
      }
      r := Success(data[pos]);
      pos := pos + 1;
    }

    /** Reads one byte as a bool: any non-zero byte is true. */
    method ReadBool() returns (r: Result<bool>)
      modifies this
      ensures old(pos) + 1 <= |data| ==> r == Success(data[old(pos)] != 0) && pos == old(pos) + 1
      ensures old(pos) + 1 > |data| ==> r == Failure(ShortRead) && pos == old(pos)
    {
      var b := ReadUint8();
      if b.Failure? {
        return Failure(b.error);
      }
      r := Success(b.value != 0);
    }

    method ReadUint64() returns (r: Result<uint64>)
      modifies this
      ensures old(pos) + 8 <= |data| ==>
        r == Success(FromBigEndian(data[old(pos)..old(pos) + 8])) && pos == old(pos) + 8
      ensures old(pos) + 8 > |data| ==> r == Failure(ShortRead) && pos == old(pos)
    {
      var u := ReadBigEndian(8);
      if u.Failure? {
        return Failure(u.error);
      }
      r := Success(u.value);
    }

    /** Reads 8 bytes as the two's complement pattern of a signed value. */
    method ReadInt64() returns (r: Result<int64>)
      modifies this
      ensures old(pos) + 8 <= |data| ==>
        r == Success(FromTwosComplement(FromBigEndian(data[old(pos)..old(pos) + 8]), 8)) && pos == old(pos) + 8
      ensures old(pos) + 8 > |data| ==> r == Failure(ShortRead) && pos == old(pos)
    {
      var u := ReadBigEndian(8);
      if u.Failure? {
        return Failure(u.error);
      }
      r := Success(FromTwosComplement(u.value, 8));
    }

    method ReadInt16() returns (r: Result<int16>)
      modifies this
      ensures old(pos) + 2 <= |data| ==>
        r == Success(FromTwosComplement(FromBigEndian(data[old(pos)..old(pos) + 2]), 2)) && pos == old(pos) + 2
      ensures old(pos) + 2 > |data| ==> r == Failure(ShortRead) && pos == old(pos)
    {
      var u := ReadBigEndian(2);
      if u.Failure? {
        return Failure(u.error);
      }
      r := Success(FromTwosComplement(u.value, 2));
    }
  }
}
