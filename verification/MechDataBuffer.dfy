/** The mutable byte buffer every frame is written into and read from.

    Storage is one array; the live range is `rangeLength` bytes from `rangeOffset`. A capacity of 0 stands
    for the null storage the source keeps when it refuses to allocate. */
module DataBuffer {
  import opened Options
  import opened FrameLayout

  const MECH_MAX_BUFFER_SIZE := 80 * 1024 * 1024
  const SIZE_COUNT := 0x1_0000_0000_0000_0000
  type Size = n: nat | n < 0x1_0000_0000_0000_0000

  /** `w` bytes of a value in the order a little-endian machine stores them. */
  function LittleEndian(value: nat, w: nat): (bytes: seq<Byte>)
    ensures |bytes| == w
  {
    if w == 0 then [] else [value % 0x100] + LittleEndian(value / 0x100, w - 1)
  }

  function FromLittleEndian(bytes: seq<Byte>): nat {
    if |bytes| == 0 then 0 else bytes[0] as nat + 0x100 * FromLittleEndian(bytes[1..])
  }

  function Pow256(w: nat): nat {
    if w == 0 then 1 else 0x100 * Pow256(w - 1)
  }

  /** What is stored in `w` bytes is read back if it fits in `w` bytes. */
  lemma {:induction false} LittleEndianRoundTrip(value: nat, w: nat)
    requires value < Pow256(w)
    ensures FromLittleEndian(LittleEndian(value, w)) == value
  {
    if w > 0 {
      LittleEndianRoundTrip(value / 0x100, w - 1);
      assert LittleEndian(value, w)[1..] == LittleEndian(value / 0x100, w - 1);
    }
  }

  /** The `i`-th digit of a value to the base 256, from the least significant on. */
  function Digit(value: nat, i: nat): nat {
    if i == 0 then value % 256 else Digit(value / 256, i - 1)
  }

  /** The bytes come least significant first. */
  lemma {:induction false} LeastSignificantFirst(value: nat, w: nat, i: nat)
    requires i < w
    ensures LittleEndian(value, w)[i] == Digit(value, i)
  {
    if i > 0 {
      LeastSignificantFirst(value / 0x100, w - 1, i - 1);
    }
  }

  lemma LowDigit(low: nat, rest: nat)
    requires low < 256
    ensures (low + 256 * rest) % 256 == low && (low + 256 * rest) / 256 == rest
  {
  }

  /** And every byte string is the one its value is stored as. */
  lemma {:induction false} BytesRoundTrip(bytes: seq<Byte>)
    ensures LittleEndian(FromLittleEndian(bytes), |bytes|) == bytes
  {
    if |bytes| > 0 {
      var low, rest := bytes[0], bytes[1..];
      BytesRoundTrip(rest);
      LowDigit(low, FromLittleEndian(rest));
      assert LittleEndian(FromLittleEndian(bytes), |bytes|) == [low] + LittleEndian(FromLittleEndian(rest), |rest|);
      assert bytes == [low] + rest;
    }
  }

  /** The size check of `SetRange`, in the 64-bit arithmetic it is written in. */
  predicate RangeAccepted(capacity: Size, offset: Size, size: Size) {
    offset <= capacity && (offset + size) % SIZE_COUNT <= capacity
  }

  /** The check keeps the range inside the storage exactly when the sum of its arguments does not wrap. */
  lemma RangeCheckIsExact(capacity: Size, offset: Size, size: Size)
    ensures (RangeAccepted(capacity, offset, size) <==> offset + size <= capacity)
            <==> (offset > capacity || offset + size < SIZE_COUNT || offset + size - SIZE_COUNT > capacity)
  {
    if offset + size >= SIZE_COUNT {
      assert (offset + size) % SIZE_COUNT == offset + size - SIZE_COUNT;
    }
  }

  lemma SliceOfSlice(bytes: seq<Byte>, from: nat, to: nat, lo: nat, hi: nat)
    requires from + hi <= to <= |bytes| && lo <= hi
    ensures bytes[from..to][lo..hi] == bytes[from + lo..from + hi]
  {
    var range := bytes[from..to];
    forall i | 0 <= i < hi - lo
      ensures range[lo..hi][i] == bytes[from + lo..from + hi][i]
    {
      assert range[lo..hi][i] == range[lo + i];
    }
    assert range[lo..hi] == bytes[from + lo..from + hi];
  }

  /** A read is refused, or let through; if the sum in its check wraps, it is let through for an offset beyond
      any storage, and what it then does is undefined. */
  datatype Read<T> = Refused | Undefined | Value(value: T)

  class MechDataBuffer {
    var storage: array<Byte>
    var rangeOffset: Size
    var rangeLength: Size

    ghost predicate Valid()
      reads this
    {
      storage.Length < MECH_MAX_BUFFER_SIZE && rangeOffset + rangeLength <= storage.Length
    }

    /** The bytes of the live range. */
    ghost function Contents(): seq<Byte>
      reads this, storage
      requires Valid()
    {
      storage[rangeOffset..rangeOffset + rangeLength]
    }

    /** The bytes still free behind the live range. */
    function Room(): nat
      reads this
      requires Valid()
    {
      storage.Length - rangeOffset - rangeLength
    }

    constructor (capacity: Size)
      ensures Valid() && fresh(storage)
      ensures storage.Length == if capacity < MECH_MAX_BUFFER_SIZE then capacity else 0
      ensures rangeOffset == 0 && Contents() == []
    {
      var size := if capacity < MECH_MAX_BUFFER_SIZE then capacity else 0;
      storage := new Byte[size](_ => 0);
      rangeOffset, rangeLength := 0, 0;
    }

    /** Moves the live range. A rejected call changes nothing; an accepted one leaves the range inside
        the storage unless the 64-bit sum wrapped. */
    method SetRange(offset: Size, size: Size) returns (ok: bool)
      requires Valid()
      modifies this`rangeOffset, this`rangeLength
      ensures ok <==> RangeAccepted(storage.Length, offset, size)
      ensures ok ==> rangeOffset == offset && rangeLength == size
      ensures !ok ==> rangeOffset == old(rangeOffset) && rangeLength == old(rangeLength)
      ensures !ok || offset + size < SIZE_COUNT ==> Valid()
    {
      if !(offset <= storage.Length) || !((offset + size) % SIZE_COUNT <= storage.Length) {
        return false;
      }
      rangeOffset, rangeLength := offset, size;
      ok := true;
    }

    /** The copy every append ends in. As with the checked copy of the C library, nothing is copied into
        a full buffer, not even nothing. */
    method Append(bytes: seq<Byte>) returns (ok: bool)
      requires Valid()
      modifies this`rangeLength, storage
      ensures Valid()
      ensures ok <==> |bytes| <= old(Room()) && old(Room()) > 0
      ensures Contents() == if ok then old(Contents()) + bytes else old(Contents())
      ensures !ok ==> storage[..] == old(storage[..])
      ensures ok ==> forall i | 0 <= i < storage.Length
                                && !(rangeOffset + old(rangeLength) <= i < rangeOffset + rangeLength) ::
                       storage[i] == old(storage[i])
    {
      if storage.Length == 0 || rangeOffset + rangeLength + |bytes| > storage.Length || Room() == 0 {
        return false;
      }
      var start := rangeOffset + rangeLength;
      forall i | 0 <= i < |bytes| {
        storage[start + i] := bytes[i];
      }
      rangeLength := rangeLength + |bytes|;
      assert storage[start..start + |bytes|] == bytes;
      assert storage[rangeOffset..start] == old(Contents());
      ok := true;
    }

    method AppendUint8(value: Byte) returns (ok: bool)
      requires Valid()
      modifies this`rangeLength, storage
      ensures Valid()
      ensures ok <==> old(Room()) >= 1
      ensures Contents() == if ok then old(Contents()) + [value] else old(Contents())
    {
      ok := Append([value]);
    }

    method AppendUint16(value: Word) returns (ok: bool)
      requires Valid()
      modifies this`rangeLength, storage
      ensures Valid()
      ensures ok <==> old(Room()) >= 2
      ensures Contents() == if ok then old(Contents()) + [value % 256, value / 256] else old(Contents())
    {
      ok := Append(LittleEndian16(value));
    }

    method AppendUint32(value: nat) returns (ok: bool)
      requires Valid() && value < 0x1_0000_0000
      modifies this`rangeLength, storage
      ensures Valid()
      ensures ok <==> old(Room()) >= 4
      ensures Contents() == if ok then old(Contents()) + LittleEndian(value, 4) else old(Contents())
    {
      ok := Append(LittleEndian(value, 4));
    }

    method AppendUint64(value: Size) returns (ok: bool)
      requires Valid()
      modifies this`rangeLength, storage
      ensures Valid()
      ensures ok <==> old(Room()) >= 8
      ensures Contents() == if ok then old(Contents()) + LittleEndian(value, 8) else old(Contents())
    {
      ok := Append(LittleEndian(value, 8));
    }

    /** A signed value is stored as its two's complement. */
    method AppendInt16(value: int) returns (ok: bool)
      requires Valid() && -0x8000 <= value < 0x8000
      modifies this`rangeLength, storage
      ensures Valid()
      ensures ok <==> old(Room()) >= 2
      ensures var word := if value < 0 then value + 65536 else value;
              Contents() == if ok then old(Contents()) + [word % 256, word / 256] else old(Contents())
    {
      ok := Append(LittleEndian16(value % 0x1_0000));
    }

    /** Appends another buffer's live range. An empty buffer without storage cannot be appended. */
    method AppendDataBuffer(data: MechDataBuffer) returns (ok: bool)
      requires Valid() && data.Valid()
      modifies this`rangeLength, storage
      ensures Valid()
      ensures ok <==> old(data.rangeLength) <= old(Room()) && old(Room()) > 0 && data.storage.Length > 0
      ensures Contents() == if ok then old(Contents()) + old(data.Contents()) else old(Contents())
    {
      if data.storage.Length == 0 {
        return false;
      }
      ok := Append(data.storage[data.rangeOffset..data.rangeOffset + data.rangeLength]);
    }

    /** The bytes a read of width `w` sees, if the read is let through: the check counts the range's
        offset against its length. Whatever is let through lies in the live range, unless the 64-bit sum in
        the check wraps. */
    method ReadBytes(offset: Size, w: nat) returns (bytes: Read<seq<Byte>>)
      requires Valid() && 0 < w <= 8
      ensures bytes.Refused? <==> (rangeOffset + offset + w) % SIZE_COUNT > rangeLength
      ensures bytes.Undefined? <==> !bytes.Refused? && rangeOffset + offset + w >= SIZE_COUNT
      ensures bytes.Value? ==> offset + w <= |Contents()| && bytes.value == Contents()[offset..offset + w]
    {
      if (rangeOffset + offset + w) % SIZE_COUNT > rangeLength {
        return Refused;
      }
      if rangeOffset + offset + w >= SIZE_COUNT {
        return Undefined;
      }
      bytes := Value(storage[rangeOffset + offset..rangeOffset + offset + w]);
      SliceOfSlice(storage[..], rangeOffset, rangeOffset + rangeLength, offset, offset + w);
    }

    method ReadUint8(offset: Size) returns (value: Read<Byte>)
      requires Valid()
      ensures value.Refused? <==> (rangeOffset + offset + 1) % SIZE_COUNT > rangeLength
      ensures value.Undefined? <==> !value.Refused? && rangeOffset + offset + 1 >= SIZE_COUNT
      ensures value.Value? ==> offset < |Contents()| && value.value == Contents()[offset]
    {
      var bytes := ReadBytes(offset, 1);
      value := if bytes.Value? then Value(bytes.value[0]) else if bytes.Refused? then Refused else Undefined;
    }

    method ReadUint16(offset: Size) returns (value: Read<Word>)
      requires Valid()
      ensures value.Refused? <==> (rangeOffset + offset + 2) % SIZE_COUNT > rangeLength
      ensures value.Undefined? <==> !value.Refused? && rangeOffset + offset + 2 >= SIZE_COUNT
      ensures value.Value? ==> Read16(Contents(), rangeOffset, offset) == Some(value.value)
    {
      var bytes := ReadBytes(offset, 2);
      value := if bytes.Value? then Value(Word16(bytes.value)) else if bytes.Refused? then Refused else Undefined;
    }

    /** Reads a 32- or 64-bit value. */
    method ReadUint(offset: Size, w: nat) returns (value: Read<nat>)
      requires Valid() && (w == 4 || w == 8)
      ensures value.Refused? <==> (rangeOffset + offset + w) % SIZE_COUNT > rangeLength
      ensures value.Undefined? <==> !value.Refused? && rangeOffset + offset + w >= SIZE_COUNT
      ensures value.Value? ==>
                offset + w <= rangeLength && value.value == FromLittleEndian(Contents()[offset..offset + w])
    {
      var bytes := ReadBytes(offset, w);
      value := if bytes.Value? then Value(FromLittleEndian(bytes.value))
               else if bytes.Refused? then Refused else Undefined;
    }
  }
}
