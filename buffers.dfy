/**
 * Buffers: a byte region with a capacity and a payload size, the children
 * that view a fragment of a parent's storage, and the transport stream
 * buffer that counts its payload in packets and keeps one timestamp per
 * packet.
 */
module BufferBase {
  import opened Wrappers

  /**
   * A region data[offset .. offset + capacity] holding `size` valid bytes.
   * A child shares its parent's array; only a buffer without a parent
   * releases its storage when destroyed.
   */
  class Buffer {
    const data: array<byte>
    const offset: nat
    const capacity: nat
    var size: nat
    const parent: Buffer?

    ghost predicate Valid()
      reads this
    {
      && offset + capacity <= data.Length
      && size <= capacity
      && (parent != null ==> parent.data == data && parent.Contains(offset, capacity))
    }

    /** The region [start, start + length) lies inside this buffer's allocated space. */
    ghost predicate Contains(start: nat, length: nat)
    {
      offset <= start && start + length <= offset + capacity
    }

    /** Whether destroying this buffer releases its storage: only a buffer without a parent does. */
    predicate ReleasesStorage()
    {
      parent == null
    }

    /** Allocates `capacity` bytes; the payload starts empty. */
    constructor Alloc(capacity: nat)
      ensures Valid() && fresh(data)
      ensures this.offset == 0 && data.Length == capacity && this.capacity == capacity
      ensures size == 0 && ReleasesStorage()
    {
      data := new byte[capacity];
      offset := 0;
      this.capacity := capacity;
      size := 0;
      parent := null;
    }

    /** A view of a fragment of the parent's space, which must belong to it. */
    constructor Child(data: array<byte>, offset: nat, capacity: nat, size: nat, parent: Buffer)
      requires parent.data == data && parent.Contains(offset, capacity) && parent.Valid()
      requires size <= capacity
      ensures Valid() && !ReleasesStorage()
      ensures this.data == data && this.offset == offset && this.capacity == capacity
      ensures this.size == size && this.parent == parent
    {
      this.data := data;
      this.offset := offset;
      this.capacity := capacity;
      this.size := size;
      this.parent := parent;
    }

    /** Creates a child viewing [start, start + capacity) of this buffer. */
    method MakeChild(start: nat, capacity: nat, size: nat) returns (child: Buffer)
      requires Valid() && Contains(start, capacity) && size <= capacity
      ensures fresh(child) && child.Valid() && !child.ReleasesStorage()
      ensures child.data == data && child.offset == start && child.capacity == capacity
      ensures child.size == size && child.parent == this
    {
      child := new Buffer.Child(data, start, capacity, size, this);
    }

    /** The valid payload bytes. */
    function Payload(): (r: seq<byte>)
      reads this, data
      requires Valid()
      ensures |r| == size
    {
      data[offset..offset + size]
    }

    method SetSize(size: nat)
      requires Valid() && size <= capacity
      modifies this
      ensures Valid() && this.size == size
    {
      this.size := size;
    }
  }
}

module MPEG2TSBuffers {
  import opened Wrappers
  import opened BufferBase

  /** The first n packets of size packetSize held in bytes, in order. */
  function Split(bytes: seq<byte>, packetSize: nat, n: nat): (r: seq<seq<byte>>)
    requires n * packetSize <= |bytes|
    ensures |r| == n
    ensures forall k :: 0 <= k < n ==> |r[k]| == packetSize
    decreases n
  {
    if n == 0 then []
    else
      MulLe(n - 1, n, packetSize);
      Split(bytes, packetSize, n - 1) + [bytes[(n - 1) * packetSize..n * packetSize]]
  }

  /** Packet i of a split is the i-th run of packetSize bytes. */
  lemma {:induction false} SplitAt(bytes: seq<byte>, packetSize: nat, n: nat, i: nat)
    requires n * packetSize <= |bytes| && i < n
    ensures (i + 1) * packetSize <= |bytes|
    ensures Split(bytes, packetSize, n)[i] == bytes[i * packetSize..(i + 1) * packetSize]
    decreases n
  {
    MulLe(i + 1, n, packetSize);
    if i < n - 1 {
      MulLe(n - 1, n, packetSize);
      SplitAt(bytes, packetSize, n - 1, i);
    }
  }

  /** A slice of a slice is a slice of the whole. */
  lemma SliceOfSlice(s: seq<byte>, off: nat, size: nat, a: nat, n: nat)
    requires off + size <= |s| && a + n <= size
    ensures s[off..off + size][a..a + n] == s[off + a..off + a + n]
  {
    var inner, whole := s[off..off + size][a..a + n], s[off + a..off + a + n];
    forall k | 0 <= k < n
      ensures inner[k] == whole[k]
    {
      assert s[off..off + size][a + k] == s[off + a + k];
    }
  }

  /**
   * A buffer of whole transport stream packets with one timestamp per
   * packet slot. A child views consecutive packets of its parent and the
   * matching window of the parent's timestamps.
   */
  class MPEG2TSBuffer {
    const buffer: Buffer
    const packetSize: nat
    var numPackets: nat
    const timestamps: array<nat>
    const tsOffset: nat
    ghost const packetsCapacity: nat

    ghost predicate Valid()
      reads this, buffer
    {
      && buffer.Valid()
      && (packetSize == 188 || packetSize == 204)
      && buffer.capacity == packetsCapacity * packetSize
      && numPackets <= packetsCapacity
      && buffer.size == numPackets * packetSize
      && tsOffset + packetsCapacity <= timestamps.Length
    }

    /** Allocates room for numPacketsCapacity packets and as many timestamps. */
    constructor (numPacketsCapacity: nat, packetSize: nat)
      requires packetSize == 188 || packetSize == 204
      ensures Valid() && fresh(buffer) && fresh(buffer.data) && fresh(timestamps)
      ensures this.packetSize == packetSize && numPackets == 0
      ensures packetsCapacity == numPacketsCapacity && buffer.ReleasesStorage()
      ensures buffer.offset == 0 && tsOffset == 0
    {
      buffer := new Buffer.Alloc(numPacketsCapacity * packetSize);
      this.packetSize := packetSize;
      numPackets := 0;
      timestamps := new nat[numPacketsCapacity];
      tsOffset := 0;
      packetsCapacity := numPacketsCapacity;
    }

    /**
     * A view of packets of the parent: `start` is the index in the parent's
     * array of the first byte, `tsStart` that of the first timestamp; both
     * must belong to the parent.
     */
    constructor Child(start: nat, tsStart: nat, numPacketsCapacity: nat, numPacketsSize: nat,
                      packetSize: nat, parent: MPEG2TSBuffer)
      requires parent.Valid() && packetSize == parent.packetSize
      requires parent.buffer.Contains(start, numPacketsCapacity * packetSize)
      requires parent.tsOffset <= tsStart && tsStart + numPacketsCapacity <= parent.tsOffset + parent.packetsCapacity
      requires numPacketsSize <= numPacketsCapacity
      ensures Valid() && fresh(buffer) && !buffer.ReleasesStorage()
      ensures buffer.data == parent.buffer.data && buffer.offset == start && buffer.parent == parent.buffer
      ensures timestamps == parent.timestamps && tsOffset == tsStart
      ensures this.packetSize == packetSize && numPackets == numPacketsSize
      ensures packetsCapacity == numPacketsCapacity
    {
      MulLe(numPacketsSize, numPacketsCapacity, packetSize);
      buffer := new Buffer.Child(parent.buffer.data, start, numPacketsCapacity * packetSize,
                                 numPacketsSize * packetSize, parent.buffer);
      this.packetSize := packetSize;
      numPackets := numPacketsSize;
      timestamps := parent.timestamps;
      tsOffset := tsStart;
      packetsCapacity := numPacketsCapacity;
    }

    /** Index in the storage array of the first byte of packet i. */
    function PacketStart(i: nat): nat
      reads this
    {
      buffer.offset + i * packetSize
    }

    lemma PacketStartNext(i: nat)
      ensures PacketStart(i + 1) == PacketStart(i) + packetSize
    {
    }

    /** The bytes of packet slot i. */
    function PacketBytes(i: nat): (r: seq<byte>)
      reads this, buffer, buffer.data
      requires Valid() && i < packetsCapacity
      ensures |r| == packetSize
    {
      MulLe(i + 1, packetsCapacity, packetSize);
      buffer.data[PacketStart(i)..PacketStart(i) + packetSize]
    }

    /** The valid packets, in order. */
    function Packets(): (r: seq<seq<byte>>)
      reads this, buffer, buffer.data
      requires Valid()
      ensures |r| == numPackets
      ensures forall k :: 0 <= k < numPackets ==> |r[k]| == packetSize
    {
      Split(buffer.Payload(), packetSize, numPackets)
    }

    /** Packet i of the valid ones is the slice of the storage array at PacketStart(i). */
    lemma PacketAt(i: nat)
      requires Valid() && i < numPackets
      ensures PacketStart(i) + packetSize <= buffer.data.Length
      ensures Packets()[i] == buffer.data[PacketStart(i)..PacketStart(i) + packetSize]
      ensures Packets()[i] == PacketBytes(i)
    {
      SplitAt(buffer.Payload(), packetSize, numPackets, i);
      MulLe(i + 1, numPackets, packetSize);
      MulLe(i + 1, packetsCapacity, packetSize);
      var a := i * packetSize;
      assert (i + 1) * packetSize == a + packetSize;
      SliceOfSlice(buffer.data[..], buffer.offset, buffer.size, a, packetSize);
      assert buffer.Payload() == buffer.data[..][buffer.offset..buffer.offset + buffer.size];
      assert buffer.data[buffer.offset + a..buffer.offset + a + packetSize]
          == buffer.data[..][buffer.offset + a..buffer.offset + a + packetSize];
    }

    /** The same, for a view whose start and size are those of packet i. */
    lemma PacketIs(i: nat, start: nat, size: nat)
      requires Valid() && i < numPackets && start == PacketStart(i) && size == packetSize
      ensures start + size <= buffer.data.Length && Packets()[i] == buffer.data[start..start + size]
    {
      PacketAt(i);
    }

    /** The timestamp, in PCR ticks, of packet slot i. */
    function Timestamp(i: nat): nat
      reads this, buffer, timestamps
      requires Valid() && i < packetsCapacity
    {
      timestamps[tsOffset + i]
    }

    /** The timestamps of the valid packets, in order. */
    function Timestamps(): (r: seq<nat>)
      reads this, buffer, timestamps
      requires Valid()
      ensures |r| == numPackets
      ensures forall k :: 0 <= k < numPackets ==> r[k] == Timestamp(k)
    {
      timestamps[tsOffset..tsOffset + numPackets]
    }

    /** The number of packet slots, derived from the byte capacity. */
    function NumPacketsCapacity(): (r: nat)
      reads this, buffer
      requires Valid()
      ensures r == packetsCapacity
    {
      buffer.capacity / packetSize
    }

    /** Creates a child viewing packets [i, i + numPacketsCapacity) of this buffer. */
    method MakeChild(i: nat, numPacketsCapacity: nat, numPacketsSize: nat) returns (child: MPEG2TSBuffer)
      requires Valid() && i + numPacketsCapacity <= packetsCapacity && numPacketsSize <= numPacketsCapacity
      ensures fresh(child) && fresh(child.buffer) && child.Valid()
      ensures child.buffer.data == buffer.data && child.buffer.offset == PacketStart(i)
      ensures child.buffer.parent == buffer && !child.buffer.ReleasesStorage()
      ensures child.timestamps == timestamps && child.tsOffset == tsOffset + i
      ensures child.packetSize == packetSize && child.numPackets == numPacketsSize
      ensures child.packetsCapacity == numPacketsCapacity
      ensures forall j :: 0 <= j < numPacketsCapacity ==>
                child.PacketBytes(j) == PacketBytes(i + j) && child.Timestamp(j) == Timestamp(i + j)
    {
      MulLe(i + numPacketsCapacity, packetsCapacity, packetSize);
      assert (i + numPacketsCapacity) * packetSize == i * packetSize + numPacketsCapacity * packetSize;
      child := new MPEG2TSBuffer.Child(PacketStart(i), tsOffset + i, numPacketsCapacity, numPacketsSize,
                                       packetSize, this);
      forall j | 0 <= j < numPacketsCapacity
        ensures child.PacketStart(j) == PacketStart(i + j)
      {
        assert (i + j) * packetSize == i * packetSize + j * packetSize;
      }
    }

    method SetNumPackets(n: nat)
      requires Valid() && n <= packetsCapacity
      modifies this, buffer
      ensures Valid() && numPackets == n && buffer.size == n * packetSize
    {
      MulLe(n, packetsCapacity, packetSize);
      numPackets := n;
      buffer.SetSize(n * packetSize);
    }
  }
}
