/**
 * The transport stream file parser: finds the first run of three packets
 * with a valid sync byte, cuts the file into buffers of whole packets and
 * measures the bitrate from the PCRs. The file is its content, a byte
 * sequence; the read cursor stands for the C FILE position.
 */
module MPEG2TSFileParser {
  import opened Wrappers
  import opened MPEG2TS
  import opened BufferBase
  import opened MPEG2TSBuffers
  import opened MPEG2TSFilters

  /** Bytes asked of each buffered read, rounded down to whole packets. */
  const APROX_READ_SIZE: nat := 128 * 1024

  /** Size of the sync search buffer: the least common multiple of 188 and 204. */
  const PARSE_BUFFER_SIZE: nat := 9588

  /** Three 204-byte packets: the overlap kept between two search chunks. */
  const SYNC_WINDOW: nat := 204 * 3

  /** PCR ticks (three seconds) after which the bitrate measurement stops reading. */
  const BITRATE_COMPUTE_PCR_DISTANCE: nat := 27000000 * 3

  /** Sync bytes at p, p + stride and p + 2 * stride. */
  predicate ThreeSyncBytes(file: seq<byte>, p: nat, stride: nat)
    requires p + 2 * stride < |file|
  {
    file[p] == SYNC_BYTE && file[p + stride] == SYNC_BYTE && file[p + 2 * stride] == SYNC_BYTE
  }

  /** The packet size a sync at p stands for: 188 is tried first, then 204; 0 when neither matches. */
  function SyncSizeAt(file: seq<byte>, p: nat): nat
    requires p + 2 * 204 < |file|
  {
    if ThreeSyncBytes(file, p, 188) then 188
    else if ThreeSyncBytes(file, p, 204) then 204
    else 0
  }

  /**
   * A position the search examines: one whose whole 612-byte window lies
   * before the end of the file, or, in a file shorter than 612 bytes, one
   * whose tested bytes all lie inside it.
   */
  predicate Examined(file: seq<byte>, p: nat)
  {
    p < SearchBound(|file|)
  }

  /** No examined position before n starts a sync. */
  ghost predicate NoSyncBefore(file: seq<byte>, n: nat)
  {
    forall p: nat :: p < n && Examined(file, p) ==> SyncSizeAt(file, p) == 0
  }

  /** p is the first examined position that starts a sync. */
  ghost predicate IsFirstSync(file: seq<byte>, p: nat)
  {
    Examined(file, p) && SyncSizeAt(file, p) != 0 && NoSyncBefore(file, p)
  }

  /** There is at most one first sync. */
  lemma FirstSyncUnique(file: seq<byte>, p: nat, q: nat)
    requires IsFirstSync(file, p) && IsFirstSync(file, q)
    ensures p == q
  {
  }

  /**
   * The bound of the search loop in a chunk of readSize bytes, as written:
   * the difference is taken in size_t, so it wraps when readSize < 612.
   */
  function SearchBoundAsWritten(readSize: nat): (r: int)
    requires readSize < U64
    ensures 0 <= r < U64
    ensures readSize >= SYNC_WINDOW ==> r == readSize - SYNC_WINDOW
  {
    (readSize - SYNC_WINDOW) % U64
  }

  /**
   * In a file of 564 zero bytes the written bound lets the search run
   * past the data and past the 9588-byte search buffer; the corrected
   * bound stops at the last position whose tested bytes lie in the data.
   */
  lemma SearchBoundWrapsOnShortRead()
    ensures SearchBoundAsWritten(564) > PARSE_BUFFER_SIZE
    ensures SearchBound(564) == 156 && 156 + 2 * 204 == 564
    ensures NoSyncBefore(seq(564, _ => 0), 564)
  {
  }

  /**
   * The bound of the search loop. In a read of more than 612 bytes, the
   * positions with a whole 612-byte window inside it, as written; in a
   * read shorter than 612 bytes, where the written bound wraps, the
   * positions whose bytes tested for 204-byte packets lie inside it.
   */
  function SearchBound(readSize: nat): (r: nat)
    ensures r <= readSize
    ensures readSize >= SYNC_WINDOW ==> r + SYNC_WINDOW == readSize
    ensures readSize < SYNC_WINDOW ==> r + 2 * 204 == readSize || (r == 0 && readSize <= 2 * 204)
  {
    if readSize > SYNC_WINDOW then readSize - SYNC_WINDOW
    else if readSize < SYNC_WINDOW && readSize > 2 * 204 then readSize - 2 * 204
    else 0
  }

  /** Three null packets of 188 bytes, 564 bytes in all, sync at their first byte. */
  lemma ShortFileSyncsAtStart()
    ensures IsFirstSync(TS_NULL_188 + TS_NULL_188 + TS_NULL_188, 0)
    ensures SyncSizeAt(TS_NULL_188 + TS_NULL_188 + TS_NULL_188, 0) == 188
  {
    NullPacketBytes();
    var f := TS_NULL_188 + TS_NULL_188 + TS_NULL_188;
    assert f[188] == TS_NULL_188[0] && f[376] == TS_NULL_188[0];
  }

  /** Whole packets cut from each buffered read: 697 of 188 bytes or 642 of 204 bytes. */
  lemma PerBufferPackets()
    ensures APROX_READ_SIZE / 188 == 697 && APROX_READ_SIZE / 204 == 642
    ensures 697 * 188 <= APROX_READ_SIZE && 642 * 204 <= APROX_READ_SIZE
  {
  }

  /** 700 zero bytes hold no sync, so the search leaves the packet size at 0. */
  lemma NoSyncInZeroFile()
    ensures NoSyncBefore(seq(700, _ => 0), 700)
  {
  }

  /** The PID whose PCRs gave the bitrate, their span in ticks and the bytes between them. */
  datatype Measurement = Measurement(pid: int, ticks: nat, bytes: nat)

  /** Bits per second of bytesDistance bytes sent in pcrDistance ticks of the 27 MHz clock, rounded down. */
  function Bitrate(bytesDistance: nat, pcrDistance: nat): (r: nat)
    requires pcrDistance > 0
    ensures r * pcrDistance <= bytesDistance * 8 * PCR_CLOCK_FREQUENCY < (r + 1) * pcrDistance
  {
    bytesDistance * 8 * PCR_CLOCK_FREQUENCY / pcrDistance
  }

  /** At least one, else the whole buffers of bufferBytes bytes a second at that bitrate. */
  function BuffersPerSecond(bitrate: nat, bufferBytes: nat): (r: nat)
    requires bufferBytes > 0
    ensures r >= 1
    ensures r > 1 ==> r * (bufferBytes * 8) <= bitrate < (r + 1) * (bufferBytes * 8)
    ensures r == 1 ==> bitrate < 2 * (bufferBytes * 8)
  {
    Max(1, bitrate / (bufferBytes * 8))
  }

  /** The tick, from the start of the file, at which packet `index` is due at that bitrate, rounded down. */
  function PacketTimestamp(index: nat, packetSize: nat, bitrate: nat): (r: nat)
    requires bitrate > 0
    ensures r * bitrate <= index * packetSize * 8 * PCR_CLOCK_FREQUENCY < (r + 1) * bitrate
  {
    index * packetSize * 8 * PCR_CLOCK_FREQUENCY / bitrate
  }

  /**
   * The buffer holds the whole packets of the file from byte start on,
   * and, once the bitrate is known, the timestamps of the file's packets
   * from index base on.
   */
  ghost predicate HoldsPackets(b: MPEG2TSBuffer, file: seq<byte>, start: nat, base: nat, packetSize: nat, bitrate: nat)
    reads b, b.buffer, b.buffer.data, b.timestamps
  {
    && b.Valid() && b.packetSize == packetSize
    && start + b.numPackets * packetSize <= |file|
    && b.Packets() == Split(file[start..start + b.numPackets * packetSize], packetSize, b.numPackets)
    && (bitrate > 0 ==> forall k :: 0 <= k < b.numPackets ==>
          b.Timestamp(k) == PacketTimestamp(base + k, packetSize, bitrate))
  }

  /** A buffer holds the packets read from start once its payload is those bytes and its slots are stamped. */
  lemma HoldsPacketsOf(b: MPEG2TSBuffer, file: seq<byte>, start: nat, base: nat, packetSize: nat, bitrate: nat)
    requires b.Valid() && b.packetSize == packetSize && b.tsOffset == 0 && b.buffer.offset == 0
    requires start + b.numPackets * packetSize <= |file|
    requires b.buffer.data[0..b.numPackets * packetSize] == file[start..start + b.numPackets * packetSize]
    requires bitrate > 0 ==> forall k :: 0 <= k < b.numPackets ==>
               b.timestamps[k] == PacketTimestamp(base + k, packetSize, bitrate)
    ensures HoldsPackets(b, file, start, base, packetSize, bitrate)
  {
    assert b.buffer.Payload() == file[start..start + b.numPackets * packetSize];
  }

  class MPEG2TSFileParser {
    const file: seq<byte>
    var filePos: nat
    var packetSize: nat
    var initialSyncPos: nat
    var perBufferPackets: nat
    var packetsRead: nat
    var bitrate: nat
    var estimatedBuffersPerSecond: nat

    /** The state after a successful sync: a packet size and whole-packet reads. */
    ghost predicate Valid()
      reads this
    {
      && ((packetSize == 188 && perBufferPackets == 697) || (packetSize == 204 && perBufferPackets == 642))
      && filePos <= |file| && initialSyncPos < |file|
    }

    /** The file just opened: the cursor at its first byte. */
    constructor (file: seq<byte>)
      ensures this.file == file && filePos == 0 && packetSize == 0
    {
      this.file := file;
      filePos := 0;
      packetSize := 0;
      initialSyncPos := 0;
      perBufferPackets := 0;
      packetsRead := 0;
      bitrate := 0;
      estimatedBuffersPerSecond := 0;
    }

    /**
     * The search loop of sync(): reads the file in 9588-byte chunks from
     * its start, stepping back 612 bytes between chunks, until a sync is
     * found or a read comes up short. The packet size stays 0 when the
     * file holds no sync at any examined position.
     */
    method SearchSync()
      requires filePos == 0
      modifies this
      ensures packetSize == 0 || packetSize == 188 || packetSize == 204
      ensures packetSize == 0 <==> NoSyncBefore(file, |file|)
      ensures packetSize != 0 ==> IsFirstSync(file, initialSyncPos) && packetSize == SyncSizeAt(file, initialSyncPos)
      ensures filePos <= |file|
      ensures perBufferPackets == old(perBufferPackets) && packetsRead == old(packetsRead)
      ensures bitrate == old(bitrate) && estimatedBuffersPerSecond == old(estimatedBuffersPerSecond)
    {
      packetSize := 0;
      initialSyncPos := 0;
      var done := false;
      while !done
        invariant filePos <= |file|
        invariant packetSize == 0 || packetSize == 188 || packetSize == 204
        invariant !done ==> packetSize == 0 && filePos == initialSyncPos && NoSyncBefore(file, initialSyncPos)
        invariant !done ==> filePos == 0 || filePos + SYNC_WINDOW <= |file|
        invariant done && packetSize == 0 ==> NoSyncBefore(file, |file|)
        invariant done && packetSize != 0 ==> IsFirstSync(file, initialSyncPos) && packetSize == SyncSizeAt(file, initialSyncPos)
        invariant perBufferPackets == old(perBufferPackets) && packetsRead == old(packetsRead)
        invariant bitrate == old(bitrate) && estimatedBuffersPerSecond == old(estimatedBuffersPerSecond)
        decreases if done then 0 else 1, |file| - filePos
      {
        var chunkStart := filePos;
        var readSize := Min(PARSE_BUFFER_SIZE, |file| - filePos);
        var chunk := file[filePos..filePos + readSize];
        filePos := filePos + readSize;
        var pos, size := SearchChunk(file, chunk, chunkStart);
        packetSize := size;
        NoSyncExtend(file, chunkStart, pos);
        if size != 0 {
          ChunkBoundExamined(file, chunkStart, readSize, pos);
        } else if readSize < PARSE_BUFFER_SIZE {
          ChunkBoundExamined(file, chunkStart, readSize, pos);
          NoSyncToEnd(file, chunkStart + pos);
        }
        if packetSize == 0 && readSize > SYNC_WINDOW {
          filePos := filePos - SYNC_WINDOW;
          initialSyncPos := initialSyncPos + readSize - SYNC_WINDOW;
        } else {
          initialSyncPos := initialSyncPos + pos;
        }
        done := !(packetSize == 0 && readSize == PARSE_BUFFER_SIZE);
      }
    }

    /**
     * sync(): the search, then the packets per buffer and the cursor moved
     * to the first synchronised packet. A file without sync is reported as
     * a failure instead of dividing by the packet size 0.
     */
    method Sync() returns (r: Result<nat>)
      requires filePos == 0
      modifies this
      ensures r.Failure? <==> NoSyncBefore(file, |file|)
      ensures r.Failure? ==> packetSize == 0
      ensures r.Ok? ==> Valid() && r.value == packetSize && IsFirstSync(file, initialSyncPos)
                        && packetSize == SyncSizeAt(file, initialSyncPos)
                        && filePos == initialSyncPos && packetsRead == 0
    {
      SearchSync();
      if packetSize == 0 {
        return Failure("no sync found");
      }
      PerBufferPackets();
      perBufferPackets := APROX_READ_SIZE / packetSize;
      packetsRead := 0;
      filePos := initialSyncPos;
      r := Ok(packetSize);
    }

    /**
     * Reads the next buffer: as many bytes as the buffer holds (fewer at
     * the end of the file), cut into whole packets; none when not even one
     * whole packet was read. A trailing part of a packet is consumed and
     * dropped.
     */
    method Read() returns (buffer: MPEG2TSBuffer?)
      requires Valid()
      modifies this`filePos, this`packetsRead
      ensures filePos == old(filePos) + Min(perBufferPackets * packetSize, |file| - old(filePos))
      ensures (filePos - old(filePos)) / packetSize == 0 <==> buffer == null
      ensures buffer == null ==> packetsRead == old(packetsRead)
      ensures buffer != null ==>
                && fresh(buffer) && buffer.Valid()
                && buffer.numPackets == (filePos - old(filePos)) / packetSize
                && packetsRead == old(packetsRead) + buffer.numPackets
                && HoldsPackets(buffer, file, old(filePos), old(packetsRead), packetSize, bitrate)
    {
      var b := new MPEG2TSBuffer(perBufferPackets, packetSize);
      buffer := Fill(b);
    }

    /** Reads into the buffer b, fresh from getBuffer(); answers b, or null when no whole packet was read. */
    method Fill(b: MPEG2TSBuffer) returns (buffer: MPEG2TSBuffer?)
      requires Valid() && b.Valid() && b.packetSize == packetSize && b.packetsCapacity == perBufferPackets
      requires b.numPackets == 0 && b.tsOffset == 0 && b.buffer.offset == 0
      modifies this`filePos, this`packetsRead, b, b.buffer, b.buffer.data, b.timestamps
      ensures buffer == null || buffer == b
      ensures filePos == old(filePos) + Min(perBufferPackets * packetSize, |file| - old(filePos))
      ensures (filePos - old(filePos)) / packetSize == 0 <==> buffer == null
      ensures buffer == null ==> packetsRead == old(packetsRead)
      ensures buffer != null ==>
                && buffer.Valid()
                && buffer.numPackets == (filePos - old(filePos)) / packetSize
                && packetsRead == old(packetsRead) + buffer.numPackets
                && HoldsPackets(buffer, file, old(filePos), old(packetsRead), packetSize, bitrate)
    {
      ghost var start := filePos;
      var bytes := ReadBytes(b.buffer.data, b.buffer.capacity);
      var numPackets := bytes / packetSize;
      if numPackets > 0 {
        WholePackets(bytes, packetSize, perBufferPackets);
        PrefixOfRead(b.buffer.data[..], file, start, bytes, numPackets * packetSize);
        Deliver(b, numPackets, start);
        buffer := b;
      } else {
        buffer := null;
      }
    }

    /** fread: copies up to `capacity` bytes from the cursor into data and moves the cursor past them. */
    method ReadBytes(data: array<byte>, capacity: nat) returns (bytes: nat)
      requires capacity <= data.Length && filePos <= |file|
      modifies this`filePos, data
      ensures bytes == Min(capacity, |file| - old(filePos)) && filePos == old(filePos) + bytes
      ensures data[..bytes] == file[old(filePos)..filePos]
    {
      bytes := Min(capacity, |file| - filePos);
      forall i | 0 <= i < bytes {
        data[i] := file[filePos + i];
      }
      filePos := filePos + bytes;
    }

    /** Marks the whole packets read as valid, stamps them and counts them. */
    method Deliver(b: MPEG2TSBuffer, numPackets: nat, ghost start: nat)
      requires Valid() && b.Valid() && b.packetSize == packetSize && b.tsOffset == 0 && b.buffer.offset == 0
      requires numPackets <= b.packetsCapacity && start + numPackets * packetSize <= |file|
      requires b.buffer.data[0..numPackets * packetSize] == file[start..start + numPackets * packetSize]
      modifies this`packetsRead, b, b.buffer, b.timestamps
      ensures b.Valid() && b.numPackets == numPackets && packetsRead == old(packetsRead) + numPackets
      ensures HoldsPackets(b, file, start, old(packetsRead), packetSize, bitrate)
    {
      b.SetNumPackets(numPackets);
      if bitrate > 0 {
        SetTimestampsFromBitrate(b.timestamps, packetsRead, bitrate, numPackets);
      }
      HoldsPacketsOf(b, file, start, packetsRead, packetSize, bitrate);
      packetsRead := packetsRead + numPackets;
    }

    /** Gives packet k of a read the timestamp of packet basePacketIndex + k of the file. */
    method SetTimestampsFromBitrate(timestamps: array<nat>, basePacketIndex: nat, bitrate: nat, numPackets: nat)
      requires (packetSize == 188 || packetSize == 204) && bitrate > 0 && numPackets <= timestamps.Length
      modifies timestamps
      ensures forall k :: 0 <= k < numPackets ==>
                timestamps[k] == PacketTimestamp(basePacketIndex + k, packetSize, bitrate)
      ensures timestamps[numPackets..] == old(timestamps[numPackets..])
    {
      var k := 0;
      while k < numPackets
        invariant k <= numPackets
        invariant forall j :: 0 <= j < k ==> timestamps[j] == PacketTimestamp(basePacketIndex + j, packetSize, bitrate)
        invariant timestamps[numPackets..] == old(timestamps[numPackets..])
      {
        timestamps[k] := PacketTimestamp(basePacketIndex + k, packetSize, bitrate);
        k := k + 1;
      }
    }

    /**
     * The measuring loop of computeBitrate(): pushes buffers to a PCR
     * filter, each with the read cursor after it as position, until a
     * PID's PCRs span three seconds or the file ends. Returns the PID with
     * the greatest span, the span in ticks (0 when no PID has three PCRs
     * spanning a positive time) and the bytes between its PCRs.
     */
    method MeasurePcrDistance() returns (pid: int, pcrDistance: nat, bytesDistance: nat)
      requires Valid()
      modifies this
      ensures Valid() && packetSize == old(packetSize) && initialSyncPos == old(initialSyncPos)
      ensures bitrate == old(bitrate) && estimatedBuffersPerSecond == old(estimatedBuffersPerSecond)
      ensures perBufferPackets == old(perBufferPackets)
      ensures old(packetsRead) <= packetsRead
      ensures pcrDistance > 0 ==> packetsRead > old(packetsRead)
    {
      var filter := new PCRFilter();
      pid, pcrDistance, bytesDistance := 0, 0, 0;
      var buffer := Read();
      while buffer != null && pcrDistance < BITRATE_COMPUTE_PCR_DISTANCE
        invariant Valid() && packetSize == old(packetSize) && initialSyncPos == old(initialSyncPos)
        invariant bitrate == old(bitrate) && estimatedBuffersPerSecond == old(estimatedBuffersPerSecond)
        invariant perBufferPackets == old(perBufferPackets)
        invariant old(packetsRead) <= packetsRead
        invariant buffer != null ==> packetsRead > old(packetsRead)
        invariant pcrDistance > 0 ==> packetsRead > old(packetsRead)
        invariant fresh(filter) && filter.Valid()
        invariant buffer != null ==> buffer.Valid()
        decreases if buffer == null then 0 else 1 + |file| - filePos
      {
        filter.Push(buffer, filePos);
        var ticks: int, bytes: int;
        pid, ticks, bytes := filter.GetPIDWithGreaterPCRDistance(pid, bytesDistance);
        pcrDistance, bytesDistance := ticks, bytes;
        buffer := Read();
      }
    }

    /**
     * computeBitrate(): measures the PCR span, then derives the bitrate
     * from it and the bytes between its PCRs and rewinds to the first
     * sync. Fails when no PID's PCRs span a positive time.
     */
    method ComputeBitrate() returns (r: Result<Measurement>)
      requires Valid()
      modifies this
      ensures Valid() && packetSize == old(packetSize) && initialSyncPos == old(initialSyncPos)
      ensures r.Failure? ==> bitrate == old(bitrate) && estimatedBuffersPerSecond == old(estimatedBuffersPerSecond)
      ensures old(packetsRead) <= packetsRead
      ensures r.Ok? ==> && r.value.ticks > 0 && packetsRead > old(packetsRead)
                        && bitrate == Bitrate(r.value.bytes, r.value.ticks)
                        && estimatedBuffersPerSecond == BuffersPerSecond(bitrate, perBufferPackets * packetSize)
                        && filePos == initialSyncPos
    {
      var pid, pcrDistance, bytesDistance := MeasurePcrDistance();
      if pcrDistance == 0 {
        return Failure("Unable to compute file bitrate, not enough PCRs found");
      }
      bitrate := Bitrate(bytesDistance, pcrDistance);
      assert perBufferPackets * packetSize > 0;
      estimatedBuffersPerSecond := BuffersPerSecond(bitrate, perBufferPackets * packetSize);
      filePos := initialSyncPos;
      r := Ok(Measurement(pid, pcrDistance, bytesDistance));
    }

    function EstimatedBuffersPerSecond(): (r: nat)
      reads this
      ensures r == estimatedBuffersPerSecond
    {
      estimatedBuffersPerSecond
    }
  }

  /**
   * The inner loop of sync()'s search over one chunk read from chunkStart:
   * the first position below the chunk's bound that starts a sync, with
   * its packet size, or the bound and size 0 when there is none.
   */
  method SearchChunk(ghost file: seq<byte>, chunk: seq<byte>, ghost chunkStart: nat) returns (pos: nat, size: nat)
    requires chunkStart + |chunk| <= |file| && chunk == file[chunkStart..chunkStart + |chunk|]
    ensures pos <= SearchBound(|chunk|)
    ensures size == 0 || size == 188 || size == 204
    ensures forall p: nat :: chunkStart <= p < chunkStart + pos ==> SyncSizeAt(file, p) == 0
    ensures size == 0 ==> pos == SearchBound(|chunk|)
    ensures size != 0 ==> pos < SearchBound(|chunk|) && size == SyncSizeAt(file, chunkStart + pos)
  {
    var bound := SearchBound(|chunk|);
    pos, size := 0, 0;
    while pos < bound && size == 0
      invariant pos <= bound
      invariant size == 0 || size == 188 || size == 204
      invariant forall p: nat :: chunkStart <= p < chunkStart + pos ==> SyncSizeAt(file, p) == 0
      invariant size != 0 ==> pos < bound && size == SyncSizeAt(file, chunkStart + pos)
      decreases bound - pos, if size == 0 then 1 else 0
    {
      ChunkSyncSize(file, chunk, chunkStart, pos);
      if chunk[pos] == SYNC_BYTE && chunk[pos + 188] == SYNC_BYTE && chunk[pos + 188 * 2] == SYNC_BYTE {
        size := 188;
      } else if chunk[pos] == SYNC_BYTE && chunk[pos + 204] == SYNC_BYTE && chunk[pos + 204 * 2] == SYNC_BYTE {
        size := 204;
      } else {
        pos := pos + 1;
      }
    }
  }

  /** The positions of a searched chunk add to those known to hold no sync. */
  lemma NoSyncExtend(file: seq<byte>, start: nat, pos: nat)
    requires NoSyncBefore(file, start)
    requires forall p: nat :: start <= p < start + pos && Examined(file, p) ==> SyncSizeAt(file, p) == 0
    ensures NoSyncBefore(file, start + pos)
  {
  }

  /** Once every position up to the last examined one is searched, the file holds no sync. */
  lemma NoSyncToEnd(file: seq<byte>, n: nat)
    requires NoSyncBefore(file, n) && SearchBound(|file|) <= n
    ensures NoSyncBefore(file, |file|)
  {
  }

  /**
   * The positions a chunk's search examines are examined positions of the
   * file; the last, short chunk's search reaches the file's last one.
   */
  lemma ChunkBoundExamined(file: seq<byte>, chunkStart: nat, readSize: nat, pos: nat)
    requires chunkStart == 0 || chunkStart + SYNC_WINDOW <= |file|
    requires chunkStart <= |file| && readSize == Min(PARSE_BUFFER_SIZE, |file| - chunkStart)
    requires pos <= SearchBound(readSize)
    ensures pos < SearchBound(readSize) ==> Examined(file, chunkStart + pos)
    ensures readSize < PARSE_BUFFER_SIZE && pos == SearchBound(readSize) ==> SearchBound(|file|) <= chunkStart + pos
  {
  }

  /** The sync test on a chunk read from chunkStart is the sync test on the file. */
  lemma ChunkSyncSize(file: seq<byte>, chunk: seq<byte>, chunkStart: nat, pos: nat)
    requires chunkStart + |chunk| <= |file| && chunk == file[chunkStart..chunkStart + |chunk|]
    requires pos + 2 * 204 < |chunk|
    ensures SyncSizeAt(file, chunkStart + pos) ==
              if chunk[pos] == SYNC_BYTE && chunk[pos + 188] == SYNC_BYTE && chunk[pos + 188 * 2] == SYNC_BYTE then 188
              else if chunk[pos] == SYNC_BYTE && chunk[pos + 204] == SYNC_BYTE && chunk[pos + 204 * 2] == SYNC_BYTE then 204
              else 0
  {
    assert chunk[pos] == file[chunkStart + pos];
    assert chunk[pos + 188] == file[chunkStart + pos + 188];
    assert chunk[pos + 188 * 2] == file[chunkStart + pos + 2 * 188];
    assert chunk[pos + 204] == file[chunkStart + pos + 204];
    assert chunk[pos + 204 * 2] == file[chunkStart + pos + 2 * 204];
  }

  /**
   * The constructor: the file's bytes stand for the opened file; finds the
   * sync, then measures the bitrate. A failure is the exception it throws.
   */
  method Open(file: seq<byte>) returns (r: Result<MPEG2TSFileParser>)
    ensures NoSyncBefore(file, |file|) ==> r.Failure?
    ensures r.Ok? ==> && fresh(r.value) && r.value.Valid() && r.value.file == file
                      && IsFirstSync(file, r.value.initialSyncPos)
                      && r.value.packetSize == SyncSizeAt(file, r.value.initialSyncPos)
                      && r.value.filePos == r.value.initialSyncPos
                      && r.value.estimatedBuffersPerSecond >= 1
                      && 0 < r.value.packetsRead
  {
    var parser := new MPEG2TSFileParser(file);
    var synced := parser.Sync();
    if synced.Failure? {
      return Failure(synced.message);
    }
    var measured := parser.ComputeBitrate();
    if measured.Failure? {
      return Failure(measured.message);
    }
    r := Ok(parser);
  }

  /** Bytes sent at a constant bitrate over a span of ticks give that bitrate back. */
  lemma BitrateOfConstantRate(rate: nat, ticks: nat, bytes: nat)
    requires ticks > 0 && bytes * 8 * PCR_CLOCK_FREQUENCY == rate * ticks
    ensures Bitrate(bytes, ticks) == rate
  {
    DivModUnique(bytes * 8 * PCR_CLOCK_FREQUENCY, ticks, rate, 0);
  }

  /** Timestamps never decrease along the file. */
  lemma PacketTimestampMonotone(i: nat, j: nat, packetSize: nat, bitrate: nat)
    requires i <= j && bitrate > 0
    ensures PacketTimestamp(i, packetSize, bitrate) <= PacketTimestamp(j, packetSize, bitrate)
  {
    MulLe(i, j, packetSize);
    MulLe(i * packetSize, j * packetSize, 8 * PCR_CLOCK_FREQUENCY);
    assert i * packetSize * 8 * PCR_CLOCK_FREQUENCY <= j * packetSize * 8 * PCR_CLOCK_FREQUENCY;
    DivLe(i * packetSize * 8 * PCR_CLOCK_FREQUENCY, j * packetSize * 8 * PCR_CLOCK_FREQUENCY, bitrate);
  }

  /** Packets stamped at a bitrate are due no later than that bitrate allows: measured back, the rate is at least as high. */
  lemma TimestampsKeepBitrate(index: nat, packetSize: nat, bitrate: nat)
    requires bitrate > 0 && PacketTimestamp(index, packetSize, bitrate) > 0
    ensures Bitrate(index * packetSize, PacketTimestamp(index, packetSize, bitrate)) >= bitrate
  {
    var t := PacketTimestamp(index, packetSize, bitrate);
    var b := index * packetSize * 8 * PCR_CLOCK_FREQUENCY;
    assert index * packetSize * 8 * PCR_CLOCK_FREQUENCY == b;
    QuotientAtLeast(b, t, bitrate);
  }

  /** A prefix of bytes copied from the file at start is the file's bytes at start. */
  lemma PrefixOfRead(data: seq<byte>, file: seq<byte>, start: nat, bytes: nat, m: nat)
    requires bytes <= |data| && start + bytes <= |file| && data[..bytes] == file[start..start + bytes]
    requires m <= bytes
    ensures data[0..m] == file[start..start + m]
  {
    assert data[0..m] == data[..bytes][..m];
  }

  lemma WholePackets(bytes: nat, packetSize: nat, capacity: nat)
    requires packetSize > 0 && bytes <= capacity * packetSize
    ensures bytes / packetSize <= capacity
    ensures (bytes / packetSize) * packetSize <= bytes
  {
  }
}
