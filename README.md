# ipcaster in Dafny

ipcaster reads MPEG-2 transport stream files and sends them over UDP at
their own bitrate, encapsulated as SMPTE 2022-2 datagrams of seven
transport-stream packets each. It runs in two ways. `play` casts the files
named on the command line. `service` starts a REST API through which
streams are created, listed and deleted.

This project models the core of the caster and proves properties of the
model:

- the transport-stream packet accessors and setters (`MPEG2TS`);
- the byte buffers and their packet-aligned views (`BufferBase`, `MPEG2TSBuffers`);
- the PCR filter that measures a file's bitrate (`MPEG2TSFilters`);
- the file parser that finds packet sync, measures the bitrate and stamps every packet with its send time (`MPEG2TSFileParser`);
- the SMPTE 2022-2 encapsulator that groups packets into datagrams (`SMPTE2022Encapsulation`);
- the bounded single-producer single-consumer FIFO (`FIFOs`);
- the datagram muxer that releases each stream's datagrams when their time has come and keeps burst statistics (`DatagramsMuxing`);
- the observer registry (`Observers`);
- the logger's verbosity levels (`Logging`);
- streams and their ids (`CasterStreams`);
- the two stream registries: the cpprest one (`Caster`) and the older jsoncpp one (`CasterLegacy`);
- the REST service and controller (`Api`);
- the command-line front end (`Console`).

The JSON values both libraries handle are modelled once, with each
library's conversions (`JsonValues`). The C library's `atoi` and the
standard library's `stoi` are modelled over leading decimal integers
(`Numerals`).

Imperative code is modelled as classes whose methods update fields. The
packet arrays stay `array`s. The FIFO, registries and filter tables are
`seq` and `map` fields. Each method is proved against a function of its
inputs or old state. Arithmetic that is pure becomes functions and lemmas.

Time, files, sockets and the source's own work are parameters. A file is
its contents as a byte sequence. A wall-clock instant is an `int` of
nanoseconds. A source that cannot be opened is given as an error message.
The stream counts the main loop sees at its wake-ups are given as a
sequence.

## Model

| member | source | states |
|---|---|---|
| MPEG2TS.NullPacketBytes | src/ipcaster/mpeg2-ts/MPEG2TS.hpp:27-47 | The null packet is 188 bytes: 0x47 0x1F 0xFF 0x10, then 0xFF padding. |
| MPEG2TS.NullPacketHeader | src/ipcaster/mpeg2-ts/MPEG2TS.hpp:27-47 | Read through the accessors, the null packet has PID 0x1FFF, payload only (AFC 1), continuity counter 0 and the sync byte. |
| MPEG2TS.Word16 | src/ipcaster/mpeg2-ts/MPEG2TS.hpp:184-191 | A big-endian 16-bit word: its high byte is p[i], its low byte is p[i+1]. |
| MPEG2TS.Word32 | src/ipcaster/mpeg2-ts/MPEG2TS.hpp:173-181 | A big-endian 32-bit word made of the two 16-bit words at i and i+2. |
| MPEG2TS.Cc | src/ipcaster/mpeg2-ts/MPEG2TS.hpp:121 | The continuity counter is the low nibble of byte 3, a 4-bit value. |
| MPEG2TS.Pid | src/ipcaster/mpeg2-ts/MPEG2TS.hpp:130 | The PID is 13 bits: the low 5 bits of byte 1, then byte 2. |
| MPEG2TS.Afc | src/ipcaster/mpeg2-ts/MPEG2TS.hpp:139 | The adaptation field control is bits 4-5 of byte 3: byte 3 is the 2 scrambling bits, then the AFC, then the continuity counter. |
| MPEG2TS.HasPayloadIsPayloadBit | src/ipcaster/mpeg2-ts/MPEG2TS.hpp:148 | A packet has a payload exactly when bit 4 of byte 3 is set. |
| MPEG2TS.HasAFIsFieldControl | src/ipcaster/mpeg2-ts/MPEG2TS.hpp:151 | A packet has an adaptation field exactly when its AFC is 2 or 3. |
| MPEG2TS.AfSize | src/ipcaster/mpeg2-ts/MPEG2TS.hpp:154 | The adaptation field size is byte 4 when there is an adaptation field, and 0 otherwise. |
| MPEG2TS.HasPCRIsFlag | src/ipcaster/mpeg2-ts/MPEG2TS.hpp:157 | A packet carries a PCR exactly when it has a non-empty adaptation field whose PCR flag (bit 4 of byte 5) is set. |
| MPEG2TS.PcrBase | src/ipcaster/mpeg2-ts/MPEG2TS.hpp:160-168 | The 33-bit PCR base: the 32-bit word at byte 6, then the top bit of byte 10. |
| MPEG2TS.PcrExt | src/ipcaster/mpeg2-ts/MPEG2TS.hpp:160-168 | The 9-bit PCR extension: the low bit of byte 10, then byte 11. |
| MPEG2TS.Pcr | src/ipcaster/mpeg2-ts/MPEG2TS.hpp:160-168 | The PCR fits in 64 bits; PcrFields relates it to its base and extension. |
| MPEG2TS.PcrFields | src/ipcaster/mpeg2-ts/MPEG2TS.hpp:160-168 | The PCR is base * 300 + extension. With a valid extension (below 300) the PCR is at most PCRMAXVALUE, and base and extension are its quotient and remainder by 300. |
| MPEG2TS.PcrSub | src/ipcaster/mpeg2-ts/MPEG2TS.hpp:73 | The distance from one PCR to a later one, modulo the PCR wrap-around. |
| MPEG2TS.PcrSubAfterAdd | src/ipcaster/mpeg2-ts/MPEG2TS.hpp:73 | Advancing a PCR by d on the wrapping 27 MHz clock and subtracting gives d back, across the wrap too. |
| MPEG2TS.BitAnd | src/ipcaster/mpeg2-ts/MPEG2TS.hpp:145 | Bitwise AND is no larger than either operand. |
| MPEG2TS.BitAndBits | src/ipcaster/mpeg2-ts/MPEG2TS.hpp:145 | Bit k of a & b is set exactly when bit k is set in both a and b, for every k. |
| MPEG2TS.WithCc | src/ipcaster/mpeg2-ts/MPEG2TS.hpp:127 | Setting the continuity counter replaces the low nibble of byte 3 and keeps the high nibble. |
| MPEG2TS.WithPidHigh | src/ipcaster/mpeg2-ts/MPEG2TS.hpp:136 | Setting the PID replaces the low 5 bits of byte 1 with the PID's top bits and keeps the top 3 flag bits. |
| MPEG2TS.WithAfcAsWritten | src/ipcaster/mpeg2-ts/MPEG2TS.hpp:145 | The as-written AFC setter never yields more than the old byte 3. |
| MPEG2TS.WithAfcAsWrittenClearsOnly | src/ipcaster/mpeg2-ts/MPEG2TS.hpp:145 | The as-written AFC setter only clears bits: every bit it leaves set was set both in the old byte 3 and in afc << 4. |
| MPEG2TS.WithAfc | src/ipcaster/mpeg2-ts/MPEG2TS.hpp:145 | The intended AFC setter puts the AFC in bits 4-5 and keeps the scrambling bits and the continuity counter. |
| MPEG2TS.SetAfcAsWrittenCounterexample | src/ipcaster/mpeg2-ts/MPEG2TS.hpp:145 | On byte 0x10, the as-written setter with AFC 2 yields AFC 0; the intended setter yields 2. |
| MPEG2TS.SetAfcOnNullPacket | src/ipcaster/mpeg2-ts/MPEG2TS.hpp:145 | Example: on the null packet's byte 3 with AFC 1, the as-written and intended setters agree. |
| MPEG2TS.TSPacket.constructor | src/ipcaster/mpeg2-ts/MPEG2TS.hpp:99-103 | A packet view over an array at a base offset, 188 or 204 bytes long. |
| MPEG2TS.TSPacket.Bytes | src/ipcaster/mpeg2-ts/MPEG2TS.hpp:99-103 | The viewed bytes are exactly one packet long. |
| MPEG2TS.TSPacket.SetBase | src/ipcaster/mpeg2-ts/MPEG2TS.hpp:109 | Re-points the view, keeping its size. |
| MPEG2TS.TSPacket.SetSize | src/ipcaster/mpeg2-ts/MPEG2TS.hpp:115 | Changes the packet size, keeping the base. |
| MPEG2TS.TSPacket.MoveNext | src/ipcaster/mpeg2-ts/MPEG2TS.hpp:118 | Advances the base by one packet. |
| MPEG2TS.TSPacket.SetCC | src/ipcaster/mpeg2-ts/MPEG2TS.hpp:127 | Only byte 3 changes. The counter reads back as cc mod 16, and PID and AFC are kept. |
| MPEG2TS.TSPacket.SetPID | src/ipcaster/mpeg2-ts/MPEG2TS.hpp:136 | Only bytes 1 and 2 change. The PID reads back as pid mod 2^13, and counter and AFC are kept. |
| MPEG2TS.TSPacket.SetAFC | src/ipcaster/mpeg2-ts/MPEG2TS.hpp:145 | Only byte 3 changes. The AFC reads back as afc mod 4, and counter and PID are kept (the corrected setter). |
| MPEG2TS.GetTestPacket188 | src/ipcaster/mpeg2-ts/MPEG2TS.hpp:200-207 | The test packet's 188 bytes are the sync byte, two zero bytes (PID 0 with the TEI, PUSI and priority bits clear), 0x10 + index mod 16 (payload only, counter index mod 16), then the null packet's 0xFF padding. Bytes past 188 are untouched. |
| BufferBase.Buffer.Alloc | src/ipcaster/base/Buffer.hpp:42-67 | A fresh buffer owns new storage of the given capacity and is empty. |
| BufferBase.Buffer.Child | src/ipcaster/base/Buffer.hpp:82-90 | A child views the parent's storage at an offset inside it, and does not release it. |
| BufferBase.Buffer.MakeChild | src/ipcaster/base/Buffer.hpp:118-122 | makeChild returns a fresh child over the parent's own storage, at the given start, capacity and size. |
| BufferBase.Buffer.Payload | src/ipcaster/base/Buffer.hpp:128-131 | The data a buffer holds is size bytes long. |
| BufferBase.Buffer.SetSize | src/ipcaster/base/Buffer.hpp:134 | Sets the used size, keeping the buffer valid. |
| MPEG2TSBuffers.Split | src/ipcaster/mpeg2-ts/MPEG2TSBuffer.hpp:120 | Cutting bytes into n packets gives n packets of one size each. |
| MPEG2TSBuffers.SplitAt | src/ipcaster/mpeg2-ts/MPEG2TSBuffer.hpp:120 | Packet i of the cut is bytes i*size to (i+1)*size. |
| MPEG2TSBuffers.MPEG2TSBuffer.constructor | src/ipcaster/mpeg2-ts/MPEG2TSBuffer.hpp:43-50 | A fresh buffer with room for the given packets and one timestamp per packet, holding none. |
| MPEG2TSBuffers.MPEG2TSBuffer.Child | src/ipcaster/mpeg2-ts/MPEG2TSBuffer.hpp:69-78 | A child views a packet-aligned range of the parent's bytes and timestamps. |
| MPEG2TSBuffers.MPEG2TSBuffer.PacketBytes | src/ipcaster/mpeg2-ts/MPEG2TSBuffer.hpp:120 | packet(i) is one packet long. |
| MPEG2TSBuffers.MPEG2TSBuffer.Packets | src/ipcaster/mpeg2-ts/MPEG2TSBuffer.hpp:111-120 | The held packets: numPackets of them, each packetSize long. |
| MPEG2TSBuffers.MPEG2TSBuffer.PacketAt | src/ipcaster/mpeg2-ts/MPEG2TSBuffer.hpp:120 | Held packet i is the storage bytes at offset plus i*packetSize. |
| MPEG2TSBuffers.MPEG2TSBuffer.PacketIs | src/ipcaster/mpeg2-ts/MPEG2TSBuffer.hpp:120 | The same, for a start and size already computed. |
| MPEG2TSBuffers.MPEG2TSBuffer.Timestamps | src/ipcaster/mpeg2-ts/MPEG2TSBuffer.hpp:129-132 | One timestamp per held packet, timestamp(i) at position i. |
| MPEG2TSBuffers.MPEG2TSBuffer.NumPacketsCapacity | src/ipcaster/mpeg2-ts/MPEG2TSBuffer.hpp:114 | The buffer's packet capacity. |
| MPEG2TSBuffers.MPEG2TSBuffer.MakeChild | src/ipcaster/mpeg2-ts/MPEG2TSBuffer.hpp:94-98 | A fresh child whose packet j and timestamp j are the parent's packet i+j and timestamp i+j. |
| MPEG2TSBuffers.MPEG2TSBuffer.SetNumPackets | src/ipcaster/mpeg2-ts/MPEG2TSBuffer.hpp:104-108 | Sets the packet count; the byte size becomes count * packetSize. |
| MPEG2TSFilters.SampleOf | src/ipcaster/mpeg2-ts/MPEG2TSFilters.hpp:56-69 | What a packet contributes to the filter: its PID (13 bits) and, when it has one, its PCR (64 bits). |
| MPEG2TSFilters.Samples | src/ipcaster/mpeg2-ts/MPEG2TSFilters.hpp:54-74 | One sample per packet. |
| MPEG2TSFilters.AccumulateStep | src/ipcaster/mpeg2-ts/MPEG2TSFilters.hpp:54-74 | Recording packet n extends the table built from the first n packets to that of n+1. |
| MPEG2TSFilters.Accumulate | src/ipcaster/mpeg2-ts/MPEG2TSFilters.hpp:54-74 | Reference definition of the per-PID table push() builds: the first n packets recorded in order, packet k at position k * size + position. It has no contract of its own; AccumulateAppendsEntries states what it holds. |
| MPEG2TSFilters.Entries | src/ipcaster/mpeg2-ts/MPEG2TSFilters.hpp:54-74 | Reference definition, independent of the table: the PCRs of one PID among the first n packets, in packet order, with their byte positions. It has no contract of its own. |
| MPEG2TSFilters.AccumulateAppendsEntries | src/ipcaster/mpeg2-ts/MPEG2TSFilters.hpp:56-70 | After n packets, each PID's list is its old list followed by the PCRs of that PID among them, at their byte positions. A PID is present exactly when it was or one of them carried its PCR. |
| MPEG2TSFilters.AccumulateAppendsAllEntries | src/ipcaster/mpeg2-ts/MPEG2TSFilters.hpp:43-75 | The same over the whole buffer, for every PID. |
| MPEG2TSFilters.TicksDistance | src/ipcaster/mpeg2-ts/MPEG2TSFilters.hpp:93 | The PCR distance from a PID's first to its last PCR fits in 64 bits. |
| MPEG2TSFilters.BytesDistance | src/ipcaster/mpeg2-ts/MPEG2TSFilters.hpp:97 | The byte distance between them fits in 64 bits. |
| MPEG2TSFilters.PCRFilter.constructor | src/ipcaster/mpeg2-ts/MPEG2TSFilters.hpp:113 | A new filter has no PIDs. |
| MPEG2TSFilters.PCRFilter.Push | src/ipcaster/mpeg2-ts/MPEG2TSFilters.hpp:43-75 | push appends, per PID, each PCR of the buffer's packets with its position: index * packetSize + position. |
| MPEG2TSFilters.PCRFilter.PushPacket | src/ipcaster/mpeg2-ts/MPEG2TSFilters.hpp:56-73 | One loop step: records packet i and moves the packet view to packet i+1. |
| MPEG2TSFilters.PCRFilter.RecordPacket | src/ipcaster/mpeg2-ts/MPEG2TSFilters.hpp:56-70 | A PCR packet is appended to its PID's list, which is created if missing. Other packets change nothing. |
| MPEG2TSFilters.PCRFilter.GetPIDWithGreaterPCRDistance | src/ipcaster/mpeg2-ts/MPEG2TSFilters.hpp:86-101 | Among PIDs with more than two PCRs, the distance found is the greatest, and the PID is the lowest one reaching it. Distance 0 means no PID has a positive distance; then pid and bytes keep their old values. |
| MPEG2TSFileParser.FirstSyncUnique | src/ipcaster/mpeg2-ts/MPEG2TSFileParser.hpp:100-115 | The first sync position is unique. |
| MPEG2TSFileParser.SearchBoundAsWritten | src/ipcaster/mpeg2-ts/MPEG2TSFileParser.hpp:100 | The as-written bound `read_size - 612` in size_t: read_size - 612 when that is not negative, wrapped otherwise. |
| MPEG2TSFileParser.SearchBoundWrapsOnShortRead | src/ipcaster/mpeg2-ts/MPEG2TSFileParser.hpp:100 | In a file of 564 zero bytes, which holds no sync, the as-written bound lets the search run past the data and past the 9588-byte search buffer. The corrected bound stops at position 156, the last whose tested bytes lie in the data. |
| MPEG2TSFileParser.SearchBound | src/ipcaster/mpeg2-ts/MPEG2TSFileParser.hpp:100 | The corrected bound never exceeds the read. In a read of 612 bytes or more it is the as-written read_size - 612. In a shorter read, where the written bound wraps, the positions below it are exactly those whose bytes tested for 204-byte packets lie inside the read. |
| MPEG2TSFileParser.PerBufferPackets | src/ipcaster/mpeg2-ts/MPEG2TSFileParser.hpp:131 | A 128 KiB read holds 697 packets of 188 bytes, or 642 of 204. |
| MPEG2TSFileParser.ShortFileSyncsAtStart | src/ipcaster/mpeg2-ts/MPEG2TSFileParser.hpp:100-105 | Example: three 188-byte null packets, a 564-byte file, have their first sync at byte 0 with packet size 188, as the source finds on its first test. |
| MPEG2TSFileParser.NoSyncInZeroFile | src/ipcaster/mpeg2-ts/MPEG2TSFileParser.hpp:129-131 | A file of 700 zero bytes has no sync, so the as-written sync() divides by a zero packet size. |
| MPEG2TSFileParser.Bitrate | src/ipcaster/mpeg2-ts/MPEG2TSFileParser.hpp:167 | The bitrate is the floor of bytes * 8 * 27 MHz / PCR ticks. |
| MPEG2TSFileParser.BuffersPerSecond | src/ipcaster/mpeg2-ts/MPEG2TSFileParser.hpp:169 | Buffers per second is the floor of bitrate / buffer bits, and at least 1. |
| MPEG2TSFileParser.PacketTimestamp | src/ipcaster/mpeg2-ts/MPEG2TSFileParser.hpp:244 | A packet's timestamp is the floor of index * size * 8 * 27 MHz / bitrate. |
| MPEG2TSFileParser.MPEG2TSFileParser.constructor | src/ipcaster/mpeg2-ts/MPEG2TSFileParser.hpp:53-57 | An open file positioned at its start, not yet synced. |
| MPEG2TSFileParser.MPEG2TSFileParser.SearchSync | src/ipcaster/mpeg2-ts/MPEG2TSFileParser.hpp:84-129 | The do-while search of sync(). Packet size 0 exactly when no examined position has three sync bytes 188 or 204 apart. Otherwise the sync position is the first such position, with its packet size (188 is tried first). |
| MPEG2TSFileParser.SearchChunk | src/ipcaster/mpeg2-ts/MPEG2TSFileParser.hpp:100-118 | The inner while loop over one chunk: the first position below the bound that starts a sync, with its packet size; no position before it starts one; the bound and size 0 when none does. |
| MPEG2TSFileParser.MPEG2TSFileParser.Sync | src/ipcaster/mpeg2-ts/MPEG2TSFileParser.hpp:84-137 | sync() with the no-sync case returned as a failure instead of dividing by zero. On success, packets per buffer are set and the file is at the first sync. |
| MPEG2TSFileParser.MPEG2TSFileParser.Read | src/ipcaster/mpeg2-ts/MPEG2TSFileParser.hpp:189-205 | read() consumes up to one buffer of the file. It returns null exactly when no whole packet was read. Otherwise it returns a fresh buffer holding the whole packets read, and the packet count advances by their number. When the bitrate is positive, each packet is stamped with the timestamp of its index in the file, counted from the packets read before it. |
| MPEG2TSFileParser.MPEG2TSFileParser.Fill | src/ipcaster/mpeg2-ts/MPEG2TSFileParser.hpp:193-204 | The same, for a given empty buffer. |
| MPEG2TSFileParser.MPEG2TSFileParser.ReadBytes | src/ipcaster/mpeg2-ts/MPEG2TSFileParser.hpp:193 | fread: copies the next min(capacity, remaining) file bytes, which end up at the array's start. |
| MPEG2TSFileParser.MPEG2TSFileParser.Deliver | src/ipcaster/mpeg2-ts/MPEG2TSFileParser.hpp:196-201 | Sets the packet count, stamps the timestamps and advances the counter. The buffer then holds those file packets. |
| MPEG2TSFileParser.MPEG2TSFileParser.SetTimestampsFromBitrate | src/ipcaster/mpeg2-ts/MPEG2TSFileParser.hpp:237-246 | Timestamp k is PacketTimestamp(base + k). The slots past numPackets are untouched. |
| MPEG2TSFileParser.MPEG2TSFileParser.MeasurePcrDistance | src/ipcaster/mpeg2-ts/MPEG2TSFileParser.hpp:150-162 | The measuring loop of computeBitrate keeps the sync and bitrate state. The packet count never goes back, and a positive PCR distance means packets were read and counted. |
| MPEG2TSFileParser.MPEG2TSFileParser.ComputeBitrate | src/ipcaster/mpeg2-ts/MPEG2TSFileParser.hpp:148-174 | A zero PCR distance fails and leaves the bitrate alone. Otherwise bitrate and buffers per second follow the measured distances, and the file is rewound to the first sync while the packet count keeps the packets read while measuring, as the source does not reset it. |
| MPEG2TSFileParser.MPEG2TSFileParser.EstimatedBuffersPerSecond | src/ipcaster/mpeg2-ts/MPEG2TSFileParser.hpp:179-182 | The estimate set by computeBitrate. |
| MPEG2TSFileParser.Open | src/ipcaster/mpeg2-ts/MPEG2TSFileParser.hpp:53-67 | Constructing a parser fails on a file without sync. On success the parser is synced at the first sync position with its packet size, estimates at least one buffer per second, and has a positive packet count, so the first packet read after opening is not stamped as packet 0. |
| MPEG2TSFileParser.BitrateOfConstantRate | src/ipcaster/mpeg2-ts/MPEG2TSFileParser.hpp:167 | A file whose PCRs advance at exactly R bits per second measures as R. |
| MPEG2TSFileParser.PacketTimestampMonotone | src/ipcaster/mpeg2-ts/MPEG2TSFileParser.hpp:244 | Later packets never get earlier timestamps. |
| MPEG2TSFileParser.TimestampsKeepBitrate | src/ipcaster/mpeg2-ts/MPEG2TSFileParser.hpp:244 | Timestamps derived from a bitrate let a receiver measure at least that bitrate. |
| SMPTE2022Encapsulation.Pushes | src/ipcaster/smpte2022/SMPTE2022Encapsulator.hpp:94 | One consumer push per datagram, in order. |
| SMPTE2022Encapsulation.PushesAppend | src/ipcaster/smpte2022/SMPTE2022Encapsulator.hpp:94 | Pushing two runs of datagrams is pushing their concatenation. |
| SMPTE2022Encapsulation.SendTick | src/ipcaster/smpte2022/SMPTE2022Encapsulator.hpp:160-165 | A 27 MHz timestamp converted to whole nanoseconds, truncated. |
| SMPTE2022Encapsulation.SendTickMonotone | src/ipcaster/smpte2022/SMPTE2022Encapsulator.hpp:160-165 | The conversion keeps order. |
| SMPTE2022Encapsulation.TopUp | src/ipcaster/smpte2022/SMPTE2022Encapsulator.hpp:174-192 | Topping up the unfinished datagram takes no more packets than the buffer has. |
| SMPTE2022Encapsulation.FullDatagrams | src/ipcaster/smpte2022/SMPTE2022Encapsulator.hpp:88-95 | Reference definition of the datagrams the for loop of push() cuts from index i: seven packets each while more than seven are left, each timed by its first packet. It has no contract of its own; FullDatagramAt, FullDatagramsSized and FullDatagramsConserve state its properties. |
| SMPTE2022Encapsulation.Rest | src/ipcaster/smpte2022/SMPTE2022Encapsulator.hpp:88-100 | Reference definition of push() after the top-up: the full datagrams, then the remaining packets, if any, as the new pending datagram. It has no contract of its own; RestConserves states what it keeps. |
| SMPTE2022Encapsulation.Encapsulate | src/ipcaster/smpte2022/SMPTE2022Encapsulator.hpp:71-101 | Reference definition of push(): the top-up, then Rest. It has no contract of its own; EncapsulateConserves, EncapsulateShapes and EncapsulateDatagramAt state its properties, and Push is proved against it. |
| SMPTE2022Encapsulation.SMPTE2022Part2Encapsulator.constructor | src/ipcaster/smpte2022/SMPTE2022Encapsulator.hpp:59-63 | Nothing pending, nothing pushed. |
| SMPTE2022Encapsulation.SMPTE2022Part2Encapsulator.Push | src/ipcaster/smpte2022/SMPTE2022Encapsulator.hpp:71-101 | push sends the datagrams Encapsulate makes of the buffer's packets and timestamps, in order, and keeps what it leaves pending. |
| SMPTE2022Encapsulation.SMPTE2022Part2Encapsulator.PushPackets | src/ipcaster/smpte2022/SMPTE2022Encapsulator.hpp:82-100 | The same on the packet and timestamp sequences. |
| SMPTE2022Encapsulation.SMPTE2022Part2Encapsulator.PushFullDatagrams | src/ipcaster/smpte2022/SMPTE2022Encapsulator.hpp:88-95 | The loop pushes the full datagrams from start on and stops at LoopEnd. |
| SMPTE2022Encapsulation.SMPTE2022Part2Encapsulator.HandleUnfinishedDatagram | src/ipcaster/smpte2022/SMPTE2022Encapsulator.hpp:174-192 | Tops up the pending datagram and pushes it once it has 7 packets. If it is still pending, it took every packet and has between 1 and 6. |
| SMPTE2022Encapsulation.SMPTE2022Part2Encapsulator.StoreUnfinishedDatagram | src/ipcaster/smpte2022/SMPTE2022Encapsulator.hpp:199-205 | The leftover packets become the pending datagram, timed by its first packet. |
| SMPTE2022Encapsulation.SMPTE2022Part2Encapsulator.Flush | src/ipcaster/smpte2022/SMPTE2022Encapsulator.hpp:108-116 | Pushes the pending datagram if there is one, then flushes the consumer. |
| SMPTE2022Encapsulation.SMPTE2022Part2Encapsulator.Close | src/ipcaster/smpte2022/SMPTE2022Encapsulator.hpp:122-125 | Closes the consumer and keeps the pending datagram. |
| SMPTE2022Encapsulation.SMPTE2022Part2Encapsulator.SetBuffering | src/ipcaster/smpte2022/SMPTE2022Encapsulator.hpp:137-142 | Forwards datagrams per second (bitrate / (7*8*188)) and the bitrate. |
| SMPTE2022Encapsulation.DatagramsPerSecond | src/ipcaster/smpte2022/SMPTE2022Encapsulator.hpp:140 | The floor of bitrate over the bits of one 7-packet datagram. |
| SMPTE2022Encapsulation.FullDatagramAt | src/ipcaster/smpte2022/SMPTE2022Encapsulator.hpp:88-95 | The k-th full datagram holds packets i+7k to i+7k+6, timed by the first of them. |
| SMPTE2022Encapsulation.FullDatagramsConserve | src/ipcaster/smpte2022/SMPTE2022Encapsulator.hpp:88-97 | The full datagrams followed by the packets past the loop are exactly the packets from i on. |
| SMPTE2022Encapsulation.FullDatagramsInTimeOrder | src/ipcaster/smpte2022/SMPTE2022Encapsulator.hpp:88-95 | With non-decreasing packet timestamps, the datagrams' send ticks do not decrease. |
| SMPTE2022Encapsulation.EncapsulateConserves | src/ipcaster/smpte2022/SMPTE2022Encapsulator.hpp:71-101 | No packet is lost, duplicated or reordered: the datagrams pushed, then the pending packets, are the old pending packets followed by the buffer's. |
| SMPTE2022Encapsulation.TopUpConserves | src/ipcaster/smpte2022/SMPTE2022Encapsulator.hpp:174-192 | The same for the top-up. A datagram left pending means every packet was taken. |
| SMPTE2022Encapsulation.RestConserves | src/ipcaster/smpte2022/SMPTE2022Encapsulator.hpp:88-100 | The same for the full-datagram loop and the stored leftover. |
| SMPTE2022Encapsulation.FullDatagramsSized | src/ipcaster/smpte2022/SMPTE2022Encapsulator.hpp:92 | Every full datagram carries 7 packets. |
| SMPTE2022Encapsulation.EncapsulateShapes | src/ipcaster/smpte2022/SMPTE2022Encapsulator.hpp:71-101 | Every datagram pushed carries exactly 7 packets. What stays pending carries 1 to 7. |
| SMPTE2022Encapsulation.EncapsulateDatagramAt | src/ipcaster/smpte2022/SMPTE2022Encapsulator.hpp:88-95 | Each datagram past the top-up is the group of 7 packets at taken + 7k, unaddressed, timed by its first packet. |
| FIFOs.FIFO.constructor | src/ipcaster/base/FIFO.hpp:38-47 | An empty queue of the given capacity, with neither side unblocked. |
| FIFOs.FIFO.TryPush | src/ipcaster/base/FIFO.hpp:57-73 | Succeeds exactly when the queue is not full, and then appends. |
| FIFOs.FIFO.Push | src/ipcaster/base/FIFO.hpp:87-107 | Appends when there is room. On a full queue it would block, or drops the element once the producer is unblocked. |
| FIFOs.FIFO.Front | src/ipcaster/base/FIFO.hpp:115-123 | The oldest element. |
| FIFOs.FIFO.Pop | src/ipcaster/base/FIFO.hpp:132-142 | Removes the oldest element; does nothing on an empty queue. |
| FIFOs.FIFO.WriteAvailable | src/ipcaster/base/FIFO.hpp:151-154 | Free slots plus queued elements make the capacity. |
| FIFOs.FIFO.ReadAvailable | src/ipcaster/base/FIFO.hpp:163-166 | Readable plus writable elements make the capacity. |
| FIFOs.FIFO.WaitReadAvailable | src/ipcaster/base/FIFO.hpp:177-193 | Returns the readable count when there is one. On an empty queue it waits, unless the consumer is unblocked, when it returns 0. |
| FIFOs.FIFO.Capacity | src/ipcaster/base/FIFO.hpp:202-205 | The capacity bounds what can be read. |
| FIFOs.FIFO.UnblockProducer | src/ipcaster/base/FIFO.hpp:219-224 | Sets the producer's unblock flag. |
| FIFOs.FIFO.UnblockConsumer | src/ipcaster/base/FIFO.hpp:238-243 | Sets the consumer's unblock flag. |
| FIFOs.FIFO.Clear | src/ipcaster/base/FIFO.hpp:252-257 | Empties the queue and clears both flags. |
| FIFOs.FillAndDrain | src/tests/FIFOTest.hpp:121-131 | Filling a queue to capacity and reading it with front/pop gives back the elements in order and leaves it empty. |
| DatagramsMuxing.Stream.constructor | src/ipcaster/net/DatagramsMuxer.hpp:98-108 | A muxer stream to a destination with an empty FIFO of the given size, no sync or start point, and nothing popped. |
| DatagramsMuxing.Stream.Push | src/ipcaster/net/DatagramsMuxer.hpp:118-131 | The first push sets the sync point. The datagram is addressed to the stream's destination and queued, which blocks on a full FIFO. The tail tick follows the pushed datagram. |
| DatagramsMuxing.Stream.PopFrontDatagramElegible | src/ipcaster/net/DatagramsMuxer.hpp:140-160 | The front datagram is returned and removed exactly when its tick, moved from the sync point to the start point, is before now. The first look at a non-empty FIFO sets the start point. |
| DatagramsMuxing.Stream.BufferedTime | src/ipcaster/net/DatagramsMuxer.hpp:175-181 | 0 on an empty FIFO; otherwise the time from the front datagram's tick to the tail tick, in whole milliseconds. |
| DatagramsMuxing.Stream.GetTime | src/ipcaster/net/DatagramsMuxer.hpp:184-199 | The stream position: the last popped tick minus the sync point, or 0 before any pop. |
| DatagramsMuxing.Trimmed | src/ipcaster/net/DatagramsMuxer.hpp:474-486 | The oldest record is dropped exactly when the records span at least a second and there are at least two. |
| DatagramsMuxing.MaxGapIsMaximum | src/ipcaster/net/DatagramsMuxer.hpp:296-308 | The largest gap is at least every gap between records after a non-zero time, and is one of them unless it is 0. |
| DatagramsMuxing.KeepBitrateStatsKeepsOrder | src/ipcaster/net/DatagramsMuxer.hpp:474-486 | Recording a later burst keeps the record times strictly increasing. |
| DatagramsMuxing.RoundStep | src/ipcaster/net/DatagramsMuxer.hpp:393-412 | A round over the streams extends the conservation invariant. Each stream's queue at the start is what was taken from it, then what it still holds. |
| DatagramsMuxing.PassStep | src/ipcaster/net/DatagramsMuxer.hpp:398-408 | One visit keeps the invariant, whether it takes the front datagram or finds it not eligible. |
| DatagramsMuxing.DatagramsMuxer.constructor | src/ipcaster/net/DatagramsMuxer.hpp:53 | No streams and no burst records. |
| DatagramsMuxing.DatagramsMuxer.CreateStream | src/ipcaster/net/DatagramsMuxer.hpp:247-254 | Appends a fresh stream to the destination with an empty FIFO of the given size. |
| DatagramsMuxing.DatagramsMuxer.BurstPass | src/ipcaster/net/DatagramsMuxer.hpp:398-408 | One pass over all streams adds each eligible front datagram to the burst, in stream order. |
| DatagramsMuxing.DatagramsMuxer.PassVisit | src/ipcaster/net/DatagramsMuxer.hpp:400-407 | The visit of stream k within a pass. |
| DatagramsMuxing.DatagramsMuxer.PrepareBurst | src/ipcaster/net/DatagramsMuxer.hpp:393-412 | Passes until none adds anything. The burst is the one given, extended with the datagrams taken, each taken from the front of its stream's queue. Afterwards no stream has an eligible front datagram. |
| DatagramsMuxing.DatagramsMuxer.Round | src/ipcaster/net/DatagramsMuxer.hpp:396-411 | The loop of prepareBurst: each pass that adds something shrinks the total queued, which is what makes it end. |
| DatagramsMuxing.DatagramsMuxer.Visit | src/ipcaster/net/DatagramsMuxer.hpp:403 | Only stream k's queue changes: it loses the datagram returned, or stays when its front is not eligible. |
| DatagramsMuxing.DatagramsMuxer.KeepBitrateStats | src/ipcaster/net/DatagramsMuxer.hpp:474-486 | Drops the oldest record when they span a second, then records the burst's time and size. |
| DatagramsMuxing.DatagramsMuxer.GetOutputBandwidth | src/ipcaster/net/DatagramsMuxer.hpp:283-316 | With two or more records: the floor of total bytes * 8 * 10^9 over the time they span, and the largest gap. Otherwise 0 and 0. |
| DatagramsMuxing.SumAndMaxGap | src/ipcaster/net/DatagramsMuxer.hpp:298-308 | The loop accumulates the total size and the largest gap. |
| Observers.LiveEntries | src/ipcaster/Stream.hpp:149-150 | The observers still alive, in order. |
| Observers.DetachedWithoutMatch | src/ipcaster/base/Observer.hpp:58-71 | When no live observer matches, detaching only drops the dead ones. |
| Observers.Detached | src/ipcaster/base/Observer.hpp:58-71 | Reference definition of detachObserver's walk: dead entries are dropped, the first live entry for the observer is erased and the walk stops there. It has no contract of its own; DetachedWithoutMatch and DetachedAtMatch state its effect, and DetachObserver is proved against it. |
| Observers.DetachedAtMatch | src/ipcaster/base/Observer.hpp:58-71 | At the first live match, the dead observers before it are dropped, it is removed, and later entries are untouched. |
| Observers.Subject.constructor | src/ipcaster/base/Observer.hpp:84 | No observers. |
| Observers.Subject.AttachObserver | src/ipcaster/base/Observer.hpp:35-38 | Appends a weakly held observer. |
| Observers.Subject.AttachObserverStrong | src/ipcaster/base/Observer.hpp:48-51 | Appends a strongly held observer. |
| Observers.Subject.DetachObserver | src/ipcaster/base/Observer.hpp:58-71 | The loop computes Detached: dead entries up to the first live match are dropped, and the match is erased. |
| Observers.Subject.LiveObservers | src/ipcaster/Stream.hpp:149-150 | The ids of the live observers, one per live entry. |
| Observers.ObserversOf | src/ipcaster/base/Observer.hpp:84 | The ids of the entries, in order. |
| Logging.LevelOf | src/ipcaster/base/Logger.hpp:97-126 | The level numbered n, for n from 0 to 6. |
| Logging.LevelOfOrd | src/ipcaster/base/Logger.hpp:45 | Level numbers are a bijection. |
| Logging.FatalAsWrittenSilentAtFatal | src/ipcaster/base/Logger.hpp:132 | The as-written fatal() stream is silent at verbosity FATAL and opens only from ERROR up. |
| Logging.FatalAsWritten | src/ipcaster/base/Logger.hpp:132 | Reference definition of fatal() as written: the ERROR channel. It has no contract of its own; FatalAsWrittenSilentAtFatal states the consequence. |
| Logging.Logger.constructor | src/ipcaster/base/Logger.hpp:51-62 | Verbosity starts at INFO: every stream but the debug ones is open. |
| Logging.Logger.SetVerbosity | src/ipcaster/base/Logger.hpp:77-87 | A stream is open exactly when the verbosity reaches its level. |
| Logging.Logger.SetVerbosityInt | src/ipcaster/base/Logger.hpp:97-126 | The same for a verbosity given by number. |
| Logging.Logger.GetVerbosity | src/ipcaster/base/Logger.hpp:129 | The current verbosity. |
| Logging.Logger.Fatal | src/ipcaster/base/Logger.hpp:132 | The fatal stream is open from verbosity FATAL (1) up (the corrected accessor). |
| Logging.Logger.Error | src/ipcaster/base/Logger.hpp:135 | The error stream is open from ERROR (2) up. |
| Logging.Logger.Warning | src/ipcaster/base/Logger.hpp:138 | The warning stream is open from WARNING (3) up. |
| Logging.Logger.Info | src/ipcaster/base/Logger.hpp:141 | The info stream is open from INFO (4) up. |
| Logging.Logger.Debug | src/ipcaster/base/Logger.hpp:144-158 | Debug levels 0 and 1 give the DEBUG0 and DEBUG1 streams; any other level throws. |
| JsonValues.Member | src/ipcaster/IPCaster.hpp:67-70 | Reading a member: on an object the member or null; null reads as null; other values throw. |
| JsonValues.WithMember | src/ipcaster/Stream.hpp:71 | Setting a member on an object or null: the key holds the value and every other key is kept. |
| JsonValues.Member2 | src/ipcaster/IPCaster.cpp:38-39 | Reading a nested member is reading the outer, then the inner. |
| JsonValues.RestAsString | src/ipcaster/IPCaster.cpp:38-41 | cpprest's as_string succeeds exactly on strings. |
| JsonValues.RestAsInteger | src/ipcaster/IPCaster.cpp:39 | cpprest's as_integer succeeds exactly on integers. |
| JsonValues.JsonCppAsString | src/ipcaster/IPCaster.hpp:67-70 | jsoncpp's asString: strings as they are, null as "", integers in decimal; arrays and objects throw. |
| JsonValues.JsonCppAsUInt | src/ipcaster/IPCaster.hpp:68 | jsoncpp's asUInt: an integer in 0..2^32-1, or 0 for null; strings, arrays and objects throw. |
| Numerals.Atoi | src/ipcaster/ConsoleOptions.hpp:158 | atoi: the leading integer after blanks, or 0 when there is none. |
| Numerals.LeadingInteger | src/ipcaster/ConsoleOptions.hpp:158 | Reference definition of the integer atoi and stoi read: blanks, an optional sign, then the longest run of digits; none without a digit. It has no contract of its own; LeadingIntegerOfDecimal states its round trip. |
| Numerals.DecimalString | src/ipcaster/IPCaster.cpp:68 | The decimal rendering std::to_string gives an integer, never empty; LeadingIntegerOfDecimal proves it reads back as the same integer. |
| Numerals.Stoi | src/ipcaster/api/services/Streams.hpp:57 | stoi: the leading integer when there is one within int range; otherwise it throws. |
| Numerals.LeadingIntegerOfDecimal | src/ipcaster/ConsoleOptions.hpp:158 | A number written in decimal reads back as itself. |
| Numerals.AtoiOverPortRange | src/ipcaster/ConsoleOptions.hpp:158 | Example: atoi("70000") is 70000. |
| Numerals.AtoiWithoutDigits | src/ipcaster/ConsoleOptions.hpp:158 | Example: atoi("abc") is 0. |
| CasterStreams.IDSingleton.constructor | src/ipcaster/Stream.hpp:131 | The counter starts at 0. |
| CasterStreams.IDSingleton.Next | src/ipcaster/Stream.hpp:130-133 | Returns the counter and advances it, wrapping at 2^32. |
| CasterStreams.IssuedIdsDistinct | src/ipcaster/Stream.hpp:130-133 | Up to 2^32 successive ids are pairwise distinct. |
| CasterStreams.Source.constructor | src/ipcaster/Stream.hpp:64-66 | A source for a path that has received no calls. |
| CasterStreams.Source.AttachObserver | src/ipcaster/IPCaster.cpp:45 | Records that the stream observes the source. |
| CasterStreams.Source.Start | src/ipcaster/Stream.hpp:87 | Records a start. |
| CasterStreams.Source.Stop | src/ipcaster/Stream.hpp:95 | Records a stop, with its flush flag. |
| CasterStreams.Described | src/ipcaster/Stream.hpp:68-71 | The description the stream keeps has "id" set to its id and every other member of the given one. |
| CasterStreams.Stream.constructor | src/ipcaster/Stream.hpp:64-72 | Takes the next id and keeps the description with that id. |
| CasterStreams.Stream.Json | src/ipcaster/Stream.hpp:77 | The description carries the stream's id. |
| CasterStreams.Stream.Start | src/ipcaster/Stream.hpp:87 | Forwards a start to the source. |
| CasterStreams.Stream.Stop | src/ipcaster/Stream.hpp:95 | Forwards a stop to the source. |
| CasterStreams.Stream.GetTargetName | src/ipcaster/Stream.hpp:104-107 | "ip:port" from the endpoint, with an integer port in decimal; it fails when the endpoint cannot be read. |
| CasterStreams.Stream.NotifyEOF | src/ipcaster/Stream.hpp:139-153 | Every live observer is told the stream ended, once each, in registration order. |
| CasterStreams.Stream.NotifyException | src/ipcaster/Stream.hpp:158-172 | Every live observer is told the exception, once each, in registration order. |
| CasterStreams.Stream.Notify | src/ipcaster/Stream.hpp:147-172 | The shared loop: one event per live observer, in order. |
| CasterStreams.FindStream | src/ipcaster/IPCaster.cpp:63-65 | The first stream with the id, or none when no stream has it. |
| CasterStreams.JsonsOf | src/ipcaster/IPCaster.cpp:83-86 | The descriptions of the streams, in list order. |
| CasterStreams.FindStreamUnique | src/ipcaster/IPCaster.cpp:63-65 | With increasing ids, the stream found is the only one with its id. |
| CasterStreams.IdsIncreasingAppend | src/ipcaster/IPCaster.cpp:48 | Appending the stream that took the counter keeps ids increasing. |
| CasterStreams.IdsIncreasingRemove | src/ipcaster/IPCaster.cpp:72 | Removing any stream keeps ids increasing. |
| Caster.EndpointOf | src/ipcaster/IPCaster.cpp:38-39 | The destination is read exactly when endpoint.ip is a string and endpoint.port is an integer; the port is cast to 16 bits. |
| Caster.SourceOf | src/ipcaster/IPCaster.cpp:41 | The source path is read exactly when "source" is a string. |
| Caster.RemoveKeepsValid | src/ipcaster/IPCaster.cpp:72 | Erasing a stream keeps every description's id and the sources distinct. |
| Caster.AppendKeepsValid | src/ipcaster/IPCaster.cpp:48 | Appending a stream with a new source keeps them. |
| Caster.IPCaster.constructor | src/ipcaster/IPCaster.cpp:28-32 | No streams, out of service mode, a 100 ms loop period. |
| Caster.IPCaster.CreateStream | src/ipcaster/IPCaster.cpp:34-57 | Succeeds exactly when the destination and path are readable and the source opens. The muxer stream is added once the destination is read. On success the stream is last in the list, observed and started, and its description is returned. On failure the list and counter are unchanged. |
| Caster.IPCaster.AddStream | src/ipcaster/IPCaster.cpp:42-56 | The part past parsing: make, observe, list and start the stream. |
| Caster.IPCaster.DeleteStream | src/ipcaster/IPCaster.cpp:59-75 | An unknown id throws and changes nothing. Otherwise the first stream with the id is stopped and erased, the others keep their order, and no other source is touched. |
| Caster.IPCaster.ListStreams | src/ipcaster/IPCaster.cpp:77-89 | null when there are no streams; otherwise the array of their descriptions, in order. |
| Caster.IPCaster.SetServiceMode | src/ipcaster/IPCaster.cpp:91-98 | Records the mode and port. Service mode refreshes every 1000 ms, otherwise every 100 ms. |
| Caster.IPCaster.Run | src/ipcaster/IPCaster.cpp:100-125 | Out of service mode, the loop leaves at the first wake-up that sees no stream; in service mode it never leaves. |
| CasterLegacy.LegacyEndpointOf | src/ipcaster/IPCaster.hpp:67-68 | jsoncpp's reading of the destination: it succeeds exactly when the lenient conversions do. A null description gives "" and port 0. |
| CasterLegacy.LegacySourceOf | src/ipcaster/IPCaster.hpp:70 | jsoncpp's reading of the path: a missing one is "". |
| CasterLegacy.LegacyIPCaster.constructor | src/ipcaster/IPCaster.hpp:47-51 | No streams, out of server mode, a 100 ms loop period. |
| CasterLegacy.LegacyIPCaster.CreateStream | src/ipcaster/IPCaster.hpp:63-84 | As in the cpprest registry, with the lenient reading and nothing returned. |
| CasterLegacy.LegacyIPCaster.AddStream | src/ipcaster/IPCaster.hpp:72-79 | Make, observe, list and start the stream. |
| CasterLegacy.LegacyIPCaster.DeleteStream | src/ipcaster/IPCaster.hpp:95-110 | Stops and erases the first stream with the id, which must be listed. |
| CasterLegacy.LegacyIPCaster.SetServerMode | src/ipcaster/IPCaster.hpp:123-129 | Server mode refreshes every 1000 ms, otherwise every 100 ms. |
| CasterLegacy.LegacyIPCaster.Run | src/ipcaster/IPCaster.hpp:139-157 | Leaves at the first wake-up, out of server mode, that sees no stream. |
| Api.ErrorJson | src/ipcaster/api/HTTP.hpp:44-55 | The error body holds only "error", with the code and message. |
| Api.ListBody | src/ipcaster/api/services/Streams.hpp:37-48 | {"streams": [...]} with each stream's description, in order. |
| Api.ParsedId | src/ipcaster/api/services/Streams.hpp:57 | The id is stoi's value converted to 32 bits. It fails exactly when stoi throws, and non-negative ids are kept. |
| Api.ParsedIdOfDecimal | src/ipcaster/api/services/Streams.hpp:57 | An id up to INT_MAX written in decimal designates itself. |
| Api.ServiceList | src/ipcaster/api/services/Streams.hpp:37-48 | The list body of the registry's streams; no streams give an empty array. |
| Api.ServiceCreate | src/ipcaster/api/services/Streams.hpp:50-53 | The registry's creation, as it is. |
| Api.ServiceDel | src/ipcaster/api/services/Streams.hpp:55-58 | A non-numeric id fails before the registry is reached. Otherwise the registry deletes that id. |
| Api.ControllerGet | src/ipcaster/api/controllers/Streams.hpp:44-53 | 200 with the list body. |
| Api.ControllerPost | src/ipcaster/api/controllers/Streams.hpp:55-70 | 200 with the new description exactly when the body is JSON and the creation succeeds. Otherwise 400 with an error body, and the list is unchanged. |
| Api.ControllerDel | src/ipcaster/api/controllers/Streams.hpp:72-91 | An empty path gives 400 "Bad request". 200 without a body exactly when the first path segment names a listed stream, which is then removed. Otherwise 400 with an error body. |
| Api.Listener.constructor | src/ipcaster/api/controllers/Streams.hpp:37-42 | A listener that supports no method yet. |
| Api.Listener.Support | src/ipcaster/api/controllers/Streams.hpp:37-42 | Adds a supported method. |
| Api.RegisterMethods | src/ipcaster/api/controllers/Streams.hpp:37-42 | GET, POST and DELETE are supported, in that order. |
| Api.ClientScenario | src/tests/test_api.py:9-34 | Example, the test_api.py sequence: on a fresh service, a stream is created with id 0 and listed alone. Deleting it succeeds, and deleting 666 is a bad request. |
| Console.CheckPath | src/ipcaster/ConsoleOptions.hpp:146 | A path is accepted as it is. |
| Console.CheckIP | src/ipcaster/ConsoleOptions.hpp:152 | An address is accepted as it is. |
| Console.CheckPort | src/ipcaster/ConsoleOptions.hpp:158 | atoi cast to 16 bits: 0 without a leading integer, otherwise its value mod 2^16. |
| Console.CheckPortWraps | src/ipcaster/ConsoleOptions.hpp:158 | Example: Port "70000" becomes 4464. |
| Console.CheckPortOfText | src/ipcaster/ConsoleOptions.hpp:158 | Example: Port "abc" becomes 0. |
| Console.CheckPortOfDecimal | src/ipcaster/ConsoleOptions.hpp:158 | A 16-bit port written in decimal reads back as itself. |
| Console.PlayStreamReadBack | src/ipcaster/ConsoleOptions.hpp:171-182 | The registry reads a play description back as the triple's file, address and truncated port. |
| Console.ConsoleOptions.constructor | src/ipcaster/ConsoleOptions.hpp:41-44 | Options acting on a caster and a logger. |
| Console.ConsoleOptions.ParsePlay | src/ipcaster/ConsoleOptions.hpp:165-190 | One description per whole triple, in order. A trailing group of one or two arguments gives the incomplete-declaration error naming its first argument. |
| Console.ConsoleOptions.SetupStreams | src/ipcaster/ConsoleOptions.hpp:195-205 | Every description is tried in order. Each succeeds exactly when creatable, and the list grows by the successes. |
| Console.ConsoleOptions.Parse | src/ipcaster/ConsoleOptions.hpp:54-135 | No command throws. `service` enters service mode on the given port or 8080. `play` creates its streams. A verbosity outside 0..6 exits with "Invalid verbose level"; one inside sets the logger. |

## Left out

- Threads, mutexes, condition variables and atomics are not modelled. Each operation is one sequential step. A FIFO call that would block returns `Blocked` or `WouldWait` instead.
- Not modelled in the muxer: the sender thread and its timer, sendBurst, the sockets, keepSendStats, stats(), the burst trace, the destructor, the burst period and Stream::flush's busy wait. These need time, threads or the network.
- FileSource, SourceFactory, Timer, UDPSender and UDPReceiver, FuturesCollector, main.cpp, printStatus and the asynchronous delete of StreamEventListener are not part of this model. A source that fails to open is a parameter of stream creation.
- Bitrate, timestamps and buffers per second are computed in double in the source. The model uses exact integer floors.
- SMPTE2022Encapsulation.SendTick: duration_cast computes `ts * 1000 / 27` in 64 bits, which overflows for timestamps above about 1.8e16 ticks (about 21 years of stream). The model's product is unbounded.
- DatagramsMuxing.DatagramsMuxer.GetOutputBandwidth: the unsigned 64-bit overflow of `bytes * 8 * 1e9` is not modelled. Its requires asks that two or more burst records span a positive time, since the source divides by that span; KeepBitrateStatsKeepsOrder proves the records keep it.
- Numerals.Atoi: overflow is undefined behaviour in C; the model returns the exact leading integer.
- Api.ParsedId: an id above INT_MAX makes stoi throw. A negative id is converted to 32 bits modulo 2^32, as the cast to uint32_t does.
- Caster.IPCaster.CreateStream: IPCaster.cpp:38 calls the muxer's createStream with two arguments; DatagramsMuxer.hpp:247 takes three. The model records only the destination. IPCaster.cpp:42 also hands the cpprest `web::json::value` to Stream's constructor, which takes a jsoncpp `Json::Value&` (Stream.hpp:64). The model gives both registries one JSON value type, so which library's value a stream keeps is the model's choice, not the source's.
- Observers.Subject.DetachObserver: Observer.hpp:61 writes `it.observer_weak` on an iterator. The model follows the evident meaning, `it->observer_weak`.
- CasterStreams.Stream.constructor: Stream.hpp:65 moves the member into itself. The copy at line 68 is what takes effect, and the model takes it.
- jsoncpp's non-const `operator[]` adds null members to the description it reads, in the legacy registry and in getTargetName. The model reads without changing it.
- MPEG2TSFileParser.MPEG2TSFileParser.ComputeBitrate: the position passed to the filter is ftell after fread, as written. A bitrate-measurement failure is not characterised in terms of the file's contents.
- MPEG2TSFileParser.MPEG2TSFileParser.MeasurePcrDistance: its ensures say only that the sync and bitrate state are kept, not which distance the loop finds.
- MPEG2TSFileParser.SearchBound: in a read shorter than 612 bytes, the corrected search stops at the last position whose 204-byte test stays in the data. The 32 positions just after it, whose 188-byte test would still fit in the data, are not searched.
- MPEG2TSFileParser.Open: a bitrate-measurement failure is not characterised in terms of the file. Success is stated through the sync fields and a positive packet count. The exact count left by the measurement, which fixes the timestamp of the first packet played, is not stated; neither is a positive bitrate, since a measured bitrate can round down to 0, and then the packets read are not stamped.
- During computeBitrate, read() stamps timestamps with a bitrate_ not yet set. The model takes that bitrate as 0 and skips the stamping.
- MPEG2TSBuffers.MPEG2TSBuffer.MakeChild and the encapsulator's datagrams are views over the parent's storage in the source. The model's datagrams hold copies of the packet bytes, so later writes through a shared view are not captured.
- Api.ErrorJson: Response::error builds JSON text for cpprest to parse. The model gives the parsed object, and a message containing quotes, which breaks that parse, is not modelled.
- Api.ControllerGet: the 500 reply is unreachable because listing cannot fail in the model.
- Api.ControllerPost: a body whose extract_json fails arrives as a Failure; the HTTP layer is not modelled.
- BufferBase.Buffer.SetSize: requires size <= capacity, which Buffer.hpp:134 leaves unchecked.
- MPEG2TSBuffers.MPEG2TSBuffer.SetNumPackets: requires the count to be within the packet capacity, which MPEG2TSBuffer.hpp:104-108 leaves unchecked; read() always passes a count within it.
- Logging.Logger.SetVerbosityInt: requires 0..6, since other values fall outside the level enumeration.
- CasterLegacy.LegacyIPCaster.DeleteStream: requires the id to be listed, as the assert at IPCaster.hpp:103 demands.
- FIFOs.FIFO.Front: requires a non-empty queue, as the pre-condition at FIFO.hpp:115 demands.
- Not modelled in the console: --help, --license and their exits, boost program_options itself (the command, the play arguments, the port and the verbosity arrive separated), log text, getSourceName and genTestFile188.

## Findings

| source | as written | input that shows it | evidently intended | confidence | as-written member | corrected member |
|---|---|---|---|---|---|---|
| src/ipcaster/mpeg2-ts/MPEG2TS.hpp:145 | setAFC does `pkt[3] &= afc << 4`, which can only clear bits | byte 3 = 0x10 with afc = 2 gives AFC 0 | replace bits 4-5 of byte 3 with afc | not executed | MPEG2TS.WithAfcAsWritten, MPEG2TS.SetAfcAsWrittenCounterexample | MPEG2TS.TSPacket.SetAFC |
| src/ipcaster/mpeg2-ts/MPEG2TSFileParser.hpp:131 | with no sync found packet_size_ stays 0, and `APROX_READ_SIZE / packet_size_` divides by zero | a file of 700 zero bytes | report that no sync was found | not executed | MPEG2TSFileParser.MPEG2TSFileParser.SearchSync, MPEG2TSFileParser.NoSyncInZeroFile | MPEG2TSFileParser.MPEG2TSFileParser.Sync |
| src/ipcaster/mpeg2-ts/MPEG2TSFileParser.hpp:100 | `read_size - (204*3)` in size_t wraps when fewer than 612 bytes are read, so the search reads past the data | a file of 564 zero bytes, a short read with no sync at its start | in a read shorter than 612 bytes, search the positions whose tested bytes lie inside the read | not executed | MPEG2TSFileParser.SearchBoundAsWritten, MPEG2TSFileParser.SearchBoundWrapsOnShortRead | MPEG2TSFileParser.SearchBound |
| src/ipcaster/base/Logger.hpp:132 | fatal() returns the error stream, so fatal messages are dropped at verbosity FATAL | verbosity 1 (FATAL) | fatal() returns the fatal stream | not executed | Logging.FatalAsWritten, Logging.FatalAsWrittenSilentAtFatal | Logging.Logger.Fatal |
