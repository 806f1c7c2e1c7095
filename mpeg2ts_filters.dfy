/**
 * The PCR filter: collects, per PID, every PCR found in the packets pushed
 * to it together with the stream position of its packet, and picks the PID
 * whose PCRs span the longest time.
 */
module MPEG2TSFilters {
  import opened Wrappers
  import opened MPEG2TS
  import opened MPEG2TSBuffers

  /** A PCR value and the stream position (in bytes) of the packet that carried it. */
  datatype PCRPosition = PCRPosition(pcr: nat, position: nat)

  type PcrMap = map<int, seq<PCRPosition>>

  /** The PCRs recorded for pid so far; none when the PID has no list yet. */
  function Lookup(m: PcrMap, pid: int): seq<PCRPosition>
  {
    if pid in m then m[pid] else []
  }

  /** What the filter reads from one packet: nothing, or a PID and its PCR. */
  datatype PcrSample = NoPcr | Sampled(pid: int, pcr: nat)

  /** A sample names a 13-bit PID and a 64-bit PCR. */
  ghost predicate SampleValid(s: PcrSample)
  {
    s.Sampled? ==> 0 <= s.pid < 0x2000 && s.pcr < U64
  }

  /** The sample of a packet: its PID and PCR when it carries a PCR. */
  function SampleOf(p: seq<byte>): (s: PcrSample)
    requires |p| >= 12
    ensures SampleValid(s)
  {
    if HasPCR(p) then Sampled(Pid(p), Pcr(p)) else NoPcr
  }

  /** The samples of a sequence of packets, in order. */
  function Samples(pkts: seq<seq<byte>>): (r: seq<PcrSample>)
    requires forall k :: 0 <= k < |pkts| ==> |pkts[k]| >= 12
    ensures |r| == |pkts|
  {
    if |pkts| == 0 then [] else Samples(pkts[..|pkts| - 1]) + [SampleOf(pkts[|pkts| - 1])]
  }

  lemma {:induction false} SamplesAt(pkts: seq<seq<byte>>, i: nat)
    requires forall k :: 0 <= k < |pkts| ==> |pkts[k]| >= 12
    requires i < |pkts|
    ensures Samples(pkts)[i] == SampleOf(pkts[i])
  {
    if i < |pkts| - 1 {
      SamplesAt(pkts[..|pkts| - 1], i);
    }
  }

  /** The table after one packet at stream position `at` has been looked at. */
  function Record(m: PcrMap, s: PcrSample, at: nat): PcrMap
  {
    if s.Sampled? then m[s.pid := Lookup(m, s.pid) + [PCRPosition(s.pcr, at)]] else m
  }

  /**
   * The table after the first n samples, the first from the packet at
   * stream position `position`, have been looked at in order.
   */
  function Accumulate(m: PcrMap, samples: seq<PcrSample>, n: nat, packetSize: nat, position: nat): PcrMap
    requires n <= |samples|
  {
    if n == 0 then m
    else Record(Accumulate(m, samples, n - 1, packetSize, position), samples[n - 1], (n - 1) * packetSize + position)
  }

  /** One more sample recorded at its position extends the accumulation by one. */
  lemma AccumulateStep(m: PcrMap, samples: seq<PcrSample>, n: nat, packetSize: nat, position: nat,
                       prev: PcrMap, next: PcrMap, at: nat)
    requires n < |samples| && prev == Accumulate(m, samples, n, packetSize, position)
    requires at == n * packetSize + position && next == Record(prev, samples[n], at)
    ensures next == Accumulate(m, samples, n + 1, packetSize, position)
  {
  }

  /** Reference definition: the PCRs of PID pid among the first n samples, in packet order, with their positions. */
  function Entries(samples: seq<PcrSample>, n: nat, pid: int, packetSize: nat, position: nat): seq<PCRPosition>
    requires n <= |samples|
  {
    if n == 0 then []
    else
      var s := samples[n - 1];
      Entries(samples, n - 1, pid, packetSize, position)
        + (if s.Sampled? && s.pid == pid then [PCRPosition(s.pcr, (n - 1) * packetSize + position)] else [])
  }

  /**
   * Each PID's list grows by exactly its own PCRs, in packet order; a PID
   * gets a list when its first PCR is seen and no other list appears.
   */
  lemma {:induction false} AccumulateAppendsEntries(m: PcrMap, samples: seq<PcrSample>, n: nat, packetSize: nat, position: nat, pid: int)
    requires n <= |samples|
    ensures Lookup(Accumulate(m, samples, n, packetSize, position), pid) == Lookup(m, pid) + Entries(samples, n, pid, packetSize, position)
    ensures pid in Accumulate(m, samples, n, packetSize, position) <==> pid in m || Entries(samples, n, pid, packetSize, position) != []
  {
    if n > 0 {
      AccumulateAppendsEntries(m, samples, n - 1, packetSize, position, pid);
    }
  }

  lemma AccumulateAppendsAllEntries(m: PcrMap, samples: seq<PcrSample>, packetSize: nat, position: nat)
    ensures forall pid :: Lookup(Accumulate(m, samples, |samples|, packetSize, position), pid)
                          == Lookup(m, pid) + Entries(samples, |samples|, pid, packetSize, position)
  {
    forall pid | true
      ensures Lookup(Accumulate(m, samples, |samples|, packetSize, position), pid)
              == Lookup(m, pid) + Entries(samples, |samples|, pid, packetSize, position)
    {
      AccumulateAppendsEntries(m, samples, |samples|, packetSize, position, pid);
    }
  }

  /** A table that only holds 13-bit PIDs and 64-bit PCR values. */
  ghost predicate TableValid(m: PcrMap)
  {
    forall q :: q in m ==> 0 <= q < 0x2000 && forall j :: 0 <= j < |m[q]| ==> m[q][j].pcr < U64
  }

  lemma RecordValid(m: PcrMap, s: PcrSample, at: nat)
    requires TableValid(m) && SampleValid(s)
    ensures TableValid(Record(m, s, at))
  {
  }

  /** The span, in PCR ticks, from the first to the last PCR of a list. */
  function TicksDistance(pcrs: seq<PCRPosition>): (d: int)
    requires |pcrs| > 0 && pcrs[0].pcr < U64 && pcrs[|pcrs| - 1].pcr < U64
    ensures 0 <= d < U64
  {
    PcrSub(pcrs[0].pcr, pcrs[|pcrs| - 1].pcr)
  }

  /** The span, in bytes, from the first to the last PCR of a list, as an unsigned 64-bit difference. */
  function BytesDistance(pcrs: seq<PCRPosition>): (d: int)
    requires |pcrs| > 0
    ensures 0 <= d < U64
  {
    (pcrs[|pcrs| - 1].position - pcrs[0].position) % U64
  }

  class PCRFilter {
    var pidsPcrs: PcrMap

    ghost predicate Valid()
      reads this
    {
      TableValid(pidsPcrs)
    }

    constructor ()
      ensures Valid() && pidsPcrs == map[]
    {
      pidsPcrs := map[];
    }

    /** A PID whose list has more than two PCRs takes part in the distance search. */
    ghost predicate Eligible(pid: int)
      reads this
    {
      pid in pidsPcrs && |pidsPcrs[pid]| > 2
    }

    ghost function Distance(pid: int): int
      reads this
      requires Valid() && Eligible(pid)
    {
      TicksDistance(pidsPcrs[pid])
    }

    /**
     * Looks at every valid packet of the buffer, whose first byte is at
     * stream position `position`, and appends each PCR found to its PID's list.
     */
    method Push(buffer: MPEG2TSBuffer, position: nat)
      requires Valid() && buffer.Valid()
      modifies this
      ensures Valid()
      ensures pidsPcrs == Accumulate(old(pidsPcrs), Samples(old(buffer.Packets())), buffer.numPackets, buffer.packetSize, position)
    {
      ghost var pkts := buffer.Packets();
      var packet := new TSPacket(buffer.buffer.data, buffer.buffer.offset, buffer.packetSize);
      var packetIndex: nat := 0;
      var maxPackets := buffer.numPackets;
      while packetIndex < maxPackets
        invariant 0 <= packetIndex <= maxPackets
        invariant packet.data == buffer.buffer.data && packet.size == buffer.packetSize
        invariant packet.base == buffer.PacketStart(packetIndex)
        invariant Valid()
        invariant pidsPcrs == Accumulate(old(pidsPcrs), Samples(pkts), packetIndex, buffer.packetSize, position)
      {
        PushPacket(buffer, packet, packetIndex, position, old(pidsPcrs), pkts);
        packetIndex := packetIndex + 1;
      }
    }

    /**
     * One turn of the loop of Push: records the PCR of the packet under
     * `packet`, the one at packetIndex in the buffer, and moves to the next.
     */
    method PushPacket(buffer: MPEG2TSBuffer, packet: TSPacket, packetIndex: nat, position: nat,
                      ghost start: PcrMap, ghost pkts: seq<seq<byte>>)
      requires Valid() && buffer.Valid() && packetIndex < buffer.numPackets && pkts == buffer.Packets()
      requires packet.data == buffer.buffer.data && packet.size == buffer.packetSize
      requires packet.base == buffer.PacketStart(packetIndex)
      requires pidsPcrs == Accumulate(start, Samples(pkts), packetIndex, buffer.packetSize, position)
      modifies this, packet
      ensures packet.data == buffer.buffer.data && packet.size == buffer.packetSize
      ensures packet.base == buffer.PacketStart(packetIndex + 1)
      ensures Valid() && pidsPcrs == Accumulate(start, Samples(pkts), packetIndex + 1, buffer.packetSize, position)
    {
      buffer.PacketIs(packetIndex, packet.base, packet.size);
      var at: nat := packetIndex * buffer.packetSize + position;
      var bytes := packet.Bytes();
      SamplesAt(pkts, packetIndex);
      ghost var prev := pidsPcrs;
      RecordPacket(bytes, at);
      AccumulateStep(start, Samples(pkts), packetIndex, buffer.packetSize, position, prev, pidsPcrs, at);
      buffer.PacketStartNext(packetIndex);
      packet.MoveNext();
    }

    /** Appends the PCR of packet p, if it carries one, to the list of its PID. */
    method RecordPacket(p: seq<byte>, at: nat)
      requires Valid() && |p| >= 12
      modifies this
      ensures Valid() && pidsPcrs == Record(old(pidsPcrs), SampleOf(p), at)
    {
      RecordValid(pidsPcrs, SampleOf(p), at);
      if HasPCR(p) {
        var pid := Pid(p);
        var pcrs := Lookup(pidsPcrs, pid);
        pidsPcrs := pidsPcrs[pid := pcrs + [PCRPosition(Pcr(p), at)]];
      }
    }

    /**
     * The eligible PID with the greatest PCR distance and that distance in
     * ticks and bytes; among equal distances the lowest PID wins. When no
     * eligible PID has a positive distance the distance is 0 and `pid` and
     * `bytes` keep the values passed in.
     */
    method GetPIDWithGreaterPCRDistance(pid0: int, bytes0: int) returns (pid: int, ticks: int, bytes: int)
      requires Valid()
      ensures ticks >= 0
      ensures forall q :: Eligible(q) ==> Distance(q) <= ticks
      ensures ticks == 0 <==> forall q :: Eligible(q) ==> Distance(q) == 0
      ensures ticks == 0 ==> pid == pid0 && bytes == bytes0
      ensures ticks > 0 ==> Eligible(pid) && ticks == Distance(pid) && bytes == BytesDistance(pidsPcrs[pid])
      ensures ticks > 0 ==> forall q :: Eligible(q) && q < pid ==> Distance(q) < ticks
    {
      pid, ticks, bytes := pid0, 0, bytes0;
      for k := 0 to 0x2000
        invariant ticks >= 0
        invariant forall q :: 0 <= q < k && Eligible(q) ==> Distance(q) <= ticks
        invariant ticks == 0 ==> pid == pid0 && bytes == bytes0
        invariant ticks > 0 ==> 0 <= pid < k && Eligible(pid) && ticks == Distance(pid)
                                && bytes == BytesDistance(pidsPcrs[pid])
        invariant ticks > 0 ==> forall q :: 0 <= q < pid && Eligible(q) ==> Distance(q) < ticks
      {
        if k in pidsPcrs {
          var pcrs := pidsPcrs[k];
          if |pcrs| > 2 {
            var d := TicksDistance(pcrs);
            if d > ticks {
              pid := k;
              ticks := d;
              bytes := BytesDistance(pcrs);
            }
          }
        }
      }
    }
  }
}
