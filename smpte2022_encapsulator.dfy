/**
 * The SMPTE ST 2022-2 encapsulator: groups transport stream packets seven
 * to a datagram, without RTP header, and carries a partly filled datagram
 * over from one input buffer to the next. The consumer it feeds is
 * modelled by the log of the calls made on it.
 */
module SMPTE2022Encapsulation {
  import opened Wrappers
  import opened MPEG2TSBuffers
  import opened Datagrams

  const TS_PACKETS_PER_DATAGRAM: nat := 7

  /** A call made on the consumer of the datagrams. */
  datatype ConsumerCall =
    | Pushed(datagram: Datagram)
    | Flushed
    | BufferingSet(buffersPerSecond: nat, bitrate: nat)
    | Closed

  /** The push calls that hand over the datagrams, in order. */
  function Pushes(ds: seq<Datagram>): (r: seq<ConsumerCall>)
    ensures |r| == |ds|
    ensures forall i :: 0 <= i < |ds| ==> r[i] == Pushed(ds[i])
  {
    if ds == [] then [] else [Pushed(ds[0])] + Pushes(ds[1..])
  }

  lemma PushesAppend(a: seq<Datagram>, b: seq<Datagram>)
    ensures Pushes(a + b) == Pushes(a) + Pushes(b)
  {
    assert |Pushes(a + b)| == |Pushes(a) + Pushes(b)|;
    forall i | 0 <= i < |a + b|
      ensures Pushes(a + b)[i] == (Pushes(a) + Pushes(b))[i]
    {
      if i >= |a| {
        assert (a + b)[i] == b[i - |a|];
      }
    }
  }

  lemma AppendAssoc<T>(a: seq<T>, b: seq<T>, c: seq<T>)
    ensures a + b + c == a + (b + c)
  {
  }

  /** A PCR timestamp (27 MHz ticks) as a clock time point in nanoseconds, truncated. */
  function SendTick(timestamp: nat): (ns: nat)
    ensures ns * 27 <= timestamp * 1000 < (ns + 1) * 27
  {
    timestamp * 1000 / 27
  }

  /** Later packets are never scheduled earlier. */
  lemma SendTickMonotone(a: nat, b: nat)
    requires a <= b
    ensures SendTick(a) <= SendTick(b)
  {
    MulLe(a, b, 1000);
    DivLe(a * 1000, b * 1000, 27);
  }

  /** A datagram of the n packets from i, sent at the first one's timestamp, its destination still unset. */
  function NewDatagram(pkts: seq<seq<byte>>, ts: seq<nat>, i: nat, n: nat): Datagram
    requires |ts| == |pkts| && i < |pkts| && i + n <= |pkts|
  {
    Datagram("", 0, pkts[i..i + n], SendTick(ts[i]))
  }

  /** The full datagrams the loop of push() cuts from index i on: one while more than seven packets are left. */
  function FullDatagrams(pkts: seq<seq<byte>>, ts: seq<nat>, i: nat): seq<Datagram>
    requires |ts| == |pkts| && i <= |pkts|
    decreases |pkts| - i
  {
    if i + TS_PACKETS_PER_DATAGRAM < |pkts| then
      [NewDatagram(pkts, ts, i, TS_PACKETS_PER_DATAGRAM)] + FullDatagrams(pkts, ts, i + TS_PACKETS_PER_DATAGRAM)
    else []
  }

  /** Where that loop stops. */
  function LoopEnd(n: nat, i: nat): (e: nat)
    requires i <= n
    ensures i <= e <= n && n <= e + TS_PACKETS_PER_DATAGRAM
    decreases n - i
  {
    if i + TS_PACKETS_PER_DATAGRAM < n then LoopEnd(n, i + TS_PACKETS_PER_DATAGRAM) else i
  }

  /** The pending packets, none when no datagram is pending. */
  function PendingPackets(pending: Option<Datagram>): seq<seq<byte>>
  {
    if pending.Some? then pending.value.payload else []
  }

  /** What one push() produces: the datagrams handed over and the datagram left pending. */
  datatype PushResult = PushResult(emitted: seq<Datagram>, pending: Option<Datagram>)

  /** From index start on: full datagrams, then the tail, if any, as the new pending datagram. */
  function Rest(first: seq<Datagram>, keep: Option<Datagram>, pkts: seq<seq<byte>>, ts: seq<nat>, start: nat): PushResult
    requires |ts| == |pkts| && start <= |pkts|
  {
    var e := LoopEnd(|pkts|, start);
    PushResult(first + FullDatagrams(pkts, ts, start),
               if e < |pkts| then Some(NewDatagram(pkts, ts, e, |pkts| - e)) else keep)
  }

  /** The topping up of the pending datagram: the datagram handed over, the one kept, the packets taken. */
  datatype Topping = Topping(first: seq<Datagram>, keep: Option<Datagram>, taken: nat)

  /**
   * The first step of push(): a pending datagram is topped up with the
   * leading packets and handed over once it holds seven.
   */
  function TopUp(pending: Option<Datagram>, pkts: seq<seq<byte>>): (t: Topping)
    requires pending.Some? ==> |pending.value.payload| <= TS_PACKETS_PER_DATAGRAM
    ensures t.taken <= |pkts|
  {
    if pending.Some? then
      var take := Min(TS_PACKETS_PER_DATAGRAM - |pending.value.payload|, |pkts|);
      var d := pending.value.(payload := pending.value.payload + pkts[..take]);
      if |d.payload| == TS_PACKETS_PER_DATAGRAM then Topping([d], None, take)
      else Topping([], Some(d), take)
    else Topping([], None, 0)
  }

  /**
   * push(): the topping up, then full datagrams, then a tail of one to
   * seven packets as the pending datagram.
   */
  function Encapsulate(pending: Option<Datagram>, pkts: seq<seq<byte>>, ts: seq<nat>): PushResult
    requires |ts| == |pkts| && (pending.Some? ==> |pending.value.payload| <= TS_PACKETS_PER_DATAGRAM)
  {
    var t := TopUp(pending, pkts);
    Rest(t.first, t.keep, pkts, ts, t.taken)
  }

  /** A pending datagram holds one to seven packets. */
  ghost predicate PendingValid(pending: Option<Datagram>)
  {
    pending.Some? ==> 1 <= |pending.value.payload| <= TS_PACKETS_PER_DATAGRAM
  }

  class SMPTE2022Part2Encapsulator {
    var unfinished: Option<Datagram>
    var calls: seq<ConsumerCall>

    ghost predicate Valid()
      reads this
    {
      PendingValid(unfinished)
    }

    constructor ()
      ensures Valid() && unfinished == None && calls == []
    {
      unfinished := None;
      calls := [];
    }

    /** Encapsulates the valid packets of the buffer. */
    method Push(buffer: MPEG2TSBuffer)
      requires Valid() && buffer.Valid()
      modifies this
      ensures Valid()
      ensures var r := Encapsulate(old(unfinished), buffer.Packets(), buffer.Timestamps());
              calls == old(calls) + Pushes(r.emitted) && unfinished == r.pending
    {
      var pkts := buffer.Packets();
      var ts := buffer.Timestamps();
      PushPackets(pkts, ts);
    }

    /** The body of push() on the buffer's packets and their timestamps. */
    method PushPackets(pkts: seq<seq<byte>>, ts: seq<nat>)
      requires Valid() && |ts| == |pkts|
      modifies this
      ensures Valid()
      ensures var r := Encapsulate(old(unfinished), pkts, ts);
              calls == old(calls) + Pushes(r.emitted) && unfinished == r.pending
    {
      ghost var t := TopUp(unfinished, pkts);
      ghost var r := Encapsulate(unfinished, pkts, ts);
      ghost var before := calls;
      assert r == Rest(t.first, t.keep, pkts, ts, t.taken);
      var pktIndex := 0;
      if unfinished.Some? {
        pktIndex := HandleUnfinishedDatagram(pkts);
      }
      assert pktIndex == t.taken && unfinished == t.keep && calls == before + Pushes(t.first);
      ghost var full := FullDatagrams(pkts, ts, t.taken);
      pktIndex := PushFullDatagrams(pkts, ts, pktIndex);
      assert calls == before + Pushes(t.first) + Pushes(full);
      PushesAppend(t.first, full);
      assert r.emitted == t.first + full;
      AppendAssoc(before, Pushes(t.first), Pushes(full));
      assert calls == before + Pushes(r.emitted);
      var remainingPackets := |pkts| - pktIndex;
      if remainingPackets > 0 {
        StoreUnfinishedDatagram(pkts, ts, pktIndex, remainingPackets);
        assert unfinished == r.pending;
      } else {
        assert unfinished == r.pending;
      }
    }

    /** The loop of push(): hands over a full datagram while more than seven packets are left. */
    method PushFullDatagrams(pkts: seq<seq<byte>>, ts: seq<nat>, start: nat) returns (end: nat)
      requires |ts| == |pkts| && start <= |pkts|
      modifies this`calls
      ensures end == LoopEnd(|pkts|, start)
      ensures calls == old(calls) + Pushes(FullDatagrams(pkts, ts, start))
    {
      var pktIndex := start;
      ghost var done: seq<Datagram> := [];
      while pktIndex + TS_PACKETS_PER_DATAGRAM < |pkts|
        invariant start <= pktIndex <= |pkts|
        invariant LoopEnd(|pkts|, pktIndex) == LoopEnd(|pkts|, start)
        invariant done + FullDatagrams(pkts, ts, pktIndex) == FullDatagrams(pkts, ts, start)
        invariant calls == old(calls) + Pushes(done)
        decreases |pkts| - pktIndex
      {
        var payload := pkts[pktIndex..pktIndex + TS_PACKETS_PER_DATAGRAM];
        var datagram := Datagram("", 0, payload, SendTick(ts[pktIndex]));
        assert FullDatagrams(pkts, ts, pktIndex) == [datagram] + FullDatagrams(pkts, ts, pktIndex + TS_PACKETS_PER_DATAGRAM);
        AppendAssoc(done, [datagram], FullDatagrams(pkts, ts, pktIndex + TS_PACKETS_PER_DATAGRAM));
        calls := calls + [Pushed(datagram)];
        PushesAppend(done, [datagram]);
        done := done + [datagram];
        pktIndex := pktIndex + TS_PACKETS_PER_DATAGRAM;
      }
      assert done == FullDatagrams(pkts, ts, start);
      end := pktIndex;
    }

    /**
     * Tops the pending datagram up with the leading packets and hands it
     * over once it holds seven. Returns the number of packets taken.
     */
    method HandleUnfinishedDatagram(pkts: seq<seq<byte>>) returns (taken: nat)
      requires Valid() && unfinished.Some?
      modifies this
      ensures var t := TopUp(old(unfinished), pkts);
              taken == t.taken && calls == old(calls) + Pushes(t.first) && unfinished == t.keep
      ensures unfinished.Some? ==> taken == |pkts| && 1 <= |unfinished.value.payload| < TS_PACKETS_PER_DATAGRAM
    {
      var payload := unfinished.value.payload;
      var remainingPackets := TS_PACKETS_PER_DATAGRAM - |payload|;
      taken := Min(remainingPackets, |pkts|);
      unfinished := Some(unfinished.value.(payload := payload + pkts[..taken]));
      if |unfinished.value.payload| == TS_PACKETS_PER_DATAGRAM {
        assert Pushes([unfinished.value]) == [Pushed(unfinished.value)];
        calls := calls + [Pushed(unfinished.value)];
        unfinished := None;
      }
    }

    /** Keeps the last n packets, from index i, as the pending datagram. */
    method StoreUnfinishedDatagram(pkts: seq<seq<byte>>, ts: seq<nat>, i: nat, n: nat)
      requires |ts| == |pkts| && 0 < n && i + n == |pkts|
      modifies this
      ensures unfinished == Some(NewDatagram(pkts, ts, i, n)) && calls == old(calls)
    {
      unfinished := Some(Datagram("", 0, pkts[i..i + n], SendTick(ts[i])));
    }

    /** Hands over the pending datagram, however full, then flushes the consumer. */
    method Flush()
      requires Valid()
      modifies this
      ensures Valid() && unfinished == None
      ensures calls == old(calls) + (if old(unfinished).Some? then [Pushed(old(unfinished).value)] else []) + [Flushed]
    {
      if unfinished.Some? {
        calls := calls + [Pushed(unfinished.value)];
        unfinished := None;
      }
      calls := calls + [Flushed];
    }

    method Close()
      modifies this
      ensures unfinished == old(unfinished) && calls == old(calls) + [Closed]
    {
      calls := calls + [Closed];
    }

    /**
     * Forwards the buffering estimate: datagrams per second at that bitrate,
     * counted with 188-byte packets; the producer's own estimate is not used.
     */
    method SetBuffering(estimatedBuffersPerSecond: nat, estimatedBitrate: nat)
      modifies this
      ensures unfinished == old(unfinished)
      ensures calls == old(calls) + [BufferingSet(DatagramsPerSecond(estimatedBitrate), estimatedBitrate)]
    {
      var next := estimatedBitrate / (TS_PACKETS_PER_DATAGRAM * 8 * 188);
      calls := calls + [BufferingSet(next, estimatedBitrate)];
    }
  }

  /** Datagrams of seven 188-byte packets a second at that bitrate, rounded down. */
  function DatagramsPerSecond(bitrate: nat): (r: nat)
    ensures r * (7 * 8 * 188) <= bitrate < (r + 1) * (7 * 8 * 188)
  {
    bitrate / (TS_PACKETS_PER_DATAGRAM * 8 * 188)
  }

  /** Datagram k of the loop starts at packet i + 7k, holds seven packets and is sent at that packet's timestamp. */
  lemma {:induction false} FullDatagramAt(pkts: seq<seq<byte>>, ts: seq<nat>, i: nat, k: nat)
    requires |ts| == |pkts| && i <= |pkts| && k < |FullDatagrams(pkts, ts, i)|
    ensures i + TS_PACKETS_PER_DATAGRAM * k + TS_PACKETS_PER_DATAGRAM < |pkts|
    ensures FullDatagrams(pkts, ts, i)[k] == NewDatagram(pkts, ts, i + TS_PACKETS_PER_DATAGRAM * k, TS_PACKETS_PER_DATAGRAM)
    decreases k
  {
    if k > 0 {
      FullDatagramAt(pkts, ts, i + TS_PACKETS_PER_DATAGRAM, k - 1);
    }
  }

  /** The loop hands over (LoopEnd - i) / 7 datagrams. */
  lemma {:induction false} FullDatagramsCount(pkts: seq<seq<byte>>, ts: seq<nat>, i: nat)
    requires |ts| == |pkts| && i <= |pkts|
    ensures i + TS_PACKETS_PER_DATAGRAM * |FullDatagrams(pkts, ts, i)| == LoopEnd(|pkts|, i)
    decreases |pkts| - i
  {
    if i + TS_PACKETS_PER_DATAGRAM < |pkts| {
      FullDatagramsCount(pkts, ts, i + TS_PACKETS_PER_DATAGRAM);
    }
  }

  /** The loop's datagrams carry, in order, exactly the packets from i up to where it stops. */
  lemma {:induction false} FullDatagramsConserve(pkts: seq<seq<byte>>, ts: seq<nat>, i: nat)
    requires |ts| == |pkts| && i <= |pkts|
    ensures Flatten(FullDatagrams(pkts, ts, i)) + pkts[LoopEnd(|pkts|, i)..] == pkts[i..]
    decreases |pkts| - i
  {
    var j := i + TS_PACKETS_PER_DATAGRAM;
    if j < |pkts| {
      var d := NewDatagram(pkts, ts, i, TS_PACKETS_PER_DATAGRAM);
      var rest := FullDatagrams(pkts, ts, j);
      var tail := pkts[LoopEnd(|pkts|, j)..];
      assert FullDatagrams(pkts, ts, i) == [d] + rest;
      assert LoopEnd(|pkts|, i) == LoopEnd(|pkts|, j);
      FullDatagramsConserve(pkts, ts, j);
      FlattenAppend([d], rest);
      assert Flatten([d]) == d.payload by {
        assert [d][1..] == [];
      }
      AppendAssoc(d.payload, Flatten(rest), tail);
      assert pkts[i..] == pkts[i..j] + pkts[j..];
    } else {
      assert FullDatagrams(pkts, ts, i) == [] && LoopEnd(|pkts|, i) == i;
    }
  }

  /** With timestamps in order, the loop's datagrams are sent in order. */
  lemma FullDatagramsInTimeOrder(pkts: seq<seq<byte>>, ts: seq<nat>, i: nat)
    requires |ts| == |pkts| && i <= |pkts|
    requires forall a, b :: 0 <= a <= b < |ts| ==> ts[a] <= ts[b]
    ensures forall k, l :: 0 <= k <= l < |FullDatagrams(pkts, ts, i)| ==>
              FullDatagrams(pkts, ts, i)[k].sendTick <= FullDatagrams(pkts, ts, i)[l].sendTick
  {
    forall k, l | 0 <= k <= l < |FullDatagrams(pkts, ts, i)|
      ensures FullDatagrams(pkts, ts, i)[k].sendTick <= FullDatagrams(pkts, ts, i)[l].sendTick
    {
      FullDatagramAt(pkts, ts, i, k);
      FullDatagramAt(pkts, ts, i, l);
      MulLe(k, l, TS_PACKETS_PER_DATAGRAM);
      SendTickMonotone(ts[i + TS_PACKETS_PER_DATAGRAM * k], ts[i + TS_PACKETS_PER_DATAGRAM * l]);
    }
  }

  /**
   * push() loses, duplicates and reorders no packet: the packets handed
   * over, followed by those left pending, are the previously pending ones
   * followed by the new ones.
   */
  lemma EncapsulateConserves(pending: Option<Datagram>, pkts: seq<seq<byte>>, ts: seq<nat>)
    requires |ts| == |pkts| && (pending.Some? ==> |pending.value.payload| <= TS_PACKETS_PER_DATAGRAM)
    ensures var r := Encapsulate(pending, pkts, ts);
            Flatten(r.emitted) + PendingPackets(r.pending) == PendingPackets(pending) + pkts
  {
    var t := TopUp(pending, pkts);
    var r := Encapsulate(pending, pkts, ts);
    var full := FullDatagrams(pkts, ts, t.taken);
    var e := LoopEnd(|pkts|, t.taken);
    assert r.emitted == t.first + full;
    FlattenAppend(t.first, full);
    RestConserves(pkts, ts, t.taken, t.keep);
    // Flatten(full) + PendingPackets(r.pending) == PendingPackets(t.keep) + pkts[t.taken..]
    AppendAssoc(Flatten(t.first), Flatten(full), PendingPackets(r.pending));
    TopUpConserves(pending, pkts);
    // Flatten(t.first) + PendingPackets(t.keep) == PendingPackets(pending) + pkts[..t.taken]
    if t.keep.Some? {
      assert t.taken == |pkts| && full == [] && e == |pkts|;
      assert Flatten(full) == [] && pkts[t.taken..] == [];
      assert pkts[..t.taken] == pkts;
    } else {
      assert PendingPackets(t.keep) == [];
      AppendAssoc(PendingPackets(pending), pkts[..t.taken], pkts[t.taken..]);
      assert pkts[..t.taken] + pkts[t.taken..] == pkts;
    }
  }

  /** The topping up conserves packets: handed over or kept, the pending ones then the first taken ones. */
  lemma TopUpConserves(pending: Option<Datagram>, pkts: seq<seq<byte>>)
    requires pending.Some? ==> |pending.value.payload| <= TS_PACKETS_PER_DATAGRAM
    ensures var t := TopUp(pending, pkts);
            Flatten(t.first) + PendingPackets(t.keep) == PendingPackets(pending) + pkts[..t.taken]
            && (t.keep.Some? ==> t.taken == |pkts|)
  {
    var t := TopUp(pending, pkts);
    if pending.Some? {
      var d := pending.value.(payload := pending.value.payload + pkts[..t.taken]);
      if |d.payload| == TS_PACKETS_PER_DATAGRAM {
        assert t.first == [d];
        assert Flatten([d]) == d.payload by {
          assert [d][1..] == [];
        }
      }
    } else {
      assert pkts[..0] == [];
    }
  }

  /** The loop and the tail conserve the packets from start on. */
  lemma RestConserves(pkts: seq<seq<byte>>, ts: seq<nat>, start: nat, keep: Option<Datagram>)
    requires |ts| == |pkts| && start <= |pkts|
    requires keep.Some? ==> start == |pkts|
    ensures Flatten(FullDatagrams(pkts, ts, start)) + PendingPackets(Rest([], keep, pkts, ts, start).pending)
            == PendingPackets(keep) + pkts[start..]
  {
    var e := LoopEnd(|pkts|, start);
    FullDatagramsConserve(pkts, ts, start);
    if e < |pkts| {
      assert PendingPackets(Rest([], keep, pkts, ts, start).pending) == pkts[e..];
    } else {
      assert pkts[e..] == [];
    }
  }

  /** A datagram the loop cuts holds seven packets. */
  lemma FullDatagramsSized(pkts: seq<seq<byte>>, ts: seq<nat>, i: nat)
    requires |ts| == |pkts| && i <= |pkts|
    ensures forall k :: 0 <= k < |FullDatagrams(pkts, ts, i)| ==>
              |FullDatagrams(pkts, ts, i)[k].payload| == TS_PACKETS_PER_DATAGRAM
  {
    forall k | 0 <= k < |FullDatagrams(pkts, ts, i)|
      ensures |FullDatagrams(pkts, ts, i)[k].payload| == TS_PACKETS_PER_DATAGRAM
    {
      FullDatagramAt(pkts, ts, i, k);
    }
  }

  /**
   * Every datagram push() hands over holds seven packets, and the one it
   * leaves pending holds one to seven.
   */
  lemma EncapsulateShapes(pending: Option<Datagram>, pkts: seq<seq<byte>>, ts: seq<nat>)
    requires |ts| == |pkts| && PendingValid(pending)
    ensures var r := Encapsulate(pending, pkts, ts);
            && PendingValid(r.pending)
            && (forall k :: 0 <= k < |r.emitted| ==> |r.emitted[k].payload| == TS_PACKETS_PER_DATAGRAM)
  {
    var t := TopUp(pending, pkts);
    var r := Encapsulate(pending, pkts, ts);
    var full := FullDatagrams(pkts, ts, t.taken);
    assert r.emitted == t.first + full;
    FullDatagramsSized(pkts, ts, t.taken);
    var e := LoopEnd(|pkts|, t.taken);
    if e < |pkts| {
      assert r.pending == Some(NewDatagram(pkts, ts, e, |pkts| - e));
    } else {
      assert r.pending == t.keep;
    }
    forall k | 0 <= k < |r.emitted|
      ensures |r.emitted[k].payload| == TS_PACKETS_PER_DATAGRAM
    {
      if k >= |t.first| {
        assert r.emitted[k] == full[k - |t.first|];
      }
    }
  }

  /**
   * After the topped-up datagram, push() hands over datagram k of the new
   * packets as seven packets from the taken ones on, sent at the first
   * one's timestamp, to a destination still unset.
   */
  lemma EncapsulateDatagramAt(pending: Option<Datagram>, pkts: seq<seq<byte>>, ts: seq<nat>, k: nat)
    requires |ts| == |pkts| && PendingValid(pending)
    requires |TopUp(pending, pkts).first| <= k < |Encapsulate(pending, pkts, ts).emitted|
    ensures var i := TopUp(pending, pkts).taken + TS_PACKETS_PER_DATAGRAM * (k - |TopUp(pending, pkts).first|);
            i + TS_PACKETS_PER_DATAGRAM < |pkts|
            && Encapsulate(pending, pkts, ts).emitted[k] == Datagram("", 0, pkts[i..i + TS_PACKETS_PER_DATAGRAM], SendTick(ts[i]))
  {
    var t := TopUp(pending, pkts);
    var full := FullDatagrams(pkts, ts, t.taken);
    assert Encapsulate(pending, pkts, ts).emitted == t.first + full;
    FullDatagramAt(pkts, ts, t.taken, k - |t.first|);
  }
}
