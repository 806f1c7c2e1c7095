/**
 * The datagram muxer: one stream per destination, each with a FIFO of
 * timed datagrams, a burst builder that takes every datagram whose time
 * has come, round after round over the streams, and the sliding record of
 * burst sizes behind the output bandwidth estimate. Clock time points
 * are integer nanoseconds.
 */
module DatagramsMuxing {
  import opened Wrappers
  import opened FIFOs
  import opened Datagrams

  const NANOS_PER_MILLI: nat := 1_000_000
  const NANOS_PER_SECOND: nat := 1_000_000_000

  /** A stream's queue and time bases. */
  datatype StreamView = StreamView(queue: seq<Datagram>, syncPoint: int, isStartPointSet: bool, startPoint: int)

  ghost predicate EligibleView(v: StreamView, now: int)
  {
    v.queue != [] && v.queue[0].sendTick - v.syncPoint + (if v.isStartPointSet then v.startPoint else now) < now
  }

  /** A stream of datagrams for one destination, paced against the muxer's clock. */
  class Stream {
    const targetIp: string
    const targetPort: nat
    const fifo: FIFO<Datagram>
    /** Send tick of the last datagram pushed. */
    var tailSendTick: int
    var isSyncPointSet: bool
    /** Stream time zero: the send tick of the first datagram pushed. */
    var syncPoint: int
    var isStartPointSet: bool
    /** Muxer clock time at which the first datagram became available. */
    var startPoint: int
    /** Send tick of the last datagram popped, 0 before any. */
    var lastPoppedDatagramTick: int

    ghost predicate Valid()
      reads this, fifo
    {
      && fifo.Valid()
      && (fifo.elements != [] ==> isSyncPointSet)
      && forall k :: 0 <= k < |fifo.elements| ==>
           fifo.elements[k].targetIp == targetIp && fifo.elements[k].targetPort == targetPort
    }

    constructor (targetIp: string, targetPort: nat, fifoNumDatagrams: nat)
      requires targetPort < U16
      ensures Valid() && fresh(fifo) && fifo.elements == [] && fifo.cap == fifoNumDatagrams
      ensures this.targetIp == targetIp && this.targetPort == targetPort
      ensures !isSyncPointSet && !isStartPointSet && lastPoppedDatagramTick == 0
    {
      this.targetIp := targetIp;
      this.targetPort := targetPort;
      fifo := new FIFO(fifoNumDatagrams);
      isSyncPointSet := false;
      isStartPointSet := false;
      lastPoppedDatagramTick := 0;
    }

    /**
     * Whether the front datagram may be sent at `now`: its tick, moved from
     * the stream's time base to the muxer's, is strictly before now. A start
     * point not yet fixed will be fixed at now.
     */
    ghost predicate Eligible(now: int)
      reads this, fifo
    {
      EligibleView(View(), now)
    }

    /** The part of the stream's state the burst builder depends on. */
    ghost function View(): StreamView
      reads this, fifo
    {
      StreamView(fifo.elements, syncPoint, isStartPointSet, startPoint)
    }

    /**
     * Queues the datagram addressed to this stream's destination; the
     * first datagram fixes the stream's time base. The tail tick is
     * recorded once the FIFO has returned.
     */
    method Push(datagram: Datagram) returns (outcome: PushOutcome)
      requires Valid()
      modifies this, fifo`elements
      ensures Valid()
      ensures isSyncPointSet && syncPoint == if old(isSyncPointSet) then old(syncPoint) else datagram.sendTick
      ensures var d := datagram.(targetIp := targetIp, targetPort := targetPort);
              fifo.elements == if outcome == Inserted then old(fifo.elements) + [d] else old(fifo.elements)
      ensures outcome == Inserted <==> |old(fifo.elements)| < fifo.cap
      ensures outcome == Blocked <==> |old(fifo.elements)| >= fifo.cap && !fifo.unblockProducer
      ensures tailSendTick == if outcome == Blocked then old(tailSendTick) else datagram.sendTick
      ensures isStartPointSet == old(isStartPointSet) && startPoint == old(startPoint)
      ensures lastPoppedDatagramTick == old(lastPoppedDatagramTick)
    {
      if !isSyncPointSet {
        syncPoint := datagram.sendTick;
        isSyncPointSet := true;
      }
      var d := datagram.(targetIp := targetIp, targetPort := targetPort);
      outcome := fifo.Push(d);
      if outcome != Blocked {
        tailSendTick := d.sendTick;
      }
    }

    /**
     * Pops the front datagram when it is eligible at now. The first call
     * that finds a datagram fixes the start point at now.
     */
    method PopFrontDatagramElegible(now: int) returns (datagram: Option<Datagram>)
      requires Valid()
      modifies this, fifo`elements
      ensures Valid()
      ensures datagram.Some? <==> old(Eligible(now))
      ensures datagram.Some? ==> (old(fifo.elements) == [datagram.value] + fifo.elements
                                  && lastPoppedDatagramTick == datagram.value.sendTick)
      ensures datagram.None? ==> (fifo.elements == old(fifo.elements)
                                  && lastPoppedDatagramTick == old(lastPoppedDatagramTick)
                                  && !Eligible(now))
      ensures isStartPointSet == (old(isStartPointSet) || old(fifo.elements) != [])
      ensures startPoint == if old(isStartPointSet) || old(fifo.elements) == [] then old(startPoint) else now
      ensures syncPoint == old(syncPoint) && isSyncPointSet == old(isSyncPointSet)
      ensures tailSendTick == old(tailSendTick)
    {
      datagram := None;
      if fifo.ReadAvailable() > 0 {
        if !isStartPointSet {
          startPoint := now;
          isStartPointSet := true;
        }
        var normalizedDatagramTick := fifo.Front().sendTick - syncPoint + startPoint;
        if normalizedDatagramTick < now {
          var d := fifo.Front();
          fifo.Pop();
          datagram := Some(d);
          lastPoppedDatagramTick := d.sendTick;
        }
      }
    }

    /** Stream time buffered in the FIFO, from its front to the last datagram pushed, in whole milliseconds. */
    function BufferedTime(): (ms: int)
      reads this, fifo
      requires Valid()
      ensures fifo.elements == [] ==> ms == 0
      ensures fifo.elements != [] && tailSendTick >= fifo.elements[0].sendTick ==>
                ms * NANOS_PER_MILLI <= tailSendTick - fifo.elements[0].sendTick < (ms + 1) * NANOS_PER_MILLI
    {
      if fifo.ReadAvailable() > 0 then TruncDiv(tailSendTick - fifo.Front().sendTick, NANOS_PER_MILLI) else 0
    }

    /** The stream time reached: the last popped tick in the stream's time base, 0 before any was popped. */
    function GetTime(): (ns: int)
      reads this
      ensures lastPoppedDatagramTick > 0 ==> ns + syncPoint == lastPoppedDatagramTick
      ensures lastPoppedDatagramTick <= 0 ==> ns == 0
    {
      if lastPoppedDatagramTick > 0 then lastPoppedDatagramTick - syncPoint else 0
    }
  }

  /** A destination address, as the datagram names it. */
  datatype Endpoint = Endpoint(ip: string, port: int)

  /** Datagrams to send at one time, their destinations, and their total payload bytes. */
  datatype Burst = Burst(endpoints: seq<Endpoint>, datagrams: seq<Datagram>, size: nat)

  function EmptyBurst(): (b: Burst)
    ensures b.datagrams == [] && b.endpoints == [] && b.size == 0
  {
    Burst([], [], 0)
  }

  /** Total payload bytes of the datagrams. */
  function TotalPayload(ds: seq<Datagram>): nat
  {
    if ds == [] then 0 else TotalPayload(ds[..|ds| - 1]) + PayloadSize(ds[|ds| - 1])
  }

  function EndpointsOf(ds: seq<Datagram>): (r: seq<Endpoint>)
    ensures |r| == |ds|
    ensures forall k :: 0 <= k < |ds| ==> r[k] == Endpoint(ds[k].targetIp, ds[k].targetPort)
  {
    if ds == [] then [] else EndpointsOf(ds[..|ds| - 1]) + [Endpoint(ds[|ds| - 1].targetIp, ds[|ds| - 1].targetPort)]
  }

  /** The burst with the datagrams appended, their destinations beside them and their bytes counted. */
  function Extended(b: Burst, ds: seq<Datagram>): Burst
  {
    Burst(b.endpoints + EndpointsOf(ds), b.datagrams + ds, b.size + TotalPayload(ds))
  }

  lemma ExtendedAppend(b: Burst, ds: seq<Datagram>, d: Datagram)
    ensures Extended(Extended(b, ds), [d]) == Extended(b, ds + [d])
  {
    assert (ds + [d])[..|ds + [d]| - 1] == ds;
    assert [d][..0] == [];
    var e := Endpoint(d.targetIp, d.targetPort);
    assert EndpointsOf([d]) == [e];
    assert EndpointsOf(ds + [d]) == EndpointsOf(ds) + [e];
    assert TotalPayload([d]) == PayloadSize(d);
    assert TotalPayload(ds + [d]) == TotalPayload(ds) + PayloadSize(d);
    assert b.endpoints + EndpointsOf(ds) + [e] == b.endpoints + (EndpointsOf(ds) + [e]);
    assert b.datagrams + ds + [d] == b.datagrams + (ds + [d]);
  }

  lemma {:induction false} ExtendedConcat(b: Burst, a: seq<Datagram>, c: seq<Datagram>)
    ensures Extended(Extended(b, a), c) == Extended(b, a + c)
    decreases |c|
  {
    if c == [] {
      assert a + c == a;
      assert Extended(Extended(b, a), c) == Extended(b, a);
    } else {
      var n := |c| - 1;
      ExtendedConcat(b, a, c[..n]);
      ExtendedAppend(Extended(b, a), c[..n], c[n]);
      ExtendedAppend(b, a + c[..n], c[n]);
      assert c[..n] + [c[n]] == c;
      assert a + c[..n] + [c[n]] == a + c;
    }
  }

  /** The datagrams taken from stream i, in the order taken. */
  function Select(ds: seq<Datagram>, origins: seq<nat>, i: nat): seq<Datagram>
    requires |ds| == |origins|
  {
    if ds == [] then []
    else Select(ds[..|ds| - 1], origins[..|ds| - 1], i) + (if origins[|ds| - 1] == i then [ds[|ds| - 1]] else [])
  }

  lemma SelectAppend(ds: seq<Datagram>, origins: seq<nat>, d: Datagram, o: nat, i: nat)
    requires |ds| == |origins|
    ensures Select(ds + [d], origins + [o], i) == Select(ds, origins, i) + (if o == i then [d] else [])
  {
    assert (ds + [d])[..|ds|] == ds;
    assert (origins + [o])[..|ds|] == origins;
  }

  lemma {:induction false} SelectConcat(a: seq<Datagram>, oa: seq<nat>, b: seq<Datagram>, ob: seq<nat>, i: nat)
    requires |a| == |oa| && |b| == |ob|
    ensures Select(a + b, oa + ob, i) == Select(a, oa, i) + Select(b, ob, i)
    decreases |b|
  {
    if b == [] {
      assert a + b == a && oa + ob == oa;
    } else {
      var n := |b| - 1;
      SelectConcat(a, oa, b[..n], ob[..n], i);
      assert (a + b)[..|a + b| - 1] == a + b[..n];
      assert (oa + ob)[..|oa + ob| - 1] == oa + ob[..n];
    }
  }

  /** Appending k to origins all below k keeps them increasing and below k + 1. */
  lemma OriginsGrow(origins: seq<nat>, k: nat)
    requires forall m :: 0 <= m < |origins| ==> origins[m] < k
    requires forall m, l :: 0 <= m < l < |origins| ==> origins[m] < origins[l]
    ensures forall m :: 0 <= m < |origins + [k]| ==> (origins + [k])[m] < k + 1
    ensures forall m, l :: 0 <= m < l < |origins + [k]| ==> (origins + [k])[m] < (origins + [k])[l]
  {
  }

  /**
   * What a pass keeps after visiting the first k streams: the datagrams
   * taken so far (from stream origins[m], at most one per stream, in list
   * order) are exactly what left each stream's queue; the streams not yet
   * visited are as they were; and when nothing was taken, no visited
   * stream is eligible.
   */
  ghost predicate PassInvariant(start: seq<StreamView>, current: seq<StreamView>, k: nat,
                                taken: seq<Datagram>, origins: seq<nat>, now: int)
  {
    && k <= |start| && |current| == |start| && |origins| == |taken|
    && (forall m, l :: 0 <= m < l < |origins| ==> origins[m] < origins[l])
    && (forall m :: 0 <= m < |origins| ==> origins[m] < k)
    && (forall i :: 0 <= i < |start| ==> start[i].queue == Select(taken, origins, i) + current[i].queue)
    && (forall j :: k <= j < |start| ==> current[j] == start[j])
    && (taken == [] ==> forall j :: 0 <= j < k ==> !EligibleView(current[j], now))
    && Queued(current) + |taken| == Queued(start)
  }

  /** What a burst keeps over its rounds: the datagrams taken are exactly what left the queues. */
  ghost predicate BurstInvariant(start: seq<StreamView>, current: seq<StreamView>,
                                 taken: seq<Datagram>, origins: seq<nat>)
  {
    && |current| == |start| && |origins| == |taken|
    && (forall m :: 0 <= m < |origins| ==> origins[m] < |start|)
    && (forall i :: 0 <= i < |start| ==> start[i].queue == Select(taken, origins, i) + current[i].queue)
    && Queued(current) + |taken| == Queued(start)
  }

  /** A round composes with the rounds before it. */
  lemma RoundStep(start: seq<StreamView>, before: seq<StreamView>, after: seq<StreamView>,
                  taken: seq<Datagram>, origins: seq<nat>, passTaken: seq<Datagram>, passOrigins: seq<nat>, now: int)
    requires BurstInvariant(start, before, taken, origins)
    requires PassInvariant(before, after, |before|, passTaken, passOrigins, now)
    ensures BurstInvariant(start, after, taken + passTaken, origins + passOrigins)
  {
    var allOrigins := origins + passOrigins;
    forall m | 0 <= m < |allOrigins|
      ensures allOrigins[m] < |start|
    {
      if m < |origins| {
        assert allOrigins[m] == origins[m];
      } else {
        assert allOrigins[m] == passOrigins[m - |origins|];
      }
    }
    forall i | 0 <= i < |start|
      ensures start[i].queue == Select(taken + passTaken, allOrigins, i) + after[i].queue
    {
      RoundStepAt(start[i].queue, before[i].queue, after[i].queue, taken, origins, passTaken, passOrigins, i);
    }
  }

  /** One stream's share of RoundStep. */
  lemma RoundStepAt(startQueue: seq<Datagram>, beforeQueue: seq<Datagram>, afterQueue: seq<Datagram>,
                    taken: seq<Datagram>, origins: seq<nat>, passTaken: seq<Datagram>, passOrigins: seq<nat>, i: nat)
    requires |taken| == |origins| && |passTaken| == |passOrigins|
    requires startQueue == Select(taken, origins, i) + beforeQueue
    requires beforeQueue == Select(passTaken, passOrigins, i) + afterQueue
    ensures startQueue == Select(taken + passTaken, origins + passOrigins, i) + afterQueue
  {
    SelectConcat(taken, origins, passTaken, passOrigins, i);
    assert Select(taken, origins, i) + (Select(passTaken, passOrigins, i) + afterQueue)
        == Select(taken, origins, i) + Select(passTaken, passOrigins, i) + afterQueue;
  }

  /** Visiting stream k, which pops its front or leaves its queue as it was, keeps the pass invariant. */
  lemma PassStep(start: seq<StreamView>, before: seq<StreamView>, after: seq<StreamView>, k: nat,
                 taken: seq<Datagram>, origins: seq<nat>, pick: Option<Datagram>, now: int)
    requires PassInvariant(start, before, k, taken, origins, now) && k < |start|
    requires |after| == |before| && after == before[k := after[k]]
    requires pick.Some? ==> before[k].queue == [pick.value] + after[k].queue
    requires pick.None? ==> after[k].queue == before[k].queue && !EligibleView(after[k], now)
    ensures pick.Some? ==> PassInvariant(start, after, k + 1, taken + [pick.value], origins + [k], now)
    ensures pick.None? ==> PassInvariant(start, after, k + 1, taken, origins, now)
  {
    QueuedUpdate(before, k, after[k]);
    if pick.Some? {
      var d := pick.value;
      var taken', origins' := taken + [d], origins + [k];
      forall i | 0 <= i < |start|
        ensures start[i].queue == Select(taken', origins', i) + after[i].queue
      {
        if i != k {
          assert after[i] == before[i];
        }
        ConserveStep(taken, origins, d, k, i, start[i].queue, before[i].queue, after[i].queue);
      }
      OriginsGrow(origins, k);
    } else {
      forall i | 0 <= i < |start|
        ensures start[i].queue == Select(taken, origins, i) + after[i].queue
      {
        assert start[i].queue == Select(taken, origins, i) + before[i].queue;
      }
    }
  }

  /** One stream's share of PassStep: what left its queue, with d taken from stream k. */
  lemma ConserveStep(taken: seq<Datagram>, origins: seq<nat>, d: Datagram, k: nat, i: nat,
                     startQueue: seq<Datagram>, beforeQueue: seq<Datagram>, afterQueue: seq<Datagram>)
    requires |taken| == |origins| && startQueue == Select(taken, origins, i) + beforeQueue
    requires i == k ==> beforeQueue == [d] + afterQueue
    requires i != k ==> afterQueue == beforeQueue
    ensures startQueue == Select(taken + [d], origins + [k], i) + afterQueue
  {
    SelectAppend(taken, origins, d, k, i);
    if i == k {
      assert Select(taken, origins, i) + ([d] + afterQueue) == Select(taken, origins, i) + [d] + afterQueue;
    }
  }

  /** The number of datagrams queued over all streams. */
  function Queued(vs: seq<StreamView>): nat
  {
    if vs == [] then 0 else Queued(vs[..|vs| - 1]) + |vs[|vs| - 1].queue|
  }

  /** Replacing one stream's view changes the total by the change of that stream's queue. */
  lemma {:induction false} QueuedUpdate(vs: seq<StreamView>, k: nat, v: StreamView)
    requires k < |vs|
    ensures Queued(vs[k := v]) + |vs[k].queue| == Queued(vs) + |v.queue|
    decreases |vs|
  {
    var n := |vs| - 1;
    if k < n {
      assert vs[k := v][..n] == vs[..n][k := v];
      QueuedUpdate(vs[..n], k, v);
    } else {
      assert vs[k := v][..n] == vs[..n];
    }
  }

  /** One record of the output bandwidth window: a burst's time and size in bytes. */
  datatype BurstRecord = BurstRecord(t: int, size: nat)

  /** The window before a new record goes in: the oldest record leaves once the window spans a second. */
  function Trimmed(l: seq<BurstRecord>): (r: seq<BurstRecord>)
    ensures r == l || (|l| > 1 && r == l[1..])
    ensures r != l <==> |l| > 1 && l[|l| - 1].t - l[0].t >= NANOS_PER_SECOND
  {
    if |l| > 1 && l[|l| - 1].t - l[0].t >= NANOS_PER_SECOND then l[1..] else l
  }

  /** Total bytes of the records. */
  function TotalSize(l: seq<BurstRecord>): nat
  {
    if l == [] then 0 else TotalSize(l[..|l| - 1]) + l[|l| - 1].size
  }

  /** Whether the gap ending at record j is measured: the record before it has a positive time. */
  predicate Measured(l: seq<BurstRecord>, j: int)
  {
    1 <= j < |l| && l[j - 1].t > 0
  }

  /** The longest measured gap between consecutive records, 0 when none is positive. */
  function MaxGap(l: seq<BurstRecord>): int
  {
    if |l| < 2 then 0
    else
      var m := MaxGap(l[..|l| - 1]);
      var n := |l| - 1;
      if l[n - 1].t > 0 && l[n].t - l[n - 1].t > m then l[n].t - l[n - 1].t else m
  }

  /** MaxGap bounds every measured gap, is never negative, and is 0 or one of the gaps. */
  lemma MaxGapIsMaximum(l: seq<BurstRecord>)
    ensures MaxGap(l) >= 0
    ensures forall j :: Measured(l, j) ==> l[j].t - l[j - 1].t <= MaxGap(l)
    ensures MaxGap(l) == 0 || exists j :: Measured(l, j) && l[j].t - l[j - 1].t == MaxGap(l)
  {
    MaxGapBounds(l);
    MaxGapAttained(l);
  }

  lemma {:induction false} MaxGapBounds(l: seq<BurstRecord>)
    ensures MaxGap(l) >= 0
    ensures forall j :: Measured(l, j) ==> l[j].t - l[j - 1].t <= MaxGap(l)
    decreases |l|
  {
    if |l| >= 2 {
      var n := |l| - 1;
      var p := l[..n];
      MaxGapBounds(p);
      assert MaxGap(l) >= MaxGap(p);
      forall j | Measured(l, j)
        ensures l[j].t - l[j - 1].t <= MaxGap(l)
      {
        if j < n {
          assert p[j] == l[j] && p[j - 1] == l[j - 1];
          assert Measured(p, j);
        }
      }
    }
  }

  lemma {:induction false} MaxGapAttained(l: seq<BurstRecord>)
    ensures MaxGap(l) == 0 || exists j :: Measured(l, j) && l[j].t - l[j - 1].t == MaxGap(l)
    decreases |l|
  {
    if |l| >= 2 {
      var n := |l| - 1;
      var p := l[..n];
      MaxGapAttained(p);
      if MaxGap(l) != 0 {
        if MaxGap(l) == MaxGap(p) {
          var j :| Measured(p, j) && p[j].t - p[j - 1].t == MaxGap(p);
          assert p[j] == l[j] && p[j - 1] == l[j - 1];
          assert Measured(l, j);
        } else {
          assert Measured(l, n);
        }
      }
    }
  }

  /** Times strictly increasing along the window. */
  predicate Increasing(l: seq<BurstRecord>)
  {
    forall m, n :: 0 <= m < n < |l| ==> l[m].t < l[n].t
  }

  /**
   * Recording bursts at increasing times keeps the window increasing, so it
   * always spans a positive time once it holds two records; the window loses
   * at most its oldest record.
   */
  lemma KeepBitrateStatsKeepsOrder(l: seq<BurstRecord>, now: int, size: nat)
    requires Increasing(l) && (l != [] ==> l[|l| - 1].t < now)
    ensures var r := Trimmed(l) + [BurstRecord(now, size)];
            && Increasing(r) && (|r| > 1 ==> r[|r| - 1].t > r[0].t)
            && (|r| == |l| + 1 || |r| == |l|) && r[..|r| - 1] == l[|l| + 1 - |r|..]
  {
    var t := Trimmed(l);
    var x := BurstRecord(now, size);
    var r := t + [x];
    assert r[..|r| - 1] == t;
    assert forall m :: 0 <= m < |t| ==> t[m].t < now;
    forall m, n | 0 <= m < n < |r|
      ensures r[m].t < r[n].t
    {
      if n < |t| {
        assert r[m] == t[m] && r[n] == t[n];
      }
    }
  }

  class DatagramsMuxer {
    var streams: seq<Stream>
    /** Recent bursts, oldest first. */
    var lastBurstsSizes: seq<BurstRecord>

    /** The streams and their FIFOs. */
    ghost var Repr: set<object>

    /** Streams and their FIFOs are all distinct, and each stream is valid. */
    ghost predicate Valid()
      reads this, Repr
    {
      && this !in Repr
      && (forall i :: 0 <= i < |streams| ==> streams[i] in Repr && streams[i].fifo in Repr)
      && (forall i, j :: 0 <= i < j < |streams| ==> streams[i] != streams[j] && streams[i].fifo != streams[j].fifo)
      && (forall i :: 0 <= i < |streams| ==> streams[i].Valid())
    }

    constructor ()
      ensures Valid() && streams == [] && lastBurstsSizes == [] && Repr == {}
    {
      streams := [];
      lastBurstsSizes := [];
      Repr := {};
    }

    /** Adds a stream for that destination at the end of the list and returns it. */
    method CreateStream(targetIp: string, targetPort: nat, fifoNumDatagrams: nat) returns (s: Stream)
      requires Valid() && targetPort < U16
      modifies this`streams, this`Repr
      ensures Valid() && streams == old(streams) + [s] && fresh(s) && fresh(s.fifo)
      ensures Repr == old(Repr) + {s, s.fifo}
      ensures s.targetIp == targetIp && s.targetPort == targetPort && s.fifo.cap == fifoNumDatagrams
      ensures s.fifo.elements == [] && !s.isSyncPointSet && !s.isStartPointSet
    {
      s := new Stream(targetIp, targetPort, fifoNumDatagrams);
      streams := streams + [s];
      Repr := Repr + {s, s.fifo};
    }

    /** The views of the streams, in order. */
    ghost function Views(): (r: seq<StreamView>)
      reads this, Repr
      requires Valid()
      ensures |r| == |streams|
      ensures forall k :: 0 <= k < |streams| ==> r[k] == streams[k].View()
    {
      ViewsUpTo(|streams|)
    }

    ghost function ViewsUpTo(n: nat): (r: seq<StreamView>)
      reads this, Repr
      requires Valid() && n <= |streams|
      ensures |r| == n
      ensures forall k :: 0 <= k < n ==> r[k] == streams[k].View()
    {
      if n == 0 then [] else ViewsUpTo(n - 1) + [streams[n - 1].View()]
    }

    /**
     * One round over the streams, in list order: each stream's front is
     * taken when eligible, at most one per stream.
     */
    method BurstPass(now: int, b0: Burst) returns (b: Burst, added: bool, ghost taken: seq<Datagram>, ghost origins: seq<nat>)
      requires Valid()
      modifies Repr
      ensures Valid() && b == Extended(b0, taken) && (added <==> taken != [])
      ensures PassInvariant(old(Views()), Views(), |streams|, taken, origins, now)
    {
      ghost var start := Views();
      b := b0;
      added := false;
      taken := [];
      origins := [];
      var k: nat := 0;
      while k < |streams|
        invariant 0 <= k <= |streams| && Valid()
        invariant b == Extended(b0, taken) && (added <==> taken != [])
        invariant PassInvariant(start, Views(), k, taken, origins, now)
      {
        b, added, taken, origins := PassVisit(now, k, start, b0, b, added, taken, origins);
        k := k + 1;
      }
    }

    /** One stream's turn in a round: its front joins the burst when eligible. */
    method PassVisit(now: int, k: nat, ghost start: seq<StreamView>, b0: Burst, b: Burst, added: bool,
                     ghost taken: seq<Datagram>, ghost origins: seq<nat>)
      returns (b': Burst, added': bool, ghost taken': seq<Datagram>, ghost origins': seq<nat>)
      requires Valid() && k < |streams|
      requires b == Extended(b0, taken) && (added <==> taken != [])
      requires PassInvariant(start, Views(), k, taken, origins, now)
      modifies streams[k], streams[k].fifo`elements
      ensures Valid() && b' == Extended(b0, taken') && (added' <==> taken' != [])
      ensures PassInvariant(start, Views(), k + 1, taken', origins', now)
    {
      ghost var before := Views();
      var pick := Visit(now, k);
      PassStep(start, before, Views(), k, taken, origins, pick, now);
      b', added', taken', origins' := b, added, taken, origins;
      if pick.Some? {
        ExtendedAppend(b0, taken, pick.value);
        b' := Extended(b, [pick.value]);
        added' := true;
        taken', origins' := taken + [pick.value], origins + [k];
      }
    }

    /**
     * Builds the burst at now: rounds over the streams until one takes
     * nothing. Afterwards no stream has an eligible front, and the burst
     * has gained exactly the datagrams that left the queues, each queue's
     * in its order.
     */
    method PrepareBurst(now: int, burst: Burst) returns (b: Burst, ghost taken: seq<Datagram>, ghost origins: seq<nat>)
      requires Valid()
      modifies Repr
      ensures Valid() && b == Extended(burst, taken)
      ensures BurstInvariant(old(Views()), Views(), taken, origins)
      ensures forall i :: 0 <= i < |streams| ==> !EligibleView(Views()[i], now)
    {
      ghost var start := Views();
      b := burst;
      taken, origins := [], [];
      var datagramsAdded := true;
      while datagramsAdded
        invariant Valid() && b == Extended(burst, taken)
        invariant BurstInvariant(start, Views(), taken, origins)
        invariant !datagramsAdded ==> forall i :: 0 <= i < |streams| ==> !EligibleView(Views()[i], now)
        decreases Queued(Views()), datagramsAdded
      {
        b, datagramsAdded, taken, origins := Round(now, burst, b, start, taken, origins);
      }
    }

    /** One iteration of PrepareBurst: a pass, accounted against the burst's start. */
    method Round(now: int, burst: Burst, b0: Burst, ghost start: seq<StreamView>,
                 ghost taken0: seq<Datagram>, ghost origins0: seq<nat>)
      returns (b: Burst, added: bool, ghost taken: seq<Datagram>, ghost origins: seq<nat>)
      requires Valid() && b0 == Extended(burst, taken0) && BurstInvariant(start, Views(), taken0, origins0)
      modifies Repr
      ensures Valid() && b == Extended(burst, taken) && BurstInvariant(start, Views(), taken, origins)
      ensures Queued(Views()) <= old(Queued(Views())) && (added ==> Queued(Views()) < old(Queued(Views())))
      ensures !added ==> forall i :: 0 <= i < |streams| ==> !EligibleView(Views()[i], now)
    {
      ghost var before := Views();
      ghost var passTaken, passOrigins;
      b, added, passTaken, passOrigins := BurstPass(now, b0);
      ExtendedConcat(burst, taken0, passTaken);
      RoundStep(start, before, Views(), taken0, origins0, passTaken, passOrigins, now);
      taken, origins := taken0 + passTaken, origins0 + passOrigins;
    }

    /** Pass step k: pops stream k's front when it is eligible; no other stream changes. */
    method Visit(now: int, k: nat) returns (pick: Option<Datagram>)
      requires Valid() && k < |streams|
      modifies streams[k], streams[k].fifo`elements
      ensures Valid()
      ensures Views() == old(Views())[k := Views()[k]]
      ensures pick.Some? ==> old(Views())[k].queue == [pick.value] + Views()[k].queue
      ensures pick.None? ==> Views()[k].queue == old(Views())[k].queue && !EligibleView(Views()[k], now)
    {
      var stream := streams[k];
      pick := stream.PopFrontDatagramElegible(now);
      forall j | 0 <= j < |streams| && j != k
        ensures unchanged(streams[j], streams[j].fifo) && streams[j].Valid()
      {
        assert streams[j] != stream && streams[j].fifo != stream.fifo;
        assert old(streams[j].Valid());
      }
      assert forall j :: 0 <= j < |streams| ==> streams[j].Valid();
    }

    /**
     * Records a sent burst: once the window holds more than one record and
     * spans at least a second, the oldest record is dropped first.
     */
    method KeepBitrateStats(now: int, burst: Burst)
      modifies this`lastBurstsSizes
      ensures lastBurstsSizes == Trimmed(old(lastBurstsSizes)) + [BurstRecord(now, burst.size)]
    {
      if |lastBurstsSizes| > 1 {
        var listDuration := lastBurstsSizes[|lastBurstsSizes| - 1].t - lastBurstsSizes[0].t;
        if listDuration >= NANOS_PER_SECOND {
          lastBurstsSizes := lastBurstsSizes[1..];
        }
      }
      lastBurstsSizes := lastBurstsSizes + [BurstRecord(now, burst.size)];
    }

    /**
     * The output bandwidth over the window, in bits per second, and the
     * longest gap between consecutive bursts. Fewer than two records give
     * 0 and 0.
     */
    method GetOutputBandwidth() returns (bitrate: nat, maxBurst: int)
      requires |lastBurstsSizes| > 1 ==> lastBurstsSizes[|lastBurstsSizes| - 1].t > lastBurstsSizes[0].t
      ensures maxBurst == if |lastBurstsSizes| > 1 then MaxGap(lastBurstsSizes) else 0
      ensures |lastBurstsSizes| <= 1 ==> bitrate == 0
      ensures |lastBurstsSizes| > 1 ==>
                var span := lastBurstsSizes[|lastBurstsSizes| - 1].t - lastBurstsSizes[0].t;
                bitrate * span <= TotalSize(lastBurstsSizes) * 8 * NANOS_PER_SECOND < (bitrate + 1) * span
    {
      bitrate, maxBurst := 0, 0;
      if |lastBurstsSizes| > 1 {
        var bytes;
        bytes, maxBurst := SumAndMaxGap(lastBurstsSizes);
        var nanoseconds := lastBurstsSizes[|lastBurstsSizes| - 1].t - lastBurstsSizes[0].t;
        bitrate := bytes * 8 * NANOS_PER_SECOND / nanoseconds;
        FloorDivBracket(bytes * 8 * NANOS_PER_SECOND, nanoseconds);
      }
    }
  }

  /** The loop of GetOutputBandwidth: the bytes of the window and its longest measured gap. */
  method SumAndMaxGap(burstSizes: seq<BurstRecord>) returns (bytes: nat, maxBurst: int)
    ensures bytes == TotalSize(burstSizes) && maxBurst == MaxGap(burstSizes)
  {
    bytes, maxBurst := 0, 0;
    var prevBurstT := 0;
    var i := 0;
    while i < |burstSizes|
      invariant 0 <= i <= |burstSizes|
      invariant bytes == TotalSize(burstSizes[..i])
      invariant maxBurst == MaxGap(burstSizes[..i])
      invariant prevBurstT == if i == 0 then 0 else burstSizes[i - 1].t
    {
      var burst := burstSizes[i];
      assert burstSizes[..i + 1][..i] == burstSizes[..i];
      if prevBurstT > 0 {
        var burstDelta := burst.t - prevBurstT;
        if burstDelta > maxBurst {
          maxBurst := burstDelta;
        }
      }
      bytes := bytes + burst.size;
      prevBurstT := burst.t;
      i := i + 1;
    }
    assert burstSizes[..i] == burstSizes;
  }

  /** The floor quotient brackets the dividend. */
  lemma FloorDivBracket(x: nat, d: int)
    requires d > 0
    ensures (x / d) * d <= x < (x / d + 1) * d
  {
  }
}
