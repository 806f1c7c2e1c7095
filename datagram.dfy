/**
 * A datagram to be sent at a point in time: its destination, its payload
 * of transport stream packets and its send tick in nanoseconds.
 */
module Datagrams {
  import opened Wrappers

  datatype Datagram = Datagram(targetIp: string, targetPort: int, payload: seq<seq<byte>>, sendTick: int)

  /** Total bytes of a list of packets. */
  function SizeOf(pkts: seq<seq<byte>>): nat
  {
    if pkts == [] then 0 else |pkts[0]| + SizeOf(pkts[1..])
  }

  /** The payload size in bytes. */
  function PayloadSize(d: Datagram): nat
  {
    SizeOf(d.payload)
  }

  /** Packets of the datagrams' payloads, in order. */
  function Flatten(ds: seq<Datagram>): seq<seq<byte>>
  {
    if ds == [] then [] else ds[0].payload + Flatten(ds[1..])
  }

  lemma {:induction false} FlattenAppend(a: seq<Datagram>, b: seq<Datagram>)
    ensures Flatten(a + b) == Flatten(a) + Flatten(b)
    decreases |a|
  {
    if a == [] {
      assert a + b == b;
    } else {
      assert (a + b)[1..] == a[1..] + b;
      FlattenAppend(a[1..], b);
    }
  }
}
