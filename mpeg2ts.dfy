/**
 * MPEG-2 transport stream packets: header and adaptation-field accessors,
 * the program clock reference (PCR) and its wrap-around difference, and
 * the null test packet, following section 2.4.3 of ISO/IEC 13818-1.
 *
 * Bytes are numbers below 256; the C++ masks and shifts on them are written
 * as the equivalent divisions and remainders by powers of two.
 */
module MPEG2TS {
  import opened Wrappers

  const SYNC_BYTE: byte := 0x47

  /** The largest PCR value: a 33-bit base times 300 plus the largest extension below 300. */
  const PCR_MAX_VALUE: int := (0x2_0000_0000 - 1) * 300 + 299

  /** PCR ticks per second. */
  const PCR_CLOCK_FREQUENCY: int := 27000000

  /** A 188-byte null packet: PID 0x1FFF, payload only, continuity counter 0, stuffing 0xFF. */
  const TS_NULL_188: seq<byte> := [0x47, 0x1F, 0xFF, 0x10] + seq(184, _ => 0xFF)

  lemma NullPacketBytes()
    ensures |TS_NULL_188| == 188
    ensures TS_NULL_188[0] == 0x47 && TS_NULL_188[1] == 0x1F && TS_NULL_188[2] == 0xFF && TS_NULL_188[3] == 0x10
    ensures forall i :: 4 <= i < 188 ==> TS_NULL_188[i] == 0xFF
  {
  }

  /** The null packet is a valid packet of PID 0x1FFF (the null PID) carrying only payload. */
  lemma NullPacketHeader()
    ensures Pid(TS_NULL_188) == 0x1FFF && Afc(TS_NULL_188) == 1 && Cc(TS_NULL_188) == 0
    ensures TS_NULL_188[0] == SYNC_BYTE && HasPayload(TS_NULL_188) && !HasAF(TS_NULL_188)
  {
    NullPacketBytes();
  }

  /** Big-endian 16-bit word at p[i]. */
  function Word16(p: seq<byte>, i: nat): (w: int)
    requires i + 2 <= |p|
    ensures 0 <= w < U16
    ensures w / 0x100 == p[i] && w % 0x100 == p[i + 1]
  {
    DivModUnique(p[i] as int * 0x100 + p[i + 1], 0x100, p[i], p[i + 1]);
    p[i] as int * 0x100 + p[i + 1]
  }

  /** Big-endian 32-bit word at p[i]. */
  function Word32(p: seq<byte>, i: nat): (w: int)
    requires i + 4 <= |p|
    ensures 0 <= w < U32
    ensures w / 0x1_0000 == Word16(p, i) && w % 0x1_0000 == Word16(p, i + 2)
  {
    DivModUnique(Word16(p, i) * 0x1_0000 + Word16(p, i + 2), 0x1_0000, Word16(p, i), Word16(p, i + 2));
    Word16(p, i) * 0x1_0000 + Word16(p, i + 2)
  }

  /** Continuity counter: the low nibble of byte 3. */
  function Cc(p: seq<byte>): (r: int)
    requires |p| >= 4
    ensures 0 <= r < 16 && 16 * (p[3] / 16) + r == p[3]
  {
    p[3] % 16
  }

  /** The PID: the low 13 bits of the big-endian word in bytes 1 and 2. */
  function Pid(p: seq<byte>): (r: int)
    requires |p| >= 3
    ensures 0 <= r < 0x2000
    ensures r == (p[1] % 0x20) as int * 0x100 + p[2]
  {
    DivModUnique(Word16(p, 1), 0x2000, p[1] / 0x20, (p[1] % 0x20) as int * 0x100 + p[2]);
    Word16(p, 1) % 0x2000
  }

  /** Adaptation field control: bits 4 and 5 of byte 3. */
  function Afc(p: seq<byte>): (r: int)
    requires |p| >= 4
    ensures 0 <= r < 4
    ensures 64 * (p[3] / 64) + 16 * r + Cc(p) == p[3]
  {
    (p[3] / 16) % 4
  }

  predicate HasPayload(p: seq<byte>)
    requires |p| >= 4
  {
    Afc(p) == 1 || Afc(p) == 3
  }

  /** Bit 0x20 of byte 3. */
  predicate HasAF(p: seq<byte>)
    requires |p| >= 4
  {
    (p[3] / 0x20) % 2 == 1
  }

  /** A payload is present exactly when the payload bit (0x10) of byte 3 is set. */
  lemma HasPayloadIsPayloadBit(p: seq<byte>)
    requires |p| >= 4
    ensures HasPayload(p) <==> (p[3] / 0x10) % 2 == 1
  {
  }

  /** An adaptation field is present exactly when the field control is 2 or 3. */
  lemma HasAFIsFieldControl(p: seq<byte>)
    requires |p| >= 4
    ensures HasAF(p) <==> Afc(p) >= 2
  {
  }

  /** Length byte of the adaptation field, or 0 when there is none. */
  function AfSize(p: seq<byte>): (r: int)
    requires |p| >= 5
    ensures 0 <= r < 256
    ensures r > 0 ==> HasAF(p) && r == p[4]
    ensures HasAF(p) ==> r == p[4]
  {
    if HasAF(p) then p[4] else 0
  }

  /** The PCR flag (bit 0x10 of byte 5) of a non-empty adaptation field. */
  predicate HasPCR(p: seq<byte>)
    requires |p| >= 6
  {
    AfSize(p) > 0 && (p[5] / 0x10) % 2 == 1
  }

  /** A PCR is present exactly when there is an adaptation field of non-zero length with its PCR flag set. */
  lemma HasPCRIsFlag(p: seq<byte>)
    requires |p| >= 6
    ensures HasPCR(p) <==> Afc(p) >= 2 && p[4] != 0 && (p[5] / 0x10) % 2 == 1
  {
  }

  /** The 33-bit PCR base: bytes 6..9 followed by the top bit of byte 10. */
  function PcrBase(p: seq<byte>): (b: int)
    requires |p| >= 12
    ensures 0 <= b < 0x2_0000_0000
    ensures b / 2 == Word32(p, 6) && b % 2 == p[10] / 0x80
  {
    DivModUnique(Word16(p, 10), 0x8000, p[10] / 0x80, (p[10] % 0x80) as int * 0x100 + p[11]);
    DivModUnique(Word32(p, 6) * 2 + p[10] / 0x80, 2, Word32(p, 6), p[10] / 0x80);
    Word32(p, 6) * 2 + Word16(p, 10) / 0x8000
  }

  /** The 9-bit PCR extension: the low bit of byte 10 and byte 11. */
  function PcrExt(p: seq<byte>): (e: int)
    requires |p| >= 12
    ensures 0 <= e < 0x200
    ensures e / 0x100 == p[10] % 2 && e % 0x100 == p[11]
  {
    DivModUnique(Word16(p, 10), 0x200, p[10] / 2, (p[10] % 2) as int * 0x100 + p[11]);
    DivModUnique((p[10] % 2) as int * 0x100 + p[11], 0x100, p[10] % 2, p[11]);
    Word16(p, 10) % 0x200
  }

  /** The PCR in 27 MHz ticks: base times 300 plus extension. */
  function Pcr(p: seq<byte>): (r: int)
    requires |p| >= 12
    ensures 0 <= r < U64
  {
    PcrBase(p) * 300 + PcrExt(p)
  }

  /**
   * Dividing a PCR by 300 recovers its 90 kHz base, and the remainder its
   * extension, whenever the extension is in its defined range below 300;
   * such a PCR never exceeds PCR_MAX_VALUE.
   */
  lemma PcrFields(p: seq<byte>)
    requires |p| >= 12
    ensures Pcr(p) / 300 == PcrBase(p) + PcrExt(p) / 300
    ensures PcrExt(p) < 300 ==> Pcr(p) <= PCR_MAX_VALUE && Pcr(p) / 300 == PcrBase(p) && Pcr(p) % 300 == PcrExt(p)
  {
  }

  /**
   * Ticks elapsed from pcrN to pcrN1 on the wrapping PCR clock, computed in
   * unsigned 64-bit arithmetic.
   */
  function PcrSub(pcrN: int, pcrN1: int): (r: int)
    requires 0 <= pcrN < U64 && 0 <= pcrN1 < U64
    ensures 0 <= r < U64
    ensures pcrN <= PCR_MAX_VALUE && pcrN1 <= PCR_MAX_VALUE ==>
              r <= PCR_MAX_VALUE && r == (pcrN1 - pcrN) % (PCR_MAX_VALUE + 1)
  {
    if pcrN1 >= pcrN then pcrN1 - pcrN else (pcrN1 + PCR_MAX_VALUE - pcrN + 1) % U64
  }

  /** Advancing a valid PCR by d ticks (with wrap-around) and subtracting gives back d. */
  lemma PcrSubAfterAdd(pcr: int, d: int)
    requires 0 <= pcr <= PCR_MAX_VALUE && 0 <= d <= PCR_MAX_VALUE
    ensures PcrSub(pcr, (pcr + d) % (PCR_MAX_VALUE + 1)) == d
  {
    var later := (pcr + d) % (PCR_MAX_VALUE + 1);
    if pcr + d <= PCR_MAX_VALUE {
      assert later == pcr + d;
    } else {
      assert later == pcr + d - (PCR_MAX_VALUE + 1);
    }
  }

  /** Bitwise AND of two naturals, bit by bit from the lowest. */
  function BitAnd(a: nat, b: nat): (r: nat)
    ensures r <= a && r <= b
  {
    if a == 0 || b == 0 then 0
    else 2 * BitAnd(a / 2, b / 2) + (if a % 2 == 1 && b % 2 == 1 then 1 else 0)
  }

  /** Bit k of x, counted from the lowest. */
  function BitOf(x: nat, k: nat): (r: nat)
    ensures r < 2
  {
    if k == 0 then x % 2 else BitOf(x / 2, k - 1)
  }

  lemma {:induction false} BitOfZero(k: nat)
    ensures BitOf(0, k) == 0
  {
    if k > 0 {
      BitOfZero(k - 1);
    }
  }

  /** A bit of the AND is set exactly when it is set in both operands. */
  lemma {:induction false} BitAndBits(a: nat, b: nat, k: nat)
    ensures BitOf(BitAnd(a, b), k) == 1 <==> BitOf(a, k) == 1 && BitOf(b, k) == 1
  {
    if a == 0 || b == 0 {
      BitOfZero(k);
    } else if k > 0 {
      assert BitAnd(a, b) / 2 == BitAnd(a / 2, b / 2);
      BitAndBits(a / 2, b / 2, k - 1);
    }
  }

  /** The continuity-counter byte written by setCC: high nibble kept, low nibble from cc. */
  function WithCc(b: byte, cc: byte): (r: byte)
    ensures r / 16 == b / 16 && r % 16 == cc % 16
  {
    DivModUnique((b / 16) * 16 + cc % 16, 16, b / 16, cc % 16);
    (b / 16) * 16 + cc % 16
  }

  /** Byte 1 as setPID writes it: the top three bits kept, the low five from bits 8..12 of pid. */
  function WithPidHigh(b: byte, pid: int): (r: byte)
    requires 0 <= pid < U16
    ensures r / 0x20 == b / 0x20 && r % 0x20 == (pid / 0x100) % 0x20
  {
    DivModUnique((b / 0x20) * 0x20 + (pid / 0x100) % 0x20, 0x20, b / 0x20, (pid / 0x100) % 0x20);
    (b / 0x20) * 0x20 + (pid / 0x100) % 0x20
  }

  /** Byte 3 as setAFC writes it at MPEG2TS.hpp:145: the old byte ANDed with afc << 4. */
  function WithAfcAsWritten(b: byte, afc: byte): (r: byte)
    ensures r <= b
  {
    BitAnd(b, afc * 16)
  }

  /** The as-written setter only clears bits: every bit it leaves set was set in the old byte and in afc << 4. */
  lemma WithAfcAsWrittenClearsOnly(b: byte, afc: byte)
    ensures forall k :: BitOf(WithAfcAsWritten(b, afc), k) == 1 ==> BitOf(b, k) == 1 && BitOf(afc * 16, k) == 1
  {
    forall k | BitOf(WithAfcAsWritten(b, afc), k) == 1
      ensures BitOf(b, k) == 1 && BitOf(afc * 16, k) == 1
    {
      BitAndBits(b, afc * 16, k);
    }
  }

  /** Byte 3 with its adaptation field control replaced by the low two bits of afc, all else kept. */
  function WithAfc(b: byte, afc: byte): (r: byte)
    ensures (r / 16) % 4 == afc % 4
    ensures r / 64 == b / 64 && r % 16 == b % 16
  {
    var r := (b / 64) * 64 + (afc % 4) * 16 + b % 16;
    DivModUnique(r, 16, (b / 64) * 4 + afc % 4, b % 16);
    DivModUnique((b / 64) * 4 + afc % 4, 4, b / 64, afc % 4);
    DivModUnique(r, 64, b / 64, (afc % 4) * 16 + b % 16);
    r
  }

  /** The AND in setAFC cannot switch a payload-only packet to adaptation-field-only. */
  lemma SetAfcAsWrittenCounterexample()
    ensures (WithAfcAsWritten(0x10, 2) / 16) % 4 == 0
    ensures (WithAfc(0x10, 2) / 16) % 4 == 2
  {
    assert BitAnd(0x10, 0x20) == 0 by {
      assert BitAnd(1, 2) == 0;
      assert BitAnd(2, 4) == 0;
      assert BitAnd(4, 8) == 0;
      assert BitAnd(8, 0x10) == 0;
    }
  }

  /** On the byte of a freshly copied null packet the two definitions agree. */
  lemma SetAfcOnNullPacket()
    ensures WithAfcAsWritten(TS_NULL_188[3], 1) == WithAfc(TS_NULL_188[3], 1)
  {
    NullPacketBytes();
    assert BitAnd(0x10, 0x10) == 0x10 by {
      assert BitAnd(1, 1) == 1;
      assert BitAnd(2, 2) == 2;
      assert BitAnd(4, 4) == 4;
      assert BitAnd(8, 8) == 8;
    }
  }

  /** A view of one packet inside a byte array: base offset and packet size. */
  class TSPacket {
    var data: array<byte>
    var base: nat
    var size: nat

    ghost predicate Valid()
      reads this
    {
      size == 188 || size == 204
    }

    /** The packet lies wholly inside its array. */
    ghost predicate InBounds()
      reads this
    {
      base + size <= data.Length
    }

    constructor (data: array<byte>, base: nat, size: nat)
      requires size == 188 || size == 204
      ensures Valid()
      ensures this.data == data && this.base == base && this.size == size
    {
      this.data := data;
      this.base := base;
      this.size := size;
    }

    /** The packet's bytes. */
    function Bytes(): (r: seq<byte>)
      reads this, data
      requires InBounds()
      ensures |r| == size
    {
      data[base..base + size]
    }

    method SetBase(data: array<byte>, base: nat)
      modifies this
      ensures this.data == data && this.base == base && size == old(size)
    {
      this.data := data;
      this.base := base;
    }

    method SetSize(size: nat)
      requires size == 188 || size == 204
      modifies this
      ensures Valid() && this.size == size && data == old(data) && base == old(base)
    {
      this.size := size;
    }

    /** Points the view at the packet that follows it. */
    method MoveNext()
      modifies this
      ensures data == old(data) && size == old(size) && base == old(base) + size
    {
      base := base + size;
    }

    method SetCC(cc: byte)
      requires Valid() && InBounds()
      modifies data
      ensures data[..] == old(data[..])[base + 3 := WithCc(old(data[base + 3]), cc)]
      ensures Cc(Bytes()) == cc % 16
      ensures Pid(Bytes()) == Pid(old(Bytes())) && Afc(Bytes()) == Afc(old(Bytes()))
    {
      data[base + 3] := WithCc(data[base + 3], cc);
    }

    /** Writes the 13-bit PID; the top three bits of byte 1 are kept. */
    method SetPID(pid: int)
      requires 0 <= pid < U16
      requires Valid() && InBounds()
      modifies data
      ensures data[..] == old(data[..])[base + 1 := WithPidHigh(old(data[base + 1]), pid)][base + 2 := pid % 0x100]
      ensures Pid(Bytes()) == pid % 0x2000
      ensures Cc(Bytes()) == Cc(old(Bytes())) && Afc(Bytes()) == Afc(old(Bytes()))
    {
      data[base + 1] := WithPidHigh(data[base + 1], pid);
      data[base + 2] := pid % 0x100;
      PidBytes(pid);
    }

    /** Sets the adaptation field control and returns the new byte 3. */
    method SetAFC(afc: byte) returns (b: byte)
      requires Valid() && InBounds()
      modifies data
      ensures b == WithAfc(old(data[base + 3]), afc)
      ensures data[..] == old(data[..])[base + 3 := b]
      ensures Afc(Bytes()) == afc % 4
      ensures Cc(Bytes()) == Cc(old(Bytes())) && Pid(Bytes()) == Pid(old(Bytes()))
    {
      b := WithAfc(data[base + 3], afc);
      data[base + 3] := b;
    }
  }

  /**
   * Fills buffer[0..188] with a null packet turned into a payload-only
   * packet of PID 0 whose continuity counter is index modulo 16.
   */
  method GetTestPacket188(index: nat, buffer: array<byte>)
    requires buffer.Length >= 188
    modifies buffer
    ensures buffer[0] == SYNC_BYTE
    ensures Pid(buffer[..188]) == 0 && Afc(buffer[..188]) == 1 && Cc(buffer[..188]) == index % 16
    ensures buffer[..188] == [SYNC_BYTE, 0, 0, 0x10 + index % 16] + TS_NULL_188[4..]
    ensures forall i :: 188 <= i < buffer.Length ==> buffer[i] == old(buffer[i])
  {
    NullPacketBytes();
    forall i | 0 <= i < 188 {
      buffer[i] := TS_NULL_188[i];
    }
    ghost var rest := buffer[188..];
    var packet := new TSPacket(buffer, 0, 188);
    var b3 := packet.SetAFC(1);
    assert b3 == 0x10;
    packet.SetPID(0);
    packet.SetCC(index % 256);
    assert buffer[188..] == rest;
    ModMod16(index);
    DivModUnique(buffer[3], 16, 1, index % 16);
    assert buffer[1] == 0 && buffer[2] == 0;
    assert buffer[..188] == [SYNC_BYTE, 0, 0, 0x10 + index % 16] + TS_NULL_188[4..];
  }

  /** The two bytes setPID writes read back as pid modulo 0x2000. */
  lemma PidBytes(pid: int)
    requires 0 <= pid < U16
    ensures ((pid / 0x100) % 0x20) * 0x100 + pid % 0x100 == pid % 0x2000
  {
    var hi := pid / 0x100;
    assert pid == ((hi / 0x20) * 0x20 + hi % 0x20) * 0x100 + pid % 0x100;
    DivModUnique(pid, 0x2000, hi / 0x20, (hi % 0x20) * 0x100 + pid % 0x100);
  }

  lemma ModMod16(n: nat)
    ensures (n % 256) % 16 == n % 16
  {
    DivModUnique(n, 16, (n / 256) * 16 + (n % 256) / 16, (n % 256) % 16);
  }
}
