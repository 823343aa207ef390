/**
 A model-side reading of a captured frame, used to state that the
 transmitter's encoding loses nothing. The receiving side of the library
 leaves this protocol's decoder unimplemented apart from its documented
 result layout: payload bits 39..32 are returned as the address and bits
 31..0 as the value, with a bit count of 40.

 Timeslots are read back as the encoder writes them: an 800 us slot is a
 one, any other slot a zero. No timing tolerance and no error outcome is
 modelled, because the library defines none for this protocol.
 */
module DynastyDecode {

  import opened DynastyWire

  /** What a decode reports: the number of bits, the address byte and the value word. */
  datatype Decoded = Decoded(bits: nat, address: bv8, value: bv32)

  const DecodedBits: nat := 40

  function SlotBit(p: Pulse): bv40 {
    if p.duration == OneTime then 1 else 0
  }

  /**
   Reads timeslots `pulses[lo..hi]` most significant bit first: each slot
   read shifts the bits read so far up by one place and enters below them.
   */
  function ReadSlots(pulses: seq<Pulse>, lo: nat, hi: nat): bv40
    requires lo <= hi <= |pulses|
    decreases hi - lo
  {
    if hi == lo then 0
    else (ReadSlots(pulses, lo, hi - 1) << 1) | SlotBit(pulses[hi - 1])
  }

  /** The address/value split of the 40-bit payload; it undoes `Concat`. */
  function Split(v: bv40): (r: (bv8, bv32))
    ensures Concat(r.0, r.1) == v
  {
    ((v >> 32) as bv8, (v & 0xFFFF_FFFF) as bv32)
  }

  /** `Split` and `Concat` are inverse in both directions. */
  lemma SplitConcat(address: bv8, value: bv32)
    ensures Split(Concat(address, value)) == (address, value)
  {}

  /** Reads the forty timeslots after the header and splits the payload. */
  function Decode(pulses: seq<Pulse>): (d: Decoded)
    requires |pulses| >= SlotCount + 1
    ensures d.bits == DecodedBits
    ensures Concat(d.address, d.value) == ReadSlots(pulses, 1, SlotCount + 1)
  {
    var (address, value) := Split(ReadSlots(pulses, 1, SlotCount + 1));
    Decoded(DecodedBits, address, value)
  }

  /** The payload `c` with its `k` lowest bits dropped, one bit at a time. */
  function TopBits(c: bv40, k: nat): bv40 {
    if k == 0 then c else TopBits(c, k - 1) >> 1
  }

  /**
   Every timeslot of `pulses` reads back as the payload bit it carries in
   `c`: slot `39 - k`, which follows the header, carries bit `k`.
   */
  ghost predicate CarriesPayload(pulses: seq<Pulse>, c: bv40)
  {
    && |pulses| > SlotCount
    && forall k :: 0 <= k < 40 ==> SlotBit(pulses[40 - k]) == TopBits(c, k) & 1
  }

  /**
   The timeslots up to the one carrying payload bit `k` read back as the
   payload with its `k` lowest bits dropped.
   */
  lemma {:induction false} ReadTopBits(pulses: seq<Pulse>, c: bv40, k: nat)
    requires k <= 40 && CarriesPayload(pulses, c)
    ensures ReadSlots(pulses, 1, 41 - k) == TopBits(c, k)
    decreases 40 - k
  {
    if k < 40 {
      ReadTopBits(pulses, c, k + 1);
      ReadStep(pulses, c, k);
    } else {
      TopBitsAll(c);
    }
  }

  /** Reading one more timeslot enters the next lower payload bit. */
  lemma ReadStep(pulses: seq<Pulse>, c: bv40, k: nat)
    requires k < 40 && |pulses| > SlotCount
    requires ReadSlots(pulses, 1, 40 - k) == TopBits(c, k + 1)
    requires SlotBit(pulses[40 - k]) == TopBits(c, k) & 1
    ensures ReadSlots(pulses, 1, 41 - k) == TopBits(c, k)
  {
    ReadOneMore(pulses, 40 - k);
    DropOneMore(c, k);
  }

  lemma ReadOneMore(pulses: seq<Pulse>, hi: nat)
    requires 1 <= hi < |pulses|
    ensures ReadSlots(pulses, 1, hi + 1) == (ReadSlots(pulses, 1, hi) << 1) | SlotBit(pulses[hi])
  {}

  lemma DropOneMore(c: bv40, k: nat)
    ensures TopBits(c, k + 1) == TopBits(c, k) >> 1
  {}

  /** Dropping all forty bits leaves nothing. */
  lemma TopBitsAll(c: bv40)
    ensures TopBits(c, 40) == 0
  {
    TopBitsShift(c, 40, 40);
  }

  /** Dropping bits one at a time is a single right shift. */
  lemma {:induction false} TopBitsShift(c: bv40, m: bv8, k: nat)
    requires k <= 40 && k == m as int
    ensures TopBits(c, k) == c >> m
  {
    if k > 0 {
      PrevIndex(m);
      TopBitsShift(c, m - 1, k - 1);
      ShiftDownOne(c, m);
    }
  }

  lemma PrevIndex(m: bv8)
    requires 0 < m as int <= 40
    ensures 0 < m <= 40 && (m - 1) as int == m as int - 1
  {}

  lemma ShiftDownOne(c: bv40, m: bv8)
    requires 0 < m <= 40
    ensures (c >> (m - 1)) >> 1 == c >> m
  {}

  /** A frame carries its own payload. */
  lemma FrameCarriesPayload(data: bv32, data2: bv8)
    ensures CarriesPayload(Frame(data, data2), Concat(data2, data))
  {
    forall k | 0 <= k < 40
      ensures SlotBit(Frame(data, data2)[40 - k]) == TopBits(Concat(data2, data), k) & 1
    {
      NatIndexRoundTrip(k);
      FramePayloadBit(data, data2, k as bv8, k);
    }
  }

  lemma NatIndexRoundTrip(k: nat)
    requires k < 40
    ensures (k as bv8) as int == k
  {}

  /** In a frame, the slot carrying payload bit `k` reads back as that bit. */
  lemma FramePayloadBit(data: bv32, data2: bv8, m: bv8, k: nat)
    requires k < 40 && k == m as int
    ensures SlotBit(Frame(data, data2)[40 - k]) == TopBits(Concat(data2, data), k) & 1
  {
    IndexBound(m);
    TopSlot(data, data2, m);
    TopBitsShift(Concat(data2, data), m, k);
  }

  lemma IndexBound(m: bv8)
    requires m as int < 40
    ensures m < 40
  {}

  lemma TopSlot(data: bv32, data2: bv8, m: bv8)
    requires m < 40
    ensures SlotBit(Frame(data, data2)[40 - m as int]) == (Concat(data2, data) >> m) & 1
  {
    FrameSlotBit(data, data2, 39 - m);
    DownFromTop(m);
    SlotBitValue(Frame(data, data2)[40 - m as int], Concat(data2, data), m);
  }

  lemma DownFromTop(m: bv8)
    requires m < 40
    ensures (39 - m) as int + 1 == 40 - m as int
    ensures 39 - (39 - m) == m
  {}

  /** A slot read back gives the payload bit it was sent for. */
  lemma SlotBitValue(p: Pulse, c: bv40, m: bv8)
    requires m < 40
    requires p.duration == OneTime <==> BitSet(c, m)
    ensures SlotBit(p) == (c >> m) & 1
  {}

  /** Decoding a frame returns exactly the `data2` and `data` it was sent with. */
  lemma DecodeFrame(data: bv32, data2: bv8)
    ensures Decode(Frame(data, data2)) == Decoded(DecodedBits, data2, data)
  {
    FrameCarriesPayload(data, data2);
    ReadTopBits(Frame(data, data2), Concat(data2, data), 0);
    SplitConcat(data2, data);
  }

  /** Hence different `(data, data2)` pairs are always sent as different frames. */
  lemma FrameInjective(data: bv32, data2: bv8, data': bv32, data2': bv8)
    requires Frame(data, data2) == Frame(data', data2')
    ensures data == data' && data2 == data2'
  {
    DecodeFrame(data, data2);
    DecodeFrame(data', data2');
  }
}
