/**
 The on-air format of one DYNASTY20LASERTAG frame: a 1600 us header mark,
 forty alternating space/mark timeslots whose length carries one bit each
 (400 us for a 0, 800 us for a 1), and a closing 1000 us space.

 The hardware `mark`/`space` primitives are modelled as appending a
 `Pulse` to the output sequence.
 */
module DynastyWire {

  import BitArith

  datatype Level = Mark | Space

  /** One `mark(duration)` or `space(duration)` call, duration in microseconds. */
  datatype Pulse = Pulse(level: Level, duration: nat)

  const HeaderTime: nat := 1600   // DYNASTY_TH
  const ZeroTime: nat := 400      // DYNASTY_T0
  const OneTime: nat := 800       // DYNASTY_T1
  const TrailerTime: nat := 1000

  const SlotCount: nat := 40
  const FrameLength: nat := 42

  /** The 40-bit payload: the 8-bit `data2` in bits 39..32, the 32-bit `data` in bits 31..0. */
  function Concat(data2: bv8, data: bv32): bv40 {
    (data2 as bv40 << 32) | data as bv40
  }

  /** Bit `j` of a 40-bit payload. */
  predicate BitSet(v: bv40, j: bv8)
    requires j < 40
  {
    (v >> j) & 1 == 1
  }

  /** Even timeslots (counting from 0) are spaces, odd ones are marks. */
  function SlotLevel(k: nat): Level {
    if k % 2 == 0 then Space else Mark
  }

  function BitTime(bit: bool): nat {
    if bit then OneTime else ZeroTime
  }

  /** Timeslot `k` carries bit `39 - k`: most significant bit first. */
  function Slot(v: bv40, k: nat): Pulse
    requires k < 40
  {
    Pulse(SlotLevel(k), BitTime(BitSet(v, 39 - k as bv8)))
  }

  /** The whole transmission for `send(data, data2)`, as the protocol describes it. */
  function Frame(data: bv32, data2: bv8): (pulses: seq<Pulse>)
    ensures |pulses| == FrameLength
  {
    var v := Concat(data2, data);
    [Pulse(Mark, HeaderTime)]
    + seq(SlotCount, k requires 0 <= k < SlotCount => Slot(v, k))
    + [Pulse(Space, TrailerTime)]
  }

  /** The payload read as a number is `data2 * 2^32 + data`. */
  lemma ConcatValue(data2: bv8, data: bv32)
    ensures Concat(data2, data) as int == data2 as int * 0x1_0000_0000 + data as int
  {
    BitArith.ByteWordConcat(data2, data);
    BitArith.SameValue(Concat(data2, data), (data2 as bv40 << 32) | data as bv40);
  }

  /**
   Levels strictly alternate over the whole frame, starting with the header
   mark and ending with the trailing space; in particular the restart of the
   slot counter between `data2` and `data` does not break the alternation.
   */
  lemma FrameAlternates(data: bv32, data2: bv8)
    ensures Frame(data, data2)[0].level == Mark
    ensures Frame(data, data2)[FrameLength - 1].level == Space
    ensures forall j :: 0 <= j < FrameLength - 1 ==>
              Frame(data, data2)[j].level != Frame(data, data2)[j + 1].level
  {
    FrameLevels(data, data2);
  }

  /** Pulse `j` of the frame is a mark exactly when `j` is even. */
  lemma FrameLevels(data: bv32, data2: bv8)
    ensures forall j :: 0 <= j < FrameLength ==>
              Frame(data, data2)[j].level == (if j % 2 == 0 then Mark else Space)
  {
    forall j | 0 <= j < FrameLength
      ensures Frame(data, data2)[j].level == (if j % 2 == 0 then Mark else Space)
    {
      FrameLevelAt(data, data2, j);
    }
  }

  lemma FrameLevelAt(data: bv32, data2: bv8, j: nat)
    requires j < FrameLength
    ensures Frame(data, data2)[j].level == (if j % 2 == 0 then Mark else Space)
  {
    if 0 < j < FrameLength - 1 {
      FrameSlotTime(data, data2, j - 1);
    }
  }

  /** The frame opens with the header mark and closes with the trailing space. */
  lemma FrameEnds(data: bv32, data2: bv8)
    ensures Frame(data, data2)[0] == Pulse(Mark, HeaderTime)
    ensures Frame(data, data2)[FrameLength - 1] == Pulse(Space, TrailerTime)
  {}

  /**
   Every timeslot lasts 400 or 800 us, and timeslot `k` lasts 800 us
   exactly when payload bit `39 - k` is set.
   */
  lemma FrameSlotTime(data: bv32, data2: bv8, k: nat)
    requires k < SlotCount
    ensures Frame(data, data2)[k + 1] == Slot(Concat(data2, data), k)
    ensures Frame(data, data2)[k + 1].duration in {ZeroTime, OneTime}
    ensures Frame(data, data2)[k + 1].duration == OneTime <==> BitSet(Concat(data2, data), 39 - k as bv8)
  {}

  /** Timeslot `j` lasts 800 us exactly when payload bit `39 - j` is set. */
  lemma FrameSlotBit(data: bv32, data2: bv8, j: bv8)
    requires j < 40
    ensures Frame(data, data2)[j as int + 1].duration == OneTime <==> BitSet(Concat(data2, data), 39 - j)
  {
    FrameSlotTime(data, data2, j as int);
    SlotBitTime(Frame(data, data2)[j as int + 1], Concat(data2, data), j, j as int);
  }

  /** A pulse built as timeslot `k` lasts 800 us exactly when bit `39 - k` is set. */
  lemma SlotBitTime(p: Pulse, v: bv40, j: bv8, k: nat)
    requires j < 40 && k == j as int && p == Slot(v, k)
    ensures p.duration == OneTime <==> BitSet(v, 39 - j)
  {
    IndexRoundTrip(j);
  }

  lemma IndexRoundTrip(j: bv8)
    ensures (j as int) as bv8 == j
  {}

  /** The first eight slots carry `data2`, most significant bit first. */
  lemma Data2Slots(data: bv32, data2: bv8, i: bv8)
    requires i < 8
    ensures Frame(data, data2)[i as int + 1].duration == BitTime((data2 >> (7 - i)) & 1 == 1)
  {
    FrameSlotTime(data, data2, i as int);
  }

  /** The remaining thirty-two slots carry `data`, most significant bit first. */
  lemma DataSlots(data: bv32, data2: bv8, i: bv8)
    requires i < 32
    ensures Frame(data, data2)[i as int + 9].duration == BitTime((data >> (31 - i)) & 1 == 1)
  {
    FrameSlotTime(data, data2, i as int + 8);
    OffsetIndex(i);
  }

  lemma OffsetIndex(i: bv8)
    requires i < 32
    ensures (i as int + 8) as bv8 == i + 8
  {}
}
