/**
 The DYNASTY20LASERTAG serialiser `send(data, data2)`: a header mark, then
 `data2` and `data` bit by bit, most significant first, as alternating
 space/mark timeslots, then a closing space.

 Both loops use an 8-bit counter `i` and shift the value left after each
 slot; the counter and the shifts are modelled on `bv8` and `bv32` as in
 the source.
 */
module DynastySend {

  import opened DynastyWire

  const Data2TopBit: bv8 := 0x80      // DYNASTY_DATA2_TOPBIT
  const TopBit: bv32 := 0x8000_0000   // the library's TOPBIT for 32-bit data

  /** After `i` shifts, the top bit of `data2` is its original bit `7 - i`. */
  lemma Data2TopBitAfterShift(data2: bv8, i: bv8)
    requires i < 8
    ensures ((data2 << i) & Data2TopBit != 0) == ((data2 >> (7 - i)) & 1 == 1)
  {}

  /** After `i` shifts, the top bit of `data` is its original bit `31 - i`. */
  lemma DataTopBitAfterShift(data: bv32, i: bv8)
    requires i < 32
    ensures ((data << i) & TopBit != 0) == ((data >> (31 - i)) & 1 == 1)
  {}

  /** `i & 1` tests oddness, and 8 is even, so restarting the count at 0 keeps the parity. */
  lemma CounterParity(i: bv8)
    requires i < 32
    ensures (i & 1 != 0) == (i as int % 2 == 1)
    ensures (i & 1 != 0) == ((i as int + 8) % 2 == 1)
  {}

  /** Incrementing a small 8-bit counter does not wrap. */
  lemma CounterStep(i: bv8)
    requires i < 32
    ensures (i + 1) as int == i as int + 1
  {}

  /** One more left shift is one more place. */
  lemma ByteShiftStep(x: bv8, i: bv8)
    requires i < 8
    ensures (x << i) << 1 == x << (i + 1)
  {}

  lemma WordShiftStep(x: bv32, i: bv8)
    requires i < 32
    ensures (x << i) << 1 == x << (i + 1)
  {}

  /** `data2` after `n` executions of `data2 <<= 1`. */
  function ByteShiftedTimes(x: bv8, n: nat): bv8 {
    if n == 0 then x else ByteShiftedTimes(x, n - 1) << 1
  }

  /** `data` after `n` executions of `data <<= 1`. */
  function WordShiftedTimes(x: bv32, n: nat): bv32 {
    if n == 0 then x else WordShiftedTimes(x, n - 1) << 1
  }

  /** After `i` iterations of the first loop, `data2` is the original shifted left by `i`. */
  lemma {:induction false} ByteShiftState(x: bv8, i: bv8, k: nat)
    requires i <= 8 && k == i as int
    ensures ByteShiftedTimes(x, k) == x << i
  {
    if k > 0 {
      CountDown(i, 8);
      ByteShiftState(x, i - 1, k - 1);
      ByteShiftStep(x, i - 1);
    }
  }

  /** After `i` iterations of the second loop, `data` is the original shifted left by `i`. */
  lemma {:induction false} WordShiftState(x: bv32, i: bv8, k: nat)
    requires i <= 32 && k == i as int
    ensures WordShiftedTimes(x, k) == x << i
  {
    if k > 0 {
      CountDown(i, 32);
      WordShiftState(x, i - 1, k - 1);
      WordShiftStep(x, i - 1);
    }
  }

  /**
   Resumed at iteration `i` from the value that `i` executions of
   `data2 <<= 1` leave, the first loop emits exactly frame pulses `i + 1`
   to 8.
   */
  lemma Data2LoopResumes(data: bv32, data2: bv8, i: bv8, k: nat)
    requires i <= 8 && k == i as int
    ensures Data2Loop(ByteShiftedTimes(data2, k), i) == Frame(data, data2)[k + 1..9]
  {
    ByteShiftState(data2, i, k);
    Data2LoopEmits(data, data2, i, k);
  }

  /** The same for the second loop and `data <<= 1`: it emits frame pulses `i + 9` to 40. */
  lemma DataLoopResumes(data: bv32, data2: bv8, i: bv8, k: nat)
    requires i <= 32 && k == i as int
    ensures DataLoop(WordShiftedTimes(data, k), i) == Frame(data, data2)[k + 9..41]
  {
    WordShiftState(data, i, k);
    DataLoopEmits(data, data2, i, k);
  }

  lemma CountDown(i: bv8, bound: bv8)
    requires 0 < i as int && i <= bound <= 32
    ensures i - 1 < bound && (i - 1) as int == i as int - 1 && (i - 1) + 1 == i
  {}

  /** The pulse one loop iteration emits: its level from the counter's low bit, its length from the top bit. */
  function IterationPulse(i: bv8, topBitSet: bool): Pulse {
    Pulse(if i & 1 != 0 then Mark else Space, if topBitSet then OneTime else ZeroTime)
  }

  /**
   What the `data2` loop emits from iteration `i` on, when the shifted
   `data2` currently holds `x`: test the top bit, emit, shift, count.
   */
  function Data2Loop(x: bv8, i: bv8): (pulses: seq<Pulse>)
    requires i <= 8
    decreases 8 - i
  {
    if i == 8 then []
    else [IterationPulse(i, x & Data2TopBit != 0)] + Data2Loop(x << 1, i + 1)
  }

  /** What the `data` loop emits from iteration `i` on, when the shifted `data` currently holds `x`. */
  function DataLoop(x: bv32, i: bv8): (pulses: seq<Pulse>)
    requires i <= 32
    decreases 32 - i
  {
    if i == 32 then []
    else [IterationPulse(i, x & TopBit != 0)] + DataLoop(x << 1, i + 1)
  }

  /** Iteration `i` of the `data2` loop emits frame pulse `i + 1`. */
  lemma Data2Step(data: bv32, data2: bv8, i: bv8)
    requires i < 8
    ensures Frame(data, data2)[i as int + 1] == IterationPulse(i, (data2 << i) & Data2TopBit != 0)
  {
    Data2TopBitAfterShift(data2, i);
    Data2Slots(data, data2, i);
    FrameSlotTime(data, data2, i as int);
    CounterParity(i);
  }

  /** Iteration `i` of the `data` loop emits frame pulse `i + 9`. */
  lemma DataStep(data: bv32, data2: bv8, i: bv8)
    requires i < 32
    ensures Frame(data, data2)[i as int + 9] == IterationPulse(i, (data << i) & TopBit != 0)
  {
    DataTopBitAfterShift(data, i);
    DataSlots(data, data2, i);
    FrameSlotTime(data, data2, i as int + 8);
    CounterParity(i);
  }

  /**
   From iteration `i` on (`k` in unbounded arithmetic), with `data2`
   shifted left `i` times, the first loop emits exactly frame pulses
   `i + 1` to 8.
   */
  lemma {:induction false} Data2LoopEmits(data: bv32, data2: bv8, i: bv8, k: nat)
    requires i <= 8 && k == i as int
    ensures Data2Loop(data2 << i, i) == Frame(data, data2)[k + 1..9]
    decreases 8 - k
  {
    if i < 8 {
      ByteShiftStep(data2, i);
      CounterStep(i);
      Data2LoopEmits(data, data2, i + 1, k + 1);
      Data2Step(data, data2, i);
      SliceCons(Frame(data, data2), k + 1, 9);
    }
  }

  /**
   From iteration `i` on, with `data` shifted left `i` times, the second
   loop emits exactly frame pulses `i + 9` to 40.
   */
  lemma {:induction false} DataLoopEmits(data: bv32, data2: bv8, i: bv8, k: nat)
    requires i <= 32 && k == i as int
    ensures DataLoop(data << i, i) == Frame(data, data2)[k + 9..41]
    decreases 32 - k
  {
    if i < 32 {
      WordShiftStep(data, i);
      CounterStep(i);
      DataLoopEmits(data, data2, i + 1, k + 1);
      DataStep(data, data2, i);
      SliceCons(Frame(data, data2), k + 9, 41);
    }
  }

  lemma SliceCons<T>(s: seq<T>, a: nat, b: nat)
    requires a < b <= |s|
    ensures s[a..b] == [s[a]] + s[a + 1..b]
  {}

  /** The same, for any `x` equal to `data2` shifted left `i` times. */
  lemma Data2LoopEmitsFrom(data: bv32, data2: bv8, x: bv8, i: bv8, k: nat)
    requires i <= 8 && k == i as int && x == data2 << i
    ensures Data2Loop(x, i) == Frame(data, data2)[k + 1..9]
  {
    Data2LoopEmits(data, data2, i, k);
  }

  lemma DataLoopEmitsFrom(data: bv32, data2: bv8, x: bv32, i: bv8, k: nat)
    requires i <= 32 && k == i as int && x == data << i
    ensures DataLoop(x, i) == Frame(data, data2)[k + 9..41]
  {
    DataLoopEmits(data, data2, i, k);
  }

  /** The whole `data2` loop emits frame pulses 1 to 8. */
  lemma Data2LoopFrame(data: bv32, data2: bv8)
    ensures Data2Loop(data2, 0) == Frame(data, data2)[1..9]
  {
    Data2LoopEmitsFrom(data, data2, data2, 0, 0);
  }

  /** The whole `data` loop emits frame pulses 9 to 40. */
  lemma DataLoopFrame(data: bv32, data2: bv8)
    ensures DataLoop(data, 0) == Frame(data, data2)[9..41]
  {
    DataLoopEmitsFrom(data, data2, data, 0, 0);
  }

  /** Header, both loops and trailer make up the frame. */
  lemma LoopsEmitFrame(data: bv32, data2: bv8)
    ensures [Pulse(Mark, HeaderTime)] + Data2Loop(data2, 0) + DataLoop(data, 0) + [Pulse(Space, TrailerTime)]
            == Frame(data, data2)
  {
    Data2LoopFrame(data, data2);
    DataLoopFrame(data, data2);
    FrameFromParts(data, data2, Data2Loop(data2, 0), DataLoop(data, 0));
  }

  lemma FrameFromParts(data: bv32, data2: bv8, first: seq<Pulse>, second: seq<Pulse>)
    requires first == Frame(data, data2)[1..9] && second == Frame(data, data2)[9..41]
    ensures [Pulse(Mark, HeaderTime)] + first + second + [Pulse(Space, TrailerTime)] == Frame(data, data2)
  {
    FrameEnds(data, data2);
    FrameParts(Frame(data, data2));
  }

  lemma FrameParts<T>(s: seq<T>)
    requires |s| == 42
    ensures s == [s[0]] + s[1..9] + s[9..41] + [s[41]]
  {}

  /** Emitting one iteration's pulse moves it from the loop's remaining output to the emitted prefix. */
  lemma Data2Emit(pulses: seq<Pulse>, x: bv8, i: bv8, target: seq<Pulse>)
    requires i < 8 && pulses + Data2Loop(x, i) == target
    ensures (pulses + [IterationPulse(i, x & Data2TopBit != 0)]) + Data2Loop(x << 1, i + 1) == target
  {
    AppendOne(pulses, IterationPulse(i, x & Data2TopBit != 0), Data2Loop(x << 1, i + 1));
  }

  lemma DataEmit(pulses: seq<Pulse>, x: bv32, i: bv8, target: seq<Pulse>)
    requires i < 32 && pulses + DataLoop(x, i) == target
    ensures (pulses + [IterationPulse(i, x & TopBit != 0)]) + DataLoop(x << 1, i + 1) == target
  {
    AppendOne(pulses, IterationPulse(i, x & TopBit != 0), DataLoop(x << 1, i + 1));
  }

  lemma AppendOne<T>(a: seq<T>, p: T, r: seq<T>)
    ensures (a + [p]) + r == a + ([p] + r)
  {}

  /**
   The first loop of `send`: for `i` from 0 to 7, emit a slot whose length
   comes from the top bit of `data2` and whose level from the parity of
   `i`, then shift `data2` left by one.
   */
  method SendData2Slots(out: seq<Pulse>, data2: bv8, ghost data: bv32) returns (pulses: seq<Pulse>)
    ensures pulses == out + Frame(data, data2)[1..9]
  {
    ghost var target := out + Data2Loop(data2, 0);
    var bitTime: nat;
    pulses := out;
    var d2 := data2;
    var i: bv8 := 0;
    while i < 8
      invariant i <= 8
      invariant pulses + Data2Loop(d2, i) == target
    {
      if d2 & Data2TopBit != 0 {
        bitTime := OneTime;
      } else {
        bitTime := ZeroTime;
      }
      Data2Emit(pulses, d2, i, target);
      if i & 1 != 0 {
        pulses := pulses + [Pulse(Mark, bitTime)];
      } else {
        pulses := pulses + [Pulse(Space, bitTime)];
      }
      d2 := d2 << 1;
      i := i + 1;
    }
    assert Data2Loop(d2, i) == [];
    Data2LoopFrame(data, data2);
  }

  /**
   The second loop of `send`: the same for `i` from 0 to 31 over `data`,
   the counter starting again at 0.
   */
  method SendDataSlots(out: seq<Pulse>, data: bv32, ghost data2: bv8) returns (pulses: seq<Pulse>)
    ensures pulses == out + Frame(data, data2)[9..41]
  {
    ghost var target := out + DataLoop(data, 0);
    var bitTime: nat;
    pulses := out;
    var d := data;
    var i: bv8 := 0;
    while i < 32
      invariant i <= 32
      invariant pulses + DataLoop(d, i) == target
    {
      if d & TopBit != 0 {
        bitTime := OneTime;
      } else {
        bitTime := ZeroTime;
      }
      DataEmit(pulses, d, i, target);
      if i & 1 != 0 {
        pulses := pulses + [Pulse(Mark, bitTime)];
      } else {
        pulses := pulses + [Pulse(Space, bitTime)];
      }
      d := d << 1;
      i := i + 1;
    }
    assert DataLoop(d, i) == [];
    DataLoopFrame(data, data2);
  }

  /**
   `send(data, data2)`: the header mark, the eight `data2` slots, the
   thirty-two `data` slots and the trailing space. The pulses are exactly
   the protocol's frame.
   */
  method Send(data: bv32, data2: bv8) returns (pulses: seq<Pulse>)
    ensures pulses == Frame(data, data2)
  {
    pulses := [Pulse(Mark, HeaderTime)];
    pulses := SendData2Slots(pulses, data2, data);
    pulses := SendDataSlots(pulses, data, data2);
    pulses := pulses + [Pulse(Space, TrailerTime)];
    FrameEnds(data, data2);
    FrameParts(Frame(data, data2));
  }
}
