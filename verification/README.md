# DYNASTY20LASERTAG transmit codec, in Dafny

This project models protocol 13 of IRLib2, DYNASTY20LASERTAG. It is an infrared
laser-tag protocol with a 40-bit payload.

- A frame is a 1600 us header mark, then forty alternating space/mark
  timeslots, then a closing 1000 us space.
- Each timeslot carries one payload bit: 400 us for a 0, 800 us for a 1.
- The bits are sent most significant first. The 8-bit `data2` comes first,
  then the 32-bit `data` word.

The model covers three parts:

- **`send(data, data2)`** (module `DynastySend`): the serialiser.
  - The hardware `mark`/`space` calls become `Pulse` values appended to a
    sequence.
  - The two loops run over an 8-bit counter. Each tests the top bit for the
    slot length, uses the counter's low bit for mark versus space, and
    shifts the value left.
  - The shifts are on `bv8` and `bv32`, as in the source.
- **`sendWithTeamAndWeapon(team, weapon)`** (module `DynastyLaserTag`): builds
  the payload.
  - The 4-bit checksum is `(0x0D + team + weapon) & 0xF`, computed in
    32-bit wrapping arithmetic.
  - The data word is `0xAA << 24 | team << 16 | weapon << 8 | checksum`.
  - The random byte `data2` is fixed to 0xAE.
- **The on-air frame** (module `DynastyWire`).
  - It is an independent reference definition taken from the protocol's
    description at the head of the header file.
  - `DynastyDecode` adds a reader of captured frames, as the inverse of the
    frame. Its result has the layout that `decode()` documents: bits 39..32
    as the address, bits 31..0 as the value, with a bit count of 40.

`BitArith` holds the bridges between 32-bit arithmetic and unbounded
integers that the checksum proof needs.

The library has no receiving logic for this protocol. Its `decode()` is a
stub that sets `bits = 40` and the protocol number and returns true without
reading any pulse. The reader in `DynastyDecode` is therefore the model's
own. It exists only to state that transmission loses nothing: it reads
800 us as a 1 and any other length as a 0, and it has no error path.

Two places where the source's comments and its code differ:

- The comment on the checksum (line 60) says "% (modulus) 0xF". The code
  masks with `& 0x000F`, which keeps the sum modulo 16. The model follows
  the code.
- The bit-order table (line 22) lists `data[9]` twice where `data[8]` is
  meant. The code sends all 32 bits of `data` in order, and so does the model.

## Model

| member | source | states |
|---|---|---|
| DynastyWire.Frame | IRLibProtocols/IRLib_P13_DYNASTY20LASERTAG.h:8-14 | A frame is 42 pulses: the header, forty timeslots and a trailer. |
| DynastyWire.FrameEnds | IRLibProtocols/IRLib_P13_DYNASTY20LASERTAG.h:83-128 | The first pulse is a 1600 us mark (`mark(DYNASTY_TH)`) and the last is a 1000 us space (`space(1000)`). |
| DynastyWire.FrameAlternates | IRLibProtocols/IRLib_P13_DYNASTY20LASERTAG.h:10-11 | Levels strictly alternate across all 42 pulses: the header mark, then off/on slots, then the closing space. The alternation survives the restart of the counter between the two loops. |
| DynastyWire.FrameLevels | IRLibProtocols/IRLib_P13_DYNASTY20LASERTAG.h:10-11 | Pulse `j` is a mark exactly when `j` is even, so slot 1 is off, slot 2 on, and so on. |
| DynastyWire.FrameSlotTime | IRLibProtocols/IRLib_P13_DYNASTY20LASERTAG.h:12-14 | Every timeslot lasts 400 or 800 us. Slot `k` lasts 800 us if and only if payload bit `39 - k` is set, so the most significant bit goes first. |
| DynastyWire.ConcatValue | IRLibProtocols/IRLib_P13_DYNASTY20LASERTAG.h:16-17 | The 40-bit payload is worth `data2 * 2^32 + data`. |
| DynastyWire.Data2Slots | IRLibProtocols/IRLib_P13_DYNASTY20LASERTAG.h:19 | Slots 1-8 carry `data2[7]` down to `data2[0]`. |
| DynastyWire.DataSlots | IRLibProtocols/IRLib_P13_DYNASTY20LASERTAG.h:20-23 | Slots 9-40 carry `data[31]` down to `data[0]`. |
| DynastySend.Data2TopBitAfterShift | IRLibProtocols/IRLib_P13_DYNASTY20LASERTAG.h:94-107 | After `i` left shifts, testing `DYNASTY_DATA2_TOPBIT` reads original bit `7 - i` of `data2`. |
| DynastySend.DataTopBitAfterShift | IRLibProtocols/IRLib_P13_DYNASTY20LASERTAG.h:112-125 | After `i` left shifts, testing `TOPBIT` reads original bit `31 - i` of `data`. |
| DynastySend.CounterParity | IRLibProtocols/IRLib_P13_DYNASTY20LASERTAG.h:100-105 | `i & 1` is the oddness of `i`. The `data` loop's count restarting at 0 keeps the parity of the slot number `i + 8`. |
| DynastySend.ByteShiftState | IRLibProtocols/IRLib_P13_DYNASTY20LASERTAG.h:107 | A fact about the shift statement alone: `i` executions of the 8-bit `<<= 1` equal one shift left by `i`, bits shifted out being lost. |
| DynastySend.WordShiftState | IRLibProtocols/IRLib_P13_DYNASTY20LASERTAG.h:125 | The same fact for the 32-bit `data <<= 1`. |
| DynastySend.Data2LoopResumes | IRLibProtocols/IRLib_P13_DYNASTY20LASERTAG.h:92-108 | Resumed at iteration `i` from the value that `i` executions of `data2 <<= 1` leave, the `data2` loop emits exactly frame pulses `i + 1` to 8. |
| DynastySend.DataLoopResumes | IRLibProtocols/IRLib_P13_DYNASTY20LASERTAG.h:110-126 | Resumed at iteration `i` from the value that `i` executions of `data <<= 1` leave, the `data` loop emits exactly frame pulses `i + 9` to 40. |
| DynastySend.IterationPulse | IRLibProtocols/IRLib_P13_DYNASTY20LASERTAG.h:93-106 | One loop iteration's pulse: a mark when the counter is odd, a space when it is even, lasting 800 us when the tested top bit is set and 400 us otherwise. `Data2Step` and `DataStep` pin it to the frame. |
| DynastySend.Data2Loop | IRLibProtocols/IRLib_P13_DYNASTY20LASERTAG.h:92-108 | The pulses the `data2` loop emits from iteration `i` on. `Data2LoopEmits` shows they are frame pulses `i + 1` to 8. |
| DynastySend.DataLoop | IRLibProtocols/IRLib_P13_DYNASTY20LASERTAG.h:110-126 | The pulses the `data` loop emits from iteration `i` on. `DataLoopEmits` shows they are frame pulses `i + 9` to 40. |
| DynastySend.Data2Emit | IRLibProtocols/IRLib_P13_DYNASTY20LASERTAG.h:100-107 | Appending one iteration's pulse and shifting moves that pulse from the loop's remaining output to the emitted prefix, and nothing else changes. |
| DynastySend.DataEmit | IRLibProtocols/IRLib_P13_DYNASTY20LASERTAG.h:118-125 | The same for an iteration of the `data` loop. |
| DynastySend.Data2Step | IRLibProtocols/IRLib_P13_DYNASTY20LASERTAG.h:92-107 | Iteration `i` of the `data2` loop emits exactly frame pulse `i + 1`. |
| DynastySend.DataStep | IRLibProtocols/IRLib_P13_DYNASTY20LASERTAG.h:110-125 | Iteration `i` of the `data` loop emits exactly frame pulse `i + 9`. |
| DynastySend.Data2LoopEmits | IRLibProtocols/IRLib_P13_DYNASTY20LASERTAG.h:92-108 | From iteration `i` on, with `data2` shifted left `i` times, the loop emits exactly frame pulses `i + 1` to 8. |
| DynastySend.DataLoopEmits | IRLibProtocols/IRLib_P13_DYNASTY20LASERTAG.h:110-126 | From iteration `i` on, with `data` shifted left `i` times, the loop emits exactly frame pulses `i + 9` to 40. |
| DynastySend.LoopsEmitFrame | IRLibProtocols/IRLib_P13_DYNASTY20LASERTAG.h:83-128 | Header, the two loops' output and trailer, in that order, make up the frame. |
| DynastySend.SendData2Slots | IRLibProtocols/IRLib_P13_DYNASTY20LASERTAG.h:91-108 | The first loop, as written, appends exactly pulses 1 to 8 of the frame of `(data, data2)`, for any `data`. |
| DynastySend.SendDataSlots | IRLibProtocols/IRLib_P13_DYNASTY20LASERTAG.h:109-126 | The second loop, as written, appends exactly pulses 9 to 40 of the frame of `(data, data2)`, for any `data2`. |
| DynastySend.Send | IRLibProtocols/IRLib_P13_DYNASTY20LASERTAG.h:80-129 | `send(data, data2)` emits exactly the frame of `(data, data2)`. |
| DynastyDecode.Split | IRLibProtocols/IRLib_P13_DYNASTY20LASERTAG.h:149-151 | The address is payload bits 39..32 and the value is bits 31..0. Putting them back together gives the payload. |
| DynastyDecode.SplitConcat | IRLibProtocols/IRLib_P13_DYNASTY20LASERTAG.h:149-151 | Splitting a concatenated `(address, value)` returns it unchanged, so `Split` and `Concat` are inverses. |
| DynastyDecode.SlotBit | IRLibProtocols/IRLib_P13_DYNASTY20LASERTAG.h:12-13 | A timeslot reads as a 1 when it lasts 800 us and as a 0 otherwise, 400 us included. |
| DynastyDecode.ReadSlots | IRLibProtocols/IRLib_P13_DYNASTY20LASERTAG.h:12-14 | Reads a range of timeslots in order, the first slot ending up as the most significant bit. `ReadTopBits` shows that this recovers the payload a frame carries. |
| DynastyDecode.Decode | IRLibProtocols/IRLib_P13_DYNASTY20LASERTAG.h:149-153 | The reader reports 40 bits, and its address and value together are the forty slots after the header, read most significant first. |
| DynastyDecode.ReadTopBits | IRLibProtocols/IRLib_P13_DYNASTY20LASERTAG.h:12-14 | Reading the slots of a pulse train that carries payload `c` yields `c`, one bit per slot, most significant first. |
| DynastyDecode.FrameCarriesPayload | IRLibProtocols/IRLib_P13_DYNASTY20LASERTAG.h:16-23 | In every frame, the slot for payload bit `k` reads back as that bit of `data2:data`. |
| DynastyDecode.DecodeFrame | IRLibProtocols/IRLib_P13_DYNASTY20LASERTAG.h:16-23 | Reading a frame returns address `data2` and value `data`. The encoding round-trips. |
| DynastyDecode.FrameInjective | IRLibProtocols/IRLib_P13_DYNASTY20LASERTAG.h:16-17 | Different `(data, data2)` pairs always give different frames. |
| DynastyLaserTag.Checksum | IRLibProtocols/IRLib_P13_DYNASTY20LASERTAG.h:69-71 | The checksum is below 16 and equals `(0x0D + team + weapon) mod 16` in unbounded arithmetic, for all 32-bit inputs, despite wrap-around. |
| DynastyLaserTag.PackData | IRLibProtocols/IRLib_P13_DYNASTY20LASERTAG.h:73-75 | For any team and weapon, the data word's bits 7..4 are zero and its low nibble is the checksum. |
| DynastyLaserTag.Unpack | IRLibProtocols/IRLib_P13_DYNASTY20LASERTAG.h:53-57 | Reads the fields of a data word by that layout: the fixed byte in bits 31..24, team in 23..16, weapon in 15..8, the zero nibble in 7..4 and the checksum in 3..0. Each field fits its width. |
| DynastyLaserTag.PackedFields | IRLibProtocols/IRLib_P13_DYNASTY20LASERTAG.h:53-57 | For 8-bit codes the word reads back as 0xAA, team, weapon, a zero nibble and the checksum, in the slot layout the comments give. |
| DynastyLaserTag.UnpackPacks | IRLibProtocols/IRLib_P13_DYNASTY20LASERTAG.h:73-75 | Conversely, every word with that layout and a matching checksum is the packing of its own team and weapon. |
| DynastyLaserTag.PackInjective | IRLibProtocols/IRLib_P13_DYNASTY20LASERTAG.h:73-75 | Distinct 8-bit team/weapon pairs give distinct data words. |
| DynastyLaserTag.PackExample | IRLibProtocols/IRLib_P13_DYNASTY20LASERTAG.h:69-75 | Team 0x12 and weapon 0x34 give checksum 3 and the word 0xAA123403. |
| DynastyLaserTag.TeamWeaponDecodes | IRLibProtocols/IRLib_P13_DYNASTY20LASERTAG.h:50-60 | The frame for any codes reads back as address 0xAE and the packed word. For 8-bit codes the team, weapon and checksum read back too. |
| DynastyLaserTag.TeamWeaponFramesDistinct | IRLibProtocols/IRLib_P13_DYNASTY20LASERTAG.h:50-79 | Distinct 8-bit team/weapon pairs are sent as distinct frames. |
| DynastyLaserTag.SendWithTeamAndWeapon | IRLibProtocols/IRLib_P13_DYNASTY20LASERTAG.h:50-79 | `sendWithTeamAndWeapon` emits the frame of the packed word with `data2 = 0xAE`. It reads back as that word, and for 8-bit codes as the team and weapon sent. |

## Left out

- The infrared hardware is not modelled:
  - `mark` and `space` are modelled as appending a pulse, and nothing of
    their timing;
  - the carrier: `DYNASTY_KHZ` (38) is defined but never used, and `send`
    sets up no carrier itself;
  - nor the `uint16_t` type of `bit_time`, which only ever holds 400 or 800.
- The dispatch macros (`IR_SEND_PROTOCOL_13`, `IR_DECODE_PROTOCOL_13`, the
  `PV_IR_*` inheritance lists) are left out. They only route calls into
  the two classes.
- The receiving side of `decode()` is left out:
  - `IRLIB_ATTEMPT_MESSAGE`, `resetDecoder()` and the assignment of
    `protocolNum`;
  - its unconditional `return true`.

  These depend on the receiver's shared state, which is not part of this
  model, and the stub reads no pulses.
- DynastyDecode.Decode: it requires only at least 41 pulses. It skips
  pulse 0 without checking it as a header, never looks at levels, and reads
  the durations of pulses 1 to 40. It reports no error, because the library
  defines no failure for this protocol. It has no timing tolerance and takes
  any length other than 800 us as a 0.
- `TOPBIT`, which the `data` loop tests (line 112), is not defined in the
  protocol's header. The model fixes it to `0x8000_0000`, the top bit of the
  32-bit `data`, as the loop's 32 iterations require.
- DynastySend.SendData2Slots: the loop invariant does not state that `d2`
  equals `data2` shifted left by `i`. The invariant ties `d2` to the
  remaining output through `Data2Loop`. `Data2LoopResumes` proves that the
  loop resumed from the value `i` executions of `<<= 1` leave emits the rest
  of the frame.
- DynastySend.SendDataSlots: likewise, the invariant does not state that
  `d` equals `data` shifted left by `i`; `DataLoopResumes` carries that
  fact for the functional loop.
- The random boot-time byte is the constant 0xAE, as in the code.
- DynastyLaserTag.PackedFields: the exact field read-back is stated only for
  team and weapon codes below 256. Larger codes are accepted by the
  `uint32_t` parameters and spill into the neighbouring fields; the model
  computes exactly that wrap-around but proves no field property for it.
