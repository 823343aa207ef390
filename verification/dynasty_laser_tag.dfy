/**
 The laser-tag payload of DYNASTY20LASERTAG (`sendWithTeamAndWeapon`): the
 8-bit `data2` is a per-boot random byte, fixed to 0xAE, and the 32-bit
 `data` word holds the fixed byte 0xAA, the team code, the weapon code, a
 zero nibble and a four-bit checksum.

 `teamValue` and `weaponValue` are 32-bit unsigned in the source, so the
 packing arithmetic is modelled on `bv32` with its wrap-around; codes of
 256 or more spill into the neighbouring fields exactly as they do there.
 */
module DynastyLaserTag {

  import opened DynastyWire
  import opened DynastySend
  import opened DynastyDecode
  import BitArith

  const RandByte: bv8 := 0xAE         // the boot-time random byte, fixed to 0xAE
  const FixedByte: bv32 := 0xAA       // 0b10101010
  const ChecksumOffset: bv32 := 0x0D

  /**
   The four-bit checksum: offset, team and weapon summed in 32 bits, then
   masked to the low nibble. It is the unbounded sum modulo 16, whatever
   the inputs, because 2^32 is a multiple of 16.
   */
  function Checksum(team: bv32, weapon: bv32): (c: bv32)
    ensures c < 16
    ensures c as int == (ChecksumOffset as int + team as int + weapon as int) % 16
  {
    BitArith.WrappingSumMod16(ChecksumOffset, team, weapon);
    (ChecksumOffset + team + weapon) & 0x000F
  }

  /**
   The 32-bit `data` word: fixed byte, team, weapon and checksum. The low
   byte is always a zero nibble followed by the checksum, since the shifted
   team and weapon never reach it.
   */
  function PackData(team: bv32, weapon: bv32): (data: bv32)
    ensures data & 0xF0 == 0
    ensures data & 0xF == Checksum(team, weapon)
  {
    (FixedByte << 24) | (team << 16) | (weapon << 8) | Checksum(team, weapon)
  }

  /** The fields of a `data` word, read back with the shifts and masks of its layout. */
  datatype Fields = Fields(marker: bv32, team: bv32, weapon: bv32, reserved: bv32, checksum: bv32)

  function Unpack(data: bv32): (f: Fields)
    ensures f.marker < 256 && f.team < 256 && f.weapon < 256
    ensures f.reserved < 16 && f.checksum < 16
  {
    Fields((data >> 24) & 0xFF, (data >> 16) & 0xFF, (data >> 8) & 0xFF, (data >> 4) & 0xF, data & 0xF)
  }

  /** A `data` word as `sendWithTeamAndWeapon` lays it out. */
  predicate WellFormed(data: bv32) {
    var f := Unpack(data);
    f.marker == FixedByte && f.reserved == 0 && f.checksum == Checksum(f.team, f.weapon)
  }

  /** For 8-bit codes every field of the packed word reads back exactly. */
  lemma PackedFields(team: bv32, weapon: bv32)
    requires team < 256 && weapon < 256
    ensures Unpack(PackData(team, weapon)) == Fields(FixedByte, team, weapon, 0, Checksum(team, weapon))
    ensures WellFormed(PackData(team, weapon))
  {}

  /** Conversely, every well-formed word is the packing of its own team and weapon. */
  lemma UnpackPacks(data: bv32)
    requires WellFormed(data)
    ensures PackData(Unpack(data).team, Unpack(data).weapon) == data
  {}

  /** Distinct 8-bit team/weapon pairs give distinct `data` words. */
  lemma PackInjective(team: bv32, weapon: bv32, team': bv32, weapon': bv32)
    requires team < 256 && weapon < 256 && team' < 256 && weapon' < 256
    requires PackData(team, weapon) == PackData(team', weapon')
    ensures team == team' && weapon == weapon'
  {
    PackedFields(team, weapon);
    PackedFields(team', weapon');
  }

  /** The worked example: team 0x12 and weapon 0x34 give checksum 3. */
  lemma PackExample()
    ensures Checksum(0x12, 0x34) == 0x3
    ensures PackData(0x12, 0x34) == 0xAA12_3403
  {}

  /**
   `sendWithTeamAndWeapon(team, weapon)`: compute the checksum and the
   `data` word, then `send(data, 0xAE)`. Whatever the codes, the frame
   decodes to address 0xAE and the packed word; for 8-bit codes the team,
   weapon and checksum read back from it.
   */
  method SendWithTeamAndWeapon(team: bv32, weapon: bv32) returns (pulses: seq<Pulse>)
    ensures pulses == Frame(PackData(team, weapon), RandByte)
    ensures Decode(pulses) == Decoded(DecodedBits, RandByte, PackData(team, weapon))
    ensures team < 256 && weapon < 256 ==>
              Unpack(Decode(pulses).value) == Fields(FixedByte, team, weapon, 0, Checksum(team, weapon))
  {
    var data := PackData(team, weapon);
    var data2 := RandByte;
    pulses := Send(data, data2);
    TeamWeaponDecodes(team, weapon);
  }

  /**
   The frame for any codes decodes to address 0xAE and the packed word;
   for 8-bit codes, the team, weapon and checksum read back from it.
   */
  lemma TeamWeaponDecodes(team: bv32, weapon: bv32)
    ensures Decode(Frame(PackData(team, weapon), RandByte)) == Decoded(DecodedBits, RandByte, PackData(team, weapon))
    ensures team < 256 && weapon < 256 ==>
              Unpack(Decode(Frame(PackData(team, weapon), RandByte)).value)
              == Fields(FixedByte, team, weapon, 0, Checksum(team, weapon))
  {
    DecodeFrame(PackData(team, weapon), RandByte);
    if team < 256 && weapon < 256 {
      PackedFields(team, weapon);
    }
  }

  /** Distinct 8-bit team/weapon pairs are sent as distinct frames. */
  lemma TeamWeaponFramesDistinct(team: bv32, weapon: bv32, team': bv32, weapon': bv32)
    requires team < 256 && weapon < 256 && team' < 256 && weapon' < 256
    requires Frame(PackData(team, weapon), RandByte) == Frame(PackData(team', weapon'), RandByte)
    ensures team == team' && weapon == weapon'
  {
    FrameInjective(PackData(team, weapon), RandByte, PackData(team', weapon'), RandByte);
    PackInjective(team, weapon, team', weapon');
  }
}
