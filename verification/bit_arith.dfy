/**
 Bridges between the 32-bit unsigned arithmetic of the transmitter and
 unbounded integers. Z3 reasons well about bit-vectors and about integers,
 but poorly about the conversion between them, so each step below keeps
 only one of the two worlds in its proof context.
 */
module BitArith {

  /** A byte placed above a 32-bit word is worth 2^32 times its value. */
  lemma ByteWordConcat(hi: bv8, lo: bv32)
    ensures ((hi as bv40 << 32) | lo as bv40) as int == hi as int * 0x1_0000_0000 + lo as int
  {}

  /**
   Equal bit-vectors have equal values. The solver does not carry an
   equality of bit-vector terms through `as int` by itself when the terms
   are large, so this is stated on two plain variables.
   */
  lemma SameValue(x: bv40, y: bv40)
    requires x == y
    ensures x as int == y as int
  {}

  /** A 32-bit word is its upper 28 bits times 16 plus its low nibble. */
  lemma NibbleConcat(hi: bv28, lo: bv4)
    ensures ((hi as bv32 << 4) | lo as bv32) as int == hi as int * 16 + lo as int
  {}

  lemma NibbleSplit(x: bv32)
    ensures x as int == (x >> 4) as bv28 as int * 16 + (x & 0xF) as bv4 as int
  {
    var hi := (x >> 4) as bv28;
    var lo := (x & 0xF) as bv4;
    assert x == (hi as bv32 << 4) | lo as bv32;
    NibbleConcat(hi, lo);
  }

  lemma NibbleWiden(x: bv32)
    ensures (x & 0xF) as int == (x & 0xF) as bv4 as int
  {}

  lemma ModOfSplit(n: int, h: int, l: int)
    requires n == h * 16 + l && 0 <= l < 16
    ensures n % 16 == l
  {}

  /** Masking with 0xF keeps exactly the value modulo 16. */
  lemma LowNibble(x: bv32)
    ensures (x & 0xF) as int == x as int % 16
  {
    NibbleSplit(x);
    NibbleWiden(x);
    ModOfSplit(x as int, (x >> 4) as bv28 as int, (x & 0xF) as bv4 as int);
  }

  /** Nibble addition wraps around modulo 16. */
  lemma NibbleAdd(a: bv4, b: bv4)
    ensures (a + b) as int == (a as int + b as int) % 16
  {}

  /** The low nibble of a 32-bit sum is the nibble sum of the addends' low nibbles. */
  lemma SumLowNibble(a: bv32, b: bv32, c: bv32)
    ensures ((a + b + c) & 0xF) as bv4 == (a & 0xF) as bv4 + (b & 0xF) as bv4 + (c & 0xF) as bv4
  {}

  /** The low nibble of a word, read as a number, is the word modulo 16. */
  lemma NibbleValue(x: bv32)
    ensures (x & 0xF) as bv4 as int == x as int % 16
  {
    LowNibble(x);
    NibbleWiden(x);
  }

  lemma SumNibbleValue(a: bv32, b: bv32, c: bv32)
    ensures ((a + b + c) & 0xF) as int == ((a & 0xF) as bv4 + (b & 0xF) as bv4 + (c & 0xF) as bv4) as int
  {
    SumLowNibble(a, b, c);
    NibbleWiden(a + b + c);
  }

  /** The low nibble of a sum is the sum of the addends' low nibbles, modulo 16. */
  lemma NibbleSum(a: bv32, b: bv32, c: bv32)
    ensures ((a + b + c) & 0xF) as int
            == ((a & 0xF) as bv4 as int + (b & 0xF) as bv4 as int + (c & 0xF) as bv4 as int) % 16
  {
    SumNibbleValue(a, b, c);
    NibbleAdd3((a & 0xF) as bv4, (b & 0xF) as bv4, (c & 0xF) as bv4);
  }

  lemma NibbleAdd3(a: bv4, b: bv4, c: bv4)
    ensures (a + b + c) as int == (a as int + b as int + c as int) % 16
  {
    NibbleAdd(a, b);
    NibbleAdd(a + b, c);
    ModAddLeft((a + b) as int, a as int + b as int, c as int);
  }

  lemma ModAddLeft(x: int, y: int, z: int)
    requires x == y % 16
    ensures (x + z) % 16 == (y + z) % 16
  {}

  lemma ModSum(an: int, bn: int, cn: int, a: int, b: int, c: int)
    requires an == a % 16 && bn == b % 16 && cn == c % 16
    ensures (an + bn + cn) % 16 == (a + b + c) % 16
  {
    var q := a / 16 + b / 16 + c / 16;
    assert a + b + c == q * 16 + (an + bn + cn);
    ModMultiple(q, an + bn + cn);
  }

  /** Adding a multiple of 16 does not change a value modulo 16. */
  lemma ModMultiple(q: int, r: int)
    ensures (q * 16 + r) % 16 == r % 16
  {}

  /**
   The low nibble of a wrapping 32-bit sum is the unbounded sum modulo 16:
   2^32 is a multiple of 16, so the wrap-around never reaches those bits.
   */
  lemma WrappingSumMod16(a: bv32, b: bv32, c: bv32)
    ensures ((a + b + c) & 0xF) as int == (a as int + b as int + c as int) % 16
  {
    NibbleSum(a, b, c);
    NibbleValue(a);
    NibbleValue(b);
    NibbleValue(c);
    ModSum((a & 0xF) as bv4 as int, (b & 0xF) as bv4 as int, (c & 0xF) as bv4 as int, a as int, b as int, c as int);
  }
}
