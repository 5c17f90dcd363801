/** The integer part of `UIColor(number:)`, `UIColor(number:alpha:)` and
    `UIColor.random`: a 32-bit colour number is split into bytes by shifting
    and masking. Each `UInt8(x)` of the Swift code is written `x as bv8`, which,
    like Swift's initializer, is only defined when `x` fits in a byte.
    All arithmetic below is on `bv32`, Swift's `UInt32`. */
module ColorBytes {

  /** Red, green, blue and alpha bytes of a colour. */
  datatype RGBA = RGBA(red: bv8, green: bv8, blue: bv8, alpha: bv8)

  /** Red, green and blue bytes; the alpha of `init(number:alpha:)` is a
      floating-point argument passed through untouched. */
  datatype RGB = RGB(red: bv8, green: bv8, blue: bv8)

  /** The number whose bytes are `c`, most significant byte first. */
  function ToNumber(c: RGBA): (number: bv32)
  {
    ((c.red as bv32) << 24) | ((c.green as bv32) << 16) | ((c.blue as bv32) << 8) | (c.alpha as bv32)
  }

  /** The bytes of `init(number:)`: the number is read as 0xRRGGBBAA, so red
      is bits 31-24, green bits 23-16, blue bits 15-8 and alpha bits 7-0. */
  function FromNumber(number: bv32): (c: RGBA)
    ensures c.red as bv32 == number / 0x100_0000
    ensures c.green as bv32 == number / 0x1_0000 % 0x100
    ensures c.blue as bv32 == number / 0x100 % 0x100
    ensures c.alpha as bv32 == number % 0x100
  {
    RGBA((number >> 24) as bv8,
         ((number >> 16) & 0xff) as bv8,
         ((number >> 8) & 0xff) as bv8,
         (number & 0xff) as bv8)
  }

  /** The documented example: 0x123456ff is red 0x12, green 0x34, blue 0x56
      and alpha 0xff. */
  lemma FromNumberExample()
    ensures FromNumber(0x1234_56ff) == RGBA(0x12, 0x34, 0x56, 0xff)
  {
  }

  /** Decoding then recomposing gives back the number as a sum of weighted
      bytes. Each weighted byte lies below the next weight, so the 32-bit
      sum does not wrap and equals the sum over the integers. */
  lemma FromNumberRecomposes(number: bv32)
    ensures var c := FromNumber(number);
      && (c.red as bv32) * 0x100_0000 <= 0xff00_0000
      && (c.green as bv32) * 0x1_0000 <= 0x00ff_0000
      && (c.blue as bv32) * 0x100 <= 0x0000_ff00
      && (c.red as bv32) * 0x100_0000 + (c.green as bv32) * 0x1_0000
         + (c.blue as bv32) * 0x100 + c.alpha as bv32 == number
  {
  }

  /** `FromNumber` and `ToNumber` are inverse to each other in both directions. */
  lemma FromNumberToNumber(number: bv32, c: RGBA)
    ensures ToNumber(FromNumber(number)) == number
    ensures FromNumber(ToNumber(c)) == c
  {
  }

  /** The bytes of `init(number:alpha:)`: the number is read as 0xRRGGBB.
      `UInt8(number >> 16)` traps unless the number is below 2^24. */
  function FromNumberWithAlpha(number: bv32): (c: RGB)
    requires number < 0x100_0000
    ensures c.red as bv32 == number / 0x1_0000
    ensures c.green as bv32 == number / 0x100 % 0x100
    ensures c.blue as bv32 == number % 0x100
  {
    RGB((number >> 16) as bv8,
        ((number >> 8) & 0xff) as bv8,
        (number & 0xff) as bv8)
  }

  /** The precondition of `FromNumberWithAlpha` is exactly the condition
      under which the unmasked red byte fits in a `UInt8`. */
  lemma WithAlphaRedFits(number: bv32)
    ensures number >> 16 <= 0xff <==> number < 0x100_0000
  {
  }

  /** On a 24-bit number, `init(number:alpha:)` gives the bytes that
      `init(number:)` gives for the same number shifted up by one byte. */
  lemma WithAlphaAgreesWithShifted(number: bv32)
    requires number < 0x100_0000
    ensures var c := FromNumber(number << 8);
      FromNumberWithAlpha(number) == RGB(c.red, c.green, c.blue) && c.alpha == 0
  {
  }

  /** The number `random` feeds to `init(number:)`: the random value with
      its low byte forced to 0xff. */
  function RandomNumber(random: bv32): (number: bv32)
    ensures FromNumber(number).alpha == 0xff
    ensures FromNumber(number).red == FromNumber(random).red
    ensures FromNumber(number).green == FromNumber(random).green
    ensures FromNumber(number).blue == FromNumber(random).blue
  {
    random | 0x0000_00ff
  }
}
