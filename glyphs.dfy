/** The constant 5x5 glyph table `digitMap`: one row of 25 on/off flags per digit,
    in chain order, the order of the C initialiser (flag `i` is the LED at chain
    position `i`; the second and fourth matrix rows are stored mirrored, because
    the chain snakes back along them). */
module Glyphs {
  /** `NUM_PIXELS`: the 5x5 matrix. */
  const NumPixels: nat := 25

  /** A digit the table has a glyph for. */
  predicate IsDigit(d: int)
  {
    0 <= d <= 9
  }

  const DigitMap: seq<seq<bool>> := [
    // 0
    [true,  true,  true,  true,  true,
     true,  false, false, false, true,
     true,  false, false, false, true,
     true,  false, false, false, true,
     true,  true,  true,  true,  true],
    // 1
    [false, true,  true,  true,  false,
     false, false, true,  false, false,
     false, false, true,  false, false,
     false, false, true,  false, false,
     false, false, true,  true,  false],
    // 2
    [true,  true,  true,  true,  true,
     true,  false, false, false, false,
     true,  true,  true,  true,  true,
     false, false, false, false, true,
     true,  true,  true,  true,  true],
    // 3
    [true,  true,  true,  true,  true,
     false, false, false, false, true,
     true,  true,  true,  true,  true,
     false, false, false, false, true,
     true,  true,  true,  true,  true],
    // 4
    [false, true,  false, false, false,
     false, false, false, true,  false,
     true,  true,  true,  true,  true,
     false, true,  false, true,  false,
     false, true,  true,  false, false],
    // 5
    [true,  true,  true,  true,  true,
     false, false, false, false, true,
     true,  true,  true,  true,  true,
     true,  false, false, false, false,
     true,  true,  true,  true,  true],
    // 6
    [true,  true,  true,  true,  true,
     true,  false, false, false, true,
     true,  true,  true,  true,  true,
     true,  false, false, false, false,
     true,  true,  true,  true,  true],
    // 7
    [false, false, false, false, true,
     false, true,  false, false, false,
     false, false, true,  false, false,
     false, false, false, true,  false,
     true,  true,  true,  true,  true],
    // 8
    [true,  true,  true,  true,  true,
     true,  false, false, false, true,
     true,  true,  true,  true,  true,
     true,  false, false, false, true,
     true,  true,  true,  true,  true],
    // 9
    [true,  true,  true,  true,  true,
     false, false, false, false, true,
     true,  true,  true,  true,  true,
     true,  false, false, false, true,
     true,  true,  true,  true,  true]
  ]

  /** `digitMap[digit]`: the glyph of a digit, one flag per pixel of the frame. */
  function Glyph(digit: int): (g: seq<bool>)
    requires IsDigit(digit)
    ensures |g| == NumPixels
  {
    DigitMap[digit]
  }

  /** `digitMap[digit][i]`: whether pixel `i` of the digit's glyph is lit. */
  function Lit(digit: int, i: int): bool
    requires IsDigit(digit) && 0 <= i < NumPixels
  {
    Glyph(digit)[i]
  }

  /** No two digits share a glyph, so every frame shows which digit it is. */
  lemma GlyphsDistinct(d1: int, d2: int)
    requires IsDigit(d1) && IsDigit(d2) && d1 != d2
    ensures Glyph(d1) != Glyph(d2)
  {
  }
}
