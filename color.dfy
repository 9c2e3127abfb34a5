/** GRB colour words of the WS2812 chain and the 8-bit alignment `put_pixel` applies. */
module Color {
  /** `make_grb`: green in bits 23..16, red in bits 15..8, blue in bits 7..0. */
  function MakeGrb(r: bv8, g: bv8, b: bv8): (w: bv32)
    ensures w == (g as bv32) * 0x1_0000 + (r as bv32) * 0x100 + b as bv32
    ensures w < 0x100_0000
    ensures (w >> 16) as bv8 == g && ((w >> 8) & 0xFF) as bv8 == r && (w & 0xFF) as bv8 == b
  {
    ((g as bv32) << 16) | ((r as bv32) << 8) | (b as bv32)
  }

  /** The word `put_pixel` hands to the transport: `pixel_grb << 8u` on a `uint32_t`. */
  function PixelWord(pixelGrb: bv32): (w: bv32)
    ensures w & 0xFF == 0
  {
    pixelGrb << 8
  }

  /** The colour of a lit LED in `update_matrix`: `make_grb(10, 10, 10)`. */
  const OnColor: bv32 := MakeGrb(10, 10, 10)

  /** The colour of a dark LED in `update_matrix`: `make_grb(0, 0, 0)`. */
  const OffColor: bv32 := MakeGrb(0, 0, 0)

  /** The shift is lossless for any 24-bit colour: it multiplies by 256, clears the
      low byte, and shifting back right recovers the colour. */
  lemma PixelWordLossless(pixelGrb: bv32)
    requires pixelGrb < 0x100_0000
    ensures PixelWord(pixelGrb) == pixelGrb * 0x100
    ensures PixelWord(pixelGrb) & 0xFF == 0
    ensures PixelWord(pixelGrb) >> 8 == pixelGrb
  {
  }

  /** Every `make_grb` result survives `put_pixel`: the word on the wire is the
      three colour bytes followed by a zero padding byte. */
  lemma WireWord(r: bv8, g: bv8, b: bv8)
    ensures PixelWord(MakeGrb(r, g, b))
            == (g as bv32) * 0x100_0000 + (r as bv32) * 0x1_0000 + (b as bv32) * 0x100
    ensures PixelWord(MakeGrb(r, g, b)) & 0xFF == 0
  {
    PixelWordLossless(MakeGrb(r, g, b));
  }

  /** The 32-bit shift drops every bit above bit 23: only the low 24 bits of the
      colour reach the wire. */
  lemma PixelWordTruncates(pixelGrb: bv32)
    ensures PixelWord(pixelGrb) == PixelWord(pixelGrb & 0xFF_FFFF)
  {
  }

  /** The two colours `update_matrix` sends, as they appear on the wire. */
  lemma WireColors()
    ensures PixelWord(OnColor) == 0x0A0A_0A00
    ensures PixelWord(OffColor) == 0
  {
  }
}
