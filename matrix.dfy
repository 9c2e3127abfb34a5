/** The frame renderer: `put_pixel` and `update_matrix`, writing into the LED
    transport, which is modelled as the sequence of words it has accepted. */
module Matrix {
  import opened Color
  import opened Glyphs

  /** The PIO state machine driving the chain; `Sent` is every word it has accepted. */
  class PixelTransport {
    var Sent: seq<bv32>

    constructor ()
      ensures Sent == []
    {
      Sent := [];
    }

    /** `pio_sm_put_blocking`: the word is appended once the queue takes it. */
    method PutBlocking(word: bv32)
      modifies this
      ensures Sent == old(Sent) + [word]
    {
      Sent := Sent + [word];
    }
  }

  /** `put_pixel`: sends the colour shifted into the top 24 bits of the word. */
  method PutPixel(pio: PixelTransport, pixelGrb: bv32)
    modifies pio
    ensures pio.Sent == old(pio.Sent) + [PixelWord(pixelGrb)]
  {
    pio.PutBlocking(pixelGrb << 8);
  }

  /** The wire word for pixel `i` of a digit's frame. */
  function FrameWord(digit: int, i: int): (w: bv32)
    requires IsDigit(digit) && 0 <= i < NumPixels
  {
    PixelWord(if Lit(digit, i) then OnColor else OffColor)
  }

  /** The 25 words `update_matrix(digit)` sends, pixel 0 first. */
  function Frame(digit: int): (f: seq<bv32>)
    requires IsDigit(digit)
    ensures |f| == NumPixels
    ensures forall i :: 0 <= i < NumPixels ==> f[i] & 0xFF == 0
  {
    seq(NumPixels, i requires 0 <= i < NumPixels => FrameWord(digit, i))
  }

  /** A frame is exactly 25 words; word `i` is the lit colour `0x0A0A0A00` when the
      glyph's pixel `i` is set and `0` otherwise, and no other word occurs. */
  lemma FrameShape(digit: int)
    requires IsDigit(digit)
    ensures |Frame(digit)| == NumPixels
    ensures forall i :: 0 <= i < NumPixels ==>
              (Frame(digit)[i] == 0x0A0A_0A00 <==> Lit(digit, i)) &&
              (Frame(digit)[i] == 0 <==> !Lit(digit, i))
  {
    WireColors();
  }

  /** Different digits are drawn as different frames. */
  lemma FramesDistinct(d1: int, d2: int)
    requires IsDigit(d1) && IsDigit(d2) && d1 != d2
    ensures Frame(d1) != Frame(d2)
  {
    GlyphsDistinct(d1, d2);
    FrameShape(d1);
    FrameShape(d2);
    var i :| 0 <= i < NumPixels && Glyph(d1)[i] != Glyph(d2)[i];
    assert Frame(d1)[i] != Frame(d2)[i];
  }

  /** `update_matrix`: for each pixel in index order, sends the lit or dark colour
      according to the glyph. Only the transport changes, and by exactly one frame. */
  method UpdateMatrix(pio: PixelTransport, digit: int)
    requires IsDigit(digit)
    modifies pio
    ensures pio.Sent == old(pio.Sent) + Frame(digit)
  {
    var onColor := MakeGrb(10, 10, 10);
    var offColor := MakeGrb(0, 0, 0);
    for i := 0 to NumPixels
      invariant pio.Sent == old(pio.Sent) + Frame(digit)[..i]
    {
      FramePrefix(digit, i);
      if Glyph(digit)[i] {
        PutPixel(pio, onColor);
      } else {
        PutPixel(pio, offColor);
      }
    }
    FramePrefix(digit, NumPixels);
  }

  /** The frame's first `i` words, and one word more. */
  lemma FramePrefix(digit: int, i: int)
    requires IsDigit(digit) && 0 <= i <= NumPixels
    ensures i == NumPixels ==> Frame(digit)[..i] == Frame(digit)
    ensures i < NumPixels ==> Frame(digit)[..i + 1] == Frame(digit)[..i] + [FrameWord(digit, i)]
  {
  }
}
