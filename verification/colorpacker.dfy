/**
  Packing of a mesh colour and opacity into the 32-bit vertex colour
  (`FloatColorToUint`): alpha in the top byte, then blue, green and red.
 */
module ColorPacker {
  import opened Words

  /** A normalised colour channel, as the animation engine produces it. */
  type Channel = x: real | 0.0 <= x <= 1.0

  datatype Color = Color(r: Channel, g: Channel, b: Channel)

  /**
    The conversion `floor(x * 255.5)` of one channel, over exact reals (the
    IEEE rounding of the float product is not modelled): the greatest integer
    not above `x * 255.5`. It stays within one byte and, divided by 255,
    within 1/255 of the channel.
   */
  function ChannelToUint(x: Channel): (q: Byte)
    ensures q <= 255
    ensures q as real <= x * 255.5 < q as real + 1.0
    ensures x - 1.0 / 255.0 < q as real / 255.0 <= x + 1.0 / 510.0
  {
    (x * 255.5).Floor
  }

  /**
    `(a << 24) | (b << 16) | (g << 8) | r` on byte-sized `uint32_t` channels.
    The four shifted bytes do not overlap, so the `|` is a sum and the result
    fits 32 bits without wrapping. Each channel extracts back exactly.
   */
  function PackColor(r: Byte, g: Byte, b: Byte, a: Byte): (c: U32)
    ensures Red(c) == r && Green(c) == g && Blue(c) == b && Alpha(c) == a
  {
    var ab := a * 0x100 + b;
    var abg := ab * 0x100 + g;
    SplitByte(ab, b);
    SplitByte(abg, g);
    SplitByte(abg * 0x100 + r, r);
    abg * 0x100 + r
  }

  /** Bits 0-7 of a packed colour. */
  function Red(c: U32): Byte {
    c % 0x100
  }

  /** Bits 8-15 of a packed colour. */
  function Green(c: U32): Byte {
    (c / 0x100) % 0x100
  }

  /** Bits 16-23 of a packed colour. */
  function Blue(c: U32): Byte {
    (c / 0x100 / 0x100) % 0x100
  }

  /** Bits 24-31 of a packed colour. */
  function Alpha(c: U32): Byte {
    c / 0x100 / 0x100 / 0x100
  }

  /** Appending a low byte to `x` and splitting it off again. */
  lemma SplitByte(x: int, lo: Byte)
    ensures (x * 0x100 + lo) % 0x100 == lo && (x * 0x100 + lo) / 0x100 == x
  {
  }

  /**
    Splits a packed colour into its four bytes; packing them again gives the
    same word, so every 32-bit colour is the packing of exactly one byte quadruple.
   */
  function UnpackColor(c: U32): (ch: (Byte, Byte, Byte, Byte))
    ensures PackColor(ch.0, ch.1, ch.2, ch.3) == c
  {
    var c1 := c / 0x100;
    var c2 := c1 / 0x100;
    assert c == c1 * 0x100 + Red(c);
    assert c1 == c2 * 0x100 + Green(c);
    assert c2 == Alpha(c) * 0x100 + Blue(c);
    (Red(c), Green(c), Blue(c), Alpha(c))
  }

  /**
    `FloatColorToUint`: the packed vertex colour of an RGB colour and an
    opacity. Each byte reads back as the quantised channel it came from.
   */
  function FloatColorToUint(color: Color, alpha: Channel): (c: U32)
    ensures Red(c) == ChannelToUint(color.r)
    ensures Green(c) == ChannelToUint(color.g)
    ensures Blue(c) == ChannelToUint(color.b)
    ensures Alpha(c) == ChannelToUint(alpha)
  {
    PackColor(ChannelToUint(color.r), ChannelToUint(color.g), ChannelToUint(color.b), ChannelToUint(alpha))
  }
}
