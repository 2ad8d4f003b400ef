/** Colours and the packed 24-bit form the pixel buffer stores. */
module Colour {

  /** An 8-bit-per-channel sRGB colour (`palette::Srgb<u8>`). */
  datatype Rgb = Rgb(red: bv8, green: bv8, blue: bv8)

  const White: Rgb := Rgb(255, 255, 255)

  /** Recovers the channels from a stored cell by shift and mask. */
  function Unpack(v: bv32): Rgb
  {
    Rgb(((v >> 16) & 0xFF) as bv8, ((v >> 8) & 0xFF) as bv8, (v & 0xFF) as bv8)
  }

  /** The packed value `blue | green << 8 | red << 16` a pixel write stores. */
  function Pack(c: Rgb): (v: bv32)
    ensures v < 0x100_0000
    ensures Unpack(v) == c
    ensures v == c.blue as bv32 + 256 * c.green as bv32 + 65536 * c.red as bv32
  {
    PackChannels(c.red, c.green, c.blue);
    (c.blue as bv32) | ((c.green as bv32) << 8) | ((c.red as bv32) << 16)
  }

  /** The bit-level facts behind Pack, on the bare channels. */
  lemma PackChannels(r: bv8, g: bv8, b: bv8)
    ensures var v := (b as bv32) | ((g as bv32) << 8) | ((r as bv32) << 16);
      && v < 0x100_0000
      && ((v >> 16) & 0xFF) as bv8 == r && ((v >> 8) & 0xFF) as bv8 == g && (v & 0xFF) as bv8 == b
      && v == b as bv32 + 256 * g as bv32 + 65536 * r as bv32
  {
  }

  lemma PackInjective(c: Rgb, d: Rgb)
    ensures Pack(c) == Pack(d) <==> c == d
  {
    if Pack(c) == Pack(d) {
      assert c == Unpack(Pack(c)) == Unpack(Pack(d)) == d;
    }
  }
}
