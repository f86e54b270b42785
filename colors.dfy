/** RGB565 colour packing: 5 bits of red, 6 of green and 5 of blue in a
    16-bit pixel, red in the top bits. */
module Colors {
  import opened Display

  /** The `RGB565(r, g, b)` macro. The arguments are C `int`s, taken here as
      their 32 bits; each is masked to its field width before it is shifted
      into place, so an argument that is too large wraps rather than
      spilling into the neighbouring field. The result always fits in 16 bits. */
  function Rgb565(r: bv32, g: bv32, b: bv32): (c: Color)
    ensures Red(c) == r & 0x1F
    ensures Green(c) == g & 0x3F
    ensures Blue(c) == b & 0x1F
  {
    (((r & 0x1F) << 11) | ((g & 0x3F) << 5) | (b & 0x1F)) as bv16
  }

  /** The red field of a pixel, bits 11..15. */
  function Red(c: Color): (r: bv32)
    ensures r < 32
  {
    (c >> 11) as bv32
  }

  /** The green field of a pixel, bits 5..10. */
  function Green(c: Color): (g: bv32)
    ensures g < 64
  {
    ((c >> 5) & 0x3F) as bv32
  }

  /** The blue field of a pixel, bits 0..4. */
  function Blue(c: Color): (b: bv32)
    ensures b < 32
  {
    (c & 0x1F) as bv32
  }

  /** Packing the three fields of any pixel gives that pixel back: every
      16-bit value is an RGB565 colour, and the three fields determine it. */
  lemma UnpackPack(c: Color)
    ensures Rgb565(Red(c), Green(c), Blue(c)) == c
  {
  }

  /** Channels already within their field widths survive packing unchanged. */
  lemma PackUnpack(r: bv32, g: bv32, b: bv32)
    requires r < 32 && g < 64 && b < 32
    ensures Red(Rgb565(r, g, b)) == r
    ensures Green(Rgb565(r, g, b)) == g
    ensures Blue(Rgb565(r, g, b)) == b
  {
  }

  /** Packing reads its arguments only through their field masks. */
  lemma Rgb565OnlyMasks(r: bv32, g: bv32, b: bv32, r': bv32, g': bv32, b': bv32)
    requires r & 0x1F == r' & 0x1F && g & 0x3F == g' & 0x3F && b & 0x1F == b' & 0x1F
    ensures Rgb565(r, g, b) == Rgb565(r', g', b')
  {
    var c, c' := Rgb565(r, g, b), Rgb565(r', g', b');
    calc {
      c;
      { UnpackPack(c); }
      Rgb565(Red(c), Green(c), Blue(c));
      Rgb565(Red(c'), Green(c'), Blue(c'));
      { UnpackPack(c'); }
      c';
    }
  }

  /** Two packings are the same pixel exactly when their masked channels agree. */
  lemma Rgb565Injective(r: bv32, g: bv32, b: bv32, r': bv32, g': bv32, b': bv32)
    ensures Rgb565(r, g, b) == Rgb565(r', g', b') <==>
              r & 0x1F == r' & 0x1F && g & 0x3F == g' & 0x3F && b & 0x1F == b' & 0x1F
  {
    if r & 0x1F == r' & 0x1F && g & 0x3F == g' & 0x3F && b & 0x1F == b' & 0x1F {
      Rgb565OnlyMasks(r, g, b, r', g', b');
    }
  }

  /** The named colours of the test pattern. */
  const WHITE: Color := Rgb565(31, 63, 31)
  const BLACK: Color := Rgb565(0, 0, 0)
  const GRAY: Color := Rgb565(15, 31, 15)
  const RED: Color := Rgb565(31, 0, 0)
  const GREEN: Color := Rgb565(0, 63, 0)
  const BLUE: Color := Rgb565(0, 0, 31)
  const YELLOW: Color := Rgb565(31, 63, 0)
  const CYAN: Color := Rgb565(0, 63, 31)
  const MAGENTA: Color := Rgb565(31, 0, 31)

  /** The named colours are the full-scale (or zero) values of their fields
      and pairwise distinct. */
  lemma NamedColors()
    ensures WHITE == 0xFFFF && BLACK == 0 && GRAY == 0x7BEF
    ensures RED == 0xF800 && GREEN == 0x07E0 && BLUE == 0x001F
    ensures YELLOW == 0xFFE0 && CYAN == 0x07FF && MAGENTA == 0xF81F
  {
  }
}
