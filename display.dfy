/** The panel geometry and the one operation of the display driver that the
    drawing code uses: pushing a rectangle of pixels to the panel (a blit).
    The driver itself is outside the model; a blit is recorded as an event. */
module Display {

  /** DISPLAY_WIDTH and DISPLAY_HEIGHT of the ILI9341 panel, in pixels. */
  const W: int := 320
  const H: int := 240
  /** Number of pixels of a full-screen buffer. */
  const N: int := W * H

  /** A packed RGB565 pixel, the `uint16_t` element of every pixel buffer. */
  type Color = bv16

  /** A random draw of the hardware generator: a `uint32_t`. */
  type u32 = x: int | 0 <= x < 0x1_0000_0000

  /** The random generator as an oracle: `rnd(k)` is the k-th draw. */
  type RandomSource = nat -> u32

  /** One call of `esp_lcd_panel_draw_bitmap(panel, x0, y0, x1, y1, pixels)`:
      the rectangle [x0, x1) x [y0, y1) receives `pixels`, row-major. */
  datatype Blit = Blit(x0: int, y0: int, x1: int, y1: int, pixels: seq<Color>)
  {
    /** The blit covers one full-width row `y` of the panel. */
    predicate IsRow(y: int)
    {
      x0 == 0 && x1 == W && y0 == y && y1 == y + 1 && 0 <= y < H && |pixels| == W
    }
  }
}
