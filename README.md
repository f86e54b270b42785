# Monoscope TV test pattern — a verified model

This project models the firmware in `main/monoscope.c` for an ESP32 board with
an ILI9341 display (320 x 240 pixels, RGB565). The firmware draws a monoscope
test pattern into a full-screen buffer and sends it to the panel. It then loops
forever and imitates an old television: after a random wait it overwrites
random rows with static, dims a few rows now and then, or redraws the clean
pattern.

The model is written in Dafny, one module per concern:

- `display.dfy` (`Display`):
  - the panel size;
  - the 16-bit pixel type;
  - the 32-bit random draw;
  - the `Blit` event, which stands for one `esp_lcd_panel_draw_bitmap` call.
- `colors.dfy` (`Colors`):
  - the `RGB565` macro on 32-bit arguments;
  - the three field readers;
  - the named colours.
- `raster.dfy` (`Raster`):
  - `draw_circle` and `draw_line` as methods on an `array` of pixels, each
    proved against a function on the buffer's contents;
  - `draw_line`'s Bresenham walk, described as a list of visited points over
    the loop's step counts, with lemmas about which pixels it covers.
- `pattern.dfy` (`Pattern`):
  - `draw_monoscope_pattern`, one method per pass over the buffer, each proved
    against a function of the buffer before it;
  - `MonoscopePixel`, which states the finished frame pixel by pixel and is
    proved equal to it.
- `effects.dfy` (`Effects`):
  - `add_tv_noise`;
  - `simulate_tv_flicker`, whose static counter is the field of the
    `TvFlicker` class.
- `app.dfy` (`App`):
  - the start-up draw;
  - one turn of `app_main`'s loop, covering the random wait, the effect
    choice and the dispatch.

Every `esp_random()` call reads the next value of a `RandomSource`, a function
from positions to 32-bit values. Each operation takes the position of its
first draw and returns the position after its last one. A `malloc` that may
fail is a boolean input: when it is false, the operation returns before it
draws or sends anything, as the C code does. Every panel write is returned as a
list of `Blit` values, each holding the rectangle and the pixels sent.

Two facts about the composed frame follow from the order of the passes:

- The centre pixel (160, 120) is red. Both red diagonals pass through it, and
  they are drawn after the crosshair and the discs (`Pattern.FrameCentreRed`).
- The comment at main/monoscope.c:167 says "concentric circles", but all four
  discs are filled with the same white. Together they form one white disc of
  radius 80 (`Pattern.CirclesAt`).

## Model

| member | source | states |
|---|---|---|
| Colors.Rgb565 | main/monoscope.c:28 | Each field of the packed pixel is the matching argument masked to 5, 6 or 5 bits. |
| Colors.UnpackPack | main/monoscope.c:28 | Packing the three fields of any 16-bit pixel gives that pixel back. |
| Colors.PackUnpack | main/monoscope.c:28 | Channels that fit their fields are read back unchanged after packing. |
| Colors.Rgb565Injective | main/monoscope.c:28 | Two packings are equal exactly when their masked channels agree, in both directions. |
| Colors.NamedColors | main/monoscope.c:29-37 | The nine named colours have the standard RGB565 values (white 0xFFFF, red 0xF800, …). |
| Raster.PutPixelAt | main/monoscope.c:90-92 | A clipped store changes only the cell of an on-panel point, and changes nothing for an off-panel point. |
| Raster.DrawCircle | main/monoscope.c:83-96 | The new buffer is the old one with every on-panel cell of the disk `x*x + y*y <= r*r` set to the colour. |
| Raster.CircleExact | main/monoscope.c:83-96 | A cell gets the colour exactly when it lies within the radius of the centre; every other cell keeps its value. |
| Raster.CircleRadiusZero | main/monoscope.c:83-96 | Radius 0 writes only the centre pixel, and only when it is on the panel. |
| Raster.DiskGrows | main/monoscope.c:87 | A point inside a disk is inside every larger disk with the same centre. |
| Raster.NextStep | main/monoscope.c:113-121 | One loop turn never overshoots the end point on either axis and always moves, so draw_line terminates. |
| Raster.DrawLine | main/monoscope.c:98-123 | The new buffer is the old one with every on-panel point of the Bresenham walk set to the colour. |
| Raster.LineAt | main/monoscope.c:98-123 | A cell gets the colour exactly when the walk visits it; unvisited cells are unchanged, and off-panel points write nothing. |
| Raster.LineEndpoints | main/monoscope.c:107-111 | Both endpoints get the colour whenever they are on the panel. |
| Raster.PathFromInBox | main/monoscope.c:106-122 | Every point the walk visits lies in the segment's bounding box. |
| Raster.StepIsNeighbour | main/monoscope.c:113-121 | One loop turn moves to a different point, at most one unit along each axis. |
| Raster.PathFromSteps | main/monoscope.c:106-122 | Consecutive visited points are distinct 8-neighbours, so the line has no gaps and never stores the same pixel twice in a row. |
| Raster.NotRevisited | main/monoscope.c:113-121 | Once the walk moves past a position, it never returns to that point. |
| Raster.PathFromDistinct | main/monoscope.c:106-122 | No two points of the walk coincide. |
| Raster.PathDistinct | main/monoscope.c:98-123 | draw_line visits each pixel at most once. |
| Raster.LineSinglePoint | main/monoscope.c:106-111 | A segment with equal endpoints visits one point and writes one clipped pixel. |
| Raster.AxisLineAt | main/monoscope.c:98-123 | A horizontal or vertical line colours exactly the on-panel cells between its endpoints. |
| Raster.DiagonalLineAt | main/monoscope.c:98-123 | A 45-degree line colours exactly the on-panel cells of its diagonal between the endpoints. |
| Pattern.BarIndex | main/monoscope.c:145-151 | Each column belongs to exactly one of the eight 40-pixel colour bars. |
| Pattern.GreyIndex | main/monoscope.c:196-200 | Each column belongs to exactly one of the ten 32-pixel grey bars. |
| Pattern.BrightestGrey | main/monoscope.c:197-198 | The shade of the last grey bar is RGB565(27, 54, 27). |
| Pattern.GreyLevelExact | main/monoscope.c:198 | No ramp shade is truncated: its channels are exactly 3i, 6i and 3i. |
| Pattern.FillBlack | main/monoscope.c:136-139 | Every cell of the buffer is black. |
| Pattern.DrawColorBars | main/monoscope.c:144-155 | Rows 0..39 take the colour of their column's bar; all other cells are unchanged. |
| Pattern.DrawCrosshair | main/monoscope.c:157-165 | Row 120 and column 160 become white; all other cells are unchanged. |
| Pattern.CirclesAt | main/monoscope.c:167-171 | The four nested white discs together whiten exactly the disc of radius 80. |
| Pattern.CornerMarksAt | main/monoscope.c:173-189 | The eight corner arms whiten exactly the corner-mark cells. |
| Pattern.DrawDiagonals | main/monoscope.c:191-193 | The two red diagonals are drawn through the given centre, in the source's order. |
| Pattern.DiagonalsAt | main/monoscope.c:191-193 | The diagonals colour red exactly the cells of the X, where the offsets from the centre are equal in size and at most 50. |
| Pattern.DrawGreyRamp | main/monoscope.c:195-204 | Rows 210..239 take their grey bar's shade; all other cells are unchanged. |
| Pattern.DrawMonoscopePattern | main/monoscope.c:125-210 | Sends one full-screen blit of the composed frame, or nothing when the buffer cannot be allocated. |
| Pattern.FrameAt | main/monoscope.c:125-210 | Every pixel of the composed frame equals the direct description `MonoscopePixel`, which gives priority to the ramp, then the red X, then white, then the bars, with black elsewhere. |
| Pattern.FrameTopLeftWhite | main/monoscope.c:146-152 | Pixel (0, 0) is white, the first bar's colour. |
| Pattern.FrameCentreRed | main/monoscope.c:157-193 | Pixel (160, 120) is red, because the diagonals are drawn over the crosshair and the discs. |
| Pattern.FrameBottomRightGrey | main/monoscope.c:195-204 | Pixel (319, 239) is RGB565(27, 54, 27), the brightest grey. |
| Pattern.FrameBars | main/monoscope.c:144-165 | In rows 0..39, every column except 160 shows its bar's colour. |
| Pattern.FrameRamp | main/monoscope.c:195-204 | In rows 210..239, every pixel shows the shade of its column's grey bar. |
| Effects.NoiseColor | main/monoscope.c:227-240 | When the draw modulo 10 is below 3, the pixel is white, grey or black; otherwise its channels are the draw modulo 8, 16 and 8. |
| Effects.NoiseSpeck | main/monoscope.c:230-236 | A speck is white, grey or black exactly when the draw modulo 3 is 0, 1 or 2. |
| Effects.NoiseDim | main/monoscope.c:238-240 | Static outside the specks is dark: red equals blue, both are below 8, and green is below 16. |
| Effects.NoiseColorsOccur | main/monoscope.c:227-240 | All three speck colours and the dark static occur for some draw. |
| Effects.RandomRow | main/monoscope.c:223 | The chosen row lies in 0..239. |
| Effects.FillNoise | main/monoscope.c:225-242 | The row buffer holds one static pixel per draw, in draw order. |
| Effects.AddTvNoise | main/monoscope.c:212-249 | Sends twenty one-row blits, each to the row its first draw selects and filled from the next 320 draws, using 6420 draws in all. Sends and draws nothing when the buffer cannot be allocated. |
| Effects.NoiseRowsOnPanel | main/monoscope.c:223-245 | Every noise blit covers one full on-panel row. |
| Effects.NextCycle | main/monoscope.c:255 | The counter stays in 0..99. |
| Effects.FiresIff | main/monoscope.c:258 | Within the cycle, the flicker fires exactly at counter values 0, 30, 60 and 90. |
| Effects.CycleAfterMod | main/monoscope.c:254-255 | After n calls from the initial 0, the counter is n modulo 100. |
| Effects.FlickerCalls | main/monoscope.c:254-258 | Call n flickers exactly when n modulo 100 is 0, 30, 60 or 90. |
| Effects.FirstFlicker | main/monoscope.c:254-258 | The first flicker happens on the 30th call. |
| Effects.FlickerColor | main/monoscope.c:262 | The flicker colour is RGB565(2, 4, 2) exactly when the draw is odd, and RGB565(8, 16, 8) otherwise. |
| Effects.FlickerDim | main/monoscope.c:262 | Both flicker colours are greys darker than the pattern's grey. |
| Effects.Flicker | main/monoscope.c:260-275 | Sends five one-row blits of the flicker colour, each to a random row, using six draws. Sends and draws nothing when the buffer cannot be allocated. |
| Effects.TvFlicker.constructor | main/monoscope.c:254 | The counter starts at 0. |
| Effects.TvFlicker.Simulate | main/monoscope.c:251-277 | Advances the counter modulo 100 and flickers only when the new value is a multiple of 30. |
| App.SelectEffect | main/monoscope.c:296-307 | The draw modulo 10 selects noise for 0..5, flicker for 6..7 and redraw for 8..9. |
| App.EffectShares | main/monoscope.c:296-307 | Six of the ten digits select noise, two select flicker and two select redraw. |
| App.Delay | main/monoscope.c:292 | The random wait lies in 100..1999 ms. |
| App.DelayOnto | main/monoscope.c:292 | Every wait in 100..1999 ms occurs. |
| App.Start | main/monoscope.c:284-285 | Start-up sends the clean pattern once. |
| App.Step | main/monoscope.c:290-311 | One loop turn returns the wait, the effect the second draw selects, and exactly the blits and draws of that effect; only a flicker turn changes the counter. |

## Left out

- `init_display` (SPI bus, panel IO and ILI9341 set-up) is driver configuration with nothing to compute. It is not modelled.
- `esp_lcd_panel_draw_bitmap` is recorded as a `Blit` value and not performed. Driver failures, which abort through `ESP_ERROR_CHECK`, are not modelled.
- `esp_random` is replaced by the `RandomSource` parameter. Nothing is assumed about how its values are distributed, so the model states which draws lead to which outcome, not probabilities.
- `vTaskDelay` is left out: `App.Step` returns the two waits instead of sleeping.
- The endless loop of `app_main` is modelled one turn at a time (`App.Step`). The flicker counter is the state that carries from one turn to the next.
- Logging (`ESP_LOGI`, `ESP_LOGE`) and `free` have no effect on what is drawn.
- Raster.DrawCircle: does not model overflow of the C `int` products `x*x + y*y` and `radius*radius`. Dafny integers are unbounded, and the radii the pattern uses (at most 80) are far from overflow.
- Raster.DrawLine: does not model overflow in the C `int` arithmetic of draw_line. That covers the differences `x2 - x1` and `y2 - y1`, `abs`, the updates `err -= dy` and `err += dx`, and `2 * err`. The segments the pattern uses are at most 100 pixels long.
- Colors.Rgb565: takes its arguments as 32-bit values. All the pattern's arguments are small non-negative `int`s, for which this equals the C macro.
