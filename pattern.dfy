/** The monoscope test pattern of draw_monoscope_pattern: a full-screen frame
    built by successive passes over one buffer, each pass overwriting what the
    earlier ones drew. Each pass is a method proved against a function of the
    buffer before it; the finished frame is then described pixel by pixel. */
module Pattern {
  import opened Display
  import opened Colors
  import opened Raster

  /** The centre of the panel, `DISPLAY_WIDTH / 2` and `DISPLAY_HEIGHT / 2`. */
  const CX: int := W / 2
  const CY: int := H / 2

  /** The eight broadcast bars, left to right. */
  const BarColors: seq<Color> := [WHITE, YELLOW, CYAN, GREEN, MAGENTA, RED, BLUE, BLACK]

  /** Width of a colour bar (`DISPLAY_WIDTH / 8`) and of a grey bar
      (`DISPLAY_WIDTH / 10`). */
  const BarWidth: int := W / 8
  const GreyBarWidth: int := W / 10

  /** The colour bar holding column x: the eight bars exactly tile the width. */
  function BarIndex(x: int): (b: int)
    requires 0 <= x < W
    ensures 0 <= b < 8 && 40 * b <= x < 40 * b + 40
  {
    x / BarWidth
  }

  /** The grey bar holding column x: the ten bars exactly tile the width. */
  function GreyIndex(x: int): (b: int)
    requires 0 <= x < W
    ensures 0 <= b < 10 && 32 * b <= x < 32 * b + 32
  {
    x / GreyBarWidth
  }

  /** Height of the bar band at the top and of the grey ramp at the bottom. */
  const BarRows: int := 40
  const RampRows: int := 30

  /** Length of each arm of a corner mark, and the rows the marks sit on. */
  const CornerSize: int := 20
  const CornerTop: int := 50
  const CornerBottom: int := H - 50

  /** `RGB565(i * 3, i * 6, i * 3)`, the shade of grey bar i. */
  function GreyLevel(i: int): (c: Color)
    requires 0 <= i < 10
  {
    Rgb565((i * 3) as bv32, (i * 6) as bv32, (i * 3) as bv32)
  }

  /*** The passes, as functions of the buffer before them ***/

  /** The black background. */
  function Blank(): (t: seq<Color>)
    ensures |t| == N
  {
    seq(N, i => BLACK)
  }

  /** The top BarRows rows, each column in the colour of its bar. */
  function ColorBars(s: seq<Color>): (t: seq<Color>)
    requires |s| == N
    ensures |t| == N
  {
    seq(N, i requires 0 <= i < N =>
      if Row(i) < BarRows then BarColors[BarIndex(Col(i))] else s[i])
  }

  /** The full-width centre row and the full-height centre column, in white. */
  function Crosshair(s: seq<Color>): (t: seq<Color>)
    requires |s| == N
    ensures |t| == N
  {
    seq(N, i requires 0 <= i < N => if Row(i) == CY || Col(i) == CX then WHITE else s[i])
  }

  /** The four white discs of radius 80, 60, 40 and 20 around the centre, in
      that order. */
  function Circles(s: seq<Color>): (t: seq<Color>)
    requires |s| == N
    ensures |t| == N
  {
    Circle(Circle(Circle(Circle(s, CX, CY, 80, WHITE), CX, CY, 60, WHITE), CX, CY, 40, WHITE), CX, CY, 20, WHITE)
  }

  /** The arms of the four corner marks, each a draw_line call. */
  const TopLeftH: Segment := Segment(0, CornerTop, CornerSize, CornerTop)
  const TopLeftV: Segment := Segment(CornerSize, CornerTop, CornerSize, CornerTop + CornerSize)
  const TopRightH: Segment := Segment(W - 1, CornerTop, W - 1 - CornerSize, CornerTop)
  const TopRightV: Segment := Segment(W - 1 - CornerSize, CornerTop, W - 1 - CornerSize, CornerTop + CornerSize)
  const BottomLeftH: Segment := Segment(0, CornerBottom, CornerSize, CornerBottom)
  const BottomLeftV: Segment := Segment(CornerSize, CornerBottom, CornerSize, CornerBottom - CornerSize)
  const BottomRightH: Segment := Segment(W - 1, CornerBottom, W - 1 - CornerSize, CornerBottom)
  const BottomRightV: Segment := Segment(W - 1 - CornerSize, CornerBottom, W - 1 - CornerSize, CornerBottom - CornerSize)

  /** The corner marks, drawn in white in the source's order. */
  function CornerMarks(s: seq<Color>): (t: seq<Color>)
    requires |s| == N
    ensures |t| == N
  {
    var tl := Line(Line(s, TopLeftH, WHITE), TopLeftV, WHITE);
    var tr := Line(Line(tl, TopRightH, WHITE), TopRightV, WHITE);
    var bl := Line(Line(tr, BottomLeftH, WHITE), BottomLeftV, WHITE);
    Line(Line(bl, BottomRightH, WHITE), BottomRightV, WHITE)
  }

  /** The X through the centre (cx, cy), drawn in red: the falling diagonal,
      then the rising one. */
  function Diagonals(s: seq<Color>, cx: int, cy: int): (t: seq<Color>)
    requires |s| == N
    ensures |t| == N
  {
    Line(Line(s, Segment(cx - 50, cy - 50, cx + 50, cy + 50), RED), Segment(cx + 50, cy - 50, cx - 50, cy + 50), RED)
  }

  /** The bottom RampRows rows, each column in the shade of its grey bar. */
  function GreyRamp(s: seq<Color>): (t: seq<Color>)
    requires |s| == N
    ensures |t| == N
  {
    seq(N, i requires 0 <= i < N =>
      if Row(i) >= H - RampRows then GreyLevel(GreyIndex(Col(i))) else s[i])
  }

  /** The finished frame: the passes in the order draw_monoscope_pattern runs them. */
  function Frame(): (t: seq<Color>)
    ensures |t| == N
  {
    GreyRamp(Diagonals(CornerMarks(Circles(Crosshair(ColorBars(Blank())))), CX, CY))
  }

  /*** The passes, as the source performs them ***/

  /** Fill the whole buffer with black. */
  method FillBlack(buf: array<Color>)
    requires buf.Length == N
    modifies buf
    ensures buf[..] == Blank()
  {
    var i := 0;
    while i < W * H
      invariant 0 <= i <= N
      invariant forall k :: 0 <= k < i ==> buf[k] == BLACK
    {
      buf[i] := BLACK;
      i := i + 1;
    }
  }

  /** Eight bars, each BarWidth columns wide and BarRows rows high. */
  method DrawColorBars(buf: array<Color>)
    requires buf.Length == N
    modifies buf
    ensures buf[..] == ColorBars(old(buf[..]))
  {
    ghost var s := buf[..];
    var barWidth := W / 8;
    assert barWidth == 40;
    var i := 0;
    while i < 8
      invariant 0 <= i <= 8
      invariant forall k :: 0 <= k < N ==>
        buf[k] == if Row(k) < BarRows && BarIndex(Col(k)) < i then BarColors[BarIndex(Col(k))] else s[k]
    {
      var y := 0;
      while y < 40
        invariant 0 <= y <= 40
        invariant forall k :: 0 <= k < N ==>
          buf[k] == if Row(k) < BarRows && (BarIndex(Col(k)) < i || (BarIndex(Col(k)) == i && Row(k) < y))
                    then BarColors[BarIndex(Col(k))] else s[k]
      {
        var x := i * barWidth;
        assert (i + 1) * barWidth == i * 40 + 40;
        while x < (i + 1) * barWidth && x < W
          invariant i * 40 <= x <= i * 40 + 40
          invariant forall k :: 0 <= k < N ==>
            buf[k] == if Row(k) < BarRows && (BarIndex(Col(k)) < i || (BarIndex(Col(k)) == i && (Row(k) < y || (Row(k) == y && Col(k) < x))))
                      then BarColors[BarIndex(Col(k))] else s[k]
        {
          buf[Index(x, y)] := BarColors[i];
          x := x + 1;
        }
        y := y + 1;
      }
      i := i + 1;
    }
  }

  /** The horizontal and then the vertical line of the crosshair. */
  method DrawCrosshair(buf: array<Color>)
    requires buf.Length == N
    modifies buf
    ensures buf[..] == Crosshair(old(buf[..]))
  {
    ghost var s := buf[..];
    var x := 0;
    while x < W
      invariant 0 <= x <= W
      invariant forall k :: 0 <= k < N ==> buf[k] == if Row(k) == CY && Col(k) < x then WHITE else s[k]
    {
      buf[Index(x, CY)] := WHITE;
      x := x + 1;
    }
    var y := 0;
    while y < H
      invariant 0 <= y <= H
      invariant forall k :: 0 <= k < N ==>
        buf[k] == if Row(k) == CY || (Col(k) == CX && Row(k) < y) then WHITE else s[k]
    {
      buf[Index(CX, y)] := WHITE;
      y := y + 1;
    }
  }

  /** Ten grey bars, each GreyBarWidth columns wide, over the bottom RampRows rows. */
  method DrawGreyRamp(buf: array<Color>)
    requires buf.Length == N
    modifies buf
    ensures buf[..] == GreyRamp(old(buf[..]))
  {
    ghost var s := buf[..];
    var grayBarWidth := W / 10;
    assert grayBarWidth == 32;
    var i := 0;
    while i < 10
      invariant 0 <= i <= 10
      invariant forall k :: 0 <= k < N ==>
        buf[k] == if Row(k) >= H - RampRows && GreyIndex(Col(k)) < i then GreyLevel(GreyIndex(Col(k))) else s[k]
    {
      var grayLevel := Rgb565((i * 3) as bv32, (i * 6) as bv32, (i * 3) as bv32);
      var y := H - 30;
      while y < H
        invariant H - RampRows <= y <= H
        invariant forall k :: 0 <= k < N ==>
          buf[k] == if Row(k) >= H - RampRows && (GreyIndex(Col(k)) < i || (GreyIndex(Col(k)) == i && Row(k) < y))
                    then GreyLevel(GreyIndex(Col(k))) else s[k]
      {
        var x := i * grayBarWidth;
        assert (i + 1) * grayBarWidth == i * 32 + 32;
        while x < (i + 1) * grayBarWidth && x < W
          invariant i * 32 <= x <= i * 32 + 32
          invariant forall k :: 0 <= k < N ==>
            buf[k] == if Row(k) >= H - RampRows &&
                         (GreyIndex(Col(k)) < i || (GreyIndex(Col(k)) == i && (Row(k) < y || (Row(k) == y && Col(k) < x))))
                      then GreyLevel(GreyIndex(Col(k))) else s[k]
        {
          buf[Index(x, y)] := grayLevel;
          x := x + 1;
        }
        y := y + 1;
      }
      i := i + 1;
    }
  }

  /** The two red diagonals of the resolution-test X, as drawn by
      draw_monoscope_pattern around the centre (cx, cy). */
  method DrawDiagonals(buf: array<Color>, cx: int, cy: int)
    requires buf.Length == N
    modifies buf
    ensures buf[..] == Diagonals(old(buf[..]), cx, cy)
  {
    DrawLine(buf, cx - 50, cy - 50, cx + 50, cy + 50, RED);
    DrawLine(buf, cx + 50, cy - 50, cx - 50, cy + 50, RED);
  }

  /** draw_monoscope_pattern: allocate a full-screen buffer, run the passes and
      blit the result to the whole panel. `allocOk` says whether the buffer
      allocation succeeded; when it fails nothing is drawn or sent. */
  method DrawMonoscopePattern(allocOk: bool) returns (blits: seq<Blit>)
    ensures blits == if allocOk then [Blit(0, 0, W, H, Frame())] else []
  {
    if !allocOk {
      return [];
    }
    var screenBuf := new Color[W * H];

    FillBlack(screenBuf);
    var centerX := W / 2;
    var centerY := H / 2;
    DrawColorBars(screenBuf);
    DrawCrosshair(screenBuf);
    ghost var crossed := screenBuf[..];
    assert crossed == Crosshair(ColorBars(Blank()));

    DrawCircle(screenBuf, centerX, centerY, 80, WHITE);
    DrawCircle(screenBuf, centerX, centerY, 60, WHITE);
    DrawCircle(screenBuf, centerX, centerY, 40, WHITE);
    DrawCircle(screenBuf, centerX, centerY, 20, WHITE);
    ghost var circled := screenBuf[..];
    assert circled == Circles(crossed);

    var cornerSize := 20;
    // top-left
    DrawLine(screenBuf, 0, 50, cornerSize, 50, WHITE);
    DrawLine(screenBuf, cornerSize, 50, cornerSize, 50 + cornerSize, WHITE);
    // top-right
    DrawLine(screenBuf, W - 1, 50, W - 1 - cornerSize, 50, WHITE);
    DrawLine(screenBuf, W - 1 - cornerSize, 50, W - 1 - cornerSize, 50 + cornerSize, WHITE);
    // bottom-left
    DrawLine(screenBuf, 0, H - 50, cornerSize, H - 50, WHITE);
    DrawLine(screenBuf, cornerSize, H - 50, cornerSize, H - 50 - cornerSize, WHITE);
    // bottom-right
    DrawLine(screenBuf, W - 1, H - 50, W - 1 - cornerSize, H - 50, WHITE);
    DrawLine(screenBuf, W - 1 - cornerSize, H - 50, W - 1 - cornerSize, H - 50 - cornerSize, WHITE);
    ghost var marked := screenBuf[..];
    assert marked == CornerMarks(circled);

    // the X for the resolution test
    DrawDiagonals(screenBuf, centerX, centerY);
    ghost var crossedOut := screenBuf[..];
    assert crossedOut == Diagonals(marked, CX, CY);

    DrawGreyRamp(screenBuf);
    assert screenBuf[..] == GreyRamp(crossedOut);

    blits := [Blit(0, 0, W, H, screenBuf[..])];
  }

  /*** The finished frame, pixel by pixel ***/

  /** (x, y) lies on one of the eight arms of the corner marks. */
  predicate OnCornerMark(x: int, y: int)
  {
    var left := 0 <= x <= CornerSize;
    var right := W - 1 - CornerSize <= x <= W - 1;
    var top := CornerTop <= y <= CornerTop + CornerSize;
    var bottom := CornerBottom - CornerSize <= y <= CornerBottom;
    ((y == CornerTop || y == CornerBottom) && (left || right)) ||
    ((x == CornerSize || x == W - 1 - CornerSize) && (top || bottom))
  }

  /** (x, y) lies on the red X around (cx, cy): on one of its two diagonals,
      at most 50 pixels from the centre along each axis. */
  predicate OnX(x: int, y: int, cx: int, cy: int)
  {
    Abs(x - cx) == Abs(y - cy) <= 50
  }

  /** The colour of pixel (x, y) of the test pattern, stated directly: the grey
      ramp at the bottom wins, then the red X, then anything white (corner
      marks, discs, crosshair), then the colour bars at the top; the rest is
      black. */
  function MonoscopePixel(x: int, y: int): Color
    requires InBounds(x, y)
  {
    if y >= H - RampRows then GreyLevel(GreyIndex(x))
    else if OnX(x, y, CX, CY) then RED
    else if OnCornerMark(x, y) || InDisk(x - CX, y - CY, 80) || x == CX || y == CY then WHITE
    else if y < BarRows then BarColors[BarIndex(x)]
    else BLACK
  }

  /** (x, y) is left untouched by every pass after the background fill. */
  predicate Background(x: int, y: int)
  {
    !(y >= H - RampRows || OnX(x, y, CX, CY) || OnCornerMark(x, y) || InDisk(x - CX, y - CY, 80) ||
      x == CX || y == CY || y < BarRows)
  }

  /** The four nested discs leave exactly the largest one white. */
  lemma CirclesAt(s: seq<Color>, k: int)
    requires |s| == N && 0 <= k < N
    ensures Circles(s)[k] == if InDisk(Col(k) - CX, Row(k) - CY, 80) then WHITE else s[k]
  {
    var dx, dy := Col(k) - CX, Row(k) - CY;
    if InDisk(dx, dy, 20) { DiskGrows(dx, dy, 20, 80); }
    if InDisk(dx, dy, 40) { DiskGrows(dx, dy, 40, 80); }
    if InDisk(dx, dy, 60) { DiskGrows(dx, dy, 60, 80); }
  }

  /** The eight corner arms whiten exactly the corner-mark cells. */
  lemma CornerMarksAt(s: seq<Color>, k: int)
    requires |s| == N && 0 <= k < N
    ensures CornerMarks(s)[k] == if OnCornerMark(Col(k), Row(k)) then WHITE else s[k]
  {
    var s1 := Line(s, TopLeftH, WHITE);
    var s2 := Line(s1, TopLeftV, WHITE);
    var s3 := Line(s2, TopRightH, WHITE);
    var s4 := Line(s3, TopRightV, WHITE);
    var s5 := Line(s4, BottomLeftH, WHITE);
    var s6 := Line(s5, BottomLeftV, WHITE);
    var s7 := Line(s6, BottomRightH, WHITE);
    AxisLineAt(s, TopLeftH, WHITE, k);
    AxisLineAt(s1, TopLeftV, WHITE, k);
    AxisLineAt(s2, TopRightH, WHITE, k);
    AxisLineAt(s3, TopRightV, WHITE, k);
    AxisLineAt(s4, BottomLeftH, WHITE, k);
    AxisLineAt(s5, BottomLeftV, WHITE, k);
    AxisLineAt(s6, BottomRightH, WHITE, k);
    AxisLineAt(s7, BottomRightV, WHITE, k);
  }

  /** The two red diagonals paint exactly the X around (cx, cy). */
  lemma DiagonalsAt(s: seq<Color>, cx: int, cy: int, k: int)
    requires |s| == N && 0 <= k < N
    ensures Diagonals(s, cx, cy)[k] == if OnX(Col(k), Row(k), cx, cy) then RED else s[k]
  {
    var falling := Segment(cx - 50, cy - 50, cx + 50, cy + 50);
    var rising := Segment(cx + 50, cy - 50, cx - 50, cy + 50);
    DiagonalLineAt(s, falling, RED, k);
    DiagonalLineAt(Line(s, falling, RED), rising, RED, k);
  }

  /** The passes over any background b: each pixel is the one MonoscopePixel
      describes, except that b shows where no pass draws. */
  lemma ComposeAt(b: seq<Color>, k: int)
    requires |b| == N && 0 <= k < N
    ensures var t := GreyRamp(Diagonals(CornerMarks(Circles(Crosshair(ColorBars(b)))), CX, CY));
            t[k] == if Background(Col(k), Row(k)) then b[k] else MonoscopePixel(Col(k), Row(k))
  {
    var x, y := Col(k), Row(k);
    var crossed := Crosshair(ColorBars(b));
    var circled := Circles(crossed);
    var marked := CornerMarks(circled);
    CirclesAt(crossed, k);
    CornerMarksAt(circled, k);
    DiagonalsAt(marked, CX, CY, k);
  }

  /** Every pixel of the composed frame is the one MonoscopePixel describes. */
  lemma FrameAt(k: int)
    requires 0 <= k < N
    ensures Frame()[k] == MonoscopePixel(Col(k), Row(k))
  {
    ComposeAt(Blank(), k);
  }

  /** The top-left pixel is the white of the first colour bar. */
  lemma FrameTopLeftWhite()
    ensures Frame()[Index(0, 0)] == WHITE
  {
    var k := Index(0, 0);
    assert Col(k) == 0 && Row(k) == 0;
    assert BarIndex(0) == 0;
    assert MonoscopePixel(0, 0) == WHITE;
    FrameAt(k);
  }

  /** The centre pixel is red: the diagonals, drawn after the crosshair and
      the discs, both pass through it. */
  lemma FrameCentreRed()
    ensures Frame()[Index(CX, CY)] == RED
  {
    FrameAt(Index(CX, CY));
  }

  /** The last shade of the ramp is RGB565(27, 54, 27). */
  lemma BrightestGrey()
    ensures GreyLevel(9) == Rgb565(27, 54, 27)
  {
    assert (9 * 3) as bv32 == 27 && (9 * 6) as bv32 == 54;
  }

  /** The bottom-right pixel is the brightest grey, RGB565(27, 54, 27). */
  lemma FrameBottomRightGrey()
    ensures Frame()[Index(W - 1, H - 1)] == Rgb565(27, 54, 27)
  {
    var k := Index(W - 1, H - 1);
    assert Col(k) == W - 1 && Row(k) == H - 1;
    assert GreyIndex(W - 1) == 9;
    BrightestGrey();
    FrameAt(k);
  }

  /** The top BarRows rows show the eight bars, except in the crosshair's
      centre column. */
  lemma FrameBars(x: int, y: int)
    requires 0 <= x < W && 0 <= y < BarRows && x != CX
    ensures Frame()[Index(x, y)] == BarColors[BarIndex(x)]
  {
    FrameAt(Index(x, y));
    assert !InDisk(x - CX, y - CY, 80);
    assert !OnX(x, y, CX, CY) && !OnCornerMark(x, y);
  }

  /** The bottom RampRows rows show the ten shades, column band by band. */
  lemma FrameRamp(x: int, y: int)
    requires 0 <= x < W && H - RampRows <= y < H
    ensures Frame()[Index(x, y)] == GreyLevel(GreyIndex(x))
  {
    FrameAt(Index(x, y));
  }

  /** No shade of the ramp is truncated by the RGB565 masks: each channel
      keeps exactly 3i, 6i and 3i, so the ramp brightens strictly from bar to
      bar. */
  lemma GreyLevelExact(i: int)
    requires 0 <= i < 10
    ensures Red(GreyLevel(i)) == (i * 3) as bv32 && Blue(GreyLevel(i)) == (i * 3) as bv32
    ensures Green(GreyLevel(i)) == (i * 6) as bv32
  {
    var r: bv32 := (i * 3) as bv32;
    var g: bv32 := (i * 6) as bv32;
    assert r < 32 && g < 64;
    PackUnpack(r, g, r);
  }
}
