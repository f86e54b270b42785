/** The primitive rasteriser: a filled circle and a Bresenham line, drawn into
    a full-screen RGB565 buffer stored row-major, pixel (x, y) at index
    `y * W + x`. Both primitives clip pixel by pixel: a point off the panel is
    skipped, never wrapped onto a neighbouring row. */
module Raster {
  import opened Display

  /** A pixel position (x, y). */
  type Point = (int, int)

  /** (x, y) lies on the panel. */
  predicate InBounds(x: int, y: int)
  {
    0 <= x < W && 0 <= y < H
  }

  /** The column of buffer index i. */
  function Col(i: int): (x: int)
    requires 0 <= i < N
    ensures 0 <= x < W
  {
    i % W
  }

  /** The row of buffer index i; together with the column it gives i back. */
  function Row(i: int): (y: int)
    requires 0 <= i < N
    ensures 0 <= y < H
    ensures i == y * W + Col(i)
  {
    i / W
  }

  /** Row-major index of an on-panel pixel, `y * DISPLAY_WIDTH + x`. */
  function Index(x: int, y: int): (i: int)
    requires InBounds(x, y)
    ensures 0 <= i < N
    ensures Col(i) == x && Row(i) == y
  {
    y * W + x
  }

  /** Every index of the buffer is the index of exactly one on-panel pixel. */
  lemma IndexOfCoords(i: int)
    requires 0 <= i < N
    ensures InBounds(Col(i), Row(i)) && Index(Col(i), Row(i)) == i
  {
  }

  /** The clipped store `if (on panel) buffer[y * W + x] = c;`. */
  function PutPixel(s: seq<Color>, p: Point, c: Color): (t: seq<Color>)
    requires |s| == N
    ensures |t| == N
  {
    if InBounds(p.0, p.1) then s[Index(p.0, p.1) := c] else s
  }

  /** A clipped store changes exactly the pixel it names, and only when that
      pixel is on the panel. */
  lemma PutPixelAt(s: seq<Color>, p: Point, c: Color, k: int)
    requires |s| == N && 0 <= k < N
    ensures PutPixel(s, p, c)[k] == if p == (Col(k), Row(k)) then c else s[k]
  {
    IndexOfCoords(k);
  }

  /*** Filled circle (draw_circle) ***/

  /** The offset (dx, dy) from the centre passes both of draw_circle's tests:
      it lies in the (2r+1) x (2r+1) box its two loops scan, and
      dx*dx + dy*dy <= r*r. */
  predicate InDisk(dx: int, dy: int, r: int)
  {
    -r <= dx <= r && -r <= dy <= r && dx * dx + dy * dy <= r * r
  }

  /** The buffer after draw_circle(s, cx, cy, r, c). */
  function Circle(s: seq<Color>, cx: int, cy: int, r: int, c: Color): (t: seq<Color>)
    requires |s| == N
    ensures |t| == N
  {
    seq(N, i requires 0 <= i < N => if InDisk(Col(i) - cx, Row(i) - cy, r) then c else s[i])
  }

  /** Multiplying by a non-negative factor keeps an inequality. */
  lemma MulLe(a: int, b: int, c: int)
    requires 0 <= a && b <= c
    ensures a * b <= a * c
  {
  }

  /** A square bounds its root: a*a <= r*r with r >= 0 puts a in [-r, r]. */
  lemma SquareBound(a: int, r: int)
    requires 0 <= r && a * a <= r * r
    ensures -r <= a <= r
  {
    var m := if a < 0 then -a else a;
    assert m * m == a * a;
    if m > r {
      MulLe(m, r, m);
      MulLe(r, r, m);
      assert false;
    }
  }

  /** The scanned box is no restriction: an offset is in the disk exactly when
      the radius is not negative and dx*dx + dy*dy <= r*r. */
  lemma InDiskIff(dx: int, dy: int, r: int)
    ensures InDisk(dx, dy, r) <==> 0 <= r && dx * dx + dy * dy <= r * r
  {
    if 0 <= r && dx * dx + dy * dy <= r * r {
      assert dx * dx <= r * r && dy * dy <= r * r;
      SquareBound(dx, r);
      SquareBound(dy, r);
    }
  }

  /** draw_circle fills exactly the disk: an on-panel pixel receives the colour
      iff its squared distance from the centre is at most r*r (and r >= 0);
      every other pixel keeps its value. */
  lemma CircleExact(s: seq<Color>, cx: int, cy: int, r: int, c: Color, x: int, y: int)
    requires |s| == N && InBounds(x, y)
    ensures Circle(s, cx, cy, r, c)[Index(x, y)] ==
              if 0 <= r && (x - cx) * (x - cx) + (y - cy) * (y - cy) <= r * r
              then c else s[Index(x, y)]
  {
    InDiskIff(x - cx, y - cy, r);
  }

  /** With radius 0 only the centre is written, and only when it is on the panel. */
  lemma CircleRadiusZero(s: seq<Color>, cx: int, cy: int, c: Color)
    requires |s| == N
    ensures Circle(s, cx, cy, 0, c) == PutPixel(s, (cx, cy), c)
  {
    forall k | 0 <= k < N
      ensures Circle(s, cx, cy, 0, c)[k] == PutPixel(s, (cx, cy), c)[k]
    {
      PutPixelAt(s, (cx, cy), c, k);
    }
  }

  /** A disk contains every smaller disk around the same centre. */
  lemma DiskGrows(dx: int, dy: int, r: int, r': int)
    requires 0 <= r <= r' && InDisk(dx, dy, r)
    ensures InDisk(dx, dy, r')
  {
    MulLe(r, r, r');
    MulLe(r', r, r');
  }

  /** draw_circle: scan the box row by row and store every in-disk, on-panel
      pixel. */
  method DrawCircle(buffer: array<Color>, cx: int, cy: int, radius: int, color: Color)
    requires buffer.Length == N
    modifies buffer
    ensures buffer[..] == Circle(old(buffer[..]), cx, cy, radius, color)
  {
    ghost var s := buffer[..];
    var y := -radius;
    while y <= radius
      invariant -radius <= y
      invariant forall i :: 0 <= i < N ==>
        buffer[i] == if InDisk(Col(i) - cx, Row(i) - cy, radius) && Row(i) - cy < y then color else s[i]
    {
      var x := -radius;
      while x <= radius
        invariant -radius <= x <= radius + 1
        invariant forall i :: 0 <= i < N ==>
          buffer[i] == if InDisk(Col(i) - cx, Row(i) - cy, radius) &&
                          (Row(i) - cy < y || (Row(i) - cy == y && Col(i) - cx < x))
                       then color else s[i]
      {
        if x * x + y * y <= radius * radius {
          var px := cx + x;
          var py := cy + y;
          if px >= 0 && px < W && py >= 0 && py < H {
            buffer[Index(px, py)] := color;
          }
        }
        x := x + 1;
      }
      y := y + 1;
    }
  }

  /*** Bresenham line (draw_line) ***/

  /** `abs` from the C library. */
  function Abs(a: int): int
  {
    if a < 0 then -a else a
  }

  /** The coordinate k unit steps from a in the direction of b; draw_line steps
      by +1 when a < b and by -1 otherwise. */
  function Toward(a: int, b: int, k: int): int
  {
    if a < b then a + k else a - k
  }

  /** v lies between a and b, both included. */
  predicate Between(a: int, v: int, b: int)
  {
    if a <= b then a <= v <= b else b <= v <= a
  }

  /** The arguments (x1, y1) -> (x2, y2) of one draw_line call. */
  datatype Segment = Segment(x1: int, y1: int, x2: int, y2: int)
  {
    /** `dx = abs(x2 - x1)` and `dy = abs(y2 - y1)`. */
    function Dx(): int { Abs(x2 - x1) }
    function Dy(): int { Abs(y2 - y1) }

    /** The walk's position after i steps along x and j steps along y. */
    function At(i: int, j: int): Point
    {
      (Toward(x1, x2, i), Toward(y1, y2, j))
    }

    /** The error term after i x-steps and j y-steps: it starts at dx - dy,
        each x-step subtracts dy and each y-step adds dx. */
    function Err(i: int, j: int): int
    {
      Dx() - Dy() - i * Dy() + j * Dx()
    }

    /** One turn of the loop: with e2 = 2 * err, step along x when e2 > -dy and
        along y when e2 < dx, both tests reading the same e2. */
    function Next(i: int, j: int): (int, int)
    {
      var e2 := 2 * Err(i, j);
      (if e2 > -Dy() then i + 1 else i, if e2 < Dx() then j + 1 else j)
    }
  }

  /** One turn of the loop as draw_line performs it on (x, y, err): an x-step
      moves x by sx and lowers err by dy, a y-step moves y by sy and raises err
      by dx. */
  lemma NextState(s: Segment, i: int, j: int)
    ensures var e2 := 2 * s.Err(i, j);
            var n := s.Next(i, j);
            && s.Err(n.0, n.1) == s.Err(i, j) - (if e2 > -s.Dy() then s.Dy() else 0)
                                              + (if e2 < s.Dx() then s.Dx() else 0)
            && s.At(n.0, n.1).0 == s.At(i, j).0 + (if e2 > -s.Dy() then (if s.x1 < s.x2 then 1 else -1) else 0)
            && s.At(n.0, n.1).1 == s.At(i, j).1 + (if e2 < s.Dx() then (if s.y1 < s.y2 then 1 else -1) else 0)
  {
    var e2 := 2 * s.Err(i, j);
    assert s.Err(i + 1, j) == s.Err(i, j) - s.Dy();
    assert s.Err(i, j + 1) == s.Err(i, j) + s.Dx();
    assert s.Err(i + 1, j + 1) == s.Err(i, j) - s.Dy() + s.Dx();
  }

  /** The walk has reached the far endpoint exactly when it has taken all dx
      steps along x and all dy steps along y. */
  lemma AtEndIff(s: Segment, i: int, j: int)
    requires 0 <= i <= s.Dx() && 0 <= j <= s.Dy()
    ensures s.At(i, j) == (s.x2, s.y2) <==> i == s.Dx() && j == s.Dy()
  {
  }

  /** Bresenham never overshoots and never stalls: from any position short of
      the far endpoint, one turn of the loop stays within dx x-steps and dy
      y-steps and takes at least one step. */
  lemma NextStep(s: Segment, i: int, j: int)
    requires 0 <= i <= s.Dx() && 0 <= j <= s.Dy()
    requires i < s.Dx() || j < s.Dy()
    ensures 0 <= s.Next(i, j).0 <= s.Dx() && 0 <= s.Next(i, j).1 <= s.Dy()
    ensures s.Next(i, j).0 + s.Next(i, j).1 > i + j
  {
    var dx, dy := s.Dx(), s.Dy();
    var e2 := 2 * s.Err(i, j);
    if i == dx {
      // all x-steps taken: the error is at most -dy, so only y moves
      MulLe(dx, j + 1, dy);
      assert e2 == 2 * (dx * (j + 1)) - 2 * (dx * dy) - 2 * dy;
      assert e2 <= -2 * dy;
    } else if j == dy {
      // all y-steps taken: the error is at least dx, so only x moves
      MulLe(dy, i + 1, dx);
      assert e2 == 2 * (dy * dx) + 2 * dx - 2 * (dy * (i + 1));
      assert e2 >= 2 * dx;
    }
  }

  /** The points draw_line visits, in order, from the position after i
      x-steps and j y-steps to the far endpoint. */
  function PathFrom(s: Segment, i: int, j: int): (p: seq<Point>)
    requires 0 <= i <= s.Dx() && 0 <= j <= s.Dy()
    ensures |p| >= 1 && p[0] == s.At(i, j)
    decreases s.Dx() - i + s.Dy() - j
  {
    if s.At(i, j) == (s.x2, s.y2) then [s.At(i, j)]
    else
      AtEndIff(s, i, j);
      NextStep(s, i, j);
      [s.At(i, j)] + PathFrom(s, s.Next(i, j).0, s.Next(i, j).1)
  }

  /** Every point draw_line visits for the segment. */
  function Path(s: Segment): (p: seq<Point>)
    ensures |p| >= 1
  {
    PathFrom(s, 0, 0)
  }

  /** Store colour c at every point of pts, in order, clipping each. */
  function Paint(s: seq<Color>, pts: seq<Point>, c: Color): (t: seq<Color>)
    requires |s| == N
    ensures |t| == N
    decreases |pts|
  {
    if pts == [] then s else Paint(PutPixel(s, pts[0], c), pts[1..], c)
  }

  /** The buffer after draw_line(s, x1, y1, x2, y2, c). */
  function Line(s: seq<Color>, seg: Segment, c: Color): (t: seq<Color>)
    requires |s| == N
    ensures |t| == N
  {
    Paint(s, Path(seg), c)
  }

  /** Painting a non-empty list stores its first point, then paints the rest. */
  lemma PaintFirst(s: seq<Color>, pts: seq<Point>, c: Color)
    requires |s| == N && |pts| >= 1
    ensures Paint(s, pts, c) == Paint(PutPixel(s, pts[0], c), pts[1..], c)
  {
  }

  /** Short of the far endpoint, the walk is its current point followed by the
      walk from the next position. */
  lemma PathFromNext(s: Segment, i: int, j: int)
    requires 0 <= i <= s.Dx() && 0 <= j <= s.Dy()
    requires s.At(i, j) != (s.x2, s.y2)
    ensures 0 <= s.Next(i, j).0 <= s.Dx() && 0 <= s.Next(i, j).1 <= s.Dy()
    ensures PathFrom(s, i, j)[1..] == PathFrom(s, s.Next(i, j).0, s.Next(i, j).1)
  {
    AtEndIff(s, i, j);
    NextStep(s, i, j);
  }

  /** One turn of draw_line's loop: store the current point, then paint the
      walk from the next position. */
  lemma PaintStep(b: seq<Color>, s: Segment, i: int, j: int, c: Color)
    requires |b| == N && 0 <= i <= s.Dx() && 0 <= j <= s.Dy()
    requires s.At(i, j) != (s.x2, s.y2)
    ensures 0 <= s.Next(i, j).0 <= s.Dx() && 0 <= s.Next(i, j).1 <= s.Dy()
    ensures Paint(b, PathFrom(s, i, j), c) ==
              Paint(PutPixel(b, s.At(i, j), c), PathFrom(s, s.Next(i, j).0, s.Next(i, j).1), c)
  {
    PaintFirst(b, PathFrom(s, i, j), c);
    PathFromNext(s, i, j);
  }

  /** At the far endpoint, painting the walk stores that point alone. */
  lemma PaintLast(b: seq<Color>, s: Segment, i: int, j: int, c: Color)
    requires |b| == N && 0 <= i <= s.Dx() && 0 <= j <= s.Dy()
    requires s.At(i, j) == (s.x2, s.y2)
    ensures Paint(b, PathFrom(s, i, j), c) == PutPixel(b, s.At(i, j), c)
  {
    PaintFirst(b, PathFrom(s, i, j), c);
  }

  /** Painting a point list sets exactly the on-panel pixels of the list and
      leaves every other pixel as it was. */
  lemma {:induction false} PaintAt(s: seq<Color>, pts: seq<Point>, c: Color, k: int)
    requires |s| == N && 0 <= k < N
    ensures Paint(s, pts, c)[k] == if (Col(k), Row(k)) in pts then c else s[k]
    decreases |pts|
  {
    if pts != [] {
      PaintAt(PutPixel(s, pts[0], c), pts[1..], c, k);
      PutPixelAt(s, pts[0], c, k);
      assert pts == [pts[0]] + pts[1..];
    }
  }

  /** draw_line leaves a pixel alone unless the walk visits it, and every
      visited on-panel pixel ends up with the colour. */
  lemma LineAt(s: seq<Color>, seg: Segment, c: Color, k: int)
    requires |s| == N && 0 <= k < N
    ensures Line(s, seg, c)[k] == if (Col(k), Row(k)) in Path(seg) then c else s[k]
  {
    PaintAt(s, Path(seg), c, k);
  }

  /** The walk ends at the far endpoint. */
  lemma {:induction false} PathFromEnds(s: Segment, i: int, j: int)
    requires 0 <= i <= s.Dx() && 0 <= j <= s.Dy()
    ensures PathFrom(s, i, j)[|PathFrom(s, i, j)| - 1] == (s.x2, s.y2)
    decreases s.Dx() - i + s.Dy() - j
  {
    if s.At(i, j) != (s.x2, s.y2) {
      AtEndIff(s, i, j);
      NextStep(s, i, j);
      PathFromEnds(s, s.Next(i, j).0, s.Next(i, j).1);
    }
  }

  /** The walk is inclusive of both endpoints: it starts at (x1, y1) and ends
      at (x2, y2). */
  lemma PathEndpoints(s: Segment)
    ensures Path(s)[0] == (s.x1, s.y1)
    ensures Path(s)[|Path(s)| - 1] == (s.x2, s.y2)
  {
    PathFromEnds(s, 0, 0);
  }

  /** So both endpoints of a line receive the colour when they are on the panel. */
  lemma LineEndpoints(s: seq<Color>, seg: Segment, c: Color)
    requires |s| == N
    ensures InBounds(seg.x1, seg.y1) ==> Line(s, seg, c)[Index(seg.x1, seg.y1)] == c
    ensures InBounds(seg.x2, seg.y2) ==> Line(s, seg, c)[Index(seg.x2, seg.y2)] == c
  {
    PathEndpoints(seg);
    if InBounds(seg.x1, seg.y1) {
      LineAt(s, seg, c, Index(seg.x1, seg.y1));
    }
    if InBounds(seg.x2, seg.y2) {
      LineAt(s, seg, c, Index(seg.x2, seg.y2));
    }
  }

  /** Every position of the walk within its step bounds lies in the
      segment's bounding box. */
  lemma AtInBox(s: Segment, i: int, j: int)
    requires 0 <= i <= s.Dx() && 0 <= j <= s.Dy()
    ensures Between(s.x1, s.At(i, j).0, s.x2) && Between(s.y1, s.At(i, j).1, s.y2)
  {
  }

  /** Every visited point lies in the segment's bounding box. */
  lemma {:induction false} PathFromInBox(s: Segment, i: int, j: int)
    requires 0 <= i <= s.Dx() && 0 <= j <= s.Dy()
    ensures forall k :: 0 <= k < |PathFrom(s, i, j)| ==>
              Between(s.x1, PathFrom(s, i, j)[k].0, s.x2) && Between(s.y1, PathFrom(s, i, j)[k].1, s.y2)
    decreases s.Dx() - i + s.Dy() - j
  {
    AtInBox(s, i, j);
    if s.At(i, j) != (s.x2, s.y2) {
      AtEndIff(s, i, j);
      NextStep(s, i, j);
      var n := s.Next(i, j);
      PathFromInBox(s, n.0, n.1);
      assert PathFrom(s, i, j) == [s.At(i, j)] + PathFrom(s, n.0, n.1);
    }
  }

  /** One turn of the loop moves to a different point, at most one unit along
      each axis. */
  lemma StepIsNeighbour(s: Segment, i: int, j: int)
    requires 0 <= i <= s.Dx() && 0 <= j <= s.Dy()
    requires s.At(i, j) != (s.x2, s.y2)
    ensures var a, b := s.At(i, j), s.At(s.Next(i, j).0, s.Next(i, j).1);
            a != b && Abs(b.0 - a.0) <= 1 && Abs(b.1 - a.1) <= 1
  {
    AtEndIff(s, i, j);
    NextStep(s, i, j);
  }

  /** Consecutive visited points are distinct 8-neighbours: the drawn line
      has no gaps and never stores the same pixel twice in a row. */
  lemma {:induction false} PathFromSteps(s: Segment, i: int, j: int)
    requires 0 <= i <= s.Dx() && 0 <= j <= s.Dy()
    ensures forall k :: 0 <= k < |PathFrom(s, i, j)| - 1 ==>
              PathFrom(s, i, j)[k] != PathFrom(s, i, j)[k + 1] &&
              Abs(PathFrom(s, i, j)[k + 1].0 - PathFrom(s, i, j)[k].0) <= 1 &&
              Abs(PathFrom(s, i, j)[k + 1].1 - PathFrom(s, i, j)[k].1) <= 1
    decreases s.Dx() - i + s.Dy() - j
  {
    if s.At(i, j) != (s.x2, s.y2) {
      AtEndIff(s, i, j);
      NextStep(s, i, j);
      var n := s.Next(i, j);
      PathFromSteps(s, n.0, n.1);
      StepIsNeighbour(s, i, j);
      var p := PathFrom(s, i, j);
      assert p == [s.At(i, j)] + PathFrom(s, n.0, n.1);
      assert p[1] == s.At(n.0, n.1);
    }
  }

  /** The walk never comes back to the position after i x-steps and j
      y-steps once it has moved on from it: both step counts only grow, and
      distinct step counts within the bounds give distinct points. */
  lemma {:induction false} NotRevisited(s: Segment, i: int, j: int, a: int, b: int)
    requires 0 <= i <= a <= s.Dx() && 0 <= j <= b <= s.Dy() && a + b > i + j
    ensures s.At(i, j) !in PathFrom(s, a, b)
    decreases s.Dx() - a + s.Dy() - b
  {
    assert s.At(a, b) != s.At(i, j);
    if s.At(a, b) != (s.x2, s.y2) {
      AtEndIff(s, a, b);
      NextStep(s, a, b);
      var n := s.Next(a, b);
      NotRevisited(s, i, j, n.0, n.1);
      assert PathFrom(s, a, b) == [s.At(a, b)] + PathFrom(s, n.0, n.1);
    }
  }

  /** No two visited points coincide: draw_line stores each pixel of its
      walk once. */
  lemma {:induction false} PathFromDistinct(s: Segment, i: int, j: int)
    requires 0 <= i <= s.Dx() && 0 <= j <= s.Dy()
    ensures forall k, m :: 0 <= k < m < |PathFrom(s, i, j)| ==> PathFrom(s, i, j)[k] != PathFrom(s, i, j)[m]
    decreases s.Dx() - i + s.Dy() - j
  {
    if s.At(i, j) != (s.x2, s.y2) {
      AtEndIff(s, i, j);
      NextStep(s, i, j);
      var n := s.Next(i, j);
      var p, rest := PathFrom(s, i, j), PathFrom(s, n.0, n.1);
      assert p == [s.At(i, j)] + rest;
      PathFromDistinct(s, n.0, n.1);
      NotRevisited(s, i, j, n.0, n.1);
      forall k, m | 0 <= k < m < |p|
        ensures p[k] != p[m]
      {
        assert p[m] == rest[m - 1];
        if k == 0 {
          assert rest[m - 1] in rest;
        } else {
          assert p[k] == rest[k - 1];
        }
      }
    }
  }

  /** The whole walk visits each point at most once. */
  lemma PathDistinct(s: Segment)
    ensures forall k, m :: 0 <= k < m < |Path(s)| ==> Path(s)[k] != Path(s)[m]
  {
    PathFromDistinct(s, 0, 0);
  }

  /** A segment whose endpoints coincide visits that one point only, so
      draw_line stores at most one pixel. */
  lemma LineSinglePoint(s: seq<Color>, x: int, y: int, c: Color)
    requires |s| == N
    ensures Path(Segment(x, y, x, y)) == [(x, y)]
    ensures Line(s, Segment(x, y, x, y), c) == PutPixel(s, (x, y), c)
  {
    assert Paint(s, [(x, y)], c) == Paint(PutPixel(s, (x, y), c), [], c);
  }

  /** A horizontal segment visits exactly the points of that row between its
      endpoints. */
  lemma {:induction false} HorizontalPathFrom(s: Segment, i: int, p: Point)
    requires s.y1 == s.y2 && 0 <= i <= s.Dx()
    ensures p in PathFrom(s, i, 0) <==> p.1 == s.y1 && Between(Toward(s.x1, s.x2, i), p.0, s.x2)
    decreases s.Dx() - i
  {
    if s.At(i, 0) != (s.x2, s.y2) {
      AtEndIff(s, i, 0);
      assert s.Next(i, 0) == (i + 1, 0);
      HorizontalPathFrom(s, i + 1, p);
    }
  }

  /** A vertical segment visits exactly the points of that column between its
      endpoints. */
  lemma {:induction false} VerticalPathFrom(s: Segment, j: int, p: Point)
    requires s.x1 == s.x2 && 0 <= j <= s.Dy()
    ensures p in PathFrom(s, 0, j) <==> p.0 == s.x1 && Between(Toward(s.y1, s.y2, j), p.1, s.y2)
    decreases s.Dy() - j
  {
    if s.At(0, j) != (s.x2, s.y2) {
      AtEndIff(s, 0, j);
      assert s.Next(0, j) == (0, j + 1);
      VerticalPathFrom(s, j + 1, p);
    }
  }

  /** A segment at 45 degrees visits exactly the points of that diagonal
      between its endpoints: every turn steps along both axes. */
  lemma {:induction false} DiagonalPathFrom(s: Segment, i: int, p: Point)
    requires s.Dx() == s.Dy() && 0 <= i <= s.Dx()
    ensures p in PathFrom(s, i, i) <==>
              Between(Toward(s.x1, s.x2, i), p.0, s.x2) && Between(Toward(s.y1, s.y2, i), p.1, s.y2) &&
              Abs(p.0 - s.x1) == Abs(p.1 - s.y1)
    decreases s.Dx() - i
  {
    if s.At(i, i) != (s.x2, s.y2) {
      AtEndIff(s, i, i);
      assert s.Err(i, i) == 0;
      assert s.Next(i, i) == (i + 1, i + 1);
      DiagonalPathFrom(s, i + 1, p);
    }
  }

  /** An axis-aligned line stores exactly the on-panel cells of its segment. */
  lemma AxisLineAt(s: seq<Color>, seg: Segment, c: Color, k: int)
    requires |s| == N && 0 <= k < N
    requires seg.x1 == seg.x2 || seg.y1 == seg.y2
    ensures Line(s, seg, c)[k] ==
              if Between(seg.x1, Col(k), seg.x2) && Between(seg.y1, Row(k), seg.y2) then c else s[k]
  {
    LineAt(s, seg, c, k);
    if seg.y1 == seg.y2 {
      HorizontalPathFrom(seg, 0, (Col(k), Row(k)));
    } else {
      VerticalPathFrom(seg, 0, (Col(k), Row(k)));
    }
  }

  /** A line at 45 degrees stores exactly the on-panel cells of its diagonal
      between the two endpoints. */
  lemma DiagonalLineAt(s: seq<Color>, seg: Segment, c: Color, k: int)
    requires |s| == N && 0 <= k < N
    requires seg.Dx() == seg.Dy()
    ensures Line(s, seg, c)[k] ==
              if Between(seg.x1, Col(k), seg.x2) && Between(seg.y1, Row(k), seg.y2) &&
                 Abs(Col(k) - seg.x1) == Abs(Row(k) - seg.y1)
              then c else s[k]
  {
    LineAt(s, seg, c, k);
    DiagonalPathFrom(seg, 0, (Col(k), Row(k)));
  }

  /** draw_line: integer Bresenham from (x1, y1) to (x2, y2), storing every
      visited on-panel point. The source walks its own parameters x1 and y1;
      here they are copied into x and y. */
  method DrawLine(buffer: array<Color>, x1: int, y1: int, x2: int, y2: int, color: Color)
    requires buffer.Length == N
    modifies buffer
    ensures buffer[..] == Line(old(buffer[..]), Segment(x1, y1, x2, y2), color)
  {
    ghost var seg := Segment(x1, y1, x2, y2);
    var dx := Abs(x2 - x1);
    var dy := Abs(y2 - y1);
    var sx := if x1 < x2 then 1 else -1;
    var sy := if y1 < y2 then 1 else -1;
    var err := dx - dy;
    var x, y := x1, y1;
    ghost var i, j := 0, 0;
    ghost var target := Line(buffer[..], seg, color);
    while true
      invariant 0 <= i <= dx && 0 <= j <= dy
      invariant (x, y) == seg.At(i, j) && err == seg.Err(i, j)
      invariant Paint(buffer[..], PathFrom(seg, i, j), color) == target
      decreases dx - i + dy - j
    {
      ghost var before := buffer[..];
      if x >= 0 && x < W && y >= 0 && y < H {
        buffer[Index(x, y)] := color;
      }
      assert buffer[..] == PutPixel(before, (x, y), color);

      if x == x2 && y == y2 {
        PaintLast(before, seg, i, j, color);
        break;
      }

      PaintStep(before, seg, i, j, color);
      AtEndIff(seg, i, j);
      NextStep(seg, i, j);
      NextState(seg, i, j);
      var e2 := 2 * err;
      if e2 > -dy {
        err := err - dy;
        x := x + sx;
      }
      if e2 < dx {
        err := err + dx;
        y := y + sy;
      }
      i, j := seg.Next(i, j).0, seg.Next(i, j).1;
    }
  }
}
