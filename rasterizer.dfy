/** Coverage: the triangles each command contributes to the VRAM read and
    write heatmaps, the pixel counters that go with them, and the line
    helper the line primitives share. */
module Rasterizer {
  import opened Wrappers
  import opened GpuCommands

  datatype Point = Point(x: int, y: int)

  datatype Triangle = Triangle(a: Point, b: Point, c: Point)

  /** The three vertices of each triangle, in the order `add` receives them. */
  function TriVertices(ts: seq<Triangle>): (r: seq<Point>)
    ensures |r| == 3 * |ts|
  {
    if ts == [] then [] else [ts[0].a, ts[0].b, ts[0].c] + TriVertices(ts[1..])
  }

  /** Handing over one more triangle adds its three vertices at the end. */
  lemma {:induction false} TriVerticesSnoc(ts: seq<Triangle>, i: nat)
    requires i < |ts|
    ensures TriVertices(ts[..i + 1]) == TriVertices(ts[..i]) + [ts[i].a, ts[i].b, ts[i].c]
  {
    assert ts[..i + 1] == ts[..i] + [ts[i]];
    TriVerticesAppend(ts[..i], [ts[i]]);
    assert [ts[i]][1..] == [];
    assert TriVertices([ts[i]]) == [ts[i].a, ts[i].b, ts[i].c] + [];
  }

  /** Triangle `i` occupies positions `3i`, `3i+1` and `3i+2`. */
  lemma {:induction false} TriVerticesIndex(ts: seq<Triangle>, i: nat)
    requires i < |ts|
    ensures var r := TriVertices(ts);
      r[3 * i] == ts[i].a && r[3 * i + 1] == ts[i].b && r[3 * i + 2] == ts[i].c
  {
    if i > 0 {
      TriVerticesIndex(ts[1..], i - 1);
      assert ts[1..][i - 1] == ts[i];
    }
  }

  lemma {:induction false} TriVerticesAppend(s: seq<Triangle>, t: seq<Triangle>)
    ensures TriVertices(s + t) == TriVertices(s) + TriVertices(t)
  {
    if s != [] {
      assert (s + t)[0] == s[0] && (s + t)[1..] == s[1..] + t;
      TriVerticesAppend(s[1..], t);
    } else {
      assert s + t == t;
    }
  }

  /** Appending vertex runs is associative. */
  lemma {:induction false} AppendAssoc(a: seq<Point>, b: seq<Point>, c: seq<Point>)
    ensures a + (b + c) == a + b + c
  {
  }

  // ---------------------------------------------------------------------
  // Rectangles

  function Corners(x: int, y: int, w: int, h: int): set<Point> {
    {Point(x, y), Point(x + w, y), Point(x + w, y + h), Point(x, y + h)}
  }

  /** The two triangles that cover the rectangle at (x, y) of size w by h:
      they meet on the diagonal from (x, y) to (x + w, y + h) and between
      them touch exactly the four corners. */
  function RectTriangles(x: int, y: int, w: int, h: int): (r: seq<Triangle>)
    ensures |r| == 2
    ensures r[0].a == r[1].c == Point(x, y) && r[0].c == r[1].a == Point(x + w, y + h)
    ensures {r[0].a, r[0].b, r[0].c, r[1].a, r[1].b, r[1].c} == Corners(x, y, w, h)
  {
    [Triangle(Point(x, y), Point(x + w, y), Point(x + w, y + h)),
     Triangle(Point(x + w, y + h), Point(x, y + h), Point(x, y))]
  }

  /** Which access kinds a variant reports coverage for. */
  predicate Emits(g: Geometry, op: PixelOp) {
    match g
    case FastFill(_, _, _, _, _) => op == Write
    case BlitRamVram(_, _, _, _) => op == Write
    case BlitVramRam(_, _, _, _) => op == Read
    case BlitVramVram(_, _, _, _, _, _) => true
    case _ => false
  }

  /** `getVertices(add, op)`: the triangles a command hands to `add`. */
  function GetVertices(g: Geometry, op: PixelOp): (r: seq<Triangle>)
    ensures |r| == 0 || |r| == 2
    ensures r != [] <==> Emits(g, op)
  {
    match g
    case FastFill(_, x, y, w, h) => if op == Read then [] else RectTriangles(x, y, w, h)
    case BlitVramVram(sX, sY, dX, dY, w, h) =>
      if op == Read then RectTriangles(sX, sY, w, h) else RectTriangles(dX, dY, w, h)
    case BlitRamVram(x, y, w, h) => if op == Read then [] else RectTriangles(x, y, w, h)
    case BlitVramRam(x, y, w, h) => if op == Write then [] else RectTriangles(x, y, w, h)
    case _ => []
  }

  /** The rectangle each variant covers: a fill or an upload covers its
      destination for writes; a download covers its source for reads; a
      VRAM-to-VRAM copy covers its source for reads and its destination
      for writes. */
  lemma {:induction false} CoverageRectangles(g: Geometry)
    ensures g.FastFill? ==> GetVertices(g, Write) == RectTriangles(g.x, g.y, g.w, g.h) && GetVertices(g, Read) == []
    ensures g.BlitRamVram? ==> GetVertices(g, Write) == RectTriangles(g.x, g.y, g.w, g.h) && GetVertices(g, Read) == []
    ensures g.BlitVramRam? ==> GetVertices(g, Read) == RectTriangles(g.x, g.y, g.w, g.h) && GetVertices(g, Write) == []
    ensures g.BlitVramVram? ==> GetVertices(g, Read) == RectTriangles(g.sX, g.sY, g.w, g.h)
    ensures g.BlitVramVram? ==> GetVertices(g, Write) == RectTriangles(g.dX, g.dY, g.w, g.h)
  {
  }

  /** The pixel area a coverage set spans, read off its first triangle:
      width from the first edge, height from the second. */
  function CoveredArea(ts: seq<Triangle>): int {
    if ts == [] then 0 else (ts[0].b.x - ts[0].a.x) * (ts[0].c.y - ts[0].b.y)
  }

  // ---------------------------------------------------------------------
  // Statistics

  /** `GPUStats`: coverage counters accumulated over the commands of a frame. */
  datatype GpuStats = GpuStats(
    triangles: int,
    texturedTriangles: int,
    rectangles: int,
    sprites: int,
    pixelWrites: int,
    pixelReads: int,
    texelReads: int)

  /** `cumulateStats(stats)`: the rectangle variants add `w * h` to the
      counter of each access kind they touch. */
  function CumulateStats(g: Geometry, s: GpuStats): (r: GpuStats)
    ensures r.triangles == s.triangles && r.texturedTriangles == s.texturedTriangles
    ensures r.rectangles == s.rectangles && r.sprites == s.sprites && r.texelReads == s.texelReads
  {
    match g
    case FastFill(_, _, _, w, h) => s.(pixelWrites := s.pixelWrites + h * w)
    case BlitVramVram(_, _, _, _, w, h) =>
      s.(pixelWrites := s.pixelWrites + h * w, pixelReads := s.pixelReads + h * w)
    case BlitRamVram(_, _, w, h) => s.(pixelWrites := s.pixelWrites + h * w)
    case BlitVramRam(_, _, w, h) => s.(pixelReads := s.pixelReads + h * w)
    case _ => s
  }

  /** The counters move exactly by the area of the coverage emitted for the
      same access kind, and not at all when nothing is emitted. */
  lemma {:induction false} StatsMatchCoverage(g: Geometry, s: GpuStats)
    ensures CumulateStats(g, s).pixelWrites == s.pixelWrites + CoveredArea(GetVertices(g, Write))
    ensures CumulateStats(g, s).pixelReads == s.pixelReads + CoveredArea(GetVertices(g, Read))
  {
    match g
    case FastFill(_, x, y, w, h) =>
      assert CoveredArea(RectTriangles(x, y, w, h)) == w * h;
    case BlitVramVram(sX, sY, dX, dY, w, h) =>
      assert CoveredArea(RectTriangles(sX, sY, w, h)) == w * h;
      assert CoveredArea(RectTriangles(dX, dY, w, h)) == w * h;
    case BlitRamVram(x, y, w, h) =>
      assert CoveredArea(RectTriangles(x, y, w, h)) == w * h;
    case BlitVramRam(x, y, w, h) =>
      assert CoveredArea(RectTriangles(x, y, w, h)) == w * h;
    case _ =>
  }

  // ---------------------------------------------------------------------
  // Lines

  function Abs(n: int): nat { if n < 0 then -n else n }
  function Min(a: int, b: int): int { if a <= b then a else b }
  function Max(a: int, b: int): int { if a <= b then b else a }

  /** A line is x-major when it runs strictly further in x than in y; ties are y-major. */
  predicate XMajor(x1: int, y1: int, x2: int, y2: int) {
    Abs(x2 - x1) > Abs(y2 - y1)
  }

  /** `Logged::addLine`: two triangles forming a one-pixel-thick band along
      the line. A single point gives the unit square at it. Otherwise the
      endpoint further along the major axis is pushed out by one, so that
      the band spans both end pixels, and the band is one pixel thick
      across the major axis. The band runs from the first vertex to the
      second: the second is pushed out when the line runs towards larger
      coordinates, the first otherwise. */
  function AddLine(x1: int, y1: int, x2: int, y2: int): (r: seq<Triangle>)
    ensures |r| == 2
    ensures r[0].a == r[1].c && r[0].c == r[1].a
    ensures x1 == x2 && y1 == y2 ==> r == RectTriangles(x1, y1, 1, 1)
    ensures !(x1 == x2 && y1 == y2) && XMajor(x1, y1, x2, y2) ==>
      && r[0].a.y == y1 && r[0].b.y == y2
      && r[0].a.x == (if x2 > x1 then x1 else x1 + 1)
      && r[0].b.x == (if x2 > x1 then x2 + 1 else x2)
      && Min(r[0].a.x, r[0].b.x) == Min(x1, x2) && Max(r[0].a.x, r[0].b.x) == Max(x1, x2) + 1
      && r[0].c == Point(r[0].b.x, r[0].b.y + 1) && r[1].b == Point(r[0].a.x, r[0].a.y + 1)
    ensures !(x1 == x2 && y1 == y2) && !XMajor(x1, y1, x2, y2) ==>
      && r[0].a.x == x1 && r[0].b.x == x2
      && r[0].a.y == (if y2 > y1 then y1 else y1 + 1)
      && r[0].b.y == (if y2 > y1 then y2 + 1 else y2)
      && Min(r[0].a.y, r[0].b.y) == Min(y1, y2) && Max(r[0].a.y, r[0].b.y) == Max(y1, y2) + 1
      && r[0].c == Point(r[0].b.x + 1, r[0].b.y) && r[1].b == Point(r[0].a.x + 1, r[0].a.y)
  {
    var dx := x2 - x1;
    var dy := y2 - y1;
    if dx == 0 && dy == 0 then
      [Triangle(Point(x1, y1), Point(x1 + 1, y1), Point(x1 + 1, y1 + 1)),
       Triangle(Point(x1 + 1, y1 + 1), Point(x1, y1 + 1), Point(x1, y1))]
    else
      var xMajor := Abs(dx) > Abs(dy);
      var xOffset := if xMajor then 0 else 1;
      var yOffset := if xMajor then 1 else 0;
      var ax := if xMajor && dx <= 0 then x1 + 1 else x1;
      var bx := if xMajor && dx > 0 then x2 + 1 else x2;
      var ay := if !xMajor && dy <= 0 then y1 + 1 else y1;
      var bY := if !xMajor && dy > 0 then y2 + 1 else y2;
      [Triangle(Point(ax, ay), Point(bx, bY), Point(bx + xOffset, bY + yOffset)),
       Triangle(Point(bx + xOffset, bY + yOffset), Point(ax + xOffset, ay + yOffset), Point(ax, ay))]
  }

  /** Coincident endpoints (5,5)-(5,5) cover the unit square [5,6) x [5,6). */
  lemma PointLine()
    ensures AddLine(5, 5, 5, 5) == RectTriangles(5, 5, 1, 1)
    ensures Corners(5, 5, 1, 1) == {Point(5, 5), Point(6, 5), Point(6, 6), Point(5, 6)}
  {
  }

  /** The x-major line (0,0)-(4,1) has its end pushed to x = 5 and is
      thickened downwards: a band 5 wide and 2 high. */
  lemma XMajorLine()
    ensures AddLine(0, 0, 4, 1)[0] == Triangle(Point(0, 0), Point(5, 1), Point(5, 2))
    ensures AddLine(0, 0, 4, 1)[1] == Triangle(Point(5, 2), Point(0, 1), Point(0, 0))
  {
  }

  // ---------------------------------------------------------------------
  // Highlighting

  /** The commands `highlight(node, only)` draws: the given node first, then,
      unless `only`, every command whose `highlight` flag is set, in log order. */
  function HighlightSelection(node: Option<Logged>, only: bool, list: seq<Logged>): (r: seq<Logged>)
    ensures node.Some? ==> |r| > 0 && r[0] == node.value
    ensures only ==> r == (if node.Some? then [node.value] else [])
  {
    (if node.Some? then [node.value] else []) + (if only then [] else Highlighted(list))
  }

  /** A command is drawn iff it is the given node or, unless `only`, a
      highlighted command of the log. */
  lemma {:induction false} HighlightSelectionMembers(node: Option<Logged>, only: bool, list: seq<Logged>, c: Logged)
    ensures c in HighlightSelection(node, only, list) <==>
      (node.Some? && c == node.value) || (!only && c in list && c.highlight)
  {
    HighlightedMembers(list, c);
  }

  /** The commands of `list` with `highlight` set, in order. */
  function Highlighted(list: seq<Logged>): (r: seq<Logged>)
    ensures |r| <= |list|
  {
    if list == [] then []
    else (if list[0].highlight then [list[0]] else []) + Highlighted(list[1..])
  }

  /** Exactly the highlighted commands are kept. */
  lemma {:induction false} HighlightedMembers(list: seq<Logged>, c: Logged)
    ensures c in Highlighted(list) <==> c in list && c.highlight
  {
    if list != [] {
      HighlightedMembers(list[1..], c);
      assert list == [list[0]] + list[1..];
    }
  }

  /** Filtering a concatenation filters each part. */
  lemma {:induction false} HighlightedAppend(s: seq<Logged>, t: seq<Logged>)
    ensures Highlighted(s + t) == Highlighted(s) + Highlighted(t)
  {
    if s != [] {
      assert (s + t)[0] == s[0] && (s + t)[1..] == s[1..] + t;
      HighlightedAppend(s[1..], t);
    } else {
      assert s + t == t;
    }
  }

  /** The triangles `getVertices` hands out for each command in turn. */
  function CoverageOf(nodes: seq<Logged>, op: PixelOp): (r: seq<Triangle>)
  {
    if nodes == [] then [] else GetVertices(nodes[0].geometry, op) + CoverageOf(nodes[1..], op)
  }

  /** Coverage of a concatenation is the concatenation of the coverages. */
  lemma {:induction false} CoverageOfAppend(s: seq<Logged>, t: seq<Logged>, op: PixelOp)
    ensures CoverageOf(s + t, op) == CoverageOf(s, op) + CoverageOf(t, op)
  {
    if s != [] {
      assert (s + t)[0] == s[0] && (s + t)[1..] == s[1..] + t;
      CoverageOfAppend(s[1..], t, op);
    } else {
      assert s + t == t;
    }
  }

  /** Every triangle the batch of commands emits for `op` comes from a command that emits for `op`,
      and each command contributes two triangles or none. */
  lemma {:induction false} CoverageOfCount(nodes: seq<Logged>, op: PixelOp)
    ensures |CoverageOf(nodes, op)| == 2 * |Emitting(nodes, op)|
  {
    if nodes != [] {
      CoverageOfCount(nodes[1..], op);
    }
  }

  /** The commands that emit coverage for `op`, in order. */
  function Emitting(nodes: seq<Logged>, op: PixelOp): (r: seq<Logged>)
    ensures forall c :: c in r <==> c in nodes && Emits(c.geometry, op)
  {
    if nodes == [] then []
    else (if Emits(nodes[0].geometry, op) then [nodes[0]] else []) + Emitting(nodes[1..], op)
  }
}
