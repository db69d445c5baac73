/** The fixed-capacity vertex buffer behind `addTri` and `flush`: triangles
    are collected in an array and drawn in batches. A draw call is modelled
    as appending the batch to the ghost log `drawn` and to what the bound
    draw framebuffer has received. */
module VertexBatching {
  import opened Rasterizer

  /** The draw framebuffers coverage goes to: the two heatmaps, the two
      highlight buffers, and whatever was bound before the logger bound one
      of its own. */
  datatype Framebuffer = WrittenHeatmapFB | ReadHeatmapFB | WrittenHighlightFB | ReadHighlightFB | OutsideFB

  /** What each framebuffer has been drawn with since it was last cleared:
      the vertices of the triangles rendered into it, in order. */
  datatype Canvases = Canvases(
    writtenHeatmap: seq<Point>,
    readHeatmap: seq<Point>,
    writtenHighlight: seq<Point>,
    readHighlight: seq<Point>,
    outside: seq<Point>)
  {
    /** The vertices `fb` shows. */
    function Get(fb: Framebuffer): seq<Point> {
      match fb
      case WrittenHeatmapFB => writtenHeatmap
      case ReadHeatmapFB => readHeatmap
      case WrittenHighlightFB => writtenHighlight
      case ReadHighlightFB => readHighlight
      case OutsideFB => outside
    }

    /** `fb` now shows `v`; every other framebuffer is as it was. */
    function Put(fb: Framebuffer, v: seq<Point>): (r: Canvases)
      ensures r.Get(fb) == v
    {
      match fb
      case WrittenHeatmapFB => this.(writtenHeatmap := v)
      case ReadHeatmapFB => this.(readHeatmap := v)
      case WrittenHighlightFB => this.(writtenHighlight := v)
      case ReadHighlightFB => this.(readHighlight := v)
      case OutsideFB => this.(outside := v)
    }
  }

  /** Writing a framebuffer twice keeps the second contents. */
  lemma PutPut(c: Canvases, fb: Framebuffer, v: seq<Point>, w: seq<Point>)
    ensures c.Put(fb, v).Put(fb, w) == c.Put(fb, w)
  {
  }

  /** Writing a framebuffer's own contents back changes nothing. */
  lemma PutGet(c: Canvases, fb: Framebuffer)
    ensures c.Put(fb, c.Get(fb)) == c
  {
  }

  /** The batches, one after the other. */
  function Concat(bs: seq<seq<Point>>): (r: seq<Point>)
  {
    if bs == [] then [] else Concat(bs[..|bs| - 1]) + bs[|bs| - 1]
  }

  lemma {:induction false} ConcatSnoc(bs: seq<seq<Point>>, b: seq<Point>)
    ensures Concat(bs + [b]) == Concat(bs) + b
  {
    assert (bs + [b])[..|bs|] == bs;
  }

  /** Every batch is non-empty, shorter than the buffer and made of whole triangles. */
  predicate WholeBatches(bs: seq<seq<Point>>, capacity: nat) {
    forall i :: 0 <= i < |bs| ==> 0 < |bs[i]| < capacity && |bs[i]| % 3 == 0
  }

  lemma {:induction false} WholeBatchesSnoc(bs: seq<seq<Point>>, b: seq<Point>, capacity: nat)
    requires WholeBatches(bs, capacity) && 0 < |b| < capacity && |b| % 3 == 0
    ensures WholeBatches(bs + [b], capacity)
  {
    forall i | 0 <= i < |bs + [b]|
      ensures 0 < |(bs + [b])[i]| < capacity && |(bs + [b])[i]| % 3 == 0
    {
      if i < |bs| {
        assert (bs + [b])[i] == bs[i];
      }
    }
  }

  class VertexBatcher {
    /** `m_vertices`: the staging buffer; its length is the capacity. */
    const vertices: array<Point>
    /** `m_verticesCount`: how many staged vertices are waiting to be drawn. */
    var count: nat
    /** The vertex batches drawn so far, in order. */
    ghost var drawn: seq<seq<Point>>
    /** Every vertex handed to `AddTri`, in order. */
    ghost var submitted: seq<Point>
    /** The GL draw framebuffer a draw call renders into. */
    ghost var target: Framebuffer
    /** The vertices each framebuffer has been drawn with since it was last
        cleared, in order. */
    ghost var canvas: Canvases

    /** What `fb` has been drawn with since it was last cleared. */
    ghost function On(fb: Framebuffer): seq<Point>
      reads this`canvas
    {
      canvas.Get(fb)
    }

    /** What the bound framebuffer will have received once the staged
        vertices are flushed. */
    ghost function Pending(): seq<Point>
      reads this, vertices
      requires count <= vertices.Length
    {
      On(target) + vertices[..count]
    }

    /** The buffer never fills up and always holds whole triangles; every
        draw was a non-empty batch of whole triangles; and what was drawn
        followed by what is staged is exactly what was submitted. */
    ghost predicate Valid()
      reads this, vertices
    {
      && vertices.Length > 3
      && count < vertices.Length
      && count % 3 == 0
      && WholeBatches(drawn, vertices.Length)
      && Concat(drawn) + vertices[..count] == submitted
    }

    /** A buffer of `capacity` vertices, nothing staged and nothing drawn. */
    constructor(capacity: nat)
      requires capacity > 3
      ensures Valid() && fresh(vertices)
      ensures vertices.Length == capacity && count == 0 && drawn == [] && submitted == []
      ensures target == OutsideFB && canvas == Canvases([], [], [], [], [])
    {
      vertices := new Point[capacity](_ => Point(0, 0));
      count := 0;
      drawn := [];
      submitted := [];
      target := OutsideFB;
      canvas := Canvases([], [], [], [], []);
    }

    /** `fb.bind(DrawFramebuffer)`: later draws render into `fb`. */
    ghost method Bind(fb: Framebuffer)
      requires Valid()
      modifies this`target
      ensures Valid() && target == fb
    {
      target := fb;
    }

    /** `clearColor()` on the bound framebuffer: it no longer shows anything drawn. */
    ghost method ClearTarget()
      requires Valid()
      modifies this`canvas
      ensures Valid() && canvas == old(canvas).Put(target, [])
    {
      canvas := canvas.Put(target, []);
    }

    /** `flush()`: draws the staged vertices as one batch into the bound
        framebuffer, if there are any. */
    method Flush()
      requires Valid()
      modifies this
      ensures Valid() && count == 0 && submitted == old(submitted) && target == old(target)
      ensures Concat(drawn) == submitted
      ensures old(count) == 0 ==> drawn == old(drawn) && canvas == old(canvas)
      ensures old(count) > 0 ==> drawn == old(drawn) + [old(vertices[..count])]
      ensures old(count) > 0 ==> canvas == old(canvas).Put(target, old(On(target)) + old(vertices[..count]))
      ensures canvas == old(canvas).Put(target, old(Pending()))
    {
      if count == 0 {
        assert vertices[..count] == [];
        assert Concat(drawn) + [] == Concat(drawn);
        assert On(target) + [] == On(target);
        PutGet(canvas, target);
        return;
      }
      ConcatSnoc(drawn, vertices[..count]);
      WholeBatchesSnoc(drawn, vertices[..count], vertices.Length);
      drawn := drawn + [vertices[..count]];
      canvas := canvas.Put(target, On(target) + vertices[..count]);
      count := 0;
      assert vertices[..count] == [];
      assert Concat(drawn) + [] == Concat(drawn);
    }

    /** `addTri(v1, v2, v3)`: stages one triangle, drawing the staged batch
        first when three more vertices would reach the end of the buffer. */
    method AddTri(v1: Point, v2: Point, v3: Point)
      requires Valid()
      modifies this, vertices
      ensures Valid() && submitted == old(submitted) + [v1, v2, v3] && target == old(target)
      ensures canvas == old(canvas).Put(target, On(target)) && Pending() == old(Pending()) + [v1, v2, v3]
      ensures old(count) + 3 < vertices.Length ==> drawn == old(drawn) && count == old(count) + 3
      ensures old(count) + 3 >= vertices.Length ==> drawn == old(drawn) + [old(vertices[..count])] && count == 3
    {
      ghost var before := Pending();
      if count + 3 >= vertices.Length {
        Flush();
        assert vertices[..count] == [];
        assert Pending() == before;
      }
      ghost var on := On(target);
      ghost var staged := vertices[..count];
      Stage(v1, v2, v3);
      AppendAssoc(on, staged, [v1, v2, v3]);
    }

    /** Writes one triangle into the free slots after the staged vertices. */
    method Stage(v1: Point, v2: Point, v3: Point)
      requires Valid() && count + 3 < vertices.Length
      modifies this, vertices
      ensures Valid() && submitted == old(submitted) + [v1, v2, v3]
      ensures drawn == old(drawn) && canvas == old(canvas) && target == old(target)
      ensures count == old(count) + 3 && vertices[..count] == old(vertices[..count]) + [v1, v2, v3]
    {
      ghost var before := vertices[..count];
      vertices[count] := v1;
      vertices[count + 1] := v2;
      vertices[count + 2] := v3;
      assert vertices[..count + 3] == before + [v1, v2, v3];
      count := count + 3;
      submitted := submitted + [v1, v2, v3];
    }

    /** Hands each triangle of `ts` to `AddTri` in turn, the way the
        `getVertices` callbacks do. Nothing staged beforehand is lost and
        the submitted log grows by exactly the triangles' vertices. Only the
        bound framebuffer is drawn into, and what it has received followed
        by what is staged grows by exactly those vertices. */
    method AddTriangles(ts: seq<Triangle>)
      requires Valid()
      modifies this, vertices
      ensures Valid() && submitted == old(submitted) + TriVertices(ts) && target == old(target)
      ensures canvas == old(canvas).Put(target, On(target))
      ensures Pending() == old(Pending()) + TriVertices(ts)
    {
      ghost var start := submitted;
      ghost var c0 := canvas;
      ghost var pending := Pending();
      for i := 0 to |ts|
        invariant Valid() && target == old(target)
        invariant submitted == start + TriVertices(ts[..i])
        invariant canvas == c0.Put(target, On(target))
        invariant Pending() == pending + TriVertices(ts[..i])
      {
        TriVerticesSnoc(ts, i);
        AddTri(ts[i].a, ts[i].b, ts[i].c);
        AppendAssoc(start, TriVertices(ts[..i]), [ts[i].a, ts[i].b, ts[i].c]);
        AppendAssoc(pending, TriVertices(ts[..i]), [ts[i].a, ts[i].b, ts[i].c]);
      }
      assert ts[..|ts|] == ts;
    }
  }
}
