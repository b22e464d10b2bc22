/** The contents of the ribbon's vertex buffer: where each side vertex goes,
    its texture coordinates, and its packed colour. */
module Vertices {
  import opened Numbers
  import opened Anchors

  /** One vertex of the default format: the float slots x, y, u, v and the
      colour slot, which the 32-bit unsigned view of the same storage writes. */
  datatype Vertex = Vertex(x: real, y: real, u: real, v: real, color: nat)

  /** A vertex of freshly allocated (zeroed) storage. */
  const Blank: Vertex := Vertex(0.0, 0.0, 0.0, 0.0, 0)

  // ---------------------------------------------------------------- positions

  /** The direction given for a heading `(dx, dy)`: the sine and cosine of
      `atan2(dy, dx)`, which is the angle 0 when the vector is zero. Either
      way (`cos`, `sin`) is a unit vector parallel to (`dx`, `dy`). */
  predicate IsHeading(dx: real, dy: real, sin: real, cos: real)
    ensures IsHeading(dx, dy, sin, cos) ==> sin * sin + cos * cos == 1.0 && sin * dx == cos * dy
  {
    if dx == 0.0 && dy == 0.0 then sin == 0.0 && cos == 1.0
    else sin * sin + cos * cos == 1.0 && sin * dx == cos * dy && cos * dx + sin * dy > 0.0
  }

  /** One of the two side vertices at centre (`cx`, `cy`): side 0 is offset by
      `dis` along (sin, -cos), side 1 by `dis` along (-sin, cos): the offset is
      perpendicular to the heading (cos, sin) and `dis` times as long. */
  function Side(cx: real, cy: real, dis: real, sin: real, cos: real, side: nat): (p: (real, real))
    ensures (p.0 - cx) * cos + (p.1 - cy) * sin == 0.0
    ensures (p.0 - cx) * (p.0 - cx) + (p.1 - cy) * (p.1 - cy) == dis * dis * (sin * sin + cos * cos)
  {
    if side == 0 then (cx + dis * sin, cy - dis * cos)
    else (cx - dis * sin, cy + dis * cos)
  }

  /** The two side vertices straddle the centre, the segment between them is
      perpendicular to the heading (cos, sin), and for a unit heading they are
      `2 * dis` apart. */
  lemma SidesStraddleCentre(cx: real, cy: real, dis: real, sin: real, cos: real)
    ensures var l := Side(cx, cy, dis, sin, cos, 0);
            var r := Side(cx, cy, dis, sin, cos, 1);
      (l.0 + r.0) / 2.0 == cx && (l.1 + r.1) / 2.0 == cy &&
      (l.0 - r.0) * cos + (l.1 - r.1) * sin == 0.0 &&
      (sin * sin + cos * cos == 1.0 ==>
         (l.0 - r.0) * (l.0 - r.0) + (l.1 - r.1) * (l.1 - r.1) == 4.0 * dis * dis)
  {
    var l := Side(cx, cy, dis, sin, cos, 0);
    var r := Side(cx, cy, dis, sin, cos, 1);
    assert l.0 - r.0 == 2.0 * dis * sin && l.1 - r.1 == -2.0 * dis * cos;
    if sin * sin + cos * cos == 1.0 {
      calc {
        (l.0 - r.0) * (l.0 - r.0) + (l.1 - r.1) * (l.1 - r.1);
        4.0 * dis * dis * (sin * sin + cos * cos);
        4.0 * dis * dis;
      }
    }
  }

  /** Vertex `k` of the ribbon: pair `k / 2` belongs to sample `k / 2`, seen
      relative to (`tx`, `ty`); every pair but the last uses its own sample's
      direction, the last pair that of the sample before it. */
  function RibbonPoint(data: seq<Anchor>, tx: real, ty: real, k: nat): (pt: (real, real))
    requires |data| >= 2 && k < 2 * |data|
    ensures var c := data[k / 2];
      (c.dis == 0.0 ==> pt == (c.x - tx, c.y - ty)) &&
      (k / 2 < |data| - 1 ==> (pt.0 - (c.x - tx)) * c.cos + (pt.1 - (c.y - ty)) * c.sin == 0.0)
  {
    var p := k / 2;
    var c := data[p];
    var a := data[if p < |data| - 1 then p else |data| - 2];
    Side(c.x - tx, c.y - ty, c.dis, a.sin, a.cos, k % 2)
  }

  /** The vertex buffer after the position pass: the first `2 * |data|`
      vertices that exist get their ribbon position; every other slot stays. */
  function PlaceXY(vs: seq<Vertex>, data: seq<Anchor>, tx: real, ty: real): (r: seq<Vertex>)
    requires |data| >= 2
    ensures |r| == |vs|
    ensures forall k | 0 <= k < |vs| :: r[k].u == vs[k].u && r[k].v == vs[k].v && r[k].color == vs[k].color
    ensures forall k | 0 <= k < |vs| && 2 * |data| <= k :: r[k] == vs[k]
  {
    seq(|vs|, k requires 0 <= k < |vs| =>
      if k < 2 * |data| then
        var p := RibbonPoint(data, tx, ty, k);
        vs[k].(x := p.0, y := p.1)
      else vs[k])
  }

  /** The vertex buffer after a reset: the first `count` vertices sit at (`px`, `py`). */
  function ResetXY(vs: seq<Vertex>, count: int, px: real, py: real): (r: seq<Vertex>)
    ensures |r| == |vs|
    ensures forall k | 0 <= k < |vs| :: r[k].u == vs[k].u && r[k].v == vs[k].v && r[k].color == vs[k].color
    ensures forall k | 0 <= k < |vs| && k < count :: (r[k].x, r[k].y) == (px, py)
    ensures forall k | 0 <= k < |vs| && count <= k :: r[k] == vs[k]
  {
    seq(|vs|, k requires 0 <= k < |vs| => if k < count then vs[k].(x := px, y := py) else vs[k])
  }

  /** Every pair of the ribbon is centred on its sample, and the pairs of all
      but the last sample are perpendicular to that sample's own direction. */
  lemma PairCentredOnSample(data: seq<Anchor>, tx: real, ty: real, p: nat)
    requires |data| >= 2 && p < |data|
    ensures var l := RibbonPoint(data, tx, ty, 2 * p);
            var r := RibbonPoint(data, tx, ty, 2 * p + 1);
      (l.0 + r.0) / 2.0 == data[p].x - tx && (l.1 + r.1) / 2.0 == data[p].y - ty &&
      (p < |data| - 1 ==> (l.0 - r.0) * data[p].cos + (l.1 - r.1) * data[p].sin == 0.0)
  {
    assert (2 * p) / 2 == p && (2 * p + 1) / 2 == p;
    assert (2 * p) % 2 == 0 && (2 * p + 1) % 2 == 1;
    var a := data[if p < |data| - 1 then p else |data| - 2];
    SidesStraddleCentre(data[p].x - tx, data[p].y - ty, data[p].dis, a.sin, a.cos);
  }

  // ---------------------------------------------------------------- texture coordinates

  /** Step of v between consecutive rows: 1 / (rows - 1). */
  function UvStep(rows: int): (s: real)
    requires rows != 1
    ensures s * (rows - 1) as real == 1.0
  {
    1.0 / (rows - 1) as real
  }

  /** Texture coordinates of vertex `id` before atlas fitting: u alternates
      0, 1 along each row, v drops by `uvStep` per row (`id & 1`, `id >> 1`). */
  function UvAt(id: nat, uvStep: real): (uv: (real, real))
    ensures (uv.0 == 0.0 || uv.0 == 1.0) && (uv.0 == 0.0 <==> id % 2 == 0)
    ensures id < 2 ==> uv.1 == 1.0
  {
    assert id < 2 ==> id / 2 == 0;
    ((id % 2) as real, 1.0 - uvStep * (id / 2) as real)
  }

  /** The layout spans the texture: row 0 has v = 1, the last row v = 0,
      every v lies in [0, 1], and the two vertices of a row take u = 0 and 1. */
  lemma UvSpansTexture(rows: nat, id: nat)
    requires rows >= 2 && id < 2 * rows
    ensures var uv := UvAt(id, UvStep(rows));
      (uv.0 == 0.0 || uv.0 == 1.0) && (uv.0 == 0.0 <==> id % 2 == 0) &&
      0.0 <= uv.1 <= 1.0 &&
      (id / 2 == 0 ==> uv.1 == 1.0) && (id / 2 == rows - 1 ==> uv.1 == 0.0)
  {
    var n := (rows - 1) as real;
    var row := (id / 2) as real;
    assert row <= n;
    assert UvStep(rows) * row == row / n;
    assert row / n <= 1.0;
    if id / 2 == rows - 1 {
      assert row / n == 1.0;
    }
  }

  /** The vertex buffer after the uv pass: the first `count` vertices that
      exist get their uv; nothing else changes. */
  function LayUV(vs: seq<Vertex>, count: int, uvStep: real): (r: seq<Vertex>)
    ensures |r| == |vs|
    ensures forall k | 0 <= k < |vs| :: r[k].x == vs[k].x && r[k].y == vs[k].y && r[k].color == vs[k].color
    ensures forall k | 0 <= k < |vs| && count <= k :: r[k] == vs[k]
  {
    seq(|vs|, k requires 0 <= k < |vs| =>
      if k < count then
        var uv := UvAt(k, uvStep);
        vs[k].(u := uv.0, v := uv.1)
      else vs[k])
  }

  /** The region a trail texture occupies: a rectangle in the pixels of its
      atlas, possibly stored rotated. */
  datatype SpriteFrame = SpriteFrame(
    x: real, y: real, width: real, height: real,
    atlasWidth: real, atlasHeight: real, rotated: bool)
  {
    /** A texture has a positive size, and the region a non-negative one. */
    predicate Valid() {
      atlasWidth > 0.0 && atlasHeight > 0.0 && width >= 0.0 && height >= 0.0
    }
  }

  /** One axis of the fit: the point a fraction `a` of the way along a
      region of `extent` pixels starting at pixel `offset`, as a coordinate of
      an atlas `size` pixels long. */
  function Place(a: real, extent: real, offset: real, size: real): (c: real)
    requires size > 0.0
    ensures c * size == a * extent + offset
  {
    Unscaled(a * extent + offset, size);
    (a * extent + offset) / size
  }

  /** Texture coordinates remapped into the frame's region of the atlas. A
      rotated region swaps the two axes and flips v. */
  function FitOne(uv: (real, real), f: SpriteFrame): (r: (real, real))
    requires f.Valid()
    ensures !f.rotated ==> r.0 * f.atlasWidth == uv.0 * f.width + f.x && r.1 * f.atlasHeight == uv.1 * f.height + f.y
    ensures f.rotated ==> r.0 * f.atlasWidth == (1.0 - uv.1) * f.height + f.x && r.1 * f.atlasHeight == uv.0 * f.width + f.y
  {
    if f.rotated then
      (Place(1.0 - uv.1, f.height, f.x, f.atlasWidth), Place(uv.0, f.width, f.y, f.atlasHeight))
    else
      (Place(uv.0, f.width, f.x, f.atlasWidth), Place(uv.1, f.height, f.y, f.atlasHeight))
  }

  /** A frame that is the whole, unrotated atlas leaves coordinates as they are. */
  lemma WholeAtlasFitIsIdentity(uv: (real, real), f: SpriteFrame)
    requires f.Valid() && !f.rotated
    requires f.x == 0.0 && f.y == 0.0 && f.width == f.atlasWidth && f.height == f.atlasHeight
    ensures FitOne(uv, f) == uv
  {
    PlaceWhole(uv.0, f.atlasWidth);
    PlaceWhole(uv.1, f.atlasHeight);
  }

  /** Placing along a region that is the whole axis changes nothing. */
  lemma PlaceWhole(a: real, size: real)
    requires size > 0.0
    ensures Place(a, size, 0.0, size) == a
  {
    Cancel(a, size);
  }

  /** Coordinates in the unit square land inside the frame's region of the
      atlas: between `x` and `x + width` pixels across and `y` and
      `y + height` down, with width and height swapped for a rotated frame. */
  lemma FitStaysInRegion(uv: (real, real), f: SpriteFrame)
    requires f.Valid() && 0.0 <= uv.0 <= 1.0 && 0.0 <= uv.1 <= 1.0
    ensures var w := if f.rotated then f.height else f.width;
            var h := if f.rotated then f.width else f.height;
      f.x / f.atlasWidth <= FitOne(uv, f).0 <= (f.x + w) / f.atlasWidth &&
      f.y / f.atlasHeight <= FitOne(uv, f).1 <= (f.y + h) / f.atlasHeight
  {
    if f.rotated {
      PlaceWithin(1.0 - uv.1, f.height, f.x, f.atlasWidth);
      PlaceWithin(uv.0, f.width, f.y, f.atlasHeight);
    } else {
      PlaceWithin(uv.0, f.width, f.x, f.atlasWidth);
      PlaceWithin(uv.1, f.height, f.y, f.atlasHeight);
    }
  }

  /** A fraction in [0, 1] of the region is placed between its two ends. */
  lemma PlaceWithin(a: real, extent: real, offset: real, size: real)
    requires 0.0 <= a <= 1.0 && extent >= 0.0 && size > 0.0
    ensures offset / size <= Place(a, extent, offset, size) <= (offset + extent) / size
  {
    Fraction(a, extent);
    assert Mul(a, extent) == a * extent;
    DivideMonotone(offset, a * extent + offset, size);
    DivideMonotone(a * extent + offset, offset + extent, size);
  }

  /** Division by a positive size keeps order. */
  lemma DivideMonotone(p: real, q: real, size: real)
    requires p <= q && size > 0.0
    ensures p / size <= q / size
  {
    assert q / size - p / size == (q - p) / size;
  }

  /** The vertex buffer after atlas fitting of the first `count` vertices. */
  function FitUVs(vs: seq<Vertex>, count: int, f: SpriteFrame): (r: seq<Vertex>)
    requires f.Valid()
    ensures |r| == |vs|
    ensures forall k | 0 <= k < |vs| :: r[k].x == vs[k].x && r[k].y == vs[k].y && r[k].color == vs[k].color
    ensures forall k | 0 <= k < |vs| && count <= k :: r[k] == vs[k]
  {
    seq(|vs|, k requires 0 <= k < |vs| =>
      if k < count then
        var uv := FitOne((vs[k].u, vs[k].v), f);
        vs[k].(u := uv.0, v := uv.1)
      else vs[k])
  }

  /** A sprite frame that may be absent. */
  datatype Option<T> = None | Some(value: T)

  /** The vertex buffer after the uv pass of a trail with `rows` samples: without
      a frame nothing is written; with one, the first `count` vertices get
      their layout coordinates fitted into the frame. */
  function UvPass(vs: seq<Vertex>, count: int, rows: int, frame: Option<SpriteFrame>): (r: seq<Vertex>)
    requires rows != 1 && (frame.Some? ==> frame.value.Valid())
    ensures |r| == |vs|
  {
    if frame.None? then vs else FitUVs(LayUV(vs, count, UvStep(rows)), count, frame.value)
  }

  /** After the uv pass with a frame, every vertex of the trail has texture
      coordinates inside the frame's region of the atlas. */
  lemma UvPassInRegion(vs: seq<Vertex>, rows: nat, f: SpriteFrame, k: nat)
    requires rows >= 2 && f.Valid() && k < |vs| && k < 2 * rows
    ensures var r := UvPass(vs, 2 * rows, rows, Some(f))[k];
            var w := if f.rotated then f.height else f.width;
            var h := if f.rotated then f.width else f.height;
      f.x / f.atlasWidth <= r.u <= (f.x + w) / f.atlasWidth &&
      f.y / f.atlasHeight <= r.v <= (f.y + h) / f.atlasHeight
  {
    var uv := UvAt(k, UvStep(rows));
    UvSpansTexture(rows, k);
    assert LayUV(vs, 2 * rows, UvStep(rows))[k] == vs[k].(u := uv.0, v := uv.1);
    FitStaysInRegion(uv, f);
  }

  // ---------------------------------------------------------------- colour

  /** Opacity of pair `i`: tapered linearly from head to tail opacity, then
      scaled by the node's opacity out of 255. */
  function OpacityAt(headOpacity: int, tailOpacity: int, length: nat, i: nat, nodeOpacity: int): (o: real)
    requires length != 1
    ensures i == 0 ==> o == headOpacity as real * (nodeOpacity as real / 255.0)
    ensures headOpacity == tailOpacity ==> o == headOpacity as real * (nodeOpacity as real / 255.0)
  {
    var delta := (headOpacity - tailOpacity) as real / (length - 1) as real;
    (headOpacity as real - delta * i as real) * (nodeOpacity as real / 255.0)
  }

  /** The head pair has the head opacity and the tail pair the tail opacity,
      both scaled by the node's. */
  lemma OpacityEnds(headOpacity: int, tailOpacity: int, length: nat, nodeOpacity: int)
    requires length >= 2
    ensures OpacityAt(headOpacity, tailOpacity, length, 0, nodeOpacity)
         == headOpacity as real * (nodeOpacity as real / 255.0)
    ensures OpacityAt(headOpacity, tailOpacity, length, length - 1, nodeOpacity)
         == tailOpacity as real * (nodeOpacity as real / 255.0)
  {
    var n := (length - 1) as real;
    Unscaled((headOpacity - tailOpacity) as real, n);
  }

  /** With opacities in [0, 255], every pair's opacity lies in [0, 255]. */
  lemma OpacityInRange(headOpacity: Byte, tailOpacity: Byte, length: nat, i: nat, nodeOpacity: Byte)
    requires length >= 2 && i < length
    ensures 0.0 <= OpacityAt(headOpacity, tailOpacity, length, i, nodeOpacity) <= 255.0
  {
    var h := headOpacity as real;
    var t := tailOpacity as real;
    var n := (length - 1) as real;
    var f := i as real / n;
    var s := nodeOpacity as real / 255.0;
    assert 0.0 <= f <= 1.0;
    assert (h - t) / n * i as real == Mul(f, h - t);
    Interpolate(h, t, f);
    var o := h - Mul(f, h - t);
    Fraction(s, o);
    assert OpacityAt(headOpacity, tailOpacity, length, i, nodeOpacity) == Mul(s, o);
  }

  /** The colour channels of the node as one word: `b << 16 | g << 8 | r`.
      The three bytes do not overlap, so the bitwise or is their weighted sum. */
  function RgbWord(r: Byte, g: Byte, b: Byte): (w: nat)
    ensures w < 0x100_0000
  {
    b * 0x1_0000 + g * 0x100 + r
  }

  /** The byte of an opacity that survives `(opacity << 24)`: the shift
      converts the opacity to a 32-bit integer (truncating toward zero) and
      keeps only its low byte, i.e. the truncated value modulo 256. For an
      opacity in [0, 256) no wrap-around happens: the byte is its integer part. */
  function OpacityByte(opacity: real): (b: Byte)
    ensures 0.0 <= opacity < 256.0 ==> b == opacity.Floor
  {
    Trunc(opacity) % 0x100
  }

  /** The packed colour written to both vertices of a pair:
      `(opacity << 24) | rgb`, read back through the unsigned 32-bit view,
      where the signed result of the shift becomes its value modulo 2^32. */
  function PackColor(opacity: real, r: Byte, g: Byte, b: Byte): (c: nat)
    ensures c < 0x1_0000_0000
  {
    OpacityByte(opacity) * 0x100_0000 + RgbWord(r, g, b)
  }

  /** The low three bytes of a packed colour are the node's red, green and
      blue, and the top byte is the opacity byte. */
  lemma PackedColorFields(opacity: real, r: Byte, g: Byte, b: Byte)
    ensures PackColor(opacity, r, g, b) % 0x100 == r
    ensures PackColor(opacity, r, g, b) / 0x100 % 0x100 == g
    ensures PackColor(opacity, r, g, b) / 0x1_0000 % 0x100 == b
    ensures PackColor(opacity, r, g, b) / 0x100_0000 == OpacityByte(opacity)
  {
    var o := OpacityByte(opacity);
    var c := PackColor(opacity, r, g, b);
    assert c == ((o * 0x100 + b) * 0x100 + g) * 0x100 + r;
    assert c / 0x100 == (o * 0x100 + b) * 0x100 + g;
    assert c / 0x1_0000 == o * 0x100 + b;
    assert c / 0x100_0000 == o;
  }

  /** The vertex buffer after the colour pass: both vertices of each pair
      `i < length` that exist get pair `i`'s packed colour; nothing else changes. */
  function Colorize(vs: seq<Vertex>, length: nat, headOpacity: int, tailOpacity: int,
                    nodeOpacity: int, r: Byte, g: Byte, b: Byte): (res: seq<Vertex>)
    requires length != 1
    ensures |res| == |vs|
    ensures forall k | 0 <= k < |vs| ::
      res[k].x == vs[k].x && res[k].y == vs[k].y && res[k].u == vs[k].u && res[k].v == vs[k].v
    ensures forall k | 0 <= k < |vs| && 2 * length <= k :: res[k] == vs[k]
    ensures forall j, k | 0 <= j < |vs| && 0 <= k < |vs| && j < 2 * length && k < 2 * length && j / 2 == k / 2 ::
      res[j].color == res[k].color
  {
    seq(|vs|, k requires 0 <= k < |vs| =>
      if k < 2 * length then
        vs[k].(color := PackColor(OpacityAt(headOpacity, tailOpacity, length, k / 2, nodeOpacity), r, g, b))
      else vs[k])
  }

  /** With opacities in [0, 255], the top byte of every pair's packed
      colour is the integer part of its tapered, scaled opacity: the shift
      never wraps. */
  lemma ColourCarriesOpacity(headOpacity: Byte, tailOpacity: Byte, length: nat, i: nat,
                             nodeOpacity: Byte, r: Byte, g: Byte, b: Byte)
    requires length >= 2 && i < length
    ensures var o := OpacityAt(headOpacity, tailOpacity, length, i, nodeOpacity);
      PackColor(o, r, g, b) / 0x100_0000 == o.Floor
  {
    var o := OpacityAt(headOpacity, tailOpacity, length, i, nodeOpacity);
    OpacityInRange(headOpacity, tailOpacity, length, i, nodeOpacity);
    PackedColorFields(o, r, g, b);
  }
}
