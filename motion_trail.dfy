/** The motion-trail render component: a ribbon of `length` samples that
    follows its node, drawn as a strip of `2 * length` vertices. */
module MotionTrailComponent {
  import opened Numbers
  import opened RibbonBuffer
  import opened Anchors
  import opened Vertices

  /** What the component reads from its node each time it needs it: the
      translation of the world matrix, the local position, the opacity and
      the colour channels. */
  datatype Node = Node(worldX: real, worldY: real, x: real, y: real,
                       opacity: int, r: Byte, g: Byte, b: Byte)

  /** The inspector properties the component is created with. */
  datatype Settings = Settings(
    active: bool, isWorldXY: bool, offsetX: real, offsetY: real,
    length: nat, headWidth: real, tailWidth: real,
    headOpacity: int, tailOpacity: int, spriteFrame: Option<SpriteFrame>)

  /** The property defaults of a freshly added component. */
  const DEFAULT_SETTINGS: Settings :=
    Settings(true, true, 0.0, 0.0, 20, 100.0, 0.0, 255, 0, None)

  /** With the default properties, 20 samples make 40 vertices and 114
      indices, and the first resize allocates exactly those 40 vertices. */
  lemma DefaultBuffers()
    ensures VerticesFor(2 * DEFAULT_SETTINGS.length) == 40 && IndicesFor(2 * DEFAULT_SETTINGS.length) == 114
    ensures Resize(0, 2 * DEFAULT_SETTINGS.length, DEFAULT_RATIO) == Plan(40, true)
  {
  }

  class MotionTrail {
    var active: bool
    var isWorldXY: bool
    var offsetX: real
    var offsetY: real
    var length: nat
    var headWidth: real
    var tailWidth: real
    var headOpacity: int
    var tailOpacity: int
    var spriteFrame: Option<SpriteFrame>
    /** The node opacity the colours were last computed for. */
    var nodeOpacity: int

    var capacity: nat
    var verticesCount: nat
    var indicesCount: nat
    /** Whether the mesh has storage yet. */
    var meshCreated: bool
    /** Vertex storage, one record per vertex of the 5-slot layout; sized to
        the vertex count at the last reallocation. */
    var vData: array<Vertex>
    /** Index storage, unsigned 16-bit values. */
    var iData: array<int>
    /** The samples, head first. */
    var trailData: seq<Anchor>

    /** The bookkeeping every public operation keeps: one sample per slot,
        two vertices per sample, the strip's index count, and a capacity that
        covers the vertex count. A length of 1 is excluded: its taper divides
        by zero. */
    ghost predicate Valid()
      reads this
    {
      length != 1 && |trailData| == length &&
      verticesCount == 2 * length && indicesCount == IndicesFor(verticesCount) &&
      verticesCount <= capacity && meshCreated &&
      (spriteFrame.Some? ==> spriteFrame.value.Valid())
    }

    /** Where a new head sample goes: the offset plus the node's world
        translation, or plus its local position. Seen from the point the
        ribbon is drawn relative to, a local-mode head sits at the offset. */
    function HeadPoint(node: Node): (p: (real, real))
      reads this`isWorldXY, this`offsetX, this`offsetY
      ensures !isWorldXY ==> (p.0 - Origin(node).0, p.1 - Origin(node).1) == (offsetX, offsetY)
      ensures isWorldXY ==> (p.0 - Origin(node).0, p.1 - Origin(node).1) == (node.worldX + offsetX, node.worldY + offsetY)
    {
      if isWorldXY then (offsetX + node.worldX, offsetY + node.worldY)
      else (offsetX + node.x, offsetY + node.y)
    }

    /** The point vertex positions are measured from: the origin in world
        mode, the node's current local position otherwise. */
    function Origin(node: Node): (o: (real, real))
      reads this`isWorldXY
      ensures isWorldXY ==> o == (0.0, 0.0)
    {
      if isWorldXY then (0.0, 0.0) else (node.x, node.y)
    }

    /** Creates the component with the given properties; no mesh exists yet. */
    constructor (s: Settings)
      ensures active == s.active && isWorldXY == s.isWorldXY && offsetX == s.offsetX
      ensures offsetY == s.offsetY && length == s.length && headWidth == s.headWidth
      ensures tailWidth == s.tailWidth && headOpacity == s.headOpacity
      ensures tailOpacity == s.tailOpacity && spriteFrame == s.spriteFrame && nodeOpacity == 255
      ensures capacity == 0 && verticesCount == 0 && indicesCount == 0 && !meshCreated
      ensures trailData == []
    {
      active := s.active;
      isWorldXY := s.isWorldXY;
      offsetX := s.offsetX;
      offsetY := s.offsetY;
      length := s.length;
      headWidth := s.headWidth;
      tailWidth := s.tailWidth;
      headOpacity := s.headOpacity;
      tailOpacity := s.tailOpacity;
      spriteFrame := s.spriteFrame;
      nodeOpacity := 255;
      capacity := 0;
      verticesCount := 0;
      indicesCount := 0;
      meshCreated := false;
      vData := new Vertex[0];
      iData := new int[0];
      trailData := [];
    }

    /** Sets the component up on its first mesh: builds the history and the
        buffers for `length`, applies the width taper and snaps every sample
        and vertex to the node. Colours and uvs wait for `Start`. */
    method Init(node: Node)
      requires length != 1 && !meshCreated && capacity == 0
      requires spriteFrame.Some? ==> spriteFrame.value.Valid()
      modifies this`trailData, this`capacity, this`verticesCount, this`indicesCount
      modifies this`meshCreated, this`vData, this`iData, iData
      ensures Valid() && capacity == verticesCount
      ensures trailData == ResetTo(WithWidths(Fresh(length), headWidth, tailWidth), HeadPoint(node).0, HeadPoint(node).1)
      ensures fresh(vData) && vData[..] == ResetXY(seq(verticesCount, _ => Blank), verticesCount, HeadPoint(node).0, HeadPoint(node).1)
      ensures fresh(iData) && iData[..] == WithStripIndices(seq(indicesCount, _ => 0), indicesCount)
    {
      UpdateLength();
      FirstResizeIsExact(2 * length, DEFAULT_RATIO);
      UpdateWidth();
      ResetPos(node);
    }

    /** Sets the vertex and index counts for `requested` vertices and applies
        the capacity policy; new zeroed storage, sized to the counts, is made
        when the policy reallocates or when there is none yet. The index
        list is then regenerated. */
    method CreateBuffer(requested: int, ratio: real)
      modifies this`capacity, this`verticesCount, this`indicesCount, this`meshCreated
      modifies this`vData, this`iData, iData
      ensures verticesCount == VerticesFor(requested) && indicesCount == IndicesFor(requested)
      ensures capacity == Resize(old(capacity), requested, ratio).capacity && meshCreated
      ensures vData.Length == StorageAfter(old(vData.Length), old(meshCreated), old(capacity), requested, ratio)
      ensures Resize(old(capacity), requested, ratio).reallocated || !old(meshCreated) ==>
        fresh(vData) && fresh(iData) && vData[..] == seq(verticesCount, _ => Blank) &&
        iData[..] == WithStripIndices(seq(indicesCount, _ => 0), indicesCount)
      ensures !(Resize(old(capacity), requested, ratio).reallocated || !old(meshCreated)) ==>
        vData == old(vData) && iData == old(iData) &&
        iData[..] == WithStripIndices(old(iData[..]), indicesCount)
    {
      verticesCount := Max(requested, 0);
      indicesCount := Max((requested - 2) * 3, 0);
      var isCreate := !meshCreated;
      var plan := Resize(capacity, requested, ratio);
      if plan.reallocated {
        capacity := plan.capacity;
        isCreate := true;
      }
      if isCreate {
        vData := new Vertex[verticesCount](_ => Blank);
        iData := new int[indicesCount](_ => 0);
        meshCreated := true;
      }
      UpdateIndices();
    }

    /** Writes the strip's triangles `(k, k + 1, k + 2)` into the index
        storage, three entries per triangle, for the first `indicesCount`
        entries that exist. */
    method UpdateIndices()
      requires indicesCount % 3 == 0
      modifies iData
      ensures iData[..] == WithStripIndices(old(iData[..]), indicesCount)
    {
      var i := 0;
      var id := 0;
      while i < indicesCount
        invariant i == 3 * id && i <= indicesCount
        invariant forall j :: 0 <= j < iData.Length ==>
          iData[j] == if j < i then IndexAt(j) % UINT16_RANGE else old(iData[j])
      {
        assert IndexAt(i) == id && IndexAt(i + 1) == id + 1 && IndexAt(i + 2) == id + 2;
        StoreIndex(i, id);
        StoreIndex(i + 1, id + 1);
        StoreIndex(i + 2, id + 2);
        i := i + 3;
        id := id + 1;
      }
    }

    /** One write into the unsigned 16-bit index storage; a write past its
        end is dropped. */
    method StoreIndex(i: nat, value: int)
      modifies iData
      ensures forall j :: 0 <= j < iData.Length ==>
        iData[j] == if j == i then value % UINT16_RANGE else old(iData[j])
    {
      if i < iData.Length {
        iData[i] := value % UINT16_RANGE;
      }
    }

    /** Replaces the history by `length` fresh samples and sizes the buffers
        for two vertices per sample. */
    method UpdateLength()
      modifies this`trailData, this`capacity, this`verticesCount, this`indicesCount
      modifies this`meshCreated, this`vData, this`iData, iData
      ensures trailData == Fresh(length)
      ensures verticesCount == 2 * length && indicesCount == IndicesFor(2 * length)
      ensures capacity == Resize(old(capacity), 2 * length, DEFAULT_RATIO).capacity && meshCreated
      ensures vData.Length == StorageAfter(old(vData.Length), old(meshCreated), old(capacity), 2 * length, DEFAULT_RATIO)
      ensures Resize(old(capacity), 2 * length, DEFAULT_RATIO).reallocated || !old(meshCreated) ==>
        fresh(vData) && fresh(iData) && vData[..] == seq(verticesCount, _ => Blank) &&
        iData[..] == WithStripIndices(seq(indicesCount, _ => 0), indicesCount)
      ensures !(Resize(old(capacity), 2 * length, DEFAULT_RATIO).reallocated || !old(meshCreated)) ==>
        vData == old(vData) && iData == old(iData) &&
        iData[..] == WithStripIndices(old(iData[..]), indicesCount)
    {
      trailData := [];
      var i := 0;
      while i < length
        invariant i <= length && trailData == Fresh(i)
        modifies this`trailData
      {
        trailData := trailData + [Unset];
        i := i + 1;
      }
      CreateBuffer(2 * length, DEFAULT_RATIO);
    }

    /** Applies the width taper to every sample. */
    method UpdateWidth()
      requires |trailData| == length && length != 1
      modifies this`trailData
      ensures trailData == WithWidths(old(trailData), headWidth, tailWidth)
    {
      var i := 0;
      while i < length
        invariant i <= length && |trailData| == length
        invariant forall j | 0 <= j < length ::
                    trailData[j] == if j < i then old(trailData)[j].(dis := HalfWidth(headWidth, tailWidth, length, j))
                                    else old(trailData)[j]
      {
        trailData := trailData[i := trailData[i].(dis := HalfWidth(headWidth, tailWidth, length, i))];
        i := i + 1;
      }
    }

    /** Moves every sample, and the position of every vertex within the
        vertex count, to the head point. */
    method ResetPos(node: Node)
      requires |trailData| == length
      modifies this`trailData, vData
      ensures trailData == ResetTo(old(trailData), HeadPoint(node).0, HeadPoint(node).1)
      ensures vData[..] == ResetXY(old(vData[..]), verticesCount, HeadPoint(node).0, HeadPoint(node).1)
    {
      var (tx, ty) := HeadPoint(node);
      var i := length;
      while i > 0
        invariant 0 <= i <= length && |trailData| == length
        invariant forall j | 0 <= j < length ::
                    trailData[j] == if j >= i then old(trailData)[j].(x := tx, y := ty) else old(trailData)[j]
        modifies this`trailData
      {
        i := i - 1;
        trailData := trailData[i := trailData[i].(x := tx, y := ty)];
      }
      var k := 0;
      while k < verticesCount
        invariant k <= verticesCount
        invariant forall j | 0 <= j < vData.Length ::
                    vData[j] == if j < k then old(vData[j]).(x := tx, y := ty) else old(vData[j])
        modifies vData
      {
        if k < vData.Length {
          vData[k] := vData[k].(x := tx, y := ty);
        }
        k := k + 1;
      }
    }

    /** Recomputes the vertex positions: the head sample takes the direction
        (`sin`, `cos`) of the segment to the next sample, then pair `i` is
        placed around sample `i` using sample `i`'s direction, the last pair
        using its predecessor's; positions are measured from `Origin(node)`. */
    method UpdateXY(node: Node, sin: real, cos: real)
      requires length >= 2 && |trailData| == length
      requires IsHeading(trailData[1].x - trailData[0].x, trailData[1].y - trailData[0].y, sin, cos)
      modifies this`trailData, vData
      ensures trailData == Aimed(old(trailData), sin, cos)
      ensures vData[..] == PlaceXY(old(vData[..]), trailData, Origin(node).0, Origin(node).1)
    {
      var (tx, ty) := Origin(node);
      ghost var aimed := Aimed(trailData, sin, cos);
      var id := 0;
      var i := 0;
      while i < length - 1
        invariant 0 <= i <= length - 1 && id == 2 * i
        invariant trailData == if i == 0 then old(trailData) else aimed
        invariant forall k | 0 <= k < vData.Length ::
                    vData[k] == if k < id then old(vData[k]).(x := RibbonPoint(aimed, tx, ty, k).0, y := RibbonPoint(aimed, tx, ty, k).1)
                                else old(vData[k])
        modifies this`trailData, vData
      {
        if i == 0 {
          trailData := trailData[0 := trailData[0].(sin := sin, cos := cos)];
        }
        var a := trailData[i];
        assert a == aimed[i];
        PlacePair(aimed, tx, ty, i, a.x - tx, a.y - ty, a.dis, a.sin, a.cos);
        id := id + 2;
        i := i + 1;
      }
      var a := trailData[length - 2];
      var b := trailData[length - 1];
      PlacePair(aimed, tx, ty, length - 1, b.x - tx, b.y - ty, b.dis, a.sin, a.cos);
    }

    /** Writes the two vertices of pair `p` around (`cx`, `cy`); writes past
        the end of the storage are dropped. */
    method PlacePair(ghost data: seq<Anchor>, ghost tx: real, ghost ty: real, p: nat,
                     cx: real, cy: real, dis: real, sin: real, cos: real)
      requires |data| >= 2 && p < |data|
      requires var c := data[p];
               var a := data[if p < |data| - 1 then p else |data| - 2];
               cx == c.x - tx && cy == c.y - ty && dis == c.dis && sin == a.sin && cos == a.cos
      modifies vData
      ensures forall k | 0 <= k < vData.Length ::
                vData[k] == if 2 * p <= k < 2 * p + 2 then old(vData[k]).(x := RibbonPoint(data, tx, ty, k).0, y := RibbonPoint(data, tx, ty, k).1)
                            else old(vData[k])
    {
      assert (2 * p) / 2 == p && (2 * p + 1) / 2 == p && (2 * p) % 2 == 0 && (2 * p + 1) % 2 == 1;
      var left, right := Side(cx, cy, dis, sin, cos, 0), Side(cx, cy, dis, sin, cos, 1);
      assert RibbonPoint(data, tx, ty, 2 * p) == left && RibbonPoint(data, tx, ty, 2 * p + 1) == right;
      if 2 * p < vData.Length {
        vData[2 * p] := vData[2 * p].(x := left.0, y := left.1);
      }
      if 2 * p + 1 < vData.Length {
        vData[2 * p + 1] := vData[2 * p + 1].(x := right.0, y := right.1);
      }
    }

    /** Lays out the uvs of every vertex within the vertex count, u
        alternating 0, 1 and v falling from 1 to 0 over the rows, then fits
        them into the sprite frame; does nothing without a frame. */
    method UpdateUV()
      requires |trailData| != 1 && (spriteFrame.Some? ==> spriteFrame.value.Valid())
      modifies vData
      ensures vData[..] == UvPass(old(vData[..]), verticesCount, |trailData|, spriteFrame)
    {
      if spriteFrame.None? {
        return;
      }
      var uvStep := UvStep(|trailData|);
      var id := 0;
      while id < verticesCount
        invariant id <= verticesCount
        invariant forall k | 0 <= k < vData.Length ::
                    vData[k] == if k < id then old(vData[k]).(u := UvAt(k, uvStep).0, v := UvAt(k, uvStep).1)
                                else old(vData[k])
      {
        if id < vData.Length {
          vData[id] := vData[id].(u := (id % 2) as real, v := 1.0 - uvStep * (id / 2) as real);
        }
        id := id + 1;
      }
      assert vData[..] == LayUV(old(vData[..]), verticesCount, uvStep);
      FitUV();
    }

    /** Maps the uvs of every vertex within the vertex count into the sprite
        frame's region of its atlas; does nothing without a frame. */
    method FitUV()
      requires spriteFrame.Some? ==> spriteFrame.value.Valid()
      modifies vData
      ensures spriteFrame.None? ==> vData[..] == old(vData[..])
      ensures spriteFrame.Some? ==> vData[..] == FitUVs(old(vData[..]), verticesCount, spriteFrame.value)
    {
      if spriteFrame.None? {
        return;
      }
      var frame := spriteFrame.value;
      var id := 0;
      while id < verticesCount
        invariant id <= verticesCount
        invariant forall k | 0 <= k < vData.Length ::
                    vData[k] == if k < id then old(vData[k]).(u := FitOne((old(vData[k]).u, old(vData[k]).v), frame).0,
                                                              v := FitOne((old(vData[k]).u, old(vData[k]).v), frame).1)
                                else old(vData[k])
      {
        if id < vData.Length {
          var uv := FitOne((vData[id].u, vData[id].v), frame);
          vData[id] := vData[id].(u := uv.0, v := uv.1);
        }
        id := id + 1;
      }
    }

    /** Packs the colour of every pair: the opacity tapered from head to tail
        and scaled by the node's, over the node's red, green and blue; both
        vertices of a pair get the same word. */
    method UpdateColor(node: Node)
      requires length != 1
      modifies vData
      ensures vData[..] == Colorize(old(vData[..]), length, headOpacity, tailOpacity, node.opacity, node.r, node.g, node.b)
    {
      ghost var target := Colorize(vData[..], length, headOpacity, tailOpacity, node.opacity, node.r, node.g, node.b);
      var i := 0;
      var id := 0;
      while i < length
        invariant i <= length && id == 2 * i
        invariant forall k | 0 <= k < vData.Length :: vData[k] == if k < id then target[k] else old(vData[k])
      {
        var color := PackColor(OpacityAt(headOpacity, tailOpacity, length, i, node.opacity), node.r, node.g, node.b);
        PaintPair(i, color);
        assert id < vData.Length ==> vData[id] == target[id] by {
          assert id / 2 == i;
        }
        assert id + 1 < vData.Length ==> vData[id + 1] == target[id + 1] by {
          assert (id + 1) / 2 == i;
        }
        id := id + 2;
        i := i + 1;
      }
    }

    /** Writes `color` into both vertices of pair `p`; writes past the end of
        the storage are dropped. */
    method PaintPair(p: nat, color: nat)
      modifies vData
      ensures forall k | 0 <= k < vData.Length ::
                vData[k] == if 2 * p <= k < 2 * p + 2 then old(vData[k]).(color := color) else old(vData[k])
    {
      if 2 * p < vData.Length {
        vData[2 * p] := vData[2 * p].(color := color);
      }
      if 2 * p + 1 < vData.Length {
        vData[2 * p + 1] := vData[2 * p + 1].(color := color);
      }
    }

    /** The per-frame update. Does nothing while inactive, without a sprite
        frame, or with no samples. Otherwise recolours when the node's
        opacity changed since the last colour pass, ages the history by one
        frame with the new head at `HeadPoint(node)`, and recomputes the
        positions; (`sin`, `cos`) is the direction of the new head segment. */
    method OnFlushed(node: Node, sin: real, cos: real)
      requires Valid()
      requires length >= 2 ==>
        IsHeading(trailData[0].x - HeadPoint(node).0, trailData[0].y - HeadPoint(node).1, sin, cos)
      modifies this`nodeOpacity, this`trailData, vData
      ensures Valid()
      ensures !active || spriteFrame.None? || length == 0 ==>
        nodeOpacity == old(nodeOpacity) && trailData == old(trailData) && vData[..] == old(vData[..])
      ensures active && spriteFrame.Some? && length != 0 ==>
        nodeOpacity == node.opacity &&
        trailData == Advanced(old(trailData), Sample(HeadPoint(node).0, HeadPoint(node).1, sin, cos)) &&
        vData[..] == PlaceXY(if old(nodeOpacity) == node.opacity then old(vData[..])
                             else Colorize(old(vData[..]), length, headOpacity, tailOpacity, node.opacity, node.r, node.g, node.b),
                             trailData, Origin(node).0, Origin(node).1)
    {
      if !active {
        return;
      }
      if spriteFrame.None? {
        return;
      }
      if length == 0 {
        return;
      }
      Advance(node, sin, cos);
    }

    /** The work of a frame that is not skipped: recolour if needed, age the
        history, recompute the positions. */
    method Advance(node: Node, sin: real, cos: real)
      requires length >= 2 && |trailData| == length
      requires IsHeading(trailData[0].x - HeadPoint(node).0, trailData[0].y - HeadPoint(node).1, sin, cos)
      modifies this`nodeOpacity, this`trailData, vData
      ensures nodeOpacity == node.opacity
      ensures trailData == Advanced(old(trailData), Sample(HeadPoint(node).0, HeadPoint(node).1, sin, cos))
      ensures vData[..] == PlaceXY(if old(nodeOpacity) == node.opacity then old(vData[..])
                                   else Colorize(old(vData[..]), length, headOpacity, tailOpacity, node.opacity, node.r, node.g, node.b),
                                   trailData, Origin(node).0, Origin(node).1)
    {
      RefreshOpacity(node);
      var (hx, hy) := HeadPoint(node);
      Age(hx, hy);
      UpdateXY(node, sin, cos);
    }

    /** Recolours when the node's opacity differs from the one the colours
        were last computed for, and remembers the new one. */
    method RefreshOpacity(node: Node)
      requires length != 1
      modifies this`nodeOpacity, vData
      ensures nodeOpacity == node.opacity
      ensures vData[..] == if old(nodeOpacity) == node.opacity then old(vData[..])
                           else Colorize(old(vData[..]), length, headOpacity, tailOpacity, node.opacity, node.r, node.g, node.b)
    {
      if nodeOpacity != node.opacity {
        nodeOpacity := node.opacity;
        UpdateColor(node);
      }
    }

    /** One frame of aging: from the tail up, each sample takes the
        position and direction of the one before it; then the head moves to
        (`hx`, `hy`). */
    method Age(hx: real, hy: real)
      requires |trailData| == length && length > 0
      modifies this`trailData
      ensures trailData == Shifted(old(trailData), hx, hy)
    {
      ghost var start := trailData;
      var i := length - 1;
      while i > 0
        invariant 0 <= i < length && |trailData| == length
        invariant forall j | 0 <= j < length :: trailData[j] == if j > i then AgedAt(start, hx, hy, j) else start[j]
        modifies this`trailData
      {
        var prev := trailData[i - 1];
        trailData := trailData[i := trailData[i].(x := prev.x, y := prev.y, sin := prev.sin, cos := prev.cos)];
        i := i - 1;
      }
      trailData := trailData[0 := trailData[0].(x := hx, y := hy)];
      assert forall j | 0 <= j < length :: trailData[j] == AgedAt(start, hx, hy, j);
    }

    /** The `length` property: clamps the value at 0, rebuilds the history and
        the buffers, re-applies the taper, lays out the uvs, recolours and
        snaps the trail to the node. A length of 1 is outside the model. */
    method SetLength(value: int, node: Node)
      requires Valid() && Max(value, 0) != 1
      modifies this`length, this`trailData, this`capacity, this`verticesCount, this`indicesCount
      modifies this`meshCreated, this`vData, this`iData, vData, iData
      ensures Valid() && length == Max(value, 0)
      ensures capacity == Resize(old(capacity), 2 * length, DEFAULT_RATIO).capacity
      ensures vData.Length == StorageAfter(old(vData.Length), true, old(capacity), 2 * length, DEFAULT_RATIO)
      ensures trailData == ResetTo(WithWidths(Fresh(length), headWidth, tailWidth), HeadPoint(node).0, HeadPoint(node).1)
      ensures var realloc := Resize(old(capacity), 2 * length, DEFAULT_RATIO).reallocated;
              var base := if realloc then seq(verticesCount, _ => Blank) else old(vData[..]);
        (realloc ==> fresh(vData) && fresh(iData)) &&
        (!realloc ==> vData == old(vData) && iData == old(iData)) &&
        vData[..] == ResetXY(Colorize(UvPass(base, verticesCount, length, spriteFrame),
                                      length, headOpacity, tailOpacity, node.opacity, node.r, node.g, node.b),
                             verticesCount, HeadPoint(node).0, HeadPoint(node).1) &&
        iData[..] == WithStripIndices(if realloc then seq(indicesCount, _ => 0) else old(iData[..]), indicesCount)
    {
      length := Max(value, 0);
      UpdateLength();
      UpdateWidth();
      UpdateUV();
      UpdateColor(node);
      ResetPos(node);
    }

    /** The `headWidth` property: clamps the value at 0 and re-applies the taper. */
    method SetHeadWidth(value: real)
      requires Valid()
      modifies this`headWidth, this`trailData
      ensures Valid() && headWidth == MaxReal(value, 0.0)
      ensures trailData == WithWidths(old(trailData), headWidth, tailWidth)
    {
      headWidth := MaxReal(value, 0.0);
      UpdateWidth();
    }

    /** The `tailWidth` property: clamps the value at 0 and re-applies the taper. */
    method SetTailWidth(value: real)
      requires Valid()
      modifies this`tailWidth, this`trailData
      ensures Valid() && tailWidth == MaxReal(value, 0.0)
      ensures trailData == WithWidths(old(trailData), headWidth, tailWidth)
    {
      tailWidth := MaxReal(value, 0.0);
      UpdateWidth();
    }

    /** The `headOpacity` property: stores the value unclamped and recolours. */
    method SetHeadOpacity(value: int, node: Node)
      requires Valid()
      modifies this`headOpacity, vData
      ensures Valid() && headOpacity == value
      ensures vData[..] == Colorize(old(vData[..]), length, value, tailOpacity, node.opacity, node.r, node.g, node.b)
    {
      headOpacity := value;
      UpdateColor(node);
    }

    /** The `tailOpacity` property: stores the value unclamped and recolours. */
    method SetTailOpacity(value: int, node: Node)
      requires Valid()
      modifies this`tailOpacity, vData
      ensures Valid() && tailOpacity == value
      ensures vData[..] == Colorize(old(vData[..]), length, headOpacity, value, node.opacity, node.r, node.g, node.b)
    {
      tailOpacity := value;
      UpdateColor(node);
    }

    /** The `active` property: activating snaps the trail to the node;
        deactivating leaves history and vertices as they are. */
    method SetActive(value: bool, node: Node)
      requires Valid()
      modifies this`active, this`trailData, vData
      ensures Valid() && active == value
      ensures value ==> trailData == ResetTo(old(trailData), HeadPoint(node).0, HeadPoint(node).1) &&
                        vData[..] == ResetXY(old(vData[..]), verticesCount, HeadPoint(node).0, HeadPoint(node).1)
      ensures !value ==> trailData == old(trailData) && vData[..] == old(vData[..])
    {
      active := value;
      if active {
        ResetPos(node);
      }
    }

    /** The `isWorldXY` property: switches the coordinate mode and recomputes
        the positions in it. The samples themselves are not moved. */
    method SetIsWorldXY(value: bool, node: Node, sin: real, cos: real)
      requires Valid() && length >= 2
      requires IsHeading(trailData[1].x - trailData[0].x, trailData[1].y - trailData[0].y, sin, cos)
      modifies this`isWorldXY, this`trailData, vData
      ensures Valid() && isWorldXY == value
      ensures trailData == Aimed(old(trailData), sin, cos)
      ensures vData[..] == PlaceXY(old(vData[..]), trailData, Origin(node).0, Origin(node).1)
    {
      isWorldXY := value;
      UpdateXY(node, sin, cos);
    }

    /** The sprite frame property: stores the frame and lays out and fits the uvs. */
    method SetSpriteFrame(frame: Option<SpriteFrame>)
      requires Valid() && (frame.Some? ==> frame.value.Valid())
      modifies this`spriteFrame, vData
      ensures Valid() && spriteFrame == frame
      ensures vData[..] == UvPass(old(vData[..]), verticesCount, length, frame)
    {
      spriteFrame := frame;
      UpdateUV();
    }

    /** The component's start: the uv pass for the current frame, then the
        colour pass. */
    method Start(node: Node)
      requires Valid()
      modifies vData
      ensures vData[..] == Colorize(UvPass(old(vData[..]), verticesCount, length, spriteFrame),
                                    length, headOpacity, tailOpacity, node.opacity, node.r, node.g, node.b)
    {
      UpdateUV();
      UpdateColor(node);
    }
  }
}
