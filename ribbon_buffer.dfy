/** The ribbon's buffer bookkeeping: how many vertices and indices a trail of a
    given length needs, when the storage is reallocated, and the index list
    that turns the vertex strip into triangles. */
module RibbonBuffer {
  import opened Numbers

  /** Vertex layout of the default format "x, y, u, v, colour": five 32-bit
      slots per vertex, position at slot 0, uv at slot 2, colour at slot 4. */
  const STEP: nat := 5
  const XY_OFFSET: nat := 0
  const UV_OFFSET: nat := 2
  const COLOR_OFFSET: nat := 4

  /** The flat slot that field `offset` of vertex record `k` occupies. */
  function Slot(k: nat, offset: nat): nat {
    STEP * k + offset
  }

  /** The slot offsets of the fields of the default format: x and y, u and
      v, and the colour. */
  predicate IsField(offset: nat) {
    offset == XY_OFFSET || offset == XY_OFFSET + 1 || offset == UV_OFFSET ||
    offset == UV_OFFSET + 1 || offset == COLOR_OFFSET
  }

  /** Vertex records are a faithful view of the flat storage: two fields
      share a slot only when they are the same field of the same record,
      and a record's fields lie inside storage sized for `n` vertices
      exactly when the record's index is below `n`. */
  lemma RecordsAreFlatSlots(n: nat, k1: nat, o1: nat, k2: nat, o2: nat)
    requires IsField(o1) && IsField(o2)
    ensures Slot(k1, o1) == Slot(k2, o2) <==> k1 == k2 && o1 == o2
    ensures Slot(k1, o1) < STEP * n <==> k1 < n
  {
    if k1 < k2 {
      assert Slot(k1, o1) < STEP * (k1 + 1) <= STEP * k2;
    } else if k2 < k1 {
      assert Slot(k2, o2) < STEP * (k2 + 1) <= STEP * k1;
    }
    if k1 < n {
      assert Slot(k1, o1) < STEP * (k1 + 1) <= STEP * n;
    } else {
      assert STEP * n <= STEP * k1;
    }
  }

  /** The ratio the trail passes when it resizes its buffer. */
  const DEFAULT_RATIO: real := 2.0

  /** Values stored in the index buffer are unsigned 16-bit. */
  const UINT16_RANGE: int := 0x1_0000

  /** Vertex count actually kept for a requested count: a negative request
      keeps none. */
  function VerticesFor(requested: int): (n: nat)
    ensures requested >= 0 ==> n == requested
    ensures requested < 0 ==> n == 0
  {
    Max(requested, 0)
  }

  /** Index count for a requested vertex count: three per triangle of the strip,
      none when there are fewer than three vertices. */
  function IndicesFor(requested: int): (n: nat)
    ensures n % 3 == 0
  {
    Max((requested - 2) * 3, 0)
  }

  /** The outcome of one resize: the new capacity and whether new storage is needed. */
  datatype Plan = Plan(capacity: nat, reallocated: bool)

  /** The ratio in force: the requested one, but never below 1.5. */
  function EffectiveRatio(ratio: real): (r: real)
    ensures r >= 1.5 && r >= ratio
  {
    MaxReal(ratio, 1.5)
  }

  /** The capacity policy: grow by the ratio when the vertex count exceeds the
      capacity, shrink by it when the count falls below capacity / ratio,
      otherwise keep the capacity and the storage. The new capacity is
      truncated to an integer. */
  function Resize(capacity: nat, requested: int, ratio: real): (p: Plan)
    ensures p.capacity >= VerticesFor(requested)
    ensures var n := VerticesFor(requested);
      capacity as real / EffectiveRatio(ratio) <= n as real && n <= capacity
      ==> p == Plan(capacity, false)
  {
    var r := EffectiveRatio(ratio);
    var n := VerticesFor(requested);
    if n > capacity then
      TruncAtLeast(MaxReal(capacity as real * r, n as real), n);
      Plan(Trunc(MaxReal(capacity as real * r, n as real)), true)
    else if (n as real) < capacity as real / r then
      TruncAtLeast(MaxReal(capacity as real / r, n as real), n);
      Plan(Trunc(MaxReal(capacity as real / r, n as real)), true)
    else
      Plan(capacity, false)
  }

  /** After a grow, asking again for the same count changes nothing: the
      count lies within the hysteresis band of the new capacity. */
  lemma GrowthSettles(capacity: nat, requested: int, ratio: real)
    requires VerticesFor(requested) > capacity
    ensures Resize(capacity, requested, ratio).reallocated
    ensures var c := Resize(capacity, requested, ratio).capacity;
      Resize(c, requested, ratio) == Plan(c, false)
  {
    var r := EffectiveRatio(ratio);
    var n := VerticesFor(requested);
    var c := Resize(capacity, requested, ratio).capacity;
    var grown := MaxReal(capacity as real * r, n as real);
    assert c as real <= grown;
    if capacity as real * r >= n as real {
      assert c as real <= capacity as real * r;
      DivideBelow(c as real, capacity as real, r);
    } else {
      assert c == n;
      DivideBelow(c as real, c as real, r);
    }
  }

  /** Starting without capacity, the first resize allocates exactly the
      requested vertices. */
  lemma FirstResizeIsExact(requested: int, ratio: real)
    ensures Resize(0, requested, ratio).capacity == VerticesFor(requested)
  {
  }

  /** A shrink lowers the capacity, never below the count it was asked for. */
  lemma ShrinkLowers(capacity: nat, requested: int, ratio: real)
    requires VerticesFor(requested) as real < capacity as real / EffectiveRatio(ratio)
    ensures var p := Resize(capacity, requested, ratio);
      p.reallocated && VerticesFor(requested) <= p.capacity < capacity
  {
    var r := EffectiveRatio(ratio);
    var n := VerticesFor(requested);
    DivideBelow(capacity as real, capacity as real, r);
    assert capacity as real / r < capacity as real by {
      assert capacity as real / r * r == capacity as real;
    }
  }

  /** Vertex records the storage holds after a resize, as the code sizes it:
      a reallocation (or the first creation) makes storage for exactly the
      requested vertices, not for the new capacity; otherwise the storage stays. */
  function StorageAfter(storage: nat, created: bool, capacity: nat, requested: int, ratio: real): (n: nat)
    ensures storage <= capacity ==> n <= Resize(capacity, requested, ratio).capacity
  {
    if Resize(capacity, requested, ratio).reallocated || !created then VerticesFor(requested) else storage
  }

  /** A shrink followed by a regrow that stays within the shrunken capacity
      leaves storage for fewer vertices than the count: 40 vertices, then
      10 (capacity 20, storage 10), then 16 (no reallocation). */
  lemma RegrowLeavesShortStorage()
    ensures var first := Resize(40, 10, DEFAULT_RATIO);
            var storage := StorageAfter(40, true, 40, 10, DEFAULT_RATIO);
      first == Plan(20, true) && storage == 10 &&
      Resize(first.capacity, 16, DEFAULT_RATIO) == Plan(20, false) &&
      StorageAfter(storage, true, first.capacity, 16, DEFAULT_RATIO) < VerticesFor(16)
  {
    assert Trunc(MaxReal(40.0 / 2.0, 10.0)) == 20;
  }

  /** The storage the capacity policy evidently intends: sized to the
      capacity whenever it is (re)made, so that it always covers the count. */
  function CapacityStorage(storage: nat, created: bool, capacity: nat, requested: int, ratio: real): (n: nat)
    requires created ==> storage == capacity
    ensures n == Resize(capacity, requested, ratio).capacity
    ensures n >= VerticesFor(requested)
  {
    var p := Resize(capacity, requested, ratio);
    if p.reallocated || !created then p.capacity else storage
  }

  /** x <= y * r with r >= 1.5 gives x / r <= y. */
  lemma DivideBelow(x: real, y: real, r: real)
    requires r >= 1.5 && x <= y * r
    ensures x / r <= y
  {
    assert x / r * r == x;
  }

  /** The index written at position `i` of the index buffer: triangle `i / 3`
      uses vertices `i / 3`, `i / 3 + 1`, `i / 3 + 2`. */
  function IndexAt(i: nat): (v: nat)
    ensures i / 3 <= v <= i / 3 + 2
  {
    i / 3 + i % 3
  }

  /** Reference definition of the strip-to-list expansion: the triangles of
      a strip with `triangles` triangles, one after the other. */
  function StripIndices(triangles: nat): seq<nat> {
    if triangles == 0 then []
    else StripIndices(triangles - 1) + [triangles - 1, triangles, triangles + 1]
  }

  /** The closed form the index loop writes agrees with the reference expansion. */
  lemma {:induction false} StripIndicesAt(triangles: nat)
    ensures |StripIndices(triangles)| == 3 * triangles
    ensures forall i :: 0 <= i < 3 * triangles ==> StripIndices(triangles)[i] == IndexAt(i)
  {
    if triangles > 0 {
      var t := triangles - 1;
      StripIndicesAt(t);
      forall i | 0 <= i < 3 * triangles
        ensures StripIndices(triangles)[i] == IndexAt(i)
      {
        if i >= 3 * t {
          assert i / 3 == t;
        }
      }
    }
  }

  /** A position of the index list that uses vertex `v`: the first triangle
      containing it. */
  function FirstUse(verticesCount: nat, v: nat): nat
    requires 3 <= verticesCount && v < verticesCount
  {
    var t := if v < verticesCount - 2 then v else verticesCount - 3;
    3 * t + (v - t)
  }

  /** Every index of a strip over `verticesCount` vertices names one of them,
      and every one of them is used by some triangle. */
  lemma StripUsesExactlyItsVertices(verticesCount: nat)
    requires verticesCount >= 3
    ensures forall i :: 0 <= i < IndicesFor(verticesCount) ==> IndexAt(i) < verticesCount
    ensures forall v :: 0 <= v < verticesCount ==>
      FirstUse(verticesCount, v) < IndicesFor(verticesCount) && IndexAt(FirstUse(verticesCount, v)) == v
  {
    forall v | 0 <= v < verticesCount
      ensures FirstUse(verticesCount, v) < IndicesFor(verticesCount) && IndexAt(FirstUse(verticesCount, v)) == v
    {
      var t := if v < verticesCount - 2 then v else verticesCount - 3;
      assert FirstUse(verticesCount, v) / 3 == t;
    }
  }

  /** The index buffer after the index loop: the first `count` positions that
      exist hold the strip indices as unsigned 16-bit values; positions past
      `count` keep what they held. */
  function WithStripIndices(prior: seq<int>, count: int): (r: seq<int>)
    ensures |r| == |prior|
  {
    seq(|prior|, i requires 0 <= i < |prior| =>
      if i < count then IndexAt(i) % UINT16_RANGE else prior[i])
  }
}
