/** The anchor history of a trail: one sample per segment, newest first. */
module Anchors {
  import opened Numbers

  /** One sample of the trail: position, half-width of the ribbon at this
      sample, and the direction (sine and cosine of the heading angle) used to
      place its two side vertices. */
  datatype Anchor = Anchor(x: real, y: real, dis: real, cos: real, sin: real)

  /** A freshly created sample: every field zero. */
  const Unset: Anchor := Anchor(0.0, 0.0, 0.0, 0.0, 0.0)

  /** The history a length change starts from: `length` fresh samples. */
  function Fresh(length: nat): (r: seq<Anchor>)
    ensures |r| == length && forall i :: 0 <= i < length ==> r[i] == Unset
  {
    seq(length, _ => Unset)
  }

  /** Half-width of sample `i` of a trail of `length` samples: head width / 2
      at the head, then equal steps down (or up) to tail width / 2. */
  function HalfWidth(headWidth: real, tailWidth: real, length: nat, i: int): (h: real)
    requires length != 1
    ensures i == 0 ==> h == headWidth / 2.0
    ensures headWidth == tailWidth ==> h == headWidth / 2.0
  {
    var headHalf := headWidth * 0.5;
    var delta := (headHalf - tailWidth * 0.5) / (length - 1) as real;
    headHalf - delta * i as real
  }

  /** The taper starts at half the head width and ends at half the tail width. */
  lemma TaperEnds(headWidth: real, tailWidth: real, length: nat)
    requires length >= 2
    ensures HalfWidth(headWidth, tailWidth, length, 0) == headWidth / 2.0
    ensures HalfWidth(headWidth, tailWidth, length, length - 1) == tailWidth / 2.0
  {
    var delta := (headWidth * 0.5 - tailWidth * 0.5) / (length - 1) as real;
    assert delta * (length - 1) as real == headWidth * 0.5 - tailWidth * 0.5;
  }

  /** Consecutive samples differ by the same step. */
  lemma TaperEvenSteps(headWidth: real, tailWidth: real, length: nat, i: int)
    requires length >= 2
    ensures HalfWidth(headWidth, tailWidth, length, i + 1) - HalfWidth(headWidth, tailWidth, length, i)
         == (tailWidth - headWidth) / (2 * (length - 1)) as real
  {
    var n := (length - 1) as real;
    var delta := (headWidth * 0.5 - tailWidth * 0.5) / n;
    assert delta * (i + 1) as real - delta * i as real == delta;
    assert (tailWidth - headWidth) / (2.0 * n) == -delta by {
      assert delta * n == headWidth * 0.5 - tailWidth * 0.5;
      assert -delta * (2.0 * n) == tailWidth - headWidth;
    }
  }

  /** Every half-width lies between the two end half-widths, so it is never
      negative when both widths are not. */
  lemma TaperBetweenEnds(headWidth: real, tailWidth: real, length: nat, i: int)
    requires length >= 2 && 0 <= i < length
    ensures var w := HalfWidth(headWidth, tailWidth, length, i);
      (headWidth <= tailWidth ==> headWidth / 2.0 <= w <= tailWidth / 2.0) &&
      (tailWidth <= headWidth ==> tailWidth / 2.0 <= w <= headWidth / 2.0)
  {
    var n := (length - 1) as real;
    var hh := headWidth * 0.5;
    var th := tailWidth * 0.5;
    var f := i as real / n;
    assert 0.0 <= f <= 1.0;
    assert (hh - th) / n * i as real == Mul(f, hh - th);
    Interpolate(hh, th, f);
  }

  /** The history with the width taper applied: positions and directions
      are kept, and the head gets half the head width. */
  function WithWidths(data: seq<Anchor>, headWidth: real, tailWidth: real): (r: seq<Anchor>)
    requires |data| != 1
    ensures |r| == |data| && Positions(r) == Positions(data)
    ensures forall i | 0 <= i < |data| :: r[i].sin == data[i].sin && r[i].cos == data[i].cos
    ensures |data| > 0 ==> r[0].dis == headWidth / 2.0
  {
    seq(|data|, i requires 0 <= i < |data| =>
      data[i].(dis := HalfWidth(headWidth, tailWidth, |data|, i)))
  }

  /** One frame of aging: each sample but the head takes the position and
      direction of the sample before it, keeping its own half-width; the head
      keeps its direction and moves to (`hx`, `hy`). */
  function Shifted(data: seq<Anchor>, hx: real, hy: real): (r: seq<Anchor>)
    requires |data| > 0
    ensures |r| == |data|
    ensures Positions(r) == [(hx, hy)] + Positions(data)[..|data| - 1]
    ensures Widths(r) == Widths(data)
    ensures r[0].sin == data[0].sin && r[0].cos == data[0].cos
    ensures forall i | 1 <= i < |data| :: r[i].sin == data[i - 1].sin && r[i].cos == data[i - 1].cos
  {
    seq(|data|, i requires 0 <= i < |data| => AgedAt(data, hx, hy, i))
  }

  /** Slot `i` of the history after one frame of aging. */
  function AgedAt(data: seq<Anchor>, hx: real, hy: real, i: nat): Anchor
    requires i < |data|
  {
    if i == 0 then data[0].(x := hx, y := hy)
    else data[i].(x := data[i - 1].x, y := data[i - 1].y,
                  sin := data[i - 1].sin, cos := data[i - 1].cos)
  }

  /** The head sample given the direction (`sin`, `cos`) of its segment;
      positions, widths and every other sample are kept. */
  function Aimed(data: seq<Anchor>, sin: real, cos: real): (r: seq<Anchor>)
    requires |data| > 0
    ensures |r| == |data|
    ensures Positions(r) == Positions(data) && Widths(r) == Widths(data)
    ensures r[0].sin == sin && r[0].cos == cos && r[1..] == data[1..]
  {
    data[0 := data[0].(sin := sin, cos := cos)]
  }

  /** Every sample moved to (`tx`, `ty`); widths and directions kept. */
  function ResetTo(data: seq<Anchor>, tx: real, ty: real): (r: seq<Anchor>)
    ensures |r| == |data| && Widths(r) == Widths(data)
    ensures forall i | 0 <= i < |r| :: Positions(r)[i] == (tx, ty)
    ensures forall i | 0 <= i < |r| :: r[i].sin == data[i].sin && r[i].cos == data[i].cos
  {
    seq(|data|, i requires 0 <= i < |data| => data[i].(x := tx, y := ty))
  }

  /** The positions of a history, head first. */
  function Positions(data: seq<Anchor>): (r: seq<(real, real)>)
    ensures |r| == |data|
  {
    seq(|data|, i requires 0 <= i < |data| => (data[i].x, data[i].y))
  }

  /** The directions of a history, head first, as (sin, cos). */
  function Directions(data: seq<Anchor>): (r: seq<(real, real)>)
    ensures |r| == |data|
  {
    seq(|data|, i requires 0 <= i < |data| => (data[i].sin, data[i].cos))
  }

  /** The half-widths of a history, head first. */
  function Widths(data: seq<Anchor>): (r: seq<real>)
    ensures |r| == |data|
  {
    seq(|data|, i requires 0 <= i < |data| => data[i].dis)
  }

  /** What one frame contributes: the new head point and the direction
      (`sin`, `cos`) of the segment from it to the previous head. */
  datatype Sample = Sample(x: real, y: real, sin: real, cos: real)

  /** One whole frame: age the history with the sample's point as the new
      head, then aim the head along the sample's direction. */
  function Advanced(data: seq<Anchor>, s: Sample): (r: seq<Anchor>)
    requires |data| > 0
    ensures |r| == |data|
    ensures Positions(r) == [(s.x, s.y)] + Positions(data)[..|data| - 1]
    ensures Widths(r) == Widths(data)
    ensures r[0].sin == s.sin && r[0].cos == s.cos
    ensures forall i | 1 <= i < |data| :: r[i].sin == data[i - 1].sin && r[i].cos == data[i - 1].cos
  {
    Aimed(Shifted(data, s.x, s.y), s.sin, s.cos)
  }

  /** The history after one frame per sample, in the order the samples were
      taken: no frame changes any slot's half-width, and after at least one
      frame the head holds the last sample's point and direction. */
  function AfterFrames(data: seq<Anchor>, samples: seq<Sample>): (r: seq<Anchor>)
    requires |data| > 0
    ensures |r| == |data| && Widths(r) == Widths(data)
    ensures samples != [] ==> var s := samples[|samples| - 1];
      Positions(r)[0] == (s.x, s.y) && r[0].sin == s.sin && r[0].cos == s.cos
    decreases |samples|
  {
    if samples == [] then data
    else Advanced(AfterFrames(data, samples[..|samples| - 1]), samples[|samples| - 1])
  }

  /** One frame moves position `i - 1` down to slot `i`, puts the new point
      in slot 0 and keeps every half-width. */
  lemma AdvancedPositionAt(data: seq<Anchor>, s: Sample, i: nat)
    requires i < |data|
    ensures Positions(Advanced(data, s))[i] == if i == 0 then (s.x, s.y) else Positions(data)[i - 1]
    ensures Widths(Advanced(data, s))[i] == Widths(data)[i]
  {
  }

  /** One frame moves the direction of slot `i - 1` down to slot `i` and
      gives slot 0 the direction of the sample. */
  lemma AdvancedDirectionAt(data: seq<Anchor>, s: Sample, i: nat)
    requires i < |data|
    ensures Directions(Advanced(data, s))[i] == if i == 0 then (s.sin, s.cos) else Directions(data)[i - 1]
  {
  }

  /** The `i`-th newest position after the frames that took `samples`. */
  function Expected(data: seq<Anchor>, samples: seq<Sample>, i: nat): (real, real)
    requires i < |data|
  {
    if i < |samples| then (samples[|samples| - 1 - i].x, samples[|samples| - 1 - i].y)
    else Positions(data)[i - |samples|]
  }

  /** The direction the `i`-th newest slot carries after the frames that
      took `samples`. */
  function ExpectedDirection(data: seq<Anchor>, samples: seq<Sample>, i: nat): (real, real)
    requires i < |data|
  {
    if i < |samples| then (samples[|samples| - 1 - i].sin, samples[|samples| - 1 - i].cos)
    else Directions(data)[i - |samples|]
  }
}
