/** The shape of the drawn ribbon over time: what the samples, their
    half-widths and directions make of the vertex strip. */
module TrailShape {
  import opened Anchors
  import opened AnchorHistory
  import opened Vertices

  /** With both widths clamped at zero, as the width properties do, every
      half-width of the taper is non-negative, the head's is half the head
      width and the tail's half the tail width. */
  lemma TaperNonNegative(data: seq<Anchor>, headWidth: real, tailWidth: real, i: nat)
    requires |data| >= 2 && i < |data| && headWidth >= 0.0 && tailWidth >= 0.0
    ensures WithWidths(data, headWidth, tailWidth)[i].dis >= 0.0
    ensures WithWidths(data, headWidth, tailWidth)[0].dis == headWidth / 2.0
    ensures WithWidths(data, headWidth, tailWidth)[|data| - 1].dis == tailWidth / 2.0
  {
    TaperBetweenEnds(headWidth, tailWidth, |data|, i);
    TaperEnds(headWidth, tailWidth, |data|);
  }

  /** The history a set-up leaves: every sample at the head point, with its
      tapered half-width and no direction yet. */
  lemma SetUpHistory(length: nat, headWidth: real, tailWidth: real, px: real, py: real, i: nat)
    requires length != 1 && i < length
    ensures ResetTo(WithWidths(Fresh(length), headWidth, tailWidth), px, py)[i] ==
      Anchor(px, py, HalfWidth(headWidth, tailWidth, length, i), 0.0, 0.0)
  {
  }

  /** The first frame after a set-up folds the second pair to a point: slot 1
      inherits the head's direction, which is still zero, so both of its
      vertices sit on the old head point whatever the half-width. */
  lemma {:induction false} FirstFrameFoldsSecondPair(length: nat, headWidth: real, tailWidth: real,
                                  px: real, py: real, s: Sample, tx: real, ty: real)
    requires length >= 3
    ensures var d := Advanced(ResetTo(WithWidths(Fresh(length), headWidth, tailWidth), px, py), s);
      RibbonPoint(d, tx, ty, 2) == (px - tx, py - ty) &&
      RibbonPoint(d, tx, ty, 3) == (px - tx, py - ty)
  {
    var start := ResetTo(WithWidths(Fresh(length), headWidth, tailWidth), px, py);
    SetUpHistory(length, headWidth, tailWidth, px, py, 0);
    UnaimedHeadFolds(start, s, tx, ty);
  }

  /** One frame after a head with no direction, the second pair sits on
      where that head was. */
  lemma UnaimedHeadFolds(start: seq<Anchor>, s: Sample, tx: real, ty: real)
    requires |start| >= 3 && start[0].sin == 0.0 && start[0].cos == 0.0
    ensures var d := Advanced(start, s);
      RibbonPoint(d, tx, ty, 2) == (start[0].x - tx, start[0].y - ty) &&
      RibbonPoint(d, tx, ty, 3) == (start[0].x - tx, start[0].y - ty)
  {
    var shifted := Shifted(start, s.x, s.y);
    var d := Aimed(shifted, s.sin, s.cos);
    var c := d[1];
    var cx := start[0].x - tx;
    var cy := start[0].y - ty;
    assert c == start[1].(x := start[0].x, y := start[0].y, sin := 0.0, cos := 0.0) by {
      assert d[1] == shifted[1];
    }
    assert RibbonPoint(d, tx, ty, 2) == Side(cx, cy, c.dis, 0.0, 0.0, 0) by {
      assert 2 / 2 == 1 && 2 % 2 == 0;
    }
    assert RibbonPoint(d, tx, ty, 3) == Side(cx, cy, c.dis, 0.0, 0.0, 1) by {
      assert 3 / 2 == 1 && 3 % 2 == 1;
    }
    Unaimed(cx, cy, c.dis);
  }

  /** Without a direction both side vertices coincide with the centre. */
  lemma Unaimed(cx: real, cy: real, dis: real)
    ensures Side(cx, cy, dis, 0.0, 0.0, 0) == (cx, cy) && Side(cx, cy, dis, 0.0, 0.0, 1) == (cx, cy)
  {
  }

  /** The drawn pairs follow the samples: after the frames that took
      `samples`, pair `p` is centred on the `p`-th newest sample (or, past
      the number of frames, on where slot `p - |samples|` was), seen from
      (`tx`, `ty`). */
  lemma PairsFollowSamples(data: seq<Anchor>, samples: seq<Sample>, tx: real, ty: real, p: nat)
    requires |data| >= 2 && p < |data|
    ensures var d := AfterFrames(data, samples);
            var l := RibbonPoint(d, tx, ty, 2 * p);
            var r := RibbonPoint(d, tx, ty, 2 * p + 1);
            var e := Expected(data, samples, p);
      (l.0 + r.0) / 2.0 == e.0 - tx && (l.1 + r.1) / 2.0 == e.1 - ty
  {
    var d := AfterFrames(data, samples);
    HistoryHoldsLatestSamples(data, samples, p);
    PairCentredOnSample(d, tx, ty, p);
  }

  /** A trail that has not moved since it was reset lies on the point: every
      pair is centred on it. */
  lemma {:induction false} StillTrailCentredOnPoint(data: seq<Anchor>, px: real, py: real, samples: seq<Sample>,
                                 tx: real, ty: real, p: nat)
    requires |data| >= 2 && p < |data|
    requires forall k | 0 <= k < |samples| :: samples[k].x == px && samples[k].y == py
    ensures var d := AfterFrames(ResetTo(data, px, py), samples);
            var l := RibbonPoint(d, tx, ty, 2 * p);
            var r := RibbonPoint(d, tx, ty, 2 * p + 1);
      (l.0 + r.0) / 2.0 == px - tx && (l.1 + r.1) / 2.0 == py - ty
  {
    PairsFollowSamples(ResetTo(data, px, py), samples, tx, ty, p);
    if p < |samples| {
      assert samples[|samples| - 1 - p].x == px;
    }
  }

  /** `dir` (as sin, cos) is the direction `atan2` gives for the segment
      from `from` to `to`. */
  predicate HeadingBetween(from: (real, real), to: (real, real), dir: (real, real)) {
    IsHeading(to.0 - from.0, to.1 - from.1, dir.0, dir.1)
  }

  /** The head point before the frame of `samples[k]`. */
  function PreviousHead(data: seq<Anchor>, samples: seq<Sample>, k: nat): (real, real)
    requires |data| > 0 && k < |samples|
  {
    if k == 0 then Positions(data)[0] else (samples[k - 1].x, samples[k - 1].y)
  }

  /** Every frame aimed its new head back at the head before it, as the
      frame step demands of the direction it is given. */
  predicate FramesAimedBack(data: seq<Anchor>, samples: seq<Sample>)
    requires |data| > 0
  {
    forall k | 0 <= k < |samples| ::
      HeadingBetween((samples[k].x, samples[k].y), PreviousHead(data, samples, k), (samples[k].sin, samples[k].cos))
  }

  /** Slot `i` of the newest slots holds the point and the direction of
      its frame's sample, and slot `i + 1` the head before that frame. */
  lemma {:induction false} SlotsOfFrame(data: seq<Anchor>, samples: seq<Sample>, i: nat)
    requires i < |samples| && i + 1 < |data|
    ensures var r := AfterFrames(data, samples);
            var k := |samples| - 1 - i;
      Positions(r)[i] == (samples[k].x, samples[k].y) &&
      Directions(r)[i] == (samples[k].sin, samples[k].cos) &&
      Positions(r)[i + 1] == PreviousHead(data, samples, k)
  {
    HistoryHoldsLatestSamples(data, samples, i);
    HistoryHoldsLatestSamples(data, samples, i + 1);
    HistoryCarriesDirections(data, samples, i);
  }

  /** The carried directions are the directions of the segments: when
      every frame was aimed back at the previous head, each of the newest
      slots carries the direction of the segment from its sample to the next
      older one, even after that direction has been passed down. */
  lemma {:induction false} SegmentDirections(data: seq<Anchor>, samples: seq<Sample>, i: nat)
    requires |data| > 0 && FramesAimedBack(data, samples) && i < |samples| && i + 1 < |data|
    ensures var r := AfterFrames(data, samples);
      HeadingBetween(Positions(r)[i], Positions(r)[i + 1], Directions(r)[i])
  {
    var k := |samples| - 1 - i;
    SlotsOfFrame(data, samples, i);
    assert HeadingBetween((samples[k].x, samples[k].y), PreviousHead(data, samples, k), (samples[k].sin, samples[k].cos));
  }

  /** The dot product of two vectors: zero exactly when they are perpendicular. */
  function Dot(u: (real, real), v: (real, real)): real {
    u.0 * v.0 + u.1 * v.1
  }

  /** The two side vertices around a centre lie across any segment
      parallel to their heading. */
  lemma SidesCrossSegment(cx: real, cy: real, dis: real, sin: real, cos: real, dx: real, dy: real)
    requires sin * dx == cos * dy
    ensures var l := Side(cx, cy, dis, sin, cos, 0);
            var r := Side(cx, cy, dis, sin, cos, 1);
      Dot((l.0 - r.0, l.1 - r.1), (dx, dy)) == 0.0
  {
    var l := Side(cx, cy, dis, sin, cos, 0);
    var r := Side(cx, cy, dis, sin, cos, 1);
    assert l.0 - r.0 == 2.0 * dis * sin && l.1 - r.1 == -2.0 * dis * cos;
    calc {
      (l.0 - r.0) * dx + (l.1 - r.1) * dy;
      2.0 * dis * (sin * dx - cos * dy);
      0.0;
    }
  }

  /** Pair `p` of the ribbon of `d` lies across the segment from sample
      `p` to sample `p + 1`: the vector between its two vertices is
      perpendicular to that segment. */
  predicate CrossesSegment(d: seq<Anchor>, tx: real, ty: real, p: nat)
    requires p + 1 < |d|
  {
    var l := RibbonPoint(d, tx, ty, 2 * p);
    var r := RibbonPoint(d, tx, ty, 2 * p + 1);
    var a := Positions(d)[p];
    var b := Positions(d)[p + 1];
    Dot((l.0 - r.0, l.1 - r.1), (b.0 - a.0, b.1 - a.1)) == 0.0
  }

  /** A pair whose sample carries the direction of the segment to the next
      sample lies across that segment. */
  lemma PairCrossesSegment(d: seq<Anchor>, tx: real, ty: real, p: nat)
    requires p + 1 < |d| && HeadingBetween(Positions(d)[p], Positions(d)[p + 1], Directions(d)[p])
    ensures CrossesSegment(d, tx, ty, p)
  {
    var a := Positions(d)[p];
    var b := Positions(d)[p + 1];
    var c := d[p];
    assert IsHeading(b.0 - a.0, b.1 - a.1, c.sin, c.cos);
    assert (2 * p) / 2 == p && (2 * p + 1) / 2 == p && (2 * p) % 2 == 0 && (2 * p + 1) % 2 == 1;
    SidesCrossSegment(c.x - tx, c.y - ty, c.dis, c.sin, c.cos, b.0 - a.0, b.1 - a.1);
  }

  /** Every pair of the newest slots but the last lies across its own
      segment, when every frame was aimed back at the previous head. */
  lemma {:induction false} PairsCrossTheirSegments(data: seq<Anchor>, samples: seq<Sample>, tx: real, ty: real, p: nat)
    requires |data| >= 2 && FramesAimedBack(data, samples) && p < |samples| && p + 1 < |data|
    ensures CrossesSegment(AfterFrames(data, samples), tx, ty, p)
  {
    var d := AfterFrames(data, samples);
    SegmentDirections(data, samples, p);
    assert HeadingBetween(Positions(d)[p], Positions(d)[p + 1], Directions(d)[p]);
    PairCrossesSegment(d, tx, ty, p);
  }

  /** A reset moves the samples but not their directions. On the first
      frame at the same point, the head is aimed along `atan2(0, 0)` (sine 0,
      cosine 1), so the head pair straddles the point by the head's
      half-width instead of sitting on it, and every older slot carries the
      direction of the slot above it from before the reset. */
  lemma ResetFrameStraddlesPoint(data: seq<Anchor>, px: real, py: real, tx: real, ty: real)
    requires |data| >= 2 && data[0].dis > 0.0
    ensures IsHeading(0.0, 0.0, 0.0, 1.0)
    ensures var d := Advanced(ResetTo(data, px, py), Sample(px, py, 0.0, 1.0));
      RibbonPoint(d, tx, ty, 0) == (px - tx, py - ty - data[0].dis) &&
      RibbonPoint(d, tx, ty, 1) == (px - tx, py - ty + data[0].dis) &&
      RibbonPoint(d, tx, ty, 0) != RibbonPoint(d, tx, ty, 1) &&
      forall j | 1 <= j < |data| :: Directions(d)[j] == Directions(data)[j - 1]
  {
    var d := Advanced(ResetTo(data, px, py), Sample(px, py, 0.0, 1.0));
    assert Widths(d)[0] == Widths(data)[0];
    assert Positions(d)[0] == (px, py);
  }
}
