/** How the anchor history evolves over frames: a window onto the latest
    samples, with per-slot half-widths that frames never move. */
module AnchorHistory {
  import opened Anchors

  /** The frames before the last one. */
  function Earlier(samples: seq<Sample>): seq<Sample>
    requires samples != []
  {
    samples[..|samples| - 1]
  }

  /** The last frame moves slot `i - 1` to slot `i` and puts its sample in slot 0. */
  lemma LastFrame(data: seq<Anchor>, samples: seq<Sample>, i: nat)
    requires samples != [] && i < |data|
    ensures Positions(AfterFrames(data, samples))[i] ==
      if i == 0 then (samples[|samples| - 1].x, samples[|samples| - 1].y) else Positions(AfterFrames(data, Earlier(samples)))[i - 1]
  {
    var last := samples[|samples| - 1];
    assert AfterFrames(data, samples) == Advanced(AfterFrames(data, Earlier(samples)), last);
    AdvancedPositionAt(AfterFrames(data, Earlier(samples)), last, i);
  }

  /** What slot `i - 1` should hold before the last frame is what slot `i` should hold after it. */
  lemma ExpectedMovesDown(data: seq<Anchor>, samples: seq<Sample>, i: nat)
    requires samples != [] && 0 < i < |data|
    ensures Expected(data, Earlier(samples), i - 1) == Expected(data, samples, i)
  {
  }

  /** If slot `i - 1` held what it should before the last frame, slot `i`
      holds what it should after it. */
  lemma StepDown(data: seq<Anchor>, samples: seq<Sample>, i: nat)
    requires samples != [] && 0 < i < |data|
    requires Positions(AfterFrames(data, Earlier(samples)))[i - 1] == Expected(data, Earlier(samples), i - 1)
    ensures Positions(AfterFrames(data, samples))[i] == Expected(data, samples, i)
  {
    LastFrame(data, samples, i);
    ExpectedMovesDown(data, samples, i);
  }

  /** The history is a window onto the latest samples: after the frames that
      took `samples`, slot `i` holds the `i`-th newest sample, or, past the
      number of frames, what slot `i - |samples|` held before. */
  lemma {:induction false} HistoryHoldsLatestSamples(data: seq<Anchor>, samples: seq<Sample>, i: nat)
    requires i < |data|
    ensures Positions(AfterFrames(data, samples))[i] == Expected(data, samples, i)
    decreases |samples|
  {
    if samples != [] && i > 0 {
      HistoryHoldsLatestSamples(data, Earlier(samples), i - 1);
      StepDown(data, samples, i);
    }
  }

  /** Resetting the history to a point and then taking frames at that same
      point leaves every sample there: the trail stays collapsed on the point. */
  lemma ResetThenStill(data: seq<Anchor>, px: real, py: real, samples: seq<Sample>, i: nat)
    requires |data| > 0 && i < |data|
    requires forall k | 0 <= k < |samples| :: samples[k].x == px && samples[k].y == py
    ensures Positions(AfterFrames(ResetTo(data, px, py), samples))[i] == (px, py)
  {
    HistoryHoldsLatestSamples(ResetTo(data, px, py), samples, i);
  }

  /** The last frame moves the direction of slot `i - 1` to slot `i` and
      gives slot 0 the direction of its sample. */
  lemma LastFrameDirection(data: seq<Anchor>, samples: seq<Sample>, i: nat)
    requires samples != [] && i < |data|
    ensures Directions(AfterFrames(data, samples))[i] ==
      if i == 0 then (samples[|samples| - 1].sin, samples[|samples| - 1].cos)
      else Directions(AfterFrames(data, Earlier(samples)))[i - 1]
  {
    var last := samples[|samples| - 1];
    assert AfterFrames(data, samples) == Advanced(AfterFrames(data, Earlier(samples)), last);
    AdvancedDirectionAt(AfterFrames(data, Earlier(samples)), last, i);
  }

  /** If slot `i - 1` carried the right direction before the last frame,
      slot `i` carries it after. */
  lemma DirectionStepDown(data: seq<Anchor>, samples: seq<Sample>, i: nat)
    requires samples != [] && 0 < i < |data|
    requires Directions(AfterFrames(data, Earlier(samples)))[i - 1] == ExpectedDirection(data, Earlier(samples), i - 1)
    ensures Directions(AfterFrames(data, samples))[i] == ExpectedDirection(data, samples, i)
  {
    LastFrameDirection(data, samples, i);
    assert ExpectedDirection(data, Earlier(samples), i - 1) == ExpectedDirection(data, samples, i);
  }

  /** Directions are computed once, for the head, and then carried down
      unchanged: after the frames that took `samples`, slot `i` carries the
      direction of the `i`-th newest sample, or, past the number of frames,
      the direction slot `i - |samples|` carried before. */
  lemma {:induction false} HistoryCarriesDirections(data: seq<Anchor>, samples: seq<Sample>, i: nat)
    requires i < |data|
    ensures Directions(AfterFrames(data, samples))[i] == ExpectedDirection(data, samples, i)
    decreases |samples|
  {
    if samples != [] && i > 0 {
      HistoryCarriesDirections(data, Earlier(samples), i - 1);
      DirectionStepDown(data, samples, i);
    }
  }
}
