# MotionTrail geometry model

A Dafny model of the trail-geometry engine of the `MotionTrail` render
component in `assets/Script/MotionTrail.ts`.

The component draws a ribbon behind a moving node. The ribbon is a triangle
strip of `2 * length` vertices around a history of `length` samples, newest
first. Each frame the history ages by one slot and a new head sample is
taken at the node. Every sample carries a half-width that tapers from head to
tail, and the direction its two side vertices are placed along. The vertex
buffer holds, per vertex, a position, texture coordinates fitted into a
sprite frame of an atlas, and a packed colour whose alpha tapers from head
to tail.

The modules follow the program's structure:

- `Numbers` (`numbers.dfy`): the integer conversions the JavaScript relies
  on: `Math.max`, `~~` as truncation toward zero, and a few real-arithmetic
  facts.
- `RibbonBuffer` (`ribbon_buffer.dfy`): the vertex layout constants (step 5;
  offsets 0, 2 and 4), the vertex and index counts, the capacity policy with
  its hysteresis, the storage the code allocates, and the strip-to-list
  index expansion.
- `Anchors` and `AnchorHistory` (`anchors.dfy`, `anchor_history.dfy`): the
  sample history, its width taper, reset, one frame of aging with the new
  head's direction, and what the history holds after any number of frames.
- `Vertices` (`vertices.dfy`): what each pass writes into the vertex buffer.
  - The position pass places two side vertices around each sample.
  - The uv pass lays out coordinates and fits them into the sprite frame.
  - The colour pass writes a packed colour.
- `MotionTrailComponent` (`motion_trail.dfy`): the component as a class.
  - It has the source's fields.
  - Its vertex storage is an `array<Vertex>` of 5-slot records, and its
    index storage an `array<int>` of unsigned 16-bit values.
  - Its methods contain the source's loops. Each method is proved to leave
    exactly the state that the specification functions above describe.
- `TrailShape` (`trail_shape.dfy`): what the passes together make of the
  drawn ribbon over time. `FramesAimedBack` states, for a whole sequence of
  frames, the condition that `OnFlushed` demands of each frame's direction:
  the new head is aimed back at the previous head.

Inputs the component reads from the engine are parameters: the node's world
translation, local position, opacity and colour (`Node`), and the direction
`atan2` would compute for the head segment (`sin`, `cos`, constrained by
`IsHeading`). Arithmetic on positions, widths and uvs is over ideal reals.

Four behaviours of the code are worth knowing, and the model states them as
the code has them:
- On the first frame after set-up, the second pair of vertices sits on a
  single point instead of straddling its sample. Slot 1 inherits the head's
  direction, and no frame has computed that direction yet
  (`TrailShape.FirstFrameFoldsSecondPair`).
- Storage is allocated for the vertex count, not for the capacity. See
  "## Findings".
- The frame step recolours the vertices when the node's opacity differs
  from the one last used (`RefreshOpacity`). The code has two more
  triggers for the colour pass, both left out: `update()` runs it every
  frame on native builds, and the node's colour-change listener runs it
  whenever the node's colour changes.
- A reset moves every sample to the point but keeps its direction. On the
  next frame at that same point the head is aimed along `atan2(0, 0)`
  (sine 0, cosine 1), so the head pair straddles the point by the head's
  half-width. Every older slot goes on carrying a pre-reset direction, so
  after `SetActive(true)` that follows earlier motion, pairs straddle the
  point along stale directions for up to `length` frames. The pairs stay
  centred on the point (`TrailShape.StillTrailCentredOnPoint`) but do not
  coincide with it (`TrailShape.ResetFrameStraddlesPoint`).

## Model

| member | source | states |
|---|---|---|
| RibbonBuffer.VerticesFor | assets/Script/MotionTrail.ts:161 | a non-negative request is kept as it is, and a negative one keeps no vertices |
| RibbonBuffer.IndicesFor | assets/Script/MotionTrail.ts:158-162 | the index count is a whole number of triangles (a multiple of 3) |
| RibbonBuffer.EffectiveRatio | assets/Script/MotionTrail.ts:159 | the ratio in force is at least 1.5 and at least the one passed |
| RibbonBuffer.Resize | assets/Script/MotionTrail.ts:163-170 | the new capacity always covers the vertex count, including after the truncating `~~`; within the band `capacity / ratio <= count <= capacity`, nothing is reallocated and the capacity is kept |
| RibbonBuffer.GrowthSettles | assets/Script/MotionTrail.ts:163-166 | a grow reallocates, and asking again for the same count afterwards changes nothing |
| RibbonBuffer.ShrinkLowers | assets/Script/MotionTrail.ts:167-170 | a shrink reallocates to a capacity strictly below the old one and never below the count |
| RibbonBuffer.FirstResizeIsExact | assets/Script/MotionTrail.ts:163-166 | from no capacity, the first resize gives exactly the requested vertex count |
| RibbonBuffer.StorageAfter | assets/Script/MotionTrail.ts:162-175 | storage that fitted in the old capacity never exceeds the new capacity |
| RibbonBuffer.RegrowLeavesShortStorage | assets/Script/MotionTrail.ts:163-175 | 40 vertices, then 10, then 16 leaves storage for only 10 of the 16 vertices |
| RibbonBuffer.CapacityStorage | assets/Script/MotionTrail.ts:163-175 | storage sized to the capacity always covers the vertex count |
| RibbonBuffer.RecordsAreFlatSlots | assets/Script/MotionTrail.ts:108-112 | with step 5 and the field offsets 0, 1, 2, 3 and 4, two fields share a flat slot only when they are the same field of the same vertex, and a vertex's fields lie within `n * step` slots exactly when its index is below `n` |
| RibbonBuffer.IndexAt | assets/Script/MotionTrail.ts:303-306 | the index written at position `i` names a vertex of triangle `i / 3`: one of `i / 3`, `i / 3 + 1` and `i / 3 + 2` |
| RibbonBuffer.StripIndicesAt | assets/Script/MotionTrail.ts:301-308 | the closed form the index loop writes at position `i` (`i / 3 + i % 3`) equals the triangle-by-triangle expansion `(k, k + 1, k + 2)` of the strip |
| RibbonBuffer.StripUsesExactlyItsVertices | assets/Script/MotionTrail.ts:301-308 | every written index names an existing vertex, and every vertex is used by some triangle |
| RibbonBuffer.WithStripIndices | assets/Script/MotionTrail.ts:301-308 | the index storage after the index pass keeps its length |
| Numbers.Trunc | assets/Script/MotionTrail.ts:165-168 | `~~` truncates toward zero: a non-negative value goes to the greatest integer not above it, a negative one to the least integer not below it |
| Anchors.Fresh | assets/Script/MotionTrail.ts:310-315 | a rebuilt history has `length` samples, every field zero |
| Anchors.HalfWidth | assets/Script/MotionTrail.ts:322-325 | the head sample's half-width is half the head width, and equal head and tail widths give every sample the same half-width |
| Anchors.WithWidths | assets/Script/MotionTrail.ts:319-327 | applying the taper keeps every position and direction, and gives the head half the head width |
| Anchors.TaperEnds | assets/Script/MotionTrail.ts:319-327 | the head's half-width is `headWidth / 2` and the tail's `tailWidth / 2` |
| Anchors.TaperEvenSteps | assets/Script/MotionTrail.ts:322-325 | consecutive half-widths differ by the same step `(tailWidth - headWidth) / (2 (length - 1))` |
| Anchors.TaperBetweenEnds | assets/Script/MotionTrail.ts:319-327 | every half-width lies between the two end half-widths |
| Anchors.Shifted | assets/Script/MotionTrail.ts:194-210 | aging yields the positions new head point, then the old positions without the oldest; every half-width is kept; the head keeps its direction until it is aimed, and every other slot takes the direction of the slot above it |
| Anchors.Aimed | assets/Script/MotionTrail.ts:254-258 | aiming sets the head's direction and keeps all positions, half-widths and the other samples |
| Anchors.ResetTo | assets/Script/MotionTrail.ts:342-345 | a reset puts every sample at the point and keeps every half-width and direction |
| Anchors.Advanced | assets/Script/MotionTrail.ts:194-211 | a frame puts the new head point in front of the old positions and drops the oldest, keeps every half-width, gives the head the frame's direction and passes every other direction down one slot |
| Anchors.AfterFrames | assets/Script/MotionTrail.ts:186-212 | no sequence of frames changes any slot's half-width; after at least one frame the head holds the last frame's point and direction |
| Anchors.AdvancedPositionAt | assets/Script/MotionTrail.ts:194-210 | one frame moves position `i - 1` to slot `i`, puts the new head point in slot 0 and keeps every half-width |
| Anchors.AdvancedDirectionAt | assets/Script/MotionTrail.ts:194-201 | one frame moves the direction of slot `i - 1` to slot `i` and gives slot 0 the frame's direction |
| AnchorHistory.LastFrame | assets/Script/MotionTrail.ts:194-210 | the last frame of a sequence shifts the previous positions down one slot under the new head |
| AnchorHistory.StepDown | assets/Script/MotionTrail.ts:194-201 | if slot `i - 1` held the right sample before a frame, slot `i` holds it after |
| AnchorHistory.HistoryHoldsLatestSamples | assets/Script/MotionTrail.ts:186-212 | after any sequence of frames, slot `i` holds the `i`-th newest head point, or what slot `i - frames` held before |
| AnchorHistory.LastFrameDirection | assets/Script/MotionTrail.ts:194-201 | the last frame of a sequence shifts the previous directions down one slot under the new head's |
| AnchorHistory.DirectionStepDown | assets/Script/MotionTrail.ts:194-201 | if slot `i - 1` carried the right direction before a frame, slot `i` carries it after |
| AnchorHistory.HistoryCarriesDirections | assets/Script/MotionTrail.ts:194-211 | directions are computed once for the head and carried down unchanged: after any frames, slot `i` carries the `i`-th newest frame's direction, or what slot `i - frames` carried before |
| AnchorHistory.ResetThenStill | assets/Script/MotionTrail.ts:329-346 | after a reset to a point and frames taken at that same point, every sample is at that point |
| Vertices.IsHeading | assets/Script/MotionTrail.ts:255-257 | the direction taken from `atan2` is a unit vector parallel to the head segment |
| Vertices.Side | assets/Script/MotionTrail.ts:259-270 | a side vertex is offset from its centre perpendicular to the heading, by `dis` times the heading's length |
| Vertices.RibbonPoint | assets/Script/MotionTrail.ts:247-270 | the vertices of a zero-width sample sit on it, and the vertices of every sample but the last are offset perpendicular to that sample's own direction |
| Vertices.SidesStraddleCentre | assets/Script/MotionTrail.ts:259-264 | the two side vertices are symmetric about the centre; the segment between them is perpendicular to the heading; for a unit heading they are `2 * dis` apart |
| Vertices.PairCentredOnSample | assets/Script/MotionTrail.ts:245-270 | every pair of the strip is centred on its sample, seen from the origin point; all but the last pair are perpendicular to their sample's direction |
| Vertices.PlaceXY | assets/Script/MotionTrail.ts:235-271 | the position pass changes only positions: every uv and colour is kept, and so is every vertex past the strip |
| Vertices.ResetXY | assets/Script/MotionTrail.ts:347-351 | the reset pass puts every vertex within the count at the point and changes nothing else: uvs and colours are kept, and vertices past the count are untouched |
| Vertices.UvStep | assets/Script/MotionTrail.ts:277 | `rows - 1` steps of v add up to exactly 1 |
| Vertices.UvAt | assets/Script/MotionTrail.ts:279-280 | u is 0 or 1, and 0 exactly on even vertices; the head row has v = 1 |
| Vertices.LayUV | assets/Script/MotionTrail.ts:278-281 | the uv layout changes only the uvs of the vertices within the count; positions and colours are kept |
| Vertices.UvSpansTexture | assets/Script/MotionTrail.ts:273-281 | u is 0 on even and 1 on odd vertices; v is 1 on the head row, 0 on the tail row, and within [0, 1] in between |
| Vertices.Place | assets/Script/MotionTrail.ts:364-370 | scaled back by the atlas size, the fitted coordinate is the pixel at fraction `a` of the region: `a * extent + offset` |
| Vertices.FitOne | assets/Script/MotionTrail.ts:361-371 | in atlas pixels, a fitted coordinate is the frame's corner plus the uv's fraction of the region; a rotated frame swaps the axes and flips v |
| Vertices.FitUVs | assets/Script/MotionTrail.ts:361-372 | fitting changes only the uvs of the vertices within the count; positions and colours are kept |
| Vertices.WholeAtlasFitIsIdentity | assets/Script/MotionTrail.ts:366-371 | an unrotated frame covering the whole atlas leaves uvs unchanged |
| Vertices.FitStaysInRegion | assets/Script/MotionTrail.ts:354-373 | uvs in the unit square are mapped inside the frame's region of the atlas, with the axes swapped for a rotated frame |
| Vertices.UvPassInRegion | assets/Script/MotionTrail.ts:273-283 | after the uv pass with a frame, every vertex of the trail has coordinates inside the frame's region |
| Vertices.UvPass | assets/Script/MotionTrail.ts:273-283 | the uv pass keeps the storage length |
| Vertices.OpacityAt | assets/Script/MotionTrail.ts:289-293 | the head pair's alpha is the head opacity scaled by node opacity / 255, and equal head and tail opacities give every pair that alpha |
| Vertices.OpacityEnds | assets/Script/MotionTrail.ts:289-294 | the head pair's alpha is the head opacity and the tail pair's the tail opacity, each scaled by node opacity / 255 |
| Vertices.OpacityInRange | assets/Script/MotionTrail.ts:289-294 | with opacities in [0, 255], every pair's alpha is in [0, 255] |
| Vertices.RgbWord | assets/Script/MotionTrail.ts:291 | the colour channels fit in the low 24 bits |
| Vertices.PackColor | assets/Script/MotionTrail.ts:294 | the packed word is an unsigned 32-bit value |
| Vertices.PackedColorFields | assets/Script/MotionTrail.ts:291-294 | the packed word's low three bytes are red, green and blue, and its top byte is the opacity byte |
| Vertices.OpacityByte | assets/Script/MotionTrail.ts:293 | for an alpha in [0, 256), the byte kept by the `<< 24` is the alpha's integer part: no wrap-around |
| Vertices.ColourCarriesOpacity | assets/Script/MotionTrail.ts:285-299 | with opacities in [0, 255], the top byte of each pair's colour is the integer part of its tapered, scaled alpha |
| Vertices.Colorize | assets/Script/MotionTrail.ts:285-299 | the colour pass changes only colours: positions and uvs are kept, vertices past the strip are untouched, and both vertices of a pair get the same word |
| TrailShape.TaperNonNegative | assets/Script/MotionTrail.ts:74-85 | with the widths clamped at 0 as the setters do, every half-width is non-negative and the ends are half the widths |
| TrailShape.SetUpHistory | assets/Script/MotionTrail.ts:128-134 | after set-up every sample sits at the head point with its tapered half-width and no direction |
| TrailShape.UnaimedHeadFolds | assets/Script/MotionTrail.ts:194-201 | one frame after a head with no direction, both vertices of the second pair sit at the old head point |
| TrailShape.FirstFrameFoldsSecondPair | assets/Script/MotionTrail.ts:186-212 | on the first frame after set-up, the second pair of vertices sits on a single point |
| TrailShape.PairsFollowSamples | assets/Script/MotionTrail.ts:186-271 | after any sequence of frames, pair `p` of the strip is centred on the `p`-th newest head point |
| TrailShape.StillTrailCentredOnPoint | assets/Script/MotionTrail.ts:329-352 | a trail that has not moved since its reset has every pair centred on the reset point |
| TrailShape.SlotsOfFrame | assets/Script/MotionTrail.ts:194-211 | among the newest slots, slot `i` holds its frame's point and direction, and slot `i + 1` the head before that frame |
| TrailShape.SegmentDirections | assets/Script/MotionTrail.ts:247-258 | when every frame was aimed back at the previous head, each of the newest slots carries the `atan2` direction of the segment to the next older sample |
| TrailShape.SidesCrossSegment | assets/Script/MotionTrail.ts:259-264 | the two side vertices lie across any segment parallel to their heading |
| TrailShape.PairCrossesSegment | assets/Script/MotionTrail.ts:247-264 | a pair whose sample carries its segment's direction is perpendicular to that segment |
| TrailShape.PairsCrossTheirSegments | assets/Script/MotionTrail.ts:186-271 | when every frame was aimed back at the previous head, every pair of the newest slots but the last is perpendicular to its own segment |
| TrailShape.ResetFrameStraddlesPoint | assets/Script/MotionTrail.ts:342-345 | on the first frame at the reset point, the head pair sits at the point plus and minus the head's half-width, not on it, and the older slots carry the pre-reset directions shifted down |
| MotionTrailComponent.DefaultBuffers | assets/Script/MotionTrail.ts:158-170 | with the default length of 20, the strip has 40 vertices and 114 indices, and the first resize allocates exactly 40 vertices |
| MotionTrailComponent.MotionTrail.HeadPoint | assets/Script/MotionTrail.ts:202-210 | measured from the point the trail is drawn relative to, the head sits at the offset in local mode, and at the node's world position plus the offset in world mode |
| MotionTrailComponent.MotionTrail.Origin | assets/Script/MotionTrail.ts:242-245 | the point the positions are drawn relative to is the world origin in world mode |
| MotionTrailComponent.MotionTrail.constructor | assets/Script/MotionTrail.ts:39-115 | the component starts with the given properties, node opacity 255, no capacity, no mesh and an empty history |
| MotionTrailComponent.MotionTrail.Init | assets/Script/MotionTrail.ts:128-134 | set-up builds a history of `length` tapered samples at the head point, storage for exactly `2 * length` vertices at the head point, and the strip indices; the class invariant holds |
| MotionTrailComponent.MotionTrail.CreateBuffer | assets/Script/MotionTrail.ts:158-177 | sets the counts, applies the capacity policy, allocates zeroed storage for the counts exactly when the policy reallocates or no mesh exists, and rewrites the indices |
| MotionTrailComponent.MotionTrail.UpdateIndices | assets/Script/MotionTrail.ts:301-308 | the first `indicesCount` index entries that exist hold the strip indices modulo 2^16; the rest are kept |
| MotionTrailComponent.MotionTrail.StoreIndex | assets/Script/MotionTrail.ts:303-305 | one index write keeps the value modulo 2^16, and a write past the end is dropped |
| MotionTrailComponent.MotionTrail.UpdateLength | assets/Script/MotionTrail.ts:310-317 | the history becomes `length` fresh samples, and the buffers are resized for `2 * length` vertices |
| MotionTrailComponent.MotionTrail.UpdateWidth | assets/Script/MotionTrail.ts:319-327 | every sample gets its tapered half-width; nothing else changes |
| MotionTrailComponent.MotionTrail.ResetPos | assets/Script/MotionTrail.ts:329-352 | every sample, and every vertex position within the vertex count, moves to the head point; everything else is kept |
| MotionTrailComponent.MotionTrail.UpdateXY | assets/Script/MotionTrail.ts:235-271 | the head takes the given direction, and every vertex of the strip gets its ribbon position relative to the origin point |
| MotionTrailComponent.MotionTrail.PlacePair | assets/Script/MotionTrail.ts:259-270 | the two vertices of one pair get their side positions; writes past the end are dropped |
| MotionTrailComponent.MotionTrail.UpdateUV | assets/Script/MotionTrail.ts:273-283 | without a frame nothing changes; otherwise the layout uvs of the vertices within the count are fitted into the frame |
| MotionTrailComponent.MotionTrail.FitUV | assets/Script/MotionTrail.ts:354-373 | each vertex within the count has its uv mapped into the frame's atlas region |
| MotionTrailComponent.MotionTrail.UpdateColor | assets/Script/MotionTrail.ts:285-299 | both vertices of every pair get the pair's packed colour; only colours change |
| MotionTrailComponent.MotionTrail.PaintPair | assets/Script/MotionTrail.ts:293-296 | one pair's two vertices get the same colour; writes past the end are dropped |
| MotionTrailComponent.MotionTrail.OnFlushed | assets/Script/MotionTrail.ts:186-212 | an inactive trail, one without a frame, or one of length 0 is left unchanged; otherwise the frame recolours if needed, ages the history under the new head and recomputes positions |
| MotionTrailComponent.MotionTrail.Advance | assets/Script/MotionTrail.ts:190-211 | a frame that is not skipped leaves the aged, aimed history and the positions computed for it |
| MotionTrailComponent.MotionTrail.RefreshOpacity | assets/Script/MotionTrail.ts:190-193 | the colours are recomputed exactly when the node's opacity changed, and the new opacity is remembered |
| MotionTrailComponent.MotionTrail.Age | assets/Script/MotionTrail.ts:194-210 | each slot but the head takes the previous slot's position and direction, keeping its half-width; the head moves to the new point |
| MotionTrailComponent.MotionTrail.SetLength | assets/Script/MotionTrail.ts:62-69 | the length is clamped at 0. The history is rebuilt, tapered and reset to the head point. Storage is resized by the capacity policy. The vertices get their uvs, colours and reset positions in that order. |
| MotionTrailComponent.MotionTrail.SetHeadWidth | assets/Script/MotionTrail.ts:74-77 | the head width is clamped at 0 and the taper re-applied |
| MotionTrailComponent.MotionTrail.SetTailWidth | assets/Script/MotionTrail.ts:82-85 | the tail width is clamped at 0 and the taper re-applied |
| MotionTrailComponent.MotionTrail.SetHeadOpacity | assets/Script/MotionTrail.ts:90-93 | the head opacity is stored as given and the colours recomputed |
| MotionTrailComponent.MotionTrail.SetTailOpacity | assets/Script/MotionTrail.ts:98-101 | the tail opacity is stored as given and the colours recomputed |
| MotionTrailComponent.MotionTrail.SetActive | assets/Script/MotionTrail.ts:43-47 | activating resets the trail to the node; deactivating leaves the history and the vertices unchanged |
| MotionTrailComponent.MotionTrail.SetIsWorldXY | assets/Script/MotionTrail.ts:52-55 | switching the mode recomputes positions in the new mode, without moving any sample |
| MotionTrailComponent.MotionTrail.SetSpriteFrame | assets/Script/MotionTrail.ts:35-38 | the frame is stored and the uv pass runs for it |
| MotionTrailComponent.MotionTrail.Start | assets/Script/MotionTrail.ts:136-139 | the uv pass runs, then the colour pass |

## Left out

- Engine and renderer plumbing is not modelled: creating the assembler and render data, copying into the shared mesh buffer (`fillBuffers`), `setVertsDirty` and `update()`. Allocation is modelled as fresh zeroed arrays of the given length.
- `$setVFmt` is not modelled: the vertex-format reflection is replaced by the constants step 5 and offsets 0, 2 and 4. The vertex storage is modelled as records, not as flat float slots.
- Material, texture and editor atlas loading in `$updateSpriteFrame` are not modelled; only its call of the uv pass is (`SetSpriteFrame`, `Start`).
- Event wiring is not modelled: the colour-change listener, the deferred colour pass in `start`, `onDestroy`, and the `enabled` flag set by the `active` setter. `Start` runs both passes at once.
- Reading the world matrix and the node's position, opacity and colour is replaced by the `Node` parameter.
- `atan2`, `sin` and `cos` are not computed: the caller supplies the head direction, constrained by `IsHeading`.
- Vertices.SpriteFrame.Valid: requires a texture of positive width and height, and a region of non-negative width and height. `$fitUV` divides by the texture size without a guard, so a texture that has not loaded yet (size 0) gives non-finite uvs, which the model does not capture. A region of negative width or height is outside the model too: the lemmas that place fitted uvs inside the region rely on non-negative sizes.
- Float32 rounding of the stored positions and uvs is not modelled; the model uses ideal reals.
- MotionTrailComponent.MotionTrail.Valid: a length of 1 is excluded. The code then divides by zero in the taper and the uv step, and dereferences a missing sample in the position pass.
- MotionTrailComponent.MotionTrail.UpdateXY: requires at least two samples. With fewer, the code dereferences a missing sample, which is an exception the model does not capture.
- MotionTrailComponent.MotionTrail.SetIsWorldXY: requires at least two samples, for the same reason; the source throws for length 0.
- MotionTrailComponent.MotionTrail.OnFlushed: requires the history to be in the state every other operation leaves it in (`Valid`). The model does not cover a frame that runs before set-up.
- The 32-bit wrap-around of `trailLen << 1` and of `~~` on capacities of 2^31 or more is not modelled. Counts and capacities are unbounded integers.
- Only the alpha of the packed colour goes through the 32-bit conversion. The shifted colour channels are bytes and cannot overflow.

## Findings

| source | as written | input that shows it | evidently intended | confidence | as-written member | corrected member |
|---|---|---|---|---|---|---|
| assets/Script/MotionTrail.ts:171-175 | a reallocation makes storage for `verticesCount` vertices, not for the new `capacity` | length 20 (40 vertices, capacity 40), then length 5 (10 vertices: capacity 20, storage 10), then length 8 (16 vertices: within the capacity, so no reallocation and storage for only 10 of them; the writes for vertices 10-15 are dropped) | storage sized to the capacity, so that any count the policy keeps without reallocating fits | high, not executed | RibbonBuffer.RegrowLeavesShortStorage | RibbonBuffer.CapacityStorage |

The component class keeps the allocation as written, so that its contracts
describe the code: `CreateBuffer` states its storage length through
`RibbonBuffer.StorageAfter`, and every write of the class is bounds-guarded.
The corrected sizing is `RibbonBuffer.CapacityStorage`, which is proved
always to cover the vertex count.
