# Screen replication model

A Dafny model of the agent's screen2 pipeline and of the protocols around it. The agent
captures the screen, scales it per layer, compares the result tile by tile with the
previous frame, hands the changes to a sender through a one-place slot that merges unsent
work, and sends encoded rectangles that a viewer pastes onto its canvas. Around that
pipeline the project models the helper process that captures on behalf of a service (a
binary codec and a delta protocol), the desktop-duplication capturer with its fallback,
credit-based flow control of response streams, H.264 byte streams, Windows command-line
quoting, rate control, and the switch between tiles and video.

One module per file:

| module | subject |
|---|---|
| Geometry, Raster | rectangles with the corner rules of Go's `image` package, counting of rectangle lists, pixel images |
| Tiles, Merge, Encode | tile diff, rectangles for dirty tiles, encoding with a pool of workers |
| Axis, Scale, ScaleBand, Scaler, Weighing | filter weights, the filter itself, the banded loop with its ring of rows, the incremental scaler, how much of a scaled pixel comes from given rectangles |
| Hint, Skipped | dirty-region hints, when a hinted diff is the plain diff, and what a hint is worth to a layer that skipped captures |
| Jobs, Viewer, Pipe, Capture, History | merging slot, wire and canvas, the pipeline as a state machine, the capture stage, runs under the capture source's promise |
| HelperProto, HelperPixels, HelperLink, HelperSync | codec, pixel copies, both ends of the delta protocol, their joint runs |
| Dxgi | dirty-rectangle lists and the capture fallback machine |
| EndToEnd | the promises in a row: capturer to helper server, helper client to pipeline |
| Flow, AnnexB, CmdLine, VideoSwitch, Adapt | credit window and response stream, H.264 streams, command lines, mode switch, rate control |

How the parts fit: every imperative method is proved against a specification, and the
lemmas are about those specifications. For the pipeline, `Capture.CaptureStage.Turn`,
`Capture.ApplyLayerUpdate`, `Jobs.Slot` and `Viewer.SendLayer` are tied to the steps of the
machine in `Pipe` by `Capture.TurnIsStep`, `Capture.UpdateIsStep` and the slot's and the
sender's own postconditions. None of them asks anything of the hints: a step is what the code
does, with right hints and wrong ones. `Pipe.RunKeepsInv` covers every interleaving of those
steps, in full when the hints work for the layers that use them and for sizes, deltas and
wake-ups always; `History` derives from rectangles alone that they work. The helper protocol
is built the same way: `HelperLink` has the code of both ends, `HelperSync` its runs, and
`HelperSync.CaptureHinted` shows that a call of the code is such a run. `EndToEnd` joins the
three: the desktop-duplication capturer keeps the promise the helper's server relies on, and
what the helper's client returns keeps the promise `History` starts from. Locks, goroutines
and channels are atomic steps of such machines.

## Where the code and its comments disagree

- A layer that is not due keeps its previous frame, and the comment at
  client/agent/screen2_pipe.go:260-263 says that no tile update is lost. With hinted
  captures it can be lost: the hint of the next capture says nothing about a capture the
  layer skipped. `Skipped.SkippedCaptureLosesTile` is a case for an unscaled layer. For a
  scaled one it is worse: the scaler patches an old output, and `Skipped.StaleColumn` and
  `Pipe.StaleKeyFrame` show a key frame with a stale column. Two conditions on rectangles
  decide it, about the destination pixels in which skipped pixels count: those that read them
  with a weight other than 0. A frame that is not compared (a key frame, or one for the video)
  is fresh for all pixel contents if all of them are scaled afresh (`Skipped.KeySafe`), which
  is always so for an unscaled layer. A frame that is compared needs their tiles compared as
  well (`Skipped.SkipSafe`). `Skipped.KeyExactly` and `Skipped.SkipsExactly` show that both
  are exact wherever skipped pixels carry more than half a step of an output value (128 of
  65536) in the pixels that read them, and a whole step where weight is lost to the 8-bit
  counts. `Skipped.RatioIsClear` gives scales on which that is so for all rectangles, 1920 x
  1080 to 1600 x 900 among them; a smaller weight may be lost in rounding. `History` carries
  the skipped hints along every run and shows that turns whose hint reaches them are faithful.
- Tap counts are stored in 8 bits (client/agent/screen2_scale.go:29, 46).
  `Axis.CountIsExact` says when the stored count is right (a span of at most 255) and
  `Axis.AppliedWeight` when the applied weights still sum to 256: also for wider spans whose
  cells all round to weight 0 but the first, unless the stored count is 0. That is exactly
  where a channel stays within its footprint and white stays white
  (`Scale.ChannelWithinFootprint`, `Scale.WhiteStaysWhite`); `Scale.WhiteComesOutBlack` is a
  white image of 256 columns scaled to a black one. The scaler theorems hold for the code as
  it is.
- An error reply without a text decodes as an empty success at the client
  (client/agent/helper_proto.go:276-304, client/agent/helper_client.go:221-228). The caller
  still gets an error, but the client drops the link and the helper with it
  (`HelperSync.RefusedKeepsInv`) and forgets the displays (`HelperLink.EmptyTextForgets`); an
  error with a text does neither.

## Model

| member | source | states |
|---|---|---|
| Tiles.DiffTiles | client/agent/screen2_tiles.go:33-58 | exactly the tiles with a differing pixel are flagged; without a previous frame of the same size, all of them |
| Tiles.DiffIsUnique | client/agent/screen2_tiles.go:33-58 | that describes one mask only |
| Tiles.DiffCovers | client/agent/screen2_tiles.go:33-58 | every differing pixel is in a flagged tile |
| Tiles.CompareTile | client/agent/screen2_tiles.go:44-56 | the row-by-row comparison finds whether any pixel of the tile differs, also in clipped edge tiles |
| Merge.MergeDirty | client/agent/screen2_tiles.go:63-101 | pairwise disjoint non-empty rectangles on the canvas, each pixel of a dirty tile in exactly one of them and no other pixel, for every mask and size; rows are whole runs of dirty tiles and no two rectangles could be stacked |
| Merge.MergeIsUnique | client/agent/screen2_tiles.go:60-101 | a mask has only one such merge: any two have the same rectangles |
| Merge.AddStrip | client/agent/screen2_tiles.go:78-91 | a run of dirty tiles either extends the one open rectangle with its columns or opens a new one, keeping the partition and the stacking rule |
| Merge.CloseRow | client/agent/screen2_tiles.go:93-98 | open rectangles that were not extended, and only those, become final |
| Tiles.SplitRect | client/agent/screen2_tiles.go:104-112 | non-empty disjoint pieces with sides of at most maxDim that partition the rectangle |
| Tiles.LayerTileRects | client/agent/screen2_layers.go:72-83 | disjoint clipped tile rectangles that cover exactly the dirty area, sides of at most 64 |
| Encode.EncodeRectsParallel | client/agent/screen2_tiles.go:190-259 | for any scheduling of any number of workers: the list of the sequential loop, or the error of the first failing rectangle in list order |
| Encode.RunPool | client/agent/screen2_tiles.go:229-246 | workers sharing one index answer every rectangle, and terminate, whatever the interleaving |
| Encode.EncodeOne | client/agent/screen2_tiles.go:192-215 | the recursive closure terminates and appends the pieces of its rectangle in order, or stops at the first error |
| Encode.Collect | client/agent/screen2_tiles.go:247-258 | joining per-index results gives the sequential result or its first error |
| Encode.OnePartitions | client/agent/screen2_tiles.go:192-215 | the pieces of one rectangle partition it; each carries the encoder's answer for its own area and is within the payload limit or tile sized |
| Encode.SequentialCovers | client/agent/screen2_tiles.go:192-228 | a frame's wire rectangles cover every point exactly as often as the requested ones |
| Encode.TilesAreNotSplit | client/agent/screen2_tiles.go:197-214 | rectangles of tile size are never halved, however large their payload |
| Encode.FirstErrorSticks | client/agent/screen2_tiles.go:219-228 | once a rectangle fails, later ones do not change the outcome |
| Axis.NewScaleAxis | client/agent/screen2_scale.go:33-61 | starts, 8-bit counts and weights of every destination as specified |
| Axis.AxisRow | client/agent/screen2_scale.go:44-59 | weights of one destination with the remainder added to the first largest one |
| Axis.SpanBounds | client/agent/screen2_scale.go:33-48 | a destination has between one and `taps` source cells, all inside the source |
| Axis.CellsAreOverlaps | client/agent/screen2_scale.go:44-53 | its cells are exactly those whose overlap with it has positive length |
| Axis.Footprint | client/agent/screen2_scale.go:33-61 | a source interval reaches only destinations between the floor of its start and the ceiling of its end, in integer division |
| Axis.WeightsSumTo256 | client/agent/screen2_scale.go:47-59 | weights are never negative, zero past the span, and sum to exactly 256 |
| Axis.RawSumAtMost256 | client/agent/screen2_scale.go:50-58 | rounded-down weights sum to at most 256, so the remainder is not negative |
| Axis.OverlapTelescopes | client/agent/screen2_scale.go:49-53 | the overlaps of consecutive cells add up to the covered length |
| Axis.CountIsExact | client/agent/screen2_scale.go:46 | the 8-bit count is right exactly when the span is at most 255, which taps <= 255 guarantees |
| Axis.EightBitCountLosesTheSpan | client/agent/screen2_scale.go:46 | a whole line into one destination spans all its cells, and the stored count is their number mod 256: 0 for 256 |
| Axis.AppliedWeight | client/agent/screen2_scale.go:46-59 | the weights under the stored count sum to 256 if and only if the span is at most 255, or wider than 256 source cells per destination with a stored count other than 0 |
| Hint.HintTiles | client/agent/screen2_hint.go:40-68 | exactly the tiles that meet the widened and clipped image of some hint rectangle are flagged |
| Hint.DiffTilesMasked | client/agent/screen2_hint.go:73-101 | exactly the flagged tiles with a differing pixel; everything if sizes do not match |
| Hint.DiffFrame | client/agent/screen2_hint.go:109-120 | plain diff without a hint or a previous frame, otherwise the diff of the hinted tiles, with a margin of 2 when scaled |
| Hint.HintedDiffExact | client/agent/screen2_hint.go:106-120 | the hinted diff is the plain diff if and only if every changed tile is flagged by the hint |
| Hint.FootprintInBox | client/agent/screen2_hint.go:47-56 | a destination pixel whose footprint meets a source rectangle lies in that rectangle's destination box, margin or not |
| Hint.FootprintIsMarked | client/agent/screen2_hint.go:40-68 | and its tile is flagged |
| Hint.UnscaledHintIsExact | client/agent/screen2_hint.go:106-120 | unscaled captures that agree outside the hint: the hinted diff is the plain diff |
| Skipped.SafeIsExact | client/agent/screen2_pipe.go:260-263 | scaled or not, for all pixel contents: if every destination pixel in which skipped pixels count is scaled afresh, the frame is a fresh scale; if their tiles are compared too, the diff is the plain one |
| Skipped.SkipsExactly | client/agent/screen2_pipe.go:260-263 | and only then, for a layer that compares, where skipped pixels carry more than half a step of an output value |
| Skipped.KeyExactly | client/agent/screen2_pipe.go:275-284 | a frame that is not compared (a key frame) is fresh for all pixel contents if and only if every destination pixel in which skipped pixels count is scaled afresh |
| Skipped.UnscaledKeysAreFresh | client/agent/screen2_scale.go:195-198 | so a key frame of an unscaled layer is never stale |
| Skipped.RatioIsClear | client/agent/screen2_scale.go:49-59 | sides in the ratios px : qx and py : qy with floor(256 / px) * floor(256 / py) > 128: every weight shows, for all rectangles |
| Skipped.SkippedHintsExact | client/agent/screen2_pipe.go:260-263 | for an unscaled layer that compares, and all rectangles: correct for all pixel contents if and only if the skipped hints stay inside the tiles of the current hint |
| Skipped.UnreachedIsLost | client/agent/screen2_pipe.go:260-263 | a destination pixel in which skipped pixels count, not scaled afresh or not compared, is lost for some pixel contents |
| Skipped.UnrefreshedIsStale | client/agent/screen2_pipe.go:275-284 | not scaled afresh, it is stale even in a frame that is not compared |
| Skipped.SkippedCaptureLosesTile | client/agent/screen2_pipe.go:260-263 | a concrete 65 x 1 frame that loses an update |
| Skipped.StaleColumn | client/agent/screen2_scale.go:208-216 | 128 columns scaled to 64: a skipped change of columns 0 and 1 leaves output column 0 black where a fresh scale is white |
| Skipped.SkippedScaleWorks | client/agent/screen2_pipe.go:260-284 | captures that differ only inside skipped and current hints, safe for a key: nothing stale is left |
| Skipped.SkippedDiffWorks | client/agent/screen2_pipe.go:260-284 | and safe for a diff: every changed tile is flagged |
| Weighing.Unweighed | client/agent/screen2_scale.go:112-166 | changes inside rectangles that weigh nothing in a destination pixel do not change it |
| Weighing.HolesShow | client/agent/screen2_scale.go:112-166 | blackening rectangles of a white image changes every destination pixel in which they weigh more than half a step (a whole step where weight is lost) |
| Weighing.WhollyShows | client/agent/screen2_scale.go:112-166 | a destination pixel that reads nothing but the rectangles, with its whole weight, is such a pixel |
| Weighing.RatioTaps | client/agent/screen2_scale.go:49-59 | sides in the ratio p : q: every weight is at least floor(256 / p) |
| Skipped.HintReachesItself | client/agent/screen2_hint.go:40-68 | the current hint always reaches the destinations of its own pixels |
| Skipped.FullHintIsSafe | client/agent/screen2_hint.go:40-68 | a hint that covers the whole capture reaches everything, whatever was skipped |
| Scale.ChannelIsByte | client/agent/screen2_scale.go:137-166 | every output channel fits in a byte, for all sizes |
| Scale.ChannelWithinFootprint | client/agent/screen2_scale.go:117-166 | where the whole weight is applied a channel lies between the least and greatest value of its footprint |
| Scale.WhiteStaysWhite | client/agent/screen2_scale.go:117-166 | white stays white in exactly those pixels, so the bound fails elsewhere |
| Scale.NoColumnsIsBlack | client/agent/screen2_scale.go:112-127 | where the stored column count is 0 every image comes out black |
| Scale.WhiteComesOutBlack | client/agent/screen2_scale.go:46 | a white image of 256 columns scaled to one column is black |
| Scale.ShortcutIsGeneral | client/agent/screen2_scale.go:135-146 | the single-row shortcut equals the general two-pass formula when its one weight is 256 |
| Scale.ShortcutShows | client/agent/screen2_scale.go:135-146 | and only then: a white image tells them apart otherwise |
| Scale.ScaledPixelLocal | client/agent/screen2_scale.go:94-168 | a scaled pixel depends on its footprint only |
| Scale.HBounds | client/agent/screen2_scale.go:112-127 | the horizontal pass stays between 256 times the extremes of its cells, at most 65280 |
| Scale.VBounds | client/agent/screen2_scale.go:148-160 | so does the vertical pass over it |
| ScaleBand.HRow | client/agent/screen2_scale.go:102-128 | a valid tag always means that the slot holds that row's horizontal pass; one call changes one slot's tag |
| ScaleBand.GatherRows | client/agent/screen2_scale.go:130-136 | the rows used together are all cached at once |
| ScaleBand.SlotsDiffer | client/agent/screen2_scale.go:96-104 | rows closer together than the ring is long never share a slot |
| ScaleBand.DotStep | client/agent/screen2_scale.go:117-125 | adding one weighted cell never exceeds 65280 * 256, so 32 bits suffice |
| ScaleBand.PaintRow | client/agent/screen2_scale.go:129-167 | writes exactly the uncached filter into one row of the band |
| ScaleBand.ScaleBand | client/agent/screen2_scale.go:94-168 | inside the band exactly the uncached two-pass filter, nothing else touched |
| ScaleBand.ScaleRegion | client/agent/screen2_scale.go:64-90 | the same for any number of bands |
| ScaleBand.RunBands | client/agent/screen2_scale.go:81-89 | workers with a ring each, writing their rows in any interleaving: exactly the uncached filter in the region, nothing else touched |
| ScaleBand.StepBand | client/agent/screen2_scale.go:130-167 | one worker's next row leaves all other bands and pixels alone |
| ScaleBand.MakeBands | client/agent/screen2_scale.go:80-83 | the bands cover the region's rows, and no two workers share a buffer |
| Scaler.FrameScaler.ScaleHinted | client/agent/screen2_scale.go:190-221 | for every hint: which pixels are recomputed and which keep the old output; whatever sizes and widths came before, from a true cache and with a hint that flags the changed source tiles the result is pixel for pixel a fresh full-frame scale, and the cache stays true |
| Scaler.ScaleExactly | client/agent/screen2_scale.go:190-221 | from a true cache the result is the fresh scale if and only if every changed destination pixel is recomputed, or too much is flagged to patch |
| Scaler.SoundIsStaleFree | client/agent/screen2_scale.go:225-265 | flags on all changed source tiles are enough for that |
| Scaler.AgreeOutsideFlags | client/agent/screen2_hint.go:40-68 | a hint that covers the differences between two captures flags all changed source tiles |
| Scaler.DirtyRegions | client/agent/screen2_scale.go:225-265 | regions on the canvas that hold exactly the recomputed pixels, those in the widened box of a pixel of a flagged tile, hinted or compared; not ok when more than 0.6 of the tiles are flagged |
| Scaler.RegionsAreRecomputed | client/agent/screen2_scale.go:257-264 | those boxes hold exactly the destination pixels in the box of some pixel of a flagged tile |
| Scaler.BoxIsUnion | client/agent/screen2_scale.go:258-262 | in integer division, the box of a rectangle is the union of the boxes of its pixels |
| Scaler.TouchedIsRecomputed | client/agent/screen2_scale.go:254-264 | with flags on the changed tiles, a destination pixel whose footprint meets a changed source pixel is recomputed |
| Scaler.Patch | client/agent/screen2_scale.go:208-216 | the old output with exactly the recomputed pixels replaced |
| Scaler.HintedDiffIsPlainDiff | client/agent/screen2_hint.go:107-120 | frames made by the scaler from captures that agree outside the hint: the hinted diff is the plain diff, scaled or not |
| Jobs.MergeJobs | client/agent/screen2_pipe.go:93-118 | layer by layer: masks joined, a key stays a key, unequal grids become a key, layers missing in the new job are carried over |
| Jobs.CombineLayer | client/agent/screen2_pipe.go:101-112 | the in-place joining loop is that combination of two updates |
| Jobs.Slot.Put | client/agent/screen2_pipe.go:57-69 | pending work is merged with the new job, counted, and a wake-up is left |
| Jobs.Slot.TryTake | client/agent/screen2_pipe.go:72-80 | hands out all pending work once |
| Viewer.SendLayer | client/agent/screen2_pipe.go:379-456 | whatever canvas the viewer has, receiving the message (or none) does to it exactly what the layer update means; layer rectangles are tile sized |
| Viewer.RectsOf | client/agent/screen2_pipe.go:382-399 | the requested rectangles cover the whole frame (key) or the dirty area, each point once |
| Viewer.ReceiveIsApply | client/agent/screen2_pipe.go:379-456 | painting such rectangles one after the other is the update: the frame for a key, the dirty tiles over the old canvas for a delta |
| Viewer.PaintIsOverlay | client/agent/screen2_pipe.go:411-432 | the same, pixel by pixel |
| Pipe.RunKeepsInv | client/agent/screen2_pipe.go:57-118 | in every reachable state of capture stage, slot, sender and viewer: for each layer not awaiting a key, canvas plus in-flight job plus pending job is the layer's previous frame, the full scale of the last capture it processed; sizes, fitting deltas and wake-ups hold whatever the hints say |
| Pipe.StepKeepsInv | client/agent/screen2_pipe.go:159-333 | every step keeps it: turns, leaving video, key requests, display switches, layer updates, take, send, park, wake |
| Pipe.DrainedViewerShowsLastFrame | client/agent/screen2_pipe.go:370-456 | with nothing pending or in flight, and hints that worked for the layers that used them, the viewer shows the full scale of the last capture the layer processed |
| Pipe.DeltasAlwaysFit | client/agent/screen2_pipe.go:93-118 | in every run, with any hints: no delta ever meets a viewer without a canvas of its size, merges included |
| Pipe.PendingWorkWakesSender | client/agent/screen2_pipe.go:57-87 | in every run, with any hints: work in the slot is never stranded, the sender is awake or a wake-up is waiting |
| Pipe.ProcessedLands | client/agent/screen2_pipe.go:270-319 | one processed layer: pending work joined with its update leaves the viewer on the new frame |
| Pipe.DeltaLands | client/agent/screen2_pipe.go:93-118 | joining an unsent delta with a new one (or a changed grid) still leads to the new frame |
| Pipe.ProcessedExactly | client/agent/screen2_pipe.go:270-284 | a processed layer's frame is the full scale and its mask the plain diff if and only if the hint leaves no changed pixel unscaled and no changed tile uncompared, through size and width changes |
| Pipe.StaleKeyFrame | client/agent/screen2_pipe.go:270-319 | a layer awaiting a key sends the stale column of Skipped.StaleColumn in its key frame |
| History.ReachingRunWorks | client/agent/screen2_pipe.go:256-320 | when captures keep their source's promise and each hint reaches what the layers it changes have missed (tiles only for layers that compare), every hint works |
| History.UnscaledKeyTurnReaches | client/agent/screen2_pipe.go:233-255 | the code's own key turn, the last image with an empty hint, reaches for every unscaled layer |
| History.ReachingRunShowsLastFrame | client/agent/screen2_pipe.go:256-320 | so a drained viewer shows the last processed capture, with captures skipped, hinted or not |
| History.CoveringHintWorks | client/agent/screen2_pipe.go:270-284 | a hint that covers the change since the layer's own last processed capture works, whatever was skipped in between |
| History.StepKeepsMissed | client/agent/screen2_pipe.go:254-264 | the rectangles recorded as missed cover every difference between the layer's last processed capture and the latest one |
| Pipe.TurnKeepsInv | client/agent/screen2_pipe.go:256-326 | a whole turn over all layers keeps the invariant |
| Pipe.UpdateKeepsInv | client/agent/screen2_layers.go:98-133 | so does a change of the layer set |
| Pipe.SendKeepsInv | client/agent/screen2_pipe.go:370-456 | so does sending one layer |
| Capture.ProcessLayer | client/agent/screen2_pipe.go:265-284 | with any hint: the new previous frame is the scaler's output, a key is needed as the code decides, and the mask is the diff against the old frame |
| Capture.LayerTurn | client/agent/screen2_pipe.go:259-320 | the loop body leaves the layer in one of the outcomes the machine allows |
| Capture.CaptureStage.Turn | client/agent/screen2_pipe.go:256-326 | with any hint: each layer ends in such an outcome, the job holds exactly their updates, and leaving video in mid-loop resets all layers |
| Capture.TurnIsStep | client/agent/screen2_pipe.go:256-326 | a turn followed by putting its job is a step of the machine |
| Capture.ApplyLayerUpdate | client/agent/screen2_layers.go:98-133 | layers asked for, ordered by id, first entry wins, unknown ids ignored; new and resized layers ask for a key, others keep their state, each keeps or gets its own scaler |
| Capture.RequestKeys | client/agent/screen2_layers.go:98-106 | without a new layer set, a key request marks every layer and nothing else changes |
| Capture.UpdateIsStep | client/agent/screen2_layers.go:98-133 | that is a step of the machine |
| Capture.LayerInbox.SetLayers | client/agent/screen2_layers.go:36-42 | the newest list wins and a key request is remembered |
| Capture.LayerInbox.Take | client/agent/screen2_layers.go:44-50 | hands over the newest list, and a key request if any call since the last take made one |
| HelperProto.FramesRoundTrip | client/agent/helper_proto.go:52-84 | reading a concatenation of written frames gives the same frames and the rest of the stream |
| HelperProto.FrameRoundTrip | client/agent/helper_proto.go:52-84 | the same for one frame |
| HelperProto.HelloRoundTrip | client/agent/helper_proto.go:158-170 | the handshake message decodes to what was encoded, its texts cut below 2^16 bytes: unchanged if and only if they were shorter |
| HelperProto.CapRoundTrip | client/agent/helper_proto.go:251-304 | a response in range decodes to itself exactly when it has at most 4096 rectangles and 2^28 pixels; otherwise it is refused, never altered |
| HelperProto.ErrRoundTrip | client/agent/helper_proto.go:268-282 | an error text survives the wire, cut below 2^16 bytes |
| HelperProto.AcceptedIsWellFormed | client/agent/helper_proto.go:276-304 | for every byte string, an accepted response has rectangles inside the image with exactly Dx*Dy*4 bytes each |
| HelperProto.Decode | client/agent/helper_proto.go:276-304 | the imperative decoder computes the decoding function the lemmas are about |
| HelperProto.RBuf.Bytes | client/agent/helper_proto.go:113-121 | takes bytes or sets an error that sticks |
| HelperPixels.CopyRect | client/agent/helper_proto.go:307-314 | packs exactly the rectangle's bytes, rows in order |
| HelperPixels.PasteRect | client/agent/helper_proto.go:317-322 | in place and in bounds; every byte of the rectangle is written, no other byte changes |
| HelperPixels.PasteOfCopy | client/agent/helper_proto.go:307-322 | pasting a copy transfers exactly that rectangle of the source |
| HelperPixels.SameBytes | client/agent/helper_proto.go:305-322 | two images are equal when all their rows' bytes are |
| HelperLink.HelperServer.Capture | client/agent/helper_server.go:99-149 | one request: retry once, repeat or clipped rectangles or the full image, and the remembered image and display updated exactly with what was sent |
| HelperLink.ClipLoop | client/agent/helper_server.go:135-143 | the hint rectangles that meet the image, clipped, in order |
| HelperLink.ClipCovers | client/agent/helper_server.go:135-143 | clipping loses no hinted pixel of the image |
| HelperLink.HelperClient.Receive | client/agent/helper_client.go:221-265 | the reply pasted in place; unusable replies drop the link; state, display facts and result as specified |
| HelperLink.HelperClient.Learn | client/agent/helper_client.go:229-238 | method, degraded flag, bounds of the display and display count from the reply; a new count expires the facts |
| HelperLink.PasteAll | client/agent/helper_client.go:254-256 | rectangles pasted in order, later ones on top |
| HelperLink.HelperClient.Call | client/agent/helper_client.go:124-153 | which of the two attempts answers, and that the canvas survives exactly when the link it was built over is still in use |
| HelperLink.HelperClient.Ensure | client/agent/helper_client.go:103-121 | when a link is available, and that a new one starts without a canvas |
| HelperLink.HelperClient.FailConnect | client/agent/helper_client.go:90-100 | waiting time doubles between 1 s and 30 s, 2 s without a user |
| HelperLink.HelperClient.Drop | client/agent/helper_client.go:82-88 | no link means no canvas |
| HelperSync.RunKeepsInv | client/agent/helper_client.go:82-153 | in every run of connects, failures and exchanges: on a live link a canvas holds the server's last pixels of the same display |
| HelperSync.StepKeepsInv | client/agent/helper_server.go:99-149 | every step keeps it: a new link, a failure before or after the server acted, an exchange |
| HelperSync.ReturnedFramesAreTrue | client/agent/helper_client.go:214-265 | every frame returned is the server's last frame of that display; hint rectangles cover all bytes that differ from the canvas before; "no change" means equal |
| HelperSync.PastedIsShot | client/agent/helper_client.go:244-257 | pasting a sound delta over a canvas in step, or a full frame over anything, gives the server's image |
| HelperSync.CompositeOfCopies | client/agent/helper_client.go:254-256 | overlapping copies of one image: covered bytes are the image's, the rest the canvas's |
| HelperSync.ReplyDecodes | client/agent/helper_server.go:99-149 | the client decodes what the server meant or refuses the reply |
| HelperSync.RefusedKeepsInv | client/agent/helper_client.go:221-228 | a refusal is an error for the caller and changes nothing at the server; the link survives it if and only if it has a text |
| HelperLink.EmptyTextForgets | client/agent/helper_client.go:229-238 | a refusal without a text wipes the display facts |
| HelperSync.AcceptedKeepsInv | client/agent/helper_client.go:240-265 | after an accepted reply both ends hold the same image and display |
| HelperSync.CaptureHinted | client/agent/helper_client.go:214-265 | one call of the code, retry included, against an honest other side is a run of the machine that ends in the exchange whose result the caller gets, and keeps the invariant |
| Dxgi.CoalesceRects | client/agent/capture_dxgi.go:241-267 | terminates, loses no point, ends pairwise non-touching with at most maxN rectangles, or as the one bounding box |
| Dxgi.MergeKeeps | client/agent/capture_dxgi.go:246-258 | merging a pair loses no point and shortens the list by one |
| Dxgi.MergeKeepsHull | client/agent/capture_dxgi.go:246-264 | and leaves the bounding box as it was |
| Dxgi.DirtyUnion | client/agent/capture_dxgi.go:222-236 | every clipped pixel of a dirty rectangle or a move's destination is covered |
| Dxgi.DxgiCapturer.CaptureHinted | client/agent/capture_dxgi.go:160-207 | for a source as promised, in every run: a hinted image differs from the last image returned only inside its hint, and "no change" means equal to it; open implies the fallback window is over |
| Dxgi.DxgiCapturer.NoteFail | client/agent/capture_dxgi.go:147-157 | failures stay below 3; the third or an unsupported source starts a window; its length is 30 s doubled per fallback, at most 4 min |
| Dxgi.DxgiCapturer.Poll | client/agent/capture_dxgi.go:178-206 | one result of the open source; success resets failures and delay |
| Dxgi.DxgiCapturer.OpenSource | client/agent/capture_dxgi.go:164-177 | a display switch closes the source; a failed open leaves it closed and unprimed |
| Dxgi.DxgiCapturer.ViaFallback | client/agent/capture_dxgi.go:139-143 | a fallback image is never hinted |
| Dxgi.DxgiCapturer.CloseSource | client/agent/capture_dxgi.go:125-130 | closed and unprimed |
| Dxgi.DxgiCapturer.WindowMeansClosed | client/agent/capture_dxgi.go:160-177 | while a fallback window is running the source is closed and unprimed |
| Dxgi.AllDirtyCovers | client/agent/capture_dxgi.go:198-206 | a fully dirty image needs no history |
| EndToEnd.Ask | client/agent/helper_server.go:99-107 | the desktop-duplication capturer as the server's backend: its hints meet the promise the delta protocol rests on, and server and capturer agree on the last image |
| EndToEnd.CoveringIsSound | client/agent/helper_server.go:135-143 | a hint that covers the change since the last image returned is sound for the server |
| EndToEnd.ServerIsAfter | client/agent/helper_server.go:109-131 | only an image answer changes what the server remembers, so it stays in step through retries |
| EndToEnd.CanvasIsHeld | client/agent/helper_client.go:254-264 | in every run a canvas shows the last image the caller was given |
| EndToEnd.FramesArePromised | client/agent/screen2_pipe.go:337-359 | every frame the client returns is a capture as the pipeline is promised: its hint covers the change since the session's last image, which is then this one |
| EndToEnd.ReturnedFramesAreInputs | client/agent/screen2_pipe.go:337-359 | and only an error gives the session nothing to turn on |
| Flow.WindowTable.AcquireSection | client/agent/flowcontrol.go:34-61 | credit taken, or the waiter channel of the request |
| Flow.WindowTable.AddSection | client/agent/flowcontrol.go:64-82 | credit added, the waiters' channel unregistered for closing |
| Flow.WindowTable.ReleaseSection | client/agent/flowcontrol.go:85-95 | entry and waiters of the request gone |
| Flow.RunKeepsInv | client/agent/flowcontrol.go:34-95 | for any number of goroutines: acquired + remaining = window + added since the last release, remaining is never negative, channels are closed at most once |
| Flow.StepKeepsInv | client/agent/flowcontrol.go:34-95 | every step of acquire, add, release, cancel and close keeps it |
| Flow.NoLostWakeUp | client/agent/flowcontrol.go:34-95 | a goroutine parked on a channel that is neither closed nor about to be is registered there and really lacks credit |
| Flow.NeverBeyondGrant | client/agent/flowcontrol.go:34-61 | what was acquired never exceeds the window plus what was granted |
| Flow.StreamResponse | client/agent/proxy.go:352-403 | consecutive sequence numbers, no frame before its credit, payloads a prefix of the body whatever fails, all of it before the end frame, or a body over the limit; reads may be empty |
| Flow.StreamsStayWithinGrant | client/agent/proxy.go:371-387 | in every reachable state of one machine of credit table and response streams: what a stream has sent since its last release is at most the window plus what was added |
| Flow.EventsAreMoves | client/agent/proxy.go:352-403 | every event of the response loop is a move that machine allows at that point |
| Flow.SentWithinGrant | client/agent/proxy.go:371-387 | the same for a stream beside a run of the table whose acquires are its grants, perhaps all but the latest |
| Flow.GrantedIsAcquired | client/agent/flowcontrol.go:34-61 | the amounts granted to a request since its last release add up to its acquired total |
| Flow.PaidFor | client/agent/proxy.go:371-387 | no stream sends more bytes than it acquired |
| Flow.SendChunk | client/agent/proxy.go:371-387 | acquire before send; on failure nothing is sent |
| AnnexB.SplitAnnexB | client/agent/screen2_h264.go:33-52 | the scanning loop computes the splitting function |
| AnnexB.SplitUndoesJoin | client/agent/screen2_h264.go:33-63 | units joined by 3- or 4-byte start codes are returned in order |
| AnnexB.SplitUndoesJoinExactly | client/agent/screen2_h264.go:33-63 | exactly for units that are not empty, hold no start code and do not end in zero |
| AnnexB.SplitAnyInput | client/agent/screen2_h264.go:33-63 | for any input no unit is empty, ends in zero or holds a start code |
| AnnexB.AppendNAL | client/agent/screen2_h264.go:54-63 | trailing zeros removed, empty units dropped |
| AnnexB.ParseAnnexBAU | client/agent/screen2_h264.go:73-90 | last SPS and PPS, IDR flag, and the kept units with length prefixes |
| AnnexB.AvccRoundTrip | client/agent/screen2_h264.go:92-95 | reading the length prefixes gives the units back |
| AnnexB.ParsedStreamReadsBack | client/agent/screen2_h264.go:73-95 | end to end: a joined stream, parsed and read back, gives the kept units in order |
| CmdLine.ParseUndoesQuoting | client/privilege.go:118-167 | for every list of arguments, parsing the line gives the list back, under either known rule for doubled quotes |
| CmdLine.EscapeWinArg | client/privilege.go:130-167 | the loop computes the quoting function |
| CmdLine.WindowsCmdLine | client/privilege.go:118-126 | quoted arguments joined by spaces |
| CmdLine.RunBody | client/privilege.go:144-165 | inside quotes the rest of an argument is read back, its last backslashes doubled |
| CmdLine.RunQuote | client/privilege.go:152-156 | k backslashes and a quote, written as 2k + 1 backslashes and the quote |
| CmdLine.RunPlain | client/privilege.go:134-143 | arguments without blanks and quotes are read as they are |
| VideoSwitch.VideoSwitcher.Step | client/agent/screen2_video_switch.go:40-55 | the switch's whole new state, mode and change flag |
| VideoSwitch.VideoSwitcher.StepAuto | client/agent/screen2_video_switch.go:57-82 | streak starts and mode |
| VideoSwitch.StreakInvariant | client/agent/screen2_video_switch.go:30-82 | in every run the streak field is the time of the first turn of the longest unbroken stretch up to now |
| VideoSwitch.ChangesExactlyWhen | client/agent/screen2_video_switch.go:57-82 | the mode changes if and only if the dwell is over and some unbroken stretch is long enough |
| VideoSwitch.ChangesAreApart | client/agent/screen2_video_switch.go:40-82 | any two changes are at least 1.5 s apart |
| VideoSwitch.EnteringNeedsMotion | client/agent/screen2_video_switch.go:57-71 | entering video: every turn of at least 500 ms was in tile mode at 0.30 or more |
| VideoSwitch.LeavingNeedsCalm | client/agent/screen2_video_switch.go:72-82 | leaving video: every turn of at least 2 s was in video mode below 0.10 |
| Adapt.AdaptCtl.SetMax | client/agent/screen2_adapt.go:57-76 | ceilings clamped, current values clipped to them |
| Adapt.AdaptCtl.Observe | client/agent/screen2_adapt.go:110-153 | new state and change flag |
| Adapt.ObservedInRange | client/agent/screen2_adapt.go:107-153 | quality and rate stay between 1 and their ceilings, so the interval never divides by zero |
| Adapt.ComfortReachesMax | client/agent/screen2_adapt.go:136-148 | an explicit number of zero-time writes reaches the ceilings from any state |
| Adapt.EveryStateReachesMax | client/agent/screen2_adapt.go:136-148 | zero-time writes reach the ceilings from every state if and only if the rate ceiling is at most 250 million, or one more with a quality ceiling of 1 |
| Adapt.SessionsReachMax | client/agent/screen2.go:113-116 | a session clamps its rate ceiling to 30 whatever it is asked for, so every state of it climbs |
| Adapt.Reach | client/agent/screen2_adapt.go:49-76 | every quality and rate below the ceilings is reachable, so those states count |
| Adapt.TooFastNeverRises | client/agent/screen2_adapt.go:136-148 | above 250 million frames per second no number of zero-time writes raises anything |
| Adapt.CongestionReachesMin | client/agent/screen2_adapt.go:118-135 | an explicit number of writes over three intervals reaches the floors |
| Adapt.AdaptCtl.Feedback | client/agent/screen2_adapt.go:190-233 | the reporting layer's new state; other layers and the controller unchanged |
| Adapt.CongestionCapsRate | client/agent/screen2_adapt.go:206-217 | congestion caps the layer at once, at the first whole rate above 1.2 times the delivered one, within floor and maximum |
| Adapt.CleanReportsLiftConstraints | client/agent/screen2_adapt.go:218-233 | an explicit number of clean reports lifts every constraint |
| Adapt.LayerBounds | client/agent/screen2_adapt.go:260-293 | layer rate between floor and ceiling, layer quality positive, within the controller's and at least 30 or its base |
| Adapt.AdaptCtl.LayerFPS | client/agent/screen2_adapt.go:260-266 | the layer's rate |
| Adapt.AdaptCtl.LayerQuality | client/agent/screen2_adapt.go:284-293 | the layer's quality |

## Left out

- Operating-system and foreign calls (capture interfaces, pipes, clipboard, input, media encoders): only the promises of the capture source and of the helper's backend are modelled, as preconditions.
- JPEG and PNG coding and the choice between them: encoding is an arbitrary function of the rectangle that decodes to the pixels it was made from; quality does not change pixels.
- Message packing and splitting: shared/protocol is not part of this model; a message is its header and rectangles, delivered in order.
- The video encoder loop: a mode that suspends tile updates, whose end resets every layer.
- Due times of layers: whether a layer is due in a turn is an arbitrary choice, which covers every schedule.
- Row strides and sub-image origins of pixel buffers, except in the helper's copy routine: images are rows of pixels. Scale weights are one row per destination instead of one flat array.
- Images handed between goroutines are values: that a frame is not overwritten while it is being sent is not modelled. The client's canvas and the scaler's buffers are arrays.
- The steps of concurrent scaling workers are whole rows, which no two of them share.
- Capturing itself and its retry; a turn without change that still owes a key frame (client/agent/screen2_pipe.go:233-255) is a turn of the machine with the last image and an empty hint. An encoding error or an oversized frame ends the session.
- HelperLink.HelperServer.Capture: a request that does not parse is answered with an error text before anything else; the model starts after that.
- Pipe.RunKeepsInv: the pixel part holds for runs whose hints work for the layers that use them (Pipe.HintWorks, exact for one layer by Pipe.ProcessedExactly); History gives a condition on rectangles alone.
- Skipped.SkipsExactly: the converse, like that of Skipped.KeyExactly, is for skipped rectangles that carry more than half a step of an output value wherever they count (a whole step where weight is lost); whether a smaller weight can show depends on what the other weights can add up to.
- Scale.ShortcutShows: for destination pixels whose columns carry their whole weight.
- HelperSync.RunKeepsInv: safety only; a first frame that is hinted is refused even when it is full, so progress is not claimed. Images have sides below 2^31.
- HelperLink.HelperClient.Receive: the separate query for all display facts is not modelled, only how replies to captures update them.
- HelperProto.CapRoundTrip: for responses in the fields' ranges (32-bit corners and sides, 16-bit display count, method name shorter than 2^16 bytes); outside them the encoder truncates.
- Flow.RunKeepsInv: acquire is called with a positive size, as its only caller does; a goroutine's channel receive and its close are separate steps.
- Flow.StreamResponse: the chunk buffer is reused between frames in the source; here a payload is a value. A reader that returns nothing for ever would keep the loop going for ever.
- CmdLine.ParseUndoesQuoting: arguments after the program name; the rules for the program name itself are not modelled.
- VideoSwitch.ChangesExactlyWhen: for the automatic preference and times that never decrease.
- Dropping the oldest input event when the input queue is full, and the claimed chroma range of the NV12 conversion: the code does not meet its comments there and nothing is claimed.
- Settings, reconnecting, posture parsers, command line, desktop and tray programs, the server: wiring and one-branch facts.
