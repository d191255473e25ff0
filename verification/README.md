# Verified core of the Aphelion map editor

A Dafny model of the parts of the editor whose correctness is not visible in one function, and
proofs of what they promise. Coordinates are integers, tile contents, prefabs and identities are
values, and every callback, file or picker is a parameter that may answer anything.

- **Incremental lighting** (`LightingTypes`, `ShadowCast`, `Shadows`, `LightingSum`,
  `LightingIncremental`, `LightingFalloff`, `LightingMeaning`, `LightingCompute`): `Update` after an
  edit leaves the same ordered fold of contributions at every corner as a fresh `Compute`. The deposit at a corner is a parameter, so equal
  folds are bit-identical sums; a `Look` says what the deposit sees of an emitter. `LightingFalloff`
  puts the falloff and the colour sums of the code there, over real numbers.
- **Selections** (`Runs`, `Selection`, `CombineSelections`, `RotateSelections`, `Shapes`, `Bitset`,
  `AreaSelection`, `AreaQuery`): the run-based algorithms against plain sets of points.
- **Moves and pastes** (`MoveJournal`, `MoveGestures`, `MovePose`, `MovePayloads`, `MoveChanges`,
  `Orientations`, `EraseStrokes`): the capture journal over a mutable map, the pose shown and the
  changes committed.
- **Concurrent owners** (`ReuseCache`, `ReuseCacheRuns`, `ConfigWriter`): classes whose methods are the
  sections under the mutex, and state machines over every interleaving of those sections.
- **Lint fixer** (`MapLint`, `TileFixer`, `TileFixRuns`, `TileFixMeaning`), **template composition**
  (`Composition`, `ComposeBoard`, `Compose`, `ComposeMeaning`, `ComposeChoices`) and **visibility
  profiles** (`FilterPolicy`, `FilterProfiles`, `FilterSession`).

The modules named `Meaning`, and the lemmas so named elsewhere, say what the small functions shared by
code and specification promise without naming them: a wall casts a shadow, four neighbours are one step
away, a key stands for a file, a rule and a message.

`Basics`, `Indexing`, `Paths`, `Sorting` and `Sums` hold what the others share. `dafny verify
dfyconfig.toml` checks everything.

## Where the code does not do what its comments say

The model follows the code.

- `lighting/compute.go:36-40` calls `Update` bit-identical to a fresh `Compute`. The length of a
  directional cast is not limited by the reach, so a wall raised far ahead of a beam can change corners
  that `Update` leaves alone. `BeamIsStale` is such an input for the code as it is: a beam of range 80,
  drawn 30 tiles behind its atom on a map with a maximum range of 1, and one wall tile raised 30 tiles
  ahead. `CastFits` compares, for two cast lengths of a source, the amounts shown at the corners that
  are not redrawn. The code is exact for all edits of levels lit by copies of a source if and only if it
  holds (`CodeIsExact`); the same is proved of every deposit that tells apart what it sees
  (`CastFitsIsExact`). `CastIsShort` is a test without the falloff that suffices (`ShortCastsFit`). The
  claim also needs the sources outside the dirty rectangle to keep their order (`EditWithin`).
- `maplint/fix.go:163-164` says that the step limit only guards against a rule set that defeats the
  termination argument. A tile of `n` atoms can be cut short although every rule behaves if and only if
  it has more than `4 * n + 16` violations (`LimitIsExact`); on such a tile with nothing but banned
  edits `FixTile` leaves exactly the excess (`FixEdited`).
- A flat ellipse of even height gets bounds wider than the shape (`editing/shape.go:41`). Turning such a
  selection four times moves it (`FlatEllipseDrifts`). `FourTurnsIdentity` says exactly which bounds
  survive four turns, and `PoseAgreesExactly` that preview and payload agree after every history of
  turns exactly for bounds with one and the same gap on all sides.
- Preparing an orientation that came back to the identity returns the template where it was, while the
  keypresses one by one move it to the lower corner (1, 1) (`PrepareAgrees`, `TurnedBackMoves`).

## Model

| member | source | states |
|---|---|---|
| `LightingTypes.WorkingRangeBound` | `internal/aphelion/lighting/compute.go:114-150` | a kept source has a working range of at least 1 and at most reach minus 1, whatever its range, shift and cast length |
| `LightingTypes.StepsDiffer` | `internal/aphelion/lighting/compute.go:155-179` | if a cast gets further on one level than on another, the tile right after the shorter cast is blocked on exactly one of them |
| `LightingCompute.CastDirectional` | `internal/aphelion/lighting/compute.go:155-179` | the loop stops exactly before the first tile off the map or opaque, and never later than the beam length |
| `ShadowCast.LitIsNear` | `internal/aphelion/lighting/compute.go:242-311` | every lit corner is within the working range of its emitter |
| `ShadowCast.LitIsLocal` | `internal/aphelion/lighting/compute.go:242-311` | two levels that agree on the square view of an emitter light the same corners: the recursive shadowcast reads nothing outside it |
| `ShadowCast.LitInside` | `internal/aphelion/lighting/compute.go:242-311` | a wider view lights the same as a narrow one of the corners that lie inside both |
| `ShadowCast.CellTilesNear` | `internal/aphelion/lighting/compute.go:269-311` | an octant cast marks only tiles of the level inside the square view |
| `ShadowCast.CellTilesLocal` | `internal/aphelion/lighting/compute.go:269-311` | an octant cast marks the same tiles on two levels that agree on the square view |
| `Shadows.HiddenRows` | `internal/aphelion/lighting/compute.go:269-311` | a blocked tile hides every tile of a later row of its octant that lies strictly between its edges as seen from the source, whatever else stands on the level |
| `Shadows.SeenRows` | `internal/aphelion/lighting/compute.go:269-311` | a tile of the level is marked whenever a line of sight through it touches no blocked tile of an earlier row |
| `Shadows.ShadowUnseen` | `internal/aphelion/lighting/compute.go:242-257` | a tile in the shadow of a wall, in every octant it could be seen from, is not seen |
| `Shadows.SightSeen` | `internal/aphelion/lighting/compute.go:242-257` | a tile of the square view with a clear line of sight in some octant is seen |
| `Shadows.ShadowedCorner` | `internal/aphelion/lighting/compute.go:242-257` | no light reaches a corner whose four tiles are opaque or in shadow |
| `Shadows.SightedCorner` | `internal/aphelion/lighting/compute.go:242-257` | light reaches every corner of a transparent tile in sight |
| `LightingCompute.ScanNeighbours` | `internal/aphelion/lighting/ambient.go:55-71` | true exactly when one of the up to eight neighbours on the level passes the test |
| `LightingCompute.StarlightSourcesIn` | `internal/aphelion/lighting/ambient.go:33-53` | exactly the space tiles of the scan with a non-space neighbour emit, in row-major order |
| `LightingCompute.EdgeSourcesIn` | `internal/aphelion/lighting/edge.go:35-53` | exactly the edge tiles of the scan that border another family emit, in row-major order |
| `LightingCompute.CollectSources` | `internal/aphelion/lighting/compute.go:93-111` | the ordered list: level sources, then starlight, then edge light, each kept or dropped by normalize |
| `LightingSum.ScanSuffices` | `internal/aphelion/lighting/compute.go:68-111` | derived sources outside the scanned rectangle light no corner of the region |
| `LightingSum.RenderedIsComplete` | `internal/aphelion/lighting/compute.go:68-88` | rendering any region leaves at each of its corners the full ordered fold over all sources of the level |
| `LightingSum.SameContribution` | `internal/aphelion/lighting/compute.go:41-60` | a source present on both levels, whose cast fits, gives the same contribution to every corner outside the redrawn region |
| `LightingSum.CloseContributesNothing` | `internal/aphelion/lighting/compute.go:41-60` | a source within one tile of the dirty rectangle lights no corner outside the redrawn region |
| `LightingSum.CastChangeUnseen` | `internal/aphelion/lighting/compute.go:41-60` | a source whose cast length changed shows an untouched corner the same light before and after, and where it shows any, the corner is lit by both or by neither |
| `LightingSum.ShortCastsFit` | `internal/aphelion/lighting/compute.go:155-179` | a test on range, shift and cast length alone that is enough for every deposit |
| `LightingIncremental.DerivedUnchanged` | `internal/aphelion/lighting/ambient.go:33-71` | starlight and edge light away from the dirty rectangle are the same on both levels |
| `LightingIncremental.SameAllContributions` | `internal/aphelion/lighting/compute.go:36-60` | a corner outside the redrawn region has the same ordered list of contributions before and after the edit |
| `LightingIncremental.UpdateEqualsCompute` | `internal/aphelion/lighting/compute.go:30-60` | for every edit inside the dirty rectangle Update leaves at every corner the same ordered fold as a fresh Compute, for every order-sensitive deposit that depends only on what it sees of an emitter, given that the casts of the level fit what is seen |
| `LightingIncremental.SessionEqualsCompute` | `internal/aphelion/lighting/compute.go:30-60` | after any sequence of edits, size changes included, the incremental result equals the fresh one at every corner |
| `LightingIncremental.UnfitCastIsStale` | `internal/aphelion/lighting/compute.go:36-60` | for every source whose cast does not fit what a deposit sees and tells apart there are two levels lit by that source, a dirty rectangle and a corner that Update leaves stale |
| `LightingIncremental.PairIsStale` | `internal/aphelion/lighting/compute.go:36-60` | the levels, the raised wall and the stale corner for any two cast lengths that a corner outside the redrawn region sees differently |
| `LightingIncremental.CastFitsIsExact` | `internal/aphelion/lighting/compute.go:36-60` | for every deposit that depends on what it sees and tells it apart: Update is exact for every edit of levels lit by copies of a source if and only if the cast of that source fits, provided the rim of a view tells its size |
| `LightingFalloff.CodeRespects` | `internal/aphelion/lighting/compute.go:215-237` | the code's deposit adds the amounts of the three colours, so it depends on nothing else and tells different amounts apart |
| `LightingFalloff.CodeRimTold` | `internal/aphelion/lighting/falloff.go:11-52` | for the code the rim of a view is dark, unless the light stands more than 1.25 below the floor |
| `LightingFalloff.CodeIsExact` | `internal/aphelion/lighting/compute.go:36-60` | with the code's own falloff and colour sums, over reals: Update is exact for every edit of every level lit by copies of a source if and only if casts of different length bring the same amounts to every corner that is not redrawn |
| `LightingFalloff.CodeUpdateEqualsCompute` | `internal/aphelion/lighting/compute.go:36-60` | on a level whose directional casts all fit, the code's Update leaves at every corner the sum of a fresh Compute |
| `LightingFalloff.BeamIsStale` | `internal/aphelion/lighting/falloff.go:11-52` | a concrete beam, two walls and one dirty tile for which the code's Update keeps light at a corner that a fresh Compute leaves dark |
| `LightingMeaning.DroppedSources` | `internal/aphelion/lighting/compute.go:113-127` | a source is dropped exactly when it is off the level, has no light system, no positive finite range or no finite power, or is an overlay while overlays are off |
| `LightingMeaning.CastLengthMeaning` | `internal/aphelion/lighting/compute.go:155-164` | half the range rounded, at least one tile, at most three unless it is a beam, one less in a slanted direction |
| `LightingMeaning.StepsMeaning` | `internal/aphelion/lighting/compute.go:165-179` | the centre passes open tiles only, and stops at its length or right before a blocked tile |
| `LightingMeaning.CarriedSources` | `internal/aphelion/lighting/compute.go:136-140` | directional overlays and beams with a direction are carried, and no other source |
| `LightingMeaning.DirectionMeaning` | `internal/aphelion/lighting/compute.go:165-168` | north is up, east is right, opposite directions cancel |
| `LightingMeaning.ComplexEmitter` | `internal/aphelion/lighting/compute.go:113-150` | a complex source shines with its own range up to the cap, its own power and angle, its shift clamped |
| `LightingMeaning.OverlayEmitter` | `internal/aphelion/lighting/compute.go:124-147` | an overlay: range rounded up to half tiles between 1 and 6, opacity from the power with its sign, beam angle, shift carried ahead and clamped |
| `LightingMeaning.EmitterFrame` | `internal/aphelion/lighting/compute.go:144-150` | nothing else of the source changes, and the view is the range plus the shift in whole tiles |
| `LightingMeaning.RoundFalloff` | `internal/aphelion/lighting/falloff.go:11-17` | without a cone the light falls linearly from 1 at the source to 0 at its range, one tile at least |
| `LightingMeaning.ConeFalloff` | `internal/aphelion/lighting/falloff.go:18-24` | in a cone full light up to half the angle, none from 30 degrees further on, linear in between |
| `LightingMeaning.DirAngleMeaning` | `internal/aphelion/lighting/falloff.go:18-24` | north is 0 degrees, north-east 45, a quarter turn clockwise 90 more |
| `LightingMeaning.DepositMeaning` | `internal/aphelion/lighting/compute.go:215-237` | every colour grows by falloff times power times the colour of the source |
| `LightingMeaning.StarMeaning` | `internal/aphelion/lighting/ambient.go:33-71` | exactly the space tiles next to a tile that is not space give off starlight, round and half a unit below the floor |
| `LightingMeaning.EdgeMeaning` | `internal/aphelion/lighting/edge.go:35-53` | exactly the emitting edge tiles next to a tile of another family, or of none, give off their light from their own place |
| `LightingMeaning.EdgeAtMeaning` | `internal/aphelion/lighting/edge.go:35-53` | the number stored for a tile counts the edge lights from 1; 0 and numbers beyond the list are no edge |
| `LightingCompute.Scratch.Cast` | `internal/aphelion/lighting/compute.go:269-311` | the recursive cast over the scratch stamps marks exactly the reference set of tiles |
| `LightingCompute.Scratch.VisibleCorners` | `internal/aphelion/lighting/compute.go:242-257` | the stamped corners are exactly the corners of the visible transparent tiles |
| `LightingCompute.Scratch.AddSource` | `internal/aphelion/lighting/compute.go:215-237` | exactly the lit corners of the region receive one deposit, every other corner keeps its value |
| `LightingCompute.Result.constructor` | `internal/aphelion/lighting/compute.go:30-34` | Compute leaves the full ordered fold at every corner |
| `LightingCompute.Result.Render` | `internal/aphelion/lighting/compute.go:68-88` | corners of the region get the fold of all sources that can reach them, in order; the others keep their values |
| `LightingCompute.Result.Update` | `internal/aphelion/lighting/compute.go:41-60` | recomputes exactly the region, or everything after a size change, and returns the number of corners |
| `LightingCompute.Result.UpdateAfterEdit` | `internal/aphelion/lighting/compute.go:36-60` | a result that was fresh for the old level is fresh for the edited one |
| `Runs.CountIsCardinality` | `internal/aphelion/editing/selection.go:72-83` | the summed heights of disjoint runs are the cardinality of the mask |
| `Runs.AppendRun` | `internal/aphelion/editing/shape.go:50-75` | appending a run in order keeps runs sorted, disjoint and maximal and adds exactly its cells |
| `SelectionModel.SearchRuns` | `internal/aphelion/editing/selection.go:84-103` | on canonical runs the binary search finds a run if and only if the cell is in the mask |
| `SelectionModel.Contains` | `internal/aphelion/editing/selection.go:84-103` | the three representations (rectangle, member map, runs) all decide the same set of points |
| `SelectionModel.LenIsCardinality` | `internal/aphelion/editing/selection.go:72-83` | Len is the number of selected tiles |
| `SelectionModel.MaskSelection` | `internal/aphelion/editing/selection.go:32-68` | an error exactly for a point off the map or on another level; otherwise exactly the points, tight bounds, canonical runs, duplicates dropped |
| `SelectionModel.Coordinates` | `internal/aphelion/editing/selection.go:104-132` | every selected tile exactly once |
| `SelectionModel.TranslateMembers` | `internal/aphelion/editing/selection.go:133-138` | a translated selection contains a point exactly when the original contains the point moved back |
| `CombineSelections.SweepColumn` | `internal/aphelion/editing/working_selection.go:46-122` | the counters of the sweep decide membership of every cell of a column, and its runs come out maximal |
| `CombineSelections.CombineSelection` | `internal/aphelion/editing/working_selection.go:46-122` | on one level exactly the union, difference or intersection; sorted maximal runs; count is the cardinality; bounds are tight; selections on different levels give back the first |
| `RotateSelections.SweepTurn` | `internal/aphelion/editing/selection_transform.go:14-71` | the event sweep yields exactly the quarter-turn image as canonical runs |
| `RotateSelections.TurnMeaning` | `internal/aphelion/editing/selection_transform.go:14-71` | a clockwise turn points up to the right and right down and takes the rectangle into the one of swapped sides |
| `RotateSelections.SelectionFromSortedSpans` | `internal/aphelion/editing/selection_transform.go:96-115` | no runs, a bad level or a run off the map give the empty selection; otherwise exactly the runs with tight bounds, counted |
| `RotateSelections.Rotate` | `internal/aphelion/editing/selection.go:153-162` | a placed selection: a cell is in the result exactly when its turned-back cell is in the source; a rectangle always becomes the rectangle of swapped sides, any other selection the run-based turn, empty when that leaves the map |
| `RotateSelections.TurnKeepsLen` | `internal/aphelion/editing/selection_transform.go:14-71` | a turn keeps the number of tiles |
| `RotateSelections.TurnedArea` | `internal/aphelion/editing/selection_transform.go:96-115` | the bounds of the turned selection are the turned tight box |
| `RotateSelections.FourTurnsIdentity` | `internal/aphelion/editing/selection_transform.go:14-71` | four turns give back the mask if and only if the gaps between the stored bounds and the mask are even; tight bounds always are |
| `RotateSelections.TurnBackIdentity` | `internal/aphelion/editing/selection_transform.go:14-71` | a turn and its inverse give back the mask under exactly the same condition |
| `Shapes.EllipseSpan` | `internal/aphelion/editing/shape.go:78-100` | for every non-negative estimate of the square root the rows returned are exactly those of the integer ellipse inequality |
| `Shapes.SpanIsExact` | `internal/aphelion/editing/shape.go:78-100` | the first inside row and its mirror image bound exactly the inside rows |
| `Shapes.EllipseMeaning` | `internal/aphelion/editing/shape.go:78-100` | the integer test is the equation of the ellipse in real numbers, at the centre of the cell |
| `Shapes.ShapeCells` | `internal/aphelion/editing/shape.go:11-76` | a circle is an ellipse in a square; a rectangle's outline is the cells closer to its edge than the thickness, an ellipse's outline what the thinner ellipse leaves free |
| `Shapes.ShapeSelection` | `internal/aphelion/editing/shape.go:30-76` | exactly the cells of the shape, the outline being the outer shape minus the inset one; the count is the cardinality; the error cases are exact |
| `Shapes.FlatEllipseDrifts` | `internal/aphelion/editing/shape.go:30-76` | a flat ellipse of even height has loose bounds, and four turns of it do not give it back |
| `AreaSelection.ClosedHoldsWalk` | `internal/aphelion/editing/area_selection.go:12-57` | a set closed under matching neighbours contains every matching walk that starts in it |
| `AreaSelection.FloodDone` | `internal/aphelion/editing/area_selection.go:12-57` | an exhausted flood has found exactly the tiles that a walk of single steps over tiles of the area reaches from the start |
| `AreaSelection.NeighboursAreSteps` | `internal/aphelion/editing/area_selection.go:40-55` | the tiles looked at are exactly those one step up, down, left or right |
| `AreaSelection.FloodFill` | `internal/aphelion/editing/area_selection.go:12-57` | the queue loop returns exactly the connected tiles |
| `AreaSelection.SelectAreaMask` | `internal/aphelion/editing/area_selection.go:12-57` | the selection is exactly the connected area, or all matching tiles; the error cases are exact |
| `Bitset.Mark` | `internal/aphelion/editing/area_query.go:58-64` | sets one member, reports whether it was there, leaves all others |
| `Bitset.ClearLowest` | `internal/aphelion/editing/area_query.go:82-138` | w & (w - 1) clears exactly the lowest set bit |
| `Bitset.TakeLowest` | `internal/aphelion/editing/area_query.go:82-138` | removes exactly the least member of the word |
| `AreaQuery.AppendPoint` | `internal/aphelion/editing/area_query.go:65-81` | appending the next tile in index order extends the last run or starts one, keeping runs maximal and bounds tight |
| `AreaQuery.FloodWork` | `internal/aphelion/editing/area_query.go:82-138` | one queued cell: it becomes selected, and exactly its unseen matching neighbours are marked and appended to the queue in order, nothing else changes |
| `AreaQuery.CollectWork` | `internal/aphelion/editing/area_query.go:82-138` | one extraction moves the least remaining cell from the bitset to the mask |
| `AreaQuery.FinishedMeaning` | `internal/aphelion/editing/area_query.go:82-138` | the mask of a finished traversal is the area |
| `AreaQuery.AreaSelectionQuery.Step` | `internal/aphelion/editing/area_query.go:82-138` | a step that is not done lowers the remaining work by its full limit; a step is done only with exactly the area, in canonical runs with tight bounds |
| `AreaQuery.NewAreaSelectionQuery` | `internal/aphelion/editing/area_query.go:38-56` | a traversal starts exactly for a start tile that exists and has an area, on a map within the dimension limit |
| `AreaQuery.RunSliced` | `internal/aphelion/editing/area_query.go:38-138` | for every slicing into positive limits the traversal terminates with exactly the area that the simple fill returns |
| `MoveJournal.Move.Acquire` | `internal/aphelion/editing/move.go:71-151` | captures exactly the missing destinations, or on a refusal releases everything it captured and leaves the journal as it was |
| `MoveJournal.Move.Draw` | `internal/aphelion/editing/move.go:71-151` | the map shows hidden contents plus moved contents on owned tiles and the original everywhere else; passed-over tiles are released |
| `MoveJournal.Move.Preview` | `internal/aphelion/editing/move.go:71-151` | on success, a repeated preview included, the map displays the move at the shift, the journal holds exactly the original contents of exactly the captured tiles, and the coordinates to redraw come row by row; it fails only when closed, off the map or refused a capture, and then nothing changes |
| `MoveJournal.Move.PreviewHome` | `internal/aphelion/editing/move.go:71-151` | a move dragged back to its source shows the original map |
| `MoveJournal.SiftedInOrder` | `internal/aphelion/editing/move.go:117-128` | the hidden and the visible part of a tile are exactly its hidden and visible instances, in place and order |
| `MoveJournal.ShownMeaning` | `internal/aphelion/editing/move.go:110-151` | instance by instance, what a preview shows of every tile: the original away from source and destinations, the hidden instances below the arriving visible ones on a destination, the hidden ones on a cleared source tile |
| `MoveJournal.StaysOnMapMeaning` | `internal/aphelion/editing/move.go:75-78` | the test of the two corners decides for every tile of the shifted area |
| `MoveJournal.Move.ReleaseRestored` | `internal/aphelion/editing/move.go:163-168` | one capture is released and its background dropped |
| `MoveJournal.Move.Restore` | `internal/aphelion/editing/move.go:170-178` | every journalled tile has its original contents again |
| `MoveJournal.Move.Finish` | `internal/aphelion/editing/move.go:191-208` | cancelling restores the whole map and leaves no capture outstanding; keeping closes the gesture and leaves the map |
| `MoveJournal.Move.TransformPlacement` | `internal/aphelion/editing/placement_transform.go:25-99` | a successful transform shows the transformed template with the same journal invariant; it fails only for a closed gesture, a target off the map, a prefab without a transformed form or a refused capture, and then template, preview and captures are as they were |
| `MoveJournal.InstancesTransformed` | `internal/aphelion/editing/placement_transform.go:45-80` | each instance is transformed where it stands and keeps its identity; it fails exactly for a prefab without a transformed form |
| `MoveJournal.TransformMeaning` | `internal/aphelion/editing/template_transform.go:42-61` | turning right points up to the right and right down, left the other way; the mirrors swap right with left or up with down |
| `MoveGestures.NewMaskMove` | `internal/aphelion/editing/move.go:38-64` | a move whose journal holds the selected tiles and whose source holds the map's contents of each; it fails only for bounds off the map or a refused capture, with every capture released |
| `MoveGestures.AreaOnMapMeaning` | `internal/aphelion/editing/move.go:38-50` | the test of the two corners decides for every tile of the area |
| `MoveGestures.CaptureSource` | `internal/aphelion/editing/move.go:38-64` | captures the contents of the source tiles one by one, undoing all of them on a refusal |
| `MoveGestures.NewPlacement` | `internal/aphelion/editing/placement.go:16-70` | owns the visible template relative to its box with the next identities in order, captures nothing, changes nothing; as long as identities can be made it fails exactly for a bad level, an empty, duplicate, off-level or oversized template |
| `MoveGestures.PastedIdsDistinct` | `internal/aphelion/editing/placement.go:38-58` | no two pasted instances, of one tile or of two, share an identity if the source of identities never repeats one |
| `MoveGestures.RunAndCancel` | `internal/aphelion/editing/move.go:71-208` | after every run of successful and failed previews and transforms, cancelling gives back the map and the captured states of the start |
| `MovePose.DestinationContains` | `internal/aphelion/editing/move_rotation.go:60-75` | true exactly when the point is the turned and shifted image of a selected tile on the level |
| `MovePose.SelectionMove.constructor` | `internal/aphelion/editing/move_payload.go:40-46` | on any nonempty whole-tile selection, with tight or loose bounds, the pose starts at the selection with its bounds |
| `MovePose.WholeTileBoundsMeaning` | `internal/aphelion/editing/move_payload.go:144-165` | the test of the bounds decides for every cell: there is one, and all have coordinates from 1 |
| `MovePose.SelectionMove.Update` | `internal/aphelion/editing/move_payload.go:48-61` | accepted exactly when the turned bounds stay on the map; the tracked bounds are the turned bounds plus the shift |
| `MovePose.SelectionMove.Rotate` | `internal/aphelion/editing/move_rotation.go:33-51` | accepted exactly when the next bounds stay on the map; the destination is the next pose, the selection itself after a full turn; a rejected turn changes nothing |
| `MovePose.SelectionMove.TightBounds` | `internal/aphelion/editing/move_rotation.go:19-51` | with tight bounds the tracked bounds are the turned bounds plus the shift |
| `MovePose.SelectionMove.PreviewAgrees` | `internal/aphelion/editing/move_rotation.go:27-75` | for every reachable pose of a selection whose bounds leave one gap on all sides, tight bounds included, the previewed mask, the payload test and the image of the source are the same set |
| `MovePose.HistoryPoses` | `internal/aphelion/editing/move_rotation.go:19-51` | from such bounds every history of turns in both directions leads to the pose that the payload expects |
| `MovePose.PoseAgreesExactly` | `internal/aphelion/editing/move_rotation.go:19-75` | preview and payload agree after every history of turns, clockwise, back and mixed, if and only if the four gaps between bounds and mask are equal |
| `MovePayloads.CompileMovePayload` | `internal/aphelion/editing/move_payload.go:79-165` | succeeds exactly when every selected tile is available and no visible identity repeats; captures exactly the visible contents of each selected tile once |
| `MovePayloads.RotateLocal` | `internal/aphelion/editing/move_rotation.go:79-142` | the per-turn loop computes the image under that many quarter turns of the area |
| `MovePayloads.Rotated` | `internal/aphelion/editing/move_rotation.go:79-142` | each captured tile appears once at its image with its identities; zero turns give the payload back; an error exactly when a prefab cannot be rotated |
| `MoveChanges.ValidateSource` | `internal/aphelion/editing/move_payload.go:326-360` | accepts exactly when every source tile still shows what was captured |
| `MoveChanges.LandedDistinct` | `internal/aphelion/editing/move_rotation.go:79-142` | different source tiles land on different tiles |
| `MoveChanges.BuildMoveChanges` | `internal/aphelion/editing/move_payload.go:234-305` | an error exactly for a level shift, a changed source, a missing tile or a tile that cannot be refilled; applying the changes gives exactly the composed and refilled map; only tiles of the source and destination union change, only if they differ, listed row by row |
| `MoveChanges.CommitAgreesWithPreview` | `internal/aphelion/editing/move_payload.go:234-305` | the destinations of the commit are exactly the tiles the destination test accepts |
| `MoveChanges.MoveMeaning` | `internal/aphelion/editing/move_payload.go:234-305` | in the composed map every tile keeps its hidden instances in place and order, every captured tile arrives once behind them, instance by instance in order, with its identities and its prefabs turned once per quarter turn, vacated sources keep only hidden instances, nothing else changes |
| `MoveChanges.MoveKeepsIdsUnique` | `internal/aphelion/editing/move_payload.go:234-324` | stable identities stay globally unique, also when source and destination overlap and tiles are refilled with new identities |
| `MoveChanges.RefillMeaning` | `internal/aphelion/editing/move_payload.go:306-324` | a refill adds exactly the missing area and turf behind the contents, nothing to a tile that has both, and fails exactly when an identity it needs cannot be drawn |
| `MoveChanges.RefillNeedsBase` | `internal/aphelion/editing/move_payload.go:306-310` | without a base area or a base turf no tile can be refilled |
| `MoveChanges.TouchedTilesHaveBase` | `internal/aphelion/editing/move_payload.go:279-300` | after a move with defaults every vacated and every received tile has an area and a turf, behind its composed contents |
| `Orientations.FoldIsSymmetry` | `internal/aphelion/editing/payload.go:120-139` | every keypress history folds to one of the eight symmetries |
| `Orientations.FindPath` | `internal/aphelion/editing/payload.go:141-168` | the search finds a path exactly for the eight symmetries, and the empty one exactly for the identity |
| `Orientations.Prepare` | `internal/aphelion/editing/payload.go:141-168` | fails only for a non-symmetry or an invalid template, and applies a history that folds to the orientation |
| `Orientations.TransformTemplate` | `internal/aphelion/editing/template_transform.go:17-96` | accepts exactly non-empty, positive, one-level templates without duplicates; every tile goes to its turned place; sorted by rows |
| `Orientations.HistoryPlaces` | `internal/aphelion/editing/template_transform.go:42-61` | after any non-empty history a tile is where the folded matrix puts it, moved to the lower corner (1, 1) |
| `Orientations.PrepareAgrees` | `internal/aphelion/editing/payload.go:141-168` | Prepare equals the step-by-step result if and only if the history is empty, does not return to the identity, or the lower corner is (1, 1) |
| `Orientations.TurnedBackMoves` | `internal/aphelion/editing/payload.go:141-168` | a tile at (2, 2) turned right and back: the keypresses move it to (1, 1), Prepare leaves it |
| `EraseStrokes.StrokeTileIsFloor` | `internal/aphelion/editing/erase_stroke.go:100-105` | for all integers the tile is the floor of pixel / size plus one |
| `EraseStrokes.TileAtMeaning` | `internal/aphelion/editing/erase_stroke.go:100-105` | the tile of a pixel, in both coordinates |
| `EraseStrokes.WalkStep` | `internal/aphelion/editing/erase_stroke.go:77-91` | the longer axis advances in every round, no axis overshoots, the error term stays within half a pixel |
| `EraseStrokes.EraseStroke.At` | `internal/aphelion/editing/erase_stroke.go:106-123` | the sampler is asked exactly about a pixel on a tile not processed before, its answer is logged, and only a blocked or failed answer stops the stroke |
| `EraseStrokes.EraseStroke.WalkTo` | `internal/aphelion/editing/erase_stroke.go:67-92` | a connected line of max(|dx|, |dy|) pixels within half a pixel of the ideal one, ending at the target; each pixel in turn is offered to the sampler unless its tile is processed, and the walk stops at the first pixel the sampler refuses |
| `EraseStrokes.EraseStroke.Sample` | `internal/aphelion/editing/erase_stroke.go:49-93` | the cases of a finished, first, level-changing, repeated and moving sample; every pixel of the line is sampled or lies on a processed tile, in walk order and no other, up to the error that ends the stroke |
| `ReuseCaches.ReuseCache.AcquireSection` | `internal/aphelion/mapping/reuse_cache.go:130-148` | a lease and a fresh clock tick on the entry of the key, nothing without one |
| `ReuseCaches.ReuseCache.ReleaseSection` | `internal/aphelion/mapping/reuse_cache.go:236-255` | one reference less; asks to close exactly an entry without owner |
| `ReuseCaches.ReuseCache.InvalidateSection` | `internal/aphelion/mapping/reuse_cache.go:215-234` | takes exactly this entry off the map and its bytes off the count |
| `ReuseCaches.ReuseCache.Victim` | `internal/aphelion/mapping/reuse_cache.go:257-282` | an entry with the least last use |
| `ReuseCaches.ReuseCache.Trim` | `internal/aphelion/mapping/reuse_cache.go:257-282` | gives up the least recently used entries and no more than needed; returns exactly the unleased ones for closing |
| `ReuseCaches.TrimOk` | `internal/aphelion/mapping/reuse_cache.go:178-213` | trimming restores both bounds and never gives up the entry used last |
| `ReuseCaches.WithinMeaning` | `internal/aphelion/mapping/reuse_cache.go:257-260` | the bounds are 32 sources and 256 MiB |
| `ReuseCaches.ReuseCache.PublishSection` | `internal/aphelion/mapping/reuse_cache.go:166-213` | borrows the entry that is there without touching the rest, or inserts and trims to the least recently used; the inserted entry is still there with one reference |
| `ReuseCaches.ReuseCache.EvictSection` | `internal/aphelion/mapping/reuse_cache.go:76-99` | gives up exactly the unleased entries and reports exactly their bytes |
| `ReuseCaches.ReuseCache.CloseSection` | `internal/aphelion/mapping/reuse_cache.go:103-128` | gives up every entry once; closes exactly the unleased ones |
| `ReuseCacheRuns.StepOk` | `internal/aphelion/mapping/reuse_cache.go:76-282` | every step of every thread keeps the accounting: references are outstanding leases, closes happen once, bytes are exact, bounds hold |
| `ReuseCacheRuns.RunsAreSafe` | `internal/aphelion/mapping/reuse_cache.go:76-282` | in every world any interleaving reaches: references equal outstanding leases, a leased, checked or retained source is neither closed nor scheduled to be, no source is closed twice, the byte count is exact and both bounds hold |
| `ReuseCacheRuns.NothingLeaks` | `internal/aphelion/mapping/reuse_cache.go:101-128` | after Close, with all leases released and all scheduled closes run, every cached source was closed exactly once |
| `ReuseCacheRuns.PublishKeepsItsEntry` | `internal/aphelion/mapping/reuse_cache.go:201-211` | the publishing step never evicts the entry it just inserted and leaves both bounds satisfied |
| `ReuseCacheRuns.InvalidateOk` | `internal/aphelion/mapping/reuse_cache.go:150-159` | invalidating under one's own lease never schedules a close |
| `ReuseCacheRuns.TrimExists` | `internal/aphelion/mapping/reuse_cache.go:257-282` | trimming always has a result |
| `ReuseCacheRuns.NeverStuck` | `internal/aphelion/mapping/reuse_cache.go:130-213` | a thread between two sections can always take its next step |
| `ConfigWriter.Writer.Submit` | `internal/aphelion/configstore/store.go:58-70` | accepted exactly before Close; then the newest snapshot of the path is pending and a wake-up waits |
| `ConfigWriter.Writer.CloseSection` | `internal/aphelion/configstore/store.go:72-81` | closed, with a wake-up waiting |
| `ConfigWriter.Writer.Detach` | `internal/aphelion/configstore/store.go:83-90` | the worker takes all pending snapshots and learns whether the writer was closed |
| `ConfigWriter.HandledMeaning` | `internal/aphelion/configstore/store.go:92-111` | a file is left alone exactly when the worker was the last to write this snapshot and still reads it from the file; otherwise it is written, and remembered only if that succeeds |
| `ConfigWriter.ReachableInv` | `internal/aphelion/configstore/store.go:58-111` | in every reachable world: pending work has a wake-up or an awake worker; the last accepted snapshot of a path is pending, in the batch or dealt with; untouched written files hold what was written |
| `ConfigWriter.LastSnapshotWins` | `internal/aphelion/configstore/store.go:58-111` | in every interleaving, when the worker is done the last accepted snapshot of each path is the last one attempted or skipped, and is on disk unless the write failed or another process wrote |
| `ConfigWriter.WorkerCanStep` | `internal/aphelion/configstore/store.go:58-111` | no wake-up is lost: with pending work or a waiting Close the worker can step |
| `ConfigWriter.CloseReturns` | `internal/aphelion/configstore/store.go:72-111` | after Close every worker step lowers a count that no other step raises, and it is zero exactly when the worker is done |
| `MapLint.SameAtomIsEquality` | `internal/aphelion/maplint/report.go:63-73` | the one-sided comparison is equality |
| `MapLint.NewViolations` | `internal/aphelion/maplint/report.go:77-107` | exactly the violations, in order, by which a key occurs more often than before; when no rule is named with a NUL, every file, rule and message is reported as often as it occurs more often than before |
| `MapLint.KeyTellsProblem` | `internal/aphelion/maplint/report.go:105-107` | two keys are equal if and only if file, rule and message are, as long as file and rule contain no NUL |
| `MapLint.ProblemsFollowKeys` | `internal/aphelion/maplint/report.go:77-107` | inclusion and excess of keys are inclusion and excess of problems |
| `MapLint.NoNewViolations` | `internal/aphelion/maplint/report.go:77-107` | no new violation is reported if and only if the keys after are included, with multiplicity, in those before |
| `TileFixer.Promote` | `internal/aphelion/maplint/fix.go:334-397` | a subtype is chosen if and only if exactly one eligible candidate has the fewest differences |
| `TileFixer.CandidatesFor` | `internal/aphelion/maplint/fix.go:212-328` | exactly the removals and rewrites that the violation and the enabled kinds allow, in the order in which the code proposes them |
| `TileFixer.Improve` | `internal/aphelion/maplint/fix.go:200-210` | the first candidate that validates, of the first violation that has one; none only if no violation has a candidate that validates |
| `TileFixer.PickedOnce` | `internal/aphelion/maplint/fix.go:200-210` | there is one candidate it can return |
| `TileFixMeaning.PromotionMeaning` | `internal/aphelion/maplint/fix.go:334-397` | a promotion takes the one type that has the banned values itself and differs least; every edit keeps its effect, the banned edits are gone, none is added |
| `TileFixMeaning.NoPromotionMeaning` | `internal/aphelion/maplint/fix.go:334-397` | without a promotion every type that could stand in is tied or beaten by another |
| `TileFixMeaning.CandidatesMeaning` | `internal/aphelion/maplint/fix.go:402-416` | the candidates are the subtypes and, for a directional helper, the other helpers of its family |
| `TileFixMeaning.RewriteMeaning` | `internal/aphelion/maplint/fix.go:237-318` | a rewritten atom keeps its type unless promoted and changes only what the violation complains of: a text becomes one of its variants, a stripped variable is gone, a light value passes to its bulb variable |
| `TileFixMeaning.RemovalMeaning` | `internal/aphelion/maplint/fix.go:212-236` | an atom is removed as the later of two alike, as an unedited one with a subtype beside it, or as banned; a turf or area only for the first reason |
| `TileFixMeaning.WithoutMeaning` | `internal/aphelion/maplint/fix.go:181-186` | all atoms but one stay, in order, each with its source |
| `TileFixMeaning.CollapseMeaning` | `internal/aphelion/maplint/fix.go:321-332` | the rewritten atom takes the place of the old one, unless its equal stands elsewhere and duplicates may go |
| `TileFixMeaning.CandidateRecords` | `internal/aphelion/maplint/fix.go:212-216` | every candidate records enabled kinds under the rule and file of the violation |
| `TileFixRuns.StepShape` | `internal/aphelion/maplint/fix.go:181-192` | a candidate removes one atom with its index or rewrites one in place |
| `TileFixRuns.RunNeverRegresses` | `internal/aphelion/maplint/fix.go:152-174` | over every run the final violation keys are included in the initial ones and each step removes at least one violation |
| `TileFixRuns.RunTradesNothing` | `internal/aphelion/maplint/fix.go:152-155` | no run trades one problem for another: no file, rule and message occurs more often at its end than at its start |
| `TileFixRuns.RunIsUnique` | `internal/aphelion/maplint/fix.go:152-174` | a tile has one run of each length |
| `TileFixRuns.RunIsTraced` | `internal/aphelion/maplint/fix.go:134-142` | source indices stay strictly increasing and each atom is what became of the input atom its index names: same path without promotion, same root always |
| `TileFixRuns.RunKeepsRoots` | `internal/aphelion/maplint/fix.go:510-514` | a tile that had a turf or an area still has one, when Subtypes lists descendants only |
| `TileFixRuns.PromotedWithin` | `internal/aphelion/maplint/fix.go:402-416` | subtypes and directional siblings of a turf or area are turfs or areas |
| `TileFixRuns.FixTile` | `internal/aphelion/maplint/fix.go:156-174` | terminates with the violation count as measure; no problem occurs more often than before, fewer remain after a change; the recorded fixes are those of the picked candidates in order; indices increase; turf and area stay; it ends clean, stuck or at the step limit |
| `TileFixRuns.FewViolationsFinish` | `internal/aphelion/maplint/fix.go:163-172` | with no more violations than the limit allows steps a run that reaches the limit is clean |
| `TileFixRuns.LimitIsExact` | `internal/aphelion/maplint/fix.go:163-172` | for every number of atoms and violations: a tile with that many can be cut short if and only if it has more than 4 * atoms + 16 violations |
| `TileFixRuns.FixEdited` | `internal/aphelion/maplint/fix.go:156-174` | on a tile of n atoms with v > 4 * n + 16 banned edits FixTile ends with exactly v - (4 * n + 16) violations that it could still fix |
| `Composition.ApplyCell` | `internal/aphelion/mapping/compose.go:73-86` | per channel: objects are those of the base followed by the incoming ones; the turf, and likewise the area, are those of the base unless a real one comes in, and then the last that comes in |
| `Composition.DropTaggedMeaning` | `internal/aphelion/mapping/compose.go:79-84` | dropping a channel drops its contributors and no others |
| `Composition.TagAllMeaning` | `internal/aphelion/mapping/compose.go:246-267` | the two separate updates of atoms and provenance equal one update of atoms tagged with their contributor |
| `ComposeBoard.Reserve` | `internal/aphelion/mapping/compose.go:140-157` | a point is reserved by the last fixed template that puts a real turf on it |
| `ComposeBoard.LayBase` | `internal/aphelion/mapping/compose.go:166-187` | unreserved cells hold the base atoms, reserved ones nothing, with matching provenance |
| `Compose.ApplyTemplate` | `internal/aphelion/mapping/compose.go:205-272` | lays exactly the longest beginning of the template that the cell budget has room for, over exactly the cells on the map that no reservation blocks; an error if and only if the atoms it lays exceed the atom budget; atoms and provenance stay in step |
| `Compose.ExpandOne` | `internal/aphelion/mapping/compose.go:273-352` | takes the first root of the queue, places exactly the module it resolves to, with the choice remembered, queues the roots of that module with the ancestry extended, and fails exactly when the atom budget is exceeded |
| `Compose.Expand` | `internal/aphelion/mapping/compose.go:273-352` | visits exactly the discovered roots in breadth-first order until none is left or 4096 are visited; fails exactly when the templates placed exceed the atom budget |
| `Compose.ComposeAll` | `internal/aphelion/mapping/compose.go:91-366` | it fails if and only if the templates lay more than 4,000,000 atoms, all modules of the complete expansion counted or already too many; otherwise the recorded roots are all discovered ones up to 4096, the placements those of exactly the roots that resolve, every cell holds exactly its authored content, atoms match provenance, and each record says whether it is covered and what was kept out |
| `ComposeMeaning.CellIsStack` | `internal/aphelion/mapping/compose.go:188-272` | within the cell budget a cell is the base, unless reserved, with all welcome templates applied in order: fixed ones everywhere on the map, modules on unreserved points |
| `ComposeMeaning.TopmostShows` | `internal/aphelion/mapping/compose.go:73-86` | the topmost template on a point shows: its last solid turf and area are the only ones, its solid objects lie on top |
| `ComposeMeaning.ReservedIsFixed` | `internal/aphelion/mapping/compose.go:166-187` | on a reserved point every atom was brought by a fixed template |
| `ComposeMeaning.ReservedMeaning` | `internal/aphelion/mapping/compose.go:140-157` | a point of the map is reserved by the last fixed template that brings a real turf to it, and by none otherwise |
| `ComposeMeaning.TraceMeaning` | `internal/aphelion/mapping/compose.go:205-235` | a point counts as covered exactly when a welcome template has a cell for it, transparent or not, and remembers exactly the contributions that a reservation kept out |
| `ComposeChoices.UnpinnedRoot` | `internal/aphelion/mapping/compose.go:281-333` | a root without a pin gets its first candidate, exactly when that loads and anchors and the root is free, not excluded, not too deep and not inside itself |
| `ComposeChoices.PinnedRoot` | `internal/aphelion/mapping/compose.go:291-333` | a pinned root gets exactly the pinned candidate, unless the pin is stale |
| `ComposeChoices.BindingTells` | `internal/aphelion/mapping/compose.go:284-284` | bindings are equal exactly for one room of one configuration |
| `ComposeChoices.BaseRootsFound` | `internal/aphelion/mapping/compose.go:188-200` | every root of the base is found |
| `ComposeChoices.ModuleRootsFound` | `internal/aphelion/mapping/compose.go:338-352` | below 4096 roots every root of a placed module is found, with the bindings on the way to it |
| `ComposeChoices.ComposingAgain` | `internal/aphelion/mapping/compose.go:317-325` | composing again with the refreshed choices visits the same roots, places the same modules and changes no choice |
| `ComposeChoices.ComposedLayersOk` | `internal/aphelion/mapping/compose.go:353-360` | the modules and fixed templates of every composition are layers of the kind that the statements about cells speak of |
| `Compose.AncestryIsBounded` | `internal/aphelion/mapping/compose.go:273-352` | every placed module has its root in the base or in a module placed earlier, and the bindings from the base down to it are at most 32 and none repeats |
| `Compose.CompleteIsUnique` | `internal/aphelion/mapping/compose.go:273-352` | a request determines the visited roots and their order |
| `Compose.ProvenanceInStep` | `internal/aphelion/mapping/compose.go:158-187` | object atoms and recorded contributors correspond one to one in order, turf and area name the contributor of the last such atom, contributors are real, reserved cells hold only fixed-template atoms |
| `FilterPolicy.EndsSoon` | `internal/aphelion/filterprofiles/profile.go:400-403` | an ancestry that ends has at most one type more than there are declared parents |
| `FilterPolicy.GroundedResolves` | `internal/aphelion/filterprofiles/profile.go:395-413` | a type whose ancestry ends never raises the cycle error, whatever the rules |
| `FilterPolicy.CycleErrorIsExact` | `internal/aphelion/filterprofiles/profile.go:400-403` | without rules the error is raised if and only if the ancestry never ends |
| `FilterPolicy.LineageDecides` | `internal/aphelion/filterprofiles/profile.go:395-413` | along every ending lineage of declared parents the exact rule decides, else the nearest subtree rule, else the default |
| `FilterProfiles.ValidateRules` | `internal/aphelion/filterprofiles/profile.go:124-140` | accepts exactly valid paths without a repeated path and scope |
| `FilterProfiles.ValidPathMeaning` | `internal/aphelion/filterprofiles/profile.go:124-140` | 1 to 1024 characters, a slash first, no two slashes next to each other |
| `FilterProfiles.Resolve` | `internal/aphelion/filterprofiles/profile.go:400-408` | the loop finds the nearest subtree rule up the ancestry, the default, or a cycle |
| `FilterProfiles.Compile` | `internal/aphelion/filterprofiles/profile.go:346-435` | an error exactly for invalid rules or a cycle; otherwise exactly the hidden types, absent ones first and sorted |
| `FilterProfiles.CompilesAgree` | `internal/aphelion/filterprofiles/profile.go:346-435` | policies that agree on every path and scope give the same hidden paths in the same order, or both fail |
| `FilterProfiles.MergeOverrides` | `internal/aphelion/filterprofiles/profile.go:437-467` | fails exactly for an invalid name or path; otherwise the merged profile alone says what the profile with its overrides says, in byte order of the paths, exact rules first, without repeats |
| `FilterProfiles.StringLeMeaning` | `internal/aphelion/filterprofiles/profile.go:457-462` | the order of strings is byte order: at the first difference one ends or has the smaller character |
| `FilterProfiles.SaveKeepsMeaning` | `internal/aphelion/filterprofiles/profile.go:437-467` | for every catalogue, the saved profile compiles to what the profile with its overrides says, also where saving repairs repeated rules; without repeats to the same hidden paths or the same error as before |
| `FilterSession.SetRule` | `internal/aphelion/filterprofiles/profile.go:478-486` | changes the answer for one path and scope and for no other |
| `FilterSession.Supersede` | `internal/aphelion/filterprofiles/profile.go:488-506` | drops temporary rules at or below the path and overrides exactly the contradicting profile rules there |
| `FilterSession.ToggleIsExact` | `internal/aphelion/filterprofiles/profile.go:595-620` | with path parents, every catalogued type at or below the path is shown as requested and no other changes |
| `FilterSession.ExactIsExact` | `internal/aphelion/filterprofiles/profile.go:595-620` | an exact rule changes its own type only |
| `FilterSession.Session.SetVisibility` | `internal/aphelion/filterprofiles/profile.go:595-620` | the hidden paths change exactly as requested, whatever rules came before, and of every path that the project lacks it is said whether it is listed; an error changes nothing |
| `FilterSession.Session.Apply` | `internal/aphelion/filterprofiles/profile.go:579-593` | succeeds exactly for a named profile with valid rules under which no catalogued type raises the cycle error; then the new profile alone decides, otherwise nothing changes |
| `FilterSession.Session.ShowAll` | `internal/aphelion/filterprofiles/profile.go:622-639` | succeeds exactly when no catalogued type raises the cycle error; then the profile is replaced and nothing is hidden, otherwise nothing changes |
| `Sorting.Search` | `internal/aphelion/editing/selection.go:84-103` | the least index at which a monotone test holds |

## Left out

- Floating-point rounding: lighting ranges, shifts, slopes and the falloff are reals, and square root and bearing are parameters.
- LightingTypes.MaxRange: NaN and negative infinity become 16, as in the code; an accepted positive infinite maximum range, for which the redrawn region is not a finite rectangle and whose conversion to an integer depends on the platform, is not modelled. Infinite source ranges and powers are rejected as in the code.
- LightingFalloff.CodeIsExact: asks for a light height of at least -1.25, so that the rim of every view is dark; the code sets -0.5 for starlight and 1 by default.
- The wrap-around of the `uint32` scratch generation and of the `uint64` cache clock.
- Prefab variable rewriting in `rotatePrefab` and `mirrorPrefab`: a partial function on prefabs that keeps the instance's identity.
- Context cancellation and memory leases of the payload and composition builders: early returns that publish nothing.
- Absent callbacks of a move (nil release or regenerate): they are always present and release always succeeds.
- LightingIncremental.UpdateEqualsCompute: requires the casts to fit what the deposit sees and the order of untouched sources to be kept; the first condition is exact.
- MovePose.SelectionMove.PreviewAgrees: for bounds with unequal gaps no agreement is promised, because there is none (`PoseAgreesExactly`).
- `model.NewStableID`: the identity drawn for a tile and a base path is a parameter that may fail; uniqueness asks that it never repeats one.
- FilterSession.Session.SetVisibility: the subtree claim requires declared parents to be the path parents, as the source documents for its catalogue.
- Whether a profile's ID and name are acceptable is a flag, and rule scopes other than exact and subtree do not exist in the model; warnings, history and descendant counts of a session are not modelled.
- TileFixer.Promote: `differingVars`, `isAbstract`, `sameValue` and the title-casing of names are functions of the environment; the texts of accepted fixes are not modelled.
- The rule evaluator of the linter (`maplint/eval.go`): any function from tiles to violations; keeping turf and area relies on identical-neighbour violations naming two atoms with the same path.
- ComposeMeaning.CellIsStack: speaks of compositions within the cell budget; beyond it a template ends early, which `Compose.ApplyTemplate` states exactly.
- Diagnostics, pins that match nothing, hashes and the encoding of a finished composition; roots, loading and anchoring are functions of the catalogue.
- The configuration half of the source cache (`cachedConfig`, `publishConfig`) and its hit counters: the same eviction loop without leases.
- The JSON check and the temporary file of `configstore.Write`: one write that succeeds or leaves the file as it was.
- `ShapeStroke`, `mirrorSelectionSpans` and `WorkingSelection` histories: variations of the modelled sweeps.
- User interface, rendering, collaboration and file formats.
