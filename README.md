# Region counter with movable regions

This project models the counting session shared by the two tracking scripts
`count3.py` and `count2.py`. A detector-tracker yields, frame by frame, boxes
that each carry a persistent track id. The session keeps four things:

- the list of counting regions, each a named polygon with a running count,
  a dragging flag and a drag anchor;
- the "current region", which refers to one entry of that list;
- each track id's trail of recent box centres, at most 30 points long;
- the device the detector was placed on.

Every frame, each detection's centre is appended to its track's trail, and
every region whose polygon contains the centre counts it once. The display
window's mouse callback lets the user drag a region with the left button:

- a press grabs the regions under the pointer;
- a move translates the grabbed region;
- a release drops it.

The model is organised as follows:

- `Geometry` holds points, polygons, translation and an exact even-odd
  point-in-polygon test.
- `Trajectory` is the bounded per-track trail.
- `Session` states what each input does, as functions on an immutable
  `State`.
- `SessionLemmas` proves properties of whole runs.
- `Engine.RegionCounter` is the mutable session object. Its fields are an
  array of region records, the current-region index and the trail map. Its
  methods update them in place with the scripts' loops, and each method is
  proved to have exactly the effect the matching `Session` function
  prescribes.
- `Count3` and `Count2` hold what differs between the scripts: the mouse
  callback, the main loop and device placement.

Three facts about the code shape the model:

- **A press flags every containing region.** The press loop has no early
  exit. The current region becomes the *last* region that contains the
  pointer, and every containing region is flagged as dragging. A release
  clears only the current region's flag, so where regions overlap the others
  keep a stale flag. `SessionLemmas.OverlappingPressLeavesStaleFlag`
  exhibits this on the start-up regions.
- **Counts are per detection, not per object.** Neither script deduplicates
  counts per object. Both count every detection in every frame, so an object
  that stays inside a region for N frames adds N to its count.
- **Boundary points.** Both scripts use the geometry library's containment
  test, which excludes points on a polygon's boundary. The model's exact
  even-odd test includes some boundary points (see "## Left out").

In `count2.py`, the callback declares the current region global, but the
script never binds it. A pointer move or a button release before the first
successful press raises a name-lookup error. The error is raised before
anything changes. The OpenCV Python binding reports an error raised in a
mouse callback and goes on delivering events, so `Count2.Run2` counts these
errors and carries on.

## Model

| member | source | states |
|---|---|---|
| Session.Initial | count3.py:15-35 | At start-up the invariant holds, there are two regions, every count is 0, no region is dragging, there is no current region and there are no trails. The start-up regions of `count2.py` (lines 17-34) are the same. |
| Engine.RegionCounter.constructor | count3.py:11-35 | The new session object holds exactly the start-up state, in a freshly allocated region array that no other object shares. |
| Session.LastContaining | count3.py:40-42 | The result is a region that contains the point, and no later region contains it. When the result is none, no region contains the point. |
| Session.Press | count3.py:39-45 | Every containing region's record is its old record with only the dragging flag set and the anchor moved to the pointer; name, polygon, colour and count are kept. Every other region is unchanged. The current region contains the point and is at or after every containing region, so it is the last one. A press that hits nothing changes nothing. Drag consistency and the session invariant are preserved. `count2.py` has the same press loop (lines 39-45). |
| Engine.RegionCounter.Press | count3.py:39-45 | The in-place loop over the region array leaves the session exactly as `Session.Press` prescribes, and the invariant holds. |
| SessionLemmas.PressGrabsLastContaining | count3.py:40-45 | If region i contains the point and no later region does, a press makes i current, flags it as dragging and anchors it at the point. |
| Session.Move | count3.py:46-54 | If the current region is dragging, its record is its old record with only the polygon translated by the pointer's displacement from the anchor, with the vertex count kept, and the anchor moved to the pointer. No other region changes. Names, counts, flags, the current index and the trails are kept. If the current region is not dragging, the move changes nothing. |
| Engine.RegionCounter.PressSlot | count3.py:41-45 | One pass of the press loop: the region, if it contains the pointer, becomes current and is flagged and anchored; the current index is otherwise kept, and every other slot is unchanged. |
| Engine.RegionCounter.Move | count3.py:46-54 | The in-place update of the current region's record equals `Session.Move`, and the invariant holds. |
| Geometry.Translate | count3.py:50-52 | The translated polygon has as many vertices as the original. |
| Geometry.ContainsTranslate | count3.py:50-52 | Translating a polygon and a point by the same vector keeps the point inside exactly when it was inside before. |
| Geometry.TranslateCompose | count3.py:48-53 | Two successive translations equal one translation by the summed vector. |
| Geometry.TranslateInverse | count3.py:48-53 | Translating by a vector and then by its negation restores the polygon exactly. |
| Session.Release | count3.py:55-57 | Afterwards no current region is dragging. Only the current region's flag is cleared, and all else is kept. |
| Engine.RegionCounter.Release | count3.py:55-57 | The in-place flag update equals `Session.Release`, and the invariant holds. |
| SessionLemmas.ReleaseIdempotent | count3.py:55-57 | A second release changes nothing. |
| Session.OnMouse | count3.py:37-57 | The callback dispatch preserves the invariant and never changes counts or trails. Once a region is current, one always stays current. |
| Count3.MouseCallback | count3.py:37-57 | The callback on the session object leaves it in the state `Session.OnMouse` prescribes. |
| SessionLemmas.DraggedTwice | count3.py:48-53 | Two successive drag steps of a region equal one drag from the first anchor to the last pointer position. |
| SessionLemmas.DragTelescopes | count3.py:46-54 | From a dragging current region anchored at o, any nonempty run of moves ends with the region translated by the last position minus o. Nothing else changes. |
| SessionLemmas.PressThenDrag | count3.py:39-54 | A press at p inside region i, with no later region containing p, followed by moves ending at q, ends in the pressed state with region i translated by q - p. |
| SessionLemmas.DragMovesOnlyGrabbed | count3.py:39-54 | After a press at p and moves ending at q, the grabbed polygon is the original translated by q - p. Every other polygon and every count is unchanged. |
| SessionLemmas.OverlappingPressLeavesStaleFlag | count3.py:15-57 | On the start-up regions, a press at (300, 300) makes the rectangle current and flags both regions. A release then leaves the pentagon flagged as dragging. |
| Session.Centre | count3.py:126 | The centre is equidistant from the box's two corners on each axis. |
| Trajectory.Push | count3.py:129-132 | The new trail ends with the new centre and stays within 30 points. It is the last 30 points of the old trail followed by the centre. `count2.py` updates trails the same way (lines 98-101). |
| Trajectory.PushLastN | count3.py:129-132 | Pushing onto the last 30 points of a history gives the last 30 points of the extended history. |
| Trajectory.Record | count3.py:129-132 | Recording a centre for one id pushes it onto that id's trail and leaves every other id's trail unchanged. Every trail stays within 30 points. |
| Geometry.Contains | count3.py:41 | The even-odd containment test used by the press loop and, on box centres, by the counting loop (line 139). A ring of fewer than three vertices contains no point. |
| Session.DetectionStep | count3.py:126-140 | One detection pushes its box centre onto its own track's trail and leaves every other trail unchanged. Each region's record is its old record with the count raised by one exactly when it contains the centre. The current region and the number of regions are kept. |
| Session.CountCentre | count3.py:138-140 | Each region containing the centre gains exactly one count, every other region keeps its count, and nothing but counts changes. |
| Engine.RegionCounter.CountCentre | count3.py:138-140 | The loop over the region array adds one to exactly the regions containing the centre, as `Session.CountCentre` prescribes. |
| Engine.RegionCounter.Detect | count3.py:124-140 | One detection's trail update and counting leave the object in the state `Session.DetectionStep` prescribes. |
| Session.ProcessDetections | count3.py:124-140 | One frame's detections change only counts and trails. No count decreases, and trails stay bounded. |
| SessionLemmas.FrameCounting | count3.py:124-140 | In one frame, each region's count rises by exactly the number of detections whose centre it contains. |
| SessionLemmas.FrameTrajectory | count3.py:124-132 | After one frame, each id's trail is the last 30 points of its old trail followed by that id's centres from the frame, in order. |
| Session.ProcessFrame | count3.py:117-140 | A frame without ids leaves the state unchanged. Otherwise only counts and trails change, counts do not decrease, and the invariant is preserved. |
| Engine.RegionCounter.ProcessFrame | count3.py:117-140 | The per-frame loop leaves the object in the state `Session.ProcessFrame` prescribes, and the invariant holds. `count2.py` has the same per-frame block (lines 87-107). |
| Session.Step | count3.py:109-140 | Any input preserves the invariant and the number of regions, and never lowers a count. |
| Session.Run | count3.py:109-140 | Over a whole run the invariant holds, the number of regions is kept, no count decreases, and a bound current region stays bound. |
| SessionLemmas.RunSnoc | count3.py:109-140 | A run extended by one input ends where one more step from the run's end leads. |
| Count3.Handle | count3.py:109-140 | One input handled on the object leaves it in the state `Session.Step` prescribes. |
| Count3.RunEvents | count3.py:109-140 | The main loop over frames and pointer events leaves the object in the state `Session.Run` prescribes. |
| Count3.RunScript | count3.py:11-140 | A whole session from start-up on a fresh object ends in the state `Session.Run` gives from the start-up state. |
| SessionLemmas.RunTrajectory | count3.py:109-132 | After any run, each id's trail is the last 30 points of its old trail followed by every centre seen for that id, in arrival order. |
| SessionLemmas.FramesCounting | count3.py:109-140 | Over a run of tracked frames, each region's count rises by exactly the number of detections, over all frames, whose centre it contains. |
| SessionLemmas.HitsSplit | count3.py:124-140 | A frame's count for a region is the number of one track's centres inside it plus the count of all other detections of the frame. |
| SessionLemmas.TotalHitsSplit | count3.py:109-140 | If one track's centre is inside a region exactly once in each of N frames, the region's count over those frames is N plus the count of the other detections. |
| SessionLemmas.StayingInsideAddsN | count3.py:109-140 | An object whose centre is inside a region once in each of N frames raises that region's count by exactly N, on top of what the frames' other detections add. |
| Count3.ResolveDevice | count3.py:74-75 | "auto" becomes "0" when a GPU is available and "cpu" otherwise. Every other setting is kept. |
| Count3.SelectDevice | count3.py:74-89 | The detector goes to the GPU "cuda:0" exactly when the setting is "auto" with a GPU available, or is "0", "cuda" or "cuda:0". Otherwise it goes to the CPU. |
| Count3.Place | count3.py:84-89 | The detector goes to a GPU exactly when the resolved setting is "0", "cuda" or "cuda:0", and that GPU is always "cuda:0". |
| Count3.NamedDeviceIgnoresAvailability | count3.py:74-89 | GPU availability matters only for "auto". |
| Count3.SecondGpuLandsOnCpu | count3.py:84-89 | "cuda:1" lands on the CPU even when a GPU is available. |
| Count2.Callback | count2.py:36-58 | The callback raises the name-lookup error exactly on a move or release while no region has ever been current. Otherwise it does what `Session.OnMouse` does. |
| Count2.MouseCallback | count2.py:36-58 | The callback on the session object reports the error in exactly those cases and then leaves the object unchanged. Otherwise it leaves the object in the callback's resulting state. |
| Count2.Step2 | count2.py:79-107 | Only a mouse move or release with no current region raises. Every other input has the effect of `Session.Step`. |
| Count2.Run2 | count2.py:79-113 | A run that goes on after a raising callback keeps the session invariant. |
| Count2.RunEvents | count2.py:79-113 | The main loop leaves the object in the state `Count2.Run2` prescribes, and returns the number of raised callbacks. |
| Count2.RunScript | count2.py:17-113 | A whole session from start-up on a fresh object ends in the trace `Count2.Run2` gives from the start-up state, with the number of raised callbacks. |
| Count2.RaiseIsNoOp | count2.py:47-58 | Where this script raises, the no-op branch of `count3.py` would leave the state unchanged too. |
| Count2.Run2State | count2.py:36-58 | Over any run, the session state is exactly what `Session.Run` gives. The errors change nothing. |
| Count2.Run2NoErrorsOnceBound | count2.py:36-58 | Once a region has been current, no callback raises again. |
| Count2.MoveBeforePressRaises | count2.py:36-49 | A pointer move as the first input after start-up raises. |
| Count2.Place | count2.py:67 | The detector goes to the GPU "cuda" exactly when the setting is "0". |
| Count2.OnlyZeroSelectsGpu | count2.py:60-67 | The default "cpu" goes to the CPU, and so do "auto" and "cuda". |

## Left out

- Video capture and writing, the display window, `waitKey` and the quit key are I/O. A run is modelled as a finite sequence of inputs: a frame's tracker result or a pointer event.
- The detector-tracker is a foreign model. Each frame's result is an input: either no ids, or boxes paired with track ids. Pairing with `zip` is taken as already done.
- Box labels, class ids, trail polylines, region outlines and the `int32` cast of trail points are used only for drawing and are not modelled. Region colours are carried but unused.
- Containment uses the geometry library, which is not part of this model. It is modelled as an exact even-odd ray-crossing test on the vertex ring. The two agree on points off the boundary. On boundary points they may disagree: the library's test excludes the boundary, while this test includes some boundary points.
- Box coordinates are floating-point tensors in the scripts. They are modelled as exact reals, so the trail's `float` conversion is the identity.
- Input-path checks, output-directory creation, command-line parsing and the final printout of counts are filesystem and CLI plumbing. So is the form-based launcher of `count2.py`.
- `test.py` only calls the detector and holds no session logic.
- Count3.SelectDevice: whether moving the detector to a GPU that is absent fails is the deep-learning library's behaviour, so it is not modelled.
- Count2.Run2: what the window library does with an error raised in the callback is assumed, not modelled: the error is reported and the next event is delivered.
- SessionLemmas.StayingInsideAddsN: covers runs of tracked frames only. Pointer events between the frames, which may drag the region away from the object, are not covered.
