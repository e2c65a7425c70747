/**
  The state of one region-counting session and what each input does to it,
  as functions on values. The session holds the ordered list of counting
  regions, the index of the region the pointer last grabbed (the "current
  region", which aliases one entry of that list) and the per-track trail
  history. Inputs are tracker results, one per video frame, and pointer
  events from the display window.

  The imperative session object in module Engine is proved to follow these
  functions step for step; the properties of a whole run are proved about
  them in module SessionLemmas.
 */
module Session {
  import opened Geometry
  import opened Trajectory

  datatype Option<T> = None | Some(value: T)

  /** A pointer position in window pixels, as the mouse callback receives it. */
  datatype Pixel = Pixel(x: int, y: int)

  function PointOf(p: Pixel): Point {
    Point(p.x as real, p.y as real)
  }

  /** A colour triple in the drawing library's channel order (rendering only). */
  datatype Bgr = Bgr(b: int, g: int, r: int)

  /**
    One counting region. `offset` is the drag anchor: the region record has
    no anchor until the first press inside it.
   */
  datatype Region = Region(
    name: string,
    polygon: Polygon,
    counts: nat,
    dragging: bool,
    offset: Option<Pixel>,
    regionColor: Bgr,
    textColor: Bgr)

  /** An axis-aligned bounding box (x1, y1) - (x2, y2) in pixels. */
  datatype Box = Box(x1: real, y1: real, x2: real, y2: real)

  /** A tracked object in one frame: its box and its persistent track id. */
  datatype Detection = Detection(box: Box, trackId: int)

  /** What the tracker yields for one frame: no ids at all, or boxes paired with ids. */
  datatype TrackerResult = NoIds | Tracked(detections: seq<Detection>)

  datatype MouseEvent =
    | LButtonDown(x: int, y: int)
    | MouseMove(x: int, y: int)
    | LButtonUp(x: int, y: int)
    | OtherMouseEvent

  datatype Event = Frame(result: TrackerResult) | Mouse(event: MouseEvent)

  datatype State = State(regions: seq<Region>, current: Option<nat>, history: History)

  /** Where the detector model is placed for inference: a named GPU device, or the CPU. */
  datatype Target = Gpu(name: string) | Cpu

  /** The current region, when there is one, is an entry of the list, and every region flagged as dragging has an anchor. */
  predicate DragConsistent(s: State) {
    && (s.current.Some? ==> s.current.value < |s.regions|)
    && (forall i | 0 <= i < |s.regions| :: s.regions[i].dragging ==> s.regions[i].offset.Some?)
  }

  /** The session invariant: drag bookkeeping is consistent, every region is a proper polygon, every trail is within its bound. */
  predicate Inv(s: State) {
    && DragConsistent(s)
    && (forall i | 0 <= i < |s.regions| :: |s.regions[i].polygon| >= 3)
    && Bounded(s.history)
  }

  function InitialRegions(): seq<Region> {
    [ Region("YOLOv8 Polygon Region",
             [Point(50.0, 80.0), Point(250.0, 20.0), Point(450.0, 80.0), Point(400.0, 350.0), Point(100.0, 350.0)],
             0, false, None, Bgr(255, 42, 4), Bgr(255, 255, 255)),
      Region("YOLOv8 Rectangle Region",
             [Point(200.0, 250.0), Point(440.0, 250.0), Point(440.0, 550.0), Point(200.0, 550.0)],
             0, false, None, Bgr(37, 255, 225), Bgr(0, 0, 0)) ]
  }

  /** The state at start-up: two regions with zero counts, none dragging, no current region, no trails. */
  function Initial(): (s: State)
    ensures Inv(s)
    ensures |s.regions| == 2 && s.current == None && s.history == map[]
    ensures forall i | 0 <= i < |s.regions| :: s.regions[i].counts == 0 && !s.regions[i].dragging
  {
    State(InitialRegions(), None, map[])
  }

  // ---------------------------------------------------------------- pointer

  function PressOne(r: Region, p: Pixel): Region {
    if Contains(r.polygon, PointOf(p)) then r.(dragging := true, offset := Some(p)) else r
  }

  /** The index of the last region in list order whose polygon contains pt, if any. */
  function LastContaining(rs: seq<Region>, pt: Point): (r: Option<nat>)
    ensures r.Some? ==> r.value < |rs| && Contains(rs[r.value].polygon, pt)
    ensures r.Some? ==> forall j | r.value < j < |rs| :: !Contains(rs[j].polygon, pt)
    ensures r.None? ==> forall j | 0 <= j < |rs| :: !Contains(rs[j].polygon, pt)
  {
    if rs == [] then None
    else if Contains(rs[|rs| - 1].polygon, pt) then Some(|rs| - 1)
    else LastContaining(rs[..|rs| - 1], pt)
  }

  /** The current region after a press: the last containing region, or the old one when the press hits nothing. */
  function PressCurrent(rs: seq<Region>, current: Option<nat>, pt: Point): Option<nat> {
    var hit := LastContaining(rs, pt);
    if hit.Some? then hit else current
  }

  /**
    Button press at (x, y): every region containing the point is flagged as
    dragging with its anchor set to the point, and the last of them becomes
    the current region.
   */
  function Press(s: State, x: int, y: int): (r: State)
    ensures |r.regions| == |s.regions| && r.history == s.history
    ensures forall i | 0 <= i < |s.regions| ::
      && r.regions[i].polygon == s.regions[i].polygon
      && r.regions[i].counts == s.regions[i].counts
      && (Contains(s.regions[i].polygon, PointOf(Pixel(x, y))) ==>
            r.regions[i] == s.regions[i].(dragging := true, offset := Some(Pixel(x, y))))
      && (!Contains(s.regions[i].polygon, PointOf(Pixel(x, y))) ==> r.regions[i] == s.regions[i])
    ensures forall i | 0 <= i < |s.regions| && Contains(s.regions[i].polygon, PointOf(Pixel(x, y))) ::
      && r.current.Some? && i <= r.current.value < |s.regions|
      && Contains(s.regions[r.current.value].polygon, PointOf(Pixel(x, y)))
    ensures (forall i | 0 <= i < |s.regions| :: !Contains(s.regions[i].polygon, PointOf(Pixel(x, y)))) ==> r == s
    ensures DragConsistent(s) ==> DragConsistent(r)
    ensures Inv(s) ==> Inv(r)
  {
    var p := Pixel(x, y);
    State(seq(|s.regions|, i requires 0 <= i < |s.regions| => PressOne(s.regions[i], p)),
          PressCurrent(s.regions, s.current, PointOf(p)),
          s.history)
  }

  /** Whether the current region exists and is flagged as dragging. */
  predicate Dragging(s: State) {
    s.current.Some? && s.current.value < |s.regions| && s.regions[s.current.value].dragging
  }

  /**
    Pointer move to (x, y): when the current region is dragging, its polygon
    is translated by the pointer's displacement from the anchor and the
    anchor moves to (x, y). Nothing else changes; without a dragging current
    region the move changes nothing at all.
   */
  function Move(s: State, x: int, y: int): (r: State)
    requires DragConsistent(s)
    ensures DragConsistent(r) && (Inv(s) ==> Inv(r))
    ensures r.current == s.current && r.history == s.history && |r.regions| == |s.regions|
    ensures forall i | 0 <= i < |s.regions| && s.current != Some(i) :: r.regions[i] == s.regions[i]
    ensures forall i | 0 <= i < |s.regions| ::
      && r.regions[i].name == s.regions[i].name
      && r.regions[i].counts == s.regions[i].counts
      && r.regions[i].dragging == s.regions[i].dragging
      && |r.regions[i].polygon| == |s.regions[i].polygon|
    ensures Dragging(s) ==>
      var i := s.current.value;
      var o := s.regions[i].offset.value;
      r.regions[i] == s.regions[i].(
        polygon := Translate(s.regions[i].polygon, (x - o.x) as real, (y - o.y) as real),
        offset := Some(Pixel(x, y)))
    ensures !Dragging(s) ==> r == s
  {
    if Dragging(s) then
      var i := s.current.value;
      var reg := s.regions[i];
      var dx := x - reg.offset.value.x;
      var dy := y - reg.offset.value.y;
      s.(regions := s.regions[i := reg.(polygon := Translate(reg.polygon, dx as real, dy as real),
                                        offset := Some(Pixel(x, y)))])
    else s
  }

  /** Button release: clears the dragging flag of the current region, and of no other region. */
  function Release(s: State): (r: State)
    requires DragConsistent(s)
    ensures DragConsistent(r) && (Inv(s) ==> Inv(r))
    ensures !Dragging(r)
    ensures r.current == s.current && r.history == s.history && |r.regions| == |s.regions|
    ensures forall i | 0 <= i < |s.regions| && s.current != Some(i) :: r.regions[i] == s.regions[i]
    ensures s.current.Some? && s.current.value < |s.regions| ==>
      r.regions[s.current.value] == s.regions[s.current.value].(dragging := false)
  {
    if Dragging(s) then
      var i := s.current.value;
      s.(regions := s.regions[i := s.regions[i].(dragging := false)])
    else s
  }

  /** The mouse callback: dispatch on the event kind; any other kind of event is ignored. */
  function OnMouse(s: State, e: MouseEvent): (r: State)
    requires DragConsistent(s)
    ensures DragConsistent(r) && (Inv(s) ==> Inv(r))
    ensures |r.regions| == |s.regions| && r.history == s.history
    ensures forall i | 0 <= i < |s.regions| :: r.regions[i].counts == s.regions[i].counts
    ensures s.current.Some? ==> r.current.Some?
  {
    match e
    case LButtonDown(x, y) => Press(s, x, y)
    case MouseMove(x, y) => Move(s, x, y)
    case LButtonUp(_, _) => Release(s)
    case OtherMouseEvent => s
  }

  // --------------------------------------------------------------- counting

  /** The centre of a box: the point equidistant from its two corners on each axis. */
  function Centre(b: Box): (c: Point)
    ensures c.x - b.x1 == b.x2 - c.x && c.y - b.y1 == b.y2 - c.y
  {
    Point((b.x1 + b.x2) / 2.0, (b.y1 + b.y2) / 2.0)
  }

  function CountOne(r: Region, c: Point): Region {
    if Contains(r.polygon, c) then r.(counts := r.counts + 1) else r
  }

  /** Adds one to the count of every region whose polygon contains c. */
  function CountCentre(rs: seq<Region>, c: Point): (r: seq<Region>)
    ensures |r| == |rs|
    ensures forall i | 0 <= i < |rs| ::
      && r[i] == rs[i].(counts := r[i].counts)
      && r[i].counts == rs[i].counts + (if Contains(rs[i].polygon, c) then 1 else 0)
  {
    seq(|rs|, i requires 0 <= i < |rs| => CountOne(rs[i], c))
  }

  /**
    One detection: its centre is pushed onto its own track's trail, every
    other trail is kept, and every region containing the centre gains one
    count; nothing else changes.
   */
  function DetectionStep(s: State, d: Detection): (r: State)
    ensures r.current == s.current && |r.regions| == |s.regions|
    ensures Get(r.history, d.trackId) == Push(Get(s.history, d.trackId), Centre(d.box))
    ensures forall t | t != d.trackId :: Get(r.history, t) == Get(s.history, t)
    ensures forall i | 0 <= i < |s.regions| ::
      r.regions[i] == s.regions[i].(counts := s.regions[i].counts + if Contains(s.regions[i].polygon, Centre(d.box)) then 1 else 0)
  {
    var c := Centre(d.box);
    s.(history := Record(s.history, d.trackId, c), regions := CountCentre(s.regions, c))
  }

  /**
    The detections of one frame, in the tracker's order. Only counts and
    trails change; polygons, flags, anchors and the current region do not,
    and no count goes down.
   */
  function ProcessDetections(s: State, ds: seq<Detection>): (r: State)
    ensures r.current == s.current && |r.regions| == |s.regions|
    ensures forall i | 0 <= i < |s.regions| ::
      && r.regions[i] == s.regions[i].(counts := r.regions[i].counts)
      && r.regions[i].counts >= s.regions[i].counts
    ensures Bounded(s.history) ==> Bounded(r.history)
    decreases |ds|
  {
    if ds == [] then s
    else DetectionStep(ProcessDetections(s, ds[..|ds| - 1]), ds[|ds| - 1])
  }

  /** One frame: a frame whose tracker result has no ids is skipped entirely. */
  function ProcessFrame(s: State, res: TrackerResult): (r: State)
    ensures res.NoIds? ==> r == s
    ensures r.current == s.current && |r.regions| == |s.regions|
    ensures forall i | 0 <= i < |s.regions| ::
      && r.regions[i] == s.regions[i].(counts := r.regions[i].counts)
      && r.regions[i].counts >= s.regions[i].counts
    ensures DragConsistent(s) ==> DragConsistent(r)
    ensures Inv(s) ==> Inv(r)
  {
    match res
    case NoIds => s
    case Tracked(ds) => ProcessDetections(s, ds)
  }

  // -------------------------------------------------------------------- run

  /** One input of the session loop: a tracker result for a frame, or a pointer event. */
  function Step(s: State, e: Event): (r: State)
    requires Inv(s)
    ensures Inv(r) && |r.regions| == |s.regions|
    ensures forall i | 0 <= i < |s.regions| :: r.regions[i].counts >= s.regions[i].counts
    ensures s.current.Some? ==> r.current.Some?
  {
    match e
    case Frame(res) => ProcessFrame(s, res)
    case Mouse(m) => OnMouse(s, m)
  }

  /**
    A whole run: the inputs in order. The invariant (trail bound included)
    holds throughout, no count ever decreases, and once a region has been
    grabbed there is always a current region.
   */
  function Run(s: State, evs: seq<Event>): (r: State)
    requires Inv(s)
    ensures Inv(r) && |r.regions| == |s.regions|
    ensures forall i | 0 <= i < |s.regions| :: r.regions[i].counts >= s.regions[i].counts
    ensures s.current.Some? ==> r.current.Some?
    decreases |evs|
  {
    if evs == [] then s else Run(Step(s, evs[0]), evs[1..])
  }
}
