/**
  Properties of whole runs of the session: what a frame does to counts and
  trails, what a drag does to the grabbed polygon, and how the press rule
  behaves on the start-up regions.
 */
module SessionLemmas {
  import opened Geometry
  import opened Trajectory
  import opened Session

  // ------------------------------------------------- reference definitions

  /** How many of the detections have their centre inside poly. */
  function Hits(poly: Polygon, ds: seq<Detection>): nat
  {
    if ds == [] then 0
    else (if Contains(poly, Centre(ds[0].box)) then 1 else 0) + Hits(poly, ds[1..])
  }

  /** The centre d records for track id t: its own centre if d belongs to t, nothing otherwise. */
  function Mine(d: Detection, t: int): seq<Point> {
    if d.trackId == t then [Centre(d.box)] else []
  }

  /** The centres of the detections carrying track id t, in arrival order. */
  function CentresOf(ds: seq<Detection>, t: int): seq<Point> {
    if ds == [] then [] else Mine(ds[0], t) + CentresOf(ds[1..], t)
  }

  /** Every centre seen for track id t over a run, in arrival order; pointer events contribute none. */
  function SeenCentres(evs: seq<Event>, t: int): seq<Point> {
    if evs == [] then [] else FirstCentres(evs[0], t) + SeenCentres(evs[1..], t)
  }

  lemma {:induction false} HitsSnoc(poly: Polygon, ds: seq<Detection>, d: Detection)
    ensures Hits(poly, ds + [d]) == Hits(poly, ds) + (if Contains(poly, Centre(d.box)) then 1 else 0)
  {
    if ds != [] {
      assert (ds + [d])[1..] == ds[1..] + [d];
      HitsSnoc(poly, ds[1..], d);
    }
  }

  lemma {:induction false} CentresOfSnoc(ds: seq<Detection>, d: Detection, t: int)
    ensures CentresOf(ds + [d], t) == CentresOf(ds, t) + Mine(d, t)
  {
    if ds == [] {
      assert ds + [d] == [d];
      assert [d][1..] == [];
      assert Mine(d, t) + [] == Mine(d, t);
    } else {
      var rest := ds[1..];
      assert (ds + [d])[0] == ds[0];
      assert (ds + [d])[1..] == rest + [d];
      CentresOfSnoc(rest, d, t);
      assert Mine(ds[0], t) + (CentresOf(rest, t) + Mine(d, t)) == (Mine(ds[0], t) + CentresOf(rest, t)) + Mine(d, t);
    }
  }

  lemma CentresOfLast(ds: seq<Detection>, t: int)
    requires ds != []
    ensures CentresOf(ds, t) == CentresOf(ds[..|ds| - 1], t) + Mine(ds[|ds| - 1], t)
  {
    assert ds[..|ds| - 1] + [ds[|ds| - 1]] == ds;
    CentresOfSnoc(ds[..|ds| - 1], ds[|ds| - 1], t);
  }

  /** Taking the last n twice loses nothing: trimming early gives the same trail as trimming once at the end. */
  lemma LastNAppend<T>(x: seq<T>, y: seq<T>, n: nat)
    ensures LastN(LastN(x, n) + y, n) == LastN(x + y, n)
  {
    if |x| > n {
      var z := LastN(x, n) + y;
      assert z == (x + y)[|x| - n..];
      assert z[|z| - n..] == (x + y)[|x + y| - n..];
    }
  }

  // ---------------------------------------------------------------- frames

  /**
    Per-frame counting: in one frame, each region's count rises by exactly
    the number of detections whose box centre its polygon contains.
   */
  lemma {:induction false} FrameCounting(s: State, ds: seq<Detection>, i: nat)
    requires i < |s.regions|
    ensures ProcessDetections(s, ds).regions[i].counts == s.regions[i].counts + Hits(s.regions[i].polygon, ds)
    decreases |ds|
  {
    if ds != [] {
      var init, d := ds[..|ds| - 1], ds[|ds| - 1];
      assert ds == init + [d];
      FrameCounting(s, init, i);
      HitsSnoc(s.regions[i].polygon, init, d);
    }
  }

  /** Processing one more detection of a frame is one more detection step. */
  lemma ProcessDetectionsNext(s: State, ds: seq<Detection>, k: nat)
    requires k < |ds|
    ensures ProcessDetections(s, ds[..k + 1]) == DetectionStep(ProcessDetections(s, ds[..k]), ds[k])
  {
    assert ds[..k + 1][..k] == ds[..k];
  }

  /** One detection extends the trail it belongs to by its centre and leaves every other trail as it was. */
  lemma DetectionTrajectory(s: State, d: Detection, t: int, seen: seq<Point>)
    requires Get(s.history, t) == LastN(seen, MAX_TRACK_LENGTH)
    ensures Get(DetectionStep(s, d).history, t)
         == LastN(seen + Mine(d, t), MAX_TRACK_LENGTH)
  {
    if d.trackId == t {
      PushLastN(seen, Centre(d.box));
    } else {
      assert seen + [] == seen;
    }
  }

  /** A trail that is the last 30 of h + a, after detection d, is the last 30 of h + a followed by d's own centre. */
  lemma TrailStep(p: State, d: Detection, t: int, h: seq<Point>, a: seq<Point>, b: seq<Point>)
    requires Get(p.history, t) == LastN(h + a, MAX_TRACK_LENGTH)
    requires b == a + Mine(d, t)
    ensures Get(DetectionStep(p, d).history, t) == LastN(h + b, MAX_TRACK_LENGTH)
  {
    DetectionTrajectory(p, d, t, h + a);
    assert (h + a) + Mine(d, t) == h + b;
  }

  lemma FrameTrajectoryStep(s: State, ds: seq<Detection>, t: int)
    requires ds != []
    requires Get(ProcessDetections(s, ds[..|ds| - 1]).history, t)
          == LastN(Get(s.history, t) + CentresOf(ds[..|ds| - 1], t), MAX_TRACK_LENGTH)
    ensures Get(ProcessDetections(s, ds).history, t) == LastN(Get(s.history, t) + CentresOf(ds, t), MAX_TRACK_LENGTH)
  {
    var init, d := ds[..|ds| - 1], ds[|ds| - 1];
    CentresOfLast(ds, t);
    TrailStep(ProcessDetections(s, init), d, t, Get(s.history, t), CentresOf(init, t), CentresOf(ds, t));
  }

  /**
    Trails after one frame: the trail of every id t is the last 30 of its old
    trail followed by the centres of t's detections in this frame. An id the
    frame does not mention keeps its trail.
   */
  lemma {:induction false} FrameTrajectory(s: State, ds: seq<Detection>, t: int)
    requires Bounded(s.history)
    ensures Get(ProcessDetections(s, ds).history, t) == LastN(Get(s.history, t) + CentresOf(ds, t), MAX_TRACK_LENGTH)
    decreases |ds|
  {
    if ds == [] {
      var h := Get(s.history, t);
      assert |h| <= MAX_TRACK_LENGTH;
      assert h + CentresOf(ds, t) == h;
    } else {
      FrameTrajectory(s, ds[..|ds| - 1], t);
      FrameTrajectoryStep(s, ds, t);
    }
  }

  /**
    Trails over a whole run: for every id t, the trail equals the last (at
    most 30) of all centres recorded for t, in arrival order, whatever
    pointer events are interleaved.
   */
  lemma {:induction false} RunTrajectory(s: State, evs: seq<Event>, t: int)
    requires Inv(s)
    ensures Get(Run(s, evs).history, t) == LastN(Get(s.history, t) + SeenCentres(evs, t), MAX_TRACK_LENGTH)
    decreases |evs|
  {
    var h := Get(s.history, t);
    if evs == [] {
      assert |h| <= MAX_TRACK_LENGTH;
      assert h + SeenCentres(evs, t) == h;
    } else {
      var s1 := Step(s, evs[0]);
      StepTrajectory(s, evs[0], t);
      RunTrajectory(s1, evs[1..], t);
      TrimTwice(h, FirstCentres(evs[0], t), SeenCentres(evs[1..], t), Get(s1.history, t), Get(Run(s1, evs[1..]).history, t));
    }
  }

  /** Trimming after a first batch of centres and again after the rest is trimming once after both. */
  lemma TrimTwice<T>(h: seq<T>, first: seq<T>, rest: seq<T>, mid: seq<T>, last: seq<T>)
    requires mid == LastN(h + first, MAX_TRACK_LENGTH)
    requires last == LastN(mid + rest, MAX_TRACK_LENGTH)
    ensures last == LastN(h + (first + rest), MAX_TRACK_LENGTH)
  {
    LastNAppend(h + first, rest, MAX_TRACK_LENGTH);
    assert (h + first) + rest == h + (first + rest);
  }

  /** The centres an input records for track id t. */
  function FirstCentres(e: Event, t: int): seq<Point> {
    match e
    case Frame(Tracked(ds)) => CentresOf(ds, t)
    case _ => []
  }

  lemma StepTrajectory(s: State, e: Event, t: int)
    requires Inv(s)
    ensures Get(Step(s, e).history, t) == LastN(Get(s.history, t) + FirstCentres(e, t), MAX_TRACK_LENGTH)
  {
    var h := Get(s.history, t);
    assert |h| <= MAX_TRACK_LENGTH;
    if e.Frame? && e.result.Tracked? {
      FrameTrajectory(s, e.result.detections, t);
    } else {
      assert h + FirstCentres(e, t) == h;
    }
  }

  /** A run of tracked frames: frame k yields the detections frames[k]. */
  function TrackedFrames(frames: seq<seq<Detection>>): (evs: seq<Event>)
    ensures |evs| == |frames|
  {
    seq(|frames|, k requires 0 <= k < |frames| => Frame(Tracked(frames[k])))
  }

  /** The hits of poly summed over several frames. */
  function TotalHits(poly: Polygon, frames: seq<seq<Detection>>): nat {
    if frames == [] then 0 else Hits(poly, frames[0]) + TotalHits(poly, frames[1..])
  }

  /**
    Counting over a run of frames: each region's count rises by exactly the
    number of detections, over all frames, whose centre it contains.
   */
  lemma {:induction false} FramesCounting(s: State, i: nat, frames: seq<seq<Detection>>)
    requires Inv(s) && i < |s.regions|
    ensures Run(s, TrackedFrames(frames)).regions[i].counts
         == s.regions[i].counts + TotalHits(s.regions[i].polygon, frames)
    decreases |frames|
  {
    if frames != [] {
      var evs := TrackedFrames(frames);
      var s1 := Step(s, evs[0]);
      assert evs == [evs[0]] + TrackedFrames(frames[1..]);
      RunCons(s, evs[0], TrackedFrames(frames[1..]));
      FrameCounting(s, frames[0], i);
      assert s1.regions[i].polygon == s.regions[i].polygon;
      FramesCounting(s1, i, frames[1..]);
    }
  }

  /** How many of the points cs lie inside poly. */
  function Inside(poly: Polygon, cs: seq<Point>): nat {
    if cs == [] then 0 else (if Contains(poly, cs[0]) then 1 else 0) + Inside(poly, cs[1..])
  }

  /** The detections of ds that do not carry track id t, in order. */
  function Others(ds: seq<Detection>, t: int): seq<Detection> {
    if ds == [] then [] else (if ds[0].trackId == t then [] else [ds[0]]) + Others(ds[1..], t)
  }

  /** A frame's hits in poly split into those of track t and those of all other detections. */
  lemma {:induction false} HitsSplit(poly: Polygon, ds: seq<Detection>, t: int)
    ensures Hits(poly, ds) == Inside(poly, CentresOf(ds, t)) + Hits(poly, Others(ds, t))
    decreases |ds|
  {
    if ds != [] {
      HitsSplit(poly, ds[1..], t);
      var d := ds[0];
      var rest := CentresOf(ds[1..], t);
      if d.trackId == t {
        var cs := [Centre(d.box)] + rest;
        assert CentresOf(ds, t) == cs;
        assert cs[0] == Centre(d.box) && cs[1..] == rest;
        assert Others(ds, t) == Others(ds[1..], t);
      } else {
        assert CentresOf(ds, t) == rest;
        var o := [d] + Others(ds[1..], t);
        assert Others(ds, t) == o;
        assert o[0] == d && o[1..] == Others(ds[1..], t);
      }
    }
  }

  /** Every frame with the detections of track t removed. */
  function OthersIn(frames: seq<seq<Detection>>, t: int): (r: seq<seq<Detection>>)
    ensures |r| == |frames|
  {
    seq(|frames|, k requires 0 <= k < |frames| => Others(frames[k], t))
  }

  lemma {:induction false} TotalHitsSplit(poly: Polygon, frames: seq<seq<Detection>>, t: int)
    requires forall k | 0 <= k < |frames| :: Inside(poly, CentresOf(frames[k], t)) == 1
    ensures TotalHits(poly, frames) == |frames| + TotalHits(poly, OthersIn(frames, t))
    decreases |frames|
  {
    if frames != [] {
      HitsSplit(poly, frames[0], t);
      assert OthersIn(frames, t)[0] == Others(frames[0], t);
      assert OthersIn(frames, t)[1..] == OthersIn(frames[1..], t);
      TotalHitsSplit(poly, frames[1..], t);
    }
  }

  /**
    An object with track id t whose centre is inside region i once in each
    of N frames adds exactly N to the region's count, on top of what the
    other detections of those frames add.
   */
  lemma StayingInsideAddsN(s: State, i: nat, t: int, frames: seq<seq<Detection>>)
    requires Inv(s) && i < |s.regions|
    requires forall k | 0 <= k < |frames| :: Inside(s.regions[i].polygon, CentresOf(frames[k], t)) == 1
    ensures Run(s, TrackedFrames(frames)).regions[i].counts
         == s.regions[i].counts + |frames| + TotalHits(s.regions[i].polygon, OthersIn(frames, t))
  {
    FramesCounting(s, i, frames);
    TotalHitsSplit(s.regions[i].polygon, frames, t);
  }

  // ---------------------------------------------------------------- drags

  predicate AllMoves(evs: seq<Event>) {
    forall k | 0 <= k < |evs| :: evs[k].Mouse? && evs[k].event.MouseMove?
  }

  /** The pixel of the last move in a sequence of moves. */
  function LastMove(evs: seq<Event>): Pixel
    requires |evs| > 0 && AllMoves(evs)
  {
    Pixel(evs[|evs| - 1].event.x, evs[|evs| - 1].event.y)
  }

  /** s with region i translated by q - o and anchored at q. */
  function Dragged(s: State, i: nat, o: Pixel, q: Pixel): State
    requires i < |s.regions|
  {
    s.(regions := s.regions[i := s.regions[i].(
      polygon := Translate(s.regions[i].polygon, (q.x - o.x) as real, (q.y - o.y) as real),
      offset := Some(q))])
  }

  /** Dragging from o to m and then from m to q is dragging from o to q. */
  lemma DraggedTwice(s: State, i: nat, o: Pixel, m: Pixel, q: Pixel)
    requires i < |s.regions|
    ensures Dragged(Dragged(s, i, o, m), i, m, q) == Dragged(s, i, o, q)
  {
    TranslateCompose(s.regions[i].polygon, (m.x - o.x) as real, (m.y - o.y) as real, (q.x - m.x) as real, (q.y - m.y) as real);
    assert ((m.x - o.x) as real) + ((q.x - m.x) as real) == (q.x - o.x) as real;
    assert ((m.y - o.y) as real) + ((q.y - m.y) as real) == (q.y - o.y) as real;
  }

  /**
    Drag telescoping: while region i is current and dragging with anchor o,
    a sequence of pointer moves ending at q translates its polygon by q - o,
    as one move straight to q would, and leaves every other region, the
    current index and the trails unchanged.
   */
  lemma {:induction false} DragTelescopes(s: State, i: nat, o: Pixel, evs: seq<Event>)
    requires Inv(s) && s.current == Some(i) && i < |s.regions|
    requires s.regions[i].dragging && s.regions[i].offset == Some(o)
    requires |evs| > 0 && AllMoves(evs)
    ensures Run(s, evs) == Dragged(s, i, o, LastMove(evs))
    decreases |evs|
  {
    var m := Pixel(evs[0].event.x, evs[0].event.y);
    var s1 := Step(s, evs[0]);
    assert s1 == Dragged(s, i, o, m);
    if |evs| > 1 {
      var rest := evs[1..];
      assert LastMove(rest) == LastMove(evs);
      DragTelescopes(s1, i, m, rest);
      DraggedTwice(s, i, o, m, LastMove(evs));
    }
  }

  /**
    Press at p, then moves ending at q: the last region containing p is
    grabbed, becomes current, and ends translated by q - p and anchored at
    q; the press flags are the only other change.
   */
  lemma PressThenDrag(s: State, x: int, y: int, i: nat, moves: seq<Event>)
    requires Inv(s) && i < |s.regions|
    requires Contains(s.regions[i].polygon, PointOf(Pixel(x, y)))
    requires forall j | i < j < |s.regions| :: !Contains(s.regions[j].polygon, PointOf(Pixel(x, y)))
    requires |moves| > 0 && AllMoves(moves)
    ensures Run(s, [Mouse(LButtonDown(x, y))] + moves) == Dragged(Press(s, x, y), i, Pixel(x, y), LastMove(moves))
  {
    PressGrabsLastContaining(s, x, y, i);
    RunCons(s, Mouse(LButtonDown(x, y)), moves);
    DragTelescopes(Press(s, x, y), i, Pixel(x, y), moves);
  }

  /**
    Drag exclusivity: after a press grabbing region i and any moves, only
    region i's polygon has moved, by q - p, even where the pointer passed
    over other regions; no count has changed.
   */
  lemma DragMovesOnlyGrabbed(s: State, x: int, y: int, i: nat, moves: seq<Event>)
    requires Inv(s) && i < |s.regions|
    requires Contains(s.regions[i].polygon, PointOf(Pixel(x, y)))
    requires forall j | i < j < |s.regions| :: !Contains(s.regions[j].polygon, PointOf(Pixel(x, y)))
    requires |moves| > 0 && AllMoves(moves)
    ensures |Run(s, [Mouse(LButtonDown(x, y))] + moves).regions| == |s.regions|
    ensures Run(s, [Mouse(LButtonDown(x, y))] + moves).regions[i].polygon
         == Translate(s.regions[i].polygon, (LastMove(moves).x - x) as real, (LastMove(moves).y - y) as real)
    ensures forall j | 0 <= j < |s.regions| && j != i ::
      Run(s, [Mouse(LButtonDown(x, y))] + moves).regions[j].polygon == s.regions[j].polygon
    ensures forall j | 0 <= j < |s.regions| ::
      Run(s, [Mouse(LButtonDown(x, y))] + moves).regions[j].counts == s.regions[j].counts
  {
    PressThenDrag(s, x, y, i, moves);
    PressedThenDragged(s, x, y, i, LastMove(moves));
  }

  /** The state a press at (x, y) and a drag of region i to q lead to, compared with the state before the press. */
  lemma PressedThenDragged(s: State, x: int, y: int, i: nat, q: Pixel)
    requires i < |s.regions|
    ensures |Dragged(Press(s, x, y), i, Pixel(x, y), q).regions| == |s.regions|
    ensures Dragged(Press(s, x, y), i, Pixel(x, y), q).regions[i].polygon
         == Translate(s.regions[i].polygon, (q.x - x) as real, (q.y - y) as real)
    ensures forall j | 0 <= j < |s.regions| && j != i ::
      Dragged(Press(s, x, y), i, Pixel(x, y), q).regions[j].polygon == s.regions[j].polygon
    ensures forall j | 0 <= j < |s.regions| ::
      Dragged(Press(s, x, y), i, Pixel(x, y), q).regions[j].counts == s.regions[j].counts
  {
    var p := Press(s, x, y);
    var o := Pixel(x, y);
    DraggedShapes(p, i, o, q);
    PressShapes(s, x, y);
    var d := Dragged(p, i, o, q);
    assert d.regions[i].polygon == Translate(p.regions[i].polygon, (q.x - o.x) as real, (q.y - o.y) as real);
    assert p.regions[i].polygon == s.regions[i].polygon;
  }

  /** A drag of region i moves only region i's polygon and changes no count. */
  lemma DraggedShapes(s: State, i: nat, o: Pixel, q: Pixel)
    requires i < |s.regions|
    ensures var r := Dragged(s, i, o, q);
      && |r.regions| == |s.regions|
      && r.regions[i].polygon == Translate(s.regions[i].polygon, (q.x - o.x) as real, (q.y - o.y) as real)
      && (forall j | 0 <= j < |s.regions| && j != i :: r.regions[j].polygon == s.regions[j].polygon)
      && (forall j | 0 <= j < |s.regions| :: r.regions[j].counts == s.regions[j].counts)
  {
  }

  /** A press moves no polygon and changes no count. */
  lemma PressShapes(s: State, x: int, y: int)
    ensures var r := Press(s, x, y);
      && |r.regions| == |s.regions|
      && (forall j | 0 <= j < |s.regions| :: r.regions[j].polygon == s.regions[j].polygon)
      && (forall j | 0 <= j < |s.regions| :: r.regions[j].counts == s.regions[j].counts)
  {
  }

  lemma RunCons(s: State, e: Event, rest: seq<Event>)
    requires Inv(s)
    ensures Run(s, [e] + rest) == Run(Step(s, e), rest)
  {
    assert ([e] + rest)[1..] == rest;
  }

  /** Running one more input after a run is one more step from where the run ended. */
  lemma {:induction false} RunSnoc(s: State, evs: seq<Event>, e: Event)
    requires Inv(s)
    ensures Run(s, evs + [e]) == Step(Run(s, evs), e)
    decreases |evs|
  {
    if evs == [] {
      assert evs + [e] == [e] + [];
      RunCons(s, e, []);
    } else {
      assert evs + [e] == [evs[0]] + (evs[1..] + [e]);
      RunCons(s, evs[0], evs[1..] + [e]);
      RunSnoc(Step(s, evs[0]), evs[1..], e);
      assert evs == [evs[0]] + evs[1..];
      RunCons(s, evs[0], evs[1..]);
    }
  }

  /** Scanning one more region during a press: a containing region takes over as current. */
  lemma PressCurrentNext(rs: seq<Region>, current: Option<nat>, pt: Point, i: nat)
    requires i < |rs|
    ensures PressCurrent(rs[..i + 1], current, pt)
         == if Contains(rs[i].polygon, pt) then Some(i) else PressCurrent(rs[..i], current, pt)
  {
    assert rs[..i + 1][..i] == rs[..i];
  }

  /** A press grabs the last region containing the point: it becomes current, dragging, anchored at the point. */
  lemma PressGrabsLastContaining(s: State, x: int, y: int, i: nat)
    requires i < |s.regions|
    requires Contains(s.regions[i].polygon, PointOf(Pixel(x, y)))
    requires forall j | i < j < |s.regions| :: !Contains(s.regions[j].polygon, PointOf(Pixel(x, y)))
    ensures Press(s, x, y).current == Some(i)
    ensures Press(s, x, y).regions[i].dragging && Press(s, x, y).regions[i].offset == Some(Pixel(x, y))
  {
  }

  // -------------------------------------------------------------- release

  /** A second release changes nothing. */
  lemma ReleaseIdempotent(s: State)
    requires DragConsistent(s)
    ensures Release(Release(s)) == Release(s)
  {
  }

  // ------------------------------------------------- the start-up regions

  /**
    The two start-up regions overlap: a press at (300, 300) flags both as
    dragging and makes the rectangle (the later one) current, so the release
    clears only the rectangle and leaves the polygon flagged as dragging.
   */
  lemma OverlappingPressLeavesStaleFlag()
    ensures
      var pressed := Press(Initial(), 300, 300);
      var released := Release(pressed);
      && pressed.current == Some(1)
      && pressed.regions[0].dragging && pressed.regions[1].dragging
      && released.regions[0].dragging && !released.regions[1].dragging
  {
    var rs := Initial().regions;
    var pt := PointOf(Pixel(300, 300));
    assert CrossingsFrom(rs[0].polygon, pt, 0) == 1;
    assert CrossingsFrom(rs[1].polygon, pt, 0) == 1;
  }
}
