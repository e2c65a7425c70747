/**
  The counting session as the scripts run it: module-level mutable state
  (the list of region records, the current-region reference and the trail
  dictionary) gathered into one object whose methods are the branches of the
  mouse callback and the per-frame block of the video loop. Each method
  updates the state in place and is proved to have the effect that module
  Session prescribes.
 */
module Engine {
  import opened Geometry
  import opened Trajectory
  import opened Session
  import opened SessionLemmas

  class RegionCounter {
    /** The region records, in registration order; the records are updated in place. */
    var regions: array<Region>
    /** The index of the region the current-region reference points at, if any. */
    var current: Option<nat>
    var history: History

    ghost function Model(): State
      reads this, regions
    {
      State(regions[..], current, history)
    }

    ghost predicate Valid()
      reads this, regions
    {
      Inv(Model())
    }

    /** The start-up state: the two configured regions, no current region, no trails. */
    constructor ()
      ensures Valid() && Model() == Initial()
      ensures fresh(regions)
    {
      var init := InitialRegions();
      var a := new Region[|init|](i requires 0 <= i < |init| => init[i]);
      assert a[..] == init;
      regions := a;
      current := None;
      history := map[];
    }

    /** Button press: flags every region containing the point and points the current region at the last of them. */
    method Press(x: int, y: int)
      requires Valid()
      modifies this`current, regions
      ensures Valid()
      ensures Model() == Session.Press(old(Model()), x, y)
    {
      ghost var rs := regions[..];
      ghost var cur := current;
      var p := Pixel(x, y);
      for i := 0 to regions.Length
        invariant forall k | 0 <= k < i :: regions[k] == PressOne(rs[k], p)
        invariant forall k | i <= k < regions.Length :: regions[k] == rs[k]
        invariant current == PressCurrent(rs[..i], cur, PointOf(p))
      {
        PressCurrentNext(rs, cur, PointOf(p), i);
        PressSlot(i, p);
      }
      assert rs[..regions.Length] == rs;
    }

    /** One pass of the press loop: region i, if it contains the pointer, is flagged, anchored and made current. */
    method PressSlot(i: nat, p: Pixel)
      requires i < regions.Length
      modifies this`current, regions
      ensures regions[i] == PressOne(old(regions[i]), p)
      ensures forall k | 0 <= k < regions.Length && k != i :: regions[k] == old(regions[k])
      ensures current == if Contains(old(regions[i]).polygon, PointOf(p)) then Some(i) else old(current)
    {
      if Contains(regions[i].polygon, PointOf(p)) {
        current := Some(i);
        regions[i] := regions[i].(dragging := true, offset := Some(p));
      }
    }

    /** Pointer move: translates the current region's polygon by the displacement from its anchor, when it is dragging. */
    method Move(x: int, y: int)
      requires Valid()
      modifies regions
      ensures Valid()
      ensures Model() == Session.Move(old(Model()), x, y)
    {
      if current.Some? && regions[current.value].dragging {
        var i := current.value;
        var dx := x - regions[i].offset.value.x;
        var dy := y - regions[i].offset.value.y;
        regions[i] := regions[i].(polygon := Translate(regions[i].polygon, dx as real, dy as real));
        regions[i] := regions[i].(offset := Some(Pixel(x, y)));
      }
    }

    /** Button release: clears the current region's dragging flag. */
    method Release()
      requires Valid()
      modifies regions
      ensures Valid()
      ensures Model() == Session.Release(old(Model()))
    {
      if current.Some? && regions[current.value].dragging {
        regions[current.value] := regions[current.value].(dragging := false);
      }
    }

    /** The per-frame block: every detection of the frame, in the tracker's order; a frame without ids is skipped. */
    method ProcessFrame(res: TrackerResult)
      requires Valid()
      modifies this`history, regions
      ensures Valid()
      ensures Model() == Session.ProcessFrame(old(Model()), res)
    {
      if res.Tracked? {
        var ds := res.detections;
        ghost var s0 := Model();
        for k := 0 to |ds|
          invariant Model() == ProcessDetections(s0, ds[..k])
        {
          Detect(ds[k]);
          ProcessDetectionsNext(s0, ds, k);
        }
        assert ds[..|ds|] == ds;
      }
    }

    /** One detection: extend its track's trail with its centre, then count the centre in every region containing it. */
    method Detect(d: Detection)
      modifies this`history, regions
      ensures Model() == DetectionStep(old(Model()), d)
    {
      var c := Centre(d.box);
      history := Record(history, d.trackId, c);
      CountCentre(c);
    }

    /** Adds one to the count of every region whose polygon contains c. */
    method CountCentre(c: Point)
      modifies regions
      ensures regions[..] == Session.CountCentre(old(regions[..]), c)
    {
      for j := 0 to regions.Length
        invariant forall m | 0 <= m < j :: regions[m] == CountOne(old(regions[m]), c)
        invariant forall m | j <= m < regions.Length :: regions[m] == old(regions[m])
      {
        if Contains(regions[j].polygon, c) {
          regions[j] := regions[j].(counts := regions[j].counts + 1);
        }
      }
    }
  }
}
