/**
  The per-track trail: for every track id, the most recent bounding-box
  centres in arrival order, at most MAX_TRACK_LENGTH of them. Absent ids read
  as an empty trail, as with a dictionary that creates an empty list on first
  access.
 */
module Trajectory {
  import opened Geometry

  const MAX_TRACK_LENGTH: nat := 30

  /** Trails of all track ids seen so far. */
  type History = map<int, seq<Point>>

  /** The last n elements of s (all of s when it is shorter), in order. */
  function LastN<T>(s: seq<T>, n: nat): seq<T> {
    if |s| <= n then s else s[|s| - n..]
  }

  /** Appends centre c to a trail, then drops the oldest point when the trail has grown past the limit. */
  function Push(track: seq<Point>, c: Point): (r: seq<Point>)
    ensures |r| > 0 && r[|r| - 1] == c
    ensures |track| <= MAX_TRACK_LENGTH ==> |r| <= MAX_TRACK_LENGTH
    ensures |track| <= MAX_TRACK_LENGTH ==> r == LastN(track + [c], MAX_TRACK_LENGTH)
  {
    var t := track + [c];
    if |t| > MAX_TRACK_LENGTH then t[1..] else t
  }

  /**
    Pushing onto the last 30 points of x keeps exactly the last 30 points of
    x followed by c: the bounded trail loses nothing the full history would
    still show.
   */
  lemma PushLastN(x: seq<Point>, c: Point)
    ensures Push(LastN(x, MAX_TRACK_LENGTH), c) == LastN(x + [c], MAX_TRACK_LENGTH)
  {
    var n := MAX_TRACK_LENGTH;
    if |x| >= n {
      var y := x + [c];
      assert LastN(x, n) + [c] == y[|x| - n..];
      assert (LastN(x, n) + [c])[1..] == y[|y| - n..];
    }
  }

  /** The trail of id, empty for an id never seen. */
  function Get(h: History, id: int): seq<Point> {
    if id in h then h[id] else []
  }

  /** Every stored trail is within the length limit. */
  predicate Bounded(h: History) {
    forall id | id in h :: |h[id]| <= MAX_TRACK_LENGTH
  }

  /** Records centre c for track id: only id's trail changes, and it is c pushed onto the old trail. */
  function Record(h: History, id: int, c: Point): (r: History)
    ensures r.Keys == h.Keys + {id}
    ensures Get(r, id) == Push(Get(h, id), c)
    ensures forall t | t != id :: Get(r, t) == Get(h, t)
    ensures Bounded(h) ==> Bounded(r)
  {
    h[id := Push(Get(h, id), c)]
  }
}
