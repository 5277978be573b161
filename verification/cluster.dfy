/** Location stepping and the filled-direction query of datamodel/cluster.rs. */
module Cluster {
  import opened Datamodel

  /** The unit offset `increment_location` adds for each direction. */
  function Increment(d: Direction): Point
  {
    match d
    case N => Point(0, 1)
    case E => Point(1, 0)
    case S => Point(0, -1)
    case W => Point(-1, 0)
  }

  /** `increment_location`: one unit step in `d`, wrapped onto the torus. */
  function IncrementLocation(location: BoundPoint, d: Direction): (r: BoundPoint)
    requires ValidSize(location.size)
    ensures r.size == location.size
    ensures InRange(r)
  {
    Add(location, Increment(d))
  }

  /** `decrement_location`: the step in the flipped direction. */
  function DecrementLocation(location: BoundPoint, d: Direction): (r: BoundPoint)
    requires ValidSize(location.size)
    ensures r.size == location.size
    ensures InRange(r)
  {
    IncrementLocation(location, FlipDirection(d))
  }

  /** Stepping in `d` and back again returns to the start, including across
      the wrap-around at every lattice boundary. */
  lemma DecrementUndoesIncrement(bp: BoundPoint, d: Direction)
    requires ValidSize(bp.size)
    requires InRange(bp)
    ensures DecrementLocation(IncrementLocation(bp, d), d) == bp
    ensures IncrementLocation(DecrementLocation(bp, d), d) == bp
  {
    AddAdd(bp, Increment(d), Increment(FlipDirection(d)));
    AddAdd(bp, Increment(FlipDirection(d)), Increment(d));
    AddZero(bp);
  }

  /** The clockwise plaquette N, E, S, W ends where it started. */
  lemma ClockwiseLoopCloses(bp: BoundPoint)
    requires ValidSize(bp.size)
    requires InRange(bp)
    ensures IncrementLocation(IncrementLocation(IncrementLocation(
              IncrementLocation(bp, N), E), S), W) == bp
  {
    var b1 := IncrementLocation(bp, N);
    AddAdd(bp, Point(0, 1), Point(1, 0));
    AddAdd(bp, Point(1, 1), Point(0, -1));
    AddAdd(bp, Point(1, 0), Point(-1, 0));
    AddZero(bp);
  }

  /** The unit test of cluster.rs: from (1, 2) on a 4 x 4 lattice, a step
      east lands on (2, 2). */
  lemma IncrementLocationExample()
    ensures IncrementLocation(BoundPoint(Point(4, 4), Point(1, 2)), E).location == Point(2, 2)
  {
    SmallMod(2, 4);
  }

  /** `directions_of_filled_links`: the directions of the non-Blank links of
      `v` in iteration order, or None when every link is Blank. */
  function DirectionsOfFilledLinks(v: Vertex): Option<seq<Direction>>
  {
    var ds := (if v.n != Blank then [N] else [])
            + (if v.e != Blank then [E] else [])
            + (if v.s != Blank then [S] else [])
            + (if v.w != Blank then [W] else []);
    if |ds| == 0 then None else Some(ds)
  }

  /** None exactly when every link is Blank; otherwise each filled direction
      once and nothing else. */
  lemma FilledDirections(v: Vertex)
    ensures var r := DirectionsOfFilledLinks(v);
            && (r.None? <==> (forall d :: LinkAt(v, d) == Blank))
            && (r.Some? ==> forall d :: d in r.value <==> LinkAt(v, d) != Blank)
            && (r.Some? ==> 0 < |r.value| <= 4)
            && (r.Some? ==> forall i, j :: 0 <= i < j < |r.value| ==> r.value[i] != r.value[j])
  {
    var ds := (if v.n != Blank then [N] else [])
            + (if v.e != Blank then [E] else [])
            + (if v.s != Blank then [S] else [])
            + (if v.w != Blank then [W] else []);
    assert forall d :: d in ds <==> LinkAt(v, d) != Blank;
    if |ds| > 0 {
      assert ds[0] in ds && LinkAt(v, ds[0]) != Blank;
    }
  }

  /** Where a walk along `ds` from `bp` ends. */
  function WalkFrom(bp: BoundPoint, ds: seq<Direction>): (r: BoundPoint)
    requires ValidSize(bp.size)
    ensures r.size == bp.size
    ensures |ds| > 0 ==> InRange(r)
    decreases |ds|
  {
    if |ds| == 0 then bp
    else IncrementLocation(WalkFrom(bp, ds[..|ds| - 1]), ds[|ds| - 1])
  }

  /** The clockwise plaquette as a walk: N, E, S, W from `bp` ends at `bp`. */
  lemma ClockwiseWalkCloses(bp: BoundPoint)
    requires ValidSize(bp.size)
    requires InRange(bp)
    ensures WalkFrom(bp, [N, E, S, W]) == bp
  {
    assert [N, E, S, W][..3] == [N, E, S];
    assert [N, E, S][..2] == [N, E];
    assert [N, E][..1] == [N];
    assert [N][..0] == [];
    ClockwiseLoopCloses(bp);
  }
}
