/** The move generators of lattice_updates/mod.rs: the closed-loop walker
    `Z3String` and the two updates built on it.

    The random source is replaced by explicit parameters: `draw` is the
    uniformly drawn start point and `dirs` the sequence of uniformly drawn
    directions, consumed one per step. */
module LatticeUpdates {
  import opened Datamodel
  import opened Cluster
  import opened LatticeStore

  /** `Update`: the working location (the tuning weight is left out). */
  datatype Updater = Update(working_loc: BoundPoint)

  /** `Update::get_rand_point`: `draw` stands for the two uniform draws. */
  function GetRandPoint(u: Updater, draw: Point): (r: Updater)
    requires InBounds(draw, u.working_loc.size)
    ensures r.working_loc.size == u.working_loc.size
    ensures InRange(r.working_loc)
  {
    u.(working_loc := u.working_loc.(location := draw))
  }

  /** The walker: where the loop started, where it is, and the lattice it
      edits. */
  datatype Z3String = Z3String(start_loc: Point, cur_loc: BoundPoint, lat: Lattice)

  /** The walker is on a well-formed lattice and inside it. */
  predicate Walkable(z: Z3String)
  {
    WellFormed(z.lat) && z.cur_loc.size == z.lat.size && InRange(z.cur_loc)
  }

  /** `Z3String::increment_cur_loc`: the walker's own copy of the step. */
  function IncrementCurLoc(z: Z3String, d: Direction): (r: Z3String)
    requires ValidSize(z.cur_loc.size)
    ensures r.cur_loc == IncrementLocation(z.cur_loc, d)
    ensures r.start_loc == z.start_loc && r.lat == z.lat
  {
    var increment := match d
      case N => Point(0, 1)
      case E => Point(1, 0)
      case S => Point(0, -1)
      case W => Point(-1, 0);
    z.(cur_loc := Add(z.cur_loc, increment))
  }

  /** `Z3String::raise_step`. From a real point the stored link is raised and
      the walker moves; from an implied point the walker moves first, onto a
      real point, and lowers the link it looks back along. The effect on the
      links is stated by `RaiseStepRaisesOneLink`. */
  function RaiseStep(z: Z3String, d: Direction): (r: Z3String)
    requires Walkable(z)
    ensures Walkable(r)
    ensures r.start_loc == z.start_loc
    ensures r.lat.size == z.lat.size
    ensures r.cur_loc == IncrementLocation(z.cur_loc, d)
  {
    var p := z.cur_loc.location;
    if PointReal(p) then
      IncrementCurLoc(z.(lat := OutRaiseLink(z.lat, p, d)), d)
    else
      var moved := IncrementCurLoc(z, d);
      assert moved.cur_loc.location == Neighbour(z.lat.size, p, d);
      moved.(lat := OutLowerLink(moved.lat, moved.cur_loc.location, FlipDirection(d)))
  }

  /** Either way `raise_step` goes, the link leaving the old position in
      direction `d` is raised, the stored slot holding it is the only stored
      link that changes, and the walker ends on the far end of that link. */
  lemma RaiseStepRaisesOneLink(z: Z3String, d: Direction)
    requires Walkable(z)
    ensures var r := RaiseStep(z, d);
            && r.cur_loc.location == Neighbour(z.lat.size, z.cur_loc.location, d)
            && LinkSeen(r.lat, z.cur_loc.location, d) == Raise(LinkSeen(z.lat, z.cur_loc.location, d))
    ensures var r := RaiseStep(z, d);
            var slot := StoredSlot(z.lat.size, z.cur_loc.location, d);
            && SafeGetLinkFromPoint(r.lat, slot.0, slot.1) != SafeGetLinkFromPoint(z.lat, slot.0, slot.1)
            && forall q, e | InBounds(q, z.lat.size) && PointReal(q) && (q, e) != slot ::
                 SafeGetLinkFromPoint(r.lat, q, e) == SafeGetLinkFromPoint(z.lat, q, e)
  {
    var p := z.cur_loc.location;
    var q := Neighbour(z.lat.size, p, d);
    assert RaiseStep(z, d).cur_loc.location == q;
    if !PointReal(p) {
      var lat' := OutLowerLink(z.lat, q, FlipDirection(d));
      FlipLowerIsRaiseFlip(SafeGetLinkFromPoint(lat', q, FlipDirection(d)));
    }
  }

  /** The walker after taking the steps `ds` in order. */
  function WalkSteps(z: Z3String, ds: seq<Direction>): (r: Z3String)
    requires Walkable(z)
    ensures Walkable(r)
    ensures r.start_loc == z.start_loc
    ensures r.lat.size == z.lat.size
    ensures r.cur_loc == WalkFrom(z.cur_loc, ds)
    decreases |ds|
  {
    if |ds| == 0 then z
    else RaiseStep(WalkSteps(z, ds[..|ds| - 1]), ds[|ds| - 1])
  }

  /** `Update::update`: pick a point and walk the clockwise plaquette N, E,
      S, W from it. The closing assertion of the repository never fails. */
  function UpdatePlaquette(u: Updater, lat: Lattice, draw: Point): (r: Result<(Updater, Lattice)>)
    requires WellFormed(lat) && u.working_loc.size == lat.size && InBounds(draw, lat.size)
    ensures r.Success?
    ensures r.value.0 == GetRandPoint(u, draw)
    ensures WellFormed(r.value.1) && r.value.1.size == lat.size
    ensures r.value.1 == WalkSteps(Z3String(draw, BoundPoint(lat.size, draw), lat), [N, E, S, W]).lat
  {
    var u' := GetRandPoint(u, draw);
    var z := Z3String(u'.working_loc.location, u'.working_loc, lat);
    var z4 := WalkSteps(z, [N, E, S, W]);
    ClockwiseWalkCloses(u'.working_loc);
    if z4.cur_loc.location != z4.start_loc then Failure(LoopNotClosed)
    else Success((u', z4.lat))
  }

  /** Extending a walk by one direction is one more raising step. */
  lemma WalkStepsSnoc(z: Z3String, ds: seq<Direction>, d: Direction)
    requires Walkable(z)
    ensures WalkSteps(z, ds + [d]) == RaiseStep(WalkSteps(z, ds), d)
  {
    assert (ds + [d])[..|ds|] == ds;
  }

  /** Whether a walk along `ds` from `z` is back at its start. */
  predicate ClosedAfter(z: Z3String, ds: seq<Direction>)
    requires Walkable(z)
  {
    WalkSteps(z, ds).cur_loc.location == z.start_loc
  }

  /** `Update::random_walk_update`: one step before the loop, then steps
      until the walker is back at its start. The loop is unbounded in the
      repository; here it also stops, with `DirectionsExhausted`, when the
      supplied directions run out. On success `steps` directions were used,
      the walk is closed after them and after no shorter non-empty prefix,
      and the number of steps is even. */
  method RandomWalkUpdate(u: Updater, lat: Lattice, draw: Point, dirs: seq<Direction>)
    returns (r: Result<(Updater, Lattice)>, steps: nat)
    requires WellFormed(lat) && u.working_loc.size == lat.size && InBounds(draw, lat.size)
    ensures r.Success? || r == Failure(DirectionsExhausted)
    ensures var z0 := Z3String(draw, BoundPoint(lat.size, draw), lat);
            r.Success? ==>
              && 1 <= steps <= |dirs|
              && steps % 2 == 0
              && ClosedAfter(z0, dirs[..steps])
              && OpenBefore(z0, dirs, steps)
              && r.value == (GetRandPoint(u, draw), WalkSteps(z0, dirs[..steps]).lat)
    ensures var z0 := Z3String(draw, BoundPoint(lat.size, draw), lat);
            r.Failure? ==> forall j :: 1 <= j <= |dirs| ==> !ClosedAfter(z0, dirs[..j])
  {
    var u' := GetRandPoint(u, draw);
    var z0 := Z3String(u'.working_loc.location, u'.working_loc, lat);
    if |dirs| == 0 {
      return Failure(DirectionsExhausted), 0;
    }
    var z, closed;
    z, steps, closed := WalkUntilClosed(z0, dirs);
    if !closed {
      NeverClosed(z0, dirs);
      return Failure(DirectionsExhausted), steps;
    }
    ClosedWalkHasEvenLength(u'.working_loc, dirs[..steps]);
    r := Success((u', z.lat));
  }

  /** The loop of `random_walk_update`: one step, then steps while the walker
      is away from its start, stopping early when `dirs` runs out. */
  method WalkUntilClosed(z0: Z3String, dirs: seq<Direction>) returns (z: Z3String, steps: nat, closed: bool)
    requires Walkable(z0) && |dirs| >= 1
    ensures 1 <= steps <= |dirs|
    ensures z == WalkSteps(z0, dirs[..steps])
    ensures OpenBefore(z0, dirs, steps)
    ensures closed <==> ClosedAfter(z0, dirs[..steps])
    ensures !closed ==> steps == |dirs|
  {
    z := RaiseStep(z0, dirs[0]);
    WalkStepsSnoc(z0, [], dirs[0]);
    assert dirs[..1] == [] + [dirs[0]];
    steps := 1;
    while z.cur_loc.location != z.start_loc
      invariant 1 <= steps <= |dirs|
      invariant z == WalkSteps(z0, dirs[..steps])
      invariant OpenBefore(z0, dirs, steps)
      decreases |dirs| - steps
    {
      if steps == |dirs| {
        return z, steps, false;
      }
      StillOpen(z0, dirs, steps);
      WalkStepsSnoc(z0, dirs[..steps], dirs[steps]);
      assert dirs[..steps + 1] == dirs[..steps] + [dirs[steps]];
      z := RaiseStep(z, dirs[steps]);
      steps := steps + 1;
    }
    closed := true;
  }

  /** A walk that was still open after all of `dirs` never closed. */
  lemma NeverClosed(z0: Z3String, dirs: seq<Direction>)
    requires Walkable(z0) && |dirs| >= 1
    requires OpenBefore(z0, dirs, |dirs|) && !ClosedAfter(z0, dirs[..|dirs|])
    ensures forall j :: 1 <= j <= |dirs| ==> !ClosedAfter(z0, dirs[..j])
  {
  }

  /** No non-empty prefix of `dirs` shorter than `k` closes the walk. */
  predicate OpenBefore(z0: Z3String, dirs: seq<Direction>, k: nat)
    requires Walkable(z0) && k <= |dirs|
  {
    forall j :: 1 <= j < k ==> !ClosedAfter(z0, dirs[..j])
  }

  lemma StillOpen(z0: Z3String, dirs: seq<Direction>, k: nat)
    requires Walkable(z0) && 1 <= k < |dirs|
    requires OpenBefore(z0, dirs, k)
    requires WalkSteps(z0, dirs[..k]).cur_loc.location != z0.start_loc
    ensures OpenBefore(z0, dirs, k + 1)
  {
  }

  /** On an even torus every step changes sublattice, so a walk that ends
      where it started has an even number of steps. */
  lemma {:induction false} ClosedWalkHasEvenLength(bp: BoundPoint, ds: seq<Direction>)
    requires EvenSize(bp.size) && InRange(bp)
    requires WalkFrom(bp, ds).location == bp.location
    ensures |ds| % 2 == 0
  {
    WalkParity(bp, ds);
  }

  lemma {:induction false} WalkParity(bp: BoundPoint, ds: seq<Direction>)
    requires EvenSize(bp.size) && InRange(bp)
    ensures InRange(WalkFrom(bp, ds))
    ensures PointReal(WalkFrom(bp, ds).location) <==> (PointReal(bp.location) <==> |ds| % 2 == 0)
    decreases |ds|
  {
    if |ds| > 0 {
      var n := |ds| - 1;
      WalkParity(bp, ds[..n]);
      WalkParityStep(bp, ds);
    }
  }

  /** The inductive step of `WalkParity`: the last step changes sublattice. */
  lemma WalkParityStep(bp: BoundPoint, ds: seq<Direction>)
    requires EvenSize(bp.size) && InRange(bp) && |ds| > 0
    requires InRange(WalkFrom(bp, ds[..|ds| - 1]))
    requires PointReal(WalkFrom(bp, ds[..|ds| - 1]).location) <==> (PointReal(bp.location) <==> (|ds| - 1) % 2 == 0)
    ensures InRange(WalkFrom(bp, ds))
    ensures PointReal(WalkFrom(bp, ds).location) <==> (PointReal(bp.location) <==> |ds| % 2 == 0)
  {
    var n := |ds| - 1;
    var prev := WalkFrom(bp, ds[..n]);
    var cur := WalkFrom(bp, ds);
    assert cur == IncrementLocation(prev, ds[n]);
    StepParity(prev, ds[n]);
    ParityFlips(n);
    var a, b, c := PointReal(bp.location), PointReal(prev.location), PointReal(cur.location);
    assert b <==> (a <==> n % 2 == 0);
    assert c <==> !b;
  }

  lemma ParityFlips(n: nat)
    ensures n % 2 == 0 <==> (n + 1) % 2 != 0
  {
  }

  lemma StepParity(bp: BoundPoint, d: Direction)
    requires EvenSize(bp.size) && InRange(bp)
    ensures PointReal(IncrementLocation(bp, d).location) <==> !PointReal(bp.location)
  {
    assert IncrementLocation(bp, d).location == Neighbour(bp.size, bp.location, d);
  }
}
