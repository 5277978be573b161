/** The cluster-sizing traversal of estimators/cluster_size_estimator.rs.

    A cluster is a set of sites connected by non-Blank links. The estimator
    walks it depth first: `stack` holds, for every site on the current path,
    the filled directions not yet tried from it, and `walk_list` the
    directions taken along the path. One call of `next` does one step of
    that walk. The output file, the display text and the unused
    `cluster_sizes` bookkeeping are not modelled. */
module ClusterSize {
  import opened Datamodel
  import opened Cluster
  import opened LatticeStore

  /** The estimator's state. `clustered` maps each marked site to the number
      of the cluster it was found in. */
  datatype ClusterSizeEstimator = ClusterSizeEstimator(
    clustered: map<Point, nat>,
    cluster_covered_points: seq<Point>,
    stack: seq<seq<Direction>>,
    walk_list: seq<Direction>,
    current_location: BoundPoint,
    available_cluster_num: nat,
    is_initialized: bool,
    starting_location: BoundPoint,
    lat: Lattice)

  /** What one call of `next` did; it stands for the display text. */
  datatype Status =
    | Completed        // the stack emptied: the cluster is done
    | BackedUp         // an exhausted frame was dropped and the walk reversed
    | FoundClustered   // the step reached a marked site and was undone
    | Marked           // the step reached a new site, which was marked

  /** `ClusterSizeEstimator::new`: nothing marked, nothing on the stack, both
      locations at the origin of the lattice. */
  function New(lat: Lattice): (r: ClusterSizeEstimator)
    ensures r.lat == lat && !r.is_initialized
    ensures r.clustered == map[] && r.available_cluster_num == 0 && r.cluster_covered_points == []
    ensures r.stack == [] && r.walk_list == []
    ensures r.current_location == r.starting_location == BoundPoint(lat.size, Point(0, 0))
  {
    var origin := BoundPoint(lat.size, Point(0, 0));
    ClusterSizeEstimator(map[], [], [], [], origin, 0, false, origin, lat)
  }

  /** `init_calculation_location`: start a cluster at `point`: mark it, push
      its filled directions (an empty frame for an isolated site) and record
      it as covered. */
  function InitCalculationLocation(est: ClusterSizeEstimator, point: Point, lat: Lattice): (r: ClusterSizeEstimator)
    requires WellFormed(lat) && InBounds(point, lat.size)
    ensures r.current_location == r.starting_location == BoundPoint(lat.size, point)
    ensures r.clustered == est.clustered[point := est.available_cluster_num]
    ensures |r.stack| == |est.stack| + 1 && r.stack[..|est.stack|] == est.stack
    ensures forall d :: d in r.stack[|est.stack|] <==> LinkSeen(lat, point, d) != Blank
    ensures r.cluster_covered_points == est.cluster_covered_points + [point]
    ensures r.is_initialized && r.walk_list == est.walk_list && r.lat == est.lat
  {
    var loc := BoundPoint(lat.size, point);
    var available := match DirectionsOfFilledLinks(GetVertexFromPoint(lat, point))
      case Some(ds) => ds
      case None => [];
    var stack := est.stack + [available];
    assert stack[..|est.stack|] == est.stack;
    est.(current_location := loc,
         clustered := est.clustered[point := est.available_cluster_num],
         starting_location := loc,
         stack := stack,
         cluster_covered_points := est.cluster_covered_points + [point],
         is_initialized := true)
  }

  /** The sanity the traversal relies on: a well-formed lattice and a
      location on it. */
  predicate OnLattice(est: ClusterSizeEstimator)
  {
    WellFormed(est.lat) && est.current_location.size == est.lat.size && InRange(est.current_location)
  }

  /** `Iterator::next`: one step of the traversal, or the fault at which
      the repository panics. */
  function Next(est: ClusterSizeEstimator): (r: Result<(Status, ClusterSizeEstimator)>)
    requires OnLattice(est)
    ensures r.Failure? <==> (r == Failure(EmptyStack) || r == Failure(WalkListEmpty)
                             || r == Failure(ForeignCluster) || r == Failure(NoFilledLinks))
    ensures r == Failure(EmptyStack) <==> |est.stack| == 0
    ensures r.Success? ==> var e := r.value.1;
              && OnLattice(e)
              && e.lat == est.lat && e.starting_location == est.starting_location
              && e.available_cluster_num == est.available_cluster_num
              && e.cluster_covered_points == est.cluster_covered_points
              && est.clustered.Keys <= e.clustered.Keys
              && (forall p | p in est.clustered :: e.clustered[p] == est.clustered[p])
              && (r.value.0 == Completed ==> !e.is_initialized)
              && (r.value.0 != Completed ==> e.is_initialized == est.is_initialized)
  {
    if |est.stack| == 0 then Failure(EmptyStack)
    else
      var top := |est.stack| - 1;
      var frame := est.stack[top];
      var rest := est.stack[..top];
      if |frame| == 0 then
        if |est.walk_list| == 0 then
          if |rest| != 0 then Failure(WalkListEmpty)
          else Success((Completed, est.(stack := rest, is_initialized := false)))
        else
          var last := |est.walk_list| - 1;
          var back := est.walk_list[last];
          Success((BackedUp, est.(stack := rest,
                                  walk_list := est.walk_list[..last],
                                  current_location := DecrementLocation(est.current_location, back))))
      else
        var d := frame[|frame| - 1];
        var stack := rest + [frame[..|frame| - 1]];
        var cur := IncrementLocation(est.current_location, d);
        if cur.location in est.clustered then
          if est.clustered[cur.location] == est.available_cluster_num then
            Success((FoundClustered, est.(stack := stack,
                                          current_location := DecrementLocation(cur, d))))
          else Failure(ForeignCluster)
        else
          match DirectionsOfFilledLinks(GetVertexFromPoint(est.lat, cur.location))
          case Some(ds) =>
            Success((Marked, est.(stack := stack + [ds],
                                  walk_list := est.walk_list + [d],
                                  current_location := cur,
                                  clustered := est.clustered[cur.location := est.available_cluster_num])))
          case None => Failure(NoFilledLinks)
  }

  /** What each kind of step does: a completed traversal had one empty
      frame and no walk left; backing up drops the last direction of the
      walk and steps back along it; a step onto a site of this cluster is
      undone, leaving the location, the walk and the marks as they were;
      a step onto a new site extends the walk by one direction, moves
      there, and marks that site, and only it. */
  lemma NextStepEffects(est: ClusterSizeEstimator)
    requires OnLattice(est) && Next(est).Success?
    ensures var (st, e) := Next(est).value;
            st == Completed ==>
              && |est.stack| == 1 && est.stack[0] == [] && est.walk_list == []
              && e.stack == [] && e.walk_list == [] && e.clustered == est.clustered
    ensures var (st, e) := Next(est).value;
            st == BackedUp ==>
              && |est.walk_list| > 0
              && e.walk_list == est.walk_list[..|est.walk_list| - 1]
              && e.current_location == DecrementLocation(est.current_location, est.walk_list[|est.walk_list| - 1])
              && e.clustered == est.clustered
    ensures var (st, e) := Next(est).value;
            st == FoundClustered ==>
              && e.current_location == est.current_location
              && e.walk_list == est.walk_list
              && e.clustered == est.clustered
              && |e.stack| == |est.stack|
    ensures var (st, e) := Next(est).value;
            st == Marked ==>
              && |e.walk_list| == |est.walk_list| + 1
              && e.walk_list[..|est.walk_list|] == est.walk_list
              && e.current_location == IncrementLocation(est.current_location, e.walk_list[|est.walk_list|])
              && e.current_location.location !in est.clustered
              && e.clustered == est.clustered[e.current_location.location := est.available_cluster_num]
              && |e.stack| == |est.stack| + 1
  {
    var top := |est.stack| - 1;
    var frame := est.stack[top];
    if |frame| > 0 {
      var d := frame[|frame| - 1];
      DecrementUndoesIncrement(est.current_location, d);
      assert (est.walk_list + [d])[..|est.walk_list|] == est.walk_list;
    }
  }

  // ---------------------------------------------------------------------
  // The traversal invariant

  /** The site reached after the first `k` directions of `walk`. */
  function Loc(start: BoundPoint, walk: seq<Direction>, k: nat): (p: Point)
    requires ValidSize(start.size) && InRange(start) && k <= |walk|
    ensures InBounds(p, start.size)
  {
    WalkFrom(start, walk[..k]).location
  }

  /** The frames line up with the path: one frame per site on it, the top
      one for the current site, and when idle nothing is pending. */
  predicate Shape(est: ClusterSizeEstimator)
  {
    && OnLattice(est)
    && est.starting_location.size == est.lat.size
    && InRange(est.starting_location)
    && est.current_location == WalkFrom(est.starting_location, est.walk_list)
    && (est.is_initialized ==> |est.stack| == |est.walk_list| + 1)
    && (!est.is_initialized ==> est.stack == [] && est.walk_list == [])
  }

  /** Every marked site is on the lattice and carries the cluster number in
      use; the start site is marked while a traversal runs. */
  predicate Marks(est: ClusterSizeEstimator)
  {
    && (forall p | p in est.clustered :: InBounds(p, est.lat.size))
    && (forall p | p in est.clustered :: est.clustered[p] == est.available_cluster_num)
    && (est.is_initialized ==> est.starting_location.location in est.clustered)
  }

  /** Every direction still pending in frame `k` is a filled link of the
      `k`-th site of the path. */
  predicate Frames(est: ClusterSizeEstimator)
    requires Shape(est)
  {
    forall k, d | 0 <= k < |est.stack| && d in est.stack[k] ::
      LinkSeen(est.lat, Loc(est.starting_location, est.walk_list, k), d) != Blank
  }

  /** The link `(p, d)` is still to be tried from some frame of the path. */
  predicate Pending(est: ClusterSizeEstimator, p: Point, d: Direction)
    requires Shape(est)
  {
    exists k | 0 <= k < |est.stack| :: Loc(est.starting_location, est.walk_list, k) == p && d in est.stack[k]
  }

  /** Every filled link out of a marked site leads to a marked site, unless
      it is still pending. */
  predicate Closed(est: ClusterSizeEstimator)
    requires Shape(est) && Marks(est)
  {
    forall p, d | p in est.clustered && LinkSeen(est.lat, p, d) != Blank ::
      Neighbour(est.lat.size, p, d) in est.clustered || Pending(est, p, d)
  }

  predicate Inv(est: ClusterSizeEstimator)
  {
    Shape(est) && Marks(est) && Frames(est) && Closed(est)
  }

  /** A marked set closed under filled links: the cluster is complete. */
  predicate ClusterClosed(lat: Lattice, keys: set<Point>)
    requires WellFormed(lat)
    requires forall p | p in keys :: InBounds(p, lat.size)
  {
    forall p, d | p in keys && LinkSeen(lat, p, d) != Blank :: Neighbour(lat.size, p, d) in keys
  }

  /** A fresh estimator satisfies the invariant, is idle, sits at the
      origin (the unit test of the constructor), and refuses to step. */
  lemma NewIsIdle(lat: Lattice)
    requires WellFormed(lat)
    ensures Inv(New(lat))
    ensures New(lat).current_location.location == Point(0, 0)
    ensures Next(New(lat)) == Failure(EmptyStack)
  {
  }

  /** Starting a cluster from an idle estimator establishes the invariant. */
  lemma InitEstablishesInv(est: ClusterSizeEstimator, point: Point)
    requires Inv(est) && !est.is_initialized
    requires InBounds(point, est.lat.size)
    ensures Inv(InitCalculationLocation(est, point, est.lat))
  {
    var r := InitCalculationLocation(est, point, est.lat);
    assert r.walk_list == [] && |r.stack| == 1;
    assert Loc(r.starting_location, r.walk_list, 0) == point by {
      assert r.walk_list[..0] == [];
    }
    assert Frames(r);
    forall p, d | p in r.clustered && LinkSeen(r.lat, p, d) != Blank
      ensures Neighbour(r.lat.size, p, d) in r.clustered || Pending(r, p, d)
    {
      if p == point {
        assert Loc(r.starting_location, r.walk_list, 0) == p && d in r.stack[0];
      } else {
        assert p in est.clustered;
        assert !Pending(est, p, d);
      }
    }
  }

  /** A seed with no filled link is a cluster of its own: starting there
      pushes an empty frame, and the very next step reports completion
      with only the seed marked. */
  lemma IsolatedSeedCompletesAtOnce(est: ClusterSizeEstimator, point: Point)
    requires WellFormed(est.lat) && est.stack == [] && est.walk_list == []
    requires InBounds(point, est.lat.size)
    requires forall d :: LinkSeen(est.lat, point, d) == Blank
    ensures var r := Next(InitCalculationLocation(est, point, est.lat));
            && r.Success? && r.value.0 == Completed
            && r.value.1.clustered == est.clustered[point := est.available_cluster_num]
            && !r.value.1.is_initialized
  {
    var v := GetVertexFromPoint(est.lat, point);
    assert DirectionsOfFilledLinks(v).None? by {
      FilledDirections(v);
      assert forall d :: LinkAt(v, d) == LinkSeen(est.lat, point, d);
    }
  }

  /** The top frame belongs to the current site. */
  lemma TopFrameIsCurrent(est: ClusterSizeEstimator)
    requires Shape(est) && est.is_initialized
    ensures Loc(est.starting_location, est.walk_list, |est.stack| - 1) == est.current_location.location
  {
    assert est.walk_list[..|est.walk_list|] == est.walk_list;
  }

  /** A step along a filled link lands on a site that has a filled link:
      the one leading back. */
  lemma StepLandsOnFilledSite(lat: Lattice, from: BoundPoint, d: Direction)
    requires WellFormed(lat) && from.size == lat.size && InRange(from)
    requires LinkSeen(lat, from.location, d) != Blank
    ensures IncrementLocation(from, d).location == Neighbour(lat.size, from.location, d)
    ensures DirectionsOfFilledLinks(GetVertexFromPoint(lat, IncrementLocation(from, d).location)).Some?
  {
    var q := Neighbour(lat.size, from.location, d);
    assert IncrementLocation(from, d).location == q;
    EdgeSeenFromBothEnds(lat, from.location, d);
    assert LinkAt(GetVertexFromPoint(lat, q), FlipDirection(d)) != Blank;
  }

  /** While a traversal runs, `next` never reaches any of its panics: the
      walk list cannot run out before the stack, the cluster numbers never
      disagree, and a step along a filled link never lands on an isolated
      site. */
  lemma NextNeverFaultsWhileRunning(est: ClusterSizeEstimator)
    requires Inv(est) && est.is_initialized
    ensures Next(est).Success?
  {
    var frame := est.stack[|est.stack| - 1];
    if |frame| > 0 {
      TopFrameIsCurrent(est);
      assert LinkSeen(est.lat, est.current_location.location, frame[|frame| - 1]) != Blank;
    }
    NextSucceedsWhen(est);
  }

  /** The local facts under which `next` takes a step rather than panic. */
  lemma NextSucceedsWhen(est: ClusterSizeEstimator)
    requires OnLattice(est) && |est.stack| > 0
    requires var frame := est.stack[|est.stack| - 1];
             && (|frame| == 0 && |est.walk_list| == 0 ==> |est.stack| == 1)
             && (|frame| > 0 ==> LinkSeen(est.lat, est.current_location.location, frame[|frame| - 1]) != Blank)
    requires forall p | p in est.clustered :: est.clustered[p] == est.available_cluster_num
    ensures Next(est).Success?
  {
    var frame := est.stack[|est.stack| - 1];
    if |frame| > 0 {
      var d := frame[|frame| - 1];
      var cur := IncrementLocation(est.current_location, d);
      if cur.location !in est.clustered {
        StepLandsOnFilledSite(est.lat, est.current_location, d);
        assert DirectionsOfFilledLinks(GetVertexFromPoint(est.lat, cur.location)).Some?;
        assert Next(est).Success?;
      } else {
        assert est.clustered[cur.location] == est.available_cluster_num;
        assert Next(est).Success?;
      }
    } else if |est.walk_list| == 0 {
      assert est.stack[..|est.stack| - 1] == [];
      assert Next(est).Success?;
    } else {
      assert Next(est).Success?;
    }
  }

  /** Extending a walk does not move the sites of its prefix. */
  lemma LocPrefix(start: BoundPoint, w: seq<Direction>, w2: seq<Direction>, k: nat)
    requires ValidSize(start.size) && InRange(start)
    requires |w| <= |w2| && w2[..|w|] == w && k <= |w|
    ensures Loc(start, w2, k) == Loc(start, w, k)
  {
    assert w2[..k] == w[..k];
  }

  /** The `BackedUp` step keeps the invariant: the dropped frame was empty
      and the walk returns to the previous site. */
  lemma BackUpKeepsInv(est: ClusterSizeEstimator)
    requires Inv(est) && est.is_initialized
    requires |est.stack[|est.stack| - 1]| == 0 && |est.walk_list| > 0
    ensures var last := |est.walk_list| - 1;
            Inv(est.(stack := est.stack[..|est.stack| - 1],
                     walk_list := est.walk_list[..last],
                     current_location := DecrementLocation(est.current_location, est.walk_list[last])))
  {
    var start := est.starting_location;
    var last := |est.walk_list| - 1;
    var walk := est.walk_list[..last];
    var back := est.walk_list[last];
    var e := est.(stack := est.stack[..|est.stack| - 1],
                  walk_list := walk,
                  current_location := DecrementLocation(est.current_location, back));
    var prev := WalkFrom(start, walk);
    assert InRange(prev);
    assert est.current_location == IncrementLocation(prev, back);
    DecrementUndoesIncrement(prev, back);
    assert Shape(e);
    forall k, d | 0 <= k < |e.stack| && d in e.stack[k]
      ensures LinkSeen(e.lat, Loc(start, walk, k), d) != Blank
    {
      LocPrefix(start, walk, est.walk_list, k);
    }
    assert Frames(e);
    forall p, d | p in e.clustered && LinkSeen(e.lat, p, d) != Blank
      ensures Neighbour(e.lat.size, p, d) in e.clustered || Pending(e, p, d)
    {
      if Neighbour(e.lat.size, p, d) !in e.clustered {
        BackUpKeepsPending(est, p, d);
      }
    }
  }

  /** A link pending before backing up is pending after it: the dropped
      frame was empty, and the other frames keep their sites. */
  lemma BackUpKeepsPending(est: ClusterSizeEstimator, p: Point, d: Direction)
    requires Inv(est) && est.is_initialized
    requires |est.stack[|est.stack| - 1]| == 0 && |est.walk_list| > 0
    requires Pending(est, p, d)
    ensures var walk := est.walk_list[..|est.walk_list| - 1];
            var stack := est.stack[..|est.stack| - 1];
            exists k | 0 <= k < |stack| :: Loc(est.starting_location, walk, k) == p && d in stack[k]
  {
    var start := est.starting_location;
    var walk := est.walk_list[..|est.walk_list| - 1];
    var k :| 0 <= k < |est.stack| && Loc(start, est.walk_list, k) == p && d in est.stack[k];
    LocPrefix(start, walk, est.walk_list, k);
    assert est.stack[..|est.stack| - 1][k] == est.stack[k];
  }

  /** Removing the last direction of the top frame leaves a frame whose
      directions were all in it, and loses only that direction. */
  lemma PopDirection(frame: seq<Direction>, x: Direction)
    requires |frame| > 0
    ensures x in frame[..|frame| - 1] ==> x in frame
    ensures x in frame ==> x in frame[..|frame| - 1] || x == frame[|frame| - 1]
  {
    if x in frame && x != frame[|frame| - 1] {
      var i :| 0 <= i < |frame| && frame[i] == x;
      assert frame[..|frame| - 1][i] == x;
    }
  }

  /** The `FoundClustered` step keeps the invariant: the link just tried
      leads to a marked site, so it may leave the frame. */
  lemma FoundClusteredKeepsInv(est: ClusterSizeEstimator)
    requires Inv(est) && est.is_initialized
    requires var frame := est.stack[|est.stack| - 1];
             |frame| > 0 && IncrementLocation(est.current_location, frame[|frame| - 1]).location in est.clustered
    ensures var top := |est.stack| - 1;
            var frame := est.stack[top];
            var d := frame[|frame| - 1];
            Inv(est.(stack := est.stack[..top] + [frame[..|frame| - 1]],
                     current_location := DecrementLocation(IncrementLocation(est.current_location, d), d)))
  {
    var start := est.starting_location;
    var top := |est.stack| - 1;
    var frame := est.stack[top];
    var d := frame[|frame| - 1];
    var cur := IncrementLocation(est.current_location, d);
    var e := est.(stack := est.stack[..top] + [frame[..|frame| - 1]],
                  current_location := DecrementLocation(cur, d));
    DecrementUndoesIncrement(est.current_location, d);
    assert Shape(e);
    TopFrameIsCurrent(est);
    assert cur.location == Neighbour(est.lat.size, est.current_location.location, d);
    forall k, x | 0 <= k < |e.stack| && x in e.stack[k]
      ensures LinkSeen(e.lat, Loc(start, e.walk_list, k), x) != Blank
    {
      if k == top {
        PopDirection(frame, x);
      } else {
        assert e.stack[k] == est.stack[k];
      }
    }
    assert Frames(e);
    forall p, x | p in e.clustered && LinkSeen(e.lat, p, x) != Blank
      ensures Neighbour(e.lat.size, p, x) in e.clustered || Pending(e, p, x)
    {
      if Neighbour(e.lat.size, p, x) !in e.clustered {
        var k :| 0 <= k < |est.stack| && Loc(start, est.walk_list, k) == p && x in est.stack[k];
        if k == top {
          PopDirection(frame, x);
          assert x in e.stack[k];
        } else {
          assert e.stack[k] == est.stack[k];
        }
      }
    }
  }

  /** What `Marked` asks of the state: a traversal running, a direction
      left to try, and the site it leads to unmarked with filled
      directions `ds`. */
  predicate CanMark(est: ClusterSizeEstimator, ds: seq<Direction>)
  {
    && Inv(est) && est.is_initialized
    && var frame := est.stack[|est.stack| - 1];
       && |frame| > 0
       && var cur := IncrementLocation(est.current_location, frame[|frame| - 1]);
          && cur.location !in est.clustered
          && DirectionsOfFilledLinks(GetVertexFromPoint(est.lat, cur.location)) == Some(ds)
  }

  /** The state after the `Marked` step. */
  function AfterMark(est: ClusterSizeEstimator, ds: seq<Direction>): ClusterSizeEstimator
    requires CanMark(est, ds)
  {
    var top := |est.stack| - 1;
    var frame := est.stack[top];
    var d := frame[|frame| - 1];
    var cur := IncrementLocation(est.current_location, d);
    est.(stack := est.stack[..top] + [frame[..|frame| - 1]] + [ds],
         walk_list := est.walk_list + [d],
         current_location := cur,
         clustered := est.clustered[cur.location := est.available_cluster_num])
  }

  /** One entry of one frame after `Marked`: the new frame holds the new
      site's filled directions, the popped frame lost only its last entry,
      and the frames below are untouched. */
  lemma MarkFrameEntry(est: ClusterSizeEstimator, ds: seq<Direction>, k: int, x: Direction)
    requires CanMark(est, ds)
    requires 0 <= k < |AfterMark(est, ds).stack| && x in AfterMark(est, ds).stack[k]
    ensures LinkSeen(est.lat, Loc(est.starting_location, est.walk_list + [AfterMark(est, ds).walk_list[|est.walk_list|]], k), x) != Blank
  {
    var start := est.starting_location;
    var top := |est.stack| - 1;
    var frame := est.stack[top];
    var d := frame[|frame| - 1];
    var cur := IncrementLocation(est.current_location, d);
    var walk := est.walk_list + [d];
    var e := AfterMark(est, ds);
    assert e.walk_list[|est.walk_list|] == d;
    if k == top + 1 {
      TopFrameIsCurrent(est);
      assert cur.location == Neighbour(est.lat.size, est.current_location.location, d);
      assert Loc(start, walk, |walk|) == cur.location by {
        assert walk[..|walk|] == walk;
      }
      assert e.stack[k] == ds;
    } else {
      LocPrefix(start, est.walk_list, walk, k);
      if k == top {
        PopDirection(frame, x);
      } else {
        assert e.stack[k] == est.stack[k];
      }
    }
  }

  /** After `Marked`, the walk ends at the new site and every direction
      left on a frame is still a filled link of that frame's site. */
  lemma MarkKeepsFrames(est: ClusterSizeEstimator, ds: seq<Direction>)
    requires CanMark(est, ds)
    ensures Shape(AfterMark(est, ds)) && Marks(AfterMark(est, ds))
    ensures Frames(AfterMark(est, ds))
  {
    var start := est.starting_location;
    var top := |est.stack| - 1;
    var frame := est.stack[top];
    var d := frame[|frame| - 1];
    var cur := IncrementLocation(est.current_location, d);
    var walk := est.walk_list + [d];
    var e := AfterMark(est, ds);
    assert walk[..|walk| - 1] == est.walk_list;
    assert Shape(e);
    assert Marks(e);
    forall k, x | 0 <= k < |e.stack| && x in e.stack[k]
      ensures LinkSeen(e.lat, Loc(start, walk, k), x) != Blank
    {
      MarkFrameEntry(est, ds, k, x);
    }
  }

  /** After `Marked`, every filled link out of a marked site still leads to
      a marked site or waits on a frame. */
  lemma MarkKeepsClosed(est: ClusterSizeEstimator, ds: seq<Direction>)
    requires CanMark(est, ds)
    requires Shape(AfterMark(est, ds)) && Marks(AfterMark(est, ds))
    ensures Closed(AfterMark(est, ds))
  {
    var e := AfterMark(est, ds);
    forall p, x | p in e.clustered && LinkSeen(e.lat, p, x) != Blank
      ensures Neighbour(e.lat.size, p, x) in e.clustered || Pending(e, p, x)
    {
      if p == e.current_location.location {
        MarkedSiteIsPending(est, ds, x);
      } else if Neighbour(e.lat.size, p, x) !in e.clustered {
        MarkKeepsPending(est, ds, p, x);
      }
    }
  }

  /** After `Marked`, every filled link out of the new site waits on the
      new top frame. */
  lemma MarkedSiteIsPending(est: ClusterSizeEstimator, ds: seq<Direction>, x: Direction)
    requires CanMark(est, ds)
    requires Shape(AfterMark(est, ds))
    requires LinkSeen(est.lat, AfterMark(est, ds).current_location.location, x) != Blank
    ensures Pending(AfterMark(est, ds), AfterMark(est, ds).current_location.location, x)
  {
    var e := AfterMark(est, ds);
    var walk := e.walk_list;
    TopFrameIsCurrent(est);
    assert Loc(e.starting_location, walk, |walk|) == e.current_location.location by {
      assert walk[..|walk|] == walk;
    }
    assert x in e.stack[|est.stack|];
  }

  /** After `Marked`, a link that was pending on an older site is still
      pending: its frame keeps its site, and only the direction just tried
      left the old top frame. */
  lemma MarkKeepsPending(est: ClusterSizeEstimator, ds: seq<Direction>, p: Point, x: Direction)
    requires CanMark(est, ds)
    requires Shape(AfterMark(est, ds))
    requires p in est.clustered && LinkSeen(est.lat, p, x) != Blank
    requires Neighbour(est.lat.size, p, x) !in AfterMark(est, ds).clustered
    ensures Pending(AfterMark(est, ds), p, x)
  {
    var start := est.starting_location;
    var top := |est.stack| - 1;
    var frame := est.stack[top];
    var e := AfterMark(est, ds);
    var k :| 0 <= k < |est.stack| && Loc(start, est.walk_list, k) == p && x in est.stack[k];
    LocPrefix(start, est.walk_list, e.walk_list, k);
    if k == top {
      PopDirection(frame, x);
      assert x in e.stack[k];
    } else {
      assert e.stack[k] == est.stack[k];
    }
  }

  /** The `Marked` step keeps the invariant: the new site is marked, its
      filled directions become the new top frame, and the link just tried
      now leads to a marked site. */
  lemma MarkKeepsInv(est: ClusterSizeEstimator, ds: seq<Direction>)
    requires CanMark(est, ds)
    ensures Inv(AfterMark(est, ds))
  {
    MarkKeepsFrames(est, ds);
    MarkKeepsClosed(est, ds);
  }

  /** `next` keeps the invariant while a traversal runs. */
  lemma NextKeepsInv(est: ClusterSizeEstimator)
    requires Inv(est) && est.is_initialized
    ensures Next(est).Success? && Inv(Next(est).value.1)
  {
    NextNeverFaultsWhileRunning(est);
    var top := |est.stack| - 1;
    var frame := est.stack[top];
    if |frame| == 0 {
      if |est.walk_list| > 0 {
        BackUpKeepsInv(est);
      }
    } else {
      var d := frame[|frame| - 1];
      var cur := IncrementLocation(est.current_location, d);
      if cur.location in est.clustered {
        FoundClusteredKeepsInv(est);
      } else {
        var ds := DirectionsOfFilledLinks(GetVertexFromPoint(est.lat, cur.location)).value;
        MarkKeepsInv(est, ds);
      }
    }
  }

  /** When the traversal completes, the marked sites form a closed set: no
      filled link leaves them. */
  lemma CompletedClusterIsClosed(est: ClusterSizeEstimator)
    requires Inv(est) && !est.is_initialized
    ensures ClusterClosed(est.lat, est.clustered.Keys)
  {
    forall p, d | p in est.clustered && LinkSeen(est.lat, p, d) != Blank
      ensures Neighbour(est.lat.size, p, d) in est.clustered
    {
      assert !Pending(est, p, d);
    }
  }

  // ---------------------------------------------------------------------
  // Termination

  /** Every site of a lattice of the given size. */
  function AllPoints(size: Point): (r: set<Point>)
    ensures forall p :: p in r <==> InBounds(p, size)
  {
    var r := set x: int, y: int | 0 <= x < size.x && 0 <= y < size.y :: Point(x, y);
    assert forall p | InBounds(p, size) :: Point(p.x, p.y) in r;
    r
  }

  /** The sites not yet marked. */
  function Unclustered(est: ClusterSizeEstimator): set<Point>
  {
    AllPoints(est.lat.size) - est.clustered.Keys
  }

  /** One unit per frame and per pending direction. */
  function StackWeight(stack: seq<seq<Direction>>): (w: nat)
    ensures w >= |stack|
    decreases |stack|
  {
    if |stack| == 0 then 0
    else StackWeight(stack[..|stack| - 1]) + |stack[|stack| - 1]| + 1
  }

  lemma StackWeightSnoc(stack: seq<seq<Direction>>, f: seq<Direction>)
    ensures StackWeight(stack + [f]) == StackWeight(stack) + |f| + 1
  {
    assert (stack + [f])[..|stack|] == stack;
  }

  /** Every step of a running traversal either marks a new site or, marking
      nothing, shrinks the stack. */
  lemma NextMakesProgress(est: ClusterSizeEstimator)
    requires Inv(est) && est.is_initialized
    ensures Next(est).Success?
    ensures var e := Next(est).value.1;
            || |Unclustered(e)| < |Unclustered(est)|
            || (Unclustered(e) == Unclustered(est) && StackWeight(e.stack) < StackWeight(est.stack))
  {
    var frame := est.stack[|est.stack| - 1];
    if |frame| == 0 {
      DropFrameIsProgress(est);
    } else if IncrementLocation(est.current_location, frame[|frame| - 1]).location in est.clustered {
      UndoIsProgress(est);
    } else {
      MarkIsProgress(est);
    }
  }

  /** Completing or backing up drops the empty top frame and marks nothing. */
  lemma DropFrameIsProgress(est: ClusterSizeEstimator)
    requires Inv(est) && est.is_initialized
    requires |est.stack[|est.stack| - 1]| == 0
    ensures Next(est).Success?
    ensures var e := Next(est).value.1;
            Unclustered(e) == Unclustered(est) && StackWeight(e.stack) < StackWeight(est.stack)
  {
    NextNeverFaultsWhileRunning(est);
    var top := |est.stack| - 1;
    var rest := est.stack[..top];
    assert est.stack == rest + [est.stack[top]];
    StackWeightSnoc(rest, est.stack[top]);
    assert Next(est).value.1.stack == rest;
  }

  /** An undone step onto a marked site shortens the top frame and marks
      nothing. */
  lemma UndoIsProgress(est: ClusterSizeEstimator)
    requires Inv(est) && est.is_initialized
    requires var frame := est.stack[|est.stack| - 1];
             |frame| > 0 && IncrementLocation(est.current_location, frame[|frame| - 1]).location in est.clustered
    ensures Next(est).Success?
    ensures var e := Next(est).value.1;
            Unclustered(e) == Unclustered(est) && StackWeight(e.stack) < StackWeight(est.stack)
  {
    NextNeverFaultsWhileRunning(est);
    var top := |est.stack| - 1;
    var frame := est.stack[top];
    var rest := est.stack[..top];
    assert est.stack == rest + [frame];
    StackWeightSnoc(rest, frame);
    StackWeightSnoc(rest, frame[..|frame| - 1]);
    assert Next(est).value.1.stack == rest + [frame[..|frame| - 1]];
  }

  /** A step onto an unmarked site marks it. */
  lemma MarkIsProgress(est: ClusterSizeEstimator)
    requires Inv(est) && est.is_initialized
    requires var frame := est.stack[|est.stack| - 1];
             |frame| > 0 && IncrementLocation(est.current_location, frame[|frame| - 1]).location !in est.clustered
    ensures Next(est).Success?
    ensures |Unclustered(Next(est).value.1)| < |Unclustered(est)|
  {
    NextNeverFaultsWhileRunning(est);
    var frame := est.stack[|est.stack| - 1];
    var cur := IncrementLocation(est.current_location, frame[|frame| - 1]);
    var e := Next(est).value.1;
    assert e.clustered == est.clustered[cur.location := est.available_cluster_num];
    MarkShrinksUnclustered(est, e, cur.location);
  }

  /** Marking one more site of the lattice leaves fewer unmarked sites. */
  lemma MarkShrinksUnclustered(est: ClusterSizeEstimator, e: ClusterSizeEstimator, q: Point)
    requires e.lat == est.lat && InBounds(q, est.lat.size) && q !in est.clustered
    requires e.clustered.Keys == est.clustered.Keys + {q}
    ensures |Unclustered(e)| < |Unclustered(est)|
  {
    assert q in Unclustered(est);
    assert Unclustered(e) == Unclustered(est) - {q};
  }

  // ---------------------------------------------------------------------
  // Only the cluster is marked

  /** Every step of `walk` from `start` leaves its site along a filled link. */
  predicate FilledWalk(lat: Lattice, start: BoundPoint, walk: seq<Direction>)
    requires WellFormed(lat) && start.size == lat.size && InRange(start)
  {
    forall k | 0 <= k < |walk| :: LinkSeen(lat, Loc(start, walk, k), walk[k]) != Blank
  }

  /** `p` is joined to `start` by a path of filled links. */
  ghost predicate Reachable(lat: Lattice, start: BoundPoint, p: Point)
    requires WellFormed(lat) && start.size == lat.size && InRange(start)
  {
    exists walk: seq<Direction> :: FilledWalk(lat, start, walk) && WalkFrom(start, walk).location == p
  }

  /** The walk in progress follows filled links, and every site marked
      beyond `base` is reachable from the start of the traversal. */
  ghost predicate Sound(est: ClusterSizeEstimator, base: set<Point>)
    requires Shape(est)
  {
    && FilledWalk(est.lat, est.starting_location, est.walk_list)
    && forall p | p in est.clustered && p !in base :: Reachable(est.lat, est.starting_location, p)
  }

  /** A prefix of a filled walk is a filled walk. */
  lemma FilledWalkPrefix(lat: Lattice, start: BoundPoint, walk: seq<Direction>, j: nat)
    requires WellFormed(lat) && start.size == lat.size && InRange(start)
    requires FilledWalk(lat, start, walk) && j <= |walk|
    ensures FilledWalk(lat, start, walk[..j])
  {
    forall k | 0 <= k < j
      ensures LinkSeen(lat, Loc(start, walk[..j], k), walk[..j][k]) != Blank
    {
      LocPrefix(start, walk[..j], walk, k);
    }
  }

  /** A filled walk extended along a filled link out of its end site is a
      filled walk. */
  lemma FilledWalkSnoc(lat: Lattice, start: BoundPoint, walk: seq<Direction>, d: Direction)
    requires WellFormed(lat) && start.size == lat.size && InRange(start)
    requires FilledWalk(lat, start, walk)
    requires LinkSeen(lat, Loc(start, walk, |walk|), d) != Blank
    ensures FilledWalk(lat, start, walk + [d])
  {
    var w2 := walk + [d];
    assert w2[..|walk|] == walk;
    forall k | 0 <= k < |w2|
      ensures LinkSeen(lat, Loc(start, w2, k), w2[k]) != Blank
    {
      LocPrefix(start, walk, w2, k);
    }
  }

  /** Starting a cluster at `point` is sound: the only new mark is the
      start itself, reached by the empty walk. */
  lemma InitIsSound(est: ClusterSizeEstimator, point: Point)
    requires Inv(est) && !est.is_initialized
    requires InBounds(point, est.lat.size)
    ensures Inv(InitCalculationLocation(est, point, est.lat))
    ensures Sound(InitCalculationLocation(est, point, est.lat), est.clustered.Keys)
  {
    InitEstablishesInv(est, point);
    var r := InitCalculationLocation(est, point, est.lat);
    assert WalkFrom(r.starting_location, []).location == point;
    assert FilledWalk(r.lat, r.starting_location, []);
  }

  /** Soundness survives trimming the walk to a prefix when the marks stay
      as they were. */
  lemma SoundAfterTrim(est: ClusterSizeEstimator, e: ClusterSizeEstimator, base: set<Point>)
    requires Shape(est) && Shape(e) && Sound(est, base)
    requires e.lat == est.lat && e.starting_location == est.starting_location
    requires e.clustered == est.clustered
    requires |e.walk_list| <= |est.walk_list| && e.walk_list == est.walk_list[..|e.walk_list|]
    ensures Sound(e, base)
  {
    FilledWalkPrefix(est.lat, est.starting_location, est.walk_list, |e.walk_list|);
  }

  /** Soundness survives extending the walk along a filled link out of its
      end site and marking the site reached. */
  lemma SoundAfterExtend(est: ClusterSizeEstimator, e: ClusterSizeEstimator, base: set<Point>, d: Direction)
    requires Shape(est) && Shape(e) && Sound(est, base)
    requires e.lat == est.lat && e.starting_location == est.starting_location
    requires e.walk_list == est.walk_list + [d]
    requires LinkSeen(est.lat, Loc(est.starting_location, est.walk_list, |est.walk_list|), d) != Blank
    requires e.clustered.Keys == est.clustered.Keys + {e.current_location.location}
    ensures Sound(e, base)
  {
    FilledWalkSnoc(est.lat, est.starting_location, est.walk_list, d);
    assert FilledWalk(e.lat, e.starting_location, e.walk_list);
    assert WalkFrom(e.starting_location, e.walk_list).location == e.current_location.location;
  }

  /** Every `next` of a running traversal keeps it sound: backing up walks
      a prefix of a filled walk, an undone step marks nothing, and a new
      mark is the end of the walk extended along a filled link taken from
      the top frame. */
  lemma NextKeepsSound(est: ClusterSizeEstimator, base: set<Point>)
    requires Inv(est) && est.is_initialized && Sound(est, base)
    ensures Next(est).Success? && Inv(Next(est).value.1)
    ensures Sound(Next(est).value.1, base)
  {
    NextKeepsInv(est);
    var e := Next(est).value.1;
    var w := est.walk_list;
    var frame := est.stack[|est.stack| - 1];
    if |frame| == 0 {
      if |w| == 0 {
        assert e.walk_list == w[..0];
      } else {
        assert e.walk_list == w[..|w| - 1];
      }
      SoundAfterTrim(est, e, base);
    } else {
      var d := frame[|frame| - 1];
      if IncrementLocation(est.current_location, d).location in est.clustered {
        assert e.walk_list == w[..|w|];
        SoundAfterTrim(est, e, base);
      } else {
        assert d in est.stack[|est.stack| - 1];
        SoundAfterExtend(est, e, base, d);
      }
    }
  }

  /** A set closed under filled links that holds the start of a filled walk
      holds its end: a completed traversal has marked everything reachable. */
  lemma {:induction false} ClosedHoldsReachable(lat: Lattice, keys: set<Point>, start: BoundPoint, walk: seq<Direction>)
    requires WellFormed(lat) && start.size == lat.size && InRange(start)
    requires forall p | p in keys :: InBounds(p, lat.size)
    requires ClusterClosed(lat, keys) && start.location in keys
    requires FilledWalk(lat, start, walk)
    ensures WalkFrom(start, walk).location in keys
    decreases |walk|
  {
    if |walk| > 0 {
      var j := |walk| - 1;
      FilledWalkPrefix(lat, start, walk, j);
      ClosedHoldsReachable(lat, keys, start, walk[..j]);
      var prev := WalkFrom(start, walk[..j]);
      assert prev == BoundPoint(lat.size, prev.location);
      assert LinkSeen(lat, Loc(start, walk, j), walk[j]) != Blank;
      assert Neighbour(lat.size, prev.location, walk[j]) in keys;
    }
  }

  /** Drives `next` from a fresh start at `point` until the cluster is
      complete. The traversal never panics, always finishes, keeps earlier
      marks, and marks exactly the sites joined to `point` by filled links:
      every site reachable from `point` ends up marked, and every site it
      newly marks is reachable from `point`. */
  method SizeCluster(est: ClusterSizeEstimator, point: Point) returns (r: ClusterSizeEstimator, steps: nat)
    requires Inv(est) && !est.is_initialized && InBounds(point, est.lat.size)
    ensures Inv(r) && !r.is_initialized && r.lat == est.lat
    ensures point in r.clustered && est.clustered.Keys <= r.clustered.Keys
    ensures ClusterClosed(r.lat, r.clustered.Keys)
    ensures forall p | p in r.clustered && p !in est.clustered ::
              Reachable(r.lat, BoundPoint(est.lat.size, point), p)
    ensures forall walk | FilledWalk(r.lat, BoundPoint(est.lat.size, point), walk) ::
              WalkFrom(BoundPoint(est.lat.size, point), walk).location in r.clustered
  {
    r := InitCalculationLocation(est, point, est.lat);
    InitIsSound(est, point);
    steps := 0;
    while r.is_initialized
      invariant Inv(r) && r.lat == est.lat
      invariant point in r.clustered && est.clustered.Keys <= r.clustered.Keys
      invariant r.starting_location == BoundPoint(est.lat.size, point)
      invariant Sound(r, est.clustered.Keys)
      decreases |Unclustered(r)|, StackWeight(r.stack)
    {
      NextKeepsSound(r, est.clustered.Keys);
      NextMakesProgress(r);
      var step := Next(r);
      r := step.value.1;
      steps := steps + 1;
    }
    CompletedClusterIsClosed(r);
    forall walk | FilledWalk(r.lat, r.starting_location, walk)
      ensures WalkFrom(r.starting_location, walk).location in r.clustered
    {
      ClosedHoldsReachable(r.lat, r.clustered.Keys, r.starting_location, walk);
    }
  }
}
