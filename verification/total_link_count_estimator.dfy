/** The total link count estimator of estimators/total_link_count_estimator.rs:
    a single counter that each measurement raises by the number of
    non-Blank links stored in the lattice. The averaged output (floating
    point and a file) is not modelled, and neither is the wrap-around of
    the unsigned 64-bit counter. */
module TotalLinkCount {
  import opened Datamodel
  import opened Cluster
  import opened LatticeStore
  import opened LinkCounts

  datatype TotalLinkCountEstimator = TotalLinkCountEstimator(count: int)

  /** `new`: the count starts at zero. */
  function New(): (est: TotalLinkCountEstimator)
    ensures est.count == 0
  {
    TotalLinkCountEstimator(0)
  }

  /** `clear`: the count returns to zero. */
  function Clear(est: TotalLinkCountEstimator): (r: TotalLinkCountEstimator)
    ensures r.count == 0
    ensures r == New()
  {
    est.(count := 0)
  }

  /** How many of the four links of `v` are not Blank. */
  function FilledLinks(v: Vertex): int
  {
    Indicator(v.n != Blank) + Indicator(v.e != Blank)
      + Indicator(v.s != Blank) + Indicator(v.w != Blank)
  }

  /** The non-Blank links of a sequence of vertices, all four links each. */
  function NonBlankCount(vs: seq<Vertex>): int
  {
    if |vs| == 0 then 0 else NonBlankCount(vs[..|vs| - 1]) + FilledLinks(vs[|vs| - 1])
  }

  lemma NonBlankCountSnoc(vs: seq<Vertex>, i: int)
    requires 0 <= i < |vs|
    ensures NonBlankCount(vs[..i + 1]) == NonBlankCount(vs[..i]) + FilledLinks(vs[i])
  {
    assert vs[..i + 1][..i] == vs[..i];
  }

  /** `measure`: each link of each stored vertex that is In or Out adds one. */
  method Measure(est: TotalLinkCountEstimator, lat: Lattice) returns (r: TotalLinkCountEstimator)
    ensures r.count == est.count + NonBlankCount(lat.vertices)
  {
    var count := est.count;
    var i := 0;
    while i < |lat.vertices|
      invariant 0 <= i <= |lat.vertices|
      invariant count == est.count + NonBlankCount(lat.vertices[..i])
    {
      var v := lat.vertices[i];
      NonBlankCountSnoc(lat.vertices, i);
      match v.n {
        case In => count := count + 1;
        case Out => count := count + 1;
        case Blank =>
      }
      match v.e {
        case In => count := count + 1;
        case Out => count := count + 1;
        case Blank =>
      }
      match v.s {
        case In => count := count + 1;
        case Out => count := count + 1;
        case Blank =>
      }
      match v.w {
        case In => count := count + 1;
        case Out => count := count + 1;
        case Blank =>
      }
      i := i + 1;
    }
    assert lat.vertices[..i] == lat.vertices;
    r := est.(count := count);
  }

  /** The links a vertex contributes are exactly the directions the cluster
      traversal may leave it by. */
  lemma FilledLinksAreFilledDirections(v: Vertex)
    ensures var ds := DirectionsOfFilledLinks(v);
            FilledLinks(v) == if ds.None? then 0 else |ds.value|
  {
  }

  /** A measurement never lowers the count and raises it by at most four
      per stored vertex. */
  lemma {:induction false} NonBlankCountBounds(vs: seq<Vertex>)
    ensures 0 <= NonBlankCount(vs) <= 4 * |vs|
  {
    if |vs| > 0 {
      NonBlankCountBounds(vs[..|vs| - 1]);
    }
  }

  /** Vertices whose links are all Blank contribute nothing. */
  lemma {:induction false} AllBlankCountsNothing(vs: seq<Vertex>)
    requires forall i, d :: 0 <= i < |vs| ==> LinkAt(vs[i], d) == Blank
    ensures NonBlankCount(vs) == 0
  {
    if |vs| > 0 {
      var k := |vs| - 1;
      assert LinkAt(vs[k], N) == Blank && LinkAt(vs[k], E) == Blank;
      assert LinkAt(vs[k], S) == Blank && LinkAt(vs[k], W) == Blank;
      AllBlankCountsNothing(vs[..k]);
    }
  }

  /** Measuring a freshly built blank lattice leaves the count unchanged. */
  lemma MeasuringBlankLatticeAddsNothing(size: Point)
    requires size.x > 0 && size.y >= 0
    ensures NonBlankCount(BuildBlankLat(size).vertices) == 0
  {
    AllBlankCountsNothing(BuildBlankLat(size).vertices);
  }
}
