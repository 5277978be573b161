/** The winding self-check of estimators/winding_variance_estimator.rs.

    Each pass walks one line of links across the torus twice: the primary
    line and a parallel check line one column (or row) further on. Every
    link read contributes +1, -1 or 0 to a running sum, and the two sums
    must agree modulo 3. The variance output (floating point and a file)
    is not modelled. */
module WindingVariance {
  import opened Datamodel
  import opened Cluster
  import opened LatticeStore

  /** The two lists of raw winding sums, one entry per measurement. */
  datatype WindingNumberVarianceEstimator =
    WindingNumberVarianceEstimator(counts_horizontal: seq<int>, counts_vertical: seq<int>)

  /** `simple_add_sub_from_link_direction`, not modelled from a body but
      defined from its name and use: an outward link counts +1, an inward
      one -1 and a blank one nothing. */
  function Charge(l: Link): (c: int)
    ensures -1 <= c <= 1
    ensures c == 0 <==> l == Blank
    ensures c == 1 <==> l == Out
  {
    match l
    case Out => 1
    case In => -1
    case Blank => 0
  }

  /** Seen from the other end a link carries the opposite charge, and
      raising a link adds one to its charge modulo 3. */
  lemma ChargeLaws(l: Link)
    ensures Charge(FlipLink(l)) == -Charge(l)
    ensures (Charge(Raise(l)) - Charge(l) - 1) % 3 == 0
  {
    match l
    case Out =>
    case In =>
    case Blank =>
  }

  /** `modulo_winding_number`, not modelled from a body but defined from
      its name and use: the winding number reduced to Z3 with a true
      modulus. */
  function ModuloWinding(n: int): (r: int)
    ensures 0 <= r < 3
    ensures (n - r) % 3 == 0
  {
    ModIsCongruent(n, 3);
    n % 3
  }

  /** Two sums reduce to the same winding number exactly when they are
      congruent modulo 3. */
  lemma ModuloWindingAgrees(a: int, b: int)
    ensures ModuloWinding(a) == ModuloWinding(b) <==> (a - b) % 3 == 0
  {
    var ra, rb := ModuloWinding(a), ModuloWinding(b);
    var qa, qb := (a - ra) / 3, (b - rb) / 3;
    assert a - ra == qa * 3 && b - rb == qb * 3;
    assert a - b == (qa - qb) * 3 + (ra - rb);
    if ra == rb {
      MultipleModIsZero(qa - qb, 3);
    } else if ra > rb {
      DivModUnique(a - b, 3, qa - qb, ra - rb);
    } else {
      DivModUnique(a - b, 3, qa - qb - 1, 3 + ra - rb);
    }
  }

  /** The two passes: the vertical pass counts the horizontal links met
      going up a column, the horizontal pass the vertical links met going
      along a row. */
  datatype Axis = Vertical | Horizontal

  /** The number of links a pass reads. */
  function LineLength(axis: Axis, size: Point): int
  {
    match axis
    case Vertical => size.y
    case Horizontal => size.x
  }

  /** The direction of the links a pass counts. */
  function Across(axis: Axis): Direction
  {
    match axis
    case Vertical => E
    case Horizontal => N
  }

  /** Site `i` of line `k` of a pass: column `k` for the vertical pass,
      row `k` for the horizontal one. */
  function LinePoint(axis: Axis, k: int, i: int): Point
  {
    match axis
    case Vertical => Point(k, i)
    case Horizontal => Point(i, k)
  }

  /** The lattices the check can read: well-formed, with at least three
      columns and three rows (it reads at x = 2 and at y = 2). */
  predicate Measurable(lat: Lattice)
  {
    WellFormed(lat) && lat.size.x >= 3 && lat.size.y >= 3
  }

  /** The sites and directions read at index `i` of a pass: the primary
      site and direction, then the check site and direction. All four
      sites are real, so only stored links are read. */
  function ReadSites(axis: Axis, i: int): (r: (Point, Direction, Point, Direction))
    requires i >= 0
    ensures r.0.x >= 0 && r.0.y >= 0 && PointReal(r.0)
    ensures r.2.x >= 0 && r.2.y >= 0 && PointReal(r.2)
    ensures i % 2 == 0 ==> r.0 == LinePoint(axis, 0, i) && r.2 == LinePoint(axis, 2, i)
    ensures i % 2 == 1 ==> r.0 == r.2 == LinePoint(axis, 1, i)
  {
    match axis
    case Vertical =>
      if i % 2 == 0 then (Point(0, i), E, Point(2, i), W) else (Point(1, i), W, Point(1, i), E)
    case Horizontal =>
      if i % 2 == 0 then (Point(i, 0), N, Point(i, 2), S) else (Point(i, 1), S, Point(i, 1), N)
  }

  /** The two readings at index `i`: the primary reading is flipped on odd
      indices and the check reading on even ones. */
  function Reading(lat: Lattice, axis: Axis, i: int): (r: (Link, Link))
    requires Measurable(lat) && 0 <= i < LineLength(axis, lat.size)
    ensures r.0 == LinkSeen(lat, LinePoint(axis, 0, i), Across(axis))
    ensures r.1 == LinkSeen(lat, LinePoint(axis, 1, i), Across(axis))
  {
    var (p, d, q, e) := ReadSites(axis, i);
    var link := SafeGetLinkFromPoint(lat, p, d);
    var check := SafeGetLinkFromPoint(lat, q, e);
    ReadingSeesLines(lat, axis, i);
    (if i % 2 == 1 then FlipLink(link) else link,
     if i % 2 == 0 then FlipLink(check) else check)
  }

  /** Both readings of index `i` are the links crossing lines 0 and 1, as
      seen from the line side: the flips undo the change of sublattice. */
  lemma ReadingSeesLines(lat: Lattice, axis: Axis, i: int)
    requires Measurable(lat) && 0 <= i < LineLength(axis, lat.size)
    ensures var (p, d, q, e) := ReadSites(axis, i);
            && InBounds(p, lat.size) && InBounds(q, lat.size)
            && LinkSeen(lat, LinePoint(axis, 0, i), Across(axis))
               == (if i % 2 == 1 then FlipLink(SafeGetLinkFromPoint(lat, p, d)) else SafeGetLinkFromPoint(lat, p, d))
            && LinkSeen(lat, LinePoint(axis, 1, i), Across(axis))
               == (if i % 2 == 0 then FlipLink(SafeGetLinkFromPoint(lat, q, e)) else SafeGetLinkFromPoint(lat, q, e))
  {
    var a := Across(axis);
    var p0, p1, p2 := LinePoint(axis, 0, i), LinePoint(axis, 1, i), LinePoint(axis, 2, i);
    assert InBounds(p0, lat.size) && InBounds(p1, lat.size) && InBounds(p2, lat.size);
    StepCoordinates(lat.size, p0, a);
    StepCoordinates(lat.size, p1, a);
    StepCoordinates(lat.size, p2, FlipDirection(a));
    if i % 2 == 0 {
      assert Neighbour(lat.size, p1, a) == p2;
    } else {
      assert Neighbour(lat.size, p0, a) == p1;
    }
  }

  /** The links in direction `d` at the sites of line `k`, in order. */
  function View(lat: Lattice, axis: Axis, k: int, d: Direction): (v: seq<Link>)
    requires WellFormed(lat) && 0 <= k < 2
    ensures |v| == LineLength(axis, lat.size)
    ensures forall i :: 0 <= i < |v| ==> v[i] == LinkSeen(lat, LinePoint(axis, k, i), d)
  {
    var len := LineLength(axis, lat.size);
    seq(len, i requires 0 <= i < len => LinkSeen(lat, LinePoint(axis, k, i), d))
  }

  /** The total charge of a sequence of links. */
  function Charges(ls: seq<Link>): int
  {
    if |ls| == 0 then 0 else Charges(ls[..|ls| - 1]) + Charge(ls[|ls| - 1])
  }

  lemma ChargesSnoc(ls: seq<Link>, i: int)
    requires 0 <= i < |ls|
    ensures Charges(ls[..i + 1]) == Charges(ls[..i]) + Charge(ls[i])
  {
    assert ls[..i + 1][..i] == ls[..i];
  }

  /** The winding number of line `k`: the charge of every link crossing it. */
  function Winding(lat: Lattice, axis: Axis, k: int): int
    requires WellFormed(lat) && 0 <= k < 2
  {
    Charges(View(lat, axis, k, Across(axis)))
  }

  /** Whether the two lines of a pass disagree modulo 3. */
  predicate Mismatch(lat: Lattice, axis: Axis)
    requires WellFormed(lat)
  {
    ModuloWinding(Winding(lat, axis, 0)) != ModuloWinding(Winding(lat, axis, 1))
  }

  /** One pass of `measure`: the primary and check sums. */
  method SumPass(lat: Lattice, axis: Axis) returns (count: int, check: int)
    requires Measurable(lat)
    ensures count == Winding(lat, axis, 0) && check == Winding(lat, axis, 1)
  {
    var primary, second := View(lat, axis, 0, Across(axis)), View(lat, axis, 1, Across(axis));
    count, check := 0, 0;
    var i := 0;
    while i < LineLength(axis, lat.size)
      invariant 0 <= i <= LineLength(axis, lat.size)
      invariant count == Charges(primary[..i]) && check == Charges(second[..i])
    {
      var (link, link_check) := Reading(lat, axis, i);
      assert count + Charge(link) == Charges(primary[..i + 1]) by {
        ChargesSnoc(primary, i);
      }
      assert check + Charge(link_check) == Charges(second[..i + 1]) by {
        ChargesSnoc(second, i);
      }
      count := count + Charge(link);
      check := check + Charge(link_check);
      i := i + 1;
    }
    assert primary[..i] == primary && second[..i] == second;
  }

  /** `measure`: both passes, each checked modulo 3; on success the raw
      sums are appended. The vertical check runs first, but both failures
      are the same fault. */
  method Measure(est: WindingNumberVarianceEstimator, lat: Lattice) returns (r: Result<WindingNumberVarianceEstimator>)
    requires Measurable(lat)
    ensures r.Failure? <==> Mismatch(lat, Vertical) || Mismatch(lat, Horizontal)
    ensures r.Failure? ==> r.fault == WindingMismatch
    ensures r.Success? ==>
              && r.value.counts_horizontal == est.counts_horizontal + [Winding(lat, Horizontal, 0)]
              && r.value.counts_vertical == est.counts_vertical + [Winding(lat, Vertical, 0)]
  {
    var vert, vert_check := SumPass(lat, Vertical);
    if ModuloWinding(vert) != ModuloWinding(vert_check) {
      return Failure(WindingMismatch);
    }
    var horz, horz_check := SumPass(lat, Horizontal);
    if ModuloWinding(horz) != ModuloWinding(horz_check) {
      return Failure(WindingMismatch);
    }
    r := Success(est.(counts_horizontal := est.counts_horizontal + [horz],
                      counts_vertical := est.counts_vertical + [vert]));
  }

  /** `clear`: both lists emptied. */
  function Clear(est: WindingNumberVarianceEstimator): (r: WindingNumberVarianceEstimator)
    ensures |r.counts_horizontal| == 0 && |r.counts_vertical| == 0
  {
    WindingNumberVarianceEstimator([], [])
  }
}
