/** The lattice store of datamodel/lattice.rs: only the "real" sublattice
    (sites with x + y even) is stored; the other half is implied.

    `GetLinkFromPoint` is the repository's lookup as written, which indexes
    the vertex vector by `x + y`. That index does not match the row-by-row
    layout the builder produces (see `GetLinkFromPointReadsWrongVertex`).
    The other lookups (`safe_get_link_from_point`, `out_raise_link`,
    `out_lower_link`, `get_vertex_from_point`) are not modelled from a
    body; each is defined from its name and use, with the row-by-row index
    `VertexIndex`, which is proved to find the vertex stored at the
    requested point. Results about the walker, Gauss's law, the estimators
    and the output therefore hold for this corrected store, not for a
    program whose walker reads through the `x + y` index. */
module LatticeStore {
  import opened Datamodel
  import opened Cluster

  /** The stored vertices and the lattice size. */
  datatype Lattice = Lattice(vertices: seq<Vertex>, size: Point)

  /** The number of stored vertices: half of all sites. */
  function Half(size: Point): int
  {
    (size.x * size.y) / 2
  }

  /** `point_real`: whether `p` lies on the stored sublattice. */
  predicate PointReal(p: Point)
    requires p.x >= 0 && p.y >= 0
  {
    (p.x + p.y) % 2 == 0
  }

  /** `get_link_from_point` as written: a real point reads the vertex at
      vector position `x + y`; an implied point panics. */
  function GetLinkFromPoint(lat: Lattice, loc: Point, d: Direction): (r: Result<Link>)
    requires loc.x >= 0 && loc.y >= 0
    ensures r == Failure(ImpliedVertex) <==> !PointReal(loc)
    ensures r == Failure(IndexOutOfRange) <==> PointReal(loc) && loc.x + loc.y >= |lat.vertices|
    ensures r.Success? ==> r.value == LinkAt(lat.vertices[loc.x + loc.y], d)
  {
    var vloc := loc.x + loc.y;
    if PointReal(loc) then
      if vloc < |lat.vertices| then Success(LinkAt(lat.vertices[vloc], d))
      else Failure(IndexOutOfRange)
    else
      Failure(ImpliedVertex)
  }

  /** `y_from_vertex_vec_position` as written: the row of vector position
      `position`, with a guard that rejects only positions past `Half`. */
  function YFromVertexVecPosition(position: int, size: Point): (r: Result<int>)
    requires position >= 0 && size.x > 0 && size.y >= 0
    ensures r.Failure? <==> position > Half(size)
    ensures r.Success? ==> r.value * size.x <= 2 * position < (r.value + 1) * size.x
  {
    if position > Half(size) then Failure(PositionTooLarge)
    else
      var y := position * 2 / size.x;
      MulDistributes(y, 1, size.x);
      Success(y)
  }

  /** `x_from_vertex_vec_position`: twice the position, shifted by one on
      odd rows, reduced modulo the width. */
  function XFromVertexVecPosition(position: int, size: Point): (r: Result<int>)
    requires position >= 0 && size.x > 0 && size.y >= 0
    ensures r.Failure? <==> position > Half(size)
    ensures r.Success? ==> 0 <= r.value < size.x
    ensures r.Success? ==>
              var shift := if YFromVertexVecPosition(position, size).value % 2 == 0 then 0 else 1;
              (2 * position + shift - r.value) % size.x == 0
  {
    match YFromVertexVecPosition(position, size)
    case Failure(f) => Failure(f)
    case Success(y) =>
      var x := if y % 2 == 0 then (position * 2) % size.x else (position * 2 + 1) % size.x;
      ModIsCongruent(position * 2, size.x);
      ModIsCongruent(position * 2 + 1, size.x);
      Success(x)
  }

  /** The row guard with `>=` in place of `>`: it accepts exactly the
      positions of stored vertices, and every row it returns is in range. */
  function YFromVertexVecPositionChecked(position: int, size: Point): (r: Result<int>)
    requires position >= 0 && size.x > 0 && size.y >= 0
    ensures r.Failure? <==> position >= Half(size)
    ensures r.Success? ==> 0 <= r.value < size.y
    ensures r.Success? ==> YFromVertexVecPosition(position, size) == r
  {
    if position >= Half(size) then Failure(PositionTooLarge)
    else
      var y := position * 2 / size.x;
      assert 2 * position < size.x * size.y by {
        assert 2 * Half(size) <= size.x * size.y;
      }
      assert y < size.y by {
        if y >= size.y {
          MulMonotone(size.y, y, size.x);
        }
      }
      Success(y)
  }

  /** The guard of `y_from_vertex_vec_position` lets the one-past-the-end
      position through: on a lattice of even width it yields the row
      `size.y`, which is outside the lattice. */
  lemma YFromAcceptsOnePastEnd(size: Point)
    requires size.x > 0 && size.y > 0 && size.x % 2 == 0
    ensures YFromVertexVecPosition(Half(size), size) == Success(size.y)
    ensures YFromVertexVecPositionChecked(Half(size), size).Failure?
  {
    var h := size.x / 2;
    HalfOfEvenWidth(size);
    assert Half(size) * 2 == size.y * size.x;
    DivModUnique(Half(size) * 2, size.x, size.y, 0);
  }

  lemma MulMonotone(a: int, b: int, m: int)
    requires a <= b && m >= 0
    ensures a * m <= b * m
  {
    MulDistributes(b - a, a, m);
    assert (b - a) * m >= 0;
  }

  /** On a lattice of even width `2h`, there are `h` stored vertices per row. */
  lemma HalfOfEvenWidth(size: Point)
    requires size.x > 0 && size.y >= 0 && size.x % 2 == 0
    ensures Half(size) == (size.x / 2) * size.y
  {
    var h := size.x / 2;
    assert size.x == 2 * h;
    assert size.x * size.y == 2 * (h * size.y);
    DivModUnique(size.x * size.y, 2, h * size.y, 0);
  }

  /** The coordinate the builder gives to vector position `i`. */
  function VertexPoint(i: int, size: Point): (p: Point)
    requires size.x > 0 && size.y >= 0 && 0 <= i < Half(size)
    ensures InBounds(p, size)
  {
    Point(XFromVertexVecPosition(i, size).value, YFromVertexVecPositionChecked(i, size).value)
  }

  /** A lattice size the model runs on: both sides positive and even. */
  predicate EvenSize(size: Point)
  {
    size.x > 0 && size.y > 0 && size.x % 2 == 0 && size.y % 2 == 0
  }

  /** The builder's position in closed form, for an even width `2h`: row
      `i / h`, column `2 (i mod h)` plus the row's parity. */
  lemma VertexPointClosedForm(i: int, size: Point)
    requires EvenSize(size) && 0 <= i < Half(size)
    ensures var h := size.x / 2;
            VertexPoint(i, size) == Point(2 * (i % h) + (i / h) % 2, i / h)
  {
    var h := size.x / 2;
    var q := i / h;
    var k := i % h;
    assert i == q * h + k;
    assert 2 * i == q * size.x + 2 * k;
    assert 2 * i + 1 == q * size.x + (2 * k + 1);
    DivModUnique(2 * i, size.x, q, 2 * k);
    DivModUnique(2 * i + 1, size.x, q, 2 * k + 1);
  }

  /** `VertexIndex` is the row-by-row position of a stored point: `h`
      vertices per row, two columns per vertex. */
  function VertexIndex(p: Point, size: Point): (i: int)
    requires EvenSize(size) && InBounds(p, size) && PointReal(p)
    ensures 0 <= i < Half(size)
  {
    VertexIndexInRange(p, size);
    p.y * (size.x / 2) + p.x / 2
  }

  lemma VertexIndexInRange(p: Point, size: Point)
    requires EvenSize(size) && InBounds(p, size)
    ensures 0 <= p.y * (size.x / 2) + p.x / 2 < Half(size)
  {
    var h := size.x / 2;
    HalfOfEvenWidth(size);
    assert 0 <= p.x / 2 < h;
    assert 0 <= p.y * h <= (size.y - 1) * h by {
      MulMonotone(0, p.y, h);
      MulMonotone(p.y, size.y - 1, h);
    }
    assert (size.y - 1) * h + h == h * size.y by {
      MulDistributes(size.y - 1, 1, h);
      MulCommutes(size.y, h);
    }
  }

  lemma SameParity(a: int, b: int)
    requires (a + b) % 2 == 0
    ensures a % 2 == b % 2
  {
  }

  /** The builder places the vertex of a stored point at its `VertexIndex`. */
  lemma VertexIndexIsInverse(p: Point, size: Point)
    requires EvenSize(size) && InBounds(p, size) && PointReal(p)
    ensures VertexPoint(VertexIndex(p, size), size) == p
  {
    var h := size.x / 2;
    var i := VertexIndex(p, size);
    assert i == p.y * h + p.x / 2 && 0 <= p.x / 2 < h;
    DivModUnique(i, h, p.y, p.x / 2);
    VertexPointClosedForm(i, size);
    SameParity(p.x, p.y);
    assert 2 * (p.x / 2) + p.y % 2 == p.x;
    assert VertexPoint(i, size) == Point(2 * (p.x / 2) + p.y % 2, p.y);
  }

  /** Every builder position is a real in-range point whose index is the
      position itself: the layout is one-to-one onto the real sublattice. */
  lemma VertexPointIsStored(i: int, size: Point)
    requires EvenSize(size) && 0 <= i < Half(size)
    ensures PointReal(VertexPoint(i, size))
    ensures VertexIndex(VertexPoint(i, size), size) == i
  {
    var h := size.x / 2;
    var q, k := i / h, i % h;
    var p := VertexPoint(i, size);
    assert p == Point(2 * k + q % 2, q) by { VertexPointClosedForm(i, size); }
    ClosedFormIndex(i, h);
    assert VertexIndex(p, size) == p.y * h + p.x / 2;
  }

  /** Integer core of `VertexPointIsStored`: the closed-form column has the
      row's parity, and halving it gives back the position in the row. */
  lemma ClosedFormIndex(i: int, h: int)
    requires i >= 0 && h > 0
    ensures var q, k := i / h, i % h;
            (2 * k + q % 2 + q) % 2 == 0 && q * h + (2 * k + q % 2) / 2 == i
  {
    var q, k := i / h, i % h;
    assert (2 * k + q % 2) / 2 == k by { DivModUnique(2 * k + q % 2, 2, k, q % 2); }
    assert (2 * k + q % 2 + q) % 2 == 0 by { ParityOfClosedForm(k, q); }
  }

  lemma ParityOfClosedForm(k: int, q: int)
    ensures (2 * k + q % 2 + q) % 2 == 0
  {
  }

  /** The stored-lattice invariant: even sides and one stored vertex per
      real site. */
  predicate WellFormed(lat: Lattice)
  {
    EvenSize(lat.size) && |lat.vertices| == Half(lat.size)
  }

  /** Each stored vertex carries the coordinate the builder gave its
      position. No update changes a coordinate. */
  predicate LaidOut(lat: Lattice)
  {
    && WellFormed(lat)
    && forall i :: 0 <= i < |lat.vertices| ==> lat.vertices[i].xy == VertexPoint(i, lat.size)
  }

  function BlankVertex(p: Point): Vertex
  {
    Vertex(Blank, Blank, Blank, Blank, p)
  }

  /** `build_blank_lat`: one all-Blank vertex per stored site. */
  function BuildBlankLat(size: Point): (lat: Lattice)
    requires size.x > 0 && size.y >= 0
    ensures lat.size == size
    ensures |lat.vertices| == Half(size)
    ensures forall i :: 0 <= i < |lat.vertices| ==> lat.vertices[i].xy == VertexPoint(i, size)
    ensures forall i, d :: 0 <= i < |lat.vertices| ==> LinkAt(lat.vertices[i], d) == Blank
    ensures EvenSize(size) ==> LaidOut(lat)
  {
    assert size.x * size.y >= 0;
    var n := Half(size);
    Lattice(seq(n, i requires 0 <= i < n =>
                  BlankVertex(Point(XFromVertexVecPosition(i, size).value,
                                    YFromVertexVecPosition(i, size).value))),
            size)
  }

  /** On an even lattice the builder's coordinates are real, in range,
      pairwise distinct, and cover every real site. */
  lemma BuiltVerticesCoverRealSublattice(size: Point)
    requires EvenSize(size)
    ensures var lat := BuildBlankLat(size);
            && (forall i :: 0 <= i < |lat.vertices| ==>
                  InBounds(lat.vertices[i].xy, size) && PointReal(lat.vertices[i].xy))
            && (forall i, j :: 0 <= i < j < |lat.vertices| ==> lat.vertices[i].xy != lat.vertices[j].xy)
            && (forall p :: InBounds(p, size) && PointReal(p) ==>
                  exists i :: 0 <= i < |lat.vertices| && lat.vertices[i].xy == p)
  {
    var lat := BuildBlankLat(size);
    forall i | 0 <= i < |lat.vertices|
      ensures InBounds(lat.vertices[i].xy, size) && PointReal(lat.vertices[i].xy)
    {
      VertexPointIsStored(i, size);
    }
    forall i, j | 0 <= i < j < |lat.vertices|
      ensures lat.vertices[i].xy != lat.vertices[j].xy
    {
      VertexPointIsStored(i, size);
      VertexPointIsStored(j, size);
    }
    forall p | InBounds(p, size) && PointReal(p)
      ensures exists i :: 0 <= i < |lat.vertices| && lat.vertices[i].xy == p
    {
      var i := VertexIndex(p, size);
      VertexIndexIsInverse(p, size);
      assert lat.vertices[i].xy == p;
    }
  }

  /** On the 4 x 4 lattice the as-written lookup of the real point (2, 0)
      reads vector position 2, which the builder placed at (1, 1). */
  lemma GetLinkFromPointReadsWrongVertex()
    ensures var lat := BuildBlankLat(Point(4, 4));
            && PointReal(Point(2, 0))
            && GetLinkFromPoint(lat, Point(2, 0), N).Success?
            && lat.vertices[2].xy == Point(1, 1)
            && lat.vertices[2].xy != Point(2, 0)
            && VertexIndex(Point(2, 0), Point(4, 4)) == 1
  {
    var size := Point(4, 4);
    VertexIndexIsInverse(Point(2, 0), size);
    DivModUnique(4, 4, 1, 0);
    DivModUnique(5, 4, 1, 1);
  }

  /** In a laid-out lattice a stored vertex is found only at its index. */
  lemma StoredVertexIsUnique(lat: Lattice, i: int)
    requires LaidOut(lat) && 0 <= i < |lat.vertices|
    ensures PointReal(lat.vertices[i].xy)
    ensures VertexIndex(lat.vertices[i].xy, lat.size) == i
  {
    VertexPointIsStored(i, lat.size);
  }

  /** `safe_get_link_from_point`: the link in direction `d` of the vertex
      stored at the real point `p`. */
  function SafeGetLinkFromPoint(lat: Lattice, p: Point, d: Direction): Link
    requires WellFormed(lat) && InBounds(p, lat.size) && PointReal(p)
  {
    LinkAt(lat.vertices[VertexIndex(p, lat.size)], d)
  }

  /** In a laid-out lattice the corrected lookup reads the vertex whose
      coordinate is `p`, and that vertex is stored nowhere else. */
  lemma SafeGetReadsVertexAtPoint(lat: Lattice, p: Point, d: Direction)
    requires LaidOut(lat) && InBounds(p, lat.size) && PointReal(p)
    ensures exists i :: && 0 <= i < |lat.vertices| && lat.vertices[i].xy == p
                        && SafeGetLinkFromPoint(lat, p, d) == LinkAt(lat.vertices[i], d)
    ensures forall j :: 0 <= j < |lat.vertices| && lat.vertices[j].xy == p ==> j == VertexIndex(p, lat.size)
  {
    var i := VertexIndex(p, lat.size);
    VertexIndexIsInverse(p, lat.size);
    assert lat.vertices[i].xy == p;
    forall j | 0 <= j < |lat.vertices| && lat.vertices[j].xy == p
      ensures j == i
    {
      VertexPointIsStored(j, lat.size);
    }
  }

  /** Writes one stored link; every other stored link keeps its value. */
  function SetLink(lat: Lattice, p: Point, d: Direction, l: Link): (r: Lattice)
    requires WellFormed(lat) && InBounds(p, lat.size) && PointReal(p)
    ensures WellFormed(r) && r.size == lat.size
    ensures SafeGetLinkFromPoint(r, p, d) == l
    ensures forall q, d' | InBounds(q, lat.size) && PointReal(q) && (q != p || d' != d) ::
              SafeGetLinkFromPoint(r, q, d') == SafeGetLinkFromPoint(lat, q, d')
  {
    var i := VertexIndex(p, lat.size);
    var r := lat.(vertices := lat.vertices[i := WithLink(lat.vertices[i], d, l)]);
    assert forall q, d' | InBounds(q, lat.size) && PointReal(q) && (q != p || d' != d) ::
             SafeGetLinkFromPoint(r, q, d') == SafeGetLinkFromPoint(lat, q, d') by {
      forall q, d' | InBounds(q, lat.size) && PointReal(q) && (q != p || d' != d)
        ensures SafeGetLinkFromPoint(r, q, d') == SafeGetLinkFromPoint(lat, q, d')
      {
        if q != p {
          VertexIndexIsInverse(p, lat.size);
          VertexIndexIsInverse(q, lat.size);
        }
      }
    }
    r
  }

  /** Writing a link never changes a vertex's coordinate. */
  lemma SetLinkKeepsLayout(lat: Lattice, p: Point, d: Direction, l: Link)
    requires LaidOut(lat) && InBounds(p, lat.size) && PointReal(p)
    ensures LaidOut(SetLink(lat, p, d, l))
  {
  }

  /** `out_raise_link`: raise the stored link at the real point `p`. */
  function OutRaiseLink(lat: Lattice, p: Point, d: Direction): (r: Lattice)
    requires WellFormed(lat) && InBounds(p, lat.size) && PointReal(p)
    ensures WellFormed(r) && r.size == lat.size
    ensures SafeGetLinkFromPoint(r, p, d) == Raise(SafeGetLinkFromPoint(lat, p, d))
    ensures forall q, d' | InBounds(q, lat.size) && PointReal(q) && (q != p || d' != d) ::
              SafeGetLinkFromPoint(r, q, d') == SafeGetLinkFromPoint(lat, q, d')
  {
    SetLink(lat, p, d, Raise(SafeGetLinkFromPoint(lat, p, d)))
  }

  /** `out_lower_link`: lower the stored link at the real point `p`. */
  function OutLowerLink(lat: Lattice, p: Point, d: Direction): (r: Lattice)
    requires WellFormed(lat) && InBounds(p, lat.size) && PointReal(p)
    ensures WellFormed(r) && r.size == lat.size
    ensures Raise(SafeGetLinkFromPoint(r, p, d)) == SafeGetLinkFromPoint(lat, p, d)
    ensures forall q, d' | InBounds(q, lat.size) && PointReal(q) && (q != p || d' != d) ::
              SafeGetLinkFromPoint(r, q, d') == SafeGetLinkFromPoint(lat, q, d')
  {
    SetLink(lat, p, d, Lower(SafeGetLinkFromPoint(lat, p, d)))
  }

  /** The site one step from `p` in direction `d`. On an even torus every
      step changes sublattice, including the steps that wrap around. */
  function Neighbour(size: Point, p: Point, d: Direction): (q: Point)
    requires EvenSize(size) && InBounds(p, size)
    ensures InBounds(q, size)
    ensures PointReal(q) <==> !PointReal(p)
  {
    var q := IncrementLocation(BoundPoint(size, p), d).location;
    StepCoordinates(size, p, d);
    q
  }

  /** The coordinates of one step, with the wrap-around spelled out. */
  lemma StepCoordinates(size: Point, p: Point, d: Direction)
    requires ValidSize(size) && InBounds(p, size)
    ensures var q := IncrementLocation(BoundPoint(size, p), d).location;
            match d
            case N => q == Point(p.x, if p.y + 1 < size.y then p.y + 1 else 0)
            case E => q == Point(if p.x + 1 < size.x then p.x + 1 else 0, p.y)
            case S => q == Point(p.x, if p.y > 0 then p.y - 1 else size.y - 1)
            case W => q == Point(if p.x > 0 then p.x - 1 else size.x - 1, p.y)
  {
    WrapUnitStep(p.x, size.x);
    WrapUnitStep(p.y, size.y);
    SmallMod(p.x, size.x);
    SmallMod(p.y, size.y);
  }

  lemma WrapUnitStep(a: int, m: int)
    requires 0 <= a < m
    ensures (a + 1) % m == if a + 1 < m then a + 1 else 0
    ensures (a - 1) % m == if a > 0 then a - 1 else m - 1
  {
    if a + 1 < m { SmallMod(a + 1, m); } else { DivModUnique(a + 1, m, 1, 0); }
    if a > 0 { SmallMod(a - 1, m); } else { DivModUnique(a - 1, m, -1, m - 1); }
  }

  /** Stepping to a neighbour and back in the flipped direction returns. */
  lemma NeighbourBack(size: Point, p: Point, d: Direction)
    requires EvenSize(size) && InBounds(p, size)
    ensures Neighbour(size, Neighbour(size, p, d), FlipDirection(d)) == p
  {
    DecrementUndoesIncrement(BoundPoint(size, p), d);
  }

  /** `get_vertex_from_point`: the stored vertex at a real point; at an
      implied point, each link is read from the neighbour in that direction
      (which is real) looking back, and flipped. */
  function GetVertexFromPoint(lat: Lattice, p: Point): (v: Vertex)
    requires WellFormed(lat) && InBounds(p, lat.size)
    ensures !PointReal(p) ==> v.xy == p
    ensures PointReal(p) ==> forall d :: LinkAt(v, d) == SafeGetLinkFromPoint(lat, p, d)
    ensures !PointReal(p) ==> forall d ::
              LinkAt(v, d) == FlipLink(SafeGetLinkFromPoint(lat, Neighbour(lat.size, p, d), FlipDirection(d)))
  {
    if PointReal(p) then
      lat.vertices[VertexIndex(p, lat.size)]
    else
      var size := lat.size;
      Vertex(FlipLink(SafeGetLinkFromPoint(lat, Neighbour(size, p, N), S)),
             FlipLink(SafeGetLinkFromPoint(lat, Neighbour(size, p, E), W)),
             FlipLink(SafeGetLinkFromPoint(lat, Neighbour(size, p, S), N)),
             FlipLink(SafeGetLinkFromPoint(lat, Neighbour(size, p, W), E)),
             p)
  }

  /** The link at `p` in direction `d`, for either sublattice. */
  function LinkSeen(lat: Lattice, p: Point, d: Direction): Link
    requires WellFormed(lat) && InBounds(p, lat.size)
  {
    LinkAt(GetVertexFromPoint(lat, p), d)
  }

  /** Both endpoints of an edge report flipped values of each other: the
      mutual-consistency law of the sublattice folding. */
  lemma EdgeSeenFromBothEnds(lat: Lattice, p: Point, d: Direction)
    requires WellFormed(lat) && InBounds(p, lat.size)
    ensures LinkSeen(lat, Neighbour(lat.size, p, d), FlipDirection(d)) == FlipLink(LinkSeen(lat, p, d))
  {
    NeighbourBack(lat.size, p, d);
    FlipLowerIsRaiseFlip(LinkSeen(lat, p, d));
  }

  /** The stored slot that holds the edge leaving `p` in direction `d`:
      the slot itself at a real point, the neighbour's opposite slot at an
      implied point. */
  function StoredSlot(size: Point, p: Point, d: Direction): (slot: (Point, Direction))
    requires EvenSize(size) && InBounds(p, size)
    ensures InBounds(slot.0, size) && PointReal(slot.0)
  {
    if PointReal(p) then (p, d) else (Neighbour(size, p, d), FlipDirection(d))
  }

  /** The link seen at `p` is the stored slot's value, flipped when seen
      from the implied side. */
  lemma LinkSeenFromSlot(lat: Lattice, p: Point, d: Direction)
    requires WellFormed(lat) && InBounds(p, lat.size)
    ensures var slot := StoredSlot(lat.size, p, d);
            LinkSeen(lat, p, d) == if PointReal(p) then SafeGetLinkFromPoint(lat, slot.0, slot.1)
                                   else FlipLink(SafeGetLinkFromPoint(lat, slot.0, slot.1))
  {
  }
}
