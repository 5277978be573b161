/** Core value types of the Z3 string-net model: link orientations, compass
    directions, vertices, points, and points bound to a toroidal lattice.

    The link and direction helpers (`flip`, raise/lower, the wrapping add of
    a bound point) are used throughout the repository; they are not
    modelled from a body but defined from their names and use. */
module Datamodel {

  /** Orientation of a link as seen from one of its two endpoints. */
  datatype Link = In | Out | Blank

  /** Compass directions; the order N, E, S, W is the iteration order. */
  datatype Direction = N | E | S | W

  /** Every direction, in iteration order. */
  const AllDirections: seq<Direction> := [N, E, S, W]

  /** A lattice coordinate. The repository declares the fields unsigned,
      but steps add -1 before wrapping, so they are integers here. */
  datatype Point = Point(x: int, y: int)

  /** One site: its four outward links and its coordinate. */
  datatype Vertex = Vertex(n: Link, e: Link, s: Link, w: Link, xy: Point)

  /** A location together with the size of the torus it lives on. */
  datatype BoundPoint = BoundPoint(size: Point, location: Point)

  /** The conditions under which the repository panics or asserts. */
  datatype Fault =
    | ImpliedVertex        // a stored link was requested at a non-real point
    | IndexOutOfRange      // a vector was indexed past its end
    | PositionTooLarge     // a vertex-vector position past the guard
    | EmptyStack           // the traversal stack was popped while empty
    | WalkListEmpty        // the walk list ran out while frames remained
    | ForeignCluster       // the traversal reached another cluster's vertex
    | NoFilledLinks        // the traversal reached a vertex with no links
    | LoopNotClosed        // a plaquette walk did not return to its start
    | UnexpectedDirection  // a plaquette string was asked for a bad side
    | WindingMismatch      // the two winding sums disagree after reduction
    | DirectionsExhausted  // a random walk used up its supplied directions

  datatype Result<T> = Success(value: T) | Failure(fault: Fault)

  datatype Option<T> = None | Some(value: T)

  /** `Link::flip`: the same link seen from its other endpoint. */
  function FlipLink(l: Link): (r: Link)
    ensures r == Blank <==> l == Blank
    ensures r != l || l == Blank
  {
    match l
    case In => Out
    case Out => In
    case Blank => Blank
  }

  /** The raising operator on a link: Blank -> Out -> In -> Blank. */
  function Raise(l: Link): (r: Link)
    ensures r != l
    ensures FlipLink(r) != FlipLink(l)
  {
    match l
    case Blank => Out
    case Out => In
    case In => Blank
  }

  /** The lowering operator, the inverse of raising: Blank -> In -> Out -> Blank. */
  function Lower(l: Link): (r: Link)
    ensures Raise(r) == l
  {
    match l
    case Blank => In
    case In => Out
    case Out => Blank
  }

  /** Raising three times is the identity: the link alphabet is Z3. */
  lemma RaiseHasOrderThree(l: Link)
    ensures Raise(Raise(Raise(l))) == l
    ensures Lower(Raise(l)) == l
  {
    match l
    case In =>
    case Out =>
    case Blank =>
  }

  /** Lowering a link from one end is raising it from the other end. */
  lemma FlipLowerIsRaiseFlip(l: Link)
    ensures FlipLink(Lower(l)) == Raise(FlipLink(l))
    ensures FlipLink(FlipLink(l)) == l
  {
    match l
    case In =>
    case Out =>
    case Blank =>
  }

  /** `Direction::flip`: the opposite compass direction. */
  function FlipDirection(d: Direction): (r: Direction)
    ensures r != d
    ensures (r == N <==> d == S) && (r == S <==> d == N)
    ensures (r == E <==> d == W) && (r == W <==> d == E)
  {
    match d
    case N => S
    case S => N
    case E => W
    case W => E
  }

  /** The link of `v` that points in direction `d`. */
  function LinkAt(v: Vertex, d: Direction): Link
  {
    match d
    case N => v.n
    case E => v.e
    case S => v.s
    case W => v.w
  }

  /** `v` with its link in direction `d` replaced by `l`. */
  function WithLink(v: Vertex, d: Direction, l: Link): (r: Vertex)
    ensures LinkAt(r, d) == l
    ensures forall d' :: d' != d ==> LinkAt(r, d') == LinkAt(v, d')
    ensures r.xy == v.xy
  {
    match d
    case N => v.(n := l)
    case E => v.(e := l)
    case S => v.(s := l)
    case W => v.(w := l)
  }

  /** A lattice size on which the wrapping add is defined. */
  predicate ValidSize(size: Point)
  {
    size.x > 0 && size.y > 0
  }

  /** A location inside [0, size.x) x [0, size.y). */
  predicate InBounds(p: Point, size: Point)
  {
    0 <= p.x < size.x && 0 <= p.y < size.y
  }

  predicate InRange(bp: BoundPoint)
  {
    InBounds(bp.location, bp.size)
  }

  /** `&BoundPoint + Point`: adds an offset and wraps with a true modulus,
      so that negative sums land back inside the lattice. */
  function Add(bp: BoundPoint, inc: Point): (r: BoundPoint)
    requires ValidSize(bp.size)
    ensures r.size == bp.size
    ensures InRange(r)
  {
    BoundPoint(bp.size, Point((bp.location.x + inc.x) % bp.size.x, (bp.location.y + inc.y) % bp.size.y))
  }

  /** The wrapped point differs from the unwrapped sum by whole lattice
      sides. */
  lemma AddIsCongruent(bp: BoundPoint, inc: Point)
    requires ValidSize(bp.size)
    ensures (bp.location.x + inc.x - Add(bp, inc).location.x) % bp.size.x == 0
    ensures (bp.location.y + inc.y - Add(bp, inc).location.y) % bp.size.y == 0
  {
    ModIsCongruent(bp.location.x + inc.x, bp.size.x);
    ModIsCongruent(bp.location.y + inc.y, bp.size.y);
  }

  /** `a` and its true remainder differ by a multiple of `m`. */
  lemma ModIsCongruent(a: int, m: int)
    requires m > 0
    ensures (a - a % m) % m == 0
  {
    var q := a / m;
    assert a - a % m == q * m;
    MultipleModIsZero(q, m);
  }

  lemma MultipleModIsZero(q: int, m: int)
    requires m > 0
    ensures (q * m) % m == 0
  {
    DivModUnique(q * m, m, q, 0);
  }

  /** Euclidean division is unique: the quotient and remainder are
      determined by `a = q * m + r` with `0 <= r < m`. */
  lemma DivModUnique(a: int, m: int, q: int, r: int)
    requires m > 0
    requires 0 <= r < m
    requires a == q * m + r
    ensures a / m == q
    ensures a % m == r
  {
    var q' := a / m;
    var r' := a % m;
    assert a == q' * m + r';
    if q' < q {
      MulDistributes(q - q', q', m);
      MulAtLeast(q - q', m);
    } else if q' > q {
      MulDistributes(q' - q, q, m);
      MulAtLeast(q' - q, m);
    }
  }

  lemma MulDistributes(k: int, b: int, m: int)
    ensures (k + b) * m == k * m + b * m
  {
  }

  lemma MulCommutes(a: int, b: int)
    ensures a * b == b * a
  {
  }

  /** A positive multiple of `m` is at least `m`. */
  lemma MulAtLeast(k: int, m: int)
    requires k >= 1 && m > 0
    ensures k * m >= m
  {
    var j := k - 1;
    MulDistributes(j, 1, m);
    assert j * m >= 0;
  }

  /** Wrapping twice is wrapping once: adding `b` to a wrapped `a`
      lands where adding `b` to `a` does. */
  lemma WrapAdd(a: int, b: int, m: int)
    requires m > 0
    ensures (a % m + b) % m == (a + b) % m
  {
    var q := a / m;
    var r := (a % m + b) % m;
    var q2 := (a % m + b) / m;
    assert a % m + b == q2 * m + r;
    assert a + b == (q2 + q) * m + r by {
      assert a == q * m + a % m;
    }
    DivModUnique(a + b, m, q2 + q, r);
  }

  /** A value already inside [0, m) is its own remainder. */
  lemma SmallMod(a: int, m: int)
    requires 0 <= a < m
    ensures a % m == a
  {
    DivModUnique(a, m, 0, a);
  }

  /** Adding two offsets in turn is adding their sum. */
  lemma AddAdd(bp: BoundPoint, u: Point, v: Point)
    requires ValidSize(bp.size)
    ensures Add(Add(bp, u), v) == Add(bp, Point(u.x + v.x, u.y + v.y))
  {
    var w := Point(u.x + v.x, u.y + v.y);
    var m, n := bp.size.x, bp.size.y;
    var a, b := bp.location.x, bp.location.y;
    var r := Add(Add(bp, u), v);
    assert r.location.x == (a + w.x) % m by {
      AddTwice(bp, u, v);
      WrapTwice(a, u.x, v.x, w.x, m);
    }
    assert r.location.y == (b + w.y) % n by {
      AddTwice(bp, u, v);
      WrapTwice(b, u.y, v.y, w.y, n);
    }
  }

  lemma AddOnce(bp: BoundPoint, w: Point)
    requires ValidSize(bp.size)
    ensures Add(bp, w) == BoundPoint(bp.size, Point((bp.location.x + w.x) % bp.size.x, (bp.location.y + w.y) % bp.size.y))
  {
  }

  lemma AddTwice(bp: BoundPoint, u: Point, v: Point)
    requires ValidSize(bp.size)
    ensures var m, n := bp.size.x, bp.size.y;
            Add(Add(bp, u), v)
            == BoundPoint(bp.size, Point(((bp.location.x + u.x) % m + v.x) % m, ((bp.location.y + u.y) % n + v.y) % n))
  {
    AddOnce(bp, u);
  }

  lemma WrapTwice(a: int, u: int, v: int, w: int, m: int)
    requires m > 0 && w == u + v
    ensures ((a + u) % m + v) % m == (a + w) % m
  {
    WrapAdd(a + u, v, m);
    assert a + u + v == a + w;
  }

  /** Adding the zero offset to an in-range point leaves it alone. */
  lemma AddZero(bp: BoundPoint)
    requires ValidSize(bp.size)
    requires InRange(bp)
    ensures Add(bp, Point(0, 0)) == bp
  {
    SmallMod(bp.location.x, bp.size.x);
    SmallMod(bp.location.y, bp.size.y);
  }

  /** The earlier `Update` of the data model (datamodel/mod.rs): a lattice
      size and a working point. */
  datatype Update = Update(lat_size: Point, working_loc: Point)

  /** `Update::get_rand_point`: `draw` stands for the two uniform draws
      from [0, lat_size.x) and [0, lat_size.y). */
  function GetRandPoint(u: Update, draw: Point): (r: Update)
    requires InBounds(draw, u.lat_size)
    ensures r.lat_size == u.lat_size
    ensures InBounds(r.working_loc, r.lat_size)
  {
    u.(working_loc := draw)
  }

  /** The stub `Update::update`: it picks a point and does nothing else,
      so the lattice (of whatever type) is returned untouched. */
  function StubUpdate<L>(u: Update, lat: L, draw: Point): (r: (Update, L))
    requires InBounds(draw, u.lat_size)
    ensures r.1 == lat
    ensures r.0.lat_size == u.lat_size
    ensures InBounds(r.0.working_loc, r.0.lat_size)
  {
    (GetRandPoint(u, draw), lat)
  }
}
