/** The per-site counters the counting estimators keep (`VertexLinkCount`).

    The type's constructor and its `clear` are used by the estimators; they
    are not modelled from a body but defined from their names and use: a fresh counter is zero in every direction and carries
    the coordinate of its vector position, and `clear` zeroes the four
    counts and keeps the coordinate. */
module LinkCounts {
  import opened Datamodel
  import opened LatticeStore

  /** Four per-direction counts and the coordinate of the site counted. */
  datatype VertexLinkCount = VertexLinkCount(n: int, e: int, s: int, w: int, xy: Point)

  /** The count kept for direction `d`. */
  function CountAt(c: VertexLinkCount, d: Direction): int
  {
    match d
    case N => c.n
    case E => c.e
    case S => c.s
    case W => c.w
  }

  /** 1 when `b` holds, 0 otherwise. */
  function Indicator(b: bool): int
  {
    if b then 1 else 0
  }

  /** The `+= 1` on the count of direction `d`. */
  function Bump(c: VertexLinkCount, d: Direction): (r: VertexLinkCount)
    ensures CountAt(r, d) == CountAt(c, d) + 1
    ensures forall d' :: d' != d ==> CountAt(r, d') == CountAt(c, d')
    ensures r.xy == c.xy
  {
    match d
    case N => c.(n := c.n + 1)
    case E => c.(e := c.e + 1)
    case S => c.(s := c.s + 1)
    case W => c.(w := c.w + 1)
  }

  /** Every count is zero. */
  predicate IsZero(c: VertexLinkCount)
  {
    forall d :: CountAt(c, d) == 0
  }

  /** `VertexLinkCount::new(i, size)` (assumed): zero counts at the
      coordinate of vector position `i`. */
  function NewCount(i: int, size: Point): (c: VertexLinkCount)
    requires size.x > 0 && size.y >= 0 && 0 <= i < Half(size)
    ensures IsZero(c) && c.xy == VertexPoint(i, size)
  {
    VertexLinkCount(0, 0, 0, 0, VertexPoint(i, size))
  }

  /** `VertexLinkCount::clear` (assumed): zero counts, same coordinate. */
  function ClearCount(c: VertexLinkCount): (r: VertexLinkCount)
    ensures IsZero(r) && r.xy == c.xy
  {
    c.(n := 0, e := 0, s := 0, w := 0)
  }

  /** The constructors' sizing loop: one fresh counter for each of the
      `(size.x * size.y) / 2` stored sites. A zero width makes no counters,
      since the loop then never runs. */
  function NewCounts(size: Point): (cs: seq<VertexLinkCount>)
    requires size.x >= 0 && size.y >= 0
    ensures |cs| == Half(size)
    ensures forall i :: 0 <= i < |cs| ==> IsZero(cs[i]) && cs[i].xy == VertexPoint(i, size)
  {
    if size.x == 0 then []
    else
      assert size.x * size.y >= 0;
      seq(Half(size), i requires 0 <= i < Half(size) => NewCount(i, size))
  }

  /** The `clear` loops: every counter cleared in place. */
  function ClearCounts(cs: seq<VertexLinkCount>): (r: seq<VertexLinkCount>)
    ensures |r| == |cs|
    ensures forall i :: 0 <= i < |r| ==> IsZero(r[i]) && r[i].xy == cs[i].xy
  {
    seq(|cs|, i requires 0 <= i < |cs| => ClearCount(cs[i]))
  }

  /** The sum of the four counts of one counter. */
  function CountTotal(c: VertexLinkCount): int
  {
    c.n + c.e + c.s + c.w
  }

  /** The sum of every count of every counter. */
  function SumCounts(cs: seq<VertexLinkCount>): int
  {
    if |cs| == 0 then 0 else SumCounts(cs[..|cs| - 1]) + CountTotal(cs[|cs| - 1])
  }
}
