/** The pure encoders of oio/mod.rs: the plaquette and vertex letters, the
    stepping helper `increment_loc`, the digit rows of lattice style 2, and
    the implied vertex that style 1 writes next to each stored one. The
    file handling around them is not modelled. */
module Oio {
  import opened Datamodel
  import opened Cluster
  import opened LatticeStore
  import LatticeUpdates

  /** The letter of a compass direction. */
  function DirectionLetter(d: Direction): string
  {
    match d
    case N => "N"
    case E => "E"
    case S => "S"
    case W => "W"
  }

  /** `get_plaquett_out_string_from_link`: the letter of the direction a
      plaquette edge's string points, or "B" for a Blank edge. `real_bool`
      says the link is read from the lower-left corner of the plaquette,
      which is asked only for N and E; the upper-right corner is asked
      only for S and W, and any other request panics. */
  function PlaquettOutString(link: Link, real_bool: bool, d: Direction): (r: Result<string>)
    ensures r.Failure? <==> (real_bool && (d == S || d == W)) || (!real_bool && (d == N || d == E))
    ensures r.Failure? ==> r.fault == UnexpectedDirection
    ensures r.Success? && link == Blank ==> r.value == "B"
    ensures r.Success? && link != Blank ==>
              r.value == DirectionLetter(if link == Out then d else FlipDirection(d))
  {
    if real_bool then
      match d
      case N => Success(match link case In => "S" case Out => "N" case Blank => "B")
      case E => Success(match link case In => "W" case Out => "E" case Blank => "B")
      case _ => Failure(UnexpectedDirection)
    else
      match d
      case S => Success(match link case In => "N" case Out => "S" case Blank => "B")
      case W => Success(match link case In => "E" case Out => "W" case Blank => "B")
      case _ => Failure(UnexpectedDirection)
  }

  /** The two corners of a plaquette read each shared edge from opposite
      ends, so they hold flipped links; both give the edge the same letter. */
  lemma PlaquettCornersAgree(l: Link)
    ensures PlaquettOutString(l, true, E) == PlaquettOutString(FlipLink(l), false, W)
    ensures PlaquettOutString(l, true, N) == PlaquettOutString(FlipLink(l), false, S)
  {
  }

  /** `get_out_string_from_link`: the name of a link. */
  function OutString(l: Link): string
  {
    match l
    case In => "In"
    case Out => "Out"
    case Blank => "Blank"
  }

  /** Reading a link name back. */
  function LinkFromOutString(s: string): (r: Option<Link>)
  {
    if s == "In" then Some(In)
    else if s == "Out" then Some(Out)
    else if s == "Blank" then Some(Blank)
    else None
  }

  /** The names are read back to the links they name and to nothing else,
      so no two links share a name. */
  lemma OutStringRoundTrip(l: Link, s: string)
    ensures LinkFromOutString(OutString(l)) == Some(l)
    ensures LinkFromOutString(s) == Some(l) ==> OutString(l) == s
  {
  }

  /** `increment_loc`: the output module's own copy of the unit step. It
      agrees with `increment_location` of the cluster module and hence with
      the walker's `increment_cur_loc`. */
  function IncrementLoc(d: Direction, location_in: BoundPoint): (r: BoundPoint)
    requires ValidSize(location_in.size)
    ensures r == IncrementLocation(location_in, d)
  {
    var increment := match d
      case N => Point(0, 1)
      case E => Point(1, 0)
      case S => Point(0, -1)
      case W => Point(-1, 0);
    Add(location_in, increment)
  }

  /** The three copies of the step land on the same site. */
  lemma StepCopiesAgree(z: LatticeUpdates.Z3String, d: Direction)
    requires ValidSize(z.cur_loc.size)
    ensures LatticeUpdates.IncrementCurLoc(z, d).cur_loc == IncrementLoc(d, z.cur_loc)
    ensures IncrementLoc(d, z.cur_loc) == IncrementLocation(z.cur_loc, d)
  {
  }

  // ---------------------------------------------------------------------
  // Lattice style 2: one line of digits, two per site.

  /** The digit written for a link in style 2. */
  function LinkDigit(l: Link): char
  {
    match l
    case In => '2'
    case Out => '1'
    case Blank => '0'
  }

  /** Reading a digit back. */
  function DigitLink(c: char): Option<Link>
  {
    if c == '2' then Some(In)
    else if c == '1' then Some(Out)
    else if c == '0' then Some(Blank)
    else None
  }

  /** The text written for pair `i`: the two digits, and a separating comma
      after every pair but the last. */
  function Chunk(ps: seq<(Link, Link)>, i: int): string
    requires 0 <= i < |ps|
  {
    [LinkDigit(ps[i].0), ',', LinkDigit(ps[i].1)] + (if i == |ps| - 1 then "" else ",")
  }

  /** The text of the first `k` pairs. */
  function Join(ps: seq<(Link, Link)>, k: int): string
    requires 0 <= k <= |ps|
  {
    if k == 0 then "" else Join(ps, k - 1) + Chunk(ps, k - 1)
  }

  /** The whole line: every pair, then a newline. */
  function Style2Line(ps: seq<(Link, Link)>): string
  {
    Join(ps, |ps|) + "\n"
  }

  // The style-2 writer walks a grid of (east, north) pairs row by row. The
  // facts below are about any such grid; the lattice supplies its own.

  /** Every row of `g` holds `w` pairs. */
  predicate Rectangular(g: seq<seq<(Link, Link)>>, w: int)
  {
    forall y :: 0 <= y < |g| ==> |g[y]| == w
  }

  /** The position of the first pair of row `y` when rows of `w` pairs are
      laid end to end. */
  function RowStart(y: nat, w: int): int
  {
    if y == 0 then 0 else RowStart(y - 1, w) + w
  }

  lemma {:induction false} RowStartMonotone(a: nat, b: nat, w: int)
    requires a <= b && w >= 0
    ensures RowStart(a, w) <= RowStart(b, w)
    decreases b
  {
    if a < b {
      RowStartMonotone(a, b - 1, w);
    }
  }

  /** Row `y` of `h` rows ends by the end of the last row, and its column
      `x` is the last pair of all exactly at the top-right corner. */
  lemma RowFits(y: int, x: int, w: int, h: int)
    requires 0 <= y < h && 0 <= x < w
    ensures 0 <= RowStart(y, w)
    ensures RowStart(y, w) + w <= RowStart(h, w)
    ensures (RowStart(y, w) + x == RowStart(h, w) - 1) <==> (y == h - 1 && x == w - 1)
  {
    RowStartMonotone(0, y, w);
    if y < h - 1 {
      RowStartMonotone(y + 1, h - 1, w);
    }
  }

  /** The first `n` rows of `g` laid end to end. */
  function Flatten(g: seq<seq<(Link, Link)>>, w: int, n: int): (ps: seq<(Link, Link)>)
    requires Rectangular(g, w) && 0 <= n <= |g|
    ensures |ps| == RowStart(n, w)
  {
    if n == 0 then [] else Flatten(g, w, n - 1) + g[n - 1]
  }

  /** Pair `RowStart(y) + x` of the first `n` rows is column `x` of row `y`. */
  lemma {:induction false} FlattenAt(g: seq<seq<(Link, Link)>>, w: int, n: int, y: int, x: int)
    requires Rectangular(g, w) && 0 <= y < n <= |g| && 0 <= x < w
    ensures 0 <= RowStart(y, w) + x < |Flatten(g, w, n)|
    ensures Flatten(g, w, n)[RowStart(y, w) + x] == g[y][x]
    decreases n
  {
    RowStartMonotone(0, y, w);
    if y < n - 1 {
      RowStartMonotone(y + 1, n - 1, w);
      FlattenAt(g, w, n - 1, y, x);
    }
  }

  /** The text of row `y`, column `x`: the east and north digits, and a
      comma unless it is the top-right corner. */
  function CellText(g: seq<seq<(Link, Link)>>, w: int, y: int, x: int): string
    requires Rectangular(g, w) && 0 <= y < |g| && 0 <= x < w
  {
    [LinkDigit(g[y][x].0), ',', LinkDigit(g[y][x].1)]
      + (if y == |g| - 1 && x == w - 1 then "" else ",")
  }

  /** The text of row `y`, column `x` is the chunk of its pair in the
      flattened grid: appending it to the text of the pairs before it gives
      the text of one more pair. */
  lemma AppendSite(g: seq<seq<(Link, Link)>>, w: int, y: int, x: int)
    requires Rectangular(g, w) && 0 <= y < |g| && 0 <= x < w
    ensures 0 <= RowStart(y, w) && RowStart(y, w) + x < |Flatten(g, w, |g|)|
    ensures Join(Flatten(g, w, |g|), RowStart(y, w) + x) + CellText(g, w, y, x)
              == Join(Flatten(g, w, |g|), RowStart(y, w) + x + 1)
  {
    var ps := Flatten(g, w, |g|);
    var k := RowStart(y, w) + x;
    RowFits(y, x, w, |g|);
    FlattenAt(g, w, |g|, y, x);
    assert Chunk(ps, k) == CellText(g, w, y, x);
  }

  /** The (east, north) links of every site, stored or implied: row `y`,
      column `x` holds the links of the vertex at `(x, y)`. */
  function Grid(lat: Lattice): (g: seq<seq<(Link, Link)>>)
    requires WellFormed(lat)
    ensures |g| == lat.size.y && Rectangular(g, lat.size.x)
  {
    seq(lat.size.y, y requires 0 <= y < lat.size.y =>
          seq(lat.size.x, x requires 0 <= x < lat.size.x =>
                var v := GetVertexFromPoint(lat, Point(x, y)); (v.e, v.n)))
  }

  /** The pairs style 2 writes: every site, row by row. */
  function Pairs(lat: Lattice): seq<(Link, Link)>
    requires WellFormed(lat)
  {
    var g := Grid(lat);
    Flatten(g, lat.size.x, |g|)
  }

  /** `write_lattice_style_2`: the pairs of every site, read with
      `get_vertex_from_point`, written row by row. */
  method WriteLatticeStyle2(lat: Lattice) returns (line: string)
    requires WellFormed(lat)
    ensures line == Style2Line(Pairs(lat))
  {
    line := WriteGrid(Grid(lat), lat.size.x);
  }

  /** The two loops of `write_lattice_style_2`, over the grid of pairs
      they read: row by row, east digit, north digit, comma unless last. */
  method WriteGrid(g: seq<seq<(Link, Link)>>, w: int) returns (line: string)
    requires Rectangular(g, w) && w >= 0
    ensures line == Style2Line(Flatten(g, w, |g|))
  {
    line := "";
    var y := 0;
    while y < |g|
      invariant 0 <= y <= |g|
      invariant 0 <= RowStart(y, w) <= |Flatten(g, w, |g|)|
      invariant line == Join(Flatten(g, w, |g|), RowStart(y, w))
    {
      line := WriteGridRow(g, w, y, line);
      y := y + 1;
    }
    line := line + "\n";
  }

  /** The inner loop: row `y`, column by column. */
  method WriteGridRow(g: seq<seq<(Link, Link)>>, w: int, y: int, line_in: string) returns (line: string)
    requires Rectangular(g, w) && w >= 0 && 0 <= y < |g|
    requires 0 <= RowStart(y, w) <= |Flatten(g, w, |g|)|
    requires line_in == Join(Flatten(g, w, |g|), RowStart(y, w))
    ensures RowStart(y, w) + w <= |Flatten(g, w, |g|)|
    ensures line == Join(Flatten(g, w, |g|), RowStart(y, w) + w)
  {
    if w == 0 {
      RowStartMonotone(y + 1, |g|, w);
    } else {
      RowFits(y, 0, w, |g|);
    }
    line := line_in;
    var x := 0;
    while x < w
      invariant 0 <= x <= w
      invariant line == Join(Flatten(g, w, |g|), RowStart(y, w) + x)
    {
      var pair := g[y][x];
      var final_comma_str := ",";
      if y == |g| - 1 && x == w - 1 {
        final_comma_str := "";
      }
      AppendSite(g, w, y, x);
      line := line + [LinkDigit(pair.0), ',', LinkDigit(pair.1)] + final_comma_str;
      x := x + 1;
    }
  }

  /** Whether cell `i` of a style-2 line (four characters: digit, comma,
      digit, then a comma or, for the last cell, the newline) is well
      formed. */
  predicate CellOk(s: string, i: int)
  {
    && 0 <= i && 4 * i + 3 < |s|
    && DigitLink(s[4 * i]).Some? && s[4 * i + 1] == ',' && DigitLink(s[4 * i + 2]).Some?
    && s[4 * i + 3] == (if 4 * i + 4 == |s| then '\n' else ',')
  }

  /** Reading a style-2 line back into its (east, north) pairs. */
  function DecodeStyle2(s: string): (r: Option<seq<(Link, Link)>>)
  {
    if |s| % 4 == 0 && forall i :: 0 <= i < |s| / 4 ==> CellOk(s, i) then
      Some(seq(|s| / 4, i requires 0 <= i < |s| / 4 && CellOk(s, i) =>
                 (DigitLink(s[4 * i]).value, DigitLink(s[4 * i + 2]).value)))
    else None
  }

  lemma DigitRoundTrip(l: Link)
    ensures DigitLink(LinkDigit(l)) == Some(l)
  {
  }

  /** Character by character, the first `k` chunks hold the digits of the
      first `k` pairs, separated by commas. */
  lemma {:induction false} JoinLayout(ps: seq<(Link, Link)>, k: int)
    requires 0 <= k <= |ps|
    ensures |Join(ps, k)| == 4 * k - (if k == |ps| && k > 0 then 1 else 0)
    ensures forall j :: 0 <= j < k ==>
              && Join(ps, k)[4 * j] == LinkDigit(ps[j].0)
              && Join(ps, k)[4 * j + 1] == ','
              && Join(ps, k)[4 * j + 2] == LinkDigit(ps[j].1)
    ensures forall j :: 0 <= j < k && j < |ps| - 1 ==> Join(ps, k)[4 * j + 3] == ','
  {
    if k > 0 {
      JoinLayout(ps, k - 1);
      var prev := Join(ps, k - 1);
      assert |prev| == 4 * (k - 1);
      assert Join(ps, k) == prev + Chunk(ps, k - 1);
    }
  }

  /** A style-2 line determines the links it was written from: reading it
      back gives every (east, north) pair in site order. */
  lemma Style2RoundTrip(ps: seq<(Link, Link)>)
    requires |ps| > 0
    ensures |Style2Line(ps)| == 4 * |ps|
    ensures DecodeStyle2(Style2Line(ps)) == Some(ps)
  {
    var s := Style2Line(ps);
    JoinLayout(ps, |ps|);
    assert |s| == 4 * |ps|;
    forall i | 0 <= i < |s| / 4
      ensures CellOk(s, i)
    {
      DigitRoundTrip(ps[i].0);
      DigitRoundTrip(ps[i].1);
    }
    assert |s| % 4 == 0 && |s| / 4 == |ps|;
    var r := DecodeStyle2(s);
    assert r.Some? && |r.value| == |ps|;
    forall i | 0 <= i < |ps|
      ensures r.value[i] == ps[i]
    {
      DigitRoundTrip(ps[i].0);
      DigitRoundTrip(ps[i].1);
    }
    assert r.value == ps;
  }

  // ---------------------------------------------------------------------
  // Lattice style 1: the implied vertex east of each stored vertex.

  /** The vertex style 1 writes after stored vertex `v`: its site is one
      step east of `v`; its west link is `v`'s east link and its other
      links are read from its north, east and south neighbours looking
      back, each flipped to be seen from the implied side. The flip used
      there (`soft_flip`) is not modelled from a body; from its name and use
      it is taken to be `Link::flip`. */
  function FakeVertexEast(lat: Lattice, v: Vertex): (f: Vertex)
    requires WellFormed(lat) && InBounds(v.xy, lat.size) && PointReal(v.xy)
    ensures f.xy == Neighbour(lat.size, v.xy, E)
  {
    var working_loc := Add(BoundPoint(lat.size, v.xy), Point(1, 0));
    var q := working_loc.location;
    assert q == Neighbour(lat.size, v.xy, E);
    var temp_loc1 := IncrementLoc(N, working_loc);
    var temp_loc2 := IncrementLoc(E, working_loc);
    var temp_loc3 := IncrementLoc(S, working_loc);
    assert temp_loc1.location == Neighbour(lat.size, q, N);
    assert temp_loc2.location == Neighbour(lat.size, q, E);
    assert temp_loc3.location == Neighbour(lat.size, q, S);
    Vertex(FlipLink(SafeGetLinkFromPoint(lat, temp_loc1.location, S)),
           FlipLink(SafeGetLinkFromPoint(lat, temp_loc2.location, W)),
           FlipLink(SafeGetLinkFromPoint(lat, temp_loc3.location, N)),
           FlipLink(v.e),
           q)
  }

  /** The vertex written for the implied site east of a stored vertex is the
      one the lattice reports at that site. */
  lemma FakeVertexIsImpliedVertex(lat: Lattice, i: int)
    requires LaidOut(lat) && 0 <= i < |lat.vertices|
    ensures var v := lat.vertices[i];
            && InBounds(v.xy, lat.size) && PointReal(v.xy)
            && FakeVertexEast(lat, v) == GetVertexFromPoint(lat, Neighbour(lat.size, v.xy, E))
  {
    var v := lat.vertices[i];
    VertexPointIsStored(i, lat.size);
    StoredVertexIsUnique(lat, i);
    var p := v.xy;
    var q := Neighbour(lat.size, p, E);
    NeighbourBack(lat.size, p, E);
    assert Neighbour(lat.size, q, W) == p;
    assert SafeGetLinkFromPoint(lat, p, E) == v.e;
  }
}
