/** Why the winding self-check holds: a Z3 Gauss law.

    The divergence of a site is the total charge of its four links. On the
    blank lattice it is zero everywhere; one raising step adds one (modulo
    3) at the site it leaves and subtracts one at the site it reaches, so a
    closed walk (a plaquette update, or a random walk that returned) leaves
    every divergence unchanged modulo 3. Summing the divergence down line 1
    of a pass gives exactly the check sum minus the primary sum, so on every
    lattice these updates can produce, `measure` never reports a mismatch. */
module GaussLaw {
  import opened Datamodel
  import opened Cluster
  import opened LatticeStore
  import opened LatticeUpdates
  import opened WindingVariance

  /** The total charge of the four links at `x`. */
  function Div(lat: Lattice, x: Point): int
    requires WellFormed(lat) && InBounds(x, lat.size)
  {
    Charge(LinkSeen(lat, x, N)) + Charge(LinkSeen(lat, x, E))
      + Charge(LinkSeen(lat, x, S)) + Charge(LinkSeen(lat, x, W))
  }

  /** Every site has divergence zero modulo 3. */
  ghost predicate Neutral(lat: Lattice)
  {
    WellFormed(lat) && forall x | InBounds(x, lat.size) :: Div(lat, x) % 3 == 0
  }

  function Ind(b: bool): int
  {
    if b then 1 else 0
  }

  // ---------------------------------------------------------------------
  // One raising step

  /** The only two (site, direction) pairs that see the stored slot of the
      edge `(p, d)` are its two ends. */
  lemma SlotOwners(size: Point, p: Point, d: Direction, x: Point, e: Direction)
    requires EvenSize(size) && InBounds(p, size) && InBounds(x, size)
    requires StoredSlot(size, x, e) == StoredSlot(size, p, d)
    ensures (x, e) == (p, d) || (x, e) == (Neighbour(size, p, d), FlipDirection(d))
  {
    var q := Neighbour(size, p, d);
    if PointReal(x) && !PointReal(p) {
      NeighbourBack(size, p, d);
    } else if !PointReal(x) && PointReal(p) {
      NeighbourBack(size, x, e);
    } else if !PointReal(x) && !PointReal(p) {
      NeighbourBack(size, x, e);
      NeighbourBack(size, p, d);
    }
  }

  /** After one raising step from `p` in direction `d`, the edge `(p, d)`
      is raised as seen from `p`, lowered as seen from the far end `q`, and
      every other (site, direction) pair sees what it saw before. */
  lemma LinksAfterStep(z: Z3String, d: Direction)
    requires Walkable(z)
    ensures var r := RaiseStep(z, d);
            var p := z.cur_loc.location;
            var q := Neighbour(z.lat.size, p, d);
            && r.cur_loc.location == q && q != p
            && LinkSeen(r.lat, p, d) == Raise(LinkSeen(z.lat, p, d))
            && LinkSeen(z.lat, q, FlipDirection(d)) == FlipLink(LinkSeen(z.lat, p, d))
            && LinkSeen(r.lat, q, FlipDirection(d)) == FlipLink(Raise(LinkSeen(z.lat, p, d)))
            && forall x, e | InBounds(x, z.lat.size) && (x, e) != (p, d) && (x, e) != (q, FlipDirection(d)) ::
                 LinkSeen(r.lat, x, e) == LinkSeen(z.lat, x, e)
  {
    var r := RaiseStep(z, d);
    var p := z.cur_loc.location;
    var q := Neighbour(z.lat.size, p, d);
    var size := z.lat.size;
    RaiseStepRaisesOneLink(z, d);
    EdgeSeenFromBothEnds(z.lat, p, d);
    EdgeSeenFromBothEnds(r.lat, p, d);
    forall x, e | InBounds(x, size) && (x, e) != (p, d) && (x, e) != (q, FlipDirection(d))
      ensures LinkSeen(r.lat, x, e) == LinkSeen(z.lat, x, e)
    {
      var slot := StoredSlot(size, x, e);
      if slot == StoredSlot(size, p, d) {
        SlotOwners(size, p, d, x, e);
      }
      LinkSeenFromSlot(z.lat, x, e);
      LinkSeenFromSlot(r.lat, x, e);
    }
  }

  /** If only the link in direction `d` at `x` changed, the divergence at
      `x` changes by that link's change of charge. */
  lemma DivDelta(a: Lattice, b: Lattice, x: Point, d: Direction)
    requires WellFormed(a) && WellFormed(b) && a.size == b.size && InBounds(x, a.size)
    requires forall e | e != d :: LinkSeen(b, x, e) == LinkSeen(a, x, e)
    ensures Div(b, x) - Div(a, x) == Charge(LinkSeen(b, x, d)) - Charge(LinkSeen(a, x, d))
  {
    assert forall e | e != d :: LinkSeen(b, x, e) == LinkSeen(a, x, e);
    match d
    case N => assert LinkSeen(b, x, E) == LinkSeen(a, x, E) && LinkSeen(b, x, S) == LinkSeen(a, x, S) && LinkSeen(b, x, W) == LinkSeen(a, x, W);
    case E => assert LinkSeen(b, x, N) == LinkSeen(a, x, N) && LinkSeen(b, x, S) == LinkSeen(a, x, S) && LinkSeen(b, x, W) == LinkSeen(a, x, W);
    case S => assert LinkSeen(b, x, N) == LinkSeen(a, x, N) && LinkSeen(b, x, E) == LinkSeen(a, x, E) && LinkSeen(b, x, W) == LinkSeen(a, x, W);
    case W => assert LinkSeen(b, x, N) == LinkSeen(a, x, N) && LinkSeen(b, x, E) == LinkSeen(a, x, E) && LinkSeen(b, x, S) == LinkSeen(a, x, S);
  }

  /** One raising step adds one to the divergence (modulo 3) where it
      starts and subtracts one where it ends; nowhere else changes. The
      multiple of 3 is returned so that walks can add them up. */
  lemma DivAfterStep(z: Z3String, d: Direction, x: Point) returns (k: int)
    requires Walkable(z) && InBounds(x, z.lat.size)
    ensures var r := RaiseStep(z, d);
            Div(r.lat, x) - Div(z.lat, x) - Ind(x == z.cur_loc.location) + Ind(x == r.cur_loc.location) == 3 * k
  {
    var r := RaiseStep(z, d);
    var p := z.cur_loc.location;
    LinksAfterStep(z, d);
    var q := r.cur_loc.location;
    if x == p {
      k := StepDivNear(z, d);
    } else if x == q {
      k := StepDivFar(z, d);
    } else {
      StepDivElsewhere(z, d, x);
      k := 0;
    }
  }

  lemma StepDivNear(z: Z3String, d: Direction) returns (k: int)
    requires Walkable(z)
    ensures Div(RaiseStep(z, d).lat, z.cur_loc.location) - Div(z.lat, z.cur_loc.location) - 1 == 3 * k
  {
    var r := RaiseStep(z, d);
    var p := z.cur_loc.location;
    LinksAfterStep(z, d);
    var q := r.cur_loc.location;
    forall e | e != d
      ensures LinkSeen(r.lat, p, e) == LinkSeen(z.lat, p, e)
    {
      assert (p, e) != (q, FlipDirection(d));
    }
    k := DivAtNearEnd(z.lat, r.lat, p, d);
  }

  lemma StepDivFar(z: Z3String, d: Direction) returns (k: int)
    requires Walkable(z)
    ensures var r := RaiseStep(z, d);
            Div(r.lat, r.cur_loc.location) - Div(z.lat, r.cur_loc.location) + 1 == 3 * k
  {
    var r := RaiseStep(z, d);
    var p := z.cur_loc.location;
    LinksAfterStep(z, d);
    var q := r.cur_loc.location;
    var f := FlipDirection(d);
    forall e | e != f
      ensures LinkSeen(r.lat, q, e) == LinkSeen(z.lat, q, e)
    {
      assert (q, e) != (p, d);
    }
    k := DivAtFarEnd(z.lat, r.lat, q, f, LinkSeen(z.lat, p, d));
  }

  lemma StepDivElsewhere(z: Z3String, d: Direction, x: Point)
    requires Walkable(z) && InBounds(x, z.lat.size)
    requires x != z.cur_loc.location && x != RaiseStep(z, d).cur_loc.location
    ensures Div(RaiseStep(z, d).lat, x) == Div(z.lat, x)
  {
    var r := RaiseStep(z, d);
    LinksAfterStep(z, d);
    DivUnchanged(z.lat, r.lat, x);
  }

  /** Raising the link `(p, d)` adds one to the divergence at `p`. */
  lemma DivAtNearEnd(a: Lattice, b: Lattice, p: Point, d: Direction) returns (k: int)
    requires WellFormed(a) && WellFormed(b) && a.size == b.size && InBounds(p, a.size)
    requires LinkSeen(b, p, d) == Raise(LinkSeen(a, p, d))
    requires forall e | e != d :: LinkSeen(b, p, e) == LinkSeen(a, p, e)
    ensures Div(b, p) - Div(a, p) - 1 == 3 * k
  {
    DivDelta(a, b, p, d);
    k := RaisedChargeStep(LinkSeen(a, p, d), Div(b, p) - Div(a, p), 1);
  }

  /** Raising a link seen as `FlipLink(l)` from `q` in direction `f`
      subtracts one from the divergence at `q`. */
  lemma DivAtFarEnd(a: Lattice, b: Lattice, q: Point, f: Direction, l: Link) returns (k: int)
    requires WellFormed(a) && WellFormed(b) && a.size == b.size && InBounds(q, a.size)
    requires LinkSeen(a, q, f) == FlipLink(l) && LinkSeen(b, q, f) == FlipLink(Raise(l))
    requires forall e | e != f :: LinkSeen(b, q, e) == LinkSeen(a, q, e)
    ensures Div(b, q) - Div(a, q) + 1 == 3 * k
  {
    DivDelta(a, b, q, f);
    k := RaisedChargeStep(l, Div(b, q) - Div(a, q), -1);
  }

  /** A site whose four links are unchanged keeps its divergence. */
  lemma DivUnchanged(a: Lattice, b: Lattice, x: Point)
    requires WellFormed(a) && WellFormed(b) && a.size == b.size && InBounds(x, a.size)
    requires forall e :: LinkSeen(b, x, e) == LinkSeen(a, x, e)
    ensures Div(b, x) == Div(a, x)
  {
    DivDelta(a, b, x, N);
  }

  /** The change of charge of a raised link, seen from its near end
      (`sign` 1) or its far end (`sign` -1), is `sign` modulo 3. */
  lemma RaisedChargeStep(l: Link, delta: int, sign: int) returns (k: int)
    requires sign == 1 || sign == -1
    requires sign == 1 ==> delta == Charge(Raise(l)) - Charge(l)
    requires sign == -1 ==> delta == Charge(FlipLink(Raise(l))) - Charge(FlipLink(l))
    ensures delta - sign == 3 * k
  {
    match l
    case Out => k := -sign;
    case In => k := 0;
    case Blank => k := 0;
  }

  // ---------------------------------------------------------------------
  // Walks

  /** After a walk, the divergence has gone up by one (modulo 3) where the
      walk started and down by one where it ended; in between each step's
      change is undone by the next. */
  lemma {:induction false} DivAfterWalk(z: Z3String, ds: seq<Direction>, x: Point) returns (k: int)
    requires Walkable(z) && InBounds(x, z.lat.size)
    ensures var r := WalkSteps(z, ds);
            Div(r.lat, x) - Div(z.lat, x) - Ind(x == z.cur_loc.location) + Ind(x == r.cur_loc.location) == 3 * k
    decreases |ds|
  {
    if |ds| == 0 {
      assert WalkSteps(z, ds) == z;
      k := 0;
    } else {
      var n := |ds| - 1;
      var mid := WalkSteps(z, ds[..n]);
      assert WalkSteps(z, ds) == RaiseStep(mid, ds[n]);
      var k1 := DivAfterWalk(z, ds[..n], x);
      var k2 := DivAfterStep(mid, ds[n], x);
      k := k1 + k2;
    }
  }

  /** Adding a multiple of 3 keeps a multiple of 3. */
  lemma ShiftByMultiple(a: int, b: int, k: int)
    requires a % 3 == 0 && b == a + 3 * k
    ensures b % 3 == 0
  {
    DivModUnique(b, 3, a / 3 + k, 0);
  }

  /** A walk that starts and ends at the same site keeps a neutral lattice
      neutral. */
  lemma ClosedWalkKeepsNeutral(z: Z3String, ds: seq<Direction>)
    requires Walkable(z) && Neutral(z.lat)
    requires WalkSteps(z, ds).cur_loc.location == z.cur_loc.location
    ensures Neutral(WalkSteps(z, ds).lat)
  {
    var r := WalkSteps(z, ds);
    forall x | InBounds(x, r.lat.size)
      ensures Div(r.lat, x) % 3 == 0
    {
      var k := DivAfterWalk(z, ds, x);
      ShiftByMultiple(Div(z.lat, x), Div(r.lat, x), k);
    }
  }

  /** The blank lattice is neutral. */
  lemma BlankIsNeutral(size: Point)
    requires EvenSize(size)
    ensures Neutral(BuildBlankLat(size))
  {
    var lat := BuildBlankLat(size);
    forall x, d | InBounds(x, size)
      ensures LinkSeen(lat, x, d) == Blank
    {
      if !PointReal(x) {
        var q := Neighbour(size, x, d);
        assert SafeGetLinkFromPoint(lat, q, FlipDirection(d)) == Blank;
      }
    }
    forall x | InBounds(x, size)
      ensures Div(lat, x) % 3 == 0
    {
      assert Div(lat, x) == 0;
    }
  }

  /** A plaquette update keeps a neutral lattice neutral. */
  lemma UpdatePlaquetteKeepsNeutral(u: Updater, lat: Lattice, draw: Point)
    requires WellFormed(lat) && u.working_loc.size == lat.size && InBounds(draw, lat.size)
    requires Neutral(lat)
    ensures Neutral(UpdatePlaquette(u, lat, draw).value.1)
  {
    var z := Z3String(draw, BoundPoint(lat.size, draw), lat);
    ClockwiseWalkCloses(z.cur_loc);
    ClosedWalkKeepsNeutral(z, [N, E, S, W]);
  }

  /** A random walk that closed keeps a neutral lattice neutral; this is
      the lattice `random_walk_update` returns on success. */
  lemma ClosedRandomWalkKeepsNeutral(lat: Lattice, draw: Point, ds: seq<Direction>)
    requires WellFormed(lat) && InBounds(draw, lat.size) && Neutral(lat)
    requires ClosedAfter(Z3String(draw, BoundPoint(lat.size, draw), lat), ds)
    ensures Neutral(WalkSteps(Z3String(draw, BoundPoint(lat.size, draw), lat), ds).lat)
  {
    ClosedWalkKeepsNeutral(Z3String(draw, BoundPoint(lat.size, draw), lat), ds);
  }

  // ---------------------------------------------------------------------
  // The winding check

  /** The direction in which a pass steps along its lines. */
  function Along(axis: Axis): Direction
  {
    match axis
    case Vertical => N
    case Horizontal => E
  }

  /** The neighbours the line sums use: line 1 lies one step across from
      line 0, and line 1 closes on itself along the torus. */
  lemma LineNeighbours(lat: Lattice, axis: Axis, i: int)
    requires Measurable(lat) && 0 <= i < LineLength(axis, lat.size)
    ensures InBounds(LinePoint(axis, 0, i), lat.size) && InBounds(LinePoint(axis, 1, i), lat.size)
    ensures Neighbour(lat.size, LinePoint(axis, 0, i), Across(axis)) == LinePoint(axis, 1, i)
    ensures Neighbour(lat.size, LinePoint(axis, 1, i), Along(axis))
            == LinePoint(axis, 1, if i + 1 < LineLength(axis, lat.size) then i + 1 else 0)
  {
    StepCoordinates(lat.size, LinePoint(axis, 0, i), Across(axis));
    StepCoordinates(lat.size, LinePoint(axis, 1, i), Along(axis));
  }

  /** The divergence at each site of line 1, in order. */
  function DivView(lat: Lattice, axis: Axis): (v: seq<int>)
    requires Measurable(lat)
    ensures |v| == LineLength(axis, lat.size)
    ensures forall i :: 0 <= i < |v| ==> v[i] == Div(lat, LinePoint(axis, 1, i))
  {
    var len := LineLength(axis, lat.size);
    seq(len, i requires 0 <= i < len => Div(lat, LinePoint(axis, 1, i)))
  }

  function Total(ns: seq<int>): int
  {
    if |ns| == 0 then 0 else Total(ns[..|ns| - 1]) + ns[|ns| - 1]
  }

  lemma {:induction false} ChargesAppend(s: seq<Link>, t: seq<Link>)
    ensures Charges(s + t) == Charges(s) + Charges(t)
    decreases |t|
  {
    if |t| == 0 {
      assert s + t == s;
    } else {
      var t' := t[..|t| - 1];
      assert (s + t)[..|s + t| - 1] == s + t';
      ChargesAppend(s, t');
    }
  }

  /** `t` is `s` seen link by link from the other ends. */
  predicate Flipped(s: seq<Link>, t: seq<Link>)
  {
    |s| == |t| && forall i :: 0 <= i < |s| ==> t[i] == FlipLink(s[i])
  }

  /** `fa[i + 1]` is `a[i]` seen from the other end, cyclically. */
  predicate RotatedFlipped(a: seq<Link>, fa: seq<Link>)
  {
    && |a| == |fa| >= 1
    && fa[0] == FlipLink(a[|a| - 1])
    && forall i :: 0 <= i < |a| - 1 ==> fa[i + 1] == FlipLink(a[i])
  }

  /** Links seen from their other ends carry the opposite total charge. */
  lemma {:induction false} ChargesFlipped(s: seq<Link>, t: seq<Link>)
    requires Flipped(s, t)
    ensures Charges(t) == -Charges(s)
    decreases |s|
  {
    if |s| > 0 {
      var n := |s| - 1;
      ChargesFlipped(s[..n], t[..n]);
      ChargeLaws(s[n]);
    }
  }

  /** If `fa[i + 1]` is `a[i]` seen from the other end, cyclically, then
      the two sequences carry opposite total charges. */
  lemma ChargesRotatedFlipped(a: seq<Link>, fa: seq<Link>)
    requires RotatedFlipped(a, fa)
    ensures Charges(fa) == -Charges(a)
  {
    var n := |a| - 1;
    assert fa == [fa[0]] + fa[1..];
    ChargesAppend([fa[0]], fa[1..]);
    assert [fa[0]][..0] == [];
    ChargesFlipped(a[..n], fa[1..]);
    ChargeLaws(a[n]);
  }

  /** Each entry of `dv` is the total charge of the matching entries of
      the four link sequences. */
  predicate SumOfFour(dv: seq<int>, a: seq<Link>, b: seq<Link>, c: seq<Link>, e: seq<Link>)
  {
    && |a| == |dv| && |b| == |dv| && |c| == |dv| && |e| == |dv|
    && forall i :: 0 <= i < |dv| ==> dv[i] == Charge(a[i]) + Charge(b[i]) + Charge(c[i]) + Charge(e[i])
  }

  /** The divergence total splits into the four charge totals. */
  lemma {:induction false} TotalOfFour(dv: seq<int>, a: seq<Link>, b: seq<Link>, c: seq<Link>, e: seq<Link>)
    requires SumOfFour(dv, a, b, c, e)
    ensures Total(dv) == Charges(a) + Charges(b) + Charges(c) + Charges(e)
    decreases |dv|
  {
    if |dv| > 0 {
      var n := |dv| - 1;
      TotalOfFour(dv[..n], a[..n], b[..n], c[..n], e[..n]);
    }
  }

  /** A total of multiples of 3 is a multiple of 3. */
  lemma {:induction false} TotalOfMultiples(dv: seq<int>) returns (k: int)
    requires forall i :: 0 <= i < |dv| ==> dv[i] % 3 == 0
    ensures Total(dv) == 3 * k
    decreases |dv|
  {
    if |dv| == 0 {
      k := 0;
    } else {
      var n := |dv| - 1;
      var k1 := TotalOfMultiples(dv[..n]);
      var k2 := MultipleOfThree(dv[n]);
      k := k1 + k2;
    }
  }

  lemma MultipleOfThree(a: int) returns (k: int)
    requires a % 3 == 0
    ensures a == 3 * k
  {
    k := a / 3;
  }

  /** Looking back across line 1 sees line 0's links from the other end. */
  lemma BackViewIsFlipped(lat: Lattice, axis: Axis)
    requires Measurable(lat)
    ensures Flipped(View(lat, axis, 0, Across(axis)), View(lat, axis, 1, FlipDirection(Across(axis))))
  {
    forall i | 0 <= i < LineLength(axis, lat.size)
      ensures LinkSeen(lat, LinePoint(axis, 1, i), FlipDirection(Across(axis)))
              == FlipLink(LinkSeen(lat, LinePoint(axis, 0, i), Across(axis)))
    {
      LineNeighbours(lat, axis, i);
      EdgeSeenFromBothEnds(lat, LinePoint(axis, 0, i), Across(axis));
    }
  }

  /** Looking back along line 1 sees the previous site's forward link from
      the other end; the first site sees the last one's. */
  lemma AlongViewIsRotated(lat: Lattice, axis: Axis)
    requires Measurable(lat)
    ensures RotatedFlipped(View(lat, axis, 1, Along(axis)), View(lat, axis, 1, FlipDirection(Along(axis))))
  {
    var len := LineLength(axis, lat.size);
    forall i | 0 <= i < len
      ensures LinkSeen(lat, LinePoint(axis, 1, if i + 1 < len then i + 1 else 0), FlipDirection(Along(axis)))
              == FlipLink(LinkSeen(lat, LinePoint(axis, 1, i), Along(axis)))
    {
      LineNeighbours(lat, axis, i);
      EdgeSeenFromBothEnds(lat, LinePoint(axis, 1, i), Along(axis));
    }
  }

  /** Each site's divergence is the sum of its four view entries. */
  lemma DivViewSplits(lat: Lattice, axis: Axis)
    requires Measurable(lat)
    ensures var a, c := Along(axis), Across(axis);
            SumOfFour(DivView(lat, axis), View(lat, axis, 1, a), View(lat, axis, 1, c),
                      View(lat, axis, 1, FlipDirection(a)), View(lat, axis, 1, FlipDirection(c)))
  {
    var dv := DivView(lat, axis);
    var a, c := Along(axis), Across(axis);
    var va, vc, vfa, vfc := View(lat, axis, 1, a), View(lat, axis, 1, c),
                            View(lat, axis, 1, FlipDirection(a)), View(lat, axis, 1, FlipDirection(c));
    forall i | 0 <= i < |dv|
      ensures dv[i] == Charge(va[i]) + Charge(vc[i]) + Charge(vfa[i]) + Charge(vfc[i])
    {
      var x := LinePoint(axis, 1, i);
      assert dv[i] == Div(lat, x);
      assert va[i] == LinkSeen(lat, x, a) && vc[i] == LinkSeen(lat, x, c);
      assert vfa[i] == LinkSeen(lat, x, FlipDirection(a)) && vfc[i] == LinkSeen(lat, x, FlipDirection(c));
    }
  }

  /** The divergence total down line 1 splits into its four side totals. */
  lemma DivTotalSplits(lat: Lattice, axis: Axis)
    requires Measurable(lat)
    ensures var a, c := Along(axis), Across(axis);
            Total(DivView(lat, axis))
            == Charges(View(lat, axis, 1, a)) + Charges(View(lat, axis, 1, c))
               + Charges(View(lat, axis, 1, FlipDirection(a))) + Charges(View(lat, axis, 1, FlipDirection(c)))
  {
    var a, c := Along(axis), Across(axis);
    DivViewSplits(lat, axis);
    TotalOfFour(DivView(lat, axis), View(lat, axis, 1, a), View(lat, axis, 1, c),
                View(lat, axis, 1, FlipDirection(a)), View(lat, axis, 1, FlipDirection(c)));
  }

  /** Around line 1 the forward and backward along links cancel. */
  lemma AlongSidesCancel(lat: Lattice, axis: Axis)
    requires Measurable(lat)
    ensures Charges(View(lat, axis, 1, FlipDirection(Along(axis)))) == -Charges(View(lat, axis, 1, Along(axis)))
  {
    AlongViewIsRotated(lat, axis);
    ChargesRotatedFlipped(View(lat, axis, 1, Along(axis)), View(lat, axis, 1, FlipDirection(Along(axis))));
  }

  /** Looking back across line 1 totals minus line 0's winding. */
  lemma BackSideIsMinusPrimary(lat: Lattice, axis: Axis)
    requires Measurable(lat)
    ensures Charges(View(lat, axis, 1, FlipDirection(Across(axis)))) == -Charges(View(lat, axis, 0, Across(axis)))
  {
    BackViewIsFlipped(lat, axis);
    ChargesFlipped(View(lat, axis, 0, Across(axis)), View(lat, axis, 1, FlipDirection(Across(axis))));
  }

  /** The divergence summed down line 1 is the check sum minus the primary
      sum of the pass. */
  lemma DivTotalIsWindingDifference(lat: Lattice, axis: Axis)
    requires Measurable(lat)
    ensures Total(DivView(lat, axis)) == Winding(lat, axis, 1) - Winding(lat, axis, 0)
  {
    DivTotalSplits(lat, axis);
    AlongSidesCancel(lat, axis);
    BackSideIsMinusPrimary(lat, axis);
  }

  /** On a neutral lattice the divergence total down line 1 is a multiple
      of 3. */
  lemma NeutralDivTotal(lat: Lattice, axis: Axis) returns (k: int)
    requires Measurable(lat) && Neutral(lat)
    ensures Total(DivView(lat, axis)) == 3 * k
  {
    var dv := DivView(lat, axis);
    forall i | 0 <= i < |dv|
      ensures dv[i] % 3 == 0
    {
      LineNeighbours(lat, axis, i);
    }
    k := TotalOfMultiples(dv);
  }

  /** A pass whose line-1 divergence total is a multiple of 3 passes. */
  lemma WindingsAgree(lat: Lattice, axis: Axis, k: int)
    requires Measurable(lat) && Total(DivView(lat, axis)) == 3 * k
    ensures !Mismatch(lat, axis)
  {
    DivTotalIsWindingDifference(lat, axis);
    AgreeFromMultiple(Winding(lat, axis, 0), Winding(lat, axis, 1), k);
  }

  lemma AgreeFromMultiple(w0: int, w1: int, k: int)
    requires w1 - w0 == 3 * k
    ensures ModuloWinding(w0) == ModuloWinding(w1)
  {
    ShiftByMultiple(0, w0 - w1, -k);
    ModuloWindingAgrees(w0, w1);
  }

  /** A neutral lattice passes the check of one pass. */
  lemma NeutralPassAgrees(lat: Lattice, axis: Axis)
    requires Measurable(lat) && Neutral(lat)
    ensures !Mismatch(lat, axis)
  {
    var k := NeutralDivTotal(lat, axis);
    WindingsAgree(lat, axis, k);
  }

  /** A neutral lattice passes the winding check on both passes, so
      `measure` succeeds on it. */
  lemma NeutralPassesCheck(lat: Lattice)
    requires Measurable(lat) && Neutral(lat)
    ensures !Mismatch(lat, Vertical) && !Mismatch(lat, Horizontal)
  {
    NeutralPassAgrees(lat, Vertical);
    NeutralPassAgrees(lat, Horizontal);
  }
}
