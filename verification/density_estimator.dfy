/** The string-density estimator of estimators/density_estimator.rs: for every
    stored vertex and direction it counts In links, Out links, and both
    together, in three vectors of per-site counters. The averaged output
    (floating point and a file) and `write_total_count` (a file) are not
    modelled; nor is the wrap-around of the unsigned 64-bit counts. */
module Density {
  import opened Datamodel
  import opened LatticeStore
  import opened LinkCounts
  import TotalLinkCount

  datatype DensityEstimator = DensityEstimator(
    cur_link_in_count: seq<VertexLinkCount>,
    cur_link_out_count: seq<VertexLinkCount>,
    cur_total_count: seq<VertexLinkCount>,
    vector_size: int)

  /** The three vectors have `vector_size` counters each, as `new` makes
      them; the fields are private, so nothing else resizes them. */
  predicate Sized(est: DensityEstimator)
  {
    && |est.cur_link_in_count| == est.vector_size
    && |est.cur_link_out_count| == est.vector_size
    && |est.cur_total_count| == est.vector_size
  }

  /** Slot by slot and direction by direction, the total count is the In
      count plus the Out count. */
  predicate Consistent(est: DensityEstimator)
  {
    && Sized(est)
    && forall i, d :: 0 <= i < est.vector_size ==>
         CountAt(est.cur_total_count[i], d)
           == CountAt(est.cur_link_in_count[i], d) + CountAt(est.cur_link_out_count[i], d)
  }

  /** `new`: three vectors of `(size.x * size.y) / 2` zero counters. */
  function New(size: Point): (est: DensityEstimator)
    requires size.x >= 0 && size.y >= 0
    ensures est.vector_size == Half(size) && Consistent(est)
    ensures forall i :: 0 <= i < est.vector_size ==>
              && IsZero(est.cur_link_in_count[i])
              && IsZero(est.cur_link_out_count[i])
              && IsZero(est.cur_total_count[i])
  {
    var cs := NewCounts(size);
    DensityEstimator(cs, cs, cs, Half(size))
  }

  /** `clear`: every counter of the three vectors zeroed. */
  function Clear(est: DensityEstimator): (r: DensityEstimator)
    requires Sized(est)
    ensures r.vector_size == est.vector_size && Consistent(r)
    ensures forall i :: 0 <= i < r.vector_size ==>
              && IsZero(r.cur_link_in_count[i])
              && IsZero(r.cur_link_out_count[i])
              && IsZero(r.cur_total_count[i])
  {
    est.(cur_link_in_count := ClearCounts(est.cur_link_in_count),
         cur_link_out_count := ClearCounts(est.cur_link_out_count),
         cur_total_count := ClearCounts(est.cur_total_count))
  }

  /** Which links a vector counts. */
  datatype Tally = InLinks | OutLinks | AllLinks

  predicate Counts(t: Tally, l: Link)
  {
    match t
    case InLinks => l == In
    case OutLinks => l == Out
    case AllLinks => l != Blank
  }

  /** The match on one link: one more in direction `d` when the tally
      counts the link `l`. */
  function CountStep(c: VertexLinkCount, l: Link, d: Direction, t: Tally): VertexLinkCount
  {
    if Counts(t, l) then Bump(c, d) else c
  }

  /** One counter after a vertex has been counted into it, link by link in
      the order n, e, s, w. */
  function Counted(c: VertexLinkCount, v: Vertex, t: Tally): VertexLinkCount
  {
    CountStep(CountStep(CountStep(CountStep(c, v.n, N, t), v.e, E, t), v.s, S, t), v.w, W, t)
  }

  /** A vector after a measurement: slot `i` counts vertex `i`; slots past
      the last vertex are untouched. */
  function Measured(cs: seq<VertexLinkCount>, vs: seq<Vertex>, t: Tally): (r: seq<VertexLinkCount>)
    ensures |r| == |cs|
  {
    seq(|cs|, i requires 0 <= i < |cs| => if i < |vs| then Counted(cs[i], vs[i], t) else cs[i])
  }

  /** A vertex some link of which is not Blank: counting it writes to its
      slot, which panics when the slot does not exist. */
  predicate HasFilledLink(v: Vertex)
  {
    v.n != Blank || v.e != Blank || v.s != Blank || v.w != Blank
  }

  /** The match of `measure` on one link of one vertex. */
  function CountLink(ins: VertexLinkCount, outs: VertexLinkCount, total: VertexLinkCount, l: Link, d: Direction)
    : (r: (VertexLinkCount, VertexLinkCount, VertexLinkCount))
    ensures r.0 == CountStep(ins, l, d, InLinks)
    ensures r.1 == CountStep(outs, l, d, OutLinks)
    ensures r.2 == CountStep(total, l, d, AllLinks)
  {
    match l
    case In => (Bump(ins, d), outs, Bump(total, d))
    case Out => (ins, Bump(outs, d), Bump(total, d))
    case Blank => (ins, outs, total)
  }

  /** The four matches of `measure` for one vertex, in the order n, e, s, w. */
  function CountVertex(ins: VertexLinkCount, outs: VertexLinkCount, total: VertexLinkCount, v: Vertex)
    : (r: (VertexLinkCount, VertexLinkCount, VertexLinkCount))
    ensures r.0 == Counted(ins, v, InLinks)
    ensures r.1 == Counted(outs, v, OutLinks)
    ensures r.2 == Counted(total, v, AllLinks)
  {
    var a := CountLink(ins, outs, total, v.n, N);
    var b := CountLink(a.0, a.1, a.2, v.e, E);
    var c := CountLink(b.0, b.1, b.2, v.s, S);
    CountLink(c.0, c.1, c.2, v.w, W)
  }

  /** `measure`: vertex `i` is counted into slot `i` of each vector. Indexing
      past the vectors panics, which happens exactly when a vertex with a
      filled link sits at a position the vectors do not reach. */
  method Measure(est: DensityEstimator, lat: Lattice) returns (r: Result<DensityEstimator>)
    requires Sized(est)
    ensures r.Failure? <==> exists i :: est.vector_size <= i < |lat.vertices| && HasFilledLink(lat.vertices[i])
    ensures r.Failure? ==> r.fault == IndexOutOfRange
    ensures r.Success? ==>
              && r.value.vector_size == est.vector_size
              && r.value.cur_link_in_count == Measured(est.cur_link_in_count, lat.vertices, InLinks)
              && r.value.cur_link_out_count == Measured(est.cur_link_out_count, lat.vertices, OutLinks)
              && r.value.cur_total_count == Measured(est.cur_total_count, lat.vertices, AllLinks)
  {
    var vs := lat.vertices;
    var ins, outs, total := est.cur_link_in_count, est.cur_link_out_count, est.cur_total_count;
    var i := 0;
    while i < |vs|
      invariant 0 <= i <= |vs|
      invariant |ins| == |outs| == |total| == est.vector_size
      invariant forall j :: est.vector_size <= j < i ==> !HasFilledLink(vs[j])
      invariant forall j :: 0 <= j < est.vector_size ==>
                  ins[j] == (if j < i then Counted(est.cur_link_in_count[j], vs[j], InLinks) else est.cur_link_in_count[j])
      invariant forall j :: 0 <= j < est.vector_size ==>
                  outs[j] == (if j < i then Counted(est.cur_link_out_count[j], vs[j], OutLinks) else est.cur_link_out_count[j])
      invariant forall j :: 0 <= j < est.vector_size ==>
                  total[j] == (if j < i then Counted(est.cur_total_count[j], vs[j], AllLinks) else est.cur_total_count[j])
    {
      if i < est.vector_size {
        var (a, b, c) := CountVertex(ins[i], outs[i], total[i], vs[i]);
        ins, outs, total := ins[i := a], outs[i := b], total[i := c];
      } else if HasFilledLink(vs[i]) {
        return Failure(IndexOutOfRange);
      }
      i := i + 1;
    }
    r := Success(est.(cur_link_in_count := ins, cur_link_out_count := outs, cur_total_count := total));
  }

  /** What a measurement does to one count: it rises by one exactly when the
      vertex's link in that direction is of the counted kind, and otherwise
      stays. Slots past the last vertex never change. */
  lemma MeasuredCount(cs: seq<VertexLinkCount>, vs: seq<Vertex>, t: Tally, i: int, d: Direction)
    requires 0 <= i < |cs|
    ensures i < |vs| && Counts(t, LinkAt(vs[i], d)) ==> CountAt(Measured(cs, vs, t)[i], d) == CountAt(cs[i], d) + 1
    ensures !(i < |vs| && Counts(t, LinkAt(vs[i], d))) ==> CountAt(Measured(cs, vs, t)[i], d) == CountAt(cs[i], d)
  {
    if i < |vs| {
      CountedCount(cs[i], vs[i], t, d);
    }
  }

  /** Counting a vertex adds one to a direction's count exactly when the
      tally counts the vertex's link in that direction. */
  lemma CountedCount(c: VertexLinkCount, v: Vertex, t: Tally, d: Direction)
    ensures CountAt(Counted(c, v, t), d) == CountAt(c, d) + Indicator(Counts(t, LinkAt(v, d)))
    ensures Counted(c, v, t).xy == c.xy
  {
  }

  /** A measurement keeps every total equal to In plus Out. */
  lemma MeasureKeepsConsistent(est: DensityEstimator, vs: seq<Vertex>)
    requires Consistent(est)
    ensures Consistent(est.(cur_link_in_count := Measured(est.cur_link_in_count, vs, InLinks),
                            cur_link_out_count := Measured(est.cur_link_out_count, vs, OutLinks),
                            cur_total_count := Measured(est.cur_total_count, vs, AllLinks)))
  {
    var r := est.(cur_link_in_count := Measured(est.cur_link_in_count, vs, InLinks),
                  cur_link_out_count := Measured(est.cur_link_out_count, vs, OutLinks),
                  cur_total_count := Measured(est.cur_total_count, vs, AllLinks));
    forall i, d | 0 <= i < est.vector_size
      ensures CountAt(r.cur_total_count[i], d)
                == CountAt(r.cur_link_in_count[i], d) + CountAt(r.cur_link_out_count[i], d)
    {
      MeasuredCount(est.cur_link_in_count, vs, InLinks, i, d);
      MeasuredCount(est.cur_link_out_count, vs, OutLinks, i, d);
      MeasuredCount(est.cur_total_count, vs, AllLinks, i, d);
    }
  }

  /** Each count grows by at most one per measurement. */
  lemma MeasureGrowsByAtMostOne(cs: seq<VertexLinkCount>, vs: seq<Vertex>, t: Tally)
    ensures forall i, d :: 0 <= i < |cs| ==>
              0 <= CountAt(Measured(cs, vs, t)[i], d) - CountAt(cs[i], d) <= 1
  {
    forall i, d | 0 <= i < |cs|
      ensures 0 <= CountAt(Measured(cs, vs, t)[i], d) - CountAt(cs[i], d) <= 1
    {
      MeasuredCount(cs, vs, t, i, d);
    }
  }

  /** Measuring a lattice of Blank links changes no vector. */
  lemma BlankMeasureChangesNothing(cs: seq<VertexLinkCount>, vs: seq<Vertex>, t: Tally)
    requires forall i :: 0 <= i < |vs| ==> !HasFilledLink(vs[i])
    ensures Measured(cs, vs, t) == cs
  {
    forall i | 0 <= i < |cs|
      ensures Measured(cs, vs, t)[i] == cs[i]
    {
      if i < |vs| {
        assert !HasFilledLink(vs[i]);
      }
    }
  }

  /** Counting a vertex into a total counter adds its filled links. */
  lemma CountedTotal(c: VertexLinkCount, v: Vertex)
    ensures CountTotal(Counted(c, v, AllLinks)) == CountTotal(c) + TotalLinkCount.FilledLinks(v)
  {
    CountedCount(c, v, AllLinks, N);
    CountedCount(c, v, AllLinks, E);
    CountedCount(c, v, AllLinks, S);
    CountedCount(c, v, AllLinks, W);
  }

  lemma MeasuredPrefix(cs: seq<VertexLinkCount>, vs: seq<Vertex>, t: Tally, k: int)
    requires 0 <= k <= |cs|
    ensures Measured(cs, vs, t)[..k] == Measured(cs[..k], vs, t)
  {
  }

  lemma SumCountsSnoc(cs: seq<VertexLinkCount>, c: VertexLinkCount)
    ensures SumCounts(cs + [c]) == SumCounts(cs) + CountTotal(c)
  {
    assert (cs + [c])[..|cs|] == cs;
  }

  /** The density and total-link-count estimators agree: over a measurement
      of a lattice whose vertices all have a slot, the total vector gains
      exactly as many counts as the total link count does. */
  lemma {:induction false} TotalsAgreeWithLinkCount(cs: seq<VertexLinkCount>, vs: seq<Vertex>)
    requires |vs| <= |cs|
    ensures SumCounts(Measured(cs, vs, AllLinks)) == SumCounts(cs) + TotalLinkCount.NonBlankCount(vs)
    decreases |cs|
  {
    var m := Measured(cs, vs, AllLinks);
    if |cs| == 0 {
      assert vs == [];
    } else {
      var k := |cs| - 1;
      MeasuredPrefix(cs, vs, AllLinks, k);
      assert m == m[..k] + [m[k]];
      SumCountsSnoc(m[..k], m[k]);
      if |vs| == |cs| {
        var u := vs[..k];
        assert Measured(cs[..k], vs, AllLinks) == Measured(cs[..k], u, AllLinks);
        TotalsAgreeWithLinkCount(cs[..k], u);
        TotalLinkCount.NonBlankCountSnoc(vs, k);
        assert vs[..k + 1] == vs;
        CountedTotal(cs[k], vs[k]);
      } else {
        TotalsAgreeWithLinkCount(cs[..k], vs);
        assert m[k] == cs[k];
      }
    }
  }
}
