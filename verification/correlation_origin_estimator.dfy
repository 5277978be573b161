/** The origin correlation estimator of
    estimators/correlation_origin_estimator.rs: four correlation functions
    against the links of stored vertex 0. The horizontal ones follow the
    origin's east link, the vertical ones its north link; an In origin feeds
    the `*_in` vectors and an Out origin the `*_out` vectors. A link is
    counted when it points the same way as the origin link, which on the
    west (south) side means the opposite orientation. The averaged output
    (floating point and four files) is not modelled; nor is the wrap-around
    of the unsigned 64-bit counts. */
module CorrelationOrigin {
  import opened Datamodel
  import opened LatticeStore
  import opened LinkCounts

  datatype CorrelationOriginEstimator = CorrelationOriginEstimator(
    cur_binary_horizontal_out_correlation: seq<VertexLinkCount>,
    cur_binary_horizontal_in_correlation: seq<VertexLinkCount>,
    cur_binary_vertical_out_correlation: seq<VertexLinkCount>,
    cur_binary_vertical_in_correlation: seq<VertexLinkCount>,
    vector_size: int)

  /** The four vectors have `vector_size` counters each, as `new` makes
      them; the fields are private, so nothing else resizes them. */
  predicate Sized(est: CorrelationOriginEstimator)
  {
    && |est.cur_binary_horizontal_out_correlation| == est.vector_size
    && |est.cur_binary_horizontal_in_correlation| == est.vector_size
    && |est.cur_binary_vertical_out_correlation| == est.vector_size
    && |est.cur_binary_vertical_in_correlation| == est.vector_size
  }

  /** `new`: four vectors of `(size.x * size.y) / 2` zero counters. */
  function New(size: Point): (est: CorrelationOriginEstimator)
    requires size.x >= 0 && size.y >= 0
    ensures est.vector_size == Half(size) && Sized(est)
    ensures forall i :: 0 <= i < est.vector_size ==>
              && IsZero(est.cur_binary_horizontal_out_correlation[i])
              && IsZero(est.cur_binary_horizontal_in_correlation[i])
              && IsZero(est.cur_binary_vertical_out_correlation[i])
              && IsZero(est.cur_binary_vertical_in_correlation[i])
  {
    var cs := NewCounts(size);
    CorrelationOriginEstimator(cs, cs, cs, cs, Half(size))
  }

  /** `clear`: every counter of the four vectors zeroed. */
  function Clear(est: CorrelationOriginEstimator): (r: CorrelationOriginEstimator)
    requires Sized(est)
    ensures r.vector_size == est.vector_size && Sized(r)
    ensures forall i :: 0 <= i < r.vector_size ==>
              && IsZero(r.cur_binary_horizontal_out_correlation[i])
              && IsZero(r.cur_binary_horizontal_in_correlation[i])
              && IsZero(r.cur_binary_vertical_out_correlation[i])
              && IsZero(r.cur_binary_vertical_in_correlation[i])
  {
    est.(cur_binary_horizontal_out_correlation := ClearCounts(est.cur_binary_horizontal_out_correlation),
         cur_binary_horizontal_in_correlation := ClearCounts(est.cur_binary_horizontal_in_correlation),
         cur_binary_vertical_out_correlation := ClearCounts(est.cur_binary_vertical_out_correlation),
         cur_binary_vertical_in_correlation := ClearCounts(est.cur_binary_vertical_in_correlation))
  }

  /** One correlation function: the vector fed when the origin link in
      direction `fwd` (E or N) has orientation `side` (In or Out). */
  datatype Channel = Channel(fwd: Direction, side: Link)

  const HorizontalOut := Channel(E, Out)
  const HorizontalIn := Channel(E, In)
  const VerticalOut := Channel(N, Out)
  const VerticalIn := Channel(N, In)

  /** Whether vertex `v`'s link in direction `d` is counted by channel `ch`
      when the origin link is `origin`: the origin must have the channel's
      orientation, and the link must point the same way as the origin link,
      i.e. equal it on the `fwd` side and be its flip on the opposite side. */
  predicate Correlates(ch: Channel, origin: Link, v: Vertex, d: Direction)
  {
    && origin == ch.side
    && ((d == ch.fwd && LinkAt(v, d) == ch.side)
        || (d == FlipDirection(ch.fwd) && LinkAt(v, d) == FlipLink(ch.side)))
  }

  /** One counter after vertex `v` has been correlated into it. */
  function Correlated(c: VertexLinkCount, v: Vertex, ch: Channel, origin: Link): VertexLinkCount
  {
    VertexLinkCount(c.n + Indicator(Correlates(ch, origin, v, N)),
                    c.e + Indicator(Correlates(ch, origin, v, E)),
                    c.s + Indicator(Correlates(ch, origin, v, S)),
                    c.w + Indicator(Correlates(ch, origin, v, W)), c.xy)
  }

  /** A vector after a measurement: slot `i` correlates vertex `i`; slots
      past the last vertex are untouched. */
  function Measured(cs: seq<VertexLinkCount>, vs: seq<Vertex>, ch: Channel, origin: Link): (r: seq<VertexLinkCount>)
    ensures |r| == |cs|
  {
    seq(|cs|, i requires 0 <= i < |cs| => if i < |vs| then Correlated(cs[i], vs[i], ch, origin) else cs[i])
  }

  /** The origin links: east and north of stored vertex 0. */
  function OriginHorizontal(lat: Lattice): Link
    requires |lat.vertices| > 0
  {
    lat.vertices[0].e
  }

  function OriginVertical(lat: Lattice): Link
    requires |lat.vertices| > 0
  {
    lat.vertices[0].n
  }

  /** The per-vertex body of `measure`, for one axis: the origin `origin`
      selects the In or the Out vector and the link pair it checks. */
  function CorrelateVertex(outs: VertexLinkCount, ins: VertexLinkCount, v: Vertex, fwd: Direction, origin: Link)
    : (r: (VertexLinkCount, VertexLinkCount))
    requires fwd == E || fwd == N
    ensures r.0 == Correlated(outs, v, Channel(fwd, Out), origin)
    ensures r.1 == Correlated(ins, v, Channel(fwd, In), origin)
  {
    var back := FlipDirection(fwd);
    match origin
    case In =>
      var a := if LinkAt(v, fwd) == In then Bump(ins, fwd) else ins;
      (outs, if LinkAt(v, back) == Out then Bump(a, back) else a)
    case Out =>
      var a := if LinkAt(v, fwd) == Out then Bump(outs, fwd) else outs;
      (if LinkAt(v, back) == In then Bump(a, back) else a, ins)
    case Blank => (outs, ins)
  }

  /** Whether the loop of `measure` indexes the vectors at vertex `v`. */
  predicate TouchesSlot(v: Vertex, oh: Link, ov: Link)
  {
    || (oh == In && (v.e == In || v.w == Out))
    || (oh == Out && (v.e == Out || v.w == In))
    || (ov == In && (v.n == In || v.s == Out))
    || (ov == Out && (v.n == Out || v.s == In))
  }

  /** Loop invariant of `measure` for one vector: slots before `i` hold the
      measured counters, the others the counters from before. */
  predicate Agrees(cs: seq<VertexLinkCount>, orig: seq<VertexLinkCount>, vs: seq<Vertex>, ch: Channel, o: Link, i: int)
  {
    && 0 <= i <= |vs|
    && |cs| == |orig|
    && forall j :: 0 <= j < |orig| ==> cs[j] == if j < i then Correlated(orig[j], vs[j], ch, o) else orig[j]
  }

  lemma AgreesStep(cs: seq<VertexLinkCount>, orig: seq<VertexLinkCount>, vs: seq<Vertex>, ch: Channel, o: Link, i: int)
    requires Agrees(cs, orig, vs, ch, o, i) && i < |vs| && ch.side != Blank
    ensures i < |cs| ==> Agrees(cs[i := Correlated(cs[i], vs[i], ch, o)], orig, vs, ch, o, i + 1)
    ensures i < |cs| && o == Blank ==> Agrees(cs, orig, vs, ch, o, i + 1)
    ensures i >= |cs| ==> Agrees(cs, orig, vs, ch, o, i + 1)
  {
    if i < |cs| && o == Blank {
      assert Correlated(orig[i], vs[i], ch, o) == orig[i];
    }
  }

  lemma AgreesDone(cs: seq<VertexLinkCount>, orig: seq<VertexLinkCount>, vs: seq<Vertex>, ch: Channel, o: Link)
    requires Agrees(cs, orig, vs, ch, o, |vs|)
    ensures cs == Measured(orig, vs, ch, o)
  {
  }

  /** One axis of the loop body of `measure` at vertex `i`: when the axis
      is measured (its origin link is not Blank) and slot `i` exists, the
      vertex is correlated into the axis's Out and In vectors. */
  method CorrelateAxis(outs: seq<VertexLinkCount>, ins: seq<VertexLinkCount>,
                       orig_out: seq<VertexLinkCount>, orig_in: seq<VertexLinkCount>,
                       vs: seq<Vertex>, fwd: Direction, o: Link, i: int)
    returns (outs': seq<VertexLinkCount>, ins': seq<VertexLinkCount>)
    requires fwd == E || fwd == N
    requires i < |vs| && |outs| == |ins|
    requires Agrees(outs, orig_out, vs, Channel(fwd, Out), o, i)
    requires Agrees(ins, orig_in, vs, Channel(fwd, In), o, i)
    ensures |outs'| == |outs| && |ins'| == |ins|
    ensures Agrees(outs', orig_out, vs, Channel(fwd, Out), o, i + 1)
    ensures Agrees(ins', orig_in, vs, Channel(fwd, In), o, i + 1)
  {
    AgreesStep(outs, orig_out, vs, Channel(fwd, Out), o, i);
    AgreesStep(ins, orig_in, vs, Channel(fwd, In), o, i);
    outs', ins' := outs, ins;
    if i < |outs| && o != Blank {
      var (a, b) := CorrelateVertex(outs[i], ins[i], vs[i], fwd, o);
      outs', ins' := outs[i := a], ins[i := b];
    }
  }

  /** `measure`. Reading the origin panics on an empty lattice; with both
      origin links Blank nothing is counted; otherwise vertex `i` is
      correlated into slot `i` of the vectors its origin selects, which
      panics exactly when such a write falls past the vectors' end. */
  method Measure(est: CorrelationOriginEstimator, lat: Lattice) returns (r: Result<CorrelationOriginEstimator>)
    requires Sized(est)
    ensures |lat.vertices| == 0 ==> r == Failure(IndexOutOfRange)
    ensures |lat.vertices| > 0 ==>
              var oh, ov := OriginHorizontal(lat), OriginVertical(lat);
              && (r.Failure? <==> exists i :: est.vector_size <= i < |lat.vertices| && TouchesSlot(lat.vertices[i], oh, ov))
              && (r.Failure? ==> r.fault == IndexOutOfRange)
              && (oh == Blank && ov == Blank ==> r == Success(est))
              && (r.Success? ==>
                    && r.value.vector_size == est.vector_size
                    && r.value.cur_binary_horizontal_out_correlation
                         == Measured(est.cur_binary_horizontal_out_correlation, lat.vertices, HorizontalOut, oh)
                    && r.value.cur_binary_horizontal_in_correlation
                         == Measured(est.cur_binary_horizontal_in_correlation, lat.vertices, HorizontalIn, oh)
                    && r.value.cur_binary_vertical_out_correlation
                         == Measured(est.cur_binary_vertical_out_correlation, lat.vertices, VerticalOut, ov)
                    && r.value.cur_binary_vertical_in_correlation
                         == Measured(est.cur_binary_vertical_in_correlation, lat.vertices, VerticalIn, ov))
  {
    if |lat.vertices| == 0 {
      return Failure(IndexOutOfRange);
    }
    var vs := lat.vertices;
    var oh, ov := vs[0].e, vs[0].n;
    var measure_horizontal := oh != Blank;
    var measure_vertical := ov != Blank;
    if !measure_horizontal && !measure_vertical {
      BlankOriginsMoveNothing(est, vs);
      return Success(est);
    }
    var h_out, h_in := est.cur_binary_horizontal_out_correlation, est.cur_binary_horizontal_in_correlation;
    var v_out, v_in := est.cur_binary_vertical_out_correlation, est.cur_binary_vertical_in_correlation;
    var i := 0;
    while i < |vs|
      invariant 0 <= i <= |vs|
      invariant |h_out| == |h_in| == |v_out| == |v_in| == est.vector_size
      invariant forall j :: est.vector_size <= j < i ==> !TouchesSlot(vs[j], oh, ov)
      invariant Agrees(h_out, est.cur_binary_horizontal_out_correlation, vs, HorizontalOut, oh, i)
      invariant Agrees(h_in, est.cur_binary_horizontal_in_correlation, vs, HorizontalIn, oh, i)
      invariant Agrees(v_out, est.cur_binary_vertical_out_correlation, vs, VerticalOut, ov, i)
      invariant Agrees(v_in, est.cur_binary_vertical_in_correlation, vs, VerticalIn, ov, i)
    {
      if i >= est.vector_size && TouchesSlot(vs[i], oh, ov) {
        return Failure(IndexOutOfRange);
      }
      h_out, h_in := CorrelateAxis(h_out, h_in, est.cur_binary_horizontal_out_correlation,
                                   est.cur_binary_horizontal_in_correlation, vs, E, oh, i);
      v_out, v_in := CorrelateAxis(v_out, v_in, est.cur_binary_vertical_out_correlation,
                                   est.cur_binary_vertical_in_correlation, vs, N, ov, i);
      i := i + 1;
    }
    AgreesDone(h_out, est.cur_binary_horizontal_out_correlation, vs, HorizontalOut, oh);
    AgreesDone(h_in, est.cur_binary_horizontal_in_correlation, vs, HorizontalIn, oh);
    AgreesDone(v_out, est.cur_binary_vertical_out_correlation, vs, VerticalOut, ov);
    AgreesDone(v_in, est.cur_binary_vertical_in_correlation, vs, VerticalIn, ov);
    r := Success(est.(cur_binary_horizontal_out_correlation := h_out,
                      cur_binary_horizontal_in_correlation := h_in,
                      cur_binary_vertical_out_correlation := v_out,
                      cur_binary_vertical_in_correlation := v_in));
  }

  /** What a measurement does to one count of one channel: it rises by one
      exactly when the channel correlates that link of the slot's vertex,
      and otherwise stays. */
  lemma MeasuredCount(cs: seq<VertexLinkCount>, vs: seq<Vertex>, ch: Channel, o: Link, i: int, d: Direction)
    requires 0 <= i < |cs|
    ensures i < |vs| && Correlates(ch, o, vs[i], d) ==> CountAt(Measured(cs, vs, ch, o)[i], d) == CountAt(cs[i], d) + 1
    ensures !(i < |vs| && Correlates(ch, o, vs[i], d)) ==> CountAt(Measured(cs, vs, ch, o)[i], d) == CountAt(cs[i], d)
  {
    match d
    case N =>
    case E =>
    case S =>
    case W =>
  }

  /** The horizontal In channel under an In origin: the east count rises
      exactly for an In east link, the west count exactly for an Out west
      link, and the vertical counts never move. The other three channels
      are the same with In and Out, or E/W and N/S, exchanged. */
  lemma HorizontalInCounts(cs: seq<VertexLinkCount>, vs: seq<Vertex>, i: int)
    requires 0 <= i < |cs| && i < |vs|
    ensures var m := Measured(cs, vs, HorizontalIn, In)[i];
            && (m.e == cs[i].e + 1 <==> vs[i].e == In)
            && (m.w == cs[i].w + 1 <==> vs[i].w == Out)
            && m.n == cs[i].n && m.s == cs[i].s
  {
    MeasuredCount(cs, vs, HorizontalIn, In, i, N);
    MeasuredCount(cs, vs, HorizontalIn, In, i, E);
    MeasuredCount(cs, vs, HorizontalIn, In, i, S);
    MeasuredCount(cs, vs, HorizontalIn, In, i, W);
  }

  lemma VerticalOutCounts(cs: seq<VertexLinkCount>, vs: seq<Vertex>, i: int)
    requires 0 <= i < |cs| && i < |vs|
    ensures var m := Measured(cs, vs, VerticalOut, Out)[i];
            && (m.n == cs[i].n + 1 <==> vs[i].n == Out)
            && (m.s == cs[i].s + 1 <==> vs[i].s == In)
            && m.e == cs[i].e && m.w == cs[i].w
  {
    MeasuredCount(cs, vs, VerticalOut, Out, i, N);
    MeasuredCount(cs, vs, VerticalOut, Out, i, E);
    MeasuredCount(cs, vs, VerticalOut, Out, i, S);
    MeasuredCount(cs, vs, VerticalOut, Out, i, W);
  }

  /** With both origin links Blank, no vertex touches a slot and no vector
      moves. */
  lemma BlankOriginsMoveNothing(est: CorrelationOriginEstimator, vs: seq<Vertex>)
    ensures forall v :: !TouchesSlot(v, Blank, Blank)
    ensures Measured(est.cur_binary_horizontal_out_correlation, vs, HorizontalOut, Blank)
              == est.cur_binary_horizontal_out_correlation
    ensures Measured(est.cur_binary_horizontal_in_correlation, vs, HorizontalIn, Blank)
              == est.cur_binary_horizontal_in_correlation
    ensures Measured(est.cur_binary_vertical_out_correlation, vs, VerticalOut, Blank)
              == est.cur_binary_vertical_out_correlation
    ensures Measured(est.cur_binary_vertical_in_correlation, vs, VerticalIn, Blank)
              == est.cur_binary_vertical_in_correlation
  {
    OnlyMatchingChannelMoves(est.cur_binary_horizontal_out_correlation, vs, HorizontalOut, Blank);
    OnlyMatchingChannelMoves(est.cur_binary_horizontal_in_correlation, vs, HorizontalIn, Blank);
    OnlyMatchingChannelMoves(est.cur_binary_vertical_out_correlation, vs, VerticalOut, Blank);
    OnlyMatchingChannelMoves(est.cur_binary_vertical_in_correlation, vs, VerticalIn, Blank);
  }

  /** Only the channel whose orientation the origin has is fed: an In
      origin leaves the Out vector as it was, an Out origin the In vector,
      and a Blank origin both. */
  lemma OnlyMatchingChannelMoves(cs: seq<VertexLinkCount>, vs: seq<Vertex>, ch: Channel, o: Link)
    requires o != ch.side
    ensures Measured(cs, vs, ch, o) == cs
  {
    forall i | 0 <= i < |cs|
      ensures Measured(cs, vs, ch, o)[i] == cs[i]
    {
      if i < |vs| {
        assert !Correlates(ch, o, vs[i], N) && !Correlates(ch, o, vs[i], E);
        assert !Correlates(ch, o, vs[i], S) && !Correlates(ch, o, vs[i], W);
      }
    }
  }

  /** The origin correlates with itself: when its link in the channel's
      direction has the channel's orientation, slot 0 gains exactly one in
      that direction. */
  lemma OriginCountsItself(cs: seq<VertexLinkCount>, vs: seq<Vertex>, ch: Channel)
    requires |cs| > 0 && |vs| > 0
    requires ch.fwd == E || ch.fwd == N
    requires LinkAt(vs[0], ch.fwd) == ch.side
    ensures CountAt(Measured(cs, vs, ch, LinkAt(vs[0], ch.fwd))[0], ch.fwd) == CountAt(cs[0], ch.fwd) + 1
  {
    MeasuredCount(cs, vs, ch, LinkAt(vs[0], ch.fwd), 0, ch.fwd);
  }

  /** Each count grows by at most one per measurement. */
  lemma MeasureGrowsByAtMostOne(cs: seq<VertexLinkCount>, vs: seq<Vertex>, ch: Channel, o: Link)
    ensures forall i, d :: 0 <= i < |cs| ==>
              0 <= CountAt(Measured(cs, vs, ch, o)[i], d) - CountAt(cs[i], d) <= 1
  {
    forall i, d | 0 <= i < |cs|
      ensures 0 <= CountAt(Measured(cs, vs, ch, o)[i], d) - CountAt(cs[i], d) <= 1
    {
      MeasuredCount(cs, vs, ch, o, i, d);
    }
  }
}
