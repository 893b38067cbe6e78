/** The geometry side of a feature: the axis-aligned box `box2d<double>` and a geometry
    seen only through its own envelope. Coordinates are ordered reals, not IEEE doubles. */
module Geometry {

  datatype Box = Box(minx: real, miny: real, maxx: real, maxy: real)

  /** A default-constructed `box2d`: minimum (0, 0), maximum (-1, -1). Its maxima lie
      below its minima, so it is the empty box rather than a point at the origin. */
  function DefaultBox(): (b: Box)
    ensures b.maxx < b.minx && b.maxy < b.miny
  {
    Box(0.0, 0.0, -1.0, -1.0)
  }

  predicate WellFormed(b: Box)
  {
    b.minx <= b.maxx && b.miny <= b.maxy
  }

  predicate Contains(outer: Box, inner: Box)
  {
    && outer.minx <= inner.minx && inner.maxx <= outer.maxx
    && outer.miny <= inner.miny && inner.maxy <= outer.maxy
  }

  /** `box2d::init(x0, y0, x1, y1)`: the box with those corners, whichever way round
      they are given. */
  function Init(x0: real, y0: real, x1: real, y1: real): (r: Box)
    ensures WellFormed(r)
    ensures {r.minx, r.maxx} == {x0, x1} && {r.miny, r.maxy} == {y0, y1}
  {
    Box(if x0 < x1 then x0 else x1, if y0 < y1 then y0 else y1,
        if x0 < x1 then x1 else x0, if y0 < y1 then y1 else y0)
  }

  /** `box2d::expand_to_include(other)`: each bound moves outward only as far as
      `other`'s bound on that side. */
  function ExpandToInclude(b: Box, other: Box): (r: Box)
    ensures Contains(r, other)
    ensures r.minx <= b.minx && r.miny <= b.miny && b.maxx <= r.maxx && b.maxy <= r.maxy
    ensures (r.minx == b.minx || r.minx == other.minx) && (r.miny == b.miny || r.miny == other.miny)
    ensures (r.maxx == b.maxx || r.maxx == other.maxx) && (r.maxy == b.maxy || r.maxy == other.maxy)
  {
    Box(if other.minx < b.minx then other.minx else b.minx,
        if other.miny < b.miny then other.miny else b.miny,
        if other.maxx > b.maxx then other.maxx else b.maxx,
        if other.maxy > b.maxy then other.maxy else b.maxy)
  }

  /** A geometry of the feature; only its own bounding box matters here. */
  datatype Geometry = Geometry(bounds: Box)
  {
    function Envelope(): Box
    {
      bounds
    }
  }

  /** The box `feature_impl::envelope()` accumulates over `gs`: the default box when
      there is no geometry, otherwise the first envelope normalised by `Init` and then
      expanded by each later envelope in turn. */
  function EnvelopeOf(gs: seq<Geometry>): (r: Box)
    ensures |gs| > 0 ==> WellFormed(r)
    ensures r == DefaultBox() <==> |gs| == 0
  {
    if |gs| == 0 then DefaultBox()
    else if |gs| == 1 then
      var b := gs[0].Envelope();
      Init(b.minx, b.miny, b.maxx, b.maxy)
    else ExpandToInclude(EnvelopeOf(gs[..|gs| - 1]), gs[|gs| - 1].Envelope())
  }

  /** When the first geometry has a proper box, the accumulated box is the union of all
      the boxes: its minima are the smallest and its maxima the largest of the geometries'
      bounds. Later boxes need not be proper, since expanding takes the outer bound on each
      side. */
  lemma {:induction false} EnvelopeIsUnion(gs: seq<Geometry>)
    requires |gs| > 0
    requires WellFormed(gs[0].Envelope())
    ensures forall i :: 0 <= i < |gs| ==> Contains(EnvelopeOf(gs), gs[i].Envelope())
    ensures exists i :: 0 <= i < |gs| && EnvelopeOf(gs).minx == gs[i].Envelope().minx
    ensures exists i :: 0 <= i < |gs| && EnvelopeOf(gs).miny == gs[i].Envelope().miny
    ensures exists i :: 0 <= i < |gs| && EnvelopeOf(gs).maxx == gs[i].Envelope().maxx
    ensures exists i :: 0 <= i < |gs| && EnvelopeOf(gs).maxy == gs[i].Envelope().maxy
  {
    var r := EnvelopeOf(gs);
    var n := |gs|;
    if n == 1 {
      assert r == gs[0].Envelope();
    } else {
      var front := gs[..n - 1];
      assert forall i :: 0 <= i < n - 1 ==> front[i] == gs[i];
      EnvelopeIsUnion(front);
      var last := gs[n - 1].Envelope();
      assert r == ExpandToInclude(EnvelopeOf(front), last);
      forall i | 0 <= i < n ensures Contains(r, gs[i].Envelope()) {
        if i < n - 1 {
          assert Contains(EnvelopeOf(front), front[i].Envelope());
        }
      }
      var a :| 0 <= a < n - 1 && EnvelopeOf(front).minx == front[a].Envelope().minx;
      var b :| 0 <= b < n - 1 && EnvelopeOf(front).miny == front[b].Envelope().miny;
      var c :| 0 <= c < n - 1 && EnvelopeOf(front).maxx == front[c].Envelope().maxx;
      var d :| 0 <= d < n - 1 && EnvelopeOf(front).maxy == front[d].Envelope().maxy;
      var ia := if r.minx == last.minx then n - 1 else a;
      var ib := if r.miny == last.miny then n - 1 else b;
      var ic := if r.maxx == last.maxx then n - 1 else c;
      var id := if r.maxy == last.maxy then n - 1 else d;
      assert r.minx == gs[ia].Envelope().minx && r.miny == gs[ib].Envelope().miny;
      assert r.maxx == gs[ic].Envelope().maxx && r.maxy == gs[id].Envelope().maxy;
    }
  }

  /** An empty first box is not skipped: `Init` swaps its corners, so a leading empty
      geometry stretches the envelope to (-1, -1), a corner that no geometry has. */
  lemma EmptyFirstBoxStretches()
    ensures EnvelopeOf([Geometry(DefaultBox()), Geometry(Box(2.0, 2.0, 3.0, 3.0))]) == Box(-1.0, -1.0, 3.0, 3.0)
  {
    var gs := [Geometry(DefaultBox()), Geometry(Box(2.0, 2.0, 3.0, 3.0))];
    assert gs[..1] == [Geometry(DefaultBox())];
  }
}
