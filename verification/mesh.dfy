/**
 The buffers both shape generators return, the views a renderer takes of them
 (vertex j, triangle t, the directed edges of a triangle), and the edge count
 that says when an indexed triangle mesh is closed and consistently wound.
 */
module Mesh {

  /** A vertex position or normal, read out of a flat buffer. */
  datatype Point = Point(x: real, y: real, z: real)

  /** The horizontal coordinates of one ring point: x = rad·sin θ, z = rad·cos θ. */
  datatype RingXZ = RingXZ(x: real, z: real)

  /** What a generator returns: three flat buffers, as the renderer uploads them. */
  datatype MeshData = MeshData(index: seq<int>, normal: seq<real>, position: seq<real>)

  /** One index triple; the order a, b, c is the winding. */
  datatype Tri = Tri(a: int, b: int, c: int)

  /** A directed edge between two vertex indices. */
  datatype Edge = Edge(from: int, to: int)

  /** Where a directed edge sits in a mesh: triangle number and side 0, 1 or 2. */
  datatype Slot = Slot(tri: nat, side: nat)

  datatype Option<T> = None | Some(value: T)

  /** Vertex j of a flat buffer holding three numbers per vertex. */
  function VertexAt(buf: seq<real>, j: nat): Point
    requires 3 * j + 2 < |buf|
  {
    Point(buf[3 * j], buf[3 * j + 1], buf[3 * j + 2])
  }

  /** Triangle t of a flat index buffer holding three indices per triangle. */
  function TriangleAt(idx: seq<int>, t: nat): Tri
    requires 3 * t + 2 < |idx|
  {
    Tri(idx[3 * t], idx[3 * t + 1], idx[3 * t + 2])
  }

  /** Side s of a triangle, directed along its winding: a→b, b→c, c→a. */
  function EdgeOf(tri: Tri, s: nat): Edge
    requires s < 3
  {
    if s == 0 then Edge(tri.a, tri.b)
    else if s == 1 then Edge(tri.b, tri.c)
    else Edge(tri.c, tri.a)
  }

  function Reverse(e: Edge): Edge {
    Edge(e.to, e.from)
  }

  /** How many of the three sides of `tri` are the directed edge e. */
  function TriEdgeCount(tri: Tri, e: Edge): nat {
    (if EdgeOf(tri, 0) == e then 1 else 0)
    + (if EdgeOf(tri, 1) == e then 1 else 0)
    + (if EdgeOf(tri, 2) == e then 1 else 0)
  }

  /** How many times the directed edge e occurs among the first T triangles of idx. */
  function EdgeCount(idx: seq<int>, T: nat, e: Edge): nat
    requires 3 * T <= |idx|
  {
    if T == 0 then 0
    else EdgeCount(idx, T - 1, e) + TriEdgeCount(TriangleAt(idx, T - 1), e)
  }

  predicate AllZero(buf: seq<real>) {
    forall j :: 0 <= j < |buf| ==> buf[j] == 0.0
  }

  /** k triples of zeros, as the normal loops push them. */
  function ZeroPush(k: nat): (z: seq<real>)
    ensures |z| == 3 * k
    ensures AllZero(z)
  {
    if k == 0 then [] else ZeroPush(k - 1) + [0.0, 0.0, 0.0]
  }

  predicate IndicesBelow(idx: seq<int>, bound: int) {
    forall j :: 0 <= j < |idx| ==> 0 <= idx[j] < bound
  }

  predicate DistinctCorners(tri: Tri) {
    tri.a != tri.b && tri.b != tri.c && tri.c != tri.a
  }

  /**
   Every side of every one of the first T triangles occurs exactly once in that
   direction and exactly once in the opposite direction: each edge is shared by
   two triangles that traverse it in opposite senses, so the surface is closed
   and its winding is consistent.
   */
  predicate Closed(idx: seq<int>, T: nat)
    requires 3 * T <= |idx|
  {
    forall t, s :: 0 <= t < T && 0 <= s < 3 ==>
      EdgeCount(idx, T, EdgeOf(TriangleAt(idx, t), s)) == 1
      && EdgeCount(idx, T, Reverse(EdgeOf(TriangleAt(idx, t), s))) == 1
  }

  /**
   If triangle `owner` holds e once and no other triangle holds it, e is counted
   once; if no triangle holds it (owner out of range), it is counted zero times.
   */
  lemma {:induction false} CountFromOwner(idx: seq<int>, T: nat, e: Edge, owner: int)
    requires 3 * T <= |idx|
    requires forall t :: 0 <= t < T ==> TriEdgeCount(TriangleAt(idx, t), e) == (if t == owner then 1 else 0)
    ensures EdgeCount(idx, T, e) == (if 0 <= owner < T then 1 else 0)
  {
    if T > 0 {
      CountFromOwner(idx, T - 1, e, owner);
    }
  }

  /**
   A side of a triangle counts once in that triangle exactly when no other side
   of the same triangle is the same directed edge; this turns "the decoder
   names one side" into a count.
   */
  lemma SideCount(tri: Tri, e: Edge, side: int)
    requires forall s :: 0 <= s < 3 ==> (EdgeOf(tri, s) == e <==> s == side)
    ensures TriEdgeCount(tri, e) == (if 0 <= side < 3 then 1 else 0)
  {
    assert EdgeOf(tri, 0) == e <==> side == 0;
    assert EdgeOf(tri, 1) == e <==> side == 1;
    assert EdgeOf(tri, 2) == e <==> side == 2;
  }

  /**
   `dec` names, for each directed edge, the one side of the first T triangles
   that carries it: every side decodes to itself, every named side is a real
   side carrying the edge, and an edge has a carrier exactly when its reverse
   has one.
   */
  ghost predicate ExactDecoder(idx: seq<int>, T: nat, dec: Edge -> Option<Slot>)
    requires 3 * T <= |idx|
  {
    && (forall t, s :: 0 <= t < T && 0 <= s < 3 ==> dec(EdgeOf(TriangleAt(idx, t), s)) == Some(Slot(t, s)))
    && (forall e :: dec(e).Some? ==>
          && dec(e).value.tri < T && dec(e).value.side < 3
          && EdgeOf(TriangleAt(idx, dec(e).value.tri), dec(e).value.side) == e)
    && (forall e :: dec(e).Some? <==> dec(Reverse(e)).Some?)
  }

  /** With an exact decoder, a directed edge occurs once if it is decoded and never otherwise. */
  lemma EdgeCountByDecoder(idx: seq<int>, T: nat, dec: Edge -> Option<Slot>, e: Edge)
    requires 3 * T <= |idx| && ExactDecoder(idx, T, dec)
    ensures EdgeCount(idx, T, e) == (if dec(e).Some? then 1 else 0)
  {
    var owner: int := if dec(e).Some? then dec(e).value.tri else -1;
    var side: int := if dec(e).Some? then dec(e).value.side else -1;
    forall t | 0 <= t < T
      ensures TriEdgeCount(TriangleAt(idx, t), e) == (if t == owner then 1 else 0)
    {
      var tri := TriangleAt(idx, t);
      var mine: int := if t == owner then side else -1;
      forall s | 0 <= s < 3
        ensures EdgeOf(tri, s) == e <==> s == mine
      {
        assert dec(EdgeOf(tri, s)) == Some(Slot(t, s));
      }
      SideCount(tri, e, mine);
    }
    CountFromOwner(idx, T, e, owner);
  }

  /**
   A mesh with an exact decoder is closed and consistently wound: every
   directed edge occurs at most once and exactly as often as its reverse, and
   every side of every triangle is met once in each direction.
   */
  lemma ClosedByDecoder(idx: seq<int>, T: nat, dec: Edge -> Option<Slot>)
    requires 3 * T <= |idx| && ExactDecoder(idx, T, dec)
    ensures forall e :: EdgeCount(idx, T, e) <= 1 && EdgeCount(idx, T, e) == EdgeCount(idx, T, Reverse(e))
    ensures Closed(idx, T)
  {
    forall e
      ensures EdgeCount(idx, T, e) <= 1 && EdgeCount(idx, T, e) == EdgeCount(idx, T, Reverse(e))
    {
      EdgeCountByDecoder(idx, T, dec, e);
      EdgeCountByDecoder(idx, T, dec, Reverse(e));
    }
    forall t, s | 0 <= t < T && 0 <= s < 3
      ensures EdgeCount(idx, T, EdgeOf(TriangleAt(idx, t), s)) == 1
      ensures EdgeCount(idx, T, Reverse(EdgeOf(TriangleAt(idx, t), s))) == 1
    {
      var e := EdgeOf(TriangleAt(idx, t), s);
      EdgeCountByDecoder(idx, T, dec, e);
      EdgeCountByDecoder(idx, T, dec, Reverse(e));
    }
  }
}
