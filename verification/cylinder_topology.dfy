/**
 The cylinder's surface is closed and consistently wound when it has at least
 three segments: every directed edge of the mesh occurs once, and so does its
 reverse. As for the cone, Decode names the one triangle side that carries a
 directed edge, read off its end points.
 */
module CylinderTopology {
  import opened Mesh
  import opened Cylinder

  /** The segment before j on a ring of n segments: the inverse of NextSeg. */
  function PrevSeg(n: nat, j: nat): (r: nat)
    requires j < n
    ensures r < n && NextSeg(n, r) == j
  {
    if j == 0 then n - 1 else j - 1
  }

  lemma PrevOfNext(n: nat, j: nat)
    requires j < n
    ensures PrevSeg(n, NextSeg(n, j)) == j
  {
  }

  predicate OnRing(n: nat, v: int) {
    0 <= v < 2 * n
  }

  predicate Bottom(v: int) {
    v % 2 == 0
  }

  /** Halving and parity of ring vertex 2j (bottom) and 2j+1 (top). */
  lemma Halves(j: nat)
    ensures (2 * j) / 2 == j && Bottom(2 * j)
    ensures (2 * j + 1) / 2 == j && !Bottom(2 * j + 1)
  {
  }

  /** A ring vertex is the bottom or the top vertex of its segment. */
  lemma Rebuild(v: nat)
    ensures Bottom(v) ==> v == 2 * (v / 2)
    ensures !Bottom(v) ==> v == 2 * (v / 2) + 1
  {
  }

  /** The carrier of a directed edge between two ring vertices. */
  function DecodeRing(n: nat, u: nat, w: nat): Option<Slot>
    requires u < 2 * n && w < 2 * n
  {
    var ju := u / 2;
    var jw := w / 2;
    if Bottom(u) && Bottom(w) && jw == NextSeg(n, ju) then Some(Slot(4 * ju + 2, 1))
    else if Bottom(u) && Bottom(w) && jw == PrevSeg(n, ju) then Some(Slot(4 * jw, 1))
    else if !Bottom(u) && !Bottom(w) && jw == NextSeg(n, ju) then Some(Slot(4 * ju + 1, 0))
    else if !Bottom(u) && !Bottom(w) && jw == PrevSeg(n, ju) then Some(Slot(4 * jw + 3, 1))
    else if !Bottom(u) && Bottom(w) && jw == ju then Some(Slot(4 * ju + 2, 0))
    else if Bottom(u) && !Bottom(w) && jw == ju then Some(Slot(4 * PrevSeg(n, ju) + 3, 0))
    else if Bottom(u) && !Bottom(w) && jw == PrevSeg(n, ju) then Some(Slot(4 * jw + 2, 2))
    else if !Bottom(u) && Bottom(w) && jw == NextSeg(n, ju) then Some(Slot(4 * ju + 3, 2))
    else None
  }

  /**
   The triangle side that carries the directed edge e: centre→ring and
   ring→centre sides belong to the caps, ring→ring sides to a cap or to one of
   the two side triangles according to direction and level.
   */
  function Decode(n: nat, e: Edge): Option<Slot> {
    var u := e.from;
    var w := e.to;
    if OnRing(n, u) && OnRing(n, w) then DecodeRing(n, u, w)
    else if u == 2 * n && OnRing(n, w) && Bottom(w) then Some(Slot(4 * PrevSeg(n, w / 2), 0))
    else if OnRing(n, u) && Bottom(u) && w == 2 * n then Some(Slot(4 * (u / 2), 2))
    else if OnRing(n, u) && !Bottom(u) && w == 2 * n + 1 then Some(Slot(4 * PrevSeg(n, u / 2) + 1, 1))
    else if u == 2 * n + 1 && OnRing(n, w) && !Bottom(w) then Some(Slot(4 * (w / 2) + 1, 2))
    else None
  }

  /** The sides of the bottom-cap triangle of segment k decode to themselves. */
  lemma DecodeBottomCap(n: nat, k: nat, s: nat)
    requires n >= 3 && k < n && s < 3
    ensures Decode(n, EdgeOf(CylTri(n, 4 * k), s)) == Some(Slot(4 * k, s))
  {
    SegmentTriangles(n, k);
    var k' := NextSeg(n, k);
    Halves(k);
    Halves(k');
    PrevOfNext(n, k);
    assert NextSeg(n, k') != k;
  }

  /** The sides of the top-cap triangle of segment k decode to themselves. */
  lemma DecodeTopCap(n: nat, k: nat, s: nat)
    requires n >= 3 && k < n && s < 3
    ensures Decode(n, EdgeOf(CylTri(n, 4 * k + 1), s)) == Some(Slot(4 * k + 1, s))
  {
    SegmentTriangles(n, k);
    var k' := NextSeg(n, k);
    Halves(k);
    Halves(k');
    PrevOfNext(n, k);
  }

  /** The sides of the first side triangle of segment k decode to themselves. */
  lemma DecodeSideLower(n: nat, k: nat, s: nat)
    requires n >= 3 && k < n && s < 3
    ensures Decode(n, EdgeOf(CylTri(n, 4 * k + 2), s)) == Some(Slot(4 * k + 2, s))
  {
    SegmentTriangles(n, k);
    var k' := NextSeg(n, k);
    Halves(k);
    Halves(k');
    PrevOfNext(n, k);
  }

  /** The sides of the second side triangle of segment k decode to themselves. */
  lemma DecodeSideUpper(n: nat, k: nat, s: nat)
    requires n >= 3 && k < n && s < 3
    ensures Decode(n, EdgeOf(CylTri(n, 4 * k + 3), s)) == Some(Slot(4 * k + 3, s))
  {
    SegmentTriangles(n, k);
    var k' := NextSeg(n, k);
    Halves(k);
    Halves(k');
    PrevOfNext(n, k);
    assert NextSeg(n, k') != k;
  }

  /** Every side of every cylinder triangle decodes to itself. */
  lemma DecodeSides(n: nat, t: nat, s: nat)
    requires n >= 3 && t < 4 * n && s < 3
    ensures Decode(n, EdgeOf(CylTri(n, t), s)) == Some(Slot(t, s))
  {
    var k := t / 4;
    if t % 4 == 0 {
      assert t == 4 * k;
      DecodeBottomCap(n, k, s);
    } else if t % 4 == 1 {
      assert t == 4 * k + 1;
      DecodeTopCap(n, k, s);
    } else if t % 4 == 2 {
      assert t == 4 * k + 2;
      DecodeSideLower(n, k, s);
    } else {
      assert t == 4 * k + 3;
      DecodeSideUpper(n, k, s);
    }
  }

  /** DecodeRing is sound for an edge between two vertices on the same level. */
  lemma DecodeRingSoundLevel(n: nat, u: nat, w: nat)
    requires n >= 3 && u < 2 * n && w < 2 * n && DecodeRing(n, u, w).Some?
    requires Bottom(u) == Bottom(w)
    ensures DecodeRing(n, u, w).value.tri < 4 * n && DecodeRing(n, u, w).value.side < 3
    ensures EdgeOf(CylTri(n, DecodeRing(n, u, w).value.tri), DecodeRing(n, u, w).value.side) == Edge(u, w)
  {
    var ju := u / 2;
    var jw := w / 2;
    Rebuild(u);
    Rebuild(w);
    if jw == NextSeg(n, ju) {
      SegmentTriangles(n, ju);
    } else {
      SegmentTriangles(n, jw);
    }
  }

  /** DecodeRing is sound for an edge from a top vertex down to a bottom vertex. */
  lemma DecodeRingSoundDown(n: nat, u: nat, w: nat)
    requires n >= 3 && u < 2 * n && w < 2 * n && DecodeRing(n, u, w).Some?
    requires !Bottom(u) && Bottom(w)
    ensures DecodeRing(n, u, w).value.tri < 4 * n && DecodeRing(n, u, w).value.side < 3
    ensures EdgeOf(CylTri(n, DecodeRing(n, u, w).value.tri), DecodeRing(n, u, w).value.side) == Edge(u, w)
  {
    Rebuild(u);
    Rebuild(w);
    SegmentTriangles(n, u / 2);
  }

  /** DecodeRing is sound for an edge from a bottom vertex up to a top vertex. */
  lemma DecodeRingSoundUp(n: nat, u: nat, w: nat)
    requires n >= 3 && u < 2 * n && w < 2 * n && DecodeRing(n, u, w).Some?
    requires Bottom(u) && !Bottom(w)
    ensures DecodeRing(n, u, w).value.tri < 4 * n && DecodeRing(n, u, w).value.side < 3
    ensures EdgeOf(CylTri(n, DecodeRing(n, u, w).value.tri), DecodeRing(n, u, w).value.side) == Edge(u, w)
  {
    var ju := u / 2;
    var jw := w / 2;
    Rebuild(u);
    Rebuild(w);
    if jw == ju {
      SegmentTriangles(n, PrevSeg(n, ju));
    } else {
      SegmentTriangles(n, jw);
    }
  }

  /** Decode is sound for an edge from a centre to a ring vertex. */
  lemma DecodeFromCentreSound(n: nat, u: int, w: nat)
    requires n >= 3 && !OnRing(n, u) && w < 2 * n && Decode(n, Edge(u, w)).Some?
    ensures Decode(n, Edge(u, w)).value.tri < 4 * n && Decode(n, Edge(u, w)).value.side < 3
    ensures EdgeOf(CylTri(n, Decode(n, Edge(u, w)).value.tri), Decode(n, Edge(u, w)).value.side) == Edge(u, w)
  {
    Rebuild(w);
    if Bottom(w) {
      SegmentTriangles(n, PrevSeg(n, w / 2));
    } else {
      SegmentTriangles(n, w / 2);
    }
  }

  /** Decode is sound for an edge from a ring vertex to a centre. */
  lemma DecodeToCentreSound(n: nat, u: int, w: int)
    requires n >= 3 && !(OnRing(n, u) && OnRing(n, w)) && !OnRing(n, w) && Decode(n, Edge(u, w)).Some?
    ensures Decode(n, Edge(u, w)).value.tri < 4 * n && Decode(n, Edge(u, w)).value.side < 3
    ensures EdgeOf(CylTri(n, Decode(n, Edge(u, w)).value.tri), Decode(n, Edge(u, w)).value.side) == Edge(u, w)
  {
    assert 0 <= u < 2 * n;
    Rebuild(u);
    if Bottom(u) {
      SegmentTriangles(n, u / 2);
    } else {
      SegmentTriangles(n, PrevSeg(n, u / 2));
    }
  }

  /** What Decode names is a real side of a cylinder triangle, and it carries e. */
  lemma DecodeSound(n: nat, e: Edge)
    requires n >= 3 && Decode(n, e).Some?
    ensures Decode(n, e).value.tri < 4 * n && Decode(n, e).value.side < 3
    ensures EdgeOf(CylTri(n, Decode(n, e).value.tri), Decode(n, e).value.side) == e
  {
    var u := e.from;
    var w := e.to;
    if OnRing(n, u) && OnRing(n, w) {
      if Bottom(u) == Bottom(w) {
        DecodeRingSoundLevel(n, u, w);
      } else if Bottom(u) {
        DecodeRingSoundUp(n, u, w);
      } else {
        DecodeRingSoundDown(n, u, w);
      }
    } else if OnRing(n, w) {
      DecodeFromCentreSound(n, u, w);
    } else {
      DecodeToCentreSound(n, u, w);
    }
  }

  /** An edge has a carrier exactly when its reverse has one. */
  lemma DecodeReverse(n: nat, e: Edge)
    requires n >= 3
    ensures Decode(n, e).Some? <==> Decode(n, Reverse(e)).Some?
  {
    var u := e.from;
    var w := e.to;
    if OnRing(n, u) && OnRing(n, w) {
      PrevOfNext(n, u / 2);
      PrevOfNext(n, w / 2);
    }
  }

  /** Decode as a function value, for the mesh-generic lemmas. */
  function Decoder(n: nat): Edge -> Option<Slot> {
    e => Decode(n, e)
  }

  /** For n >= 3, Decode is an exact decoder of the cylinder's index buffer. */
  lemma DecoderExact(n: nat, length: real, rim: nat -> RingXZ)
    requires n >= 3
    ensures ExactDecoder(Generate(n, length, rim).index, 4 * n, Decoder(n))
  {
    var idx := Generate(n, length, rim).index;
    forall t, s | 0 <= t < 4 * n && 0 <= s < 3
      ensures Decoder(n)(EdgeOf(TriangleAt(idx, t), s)) == Some(Slot(t, s))
    {
      assert TriangleAt(idx, t) == CylTri(n, t);
      DecodeSides(n, t, s);
    }
    forall e | Decoder(n)(e).Some?
      ensures Decoder(n)(e).value.tri < 4 * n && Decoder(n)(e).value.side < 3
      ensures EdgeOf(TriangleAt(idx, Decoder(n)(e).value.tri), Decoder(n)(e).value.side) == e
    {
      DecodeSound(n, e);
      assert TriangleAt(idx, Decode(n, e).value.tri) == CylTri(n, Decode(n, e).value.tri);
    }
    forall e
      ensures Decoder(n)(e).Some? <==> Decoder(n)(Reverse(e)).Some?
    {
      DecodeReverse(n, e);
    }
  }

  /** In a cylinder with n >= 3, a directed edge occurs once if Decode names it and never otherwise. */
  lemma EdgeCountByDecode(n: nat, length: real, rim: nat -> RingXZ, e: Edge)
    requires n >= 3
    ensures EdgeCount(Generate(n, length, rim).index, 4 * n, e) == (if Decode(n, e).Some? then 1 else 0)
  {
    DecoderExact(n, length, rim);
    EdgeCountByDecoder(Generate(n, length, rim).index, 4 * n, Decoder(n), e);
  }

  /**
   For n >= 3 the cylinder is closed and consistently wound: every directed
   edge occurs at most once and exactly as often as its reverse, so each side
   of each triangle is met once more, in the opposite direction, by a neighbour.
   */
  lemma CylinderClosed(n: nat, length: real, rim: nat -> RingXZ)
    requires n >= 3
    ensures var idx := Generate(n, length, rim).index;
      forall e :: EdgeCount(idx, 4 * n, e) <= 1 && EdgeCount(idx, 4 * n, e) == EdgeCount(idx, 4 * n, Reverse(e))
    ensures Closed(Generate(n, length, rim).index, 4 * n)
  {
    DecoderExact(n, length, rim);
    ClosedByDecoder(Generate(n, length, rim).index, 4 * n, Decoder(n));
  }

  /**
   With two segments the bound n >= 3 is needed: the bottom-ring edge 0→2 is
   drawn by the bottom cap of segment 1 and by a side triangle of segment 0.
   */
  lemma TwoSegmentsDoubleEdge(length: real, rim: nat -> RingXZ)
    ensures EdgeCount(Generate(2, length, rim).index, 8, Edge(0, 2)) == 2
    ensures !Closed(Generate(2, length, rim).index, 8)
  {
    var idx := Generate(2, length, rim).index;
    var e := Edge(0, 2);
    SegmentTriangles(2, 0);
    SegmentTriangles(2, 1);
    assert TriangleAt(idx, 0) == CylTri(2, 0) == Tri(4, 2, 0);
    assert TriangleAt(idx, 1) == CylTri(2, 1) == Tri(1, 3, 5);
    assert TriangleAt(idx, 2) == CylTri(2, 2) == Tri(1, 0, 2);
    assert TriangleAt(idx, 3) == CylTri(2, 3) == Tri(2, 3, 1);
    assert TriangleAt(idx, 4) == CylTri(2, 4) == Tri(4, 0, 2);
    assert TriangleAt(idx, 5) == CylTri(2, 5) == Tri(3, 1, 5);
    assert TriangleAt(idx, 6) == CylTri(2, 6) == Tri(3, 2, 0);
    assert TriangleAt(idx, 7) == CylTri(2, 7) == Tri(0, 1, 3);
    assert EdgeCount(idx, 1, e) == 0;
    assert EdgeCount(idx, 2, e) == 0;
    assert EdgeCount(idx, 3, e) == 1;
    assert EdgeCount(idx, 4, e) == 1;
    assert EdgeCount(idx, 5, e) == 2;
    assert EdgeCount(idx, 6, e) == 2;
    assert EdgeCount(idx, 7, e) == 2;
    assert EdgeOf(TriangleAt(idx, 2), 1) == e;
  }
}
