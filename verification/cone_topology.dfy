/**
 The cone's surface is closed and consistently wound when it has at least
 three rim vertices: every directed edge of the mesh occurs once, and so does
 its reverse. The proof names, for each directed edge, the one triangle side
 that carries it (Decode) and counts with that.
 */
module ConeTopology {
  import opened Mesh
  import opened Cone

  predicate OnRim(n: nat, v: int) {
    1 <= v <= n
  }

  /** The rim vertex whose neighbour is v: the inverse of Next. */
  function Prev(n: nat, v: nat): (r: nat)
    requires 1 <= v <= n
    ensures 1 <= r <= n && Next(n, r) == v
  {
    if v == 1 then n else v - 1
  }

  /**
   The triangle side that carries the directed edge e, read off its end points:
   rim→centre and centre→rim sides are base triangles, rim→apex and apex→rim
   sides are side triangles, and a rim edge belongs to the side triangle when
   it runs forward and to the base triangle when it runs backward.
   */
  function Decode(n: nat, e: Edge): Option<Slot> {
    var u := e.from;
    var w := e.to;
    if OnRim(n, u) && w == 0 then Some(Slot(2 * (u - 1), 1))
    else if u == 0 && OnRim(n, w) then Some(Slot(2 * (Prev(n, w) - 1), 2))
    else if OnRim(n, u) && w == n + 1 then Some(Slot(2 * (Prev(n, u) - 1) + 1, 1))
    else if u == n + 1 && OnRim(n, w) then Some(Slot(2 * (w - 1) + 1, 2))
    else if OnRim(n, u) && OnRim(n, w) && w == Next(n, u) then Some(Slot(2 * (u - 1) + 1, 0))
    else if OnRim(n, u) && OnRim(n, w) && u == Next(n, w) then Some(Slot(2 * (w - 1), 0))
    else None
  }

  /** Every side of every cone triangle decodes to itself. */
  lemma DecodeSides(n: nat, t: nat, s: nat)
    requires n >= 3 && t < 2 * n && s < 3
    ensures Decode(n, EdgeOf(ConeTri(n, t), s)) == Some(Slot(t, s))
  {
    var i := t / 2 + 1;
    assert Prev(n, Next(n, i)) == i;
    if t % 2 == 0 {
      assert t == 2 * (i - 1);
    } else {
      assert t == 2 * (i - 1) + 1;
      // a forward rim edge is never also a backward one once n >= 3
      assert Next(n, Next(n, i)) != i;
    }
  }

  /** What Decode names is a real side of a cone triangle, and it carries e. */
  lemma DecodeSound(n: nat, e: Edge)
    requires n >= 3 && Decode(n, e).Some?
    ensures Decode(n, e).value.tri < 2 * n && Decode(n, e).value.side < 3
    ensures EdgeOf(ConeTri(n, Decode(n, e).value.tri), Decode(n, e).value.side) == e
  {
    var sl := Decode(n, e);
    var t := sl.value.tri;
    assert t / 2 + 1 >= 1;
  }

  /** An edge has a carrier exactly when its reverse has one. */
  lemma DecodeReverse(n: nat, e: Edge)
    requires n >= 3
    ensures Decode(n, e).Some? <==> Decode(n, Reverse(e)).Some?
  {
  }

  /** Decode as a function value, for the mesh-generic lemmas. */
  function Decoder(n: nat): Edge -> Option<Slot> {
    e => Decode(n, e)
  }

  /** For n >= 3, Decode is an exact decoder of the cone's index buffer. */
  lemma DecoderExact(n: nat, length: real, rim: nat -> RingXZ)
    requires n >= 3
    ensures ExactDecoder(Generate(n, length, rim).index, 2 * n, Decoder(n))
  {
    var idx := Generate(n, length, rim).index;
    forall t, s | 0 <= t < 2 * n && 0 <= s < 3
      ensures Decoder(n)(EdgeOf(TriangleAt(idx, t), s)) == Some(Slot(t, s))
    {
      assert TriangleAt(idx, t) == ConeTri(n, t);
      DecodeSides(n, t, s);
    }
    forall e | Decoder(n)(e).Some?
      ensures Decoder(n)(e).value.tri < 2 * n && Decoder(n)(e).value.side < 3
      ensures EdgeOf(TriangleAt(idx, Decoder(n)(e).value.tri), Decoder(n)(e).value.side) == e
    {
      DecodeSound(n, e);
      assert TriangleAt(idx, Decode(n, e).value.tri) == ConeTri(n, Decode(n, e).value.tri);
    }
    forall e
      ensures Decoder(n)(e).Some? <==> Decoder(n)(Reverse(e)).Some?
    {
      DecodeReverse(n, e);
    }
  }

  /** In a cone with n >= 3, a directed edge occurs once if Decode names it and never otherwise. */
  lemma EdgeCountByDecode(n: nat, length: real, rim: nat -> RingXZ, e: Edge)
    requires n >= 3
    ensures EdgeCount(Generate(n, length, rim).index, 2 * n, e) == (if Decode(n, e).Some? then 1 else 0)
  {
    DecoderExact(n, length, rim);
    EdgeCountByDecoder(Generate(n, length, rim).index, 2 * n, Decoder(n), e);
  }

  /**
   For n >= 3 the cone is closed and consistently wound: every directed edge
   occurs at most once and exactly as often as its reverse, so each side of
   each triangle is met once more, in the opposite direction, by a neighbour.
   */
  lemma ConeClosed(n: nat, length: real, rim: nat -> RingXZ)
    requires n >= 3
    ensures var idx := Generate(n, length, rim).index;
      forall e :: EdgeCount(idx, 2 * n, e) <= 1 && EdgeCount(idx, 2 * n, e) == EdgeCount(idx, 2 * n, Reverse(e))
    ensures Closed(Generate(n, length, rim).index, 2 * n)
  {
    DecoderExact(n, length, rim);
    ClosedByDecoder(Generate(n, length, rim).index, 2 * n, Decoder(n));
  }

  /**
   With two rim vertices the bound n >= 3 is needed: the rim edge 1→2 is drawn
   by the base triangle of vertex 2 and by the side triangle of vertex 1, so
   the cone is not closed in the sense above.
   */
  lemma TwoRimVerticesDoubleEdge(length: real, rim: nat -> RingXZ)
    ensures EdgeCount(Generate(2, length, rim).index, 4, Edge(1, 2)) == 2
    ensures !Closed(Generate(2, length, rim).index, 4)
  {
    var idx := Generate(2, length, rim).index;
    assert TriangleAt(idx, 0) == ConeTri(2, 0) == Tri(2, 1, 0);
    assert TriangleAt(idx, 1) == ConeTri(2, 1) == Tri(1, 2, 3);
    assert TriangleAt(idx, 2) == ConeTri(2, 2) == Tri(1, 2, 0);
    assert TriangleAt(idx, 3) == ConeTri(2, 3) == Tri(2, 1, 3);
    var e := Edge(1, 2);
    assert TriEdgeCount(TriangleAt(idx, 0), e) == 0;
    assert TriEdgeCount(TriangleAt(idx, 1), e) == 1;
    assert TriEdgeCount(TriangleAt(idx, 2), e) == 1;
    assert TriEdgeCount(TriangleAt(idx, 3), e) == 0;
    assert EdgeCount(idx, 1, e) == 0;
    assert EdgeCount(idx, 2, e) == 1;
    assert EdgeCount(idx, 3, e) == 2;
    assert EdgeOf(TriangleAt(idx, 1), 0) == e;
  }
}
