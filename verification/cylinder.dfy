/**
 The cylinder generator: ring segment k gives bottom vertex 2k and top vertex
 2k+1 over the same x/z, vertex 2n is the bottom centre and 2n+1 the top
 centre. Per segment k the index loop emits a bottom-cap, a top-cap and two
 side triangles joining segment k to segment (k+1) mod n. As for the cone,
 rim(k) stands for the x/z the ring loop computes in iteration k.
 */
module Cylinder {
  import opened Mesh

  /** coord2 of the index loop: i+1, with a zero fix that never fires. */
  function Coord2(i: nat): (c: int)
    ensures c == i + 1
  {
    var c := i + 1;
    if c == 0 then 1 else c
  }

  /** The segment after k on a ring of n segments. */
  function NextSeg(n: nat, k: nat): (r: nat)
    requires k < n
    ensures r < n
  {
    if k + 1 == n then 0 else k + 1
  }

  /** NextSeg is (k+1) mod n. */
  lemma NextSegIsModulo(n: nat, k: nat)
    requires k < n
    ensures NextSeg(n, k) == (k + 1) % n
  {
    if k + 1 < n {
      ModSmall(k + 1, n);
    } else {
      assert n % n == 0;
    }
  }

  lemma ModSmall(x: int, m: int)
    requires 0 <= x < m
    ensures x % m == x
  {
  }

  lemma ModSelf(m: int)
    requires m > 1
    ensures m % m == 0 && (m + 1) % m == 1
  {
  }

  /**
   The wrapped ring indices of the index loop: at i = 2k, (i+2) mod 2n and
   (i+3) mod 2n are the bottom and top vertices of segment (k+1) mod n.
   */
  lemma WrapIsNextSegment(n: nat, k: nat)
    requires k < n
    ensures (2 * k + 2) % (2 * n) == 2 * NextSeg(n, k)
    ensures (2 * k + 3) % (2 * n) == 2 * NextSeg(n, k) + 1
  {
    if k + 1 < n {
      ModSmall(2 * k + 2, 2 * n);
      ModSmall(2 * k + 3, 2 * n);
    } else {
      ModSelf(2 * n);
    }
  }

  lemma Parity(j: int)
    ensures (2 * j) % 2 == 0 && (2 * j + 1) % 2 == 1
  {
  }

  /** The point ring vertex w stands at: bottom (y = 0) when w is even, top when odd. */
  function RingVertex(rim: nat -> RingXZ, length: real, w: nat): Point {
    Point(rim(w / 2).x, if w % 2 == 0 then 0.0 else length, rim(w / 2).z)
  }

  /** The bottom and top triples pushed by the first k iterations of the ring loop. */
  function RingPush(rim: nat -> RingXZ, length: real, k: nat): (v: seq<real>)
    ensures |v| == 6 * k
    ensures forall w :: 0 <= w < 2 * k ==> VertexAt(v, w) == RingVertex(rim, length, w)
  {
    if k == 0 then []
    else
      var prev := RingPush(rim, length, k - 1);
      var x := rim(k - 1).x;
      var z := rim(k - 1).z;
      var v := prev + [x, 0.0, z] + [x, length, z];
      assert forall w :: 0 <= w < 2 * (k - 1) ==> VertexAt(v, w) == VertexAt(prev, w);
      assert VertexAt(v, 2 * k - 2) == RingVertex(rim, length, 2 * k - 2);
      assert VertexAt(v, 2 * k - 1) == RingVertex(rim, length, 2 * k - 1);
      v
  }

  /** The position buffer: the interleaved ring, then the bottom and top centres. */
  function Positions(n: nat, length: real, rim: nat -> RingXZ): (v: seq<real>)
    ensures |v| == 3 * (2 * n + 2)
    ensures forall w :: 0 <= w < 2 * n ==> VertexAt(v, w) == RingVertex(rim, length, w)
    ensures VertexAt(v, 2 * n) == Point(0.0, 0.0, 0.0)
    ensures VertexAt(v, 2 * n + 1) == Point(0.0, length, 0.0)
  {
    var ring := RingPush(rim, length, n);
    var v := ring + [0.0, 0.0, 0.0] + [0.0, length, 0.0];
    assert forall w :: 0 <= w < 2 * n ==> VertexAt(v, w) == VertexAt(ring, w);
    v
  }

  /** The normal buffer: two zero triples, then 2n more. */
  function Normals(n: nat): (z: seq<real>)
    ensures |z| == 3 * (2 * n + 2)
    ensures AllZero(z)
  {
    [0.0, 0.0, 0.0] + [0.0, 0.0, 0.0] + ZeroPush(2 * n)
  }

  /**
   Reference numbering of the cylinder's triangles: for segment k, with k' the
   next segment (k+1) mod n, triangle 4k is the bottom cap (2n, 2k', 2k),
   4k+1 the top cap (2k+1, 2k'+1, 2n+1), and 4k+2, 4k+3 the two halves
   (2k+1, 2k, 2k') and (2k', 2k'+1, 2k+1) of the side quad.
   */
  function CylTri(n: nat, t: nat): Tri
    requires t < 4 * n
  {
    var k := t / 4;
    var b := 2 * k;
    var b' := 2 * NextSeg(n, k);
    var p := t % 4;
    if p == 0 then Tri(2 * n, b', b)
    else if p == 1 then Tri(b + 1, b' + 1, 2 * n + 1)
    else if p == 2 then Tri(b + 1, b, b')
    else Tri(b', b' + 1, b + 1)
  }

  /** The four triangles CylTri numbers 4k .. 4k+3, spelled out. */
  lemma SegmentTriangles(n: nat, k: nat)
    requires k < n
    ensures CylTri(n, 4 * k) == Tri(2 * n, 2 * NextSeg(n, k), 2 * k)
    ensures CylTri(n, 4 * k + 1) == Tri(2 * k + 1, 2 * NextSeg(n, k) + 1, 2 * n + 1)
    ensures CylTri(n, 4 * k + 2) == Tri(2 * k + 1, 2 * k, 2 * NextSeg(n, k))
    ensures CylTri(n, 4 * k + 3) == Tri(2 * NextSeg(n, k), 2 * NextSeg(n, k) + 1, 2 * k + 1)
  {
    assert (4 * k) / 4 == k && (4 * k) % 4 == 0;
    assert (4 * k + 1) / 4 == k && (4 * k + 1) % 4 == 1;
    assert (4 * k + 2) / 4 == k && (4 * k + 2) % 4 == 2;
    assert (4 * k + 3) / 4 == k && (4 * k + 3) % 4 == 3;
  }

  /**
   The twelve indices one iteration of the index loop pushes at i = 2k: with
   the wrap worked out, they are the corners of CylTri's triangles 4k .. 4k+3.
   */
  function Iteration(n: nat, k: nat): (el: seq<int>)
    requires k < n
    ensures |el| == 12
    ensures var b' := 2 * NextSeg(n, k);
      el == [2 * n, b', 2 * k] + [2 * k + 1, b' + 1, 2 * n + 1]
        + [2 * k + 1, 2 * k, b'] + [b', b' + 1, 2 * k + 1]
  {
    var i := 2 * k;
    var coord2 := Coord2(i);
    WrapIsNextSegment(n, k);
    [2 * n, (coord2 + 1) % (2 * n), i]
    + [i + 1, (coord2 + 2) % (2 * n), 2 * n + 1]
    + [coord2, i, (coord2 + 1) % (2 * n)]
    + [(coord2 + 1) % (2 * n), (coord2 + 2) % (2 * n), i + 1]
  }

  /** The indices of one iteration lie in [0, 2n+1]. */
  lemma IterationInRange(n: nat, k: nat, prev: seq<int>)
    requires 1 <= k <= n
    requires forall j :: 0 <= j < |prev| ==> 0 <= prev[j] <= 2 * n + 1
    ensures var el := prev + Iteration(n, k - 1);
      forall j :: 0 <= j < |el| ==> 0 <= el[j] <= 2 * n + 1
  {
  }

  /** Appending leaves the triangles already in the buffer as they were. */
  lemma AppendKeeps(n: nat, k: nat, prev: seq<int>)
    requires 1 <= k <= n && |prev| == 12 * (k - 1)
    requires forall t :: 0 <= t < 4 * (k - 1) ==> TriangleAt(prev, t) == CylTri(n, t)
    ensures var el := prev + Iteration(n, k - 1);
      forall t :: 0 <= t < 4 * (k - 1) ==> TriangleAt(el, t) == CylTri(n, t)
  {
    var el := prev + Iteration(n, k - 1);
    assert forall t :: 0 <= t < 4 * (k - 1) ==> TriangleAt(el, t) == TriangleAt(prev, t);
  }

  /** The appended iteration holds the four triangles of segment k-1. */
  lemma AppendSegment(n: nat, k: nat, prev: seq<int>)
    requires 1 <= k <= n && |prev| == 12 * (k - 1)
    ensures var el := prev + Iteration(n, k - 1);
      && TriangleAt(el, 4 * k - 4) == CylTri(n, 4 * k - 4)
      && TriangleAt(el, 4 * k - 3) == CylTri(n, 4 * k - 3)
      && TriangleAt(el, 4 * k - 2) == CylTri(n, 4 * k - 2)
      && TriangleAt(el, 4 * k - 1) == CylTri(n, 4 * k - 1)
  {
    SegmentTriangles(n, k - 1);
  }

  /** Appending iteration k-1 to a buffer that holds triangles 0 .. 4(k-1)-1 extends it by four. */
  lemma AppendIteration(n: nat, k: nat, prev: seq<int>)
    requires 1 <= k <= n && |prev| == 12 * (k - 1)
    requires forall j :: 0 <= j < |prev| ==> 0 <= prev[j] <= 2 * n + 1
    requires forall t :: 0 <= t < 4 * (k - 1) ==> TriangleAt(prev, t) == CylTri(n, t)
    ensures var el := prev + Iteration(n, k - 1);
      && (forall j :: 0 <= j < |el| ==> 0 <= el[j] <= 2 * n + 1)
      && (forall t :: 0 <= t < 4 * k ==> TriangleAt(el, t) == CylTri(n, t))
  {
    var el := prev + Iteration(n, k - 1);
    IterationInRange(n, k, prev);
    AppendKeeps(n, k, prev);
    AppendSegment(n, k, prev);
    forall t | 0 <= t < 4 * k
      ensures TriangleAt(el, t) == CylTri(n, t)
    {
      if t >= 4 * (k - 1) {
        assert t == 4 * k - 4 || t == 4 * k - 3 || t == 4 * k - 2 || t == 4 * k - 1;
      }
    }
  }

  /** The indices pushed by the first k iterations (i = 0, 2, ..., 2k-2) of the index loop. */
  function IndexLoop(n: nat, k: nat): (el: seq<int>)
    requires k <= n
    ensures |el| == 12 * k
    ensures forall j :: 0 <= j < |el| ==> 0 <= el[j] <= 2 * n + 1
    ensures forall t :: 0 <= t < 4 * k ==> TriangleAt(el, t) == CylTri(n, t)
  {
    if k == 0 then []
    else
      var prev := IndexLoop(n, k - 1);
      AppendIteration(n, k, prev);
      prev + Iteration(n, k - 1)
  }

  /** generateCylinderData with the ring coordinates supplied by `rim`. */
  function Generate(n: nat, length: real, rim: nat -> RingXZ): (m: MeshData)
    ensures |m.position| == 3 * (2 * n + 2)
    ensures |m.normal| == |m.position| && AllZero(m.normal)
    ensures |m.index| == 3 * (4 * n)
    ensures IndicesBelow(m.index, |m.position| / 3)
  {
    MeshData(IndexLoop(n, n), Normals(n), Positions(n, length, rim))
  }

  /** The four pushes of iteration i = 2k, as the loop writes them, extend IndexLoop by one iteration. */
  lemma PushesOfIteration(n: nat, k: nat, coord2: int, before: seq<int>)
    requires k < n && coord2 == 2 * k + 1
    requires before == IndexLoop(n, k)
    ensures before + [2 * n, (coord2 + 1) % (2 * n), 2 * k]
      + [2 * k + 1, (coord2 + 2) % (2 * n), 2 * n + 1]
      + [coord2, 2 * k, (coord2 + 1) % (2 * n)]
      + [(coord2 + 1) % (2 * n), (coord2 + 2) % (2 * n), 2 * k + 1]
      == IndexLoop(n, k + 1)
  {
    assert IndexLoop(n, k + 1) == before + Iteration(n, k);
  }

  /** The ring loop of generateCylinderData, followed by the two centre pushes. */
  method PushPositions(n: nat, length: real, rim: nat -> RingXZ) returns (v: seq<real>)
    ensures v == Positions(n, length, rim)
  {
    v := [];
    var i := 0;
    while i < n
      invariant 0 <= i <= n
      invariant v == RingPush(rim, length, i)
    {
      var x := rim(i).x;
      var z := rim(i).z;
      v := v + [x, 0.0, z];
      v := v + [x, length, z];
      i := i + 1;
    }
    v := v + [0.0, 0.0, 0.0];
    v := v + [0.0, length, 0.0];
  }

  /** The normal pushes of generateCylinderData. */
  method PushNormals(n: nat) returns (norm: seq<real>)
    ensures norm == Normals(n)
  {
    norm := [];
    norm := norm + [0.0, 0.0, 0.0];
    norm := norm + [0.0, 0.0, 0.0];
    var i := 0;
    while i < 2 * n
      invariant 0 <= i <= 2 * n
      invariant norm == [0.0, 0.0, 0.0] + [0.0, 0.0, 0.0] + ZeroPush(i)
    {
      norm := norm + [0.0, 0.0, 0.0];
      i := i + 1;
    }
  }

  /** The index loop of generateCylinderData, stepping i by 2 up to 2n. */
  method PushIndices(n: nat) returns (el: seq<int>)
    ensures el == IndexLoop(n, n)
  {
    el := [];
    var i := 0;
    ghost var k := 0;
    while i < 2 * n
      invariant 0 <= k <= n && i == 2 * k
      invariant el == IndexLoop(n, k)
    {
      var coord2 := i + 1;
      if coord2 == 0 {
        coord2 := 1;
      }
      PushesOfIteration(n, k, coord2, el);
      el := el + [2 * n, (coord2 + 1) % (2 * n), i];
      el := el + [i + 1, (coord2 + 2) % (2 * n), 2 * n + 1];
      el := el + [coord2, i, (coord2 + 1) % (2 * n)];
      el := el + [(coord2 + 1) % (2 * n), (coord2 + 2) % (2 * n), i + 1];
      i := i + 2;
      k := k + 1;
    }
  }

  /** generateCylinderData as the source writes it: it builds exactly the buffers of Generate. */
  method GenerateLoops(n: nat, length: real, rim: nat -> RingXZ) returns (m: MeshData)
    ensures m == Generate(n, length, rim)
  {
    var v := PushPositions(n, length, rim);
    var norm := PushNormals(n);
    var el := PushIndices(n);
    m := MeshData(el, norm, v);
  }

  /** Ring vertices 2k and 2k+1 share x and z; the bottom one has y = 0, the top one y = length. */
  lemma RingPairs(n: nat, length: real, rim: nat -> RingXZ, k: nat)
    requires k < n
    ensures var p := Generate(n, length, rim).position;
      && VertexAt(p, 2 * k) == Point(rim(k).x, 0.0, rim(k).z)
      && VertexAt(p, 2 * k + 1) == Point(rim(k).x, length, rim(k).z)
  {
    var p := Generate(n, length, rim).position;
    assert (2 * k) / 2 == k && (2 * k) % 2 == 0;
    assert (2 * k + 1) / 2 == k && (2 * k + 1) % 2 == 1;
    assert VertexAt(p, 2 * k) == RingVertex(rim, length, 2 * k);
    assert VertexAt(p, 2 * k + 1) == RingVertex(rim, length, 2 * k + 1);
  }

  /**
   The caps of segment k: the bottom-cap triangle holds the bottom centre 2n
   and two even (bottom-ring) vertices, the top-cap triangle holds the top
   centre 2n+1 and two odd (top-ring) vertices.
   */
  lemma CapTriangles(n: nat, length: real, rim: nat -> RingXZ, k: nat)
    requires k < n
    ensures var idx := Generate(n, length, rim).index;
      var bottom := TriangleAt(idx, 4 * k);
      var top := TriangleAt(idx, 4 * k + 1);
      && bottom.a == 2 * n && bottom.b % 2 == 0 && bottom.c % 2 == 0
      && 0 <= bottom.b < 2 * n && 0 <= bottom.c < 2 * n
      && top.c == 2 * n + 1 && top.a % 2 == 1 && top.b % 2 == 1
      && 0 <= top.a < 2 * n && 0 <= top.b < 2 * n
  {
    var idx := Generate(n, length, rim).index;
    SegmentTriangles(n, k);
    assert TriangleAt(idx, 4 * k) == CylTri(n, 4 * k);
    assert TriangleAt(idx, 4 * k + 1) == CylTri(n, 4 * k + 1);
    Parity(k);
    Parity(NextSeg(n, k));
  }

  /** Whether ring vertex v belongs to ring segment k. */
  predicate InSegment(v: int, k: nat) {
    v == 2 * k || v == 2 * k + 1
  }

  /** Every corner of tri is a ring vertex of segment k or of segment k'. */
  predicate FromSegments(tri: Tri, k: nat, k': nat) {
    && (InSegment(tri.a, k) || InSegment(tri.a, k'))
    && (InSegment(tri.b, k) || InSegment(tri.b, k'))
    && (InSegment(tri.c, k) || InSegment(tri.c, k'))
  }

  /**
   The side triangles of segment k use ring vertices only (all below 2n), each
   from segment k or from the next segment; after the last segment comes
   segment 0, so the last quad closes on vertices 0 and 1.
   */
  lemma SideTriangles(n: nat, length: real, rim: nat -> RingXZ, k: nat)
    requires k < n
    ensures var idx := Generate(n, length, rim).index;
      && FromSegments(TriangleAt(idx, 4 * k + 2), k, NextSeg(n, k))
      && FromSegments(TriangleAt(idx, 4 * k + 3), k, NextSeg(n, k))
    ensures NextSeg(n, k) < n
    ensures k == n - 1 ==> NextSeg(n, k) == 0
  {
    var idx := Generate(n, length, rim).index;
    SegmentTriangles(n, k);
    assert TriangleAt(idx, 4 * k + 2) == CylTri(n, 4 * k + 2);
    assert TriangleAt(idx, 4 * k + 3) == CylTri(n, 4 * k + 3);
  }

  /** With at least two segments no cylinder triangle names a vertex twice. */
  lemma CornersDistinct(n: nat, length: real, rim: nat -> RingXZ)
    requires n >= 2
    ensures var m := Generate(n, length, rim);
      forall t :: 0 <= t < 4 * n ==> DistinctCorners(TriangleAt(m.index, t))
  {
    var m := Generate(n, length, rim);
    forall t | 0 <= t < 4 * n
      ensures DistinctCorners(TriangleAt(m.index, t))
    {
      var k := t / 4;
      assert t == 4 * k || t == 4 * k + 1 || t == 4 * k + 2 || t == 4 * k + 3;
      SegmentTriangles(n, k);
      assert TriangleAt(m.index, t) == CylTri(n, t);
    }
  }
}
