/**
 The cone generator: vertex 0 is the base centre, vertices 1..n the rim, vertex
 n+1 the apex; per rim vertex i one base triangle (next, i, 0) and one side
 triangle (i, next, n+1), where next is i's rim neighbour with the seam wrapped.
 The rim's x/z coordinates are a parameter `rim`: rim(j) is the point emitted in
 loop iteration j, whatever the trigonometry and angle accumulation produced.
 */
module Cone {
  import opened Mesh

  /** The rim neighbour of rim vertex i: (i+1) mod (n+1), with 0 replaced by 1. */
  function Next(n: nat, i: nat): (r: nat)
    requires 1 <= i <= n
    ensures 1 <= r <= n
    ensures i < n ==> r == i + 1
    ensures i == n ==> r == 1
  {
    var c := (i + 1) % (n + 1);
    if c == 0 then 1 else c
  }

  /** The x, 0, z triples pushed by the first k iterations of the rim loop. */
  function RimPush(rim: nat -> RingXZ, k: nat): (v: seq<real>)
    ensures |v| == 3 * k
    ensures forall j :: 0 <= j < k ==> VertexAt(v, j) == Point(rim(j).x, 0.0, rim(j).z)
  {
    if k == 0 then []
    else
      var v := RimPush(rim, k - 1);
      assert forall j :: 0 <= j < k - 1 ==> VertexAt(v + [rim(k - 1).x, 0.0, rim(k - 1).z], j) == VertexAt(v, j);
      v + [rim(k - 1).x, 0.0, rim(k - 1).z]
  }

  /** The position buffer: base centre, the n rim points, the apex. */
  function Positions(n: nat, length: real, rim: nat -> RingXZ): (v: seq<real>)
    ensures |v| == 3 * (n + 2)
    ensures VertexAt(v, 0) == Point(0.0, 0.0, 0.0)
    ensures forall i :: 1 <= i <= n ==> VertexAt(v, i) == Point(rim(i - 1).x, 0.0, rim(i - 1).z)
    ensures VertexAt(v, n + 1) == Point(0.0, length, 0.0)
  {
    var ring := RimPush(rim, n);
    var v := [0.0, 0.0, 0.0] + ring + [0.0, length, 0.0];
    assert forall i :: 1 <= i <= n ==> VertexAt(v, i) == VertexAt(ring, i - 1);
    v
  }

  /** The normal buffer: two zero triples, then n more. */
  function Normals(n: nat): (z: seq<real>)
    ensures |z| == 3 * (n + 2)
    ensures AllZero(z)
  {
    [0.0, 0.0, 0.0] + [0.0, 0.0, 0.0] + ZeroPush(n)
  }

  /**
   Reference numbering of the cone's triangles: triangle 2(i-1) is the base
   triangle of rim vertex i and triangle 2(i-1)+1 its side triangle.
   */
  function ConeTri(n: nat, t: nat): Tri
    requires t < 2 * n
  {
    var i := t / 2 + 1;
    if t % 2 == 0 then Tri(Next(n, i), i, 0) else Tri(i, Next(n, i), n + 1)
  }

  /** The six indices iteration i of the index loop pushes: base triangle, then side triangle. */
  function Iteration(n: nat, i: nat): (el: seq<int>)
    requires 1 <= i <= n
    ensures i < n ==> el == [i + 1, i, 0, i, i + 1, n + 1]
    ensures i == n ==> el == [1, n, 0, n, 1, n + 1]
  {
    var coord2 := Next(n, i);
    [coord2, i, 0] + [i, coord2, n + 1]
  }

  /** Appending iteration k to a buffer holding triangles 0 .. 2(k-1)-1 extends it by two. */
  lemma AppendIteration(n: nat, k: nat, prev: seq<int>)
    requires 1 <= k <= n && |prev| == 6 * (k - 1)
    requires forall j :: 0 <= j < |prev| ==> 0 <= prev[j] <= n + 1
    requires forall t :: 0 <= t < 2 * (k - 1) ==> TriangleAt(prev, t) == ConeTri(n, t)
    ensures var el := prev + Iteration(n, k);
      && (forall j :: 0 <= j < |el| ==> 0 <= el[j] <= n + 1)
      && (forall t :: 0 <= t < 2 * k ==> TriangleAt(el, t) == ConeTri(n, t))
  {
    var el := prev + Iteration(n, k);
    assert forall t :: 0 <= t < 2 * (k - 1) ==> TriangleAt(el, t) == TriangleAt(prev, t);
    assert (2 * k - 2) / 2 + 1 == k && (2 * k - 2) % 2 == 0;
    assert (2 * k - 1) / 2 + 1 == k && (2 * k - 1) % 2 == 1;
    assert TriangleAt(el, 2 * k - 2) == ConeTri(n, 2 * k - 2);
    assert TriangleAt(el, 2 * k - 1) == ConeTri(n, 2 * k - 1);
  }

  /** The indices pushed by the iterations i = 1..k of the index loop. */
  function IndexLoop(n: nat, k: nat): (el: seq<int>)
    requires k <= n
    ensures |el| == 6 * k
    ensures forall j :: 0 <= j < |el| ==> 0 <= el[j] <= n + 1
    ensures forall t :: 0 <= t < 2 * k ==> TriangleAt(el, t) == ConeTri(n, t)
  {
    if k == 0 then []
    else
      var prev := IndexLoop(n, k - 1);
      AppendIteration(n, k, prev);
      prev + Iteration(n, k)
  }

  /** generateConeData with the rim coordinates supplied by `rim`. */
  function Generate(n: nat, length: real, rim: nat -> RingXZ): (m: MeshData)
    ensures |m.position| == 3 * (n + 2)
    ensures |m.normal| == |m.position| && AllZero(m.normal)
    ensures |m.index| == 3 * (2 * n)
    ensures IndicesBelow(m.index, |m.position| / 3)
  {
    MeshData(IndexLoop(n, n), Normals(n), Positions(n, length, rim))
  }

  /** The position pushes of generateConeData: centre, rim loop, apex. */
  method PushPositions(n: nat, length: real, rim: nat -> RingXZ) returns (v: seq<real>)
    ensures v == Positions(n, length, rim)
  {
    v := [0.0, 0.0, 0.0];
    var i := 0;
    while i < n
      invariant 0 <= i <= n
      invariant v == [0.0, 0.0, 0.0] + RimPush(rim, i)
    {
      v := v + [rim(i).x, 0.0, rim(i).z];
      i := i + 1;
    }
    v := v + [0.0, length, 0.0];
  }

  /** The normal pushes of generateConeData. */
  method PushNormals(n: nat) returns (norm: seq<real>)
    ensures norm == Normals(n)
  {
    norm := [];
    norm := norm + [0.0, 0.0, 0.0];
    norm := norm + [0.0, 0.0, 0.0];
    var i := 0;
    while i < n
      invariant 0 <= i <= n
      invariant norm == [0.0, 0.0, 0.0] + [0.0, 0.0, 0.0] + ZeroPush(i)
    {
      norm := norm + [0.0, 0.0, 0.0];
      i := i + 1;
    }
  }

  /** The index loop of generateConeData, i = 1..n, with the seam fix written inline. */
  method PushIndices(n: nat) returns (el: seq<int>)
    ensures el == IndexLoop(n, n)
  {
    el := [];
    var i := 1;
    while i < n + 1
      invariant 1 <= i <= n + 1
      invariant el == IndexLoop(n, i - 1)
    {
      var coord2 := (i + 1) % (n + 1);
      if coord2 == 0 {
        coord2 := 1;
      }
      assert coord2 == Next(n, i);
      assert IndexLoop(n, i) == el + Iteration(n, i);
      el := el + [coord2, i, 0];
      el := el + [i, coord2, n + 1];
      i := i + 1;
    }
  }

  /** generateConeData as the source writes it: it builds exactly the buffers of Generate. */
  method GenerateLoops(n: nat, length: real, rim: nat -> RingXZ) returns (m: MeshData)
    ensures m == Generate(n, length, rim)
  {
    var v := PushPositions(n, length, rim);
    var norm := PushNormals(n);
    var el := PushIndices(n);
    m := MeshData(el, norm, v);
  }

  /**
   The two triangles of rim vertex i: the base triangle (next, i, 0) holds the
   base centre, the side triangle (i, next, n+1) holds the apex, and they run
   along the rim edge between i and next in opposite directions.
   */
  lemma TrianglesOfRimVertex(n: nat, length: real, rim: nat -> RingXZ, i: nat)
    requires 1 <= i <= n
    ensures var m := Generate(n, length, rim);
      && TriangleAt(m.index, 2 * (i - 1)) == Tri(Next(n, i), i, 0)
      && TriangleAt(m.index, 2 * (i - 1) + 1) == Tri(i, Next(n, i), n + 1)
      && EdgeOf(TriangleAt(m.index, 2 * (i - 1) + 1), 0) == Edge(i, Next(n, i))
      && EdgeOf(TriangleAt(m.index, 2 * (i - 1)), 0) == Reverse(Edge(i, Next(n, i)))
  {
    var m := Generate(n, length, rim);
    assert TriangleAt(m.index, 2 * (i - 1)) == ConeTri(n, 2 * (i - 1));
    assert TriangleAt(m.index, 2 * (i - 1) + 1) == ConeTri(n, 2 * (i - 1) + 1);
  }

  /** With at least two rim vertices no cone triangle names a vertex twice. */
  lemma CornersDistinct(n: nat, length: real, rim: nat -> RingXZ)
    requires n >= 2
    ensures var m := Generate(n, length, rim);
      forall t :: 0 <= t < 2 * n ==> DistinctCorners(TriangleAt(m.index, t))
  {
    var m := Generate(n, length, rim);
    forall t | 0 <= t < 2 * n
      ensures DistinctCorners(TriangleAt(m.index, t))
    {
      assert TriangleAt(m.index, t) == ConeTri(n, t);
    }
  }
}
