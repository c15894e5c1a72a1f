# Procedural cone and cylinder meshes, modelled in Dafny

This project models the two mesh generators of a small WebGL shape viewer:
`generateConeData` and `generateCylinderData`. Each takes a radius, a segment
count `n` and a length. Each returns three flat buffers:

- `position`: three numbers per vertex;
- `normal`: three numbers per vertex, all zero in this code;
- `index`: three vertex indices per triangle.

The model keeps those flat buffers (`Mesh.MeshData`) and reads them through two
views: `Mesh.VertexAt` (vertex j) and `Mesh.TriangleAt` (triangle t). The
ring's x/z coordinates are a parameter `rim: nat -> RingXZ`, where `rim(k)` is
the point the ring loop emits in iteration k. Sine, cosine and the angle that
accumulates in floating point never enter the proofs.

Files:

- `mesh.dfy` (module `Mesh`): the buffers, vertex and triangle views, directed
  edges, and the edge count `EdgeCount`. It also defines `Closed`: every side
  of every triangle occurs exactly once in its own direction and exactly once
  reversed.
- `cone.dfy` (module `Cone`): the cone's layout is the base centre 0, rim
  vertices 1..n and apex n+1. It has the index loop with the seam fix, the
  functional definition `Generate`, and `GenerateLoops`, which mirrors the
  source's push loops.
- `cone_topology.dfy` (module `ConeTopology`): closedness of the cone for
  n ≥ 3, and a counterexample for n = 2.
- `cylinder.dfy` (module `Cylinder`): the interleaved ring puts the bottom
  vertex of segment k at 2k and the top vertex at 2k+1. The centres are 2n and
  2n+1. The file also covers the index loop with its `% (2n)` wrap, `Generate`
  and `GenerateLoops`.
- `cylinder_topology.dfy` (module `CylinderTopology`): closedness of the
  cylinder for n ≥ 3, and a counterexample for n = 2.

Both closedness proofs share one argument in `Mesh`. A decoder maps each
directed edge to the one triangle side that carries it, if there is one.
`Mesh.ExactDecoder` states the three conditions on it: every side decodes to
itself, every decoded side really carries its edge, and an edge is decoded
exactly when its reverse is. From these, `Mesh.EdgeCountByDecoder` gives an
exact edge count, and `Mesh.ClosedByDecoder` gives closedness. Each shape
supplies its own `Decode` and proves it exact (`DecoderExact`).

The bound n ≥ 3 is tight for closedness. With n = 2, the cone draws rim edge
1→2 twice and the cylinder draws bottom edge 0→2 twice. The lemmas
`TwoRimVerticesDoubleEdge` and `TwoSegmentsDoubleEdge` prove this. With n = 1,
triangles repeat a vertex. For n ≥ 2 no triangle repeats a vertex
(`CornersDistinct`).

A renderer would want two things this code does not do: rejecting `n < 3`
and computing normals. The source does neither. It accepts any segment count
and fills the normal buffer with zeros. The model follows the source. Its
generators take `n: nat` with no precondition. For n = 0 they return two
vertices, two zero normals and an empty index buffer, just as the loops do.

## Model

| member | source | states |
|---|---|---|
| Cone.Next | lib/geom/shapes/cone.js:36-38 | for rim vertex i in 1..n, coord2 is i+1 when i < n and wraps to 1 when i = n; it always lies in [1, n] |
| Cone.Iteration | lib/geom/shapes/cone.js:36-40 | iteration i pushes (i+1, i, 0, i, i+1, n+1) when i < n; the last iteration, i = n, wraps the seam and pushes (1, n, 0, n, 1, n+1) |
| Cone.RimPush | lib/geom/shapes/cone.js:18-24 | after k iterations of the rim loop the buffer holds 3k numbers, and vertex j is (x_j, 0, z_j) of ring point j |
| Cone.Positions | lib/geom/shapes/cone.js:12-25 | the position buffer has 3(n+2) entries; vertex 0 is (0,0,0), vertex i in 1..n is rim point i-1 with y = 0, vertex n+1 is (0, length, 0) |
| Cone.Normals | lib/geom/shapes/cone.js:27-32 | the normal buffer has 3(n+2) entries and every entry is 0 |
| Mesh.ZeroPush | lib/geom/shapes/cone.js:30-32 | k iterations of the zero-normal loop push 3k numbers, all zero (the same loop as lib/geom/shapes/cylinder.js:31-33) |
| Cone.IndexLoop | lib/geom/shapes/cone.js:34-41 | after iterations 1..k the index buffer has 6k entries, all in [0, n+1], and triangle t is the reference triangle ConeTri(n, t): base triangle (next, i, 0) then side triangle (i, next, n+1) for rim vertex i = t/2+1 |
| Cone.Generate | lib/geom/shapes/cone.js:10-47 | the cone has 3(n+2) position entries, as many zero normal entries, 3·2n index entries, and every index is below the vertex count n+2 |
| Cone.PushPositions | lib/geom/shapes/cone.js:12-25 | the centre push, the rim push loop and the apex push build exactly Positions |
| Cone.PushNormals | lib/geom/shapes/cone.js:27-32 | the two zero pushes and the n-iteration zero loop build exactly Normals |
| Cone.PushIndices | lib/geom/shapes/cone.js:34-41 | the loop i = 1..n with the inline `coord2 == 0` fix builds exactly IndexLoop(n, n) |
| Cone.GenerateLoops | lib/geom/shapes/cone.js:10-47 | the imperative generator returns the same three buffers as Generate |
| Cone.TrianglesOfRimVertex | lib/geom/shapes/cone.js:39-40 | the base triangle of rim vertex i is (next, i, 0) and holds the centre; its side triangle is (i, next, n+1) and holds the apex; they traverse the rim edge i–next in opposite directions |
| Cone.CornersDistinct | lib/geom/shapes/cone.js:35-41 | for n ≥ 2 no cone triangle names the same vertex twice |
| ConeTopology.DecoderExact | lib/geom/shapes/cone.js:35-41 | for n ≥ 3 the cone decoder is exact on the generated index buffer: each side of the 2n triangles decodes to itself, each decoded side carries its edge, and an edge is decoded exactly when its reverse is |
| ConeTopology.EdgeCountByDecode | lib/geom/shapes/cone.js:35-41 | for n ≥ 3 a directed edge occurs in the cone mesh once if it is a side of some triangle and never otherwise |
| ConeTopology.ConeClosed | lib/geom/shapes/cone.js:35-41 | for n ≥ 3 every directed edge occurs at most once and exactly as often as its reverse, and every triangle side is met once in each direction: the cone is closed and consistently wound |
| ConeTopology.TwoRimVerticesDoubleEdge | lib/geom/shapes/cone.js:35-41 | with n = 2 the edge 1→2 occurs twice, so the cone is not closed in that sense and n ≥ 3 is needed |
| Cylinder.Coord2 | lib/geom/shapes/cylinder.js:37-39 | coord2 is always i+1: the `coord2 == 0` branch never fires |
| Cylinder.NextSegIsModulo | lib/geom/shapes/cylinder.js:40-44 | the neighbouring segment used by the index loop is (k+1) mod n |
| Cylinder.WrapIsNextSegment | lib/geom/shapes/cylinder.js:40-44 | at i = 2k, (coord2+1) mod 2n and (coord2+2) mod 2n are the bottom and top vertices of the next segment, so the last segment wraps to vertices 0 and 1 |
| Cylinder.RingPush | lib/geom/shapes/cylinder.js:17-24 | after k iterations of the ring loop the buffer holds 6k numbers; ring vertex w is ring point w/2 at y = 0 when w is even and at y = length when w is odd |
| Cylinder.Positions | lib/geom/shapes/cylinder.js:17-26 | the position buffer has 3(2n+2) entries; ring vertices 0..2n-1 as above, vertex 2n is (0,0,0), vertex 2n+1 is (0, length, 0) |
| Cylinder.Normals | lib/geom/shapes/cylinder.js:28-33 | the normal buffer has 3(2n+2) entries and every entry is 0 |
| Cylinder.Iteration | lib/geom/shapes/cylinder.js:36-44 | one iteration at i = 2k pushes twelve indices: (2n, 2k', 2k), (2k+1, 2k'+1, 2n+1), (2k+1, 2k, 2k'), (2k', 2k'+1, 2k+1) where k' is the next segment |
| Cylinder.PushesOfIteration | lib/geom/shapes/cylinder.js:37-44 | the four pushes at i = 2k, written with the source's `(coord2+1) % (2n)` and `(coord2+2) % (2n)`, extend the buffer of k iterations to that of k+1 iterations |
| Cylinder.IndexLoop | lib/geom/shapes/cylinder.js:35-45 | after k iterations the index buffer has 12k entries, all in [0, 2n+1], and triangle t is the reference triangle CylTri(n, t) |
| Cylinder.Generate | lib/geom/shapes/cylinder.js:10-51 | the cylinder has 3(2n+2) position entries, as many zero normal entries, 3·4n index entries, and every index is below the vertex count 2n+2 |
| Cylinder.PushPositions | lib/geom/shapes/cylinder.js:17-26 | the ring loop pushing bottom then top, and the two centre pushes, build exactly Positions |
| Cylinder.PushNormals | lib/geom/shapes/cylinder.js:28-33 | the two zero pushes and the 2n-iteration zero loop build exactly Normals |
| Cylinder.PushIndices | lib/geom/shapes/cylinder.js:35-45 | the loop i = 0, 2, ..., 2n-2 runs n times and builds exactly IndexLoop(n, n) |
| Cylinder.GenerateLoops | lib/geom/shapes/cylinder.js:10-51 | the imperative generator returns the same three buffers as Generate |
| Cylinder.RingPairs | lib/geom/shapes/cylinder.js:17-22 | vertex 2k is (x_k, 0, z_k) and vertex 2k+1 is (x_k, length, z_k): same x and z, y = 0 and y = length |
| Cylinder.CapTriangles | lib/geom/shapes/cylinder.js:40-41 | the bottom-cap triangle of segment k holds 2n and two even ring vertices; the top-cap triangle holds 2n+1 and two odd ring vertices |
| Cylinder.SideTriangles | lib/geom/shapes/cylinder.js:43-44 | both side triangles of segment k use only ring vertices of segment k and of the next segment; after the last segment comes segment 0 |
| Cylinder.CornersDistinct | lib/geom/shapes/cylinder.js:40-44 | for n ≥ 2 no cylinder triangle names the same vertex twice |
| CylinderTopology.DecoderExact | lib/geom/shapes/cylinder.js:35-45 | for n ≥ 3 the cylinder decoder is exact on the generated index buffer: each side of the 4n triangles decodes to itself, each decoded side carries its edge, and an edge is decoded exactly when its reverse is |
| CylinderTopology.EdgeCountByDecode | lib/geom/shapes/cylinder.js:40-44 | for n ≥ 3 a directed edge occurs in the cylinder mesh once if it is a side of some triangle and never otherwise |
| CylinderTopology.CylinderClosed | lib/geom/shapes/cylinder.js:40-44 | for n ≥ 3 every directed edge occurs at most once and exactly as often as its reverse, and every triangle side is met once in each direction: the cylinder is closed and consistently wound |
| CylinderTopology.TwoSegmentsDoubleEdge | lib/geom/shapes/cylinder.js:40-44 | with n = 2 the edge 0→2 occurs twice, so the cylinder is not closed in that sense and n ≥ 3 is needed |

## Left out

- The trigonometry (lib/geom/shapes/cone.js:15-23, lib/geom/shapes/cylinder.js:14-23) is left out. This covers the radius, `Math.sin`/`Math.cos` and the floating-point angle accumulation. Ring x/z is the parameter `rim`, so the proofs are structural and hold for any ring coordinates.
- The model has no geometric properties: no signed areas, no outward-facing normals, no non-self-intersection. They depend on the real coordinates, which are abstract here. Winding is stated combinatorially, as each edge occurring once in each direction.
- Default arguments (`rad = 0.5, n = 30, length = 1.0`) are left out. Every parameter is explicit.
- Negative and non-integer segment counts are not modelled; `n` is a natural number. In the source a negative `n` makes every loop guard fail at once, like `n = 0`.
- The undeclared assignments to `x`, `y`, `z` in the ring loops are not modelled. They create globals in JavaScript's sloppy mode, a side effect outside the returned buffers.
- pa2.js is not part of this model. It holds WebGL setup, shaders, DOM events, shape selection, OBJ loading, the render loop and the camera matrices. All of that is I/O or floating-point linear algebra over libraries not shown.
- The disk and cube generators and `Shapes.init` are not part of this model; their source is not among the files.
- Failure for very large `n` is not modelled. JavaScript numbers are doubles, and an array holds at most 2^32−1 entries. For a huge segment count the source stops partway through its pushes: the heap runs out, or a RangeError is thrown at the length cap. The model takes an unbounded `n: nat` and always returns a mesh.
- Rejecting degenerate parameters and computing real normals are not modelled because the source does neither. The model keeps the zero normals and accepts every `n`.
