/**
 * The sweep of the greedy voxel mesher (create.js, `tesselate` and `getMeshData`).
 *
 * The voxels of a `dims[0]` by `dims[1]` by `dims[2]` grid are read from a flat
 * list at `x + dims[0] * y + dims[0] * dims[1] * z`. For each axis `d` the sweep
 * visits the face planes between layer `k` and layer `k + 1` for `k` from -1 (the
 * plane before the grid) to `dims[d] - 1` (the plane after it). For each plane it
 * fills the forward and backward masks with the face rule, merges each mask into
 * rectangles and emits every rectangle as one quad (4 corners, 12 coordinates) and
 * one face value. Opaque quads go to one pair of buffers and transparent ones to
 * another, which is appended to the first at the end.
 */
module MeshData {
  import opened Wrappers
  import opened Arith
  import opened FaceRule
  import opened GreedyMerge
  import Triangulate

  /** The capacity of each vertex and face buffer. */
  const NumPositionsChunk := 100 * 1024
  /** The capacity of each of the four shared mask buffers. */
  const MaskSize := 4096

  /** One of the three axes of the grid. */
  type Axis = d: nat | d < 3

  /** The two axes of the face planes orthogonal to axis `d`. */
  function UAxis(d: Axis): (u: Axis)
    ensures u != d
  {
    (d + 1) % 3
  }

  function VAxis(d: Axis): (v: Axis)
    ensures v != d && v != UAxis(d)
  {
    (d + 2) % 3
  }

  /** The grid point whose coordinate along `d` is `k`, along `UAxis(d)` is `a` and
      along `VAxis(d)` is `b`. */
  function Place(d: Axis, k: int, a: int, b: int): (p: seq<int>)
    ensures |p| == 3 && p[d] == k && p[UAxis(d)] == a && p[VAxis(d)] == b
  {
    if d == 0 then [k, a, b] else if d == 1 then [b, k, a] else [a, b, k]
  }

  predicate InGrid(dims: seq<nat>, p: seq<int>)
    requires |dims| == 3 && |p| == 3
  {
    0 <= p[0] < dims[0] && 0 <= p[1] < dims[1] && 0 <= p[2] < dims[2]
  }

  /** The offset of a grid point in the flat voxel list; it lies inside the list. */
  function VoxelIndex(dims: seq<nat>, p: seq<int>): (n: nat)
    requires |dims| == 3 && |p| == 3 && InGrid(dims, p)
    ensures n < dims[0] * dims[1] * dims[2]
  {
    RowFits(dims[0], dims[1], p[1]);
    RowFits(dims[0] * dims[1], dims[2], p[2]);
    p[0] + dims[0] * p[1] + dims[0] * dims[1] * p[2]
  }

  /** The voxel at a point; points outside the grid read as 0 (no voxel). */
  function Voxel(voxels: seq<int>, dims: seq<nat>, p: seq<int>): int
    requires |dims| == 3 && |p| == 3 && |voxels| == dims[0] * dims[1] * dims[2]
  {
    if InGrid(dims, p) then voxels[VoxelIndex(dims, p)] else 0
  }

  /** The face rule for cell `(iu, iv)` of the plane between layers `k` and `k + 1`
      of axis `d`: `a` is the voxel behind the plane, `b` the one in front. */
  function FaceAt(voxels: seq<int>, dims: seq<nat>, d: Axis, k: int, iu: int, iv: int,
                  transparent: int -> bool, translucent: int -> bool): FaceCell
    requires |dims| == 3 && |voxels| == dims[0] * dims[1] * dims[2]
  {
    Face(Voxel(voxels, dims, Place(d, k, iu, iv)), Voxel(voxels, dims, Place(d, k + 1, iu, iv)),
         transparent, translucent)
  }

  /** The forward and backward masks of a plane, as the shared buffers hold them:
      cell `(x, y)` of the plane, at offset `Idx(x, y)`, holds the two face colours
      (stored as unsigned 32-bit values) and the two transparency bits. */
  ghost predicate MaskCell(colors: seq<int>, invColors: seq<int>, mask: seq<bool>, invMask: seq<bool>,
                           voxels: seq<int>, dims: seq<nat>, d: Axis, k: int,
                           transparent: int -> bool, translucent: int -> bool, x: int, y: int)
    requires |dims| == 3 && |voxels| == dims[0] * dims[1] * dims[2]
    requires 0 <= x < dims[UAxis(d)] && 0 <= y < dims[VAxis(d)]
    requires dims[UAxis(d)] * dims[VAxis(d)] <= |colors| && dims[UAxis(d)] * dims[VAxis(d)] <= |invColors|
    requires dims[UAxis(d)] * dims[VAxis(d)] <= |mask| && dims[UAxis(d)] * dims[VAxis(d)] <= |invMask|
  {
    var n := Idx(dims[UAxis(d)], dims[VAxis(d)], x, y);
    var f := FaceAt(voxels, dims, d, k, x, y, transparent, translucent);
    && colors[n] == ToUint32(f.a) && invColors[n] == ToUint32(f.b)
    && mask[n] == f.aMask && invMask[n] == f.bMask
  }

  /** Every cell of the plane before scan position `(iu, iv)` is filled in. */
  ghost predicate MaskFilled(colors: seq<int>, invColors: seq<int>, mask: seq<bool>, invMask: seq<bool>,
                             voxels: seq<int>, dims: seq<nat>, d: Axis, k: int,
                             transparent: int -> bool, translucent: int -> bool, iu: int, iv: int)
    requires |dims| == 3 && |voxels| == dims[0] * dims[1] * dims[2]
    requires dims[UAxis(d)] * dims[VAxis(d)] <= |colors| && dims[UAxis(d)] * dims[VAxis(d)] <= |invColors|
    requires dims[UAxis(d)] * dims[VAxis(d)] <= |mask| && dims[UAxis(d)] * dims[VAxis(d)] <= |invMask|
  {
    forall x, y :: 0 <= x < dims[UAxis(d)] && 0 <= y < dims[VAxis(d)] && Before(x, y, iu, iv) ==>
      MaskCell(colors, invColors, mask, invMask, voxels, dims, d, k, transparent, translucent, x, y)
  }

  /** A quad emitted for rectangle `r` of the plane at coordinate `plane` along
      axis `d`, wound clockwise for the forward mask. */
  datatype Quad = Quad(d: Axis, plane: int, r: Rect, clockwise: bool)

  function Add(p: seq<int>, q: seq<int>): (s: seq<int>)
    requires |p| == 3 && |q| == 3
    ensures |s| == 3 && forall c :: 0 <= c < 3 ==> s[c] == p[c] + q[c]
  {
    [p[0] + q[0], p[1] + q[1], p[2] + q[2]]
  }

  /** Corner `c` of a quad, in the order the mesher writes them: the start `x` of
      its rectangle, `x + du`, `x + du + dv` and `x + dv`. Clockwise, `du` is `w`
      along the plane's `u` axis and `dv` is `h` along its `v` axis; otherwise the
      two are swapped. */
  function Corner(q: Quad, c: nat): (p: seq<int>)
    requires c < 4
    ensures |p| == 3
  {
    var x := Place(q.d, q.plane, q.r.i, q.r.j);
    var du := if q.clockwise then Place(q.d, 0, q.r.w, 0) else Place(q.d, 0, 0, q.r.h);
    var dv := if q.clockwise then Place(q.d, 0, 0, q.r.h) else Place(q.d, 0, q.r.w, 0);
    if c == 0 then x else if c == 1 then Add(x, du) else if c == 2 then Add(Add(x, du), dv) else Add(x, dv)
  }

  /** The 12 coordinates the mesher writes for a quad: its 4 corners in order,
      3 coordinates each. */
  function Verts(q: Quad): (vs: seq<int>)
    ensures |vs| == 12
  {
    seq(12, m requires 0 <= m < 12 => Corner(q, m / 3)[m % 3])
  }

  /** Coordinates `3 * c` to `3 * c + 2` of a quad are its corner `c`. */
  lemma VertsCorner(q: Quad, c: nat)
    requires c < 4
    ensures Verts(q)[3 * c .. 3 * c + 3] == Corner(q, c)
  {
    DivModUnique(3 * c, 3, c, 0);
    DivModUnique(3 * c + 1, 3, c, 1);
    DivModUnique(3 * c + 2, 3, c, 2);
  }

  /** Adding two points placed on planes of the same axis adds their coordinates. */
  lemma AddPlace(d: Axis, k: int, a: int, b: int, k': int, a': int, b': int)
    ensures Add(Place(d, k, a, b), Place(d, k', a', b')) == Place(d, k + k', a + a', b + b')
  {
  }

  /** The corners of a quad are the corners of its rectangle in the plane: the
      start, the corner along `u`, the opposite one and the corner along `v` when
      clockwise, with the second and the fourth swapped otherwise. */
  lemma CornerPlaces(q: Quad)
    ensures var r := q.r;
      && Corner(q, 0) == Place(q.d, q.plane, r.i, r.j)
      && Corner(q, if q.clockwise then 1 else 3) == Place(q.d, q.plane, r.i + r.w, r.j)
      && Corner(q, 2) == Place(q.d, q.plane, r.i + r.w, r.j + r.h)
      && Corner(q, if q.clockwise then 3 else 1) == Place(q.d, q.plane, r.i, r.j + r.h)
  {
    var d, k, r := q.d, q.plane, q.r;
    if q.clockwise {
      AddPlace(d, k, r.i, r.j, 0, r.w, 0);
      AddPlace(d, k, r.i + r.w, r.j, 0, 0, r.h);
      AddPlace(d, k, r.i, r.j, 0, 0, r.h);
    } else {
      AddPlace(d, k, r.i, r.j, 0, 0, r.h);
      AddPlace(d, k, r.i, r.j + r.h, 0, r.w, 0);
      AddPlace(d, k, r.i, r.j, 0, r.w, 0);
    }
  }

  /** The backward face of a rectangle is the forward face with the opposite
      winding: the same corners, visited from the start in reverse order. */
  lemma WindingReversed(d: Axis, plane: int, r: Rect, c: nat)
    requires c < 4
    ensures Corner(Quad(d, plane, r, false), c) == Corner(Quad(d, plane, r, true), (4 - c) % 4)
  {
    CornerPlaces(Quad(d, plane, r, true));
    CornerPlaces(Quad(d, plane, r, false));
  }

  /** Every corner of a quad lies on its face plane. */
  lemma QuadOnPlane(q: Quad, c: nat)
    requires c < 4
    ensures Verts(q)[3 * c + q.d] == q.plane
  {
    VertsCorner(q, c);
    assert Verts(q)[3 * c + q.d] == Verts(q)[3 * c .. 3 * c + 3][q.d];
  }

  function QuadsOf(d: Axis, plane: int, rs: seq<Rect>, clockwise: bool): (qs: seq<Quad>)
    ensures |qs| == |rs|
    ensures forall k :: 0 <= k < |rs| ==> qs[k] == Quad(d, plane, rs[k], clockwise)
  {
    seq(|rs|, k requires 0 <= k < |rs| => Quad(d, plane, rs[k], clockwise))
  }

  /** The opaque quads, in emission order. */
  function Opaque(qs: seq<Quad>): (os: seq<Quad>)
  {
    if qs == [] then []
    else Opaque(qs[..|qs| - 1]) + (if !qs[|qs| - 1].r.t then [qs[|qs| - 1]] else [])
  }

  /** The transparent quads, in emission order. */
  function Transparent(qs: seq<Quad>): (ts: seq<Quad>)
  {
    if qs == [] then []
    else Transparent(qs[..|qs| - 1]) + (if qs[|qs| - 1].r.t then [qs[|qs| - 1]] else [])
  }

  /** The vertex data of a list of quads: 12 coordinates per quad. */
  function VertexData(qs: seq<Quad>): (vs: seq<int>)
    ensures |vs| == 12 * |qs|
  {
    if qs == [] then [] else VertexData(qs[..|qs| - 1]) + Verts(qs[|qs| - 1])
  }

  /** The face data of a list of quads: the colour of each quad's rectangle. */
  function FaceData(qs: seq<Quad>): (fs: seq<int>)
    ensures |fs| == |qs|
  {
    if qs == [] then [] else FaceData(qs[..|qs| - 1]) + [qs[|qs| - 1].r.c]
  }

  lemma SplitSnoc(qs: seq<Quad>, q: Quad)
    ensures Opaque(qs + [q]) == Opaque(qs) + (if !q.r.t then [q] else [])
    ensures Transparent(qs + [q]) == Transparent(qs) + (if q.r.t then [q] else [])
  {
    assert (qs + [q])[..|qs|] == qs;
  }

  /** Splitting keeps every quad exactly once: the opaque and the transparent quads
      together are the emitted ones. */
  lemma {:induction false} SplitKeepsAll(qs: seq<Quad>)
    ensures multiset(Opaque(qs)) + multiset(Transparent(qs)) == multiset(qs)
  {
    if qs != [] {
      var init, q := qs[..|qs| - 1], qs[|qs| - 1];
      SplitKeepsAll(init);
      assert qs == init + [q];
      SplitSnoc(init, q);
      assert multiset(qs) == multiset(init) + multiset{q};
    }
  }

  lemma {:induction false} SplitLength(qs: seq<Quad>)
    ensures |Opaque(qs)| + |Transparent(qs)| == |qs|
  {
    if qs != [] {
      SplitLength(qs[..|qs| - 1]);
    }
  }

  /** The opaque list holds only quads without the transparency bit. */
  lemma {:induction false} OpaqueFlags(qs: seq<Quad>)
    ensures forall k :: 0 <= k < |Opaque(qs)| ==> !Opaque(qs)[k].r.t
  {
    if qs != [] {
      OpaqueFlags(qs[..|qs| - 1]);
    }
  }

  /** The transparent list holds only quads with the transparency bit. */
  lemma {:induction false} TransparentFlags(qs: seq<Quad>)
    ensures forall k :: 0 <= k < |Transparent(qs)| ==> Transparent(qs)[k].r.t
  {
    if qs != [] {
      TransparentFlags(qs[..|qs| - 1]);
    }
  }

  /** The output quad list holds the opaque quads first and the transparent ones
      after them: a quad is transparent exactly when it comes after all opaque ones. */
  lemma OpaqueBeforeTransparent(qs: seq<Quad>)
    ensures forall k :: 0 <= k < |Opaque(qs) + Transparent(qs)| ==>
      ((Opaque(qs) + Transparent(qs))[k].r.t <==> k >= |Opaque(qs)|)
  {
    OpaqueFlags(qs);
    TransparentFlags(qs);
  }

  lemma {:induction false} VertexDataSnoc(qs: seq<Quad>, q: Quad)
    ensures VertexData(qs + [q]) == VertexData(qs) + Verts(q)
  {
    assert (qs + [q])[..|qs|] == qs;
  }

  lemma FaceDataSnoc(qs: seq<Quad>, q: Quad)
    ensures FaceData(qs + [q]) == FaceData(qs) + [q.r.c]
  {
    assert (qs + [q])[..|qs|] == qs;
  }

  /** Face value `k` is the colour of quad `k`. */
  lemma {:induction false} FaceDataAt(qs: seq<Quad>, k: nat)
    requires k < |qs|
    ensures FaceData(qs)[k] == qs[k].r.c
  {
    if k < |qs| - 1 {
      FaceDataAt(qs[..|qs| - 1], k);
    }
  }

  /** A point placed on plane `k` of axis `d` lies in the grid exactly when all
      three of its coordinates do. */
  lemma PlaceInGrid(dims: seq<nat>, d: Axis, k: int, a: int, b: int)
    requires |dims| == 3
    ensures InGrid(dims, Place(d, k, a, b)) <==>
      0 <= k < dims[d] && 0 <= a < dims[UAxis(d)] && 0 <= b < dims[VAxis(d)]
  {
  }

  /** The first `m` planes of axis `d` in sweep order: from -1, the plane before
      the grid, to `m - 2`. */
  function AxisSweep(d: Axis, m: nat): (ks: seq<(Axis, int)>)
    ensures |ks| == m
  {
    if m == 0 then [] else AxisSweep(d, m - 1) + [(d, m - 2)]
  }

  lemma AxisSweepSnoc(d: Axis, m: nat)
    ensures AxisSweep(d, m + 1) == AxisSweep(d, m) + [(d, m - 1)]
  {
  }

  /** Plane `l` of an axis' sweep is the plane after layer `l - 1`. */
  lemma {:induction false} AxisSweepAt(d: Axis, m: nat, l: nat)
    requires l < m
    ensures AxisSweep(d, m)[l] == (d, l - 1)
  {
    if l < m - 1 {
      AxisSweepAt(d, m - 1, l);
    }
  }

  lemma {:induction false} AxisSweepGrows(d: Axis, m: nat, n: nat)
    requires m <= n
    ensures AxisSweep(d, m) <= AxisSweep(d, n)
    decreases n
  {
    if m < n {
      AxisSweepGrows(d, m, n - 1);
    }
  }

  /** The only planes of an axis' sweep are those of that axis up to `m - 2`. */
  lemma {:induction false} AxisSweepMember(d: Axis, m: nat, e: Axis, k: int)
    ensures (e, k) in AxisSweep(d, m) <==> e == d && -1 <= k <= m - 2
  {
    if m > 0 {
      AxisSweepMember(d, m - 1, e, k);
    }
  }

  /** The planes of the axes below `e`, axis by axis; each axis has one plane more
      than it has layers. */
  function SweepBefore(dims: seq<nat>, e: nat): seq<(Axis, int)>
    requires |dims| == 3 && e <= 3
  {
    if e == 0 then [] else SweepBefore(dims, e - 1) + AxisSweep(e - 1, dims[e - 1] + 1)
  }

  /** Every plane the mesher visits, in the order it visits them. */
  function Sweep(dims: seq<nat>): seq<(Axis, int)>
    requires |dims| == 3
  {
    SweepBefore(dims, 3)
  }

  lemma {:induction false} SweepBeforeGrows(dims: seq<nat>, e: nat, e': nat)
    requires |dims| == 3 && e <= e' <= 3
    ensures SweepBefore(dims, e) <= SweepBefore(dims, e')
    decreases e' - e
  {
    if e < e' {
      SweepBeforeGrows(dims, e, e' - 1);
    }
  }

  /** The planes visited up to some plane of axis `d` come before the planes of
      the axes above it. */
  lemma SweepAxisPart(dims: seq<nat>, d: Axis, m: nat)
    requires |dims| == 3 && m <= dims[d] + 1
    ensures SweepBefore(dims, d) + AxisSweep(d, m) <= Sweep(dims)
  {
    AxisSweepGrows(d, m, dims[d] + 1);
    SweepBeforeGrows(dims, d + 1, 3);
  }

  /** The sweep visits plane `k` of axis `d` exactly when `-1 <= k < dims[d]`: each
      axis has one plane before the grid, one after it and one between each two
      layers. */
  lemma SweepVisits(dims: seq<nat>, d: Axis, k: int)
    requires |dims| == 3
    ensures (d, k) in Sweep(dims) <==> -1 <= k < dims[d]
    ensures |Sweep(dims)| == dims[0] + dims[1] + dims[2] + 3
  {
    var s0, s1, s2 := AxisSweep(0, dims[0] + 1), AxisSweep(1, dims[1] + 1), AxisSweep(2, dims[2] + 1);
    assert SweepBefore(dims, 1) == s0;
    assert SweepBefore(dims, 2) == s0 + s1;
    assert Sweep(dims) == s0 + s1 + s2;
    AxisSweepMember(0, dims[0] + 1, d, k);
    AxisSweepMember(1, dims[1] + 1, d, k);
    AxisSweepMember(2, dims[2] + 1, d, k);
  }

  /** What one plane of the sweep produced: the forward and backward masks as the
      face rule filled them, and the rectangles the merge found in each. */
  datatype Layer = Layer(d: Axis, k: int,
                         colors: seq<int>, mask: seq<bool>, fwd: seq<Rect>,
                         invColors: seq<int>, invMask: seq<bool>, bwd: seq<Rect>)

  /** The plane of each layer. */
  function LayerKeys(layers: seq<Layer>): (ks: seq<(Axis, int)>)
    ensures |ks| == |layers|
  {
    if layers == [] then []
    else LayerKeys(layers[..|layers| - 1]) + [(layers[|layers| - 1].d, layers[|layers| - 1].k)]
  }

  /** The layer was produced by the mesher from the voxels: its masks hold the face
      rule at every cell of the plane, and its rectangles partition each mask and
      are the greedy scan's choices. */
  ghost predicate LayerOk(voxels: seq<int>, dims: seq<nat>, transparent: int -> bool, translucent: int -> bool,
                          layer: Layer)
    requires |dims| == 3 && |voxels| == dims[0] * dims[1] * dims[2]
  {
    var dimsU, dimsV := dims[UAxis(layer.d)], dims[VAxis(layer.d)];
    && -1 <= layer.k < dims[layer.d]
    && dimsU * dimsV <= MaskSize
    && |layer.colors| == |layer.mask| == |layer.invColors| == |layer.invMask| == MaskSize
    && MaskFilled(layer.colors, layer.invColors, layer.mask, layer.invMask, voxels, dims,
                  layer.d, layer.k, transparent, translucent, 0, dimsV)
    && Partition(layer.fwd, layer.colors, layer.mask, dimsU, dimsV) && StartsOrdered(layer.fwd)
    && Greedy(layer.fwd, layer.colors, dimsU, dimsV)
    && Partition(layer.bwd, layer.invColors, layer.invMask, dimsU, dimsV) && StartsOrdered(layer.bwd)
    && Greedy(layer.bwd, layer.invColors, dimsU, dimsV)
  }

  /** Every layer of a sweep was produced by the mesher from the voxels. */
  ghost predicate LayersOk(voxels: seq<int>, dims: seq<nat>, transparent: int -> bool, translucent: int -> bool,
                           layers: seq<Layer>)
    requires |dims| == 3 && |voxels| == dims[0] * dims[1] * dims[2]
  {
    layers != [] ==>
      && LayersOk(voxels, dims, transparent, translucent, layers[..|layers| - 1])
      && LayerOk(voxels, dims, transparent, translucent, layers[|layers| - 1])
  }

  lemma LayersOkSnoc(voxels: seq<int>, dims: seq<nat>, transparent: int -> bool, translucent: int -> bool,
                     layers: seq<Layer>, layer: Layer)
    requires |dims| == 3 && |voxels| == dims[0] * dims[1] * dims[2]
    requires LayersOk(voxels, dims, transparent, translucent, layers)
    requires LayerOk(voxels, dims, transparent, translucent, layer)
    ensures LayersOk(voxels, dims, transparent, translucent, layers + [layer])
  {
    assert (layers + [layer])[..|layers|] == layers;
  }

  /** Each layer of such a sweep was produced by the mesher. */
  lemma {:induction false} LayersOkAt(voxels: seq<int>, dims: seq<nat>, transparent: int -> bool, translucent: int -> bool,
                                      layers: seq<Layer>, l: nat)
    requires |dims| == 3 && |voxels| == dims[0] * dims[1] * dims[2]
    requires LayersOk(voxels, dims, transparent, translucent, layers) && l < |layers|
    ensures LayerOk(voxels, dims, transparent, translucent, layers[l])
    decreases |layers|
  {
    if l < |layers| - 1 {
      LayersOkAt(voxels, dims, transparent, translucent, layers[..|layers| - 1], l);
    }
  }

  lemma LayerKeysSnoc(layers: seq<Layer>, layer: Layer)
    ensures LayerKeys(layers + [layer]) == LayerKeys(layers) + [(layer.d, layer.k)]
  {
    assert (layers + [layer])[..|layers|] == layers;
  }

  /** The layers are the planes of axis `d` in sweep order. */
  predicate AxisLayers(layers: seq<Layer>, d: Axis)
  {
    layers != [] ==>
      && AxisLayers(layers[..|layers| - 1], d)
      && layers[|layers| - 1].d == d && layers[|layers| - 1].k == |layers| - 2
  }

  lemma AxisLayersSnoc(layers: seq<Layer>, d: Axis, layer: Layer)
    requires AxisLayers(layers, d) && layer.d == d && layer.k == |layers| - 1
    ensures AxisLayers(layers + [layer], d)
  {
    assert (layers + [layer])[..|layers|] == layers;
  }

  /** Layer `l` of such a list is the plane after layer `l - 1` of axis `d`. */
  lemma {:induction false} AxisLayersAt(layers: seq<Layer>, d: Axis, l: nat)
    requires AxisLayers(layers, d) && l < |layers|
    ensures layers[l].d == d && layers[l].k == l - 1
  {
    if l < |layers| - 1 {
      AxisLayersAt(layers[..|layers| - 1], d, l);
    }
  }

  lemma {:induction false} AxisLayersKeys(layers: seq<Layer>, d: Axis)
    requires AxisLayers(layers, d)
    ensures LayerKeys(layers) == AxisSweep(d, |layers|)
  {
    if layers != [] {
      AxisLayersKeys(layers[..|layers| - 1], d);
    }
  }

  lemma {:induction false} LayerKeysAppend(a: seq<Layer>, b: seq<Layer>)
    ensures LayerKeys(a + b) == LayerKeys(a) + LayerKeys(b)
    decreases |b|
  {
    if b == [] {
      assert a + b == a;
    } else {
      var init, layer := b[..|b| - 1], b[|b| - 1];
      assert b == init + [layer];
      assert a + b == (a + init) + [layer];
      LayerKeysAppend(a, init);
      LayerKeysSnoc(a + init, layer);
      LayerKeysSnoc(init, layer);
      ghost var u, v, w := LayerKeys(a), LayerKeys(init), [(layer.d, layer.k)];
      assert LayerKeys(a + b) == u + (v + w);
    }
  }

  /** The layers of the axes before `d` followed by some planes of axis `d` come
      first in the sweep, and all planes of axis `d` complete the axes up to `d`. */
  lemma SweepAxisKeys(dims: seq<nat>, d: Axis, layers: seq<Layer>, added: seq<Layer>)
    requires |dims| == 3 && |added| <= dims[d] + 1
    requires LayerKeys(layers) == SweepBefore(dims, d) && AxisLayers(added, d)
    ensures LayerKeys(layers + added) <= Sweep(dims)
    ensures |added| == dims[d] + 1 ==> LayerKeys(layers + added) == SweepBefore(dims, d + 1)
  {
    LayerKeysAppend(layers, added);
    AxisLayersKeys(added, d);
    SweepAxisPart(dims, d, |added|);
  }

  /** A forward face that the face rule draws at a cell of a plane is drawn by
      exactly one quad of that plane, in the face's colour; a cell without a forward
      face lies in no forward quad. */
  lemma ForwardFaceDrawnOnce(voxels: seq<int>, dims: seq<nat>, transparent: int -> bool, translucent: int -> bool,
                             layer: Layer, x: nat, y: nat) returns (j: nat)
    requires |dims| == 3 && |voxels| == dims[0] * dims[1] * dims[2]
    requires LayerOk(voxels, dims, transparent, translucent, layer)
    requires x < dims[UAxis(layer.d)] && y < dims[VAxis(layer.d)]
    ensures var c := ToUint32(FaceAt(voxels, dims, layer.d, layer.k, x, y, transparent, translucent).a);
      c != 0 ==> (j < |layer.fwd| && InRect(layer.fwd[j], x, y) && layer.fwd[j].c == c &&
                  forall l :: 0 <= l < |layer.fwd| && l != j ==> !InRect(layer.fwd[l], x, y))
    ensures var c := ToUint32(FaceAt(voxels, dims, layer.d, layer.k, x, y, transparent, translucent).a);
      c == 0 ==> forall l :: 0 <= l < |layer.fwd| ==> !InRect(layer.fwd[l], x, y)
  {
    var dimsU, dimsV := dims[UAxis(layer.d)], dims[VAxis(layer.d)];
    assert MaskCell(layer.colors, layer.invColors, layer.mask, layer.invMask, voxels, dims,
                    layer.d, layer.k, transparent, translucent, x, y);
    var n := Idx(dimsU, dimsV, x, y);
    if layer.colors[n] != 0 {
      j := PartitionCovers(layer.fwd, layer.colors, layer.mask, dimsU, dimsV, x, y);
      forall l | 0 <= l < |layer.fwd| && l != j
        ensures !InRect(layer.fwd[l], x, y)
      {
        PartitionDisjoint(layer.fwd, layer.colors, layer.mask, dimsU, dimsV, j, l, x, y);
      }
    } else {
      j := 0;
      forall l | 0 <= l < |layer.fwd|
        ensures !InRect(layer.fwd[l], x, y)
      {
        if InRect(layer.fwd[l], x, y) {
          CoverCountAtLeastOne(layer.fwd, l, x, y);
        }
      }
    }
  }

  /** The same for backward faces and the quads of the backward mask. */
  lemma BackwardFaceDrawnOnce(voxels: seq<int>, dims: seq<nat>, transparent: int -> bool, translucent: int -> bool,
                              layer: Layer, x: nat, y: nat) returns (j: nat)
    requires |dims| == 3 && |voxels| == dims[0] * dims[1] * dims[2]
    requires LayerOk(voxels, dims, transparent, translucent, layer)
    requires x < dims[UAxis(layer.d)] && y < dims[VAxis(layer.d)]
    ensures var c := ToUint32(FaceAt(voxels, dims, layer.d, layer.k, x, y, transparent, translucent).b);
      c != 0 ==> (j < |layer.bwd| && InRect(layer.bwd[j], x, y) && layer.bwd[j].c == c &&
                  forall l :: 0 <= l < |layer.bwd| && l != j ==> !InRect(layer.bwd[l], x, y))
    ensures var c := ToUint32(FaceAt(voxels, dims, layer.d, layer.k, x, y, transparent, translucent).b);
      c == 0 ==> forall l :: 0 <= l < |layer.bwd| ==> !InRect(layer.bwd[l], x, y)
  {
    var dimsU, dimsV := dims[UAxis(layer.d)], dims[VAxis(layer.d)];
    assert MaskCell(layer.colors, layer.invColors, layer.mask, layer.invMask, voxels, dims,
                    layer.d, layer.k, transparent, translucent, x, y);
    var n := Idx(dimsU, dimsV, x, y);
    if layer.invColors[n] != 0 {
      j := PartitionCovers(layer.bwd, layer.invColors, layer.invMask, dimsU, dimsV, x, y);
      forall l | 0 <= l < |layer.bwd| && l != j
        ensures !InRect(layer.bwd[l], x, y)
      {
        PartitionDisjoint(layer.bwd, layer.invColors, layer.invMask, dimsU, dimsV, j, l, x, y);
      }
    } else {
      j := 0;
      forall l | 0 <= l < |layer.bwd|
        ensures !InRect(layer.bwd[l], x, y)
      {
        if InRect(layer.bwd[l], x, y) {
          CoverCountAtLeastOne(layer.bwd, l, x, y);
        }
      }
    }
  }

  /** The quads of one plane: the forward rectangles wound clockwise, then the
      backward ones wound the other way, all on the plane after layer `k`. */
  function LayerQuads(layer: Layer): (qs: seq<Quad>)
    ensures |qs| == |layer.fwd| + |layer.bwd|
  {
    QuadsOf(layer.d, layer.k + 1, layer.fwd, true) + QuadsOf(layer.d, layer.k + 1, layer.bwd, false)
  }

  lemma ConcatAssoc<T>(a: seq<T>, b: seq<T>, c: seq<T>)
    ensures a + b + c == a + (b + c)
  {
  }

  /** The quads of all planes in emission order. */
  function Emit(layers: seq<Layer>): seq<Quad>
  {
    if layers == [] then [] else Emit(layers[..|layers| - 1]) + LayerQuads(layers[|layers| - 1])
  }

  lemma EmitSnoc(layers: seq<Layer>, layer: Layer)
    ensures Emit(layers + [layer]) == Emit(layers) + LayerQuads(layer)
  {
    assert (layers + [layer])[..|layers|] == layers;
  }



  /** The filled parts of `getMeshData`'s four buffers: the vertex and face data
      of the opaque quads and of the transparent ones. The counters
      `vertexIndex`, `faceIndex`, `tVertexIndex` and `tFaceIndex` are their
      lengths. */
  datatype Output = Output(vertices: seq<int>, faces: seq<int>, tVertices: seq<int>, tFaces: seq<int>)

  /** What the buffers hold after a list of quads was emitted. */
  function Collect(qs: seq<Quad>): Output
  {
    Output(VertexData(Opaque(qs)), FaceData(Opaque(qs)), VertexData(Transparent(qs)), FaceData(Transparent(qs)))
  }

  /** Neither vertex buffer has run over its capacity. */
  predicate Fits(qs: seq<Quad>)
  {
    12 * |Opaque(qs)| <= NumPositionsChunk && 12 * |Transparent(qs)| <= NumPositionsChunk
  }

  /** Splitting a concatenation splits each part. */
  lemma {:induction false} SplitAppend(a: seq<Quad>, b: seq<Quad>)
    ensures Opaque(a + b) == Opaque(a) + Opaque(b)
    ensures Transparent(a + b) == Transparent(a) + Transparent(b)
    decreases |b|
  {
    if b == [] {
      assert a + b == a;
    } else {
      var init, q := b[..|b| - 1], b[|b| - 1];
      assert b == init + [q];
      assert a + b == (a + init) + [q];
      SplitAppend(a, init);
      SplitSnoc(a + init, q);
      SplitSnoc(init, q);
    }
  }

  /** Once a buffer has run over, it stays over whatever is emitted after. */
  lemma FitsPrefix(a: seq<Quad>, b: seq<Quad>)
    requires Fits(a + b)
    ensures Fits(a)
  {
    SplitAppend(a, b);
  }

  /** The `if (!t) { vertices.set(...) } else { tVertices.set(...) }` step of the
      merge: appends a quad's 12 coordinates to the opaque or the transparent
      vertex buffer, as its transparency bit says, and its colour to the matching
      face buffer. `TypedArray.prototype.set` fails with a range error when the
      coordinates do not fit the vertex buffer. */
  function Push(out: Output, q: Quad): Option<Output>
  {
    if !q.r.t then
      if |out.vertices| + 12 > NumPositionsChunk then None
      else Some(Output(out.vertices + Verts(q), out.faces + [q.r.c], out.tVertices, out.tFaces))
    else
      if |out.tVertices| + 12 > NumPositionsChunk then None
      else Some(Output(out.vertices, out.faces, out.tVertices + Verts(q), out.tFaces + [q.r.c]))
  }

  /** Pushes a list of quads in order, stopping at the first that does not fit. */
  function PushAll(out: Output, qs: seq<Quad>): Option<Output>
    decreases |qs|
  {
    if qs == [] then Some(out)
    else match Push(out, qs[0]) {
      case None => None
      case Some(out') => PushAll(out', qs[1..])
    }
  }

  /** Pushing a quad to the buffers of some quads gives the buffers of one more
      quad, and fails exactly when that quad overruns its vertex buffer. */
  lemma PushCollect(emitted: seq<Quad>, q: Quad)
    requires Fits(emitted)
    ensures Push(Collect(emitted), q) == if Fits(emitted + [q]) then Some(Collect(emitted + [q])) else None
  {
    SplitSnoc(emitted, q);
    var o, t := Opaque(emitted), Transparent(emitted);
    VertexDataSnoc(o, q);
    FaceDataSnoc(o, q);
    VertexDataSnoc(t, q);
    FaceDataSnoc(t, q);
    if !q.r.t {
      assert Opaque(emitted + [q]) == o + [q] && Transparent(emitted + [q]) == t;
    } else {
      assert Opaque(emitted + [q]) == o && Transparent(emitted + [q]) == t + [q];
    }
  }

  /** Pushing a list of quads succeeds exactly when the buffers hold all of them,
      and then holds the data of every quad pushed. */
  lemma {:induction false} PushAllCollect(emitted: seq<Quad>, qs: seq<Quad>)
    requires Fits(emitted)
    ensures PushAll(Collect(emitted), qs) == if Fits(emitted + qs) then Some(Collect(emitted + qs)) else None
    decreases |qs|
  {
    if qs == [] {
      assert emitted + qs == emitted;
    } else {
      var q := qs[0];
      assert emitted + qs == (emitted + [q]) + qs[1..];
      PushCollect(emitted, q);
      if Fits(emitted + [q]) {
        PushAllCollect(emitted + [q], qs[1..]);
      } else if Fits(emitted + qs) {
        FitsPrefix(emitted + [q], qs[1..]);
      }
    }
  }

  datatype Mesh = Mesh(vertices: seq<int>, faces: seq<int>)

  datatype MeshError =
    | MaskBufferTooSmall   // a plane has more cells than the shared mask buffers
    | VertexBufferFull     // more coordinates than a vertex buffer holds
    | FaceBufferFull       // more faces than the face buffer holds

  /** The end of `getMeshData`: appends the transparent vertex and face data to
      the opaque ones with `TypedArray.prototype.set`, each of which fails with a
      range error when the data do not fit. */
  function Join(out: Output): (r: Result<Mesh, MeshError>)
    ensures r.Ok? ==> |r.value.vertices| <= NumPositionsChunk && |r.value.faces| <= NumPositionsChunk
  {
    if |out.vertices| + |out.tVertices| > NumPositionsChunk then Err(VertexBufferFull)
    else if |out.faces| + |out.tFaces| > NumPositionsChunk then Err(FaceBufferFull)
    else Ok(Mesh(out.vertices + out.tVertices, out.faces + out.tFaces))
  }

  /** Joining the buffers of a list of quads succeeds exactly when the quads'
      coordinates fit one vertex buffer; the face data then always fit. */
  lemma JoinCollect(out: Output, qs: seq<Quad>)
    requires out == Collect(qs)
    ensures Join(out).Ok? <==> 12 * |qs| <= NumPositionsChunk
    ensures Join(out).Err? ==> Join(out).error == VertexBufferFull
  {
    SplitLength(qs);
  }

  /** A successful join holds the data of the opaque quads followed by those of
      the transparent ones. */
  lemma JoinContents(out: Output, qs: seq<Quad>)
    requires out == Collect(qs) && Join(out).Ok?
    ensures Join(out).value.vertices == VertexData(Opaque(qs)) + VertexData(Transparent(qs))
    ensures Join(out).value.faces == FaceData(Opaque(qs)) + FaceData(Transparent(qs))
  {
  }

  /** The vertex data of the opaque quads followed by those of the transparent
      ones are the data of the quad list that holds every emitted quad once, the
      opaque ones first. */
  lemma MeshQuads(qs: seq<Quad>)
    ensures VertexData(Opaque(qs)) + VertexData(Transparent(qs)) == VertexData(Opaque(qs) + Transparent(qs))
    ensures FaceData(Opaque(qs)) + FaceData(Transparent(qs)) == FaceData(Opaque(qs) + Transparent(qs))
    ensures multiset(Opaque(qs) + Transparent(qs)) == multiset(qs)
  {
    SplitKeepsAll(qs);
    assert multiset(Opaque(qs) + Transparent(qs)) == multiset(Opaque(qs)) + multiset(Transparent(qs));
    VertexDataAppend(Opaque(qs), Transparent(qs));
    FaceDataAppend(Opaque(qs), Transparent(qs));
  }

  lemma {:induction false} VertexDataAppend(a: seq<Quad>, b: seq<Quad>)
    ensures VertexData(a + b) == VertexData(a) + VertexData(b)
    decreases |b|
  {
    if b == [] {
      assert a + b == a;
    } else {
      var init, q := b[..|b| - 1], b[|b| - 1];
      calc {
        VertexData(a + b);
        { assert a + b == (a + init) + [q]; VertexDataSnoc(a + init, q); }
        VertexData(a + init) + Verts(q);
        { VertexDataAppend(a, init); }
        VertexData(a) + VertexData(init) + Verts(q);
        { ConcatAssoc(VertexData(a), VertexData(init), Verts(q)); }
        VertexData(a) + (VertexData(init) + Verts(q));
        { assert b == init + [q]; VertexDataSnoc(init, q); }
        VertexData(a) + VertexData(b);
      }
    }
  }

  lemma {:induction false} FaceDataAppend(a: seq<Quad>, b: seq<Quad>)
    ensures FaceData(a + b) == FaceData(a) + FaceData(b)
    decreases |b|
  {
    if b == [] {
      assert a + b == a;
    } else {
      var init, q := b[..|b| - 1], b[|b| - 1];
      calc {
        FaceData(a + b);
        { assert a + b == (a + init) + [q]; FaceDataSnoc(a + init, q); }
        FaceData(a + init) + [q.r.c];
        { FaceDataAppend(a, init); }
        FaceData(a) + FaceData(init) + [q.r.c];
        { ConcatAssoc(FaceData(a), FaceData(init), [q.r.c]); }
        FaceData(a) + (FaceData(init) + [q.r.c]);
        { assert b == init + [q]; FaceDataSnoc(init, q); }
        FaceData(a) + FaceData(b);
      }
    }
  }

  /** The geometry `tesselate` hands back: 18 position values and 18 colour values
      per quad. */
  datatype Geometry = Geometry(positions: seq<int>, colors: seq<real>)

  /** The planes of axis `d` fit the mask buffers. */
  predicate MaskFits(dims: seq<nat>, d: Axis)
    requires |dims| == 3
  {
    dims[UAxis(d)] * dims[VAxis(d)] <= MaskSize
  }

  /** The mask buffers are large enough for each of the first `n` axes. */
  predicate AxesFit(dims: seq<nat>, n: nat)
    requires |dims| == 3 && n <= 3
  {
    n == 0 || (AxesFit(dims, n - 1) && MaskFits(dims, n - 1))
  }

  lemma {:induction false} AxesFitPrefix(dims: seq<nat>, m: nat, n: nat)
    requires |dims| == 3 && m <= n <= 3
    ensures AxesFit(dims, n) ==> AxesFit(dims, m)
    decreases n
  {
    if m < n {
      AxesFitPrefix(dims, m, n - 1);
    }
  }

  /** Filling one cell keeps the cells before it filled. */
  lemma MaskFilledStep(colors: seq<int>, invColors: seq<int>, mask: seq<bool>, invMask: seq<bool>,
                       colors': seq<int>, invColors': seq<int>, mask': seq<bool>, invMask': seq<bool>,
                       voxels: seq<int>, dims: seq<nat>, d: Axis, k: int,
                       transparent: int -> bool, translucent: int -> bool, iu: nat, iv: nat)
    requires |dims| == 3 && |voxels| == dims[0] * dims[1] * dims[2]
    requires iu < dims[UAxis(d)] && iv < dims[VAxis(d)]
    requires dims[UAxis(d)] * dims[VAxis(d)] <= |colors| && dims[UAxis(d)] * dims[VAxis(d)] <= |invColors|
    requires dims[UAxis(d)] * dims[VAxis(d)] <= |mask| && dims[UAxis(d)] * dims[VAxis(d)] <= |invMask|
    requires MaskFilled(colors, invColors, mask, invMask, voxels, dims, d, k, transparent, translucent, iu, iv)
    requires var n := Idx(dims[UAxis(d)], dims[VAxis(d)], iu, iv);
      var f := FaceAt(voxels, dims, d, k, iu, iv, transparent, translucent);
      && colors' == colors[n := ToUint32(f.a)] && invColors' == invColors[n := ToUint32(f.b)]
      && mask' == mask[n := f.aMask] && invMask' == invMask[n := f.bMask]
    ensures MaskFilled(colors', invColors', mask', invMask', voxels, dims, d, k, transparent, translucent, iu + 1, iv)
  {
    var dimsU, dimsV := dims[UAxis(d)], dims[VAxis(d)];
    forall x, y | 0 <= x < dimsU && 0 <= y < dimsV && Before(x, y, iu + 1, iv)
      ensures MaskCell(colors', invColors', mask', invMask', voxels, dims, d, k, transparent, translucent, x, y)
    {
      if x != iu || y != iv {
        assert Idx(dimsU, dimsV, x, y) != Idx(dimsU, dimsV, iu, iv);
        assert MaskCell(colors, invColors, mask, invMask, voxels, dims, d, k, transparent, translucent, x, y);
      }
    }
  }

  /**
   * The mesher with its four mask buffers (`colors`, `invColors`, `mask` and
   * `invMask`), which all calls share and which hold `MaskSize` cells.
   */
  class Tesselator {
    const colors: array<int>
    const invColors: array<int>
    const mask: array<bool>
    const invMask: array<bool>

    ghost predicate Valid() {
      && colors.Length == invColors.Length == MaskSize
      && mask.Length == invMask.Length == MaskSize
      && colors != invColors && mask != invMask
    }

    constructor ()
      ensures Valid()
      ensures fresh(colors) && fresh(invColors) && fresh(mask) && fresh(invMask)
    {
      colors := new int[MaskSize](_ => 0);
      invColors := new int[MaskSize](_ => 0);
      mask := new bool[MaskSize](_ => false);
      invMask := new bool[MaskSize](_ => false);
    }

    /** Fills the forward and backward masks of the plane between layers `xd` and
        `xd + 1` of axis `d` with the face rule. */
    method ComputeMask(voxels: seq<int>, dims: seq<nat>, d: Axis, xd: int,
                       transparent: int -> bool, translucent: int -> bool)
      requires Valid() && |dims| == 3 && |voxels| == dims[0] * dims[1] * dims[2]
      requires -1 <= xd < dims[d] && MaskFits(dims, d)
      modifies colors, invColors, mask, invMask
      ensures MaskFilled(colors[..], invColors[..], mask[..], invMask[..], voxels, dims, d, xd,
                         transparent, translucent, 0, dims[VAxis(d)])
    {
      var dimsV := dims[VAxis(d)];
      for iv := 0 to dimsV
        invariant MaskFilled(colors[..], invColors[..], mask[..], invMask[..], voxels, dims, d, xd,
                             transparent, translucent, 0, iv)
      {
        ComputeMaskRow(voxels, dims, d, xd, transparent, translucent, iv);
      }
    }

    /** Row `iv` of the mask loop: `n` runs over the row's offsets as `iu` runs
        over the row. */
    method ComputeMaskRow(voxels: seq<int>, dims: seq<nat>, d: Axis, xd: int,
                          transparent: int -> bool, translucent: int -> bool, iv: nat)
      requires Valid() && |dims| == 3 && |voxels| == dims[0] * dims[1] * dims[2]
      requires -1 <= xd < dims[d] && MaskFits(dims, d) && iv < dims[VAxis(d)]
      requires MaskFilled(colors[..], invColors[..], mask[..], invMask[..], voxels, dims, d, xd,
                          transparent, translucent, 0, iv)
      modifies colors, invColors, mask, invMask
      ensures MaskFilled(colors[..], invColors[..], mask[..], invMask[..], voxels, dims, d, xd,
                         transparent, translucent, 0, iv + 1)
    {
      var dimsU, dimsV := dims[UAxis(d)], dims[VAxis(d)];
      var n := iv * dimsU;
      for iu := 0 to dimsU
        invariant n == iu + iv * dimsU
        invariant MaskFilled(colors[..], invColors[..], mask[..], invMask[..], voxels, dims, d, xd,
                             transparent, translucent, iu, iv)
      {
        assert n == Idx(dimsU, dimsV, iu, iv);
        var x := Place(d, xd, iu, iv);
        var y := Place(d, xd + 1, iu, iv);
        PlaceInGrid(dims, d, xd, iu, iv);
        PlaceInGrid(dims, d, xd + 1, iu, iv);
        var a := if xd >= 0 then voxels[VoxelIndex(dims, x)] else 0;
        var b := if xd + 1 < dims[d] then voxels[VoxelIndex(dims, y)] else 0;
        var f := Face(a, b, transparent, translucent);
        assert f == FaceAt(voxels, dims, d, xd, iu, iv, transparent, translucent);
        ghost var c0, ic0, m0, im0 := colors[..], invColors[..], mask[..], invMask[..];
        colors[n] := ToUint32(f.a);
        invColors[n] := ToUint32(f.b);
        mask[n] := f.aMask;
        invMask[n] := f.bMask;
        assert colors[..] == c0[n := ToUint32(f.a)] && invColors[..] == ic0[n := ToUint32(f.b)];
        assert mask[..] == m0[n := f.aMask] && invMask[..] == im0[n := f.bMask];
        MaskFilledStep(c0, ic0, m0, im0, colors[..], invColors[..], mask[..], invMask[..],
                       voxels, dims, d, xd, transparent, translucent, iu, iv);
        n := n + 1;
      }
    }

    /** One plane of the sweep: fills both masks and merges each into rectangles. */
    method BuildLayer(voxels: seq<int>, dims: seq<nat>, d: Axis, xd: int,
                      transparent: int -> bool, translucent: int -> bool)
      returns (fwd: seq<Rect>, bwd: seq<Rect>, ghost layer: Layer)
      requires Valid() && |dims| == 3 && |voxels| == dims[0] * dims[1] * dims[2]
      requires -1 <= xd < dims[d] && MaskFits(dims, d)
      modifies colors, invColors, mask, invMask
      ensures layer.d == d && layer.k == xd && layer.fwd == fwd && layer.bwd == bwd
      ensures LayerOk(voxels, dims, transparent, translucent, layer)
    {
      var dimsU, dimsV := dims[UAxis(d)], dims[VAxis(d)];
      ComputeMask(voxels, dims, d, xd, transparent, translucent);
      ghost var c0, m0, ic0, im0 := colors[..], mask[..], invColors[..], invMask[..];
      fwd := GenerateMesh(colors, mask, dimsU, dimsV);
      assert invColors[..] == ic0 && invMask[..] == im0;
      bwd := GenerateMesh(invColors, invMask, dimsU, dimsV);
      layer := Layer(d, xd, c0, m0, fwd, ic0, im0, bwd);
    }


    /** One plane of the sweep: fills both masks, merges each into rectangles and
        emits the forward quads wound clockwise, then the backward ones. */
    method ProcessLayer(voxels: seq<int>, dims: seq<nat>, d: Axis, xd: int,
                        transparent: int -> bool, translucent: int -> bool,
                        out: Output, ghost emitted: seq<Quad>)
      returns (ok: bool, out': Output, ghost layer: Layer)
      requires Valid() && |dims| == 3 && |voxels| == dims[0] * dims[1] * dims[2]
      requires -1 <= xd < dims[d] && MaskFits(dims, d)
      requires out == Collect(emitted) && Fits(emitted)
      modifies colors, invColors, mask, invMask
      ensures layer.d == d && layer.k == xd && LayerOk(voxels, dims, transparent, translucent, layer)
      ensures ok == Fits(emitted + LayerQuads(layer))
      ensures ok ==> out' == Collect(emitted + LayerQuads(layer))
    {
      var fwd, bwd;
      fwd, bwd, layer := BuildLayer(voxels, dims, d, xd, transparent, translucent);
      var plane := xd + 1;
      var quads := QuadsOf(d, plane, fwd, true) + QuadsOf(d, plane, bwd, false);
      assert quads == LayerQuads(layer);
      PushAllCollect(emitted, quads);
      var pushed := PushAll(out, quads);
      match pushed {
        case Some(o) => ok, out' := true, o;
        case None => ok, out' := false, out;
      }
    }

    /** The planes of axis `d`, from the one before the grid to the one after it.
        Stops at the first plane whose quads do not fit the buffers. */
    method SweepAxis(voxels: seq<int>, dims: seq<nat>, d: Axis,
                     transparent: int -> bool, translucent: int -> bool,
                     out: Output, ghost layers: seq<Layer>)
      returns (ok: bool, out': Output, ghost layers': seq<Layer>)
      requires Valid() && |dims| == 3 && |voxels| == dims[0] * dims[1] * dims[2] && MaskFits(dims, d)
      requires LayersOk(voxels, dims, transparent, translucent, layers)
      requires out == Collect(Emit(layers)) && Fits(Emit(layers))
      modifies colors, invColors, mask, invMask
      ensures LayersOk(voxels, dims, transparent, translucent, layers')
      ensures |layers| < |layers'| <= |layers| + dims[d] + 1
      ensures layers' == layers + layers'[|layers|..] && AxisLayers(layers'[|layers|..], d)
      ensures ok == Fits(Emit(layers'))
      ensures ok ==> |layers'| == |layers| + dims[d] + 1 && out' == Collect(Emit(layers'))
    {
      out' := out;
      layers' := layers;
      ghost var emitted := Emit(layers);
      ghost var added := [];
      var xd: int := -1;
      while xd < dims[d]
        invariant -1 <= xd <= dims[d] && |layers'| == |layers| + xd + 1
        invariant LayersOk(voxels, dims, transparent, translucent, layers')
        invariant layers' == layers + added && AxisLayers(added, d) && |added| == xd + 1
        invariant emitted == Emit(layers')
        invariant out' == Collect(emitted) && Fits(emitted)
      {
        ghost var layer;
        ok, out', layer := ProcessLayer(voxels, dims, d, xd, transparent, translucent, out', emitted);
        EmitSnoc(layers', layer);
        ConcatAssoc(layers, added, [layer]);
        AxisLayersSnoc(added, d, layer);
        LayersOkSnoc(voxels, dims, transparent, translucent, layers', layer);
        layers' := layers' + [layer];
        added := added + [layer];
        emitted := emitted + LayerQuads(layer);
        if !ok {
          return;
        }
        xd := xd + 1;
      }
      ok := true;
    }

    /** One round of `getMeshData`'s loop over the axes: checks that the planes of
        axis `d` fit the mask buffers, then sweeps them. */
    method SweepChecked(voxels: seq<int>, dims: seq<nat>, d: Axis,
                        transparent: int -> bool, translucent: int -> bool,
                        out: Output, ghost layers: seq<Layer>)
      returns (error: Option<MeshError>, out': Output, ghost layers': seq<Layer>)
      requires Valid() && |dims| == 3 && |voxels| == dims[0] * dims[1] * dims[2]
      requires LayersOk(voxels, dims, transparent, translucent, layers)
      requires LayerKeys(layers) == SweepBefore(dims, d)
      requires out == Collect(Emit(layers)) && Fits(Emit(layers))
      modifies colors, invColors, mask, invMask
      ensures LayersOk(voxels, dims, transparent, translucent, layers')
      ensures LayerKeys(layers') <= Sweep(dims)
      ensures error == None ==>
        && MaskFits(dims, d)
        && LayerKeys(layers') == SweepBefore(dims, d + 1)
        && Fits(Emit(layers')) && out' == Collect(Emit(layers'))
      ensures error == Some(MaskBufferTooSmall) ==> !MaskFits(dims, d) && layers' == layers
      ensures error == Some(VertexBufferFull) ==> !Fits(Emit(layers'))
      ensures error == None || error == Some(MaskBufferTooSmall) || error == Some(VertexBufferFull)
    {
      SweepBeforeGrows(dims, d, 3);
      if !MaskFits(dims, d) {
        return Some(MaskBufferTooSmall), out, layers;
      }
      var ok;
      ok, out', layers' := SweepAxis(voxels, dims, d, transparent, translucent, out, layers);
      SweepAxisKeys(dims, d, layers, layers'[|layers|..]);
      if !ok {
        return Some(VertexBufferFull), out', layers';
      }
      error := None;
    }

    /** The loop of `getMeshData` over the three axes. Stops at the first axis whose
        planes do not fit the mask buffers, or whose quads do not fit a vertex buffer. */
    method SweepAxes(voxels: seq<int>, dims: seq<nat>, transparent: int -> bool, translucent: int -> bool)
      returns (error: Option<MeshError>, out: Output, ghost layers: seq<Layer>)
      requires Valid() && |dims| == 3 && |voxels| == dims[0] * dims[1] * dims[2]
      modifies colors, invColors, mask, invMask
      ensures LayersOk(voxels, dims, transparent, translucent, layers)
      ensures LayerKeys(layers) <= Sweep(dims)
      ensures error == None ==>
        && LayerKeys(layers) == Sweep(dims) && AxesFit(dims, 3)
        && Fits(Emit(layers)) && out == Collect(Emit(layers))
      ensures error == Some(MaskBufferTooSmall) ==>
        && Fits(Emit(layers))
        && exists d: Axis :: AxesFit(dims, d) && !MaskFits(dims, d) && LayerKeys(layers) == SweepBefore(dims, d)
      ensures error == Some(VertexBufferFull) ==> !Fits(Emit(layers))
      ensures error == None || error == Some(MaskBufferTooSmall) || error == Some(VertexBufferFull)
    {
      out := Output([], [], [], []);
      layers := [];
      for d := 0 to 3
        invariant LayersOk(voxels, dims, transparent, translucent, layers)
        invariant LayerKeys(layers) == SweepBefore(dims, d)
        invariant AxesFit(dims, d)
        invariant out == Collect(Emit(layers)) && Fits(Emit(layers))
      {
        error, out, layers := SweepChecked(voxels, dims, d, transparent, translucent, out, layers);
        if error.Some? {
          if error == Some(MaskBufferTooSmall) {
            ghost var a: Axis := d;
            assert LayerKeys(layers) == SweepBefore(dims, a);
          }
          return;
        }
      }
      error := None;
    }

    /** `getMeshData`: sweeps the three axes, then appends the transparent buffers
        to the opaque ones. Fails when the planes of an axis do not fit the mask
        buffers, or when the coordinates do not fit a vertex buffer. */
    method GetMeshData(voxels: seq<int>, dims: seq<nat>, transparent: int -> bool, translucent: int -> bool)
      returns (result: Result<Mesh, MeshError>, ghost layers: seq<Layer>)
      requires Valid() && |dims| == 3 && |voxels| == dims[0] * dims[1] * dims[2]
      modifies colors, invColors, mask, invMask
      ensures LayersOk(voxels, dims, transparent, translucent, layers)
      ensures LayerKeys(layers) <= Sweep(dims)
      ensures result.Ok? <==>
        && LayerKeys(layers) == Sweep(dims)
        && AxesFit(dims, 3)
        && 12 * |Emit(layers)| <= NumPositionsChunk
      ensures result.Ok? ==>
        && result.value.vertices == VertexData(Opaque(Emit(layers))) + VertexData(Transparent(Emit(layers)))
        && result.value.faces == FaceData(Opaque(Emit(layers))) + FaceData(Transparent(Emit(layers)))
        && |result.value.vertices| == 12 * |result.value.faces|
      ensures result == Err(MaskBufferTooSmall) ==>
        && Fits(Emit(layers))
        && exists d: Axis :: AxesFit(dims, d) && !MaskFits(dims, d) && LayerKeys(layers) == SweepBefore(dims, d)
      ensures result == Err(VertexBufferFull) ==>
        && 12 * |Emit(layers)| > NumPositionsChunk
        && (Fits(Emit(layers)) ==> LayerKeys(layers) == Sweep(dims))
      ensures result != Err(FaceBufferFull)
    {
      var error, out;
      error, out, layers := SweepAxes(voxels, dims, transparent, translucent);
      if error.Some? {
        if error == Some(MaskBufferTooSmall) {
          ghost var d: Axis :| AxesFit(dims, d) && !MaskFits(dims, d) && LayerKeys(layers) == SweepBefore(dims, d);
          AxesFitPrefix(dims, d + 1, 3);
        } else {
          SplitLength(Emit(layers));
        }
        return Err(error.value), layers;
      }
      JoinCollect(out, Emit(layers));
      result := Join(out);
      if result.Ok? {
        JoinContents(out, Emit(layers));
      }
    }

    /** `tesselate`: the mesh data turned into two triangles per quad and the
        colour of each quad's face at each of its 6 triangle vertices. */
    method Tesselate(voxels: seq<int>, dims: seq<nat>, transparent: int -> bool, translucent: int -> bool)
      returns (result: Result<Geometry, MeshError>, ghost mesh: Result<Mesh, MeshError>, ghost layers: seq<Layer>)
      requires Valid() && |dims| == 3 && |voxels| == dims[0] * dims[1] * dims[2]
      modifies colors, invColors, mask, invMask
      ensures LayersOk(voxels, dims, transparent, translucent, layers)
      ensures mesh.Ok? ==>
        && LayerKeys(layers) == Sweep(dims)
        && mesh.value.vertices == VertexData(Opaque(Emit(layers))) + VertexData(Transparent(Emit(layers)))
        && mesh.value.faces == FaceData(Opaque(Emit(layers))) + FaceData(Transparent(Emit(layers)))
        && |mesh.value.vertices| % 12 == 0
        && result == Ok(Geometry(Triangulate.Triangles(mesh.value.vertices),
                                 Triangulate.FaceColors(mesh.value.faces)))
      ensures mesh.Err? ==> result == Err(mesh.error)
    {
      var meshData;
      meshData, layers := GetMeshData(voxels, dims, transparent, translucent);
      mesh := meshData;
      if meshData.Err? {
        return Err(meshData.error), mesh, layers;
      }
      var verticesData, facesData := meshData.value.vertices, meshData.value.faces;
      ghost var quads := |Opaque(Emit(layers))| + |Transparent(Emit(layers))|;
      DivModUnique(|verticesData|, 12, quads, 0);
      var positions := Triangulate.GetPositions(verticesData);
      var vertexColors := Triangulate.GetColors(facesData);
      result := Ok(Geometry(positions, vertexColors));
    }
  }
}
