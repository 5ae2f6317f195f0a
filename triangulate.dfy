/**
 * The last two stages of the voxel mesher (create.js, `getPositions` and
 * `getColors`): every quad of 4 vertices (12 coordinates) becomes two triangles
 * (6 vertices, 18 coordinates), and every packed face value becomes the RGB colour
 * of the 6 triangle vertices of its quad.
 */
module Triangulate {
  import opened Arith

  /** The triangle with corners `a`, `b` and `c` of quad `q`, 3 coordinates per corner. */
  function Triangle(q: seq<int>, a: nat, b: nat, c: nat): (t: seq<int>)
    requires |q| == 12 && a < 4 && b < 4 && c < 4
    ensures |t| == 9
  {
    [q[3 * a], q[3 * a + 1], q[3 * a + 2],
     q[3 * b], q[3 * b + 1], q[3 * b + 2],
     q[3 * c], q[3 * c + 1], q[3 * c + 2]]
  }

  /** The two triangles of one quad `v0 v1 v2 v3`: `(v0, v1, v3)` and `(v1, v2, v3)`,
      which share the diagonal `v1 v3`. */
  function QuadTriangles(q: seq<int>): (t: seq<int>)
    requires |q| == 12
    ensures |t| == 18
  {
    Triangle(q, 0, 1, 3) + Triangle(q, 1, 2, 3)
  }

  /** The quad read back from its two triangles: `v0 v1` and `v3` from the first
      triangle, `v2` from the second. */
  function TrianglesQuad(t: seq<int>): (q: seq<int>)
    requires |t| == 18
    ensures |q| == 12
  {
    [t[0], t[1], t[2],  t[3], t[4], t[5],  t[12], t[13], t[14],  t[6], t[7], t[8]]
  }

  /** The triangle list of a vertex list of quads. */
  function Triangles(vs: seq<int>): (ps: seq<int>)
    requires |vs| % 12 == 0
    ensures 2 * |ps| == 3 * |vs|
    decreases |vs|
  {
    if vs == [] then [] else QuadTriangles(vs[..12]) + Triangles(vs[12..])
  }

  /** The quad list read back from a triangle list. */
  function Quads(ps: seq<int>): (vs: seq<int>)
    requires |ps| % 18 == 0
    ensures 3 * |vs| == 2 * |ps|
    decreases |ps|
  {
    if ps == [] then [] else TrianglesQuad(ps[..18]) + Quads(ps[18..])
  }

  lemma {:induction false} TrianglesSnoc(vs: seq<int>, q: seq<int>)
    requires |vs| % 12 == 0 && |q| == 12
    ensures Triangles(vs + q) == Triangles(vs) + QuadTriangles(q)
    decreases |vs|
  {
    if vs == [] {
      assert (vs + q)[..12] == q && (vs + q)[12..] == [];
    } else {
      var head, tail := vs[..12], vs[12..];
      DivModUnique(|tail|, 12, |vs| / 12 - 1, 0);
      DivModUnique(|tail + q|, 12, |vs| / 12, 0);
      TrianglesSnoc(tail, q);
      assert (vs + q)[..12] == head;
      assert (vs + q)[12..] == tail + q;
      ghost var a, b, c := QuadTriangles(head), Triangles(tail), QuadTriangles(q);
      assert Triangles(vs + q) == a + (b + c);
    }
  }

  /** Triangulating loses nothing: the quads can be read back from the triangles. */
  lemma {:induction false} QuadsOfTriangles(vs: seq<int>)
    requires |vs| % 12 == 0
    ensures Quads(Triangles(vs)) == vs
    decreases |vs|
  {
    if vs != [] {
      var ts := Triangles(vs);
      QuadsOfTriangles(vs[12..]);
      assert ts[..18] == QuadTriangles(vs[..12]);
      assert ts[18..] == Triangles(vs[12..]);
      assert TrianglesQuad(QuadTriangles(vs[..12])) == vs[..12];
      assert vs == vs[..12] + vs[12..];
    }
  }

  /** `getPositions`: fills a fresh buffer of 18 values per quad with the two
      triangles of each quad. The vertex data always holds whole quads. */
  method GetPositions(verticesData: seq<int>) returns (positions: seq<int>)
    requires |verticesData| % 12 == 0
    ensures positions == Triangles(verticesData)
  {
    var numFaces := |verticesData| / 12;
    assert |verticesData| == 12 * numFaces;
    var result := new int[numFaces * 18];
    for i := 0 to numFaces
      invariant |verticesData[..12 * i]| % 12 == 0
      invariant result[..18 * i] == Triangles(verticesData[..12 * i])
    {
      var faceVertices := verticesData[i * 12 .. (i + 1) * 12];
      ghost var pre, done := verticesData[..12 * i], result[..18 * i];
      DivModUnique(12 * (i + 1), 12, i + 1, 0);
      WriteQuadTriangles(result, i, faceVertices);
      assert result[..18 * i] == done;
      assert result[..18 * (i + 1)] == done + QuadTriangles(faceVertices);
      assert verticesData[..12 * (i + 1)] == pre + faceVertices;
      TrianglesSnoc(pre, faceVertices);
    }
    assert verticesData[..12 * numFaces] == verticesData;
    positions := result[..];
    assert positions == result[..18 * numFaces];
  }

  /** The body of `getPositions`' loop: the triangles `abd` and `bcd` of quad `i`. */
  method WriteQuadTriangles(result: array<int>, i: nat, faceVertices: seq<int>)
    requires |faceVertices| == 12 && 18 * i + 18 <= result.Length
    modifies result
    ensures result[18 * i .. 18 * i + 18] == QuadTriangles(faceVertices)
    ensures result[..18 * i] == old(result[..18 * i])
    ensures result[18 * i + 18 ..] == old(result[18 * i + 18 ..])
  {
    // abd
    WriteTriangle(result, i * 18, faceVertices, 0, 1, 3);
    // bcd
    WriteTriangle(result, i * 18 + 9, faceVertices, 1, 2, 3);
    assert result[18 * i .. 18 * i + 18] == result[18 * i .. 18 * i + 9] + result[18 * i + 9 .. 18 * i + 18];
  }

  /** Copies corners `a`, `b` and `c` of a quad to the 9 values from `at` on. */
  method WriteTriangle(result: array<int>, at: nat, faceVertices: seq<int>, a: nat, b: nat, c: nat)
    requires |faceVertices| == 12 && a < 4 && b < 4 && c < 4 && at + 9 <= result.Length
    modifies result
    ensures result[at .. at + 9] == Triangle(faceVertices, a, b, c)
    ensures result[..at] == old(result[..at])
    ensures result[at + 9 ..] == old(result[at + 9 ..])
  {
    result[at + 0] := faceVertices[a * 3 + 0];
    result[at + 1] := faceVertices[a * 3 + 1];
    result[at + 2] := faceVertices[a * 3 + 2];
    result[at + 3] := faceVertices[b * 3 + 0];
    result[at + 4] := faceVertices[b * 3 + 1];
    result[at + 5] := faceVertices[b * 3 + 2];
    result[at + 6] := faceVertices[c * 3 + 0];
    result[at + 7] := faceVertices[c * 3 + 1];
    result[at + 8] := faceVertices[c * 3 + 2];
  }

  /** The colour of a vertex of a face: bits 16 to 23, 8 to 15 and 0 to 7 of the face
      value, as fractions of 255. For an unsigned 32-bit face value, `(face >> s) & 0xFF`
      is `(face / 2^s) % 256`. */
  function FaceRgb(face: int): (rgb: seq<real>)
    ensures |rgb| == 3
    ensures forall c :: 0 <= c < 3 ==> 0.0 <= rgb[c] <= 1.0
  {
    [((face / 0x1_0000) % 0x100) as real / 255.0,
     ((face / 0x100) % 0x100) as real / 255.0,
     (face % 0x100) as real / 255.0]
  }

  /** The colour of face `face` repeated for the 6 vertices of its two triangles. */
  function QuadColors(face: int): (cs: seq<real>)
    ensures |cs| == 18
  {
    var rgb := FaceRgb(face);
    seq(18, m requires 0 <= m < 18 => rgb[m % 3])
  }

  /** The colour list of a face list. */
  function FaceColors(faces: seq<int>): (cs: seq<real>)
    ensures |cs| == 18 * |faces|
  {
    if faces == [] then [] else QuadColors(faces[0]) + FaceColors(faces[1..])
  }

  lemma {:induction false} FaceColorsSnoc(faces: seq<int>, face: int)
    ensures FaceColors(faces + [face]) == FaceColors(faces) + QuadColors(face)
  {
    if faces == [] {
      assert (faces + [face])[1..] == [];
    } else {
      FaceColorsSnoc(faces[1..], face);
      assert (faces + [face])[1..] == faces[1..] + [face];
    }
  }

  /** All 6 vertices of quad `i` carry the colour unpacked from face `i`. */
  lemma {:induction false} FaceColorsAt(faces: seq<int>, i: nat, m: nat)
    requires i < |faces| && m < 18
    ensures FaceColors(faces)[18 * i + m] == FaceRgb(faces[i])[m % 3]
  {
    if i > 0 {
      FaceColorsAt(faces[1..], i - 1, m);
      assert FaceColors(faces)[18..] == FaceColors(faces[1..]);
    }
  }

  /** Packing the bytes `r g b` below a high byte, as `high << 24 | r << 16 | g << 8 | b`,
      and unpacking them with `FaceRgb` gives the bytes back, as fractions of 255. */
  lemma PackedColorRoundTrip(high: nat, r: nat, g: nat, b: nat)
    requires r < 256 && g < 256 && b < 256
    ensures FaceRgb(high * 0x100_0000 + r * 0x1_0000 + g * 0x100 + b) ==
      [r as real / 255.0, g as real / 255.0, b as real / 255.0]
  {
    var face := high * 0x100_0000 + r * 0x1_0000 + g * 0x100 + b;
    DivModUnique(face, 0x1_0000, high * 0x100 + r, g * 0x100 + b);
    DivModUnique(high * 0x100 + r, 0x100, high, r);
    DivModUnique(face, 0x100, high * 0x1_0000 + r * 0x100 + g, b);
    DivModUnique(high * 0x1_0000 + r * 0x100 + g, 0x100, high * 0x100 + r, g);
  }

  /** `getColors`: fills a fresh buffer with the colour of each face, repeated for
      the 6 vertices of the face's two triangles. */
  method GetColors(faces: seq<int>) returns (colors: seq<real>)
    ensures colors == FaceColors(faces)
  {
    var numFaces := |faces|;
    var result := new real[numFaces * 18];
    for i := 0 to numFaces
      invariant result[..18 * i] == FaceColors(faces[..i])
    {
      var face := faces[i];
      ghost var done := result[..18 * i];
      WriteQuadColors(result, i, face);
      assert result[..18 * i] == done;
      assert result[..18 * (i + 1)] == result[..18 * i] + result[18 * i .. 18 * (i + 1)];
      assert faces[..i + 1] == faces[..i] + [face];
      FaceColorsSnoc(faces[..i], face);
    }
    assert faces[..numFaces] == faces;
    colors := result[..];
    assert colors == result[..18 * numFaces];
  }

  /** The body of `getColors`' loop: the colour of face value `face` at each of the
      6 vertices of quad `i`. */
  method WriteQuadColors(result: array<real>, i: nat, face: int)
    requires 18 * i + 18 <= result.Length
    modifies result
    ensures result[18 * i .. 18 * i + 18] == QuadColors(face)
    ensures result[..18 * i] == old(result[..18 * i])
    ensures result[18 * i + 18 ..] == old(result[18 * i + 18 ..])
  {
    var r := ((face / 0x1_0000) % 0x100) as real / 255.0;
    var g := ((face / 0x100) % 0x100) as real / 255.0;
    var b := (face % 0x100) as real / 255.0;
    ghost var rgb := FaceRgb(face);
    ghost var base := 18 * i;
    for j := 0 to 6
      invariant result[..base] == old(result[..base])
      invariant result[base + 18 ..] == old(result[base + 18 ..])
      invariant forall m :: base <= m < base + 3 * j ==> result[m] == rgb[(m - base) % 3]
    {
      result[i * 18 + j * 3 + 0] := r;
      result[i * 18 + j * 3 + 1] := g;
      result[i * 18 + j * 3 + 2] := b;
    }
    assert result[base .. base + 18] == QuadColors(face);
  }
}
