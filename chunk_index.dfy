/**
 * The chunk coordinates of create.js's chunk collection. A chunk with coordinates
 * `(a, b, c)` covers the world cells `10a .. 10a + 10` (and likewise on the other
 * axes); neighbouring chunks share their boundary cells. The paint, erase and
 * colour tools pass `w / PARCEL_SIZE` for a whole world cell `w`, and
 * `_findOrAddMeshesByContainCoord` probes `Math.floor(w / 10 + dx * 0.5)` for
 * `dx` in `-1, 0, 1` on each axis. For a whole `w` that is `floor((w + 5 dx) / 10)`:
 * a multiple of 10 over 10 is exact, and no other quotient rounds across an
 * integer.
 */
module ChunkIndex {
  import opened Arith
  import opened PotentialField

  datatype Coord = Coord(x: int, y: int, z: int)

  /** `Math.floor(w / PARCEL_SIZE + d * 0.5)`; Dafny's division by a positive
      number rounds down. */
  function Probe(w: int, d: int): int
  {
    (w + 5 * d) / 10
  }

  /** The two chunk coordinates the probes of one axis yield: the chunk below
      `(w - 5) / 10` and the one after it. */
  predicate IsProbe(w: int, a: int)
  {
    a == Probe(w, -1) || a == Probe(w, -1) + 1
  }

  /** Per axis the three probes give exactly two consecutive coordinates: the
      outer probes are one apart and the middle one equals one of them. */
  lemma ProbeValues(w: int)
    ensures Probe(w, 1) == Probe(w, -1) + 1
    ensures Probe(w, 0) == Probe(w, -1) || Probe(w, 0) == Probe(w, 1)
    ensures forall d :: -1 <= d <= 1 ==> IsProbe(w, Probe(w, d))
  {
    var p := Probe(w, -1);
    var r := (w - 5) % 10;
    assert w - 5 == 10 * p + r;
    DivModUnique(w + 5, 10, p + 1, r);
    if r < 5 {
      DivModUnique(w, 10, p, r + 5);
    } else {
      DivModUnique(w, 10, p + 1, r - 5);
    }
  }

  /** Each of the two coordinates is reached by an outer probe. */
  lemma ProbeWitness(w: int, a: int)
    requires IsProbe(w, a)
    ensures a == Probe(w, -1) || a == Probe(w, 1)
  {
    ProbeValues(w);
  }

  /** The chunks the 27 probes around world cell `(x, y, z)` name. */
  function ProbeSet(x: int, y: int, z: int): set<Coord>
  {
    var a, b, c := Probe(x, -1), Probe(y, -1), Probe(z, -1);
    {Coord(a, b, c), Coord(a, b, c + 1), Coord(a, b + 1, c), Coord(a, b + 1, c + 1),
     Coord(a + 1, b, c), Coord(a + 1, b, c + 1), Coord(a + 1, b + 1, c), Coord(a + 1, b + 1, c + 1)}
  }

  lemma ProbeSetMembers(x: int, y: int, z: int, p: Coord)
    ensures p in ProbeSet(x, y, z) <==> IsProbe(x, p.x) && IsProbe(y, p.y) && IsProbe(z, p.z)
  {
  }

  /** So the probes name exactly 8 chunks. */
  lemma {:induction false} ProbeSetSize(x: int, y: int, z: int)
    ensures |ProbeSet(x, y, z)| == 8
  {
    var a, b, c := Probe(x, -1), Probe(y, -1), Probe(z, -1);
    var low := {Coord(a, b, c), Coord(a, b, c + 1), Coord(a, b + 1, c), Coord(a, b + 1, c + 1)};
    var high := {Coord(a + 1, b, c), Coord(a + 1, b, c + 1), Coord(a + 1, b + 1, c), Coord(a + 1, b + 1, c + 1)};
    assert |{Coord(a, b, c), Coord(a, b, c + 1)}| == 2;
    assert |{Coord(a, b, c), Coord(a, b, c + 1), Coord(a, b + 1, c)}| == 3;
    assert |low| == 4;
    assert |{Coord(a + 1, b, c), Coord(a + 1, b, c + 1)}| == 2;
    assert |{Coord(a + 1, b, c), Coord(a + 1, b, c + 1), Coord(a + 1, b + 1, c)}| == 3;
    assert |high| == 4;
    assert low !! high;
    assert ProbeSet(x, y, z) == low + high;
  }

  /** `_findOrAddVoxelMeshByContainCoord`: `Math.floor(w / PARCEL_SIZE)`. */
  function VoxelProbe(w: int): int
  {
    w / 10
  }

  /** The lattice of chunk coordinate `a` on one axis holds world cell `w` exactly
      when `a` is `floor(w / 10)`, or `w / 10 - 1` on a shared boundary cell. The
      voxel lookup takes the first. */
  lemma VoxelProbeHolds(w: int)
    ensures 0 <= w - 10 * VoxelProbe(w) <= ParcelSize - 1
  {
  }

  /** The brush centred at world cell `w`, with radius `radius`, reaches the
      lattice of chunk coordinate `a` on one axis. */
  predicate AxisReaches(w: int, a: int, radius: int)
  {
    var o := w - a * ParcelSize;
    Meets(-radius, radius, -o, ParcelSize - o)
  }

  /** For a brush of radius up to 4, the probes name every chunk the brush reaches
      on that axis, so paint (which strokes only the probed chunks) reaches every
      chunk it could. */
  lemma ProbesCoverSmallBrush(w: int, a: int, radius: int)
    requires radius <= 4 && AxisReaches(w, a, radius)
    ensures IsProbe(w, a)
  {
    var p := Probe(w, -1);
    assert 10 * p <= w - 5 < 10 * p + 10;
  }

  /** From radius 5 on, the brush can reach a chunk the probes do not name: at
      world cell 5 the brush of radius 5 reaches chunk -1 (whose lattice ends at
      cell 0), while the probes name chunks 0 and 1. */
  lemma LargeBrushOutreachesProbes()
    ensures AxisReaches(5, -1, 5) && !IsProbe(5, -1)
  {
    assert Probe(5, -1) == 0;
  }
}
