/**
 * One mining chunk of create.js (`_makeMiningMesh`): an 11 x 11 x 11 lattice of
 * potential values, filled with 10, and 3 colour bytes per lattice point. The
 * brush `set` digs (paint: the potential drops to at most `-d`) or fills (erase:
 * it rises to at least `d`) every lattice point within the brush cube, and paint
 * then stamps the current colour; `color` only stamps. `refresh` hands a dirty
 * chunk to the marching worker and clears the dirty flag.
 */
module PotentialField {
  import opened Arith
  import opened Wrappers

  /** `PARCEL_SIZE`: a chunk spans 10 cells, so 11 lattice points, per axis. */
  const ParcelSize := 10
  /** `size = PARCEL_SIZE + 1`. */
  const Size := 11
  /** `size * size * size`. */
  const Cells := 1331
  /** Three colour bytes per lattice point. */
  const BrushBytes := 3993
  /** `potentialFillValue`. */
  const FillValue := 10.0

  type Byte = b: int | 0 <= b < 256

  /** The brush colour, as the three bytes written into `brush`. */
  datatype Rgb = Rgb(r: Byte, g: Byte, b: Byte)

  function Channel(c: Rgb, k: int): Byte
  {
    if k == 0 then c.r else if k == 1 then c.g else c.b
  }

  /** The lattice index `ax + ay*size*size + az*size` of point `c`. */
  function Index(c: Point): int
  {
    c.x + c.y * 121 + c.z * 11
  }

  /** A lattice point, in local coordinates. */
  datatype Point = Point(x: int, y: int, z: int)

  predicate InLattice(c: Point)
  {
    0 <= c.x <= ParcelSize && 0 <= c.y <= ParcelSize && 0 <= c.z <= ParcelSize
  }

  /** The point after `c` in index order: `x` runs fastest, then `z`, then `y`. */
  function Next(c: Point): Point
  {
    if c.x < ParcelSize then Point(c.x + 1, c.y, c.z)
    else if c.z < ParcelSize then Point(0, c.y, c.z + 1)
    else Point(0, c.y + 1, 0)
  }

  /** The lattice point of index `i`. */
  function Cell(i: nat): Point
  {
    if i == 0 then Point(0, 0, 0) else Next(Cell(i - 1))
  }

  /** Every lattice point has an index of the potential array, and its three colour
      bytes are inside the brush array. */
  lemma IndexBounds(c: Point)
    requires InLattice(c)
    ensures 0 <= Index(c) < Cells
    ensures 0 <= 3 * Index(c) && 3 * Index(c) + 2 < BrushBytes
  {
  }

  /** Distinct lattice points have distinct indices. */
  lemma IndexInjective(a: Point, b: Point)
    requires InLattice(a) && InLattice(b) && Index(a) == Index(b)
    ensures a == b
  {
    var i := Index(a);
    DivModUnique(i, 11, a.z + a.y * 11, a.x);
    DivModUnique(i, 11, b.z + b.y * 11, b.x);
    DivModUnique(a.z + a.y * 11, 11, a.y, a.z);
    DivModUnique(b.z + b.y * 11, 11, b.y, b.z);
  }

  /** Every index of the potential array is the index of one lattice point. */
  lemma {:induction false} CellIndex(i: nat)
    requires i < Cells
    ensures InLattice(Cell(i)) && Index(Cell(i)) == i
  {
    if i > 0 {
      CellIndex(i - 1);
    }
  }

  /** The lattice point can be read back from its index. */
  lemma IndexDecode(c: Point)
    requires InLattice(c)
    ensures Cell(Index(c)) == c
  {
    CellIndex(Index(c));
    IndexInjective(Cell(Index(c)), c);
  }

  /** The offset of point `c` from the brush centre `o`, and back. */
  function Minus(c: Point, o: Point): Point
  {
    Point(c.x - o.x, c.y - o.y, c.z - o.z)
  }

  function Plus(o: Point, d: Point): Point
  {
    Point(o.x + d.x, o.y + d.y, o.z + d.z)
  }

  /** A box of brush offsets `x0..x1` by `y0..y1` by `z0..z1`, bounds included. */
  datatype Box = Box(x0: int, x1: int, y0: int, y1: int, z0: int, z1: int)

  predicate InBox(b: Box, d: Point)
  {
    b.x0 <= d.x <= b.x1 && b.y0 <= d.y <= b.y1 && b.z0 <= d.z <= b.z1
  }

  /** The offsets `-ceil(brushSize) .. ceil(brushSize)` on every axis. */
  function Cube(radius: int): Box
  {
    Box(-radius, radius, -radius, radius, -radius, radius)
  }

  /** The box of the single offset `d`. */
  function Single(d: Point): Box
  {
    Box(d.x, d.x, d.y, d.y, d.z, d.z)
  }

  /** `b` is `b1` followed by the non-empty `b2` along one axis, the other two ranges
      shared. */
  predicate Adjacent(b1: Box, b2: Box, b: Box)
  {
    || (b1.x1 + 1 == b2.x0 && b.x0 == b1.x0 && b.x1 == b2.x1 && b1.x0 <= b2.x0 <= b2.x1
        && b1.y0 == b2.y0 == b.y0 && b1.y1 == b2.y1 == b.y1
        && b1.z0 == b2.z0 == b.z0 && b1.z1 == b2.z1 == b.z1)
    || (b1.y1 + 1 == b2.y0 && b.y0 == b1.y0 && b.y1 == b2.y1 && b1.y0 <= b2.y0 <= b2.y1
        && b1.x0 == b2.x0 == b.x0 && b1.x1 == b2.x1 == b.x1
        && b1.z0 == b2.z0 == b.z0 && b1.z1 == b2.z1 == b.z1)
    || (b1.z1 + 1 == b2.z0 && b.z0 == b1.z0 && b.z1 == b2.z1 && b1.z0 <= b2.z0 <= b2.z1
        && b1.x0 == b2.x0 == b.x0 && b1.x1 == b2.x1 == b.x1
        && b1.y0 == b2.y0 == b.y0 && b1.y1 == b2.y1 == b.y1)
  }

  /** What one pass over the brush cube does at each point it reaches: the first
      pass of `set` digs (paint) or fills (erase) the potential, the colour pass
      stamps a colour. */
  datatype Tool = Dig(paint: bool) | Stamp(color: Rgb)

  /** `value > 0 ? Math.min(old, -d) : Math.max(old, d)`. */
  function Sculpt(v: real, paint: bool, d: real): real
  {
    if paint then (if v <= -d then v else -d) else (if v >= d then v else d)
  }

  /** The potential and colour contents of a chunk. */
  datatype Field = Field(potential: seq<real>, brush: seq<Byte>)

  predicate FieldOk(f: Field)
  {
    |f.potential| == Cells && |f.brush| == BrushBytes
  }

  /** The brush centred at local point `o` applied at the offsets of box `b`: every
      lattice point whose offset from the centre lies in `b` is updated, every other
      one is kept. `falloff` gives `d` for an offset. */
  function SculptBox(p: seq<real>, o: Point, b: Box, paint: bool, falloff: Point -> real): (q: seq<real>)
    requires |p| == Cells
    ensures |q| == Cells
  {
    seq(Cells, i requires 0 <= i < Cells =>
      var d := Minus(Cell(i), o);
      if InBox(b, d) then Sculpt(p[i], paint, falloff(d)) else p[i])
  }

  /** The colour pass over the offsets of box `b`: byte `j` belongs to lattice
      index `j / 3` and holds channel `j % 3`. */
  function StampBox(s: seq<Byte>, o: Point, b: Box, c: Rgb): (t: seq<Byte>)
    requires |s| == BrushBytes
    ensures |t| == BrushBytes
  {
    seq(BrushBytes, j requires 0 <= j < BrushBytes =>
      if InBox(b, Minus(Cell(j / 3), o)) then Channel(c, j % 3) else s[j])
  }

  function Apply(f: Field, tool: Tool, o: Point, b: Box, falloff: Point -> real): (g: Field)
    requires FieldOk(f)
    ensures FieldOk(g)
  {
    match tool
    case Dig(paint) => Field(SculptBox(f.potential, o, b, paint, falloff), f.brush)
    case Stamp(c) => Field(f.potential, StampBox(f.brush, o, b, c))
  }

  /** Locality: after digging, lattice point `a` holds the dug value when its offset
      from the centre is inside the brush and its old value otherwise. */
  lemma SculptAt(p: seq<real>, o: Point, b: Box, paint: bool, falloff: Point -> real, a: Point)
    requires |p| == Cells && InLattice(a)
    ensures 0 <= Index(a) < Cells
    ensures var i, d := Index(a), Minus(a, o);
      SculptBox(p, o, b, paint, falloff)[i] ==
        if InBox(b, d) then Sculpt(p[i], paint, falloff(d)) else p[i]
  {
    IndexDecode(a);
  }

  /** Locality of the colour pass, channel by channel. */
  lemma StampAt(s: seq<Byte>, o: Point, b: Box, c: Rgb, a: Point, k: int)
    requires |s| == BrushBytes && InLattice(a) && 0 <= k < 3
    ensures 0 <= 3 * Index(a) + k < BrushBytes
    ensures var j := 3 * Index(a) + k;
      StampBox(s, o, b, c)[j] == if InBox(b, Minus(a, o)) then Channel(c, k) else s[j]
  {
    var i := Index(a);
    var j := 3 * i + k;
    IndexDecode(a);
    DivModUnique(j, 3, i, k);
    assert Cell(j / 3) == a;
  }

  /** Paint never raises the potential and leaves every point it reaches at most
      `-d`; erase never lowers it and leaves every point it reaches at least `d`. */
  lemma SculptMonotone(p: seq<real>, o: Point, b: Box, paint: bool, falloff: Point -> real, i: int)
    requires |p| == Cells && 0 <= i < Cells
    ensures var q, d := SculptBox(p, o, b, paint, falloff), Minus(Cell(i), o);
      && (paint ==> q[i] <= p[i] && (InBox(b, d) ==> q[i] <= -falloff(d)))
      && (!paint ==> q[i] >= p[i] && (InBox(b, d) ==> q[i] >= falloff(d)))
  {
    var d := Minus(Cell(i), o);
    assert SculptBox(p, o, b, paint, falloff)[i] == if InBox(b, d) then Sculpt(p[i], paint, falloff(d)) else p[i];
  }

  /** Repeating an identical stroke changes nothing further. */
  lemma {:induction false} ApplyIdempotent(f: Field, tool: Tool, o: Point, b: Box, falloff: Point -> real)
    requires FieldOk(f)
    ensures var g := Apply(f, tool, o, b, falloff);
      Apply(g, tool, o, b, falloff) == g
  {
    var g := Apply(f, tool, o, b, falloff);
    var h := Apply(g, tool, o, b, falloff);
    match tool
    case Dig(paint) =>
      forall i | 0 <= i < Cells
        ensures h.potential[i] == g.potential[i]
      {
        var d := Minus(Cell(i), o);
        if InBox(b, d) {
          assert g.potential[i] == Sculpt(f.potential[i], paint, falloff(d));
          assert h.potential[i] == Sculpt(g.potential[i], paint, falloff(d));
        }
      }
      assert h.potential == g.potential;
    case Stamp(c) =>
      forall j | 0 <= j < BrushBytes
        ensures h.brush[j] == g.brush[j]
      {
      }
      assert h.brush == g.brush;
  }

  /** The colour pass never touches the potential, and the dig pass never touches
      the colours. */
  lemma ApplyFrame(f: Field, tool: Tool, o: Point, b: Box, falloff: Point -> real)
    requires FieldOk(f)
    ensures tool.Stamp? ==> Apply(f, tool, o, b, falloff).potential == f.potential
    ensures tool.Dig? ==> Apply(f, tool, o, b, falloff).brush == f.brush
  {
  }

  /** A box with an empty range changes nothing. */
  lemma {:induction false} ApplyEmpty(f: Field, tool: Tool, o: Point, b: Box, falloff: Point -> real)
    requires FieldOk(f)
    requires b.x1 < b.x0 || b.y1 < b.y0 || b.z1 < b.z0
    ensures Apply(f, tool, o, b, falloff) == f
  {
    var g := Apply(f, tool, o, b, falloff);
    forall i | 0 <= i < Cells
      ensures g.potential[i] == f.potential[i]
    {
      assert !InBox(b, Minus(Cell(i), o));
    }
    forall j | 0 <= j < BrushBytes
      ensures g.brush[j] == f.brush[j]
    {
      assert !InBox(b, Minus(Cell(j / 3), o));
    }
    assert g.potential == f.potential;
    assert g.brush == f.brush;
  }

  /** Two passes over adjacent boxes are one pass over their union. */
  lemma {:induction false} ApplyJoin(f: Field, tool: Tool, o: Point, b1: Box, b2: Box, b: Box,
                                     falloff: Point -> real)
    requires FieldOk(f) && Adjacent(b1, b2, b)
    ensures Apply(Apply(f, tool, o, b1, falloff), tool, o, b2, falloff) == Apply(f, tool, o, b, falloff)
  {
    var g1 := Apply(f, tool, o, b1, falloff);
    var g := Apply(g1, tool, o, b2, falloff);
    var h := Apply(f, tool, o, b, falloff);
    forall i | 0 <= i < Cells
      ensures g.potential[i] == h.potential[i]
    {
      var d := Minus(Cell(i), o);
      assert InBox(b, d) <==> InBox(b1, d) || InBox(b2, d);
      assert !(InBox(b1, d) && InBox(b2, d));
    }
    forall j | 0 <= j < BrushBytes
      ensures g.brush[j] == h.brush[j]
    {
      var d := Minus(Cell(j / 3), o);
      assert InBox(b, d) <==> InBox(b1, d) || InBox(b2, d);
      assert !(InBox(b1, d) && InBox(b2, d));
    }
    assert g.potential == h.potential;
    assert g.brush == h.brush;
  }

  /** Lattice index `i` is the index of lattice point `a` exactly when `a` is its
      point. */
  lemma AtPoint(i: nat, a: Point)
    requires i < Cells && InLattice(a)
    ensures Cell(i) == a <==> i == Index(a)
  {
    CellIndex(i);
    IndexDecode(a);
  }

  /** One offset that lands in the lattice: digging updates exactly its lattice
      point. */
  lemma {:induction false} DigPoint(f: Field, paint: bool, o: Point, d: Point, falloff: Point -> real)
    requires FieldOk(f) && InLattice(Plus(o, d))
    ensures 0 <= Index(Plus(o, d)) < Cells
    ensures var i := Index(Plus(o, d));
      Apply(f, Dig(paint), o, Single(d), falloff) ==
        Field(f.potential[i := Sculpt(f.potential[i], paint, falloff(d))], f.brush)
  {
    var i := Index(Plus(o, d));
    var q := SculptBox(f.potential, o, Single(d), paint, falloff);
    var p := f.potential[i := Sculpt(f.potential[i], paint, falloff(d))];
    forall n | 0 <= n < Cells
      ensures q[n] == p[n]
    {
      AtPoint(n, Plus(o, d));
      assert InBox(Single(d), Minus(Cell(n), o)) <==> Cell(n) == Plus(o, d);
    }
    assert q == p;
  }

  /** One offset that lands in the lattice: the colour pass writes exactly its three
      colour bytes. */
  lemma {:induction false} StampPoint(f: Field, c: Rgb, o: Point, d: Point, falloff: Point -> real)
    requires FieldOk(f) && InLattice(Plus(o, d))
    ensures 0 <= 3 * Index(Plus(o, d)) && 3 * Index(Plus(o, d)) + 2 < BrushBytes
    ensures var i := Index(Plus(o, d));
      Apply(f, Stamp(c), o, Single(d), falloff) ==
        Field(f.potential, f.brush[3 * i := c.r][3 * i + 1 := c.g][3 * i + 2 := c.b])
  {
    var i := Index(Plus(o, d));
    var t := StampBox(f.brush, o, Single(d), c);
    var s := f.brush[3 * i := c.r][3 * i + 1 := c.g][3 * i + 2 := c.b];
    forall j | 0 <= j < BrushBytes
      ensures t[j] == s[j]
    {
      var n := j / 3;
      AtPoint(n, Plus(o, d));
      assert InBox(Single(d), Minus(Cell(n), o)) <==> Cell(n) == Plus(o, d);
      assert n == i <==> 3 * i <= j < 3 * i + 3;
    }
    assert t == s;
  }

  /** One offset that misses the lattice changes nothing. */
  lemma {:induction false} MissPoint(f: Field, tool: Tool, o: Point, d: Point, falloff: Point -> real)
    requires FieldOk(f) && !InLattice(Plus(o, d))
    ensures Apply(f, tool, o, Single(d), falloff) == f
  {
    var g := Apply(f, tool, o, Single(d), falloff);
    forall n | 0 <= n < Cells
      ensures !InBox(Single(d), Minus(Cell(n), o))
    {
      CellIndex(n);
    }
    assert g.potential == f.potential;
    assert g.brush == f.brush;
  }

  /** The ranges `lo..hi` and `a..b` share an integer. */
  predicate Meets(lo: int, hi: int, a: int, b: int)
  {
    lo <= hi && a <= b && lo <= b && a <= hi
  }

  /** Some offset of the brush cube centred at `o` lands in the lattice, in closed
      form. */
  predicate Hits(o: Point, radius: int)
  {
    && Meets(-radius, radius, -o.x, ParcelSize - o.x)
    && Meets(-radius, radius, -o.y, ParcelSize - o.y)
    && Meets(-radius, radius, -o.z, ParcelSize - o.z)
  }

  /** The closed form is right: the brush reaches some lattice point exactly when
      the cube overlaps the lattice on every axis. */
  lemma HitsIff(o: Point, radius: int)
    ensures Hits(o, radius) <==> exists d :: InBox(Cube(radius), d) && InLattice(Plus(o, d))
  {
    if Hits(o, radius) {
      var d := Point(if -o.x > -radius then -o.x else -radius,
                     if -o.y > -radius then -o.y else -radius,
                     if -o.z > -radius then -o.z else -radius);
      assert InBox(Cube(radius), d) && InLattice(Plus(o, d));
    }
  }

  /** A brush cube that reaches no lattice point changes nothing. */
  lemma ApplyMiss(f: Field, tool: Tool, o: Point, radius: int, falloff: Point -> real)
    requires FieldOk(f) && !Hits(o, radius)
    ensures Apply(f, tool, o, Cube(radius), falloff) == f
  {
    HitsIff(o, radius);
    forall n | 0 <= n < Cells
      ensures !InBox(Cube(radius), Minus(Cell(n), o))
    {
      CellIndex(n);
      assert Plus(o, Minus(Cell(n), o)) == Cell(n);
    }
    var g := Apply(f, tool, o, Cube(radius), falloff);
    assert g.potential == f.potential;
    assert g.brush == f.brush;
  }

  /** A chunk: its coordinates `x, y, z` (the chunk covers world cells
      `10x .. 10x + 10` on the first axis and likewise on the others), its potential
      and colour arrays, and the `dirtyPos` and `visible` flags. */
  class MiningChunk {
    const x: int
    const y: int
    const z: int
    const potential: array<real>
    const brush: array<Byte>
    var dirty: bool
    var visible: bool

    ghost predicate Valid()
    {
      potential.Length == Cells && brush.Length == BrushBytes
    }

    function Contents(): (f: Field)
      reads this, potential, brush
      requires Valid()
      ensures FieldOk(f)
    {
      Field(potential[..], brush[..])
    }

    /** `_makeMiningMesh(x, y, z)`: potential 10 everywhere, colour bytes 0, not
        dirty, not visible. */
    constructor(x: int, y: int, z: int)
      ensures Valid() && fresh(potential) && fresh(brush)
      ensures this.x == x && this.y == y && this.z == z
      ensures potential[..] == seq(Cells, _ => FillValue)
      ensures brush[..] == seq(BrushBytes, _ => 0)
      ensures !dirty && !visible
    {
      this.x, this.y, this.z := x, y, z;
      potential := new real[Cells](_ => FillValue);
      brush := new Byte[BrushBytes](_ => 0);
      dirty, visible := false, false;
    }

    /** The local coordinates of world cell `(wx, wy, wz)`: `x -= mesh.x * PARCEL_SIZE`. */
    function Local(wx: int, wy: int, wz: int): Point
    {
      Point(wx - x * ParcelSize, wy - y * ParcelSize, wz - z * ParcelSize)
    }

    /** `mesh.contains(pos)`: the position lies in the chunk's box from
        `shift = 10 * (x, y, z)` to `shift + size`, the upper bound excluded. */
    predicate Contains(px: real, py: real, pz: real)
    {
      var sx, sy, sz := (x * ParcelSize) as real, (y * ParcelSize) as real, (z * ParcelSize) as real;
      && px >= sx && py >= sy && pz >= sz
      && px < sx + Size as real && py < sy + Size as real && pz < sz + Size as real
    }

    /** A whole world cell is in the chunk's box exactly when its local coordinates
        are a lattice point. */
    lemma ContainsLattice(wx: int, wy: int, wz: int)
      ensures Contains(wx as real, wy as real, wz as real) <==> InLattice(Local(wx, wy, wz))
    {
    }

    /** `mesh.set(value, x, y, z)` with brush radius `Math.ceil(brushSize)`: digs
        (`value > 0`) or fills every lattice point the brush cube reaches, then, for
        `value > 0` only, stamps the current colour at the same points. */
    method Set(value: int, wx: int, wy: int, wz: int, radius: nat, falloff: Point -> real, current: Rgb)
      requires Valid()
      modifies this, potential, brush
      ensures Valid() && visible == old(visible)
      ensures var o, f := Local(wx, wy, wz), old(Contents());
        Contents() ==
          if value > 0 then Apply(Apply(f, Dig(true), o, Cube(radius), falloff), Stamp(current), o, Cube(radius), falloff)
          else Apply(f, Dig(false), o, Cube(radius), falloff)
      ensures dirty == (old(dirty) || Hits(Local(wx, wy, wz), radius))
    {
      var o := Point(wx - x * ParcelSize, wy - y * ParcelSize, wz - z * ParcelSize);
      Stroke(Dig(value > 0), o, radius, falloff);
      if value > 0 {
        Stroke(Stamp(current), o, radius, falloff);
      }
    }

    /** `mesh.paint = mesh.set.bind(mesh, 1)`. */
    method Paint(wx: int, wy: int, wz: int, radius: nat, falloff: Point -> real, current: Rgb)
      requires Valid()
      modifies this, potential, brush
      ensures Valid() && visible == old(visible)
      ensures var o, f := Local(wx, wy, wz), old(Contents());
        Contents() == Apply(Apply(f, Dig(true), o, Cube(radius), falloff), Stamp(current), o, Cube(radius), falloff)
      ensures dirty == (old(dirty) || Hits(Local(wx, wy, wz), radius))
    {
      Set(1, wx, wy, wz, radius, falloff, current);
    }

    /** `mesh.erase = mesh.set.bind(mesh, -1)`: the colours are kept. */
    method Erase(wx: int, wy: int, wz: int, radius: nat, falloff: Point -> real, current: Rgb)
      requires Valid()
      modifies this, potential, brush
      ensures Valid() && visible == old(visible)
      ensures Contents() == Apply(old(Contents()), Dig(false), Local(wx, wy, wz), Cube(radius), falloff)
      ensures brush[..] == old(brush[..])
      ensures dirty == (old(dirty) || Hits(Local(wx, wy, wz), radius))
    {
      Set(-1, wx, wy, wz, radius, falloff, current);
    }

    /** `mesh.color(x, y, z, c)`: stamps the current colour over the brush cube and
        never touches the potential. The argument `c` is not read by the source, so
        it is not a parameter here. */
    method Color(wx: int, wy: int, wz: int, radius: nat, falloff: Point -> real, current: Rgb)
      requires Valid()
      modifies this, potential, brush
      ensures Valid() && visible == old(visible)
      ensures Contents() == Apply(old(Contents()), Stamp(current), Local(wx, wy, wz), Cube(radius), falloff)
      ensures potential[..] == old(potential[..])
      ensures dirty == (old(dirty) || Hits(Local(wx, wy, wz), radius))
    {
      var o := Point(wx - x * ParcelSize, wy - y * ParcelSize, wz - z * ParcelSize);
      Stroke(Stamp(current), o, radius, falloff);
    }

    /** `mesh.refresh()`: a dirty chunk clears its flag and sends its potential and
        colours to the marching worker (the request returned); a clean one sends
        nothing and its install step does nothing. */
    method Refresh() returns (request: Option<Field>)
      requires Valid()
      modifies this
      ensures Valid() && Contents() == old(Contents()) && visible == old(visible)
      ensures !dirty
      ensures request == if old(dirty) then Some(Contents()) else None
    {
      if dirty {
        dirty := false;
        request := Some(Field(potential[..], brush[..]));
      } else {
        request := None;
      }
    }

    /** The install step for a march response: the chunk is visible exactly when
        the response holds positions. */
    method Install(positionCount: nat)
      modifies this
      ensures visible == (positionCount > 0) && dirty == old(dirty)
    {
      if positionCount > 0 {
        visible := true;
      } else {
        visible := false;
      }
    }

    /** One pass of `set` or `color` over the brush cube, in the source's loop order
        `dx`, then `dz`, then `dy`. */
    method Stroke(tool: Tool, o: Point, radius: nat, falloff: Point -> real)
      requires Valid()
      modifies this, potential, brush
      ensures Valid() && visible == old(visible)
      ensures Contents() == Apply(old(Contents()), tool, o, Cube(radius), falloff)
      ensures dirty == (old(dirty) || Hits(o, radius))
    {
      var r: int := radius;
      ghost var f0 := Contents();
      ApplyEmpty(f0, tool, o, Box(-r, -r - 1, -r, r, -r, r), falloff);
      for dx := -r to r + 1
        invariant Valid() && visible == old(visible)
        invariant Contents() == Apply(f0, tool, o, Box(-r, dx - 1, -r, r, -r, r), falloff)
        invariant dirty == (old(dirty) || (Meets(-r, dx - 1, -o.x, ParcelSize - o.x)
                                           && Meets(-r, r, -o.z, ParcelSize - o.z)
                                           && Meets(-r, r, -o.y, ParcelSize - o.y)))
      {
        StrokeSlab(tool, o, radius, dx, falloff);
        ApplyJoin(f0, tool, o, Box(-r, dx - 1, -r, r, -r, r), Box(dx, dx, -r, r, -r, r),
                  Box(-r, dx, -r, r, -r, r), falloff);
      }
    }

    /** The middle loop of a pass, over `dz`, for a fixed `dx`. */
    method StrokeSlab(tool: Tool, o: Point, radius: nat, dx: int, falloff: Point -> real)
      requires Valid()
      modifies this, potential, brush
      ensures Valid() && visible == old(visible)
      ensures var r: int := radius;
        Contents() == Apply(old(Contents()), tool, o, Box(dx, dx, -r, r, -r, r), falloff)
      ensures var r: int := radius;
        dirty == (old(dirty) || (0 <= o.x + dx <= ParcelSize
                                 && Meets(-r, r, -o.z, ParcelSize - o.z)
                                 && Meets(-r, r, -o.y, ParcelSize - o.y)))
    {
      var r: int := radius;
      ghost var f0 := Contents();
      ApplyEmpty(f0, tool, o, Box(dx, dx, -r, r, -r, -r - 1), falloff);
      for dz := -r to r + 1
        invariant Valid() && visible == old(visible)
        invariant Contents() == Apply(f0, tool, o, Box(dx, dx, -r, r, -r, dz - 1), falloff)
        invariant dirty == (old(dirty) || (0 <= o.x + dx <= ParcelSize
                                           && Meets(-r, dz - 1, -o.z, ParcelSize - o.z)
                                           && Meets(-r, r, -o.y, ParcelSize - o.y)))
      {
        StrokeColumn(tool, o, radius, dx, dz, falloff);
        ApplyJoin(f0, tool, o, Box(dx, dx, -r, r, -r, dz - 1), Box(dx, dx, -r, r, dz, dz),
                  Box(dx, dx, -r, r, -r, dz), falloff);
      }
    }

    /** The innermost loop of a pass, over `dy`, for fixed `dx` and `dz`. */
    method StrokeColumn(tool: Tool, o: Point, radius: nat, dx: int, dz: int, falloff: Point -> real)
      requires Valid()
      modifies this, potential, brush
      ensures Valid() && visible == old(visible)
      ensures var r: int := radius;
        Contents() == Apply(old(Contents()), tool, o, Box(dx, dx, -r, r, dz, dz), falloff)
      ensures var r: int := radius;
        dirty == (old(dirty) || (0 <= o.x + dx <= ParcelSize && 0 <= o.z + dz <= ParcelSize
                                 && Meets(-r, r, -o.y, ParcelSize - o.y)))
    {
      var r: int := radius;
      ghost var f0 := Contents();
      ApplyEmpty(f0, tool, o, Box(dx, dx, -r, -r - 1, dz, dz), falloff);
      for dy := -r to r + 1
        invariant Valid() && visible == old(visible)
        invariant Contents() == Apply(f0, tool, o, Box(dx, dx, -r, dy - 1, dz, dz), falloff)
        invariant dirty == (old(dirty) || (0 <= o.x + dx <= ParcelSize && 0 <= o.z + dz <= ParcelSize
                                           && Meets(-r, dy - 1, -o.y, ParcelSize - o.y)))
      {
        StrokePoint(tool, o, Point(dx, dy, dz), falloff);
        ApplyJoin(f0, tool, o, Box(dx, dx, -r, dy - 1, dz, dz), Single(Point(dx, dy, dz)),
                  Box(dx, dx, -r, dy, dz, dz), falloff);
      }
    }

    /** The body of the loops of a pass: the offset `d` from the centre, when it
        lands in the lattice, updates that lattice point and marks the chunk dirty. */
    method StrokePoint(tool: Tool, o: Point, d: Point, falloff: Point -> real)
      requires Valid()
      modifies this, potential, brush
      ensures Valid() && visible == old(visible)
      ensures Contents() == Apply(old(Contents()), tool, o, Single(d), falloff)
      ensures dirty == (old(dirty) || InLattice(Plus(o, d)))
    {
      ghost var f := Contents();
      var ax, ay, az := o.x + d.x, o.y + d.y, o.z + d.z;
      if ax >= 0 && ay >= 0 && az >= 0 && ax <= ParcelSize && ay <= ParcelSize && az <= ParcelSize {
        var index := ax + ay * 121 + az * 11;
        match tool {
          case Dig(paint) =>
            DigPoint(f, paint, o, d, falloff);
            potential[index] := Sculpt(potential[index], paint, falloff(d));
          case Stamp(c) =>
            StampPoint(f, c, o, d, falloff);
            brush[index * 3] := c.r;
            brush[index * 3 + 1] := c.g;
            brush[index * 3 + 2] := c.b;
        }
        dirty := true;
      } else {
        MissPoint(f, tool, o, d, falloff);
      }
    }
  }
}
