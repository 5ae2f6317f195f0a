/**
 * The editor state of create.js around the mining chunks: the chunk collections
 * `miningMeshes` and `voxelMeshes` and their lookups, the dispatch of brush
 * strokes to chunks, the single-flight refresh coordinator (`refreshing`,
 * `refreshQueued`, `refreshCbs`) and the single-flight commit coordinator
 * (`committing`, `commitQueued`). Each `await` of the source is split into a
 * step that starts the awaited work and a step that finishes it.
 */
module Workspace {
  import opened Wrappers
  import opened PotentialField
  import opened ChunkIndex

  function CoordOf(c: MiningChunk): Coord
  {
    Coord(c.x, c.y, c.z)
  }

  /** The position of the first coordinate `p` in `s`. */
  function FindCoord(s: seq<Coord>, p: Coord): (r: Option<nat>)
    ensures r.Some? ==> r.value < |s| && s[r.value] == p && p !in s[..r.value]
    ensures r.None? <==> p !in s
  {
    if s == [] then None
    else if s[0] == p then Some(0)
    else match FindCoord(s[1..], p)
      case Some(i) => (assert s[1..][..i] == s[1..i + 1]; Some(i + 1))
      case None => None
  }

  function Coords(chunks: seq<MiningChunk>): (ps: seq<Coord>)
    ensures |ps| == |chunks|
    ensures forall i :: 0 <= i < |chunks| ==> ps[i] == CoordOf(chunks[i])
  {
    seq(|chunks|, i requires 0 <= i < |chunks| => CoordOf(chunks[i]))
  }

  /** `_findMeshByIndex(miningMeshes)(x, y, z)`: the first chunk with coordinates
      `p`, as its position in the collection. */
  function FindChunk(chunks: seq<MiningChunk>, p: Coord): (r: Option<nat>)
    ensures r.Some? ==> r.value < |chunks| && CoordOf(chunks[r.value]) == p
    ensures r.Some? ==> forall i :: 0 <= i < r.value ==> CoordOf(chunks[i]) != p
    ensures r.None? <==> forall i :: 0 <= i < |chunks| ==> CoordOf(chunks[i]) != p
  {
    var r := FindCoord(Coords(chunks), p);
    if r.Some? then
      assert forall i :: 0 <= i < r.value ==> Coords(chunks)[..r.value][i] == CoordOf(chunks[i]);
      r
    else
      assert forall i :: 0 <= i < |chunks| ==> Coords(chunks)[i] in Coords(chunks);
      r
  }

  /** Appending a chunk keeps every chunk that was found, and finds the new one
      when no chunk had its coordinates. */
  lemma FindChunkAppend(chunks: seq<MiningChunk>, c: MiningChunk, p: Coord)
    ensures FindChunk(chunks + [c], p) ==
      if FindChunk(chunks, p).Some? then FindChunk(chunks, p)
      else if CoordOf(c) == p then Some(|chunks|) else None
  {
    var s := chunks + [c];
    assert forall i :: 0 <= i < |chunks| ==> s[i] == chunks[i];
    assert s[|chunks|] == c;
    var r, r' := FindChunk(chunks, p), FindChunk(s, p);
    if r'.Some? && r'.value < |chunks| {
      assert r == r';
    } else if r'.Some? {
      assert r.None?;
    }
  }

  /** The collection has a chunk with coordinates `p`, and the first one is in
      `result`. */
  predicate Covers(chunks: seq<MiningChunk>, result: seq<MiningChunk>, p: Coord)
  {
    var r := FindChunk(chunks, p);
    r.Some? && chunks[r.value] in result
  }

  predicate NoDuplicates<T(==)>(s: seq<T>)
  {
    forall i, j :: 0 <= i < j < |s| ==> s[i] != s[j]
  }

  /** Distinct coordinates are as many as their set. */
  lemma {:induction false} DistinctCount(s: seq<Coord>)
    requires NoDuplicates(s)
    ensures |set i | 0 <= i < |s| :: s[i]| == |s|
  {
    if s != [] {
      var init := s[..|s| - 1];
      DistinctCount(init);
      var a, b := set i | 0 <= i < |init| :: init[i], set i | 0 <= i < |s| :: s[i];
      assert b == a + {s[|s| - 1]};
      assert s[|s| - 1] !in a;
    }
  }

  /** Chunks have their own arrays and distinct coordinates. */
  predicate Separate(chunks: seq<MiningChunk>)
  {
    forall i, j :: 0 <= i < j < |chunks| ==>
      && chunks[i].potential != chunks[j].potential && chunks[i].brush != chunks[j].brush
      && CoordOf(chunks[i]) != CoordOf(chunks[j])
  }

  lemma SeparateAppend(chunks: seq<MiningChunk>, c: MiningChunk)
    requires Separate(chunks) && FindChunk(chunks, CoordOf(c)).None?
    requires forall i :: 0 <= i < |chunks| ==> chunks[i].potential != c.potential && chunks[i].brush != c.brush
    ensures Separate(chunks + [c])
  {
    var s := chunks + [c];
    forall i, j | 0 <= i < j < |s|
      ensures s[i].potential != s[j].potential && s[i].brush != s[j].brush && CoordOf(s[i]) != CoordOf(s[j])
    {
      if j == |chunks| {
        assert s[i] == chunks[i] && s[j] == c;
      } else {
        assert s[i] == chunks[i] && s[j] == chunks[j];
      }
    }
  }

  /** A chunk found in a collection is still the one found once more chunks
      are appended. */
  lemma FindChunkPrefix(chunks: seq<MiningChunk>, longer: seq<MiningChunk>, p: Coord)
    requires chunks <= longer && FindChunk(chunks, p).Some?
    ensures FindChunk(longer, p) == FindChunk(chunks, p)
  {
    var k := FindChunk(chunks, p).value;
    assert longer[k] == chunks[k];
    assert forall i :: 0 <= i < k ==> longer[i] == chunks[i];
  }

  lemma CoversPrefix(chunks: seq<MiningChunk>, longer: seq<MiningChunk>, result: seq<MiningChunk>,
                     more: seq<MiningChunk>, p: Coord)
    requires chunks <= longer && result <= more && Covers(chunks, result, p)
    ensures Covers(longer, more, p)
  {
    FindChunkPrefix(chunks, longer, p);
    assert chunks[FindChunk(chunks, p).value] == longer[FindChunk(chunks, p).value];
  }

  /** With distinct coordinates, a chunk with coordinates `p` is the one found. */
  lemma SeparateFind(chunks: seq<MiningChunk>, i: nat, p: Coord)
    requires Separate(chunks) && i < |chunks| && CoordOf(chunks[i]) == p
    ensures FindChunk(chunks, p) == Some(i)
  {
  }

  /** Separate chunks, by membership. */
  lemma SeparateMembers(chunks: seq<MiningChunk>, c: MiningChunk, d: MiningChunk)
    requires Separate(chunks) && c in chunks && d in chunks && c != d
    ensures c.potential != d.potential && c.brush != d.brush && CoordOf(c) != CoordOf(d)
  {
    var i :| 0 <= i < |chunks| && chunks[i] == c;
    var j :| 0 <= j < |chunks| && chunks[j] == d;
    assert i < j || j < i;
  }

  /** Distinct chunks of a separate collection are separate. */
  lemma SeparateSub(chunks: seq<MiningChunk>, sub: seq<MiningChunk>)
    requires Separate(chunks) && NoDuplicates(sub) && forall c :: c in sub ==> c in chunks
    ensures Separate(sub)
  {
    forall i, j | 0 <= i < j < |sub|
      ensures sub[i].potential != sub[j].potential && sub[i].brush != sub[j].brush
              && CoordOf(sub[i]) != CoordOf(sub[j])
    {
      SeparateMembers(chunks, sub[i], sub[j]);
    }
  }

  /** A separate collection has no chunk twice. */
  lemma SeparateDistinct(chunks: seq<MiningChunk>)
    requires Separate(chunks)
    ensures NoDuplicates(chunks)
  {
  }

  /** When the probed chunks are found, the result holds exactly the chunks with
      probed coordinates. */
  lemma ProbedChunks(chunks: seq<MiningChunk>, result: seq<MiningChunk>, x: int, y: int, z: int)
    requires Separate(chunks)
    requires forall c :: c in result ==> c in chunks && CoordOf(c) in ProbeSet(x, y, z)
    requires forall p :: p in ProbeSet(x, y, z) ==> Covers(chunks, result, p)
    ensures forall c :: c in chunks ==> (c in result <==> CoordOf(c) in ProbeSet(x, y, z))
  {
    forall c | c in chunks && CoordOf(c) in ProbeSet(x, y, z)
      ensures c in result
    {
      var i :| 0 <= i < |chunks| && chunks[i] == c;
      SeparateFind(chunks, i, CoordOf(c));
    }
  }

  /** ... and there are 8 of them. */
  lemma ProbedCount(chunks: seq<MiningChunk>, result: seq<MiningChunk>, x: int, y: int, z: int)
    requires Separate(chunks) && NoDuplicates(result)
    requires forall c :: c in result ==> c in chunks && CoordOf(c) in ProbeSet(x, y, z)
    requires forall p :: p in ProbeSet(x, y, z) ==> Covers(chunks, result, p)
    ensures |result| == 8
  {
    SeparateSub(chunks, result);
    DistinctCount(Coords(result));
    ProbedCoords(chunks, result, x, y, z);
    ProbeSetSize(x, y, z);
  }

  lemma ProbedCoords(chunks: seq<MiningChunk>, result: seq<MiningChunk>, x: int, y: int, z: int)
    requires forall c :: c in result ==> CoordOf(c) in ProbeSet(x, y, z)
    requires forall p :: p in ProbeSet(x, y, z) ==> Covers(chunks, result, p)
    ensures (set i | 0 <= i < |result| :: Coords(result)[i]) == ProbeSet(x, y, z)
  {
    var cs := Coords(result);
    var s := set i | 0 <= i < |cs| :: cs[i];
    forall p | p in ProbeSet(x, y, z)
      ensures p in s
    {
      var k := FindChunk(chunks, p).value;
      var j :| 0 <= j < |result| && result[j] == chunks[k];
      assert cs[j] == p;
    }
    forall p | p in s
      ensures p in ProbeSet(x, y, z)
    {
      var j :| 0 <= j < |cs| && cs[j] == p;
      assert result[j] in result;
    }
  }

  /** The chunk contents before any stroke: potential 10, no colour. */
  function InitialField(): (f: Field)
    ensures FieldOk(f)
  {
    Field(seq(Cells, _ => FillValue), seq(BrushBytes, _ => 0))
  }

  /** A chunk as `_makeMiningMesh` makes it. */
  ghost predicate Pristine(c: MiningChunk)
    reads c, c.potential, c.brush
  {
    c.Valid() && c.Contents() == InitialField() && !c.dirty && !c.visible
  }

  /** The coordinates probed for offsets `dx`, `dy`, `dz`. */
  function ProbeAt(x: int, y: int, z: int, dx: int, dy: int, dz: int): Coord
  {
    Coord(Probe(x, dx), Probe(y, dy), Probe(z, dz))
  }

  lemma ProbeAtIn(x: int, y: int, z: int, dx: int, dy: int, dz: int)
    requires -1 <= dx <= 1 && -1 <= dy <= 1 && -1 <= dz <= 1
    ensures ProbeAt(x, y, z, dx, dy, dz) in ProbeSet(x, y, z)
  {
    ProbeValues(x);
    ProbeValues(y);
    ProbeValues(z);
    ProbeSetMembers(x, y, z, ProbeAt(x, y, z, dx, dy, dz));
  }

  /** Which function runs a refresh pass: `_refreshMiningMeshes` or
      `_refreshVoxelMiningMeshes`. */
  datatype Pass = MiningPass | VoxelPass

  /** Where `_commitMiningMeshes` is: not running, awaiting `_waitForMiningMesh`, or
      awaiting `_parameterizeObjectMesh`. */
  datatype CommitPhase = Idle | Waiting | Parameterizing

  /** The coordinators' state, all of it. */
  datatype Coordination = Coordination(
    refreshing: bool, refreshQueued: bool, refreshCbs: seq<nat>, released: seq<nat>,
    passKind: Pass, passChunks: seq<MiningChunk>, passRequests: seq<Option<Field>>,
    commitToolShown: bool, committing: bool, commitQueued: bool, commitPhase: CommitPhase,
    commitTicket: nat, objects: seq<seq<MiningChunk>>)

  /** What the coordinators keep: waiters and queued requests exist only while
      something is in flight, and a pass has one request per chunk it asked. */
  predicate Settled(k: Coordination)
  {
    && Separate(k.passChunks) && |k.passRequests| == |k.passChunks|
    && (k.passKind.VoxelPass? ==> k.passChunks == [])
    && (!k.refreshing ==> !k.refreshQueued && k.refreshCbs == [] && k.passChunks == [])
    && (k.committing <==> !k.commitPhase.Idle?)
    && (k.commitQueued ==> k.committing)
  }

  /** A refresh asked for when no mining chunk is left to send (what
      `_newMiningMeshes` asks for): during a pass it is queued, otherwise a pass
      starts that sends nothing. */
  function AskEmptyRefresh(k: Coordination): (k': Coordination)
    ensures k'.refreshing && k'.refreshCbs == k.refreshCbs && k'.released == k.released
    ensures k.refreshing ==> k' == k.(refreshQueued := true)
    ensures !k.refreshing ==> k'.passKind == MiningPass && k'.passChunks == [] && k'.passRequests == []
  {
    if k.refreshing then k.(refreshQueued := true)
    else k.(refreshing := true, passKind := MiningPass, passChunks := [], passRequests := [])
  }

  /** `_commitMiningMeshes()` up to its first `await`: during a commit the request
      is queued; otherwise a commit starts and waits for the refresh in flight, if
      any, with a new waiter. */
  function AskCommit(k: Coordination): (k': Coordination)
    ensures k'.committing && k'.refreshing == k.refreshing && k'.released == k.released
    ensures k.committing ==> k' == k.(commitQueued := true)
    ensures !k.committing ==> k'.commitPhase == Waiting && k'.commitQueued == k.commitQueued
    ensures !k.committing ==> k'.commitTicket == k.commitTicket + 1
    ensures !k.committing ==>
      k'.refreshCbs == if k.refreshing then k.refreshCbs + [k'.commitTicket] else k.refreshCbs
  {
    if k.committing then k.(commitQueued := true)
    else
      var t := k.commitTicket + 1;
      k.(committing := true, commitPhase := Waiting, commitTicket := t,
         refreshCbs := if k.refreshing then k.refreshCbs + [t] else k.refreshCbs)
  }

  /** The end of `_commitMiningMeshes`: the commit is over, and a commit asked for
      during it starts now. */
  function EndCommit(k: Coordination): (k': Coordination)
    ensures k.commitQueued ==> k'.committing && k'.commitPhase == Waiting && !k'.commitQueued
    ensures !k.commitQueued ==> !k'.committing && k'.commitPhase == Idle
    ensures k'.objects == k.objects && k'.released == k.released
  {
    var k1 := k.(committing := false, commitPhase := Idle);
    if k.commitQueued then AskCommit(k1.(commitQueued := false)) else k1
  }

  /** Any number of commits asked for during a commit come to one queued commit. */
  lemma {:induction false} AskCommitCoalesces(k: Coordination, n: nat)
    requires k.committing
    ensures Repeat(AskCommit, k, n + 1) == k.(commitQueued := true)
  {
    if n > 0 {
      AskCommitCoalesces(k, n - 1);
    }
  }

  /** `f` applied `n` times. */
  function Repeat<T>(f: T -> T, x: T, n: nat): T
  {
    if n == 0 then x else f(Repeat(f, x, n - 1))
  }

  /** Any number of refreshes asked for during a pass come to one queued refresh. */
  lemma {:induction false} AskRefreshCoalesces(k: Coordination, n: nat)
    requires k.refreshing
    ensures Repeat(AskEmptyRefresh, k, n + 1) == k.(refreshQueued := true)
  {
    if n > 0 {
      AskRefreshCoalesces(k, n - 1);
    }
  }

  /** A commit asked for during a commit is not lost: when the commit ends, the
      queued one starts, and it waits for the refresh in flight. */
  lemma QueuedCommitRuns(k: Coordination)
    requires k.committing && !k.commitQueued
    ensures var k' := EndCommit(AskCommit(k));
      && k'.committing && k'.commitPhase == Waiting && !k'.commitQueued
      && k'.commitTicket == k.commitTicket + 1
      && (k.refreshing ==> k'.commitTicket in k'.refreshCbs)
  {
  }

  /** The transitions keep the coordinators' invariant. */
  lemma TransitionsSettle(k: Coordination)
    requires Settled(k)
    ensures Settled(AskEmptyRefresh(k)) && Settled(AskCommit(k))
    ensures k.committing ==> Settled(EndCommit(k))
  {
  }

  /** `miningMeshes.filter(miningMesh => miningMesh.visible)`. */
  function VisibleChunks(cs: seq<MiningChunk>): (v: seq<MiningChunk>)
    reads set c | c in cs
    ensures |v| <= |cs|
    ensures forall c :: c in v ==> c in cs
    ensures forall c :: c in cs ==> (c in v <==> c.visible)
  {
    if cs == [] then []
    else (if cs[0].visible then [cs[0]] else []) + VisibleChunks(cs[1..])
  }

  /** `miningMeshes.some(miningMesh => miningMesh.visible)`. */
  predicate AnyVisible(cs: seq<MiningChunk>)
    reads set c | c in cs
  {
    exists i :: 0 <= i < |cs| && cs[i].visible
  }

  /** The filter is empty exactly when no chunk is visible. */
  lemma {:induction false} VisibleChunksEmpty(cs: seq<MiningChunk>)
    ensures VisibleChunks(cs) == [] <==> !AnyVisible(cs)
  {
    if cs != [] {
      VisibleChunksEmpty(cs[1..]);
      if !cs[0].visible {
        assert forall i :: 1 <= i < |cs| ==> cs[i] == cs[1..][i - 1];
      }
    }
  }

  /** The brushes that reach mining chunks. */
  datatype Brush = PaintBrush | EraseBrush | ColorBrush

  /** A chunk's contents after one brush stroke centred at local coordinates `o`:
      `paint` digs and then stamps the current colour, `erase` fills, `color`
      stamps. */
  function Stroked(f: Field, brush: Brush, o: Point, radius: nat, falloff: Point -> real, current: Rgb): (g: Field)
    requires FieldOk(f)
    ensures FieldOk(g)
  {
    match brush
    case PaintBrush => Apply(Apply(f, Dig(true), o, Cube(radius), falloff), Stamp(current), o, Cube(radius), falloff)
    case EraseBrush => Apply(f, Dig(false), o, Cube(radius), falloff)
    case ColorBrush => Apply(f, Stamp(current), o, Cube(radius), falloff)
  }

  /** A stroke whose cube misses a chunk's lattice leaves the chunk as it was, so
      stroking every chunk, as erase and colour do, only changes the ones the
      brush reaches. */
  lemma StrokedMiss(f: Field, brush: Brush, o: Point, radius: nat, falloff: Point -> real, current: Rgb)
    requires FieldOk(f) && !Hits(o, radius)
    ensures Stroked(f, brush, o, radius, falloff, current) == f
  {
    match brush
    case PaintBrush =>
      ApplyMiss(f, Dig(true), o, radius, falloff);
      ApplyMiss(f, Stamp(current), o, radius, falloff);
    case EraseBrush => ApplyMiss(f, Dig(false), o, radius, falloff);
    case ColorBrush => ApplyMiss(f, Stamp(current), o, radius, falloff);
  }

  /** Repeating an identical stroke changes nothing further: paint's dig pass
      leaves the colours alone and its colour pass leaves the potential alone, so
      each pass meets its own earlier result. */
  lemma StrokedIdempotent(f: Field, brush: Brush, o: Point, radius: nat, falloff: Point -> real, current: Rgb)
    requires FieldOk(f)
    ensures var g := Stroked(f, brush, o, radius, falloff, current);
      Stroked(g, brush, o, radius, falloff, current) == g
  {
    match brush
    case PaintBrush =>
      var g1 := Apply(f, Dig(true), o, Cube(radius), falloff);
      var g := Apply(g1, Stamp(current), o, Cube(radius), falloff);
      ApplyIdempotent(f, Dig(true), o, Cube(radius), falloff);
      ApplyFrame(g1, Stamp(current), o, Cube(radius), falloff);
      assert Apply(g, Dig(true), o, Cube(radius), falloff) == g;
      ApplyIdempotent(g1, Stamp(current), o, Cube(radius), falloff);
    case EraseBrush => ApplyIdempotent(f, Dig(false), o, Cube(radius), falloff);
    case ColorBrush => ApplyIdempotent(f, Stamp(current), o, Cube(radius), falloff);
  }

  function ChunkSet(cs: seq<MiningChunk>): set<MiningChunk>
  {
    set c | c in cs
  }

  /** `miningMeshes.map(miningMesh => miningMesh.refresh())`: what each chunk
      sends, with every flag cleared. */
  method RefreshChunks(cs: seq<MiningChunk>) returns (requests: seq<Option<Field>>)
    requires Separate(cs) && forall i :: 0 <= i < |cs| ==> cs[i].Valid()
    modifies ChunkSet(cs)
    ensures |requests| == |cs|
    ensures forall i :: 0 <= i < |cs| ==>
      requests[i] == if old(cs[i].dirty) then Some(old(cs[i].Contents())) else None
    ensures forall i :: 0 <= i < |cs| ==> var c := cs[i];
      c.Contents() == old(c.Contents()) && c.visible == old(c.visible) && !c.dirty
  {
    requests := [];
    for i := 0 to |cs|
      invariant |requests| == i
      invariant forall j :: 0 <= j < i ==>
        requests[j] == if old(cs[j].dirty) then Some(old(cs[j].Contents())) else None
      invariant forall j :: 0 <= j < |cs| ==> var c := cs[j];
        && c.Contents() == old(c.Contents()) && c.visible == old(c.visible)
        && c.dirty == (old(c.dirty) && j >= i)
    {
      var c := cs[i];
      assert forall j :: 0 <= j < |cs| && j != i ==> cs[j] != c;
      var request := c.Refresh();
      requests := requests + [request];
    }
  }

  /** The chunks and their arrays. */
  function Objects(cs: seq<MiningChunk>): set<object>
  {
    (set c | c in cs :: c as object) + (set c | c in cs :: c.potential as object)
      + (set c | c in cs :: c.brush as object)
  }

  lemma ObjectsAppend(a: seq<MiningChunk>, b: seq<MiningChunk>)
    ensures Objects(a + b) == Objects(a) + Objects(b)
  {
  }

  lemma ObjectsSub(a: seq<MiningChunk>, b: seq<MiningChunk>)
    requires forall c :: c in a ==> c in b
    ensures Objects(a) <= Objects(b)
  {
  }

  /** `miningMesh.paint(x, y, z)`, `.erase(x, y, z)` or `.color(x, y, z, c)` for
      world cell `(x, y, z)`. */
  method StrokeChunk(c: MiningChunk, brush: Brush, x: int, y: int, z: int, radius: nat,
                     falloff: Point -> real, current: Rgb)
    requires c.Valid()
    modifies c, c.potential, c.brush
    ensures c.Contents() == Stroked(old(c.Contents()), brush, c.Local(x, y, z), radius, falloff, current)
    ensures c.dirty == (old(c.dirty) || Hits(c.Local(x, y, z), radius)) && c.visible == old(c.visible)
  {
    match brush {
      case PaintBrush => c.Paint(x, y, z, radius, falloff, current);
      case EraseBrush => c.Erase(x, y, z, radius, falloff, current);
      case ColorBrush => c.Color(x, y, z, radius, falloff, current);
    }
  }

  /** `targets.forEach(miningMesh => ...)`: every target takes the stroke. */
  method StrokeChunks(targets: seq<MiningChunk>, brush: Brush, x: int, y: int, z: int, radius: nat,
                      falloff: Point -> real, current: Rgb)
    requires Separate(targets) && forall i :: 0 <= i < |targets| ==> targets[i].Valid()
    modifies Objects(targets)
    ensures forall i :: 0 <= i < |targets| ==> var c := targets[i];
      && c.Contents() == Stroked(old(c.Contents()), brush, c.Local(x, y, z), radius, falloff, current)
      && c.dirty == (old(c.dirty) || Hits(c.Local(x, y, z), radius)) && c.visible == old(c.visible)
  {
    for i := 0 to |targets|
      invariant forall j :: 0 <= j < |targets| ==> var c := targets[j];
        && c.Contents() == (if j < i then Stroked(old(c.Contents()), brush, c.Local(x, y, z), radius, falloff, current)
                            else old(c.Contents()))
        && c.dirty == (old(c.dirty) || (j < i && Hits(c.Local(x, y, z), radius))) && c.visible == old(c.visible)
    {
      var c := targets[i];
      assert c in targets;
      assert c in Objects(targets) && c.potential in Objects(targets) && c.brush in Objects(targets);
      assert forall j :: 0 <= j < |targets| && j != i ==>
        targets[j] != c && targets[j].potential != c.potential && targets[j].brush != c.brush;
      StrokeChunk(c, brush, x, y, z, radius, falloff, current);
    }
  }

  /** A stroke of some of the chunks of a collection: the targets take it and the
      other chunks are left as they were. */
  method StrokeTargets(all: seq<MiningChunk>, targets: seq<MiningChunk>, brush: Brush, x: int, y: int, z: int,
                       radius: nat, falloff: Point -> real, current: Rgb)
    requires Separate(all) && NoDuplicates(targets) && forall c :: c in targets ==> c in all
    requires forall i :: 0 <= i < |all| ==> all[i].Valid()
    modifies Objects(targets)
    ensures forall i :: 0 <= i < |all| ==> var c := all[i];
      && c.Contents() == (if c in targets
                          then Stroked(old(c.Contents()), brush, c.Local(x, y, z), radius, falloff, current)
                          else old(c.Contents()))
      && c.dirty == (old(c.dirty) || (c in targets && Hits(c.Local(x, y, z), radius)))
      && c.visible == old(c.visible)
  {
    SeparateSub(all, targets);
    StrokeChunks(targets, brush, x, y, z, radius, falloff, current);
    forall i | 0 <= i < |all| && all[i] !in targets
      ensures all[i].Contents() == old(all[i].Contents()) && all[i].dirty == old(all[i].dirty)
      ensures all[i].visible == old(all[i].visible)
    {
      forall d | d in targets
        ensures all[i] != d && all[i].potential != d.potential && all[i].brush != d.brush
      {
        SeparateMembers(all, all[i], d);
      }
    }
  }

  /** The editor state that the chunk operations and the coordinators share. */
  class Editor {
    /** `miningMeshes`. */
    var chunks: seq<MiningChunk>
    /** `voxelMeshes`, by coordinates; their contents belong to the voxel mesher. */
    var voxelChunks: seq<Coord>

    /** The coordinators' state: `refreshing`, `refreshQueued`, `refreshCbs`,
        `committing`, `commitQueued`, the pass and the commit in flight, the
        commit tool's visibility and the object meshes commits added. */
    var co: Coordination

    ghost predicate Valid()
      reads this
    {
      ChunksOk() && Settled(co)
    }

    ghost predicate ChunksOk()
      reads this
    {
      (forall i :: 0 <= i < |chunks| ==> chunks[i].Valid()) && Separate(chunks)
    }

    constructor()
      ensures Valid()
      ensures chunks == [] && voxelChunks == []
      ensures co == Coordination(false, false, [], [], MiningPass, [], [], false, false, false, Idle, 0, [])
    {
      chunks, voxelChunks := [], [];
      co := Coordination(false, false, [], [], MiningPass, [], [], false, false, false, Idle, 0, []);
    }

    /** The first chunk with coordinates `p`, made and appended when there is
        none. */
    method FindOrAddChunk(p: Coord) returns (c: MiningChunk)
      requires Valid()
      modifies this
      ensures Valid()
      ensures voxelChunks == old(voxelChunks)
      ensures co == old(co)
      ensures FindChunk(old(chunks), p).Some? ==>
        chunks == old(chunks) && c == chunks[FindChunk(chunks, p).value]
      ensures FindChunk(old(chunks), p).None? ==>
        && chunks == old(chunks) + [c] && fresh(c) && fresh(c.potential) && fresh(c.brush) && c.Valid() && c.Contents() == InitialField()
        && !c.dirty && !c.visible
      ensures FindChunk(chunks, p).Some? && c == chunks[FindChunk(chunks, p).value] && CoordOf(c) == p
    {
      var found := FindChunk(chunks, p);
      if found.Some? {
        c := chunks[found.value];
      } else {
        c := new MiningChunk(p.x, p.y, p.z);
        FindChunkAppend(chunks, c, p);
        SeparateAppend(chunks, c);
        chunks := chunks + [c];
      }
    }
    /** One probe of `_findOrAddMeshesByContainCoord`: the chunk at `p`, found or
        added, joins `result` unless it is in it already. */
    method AddProbe(x: int, y: int, z: int, p: Coord, result: seq<MiningChunk>) returns (result': seq<MiningChunk>)
      requires Valid() && p in ProbeSet(x, y, z)
      requires NoDuplicates(result) && forall c :: c in result ==> c in chunks && CoordOf(c) in ProbeSet(x, y, z)
      modifies this
      ensures Valid() && voxelChunks == old(voxelChunks)
      ensures co == old(co)
      ensures old(chunks) <= chunks
      ensures forall i :: |old(chunks)| <= i < |chunks| ==>
        fresh(chunks[i]) && fresh(chunks[i].potential) && fresh(chunks[i].brush) && Pristine(chunks[i]) && CoordOf(chunks[i]) in ProbeSet(x, y, z)
      ensures result <= result' && NoDuplicates(result')
      ensures forall c :: c in result' ==> c in chunks && CoordOf(c) in ProbeSet(x, y, z)
      ensures forall q :: Covers(old(chunks), result, q) ==> Covers(chunks, result', q)
      ensures Covers(chunks, result', p)
    {
      ghost var before := chunks;
      var c := FindOrAddChunk(p);
      if c !in result {
        result' := result + [c];
      } else {
        result' := result;
      }
      forall q | Covers(before, result, q)
        ensures Covers(chunks, result', q)
      {
        CoversPrefix(before, chunks, result, result', q);
      }
    }

    /** The innermost probe loop, over `dy`. */
    method AddColumn(x: int, y: int, z: int, dx: int, dz: int, result: seq<MiningChunk>)
      returns (result': seq<MiningChunk>)
      requires Valid() && -1 <= dx <= 1 && -1 <= dz <= 1
      requires NoDuplicates(result) && forall c :: c in result ==> c in chunks && CoordOf(c) in ProbeSet(x, y, z)
      modifies this
      ensures Valid() && voxelChunks == old(voxelChunks)
      ensures co == old(co)
      ensures old(chunks) <= chunks
      ensures forall i :: |old(chunks)| <= i < |chunks| ==>
        fresh(chunks[i]) && fresh(chunks[i].potential) && fresh(chunks[i].brush) && Pristine(chunks[i]) && CoordOf(chunks[i]) in ProbeSet(x, y, z)
      ensures result <= result' && NoDuplicates(result')
      ensures forall c :: c in result' ==> c in chunks && CoordOf(c) in ProbeSet(x, y, z)
      ensures forall q :: Covers(old(chunks), result, q) ==> Covers(chunks, result', q)
      ensures forall dy :: -1 <= dy <= 1 ==> Covers(chunks, result', ProbeAt(x, y, z, dx, dy, dz))
    {
      result' := result;
      for dy := -1 to 2
        invariant Valid() && voxelChunks == old(voxelChunks)
        invariant co == old(co)
        invariant old(chunks) <= chunks
        invariant forall i :: |old(chunks)| <= i < |chunks| ==>
          fresh(chunks[i]) && fresh(chunks[i].potential) && fresh(chunks[i].brush) && Pristine(chunks[i]) && CoordOf(chunks[i]) in ProbeSet(x, y, z)
        invariant result <= result' && NoDuplicates(result')
        invariant forall c :: c in result' ==> c in chunks && CoordOf(c) in ProbeSet(x, y, z)
        invariant forall q :: Covers(old(chunks), result, q) ==> Covers(chunks, result', q)
        invariant forall dy' :: -1 <= dy' < dy ==> Covers(chunks, result', ProbeAt(x, y, z, dx, dy', dz))
      {
        ProbeAtIn(x, y, z, dx, dy, dz);
        result' := AddProbe(x, y, z, ProbeAt(x, y, z, dx, dy, dz), result');
      }
    }

    /** The middle probe loop, over `dz`. */
    method AddSlab(x: int, y: int, z: int, dx: int, result: seq<MiningChunk>) returns (result': seq<MiningChunk>)
      requires Valid() && -1 <= dx <= 1
      requires NoDuplicates(result) && forall c :: c in result ==> c in chunks && CoordOf(c) in ProbeSet(x, y, z)
      modifies this
      ensures Valid() && voxelChunks == old(voxelChunks)
      ensures co == old(co)
      ensures old(chunks) <= chunks
      ensures forall i :: |old(chunks)| <= i < |chunks| ==>
        fresh(chunks[i]) && fresh(chunks[i].potential) && fresh(chunks[i].brush) && Pristine(chunks[i]) && CoordOf(chunks[i]) in ProbeSet(x, y, z)
      ensures result <= result' && NoDuplicates(result')
      ensures forall c :: c in result' ==> c in chunks && CoordOf(c) in ProbeSet(x, y, z)
      ensures forall q :: Covers(old(chunks), result, q) ==> Covers(chunks, result', q)
      ensures forall dy, dz :: -1 <= dy <= 1 && -1 <= dz <= 1 ==> Covers(chunks, result', ProbeAt(x, y, z, dx, dy, dz))
    {
      result' := result;
      for dz := -1 to 2
        invariant Valid() && voxelChunks == old(voxelChunks)
        invariant co == old(co)
        invariant old(chunks) <= chunks
        invariant forall i :: |old(chunks)| <= i < |chunks| ==>
          fresh(chunks[i]) && fresh(chunks[i].potential) && fresh(chunks[i].brush) && Pristine(chunks[i]) && CoordOf(chunks[i]) in ProbeSet(x, y, z)
        invariant result <= result' && NoDuplicates(result')
        invariant forall c :: c in result' ==> c in chunks && CoordOf(c) in ProbeSet(x, y, z)
        invariant forall q :: Covers(old(chunks), result, q) ==> Covers(chunks, result', q)
        invariant forall dy, dz' :: -1 <= dy <= 1 && -1 <= dz' < dz ==> Covers(chunks, result', ProbeAt(x, y, z, dx, dy, dz'))
      {
        result' := AddColumn(x, y, z, dx, dz, result');
      }
    }

    /** `_findOrAddMiningMeshesByContainCoord(x / 10, y / 10, z / 10)` for world
        cell `(x, y, z)`: the 27 probes around it, in the source's order `dx`,
        `dz`, `dy`, find or make a chunk each; the result is the chunks with the
        probed coordinates, each once, 8 of them. Chunks are only ever added, once
        per missing coordinates, and start as `_makeMiningMesh` makes them. */
    method FindOrAddChunks(x: int, y: int, z: int) returns (result: seq<MiningChunk>)
      requires Valid()
      modifies this
      ensures Valid() && voxelChunks == old(voxelChunks)
      ensures co == old(co)
      ensures old(chunks) <= chunks
      ensures forall i :: |old(chunks)| <= i < |chunks| ==>
        fresh(chunks[i]) && fresh(chunks[i].potential) && fresh(chunks[i].brush) && Pristine(chunks[i]) && CoordOf(chunks[i]) in ProbeSet(x, y, z)
      ensures forall c :: c in chunks ==> (c in result <==> CoordOf(c) in ProbeSet(x, y, z))
      ensures forall c :: c in result ==> c in chunks
      ensures NoDuplicates(result) && |result| == 8
    {
      result := [];
      for dx := -1 to 2
        invariant Valid() && voxelChunks == old(voxelChunks)
        invariant co == old(co)
        invariant old(chunks) <= chunks
        invariant forall i :: |old(chunks)| <= i < |chunks| ==>
          fresh(chunks[i]) && fresh(chunks[i].potential) && fresh(chunks[i].brush) && Pristine(chunks[i]) && CoordOf(chunks[i]) in ProbeSet(x, y, z)
        invariant NoDuplicates(result)
        invariant forall c :: c in result ==> c in chunks && CoordOf(c) in ProbeSet(x, y, z)
        invariant forall dx', dy, dz :: -1 <= dx' < dx && -1 <= dy <= 1 && -1 <= dz <= 1 ==>
          Covers(chunks, result, ProbeAt(x, y, z, dx', dy, dz))
      {
        result := AddSlab(x, y, z, dx, result);
      }
      forall p | p in ProbeSet(x, y, z)
        ensures Covers(chunks, result, p)
      {
        ProbeSetMembers(x, y, z, p);
        ProbeWitness(x, p.x);
        ProbeWitness(y, p.y);
        ProbeWitness(z, p.z);
        var dx :| dx in {-1, 1} && p.x == Probe(x, dx);
        var dy :| dy in {-1, 1} && p.y == Probe(y, dy);
        var dz :| dz in {-1, 1} && p.z == Probe(z, dz);
        assert p == ProbeAt(x, y, z, dx, dy, dz);
      }
      ProbedChunks(chunks, result, x, y, z);
      ProbedCount(chunks, result, x, y, z);
    }
    /** The objects of the chunks appended since `before` are new. */
    twostate lemma AddedObjects(before: seq<MiningChunk>)
      requires before <= chunks
      requires forall i :: |before| <= i < |chunks| ==>
        fresh(chunks[i]) && fresh(chunks[i].potential) && fresh(chunks[i].brush)
      ensures forall o :: o in Objects(chunks) ==> o in Objects(before) || fresh(o)
    {
      var tail := chunks[|before|..];
      assert chunks == before + tail;
      ObjectsAppend(before, tail);
      forall o | o in Objects(tail)
        ensures fresh(o)
      {
        var c: MiningChunk :| c in tail && (o == c as object || o == c.potential as object || o == c.brush as object);
        var i :| 0 <= i < |tail| && tail[i] == c;
        assert c == chunks[|before| + i];
      }
    }

    /** `_findOrAddVoxelMeshByContainCoord(x / 10, y / 10, z / 10)` for world cell
        `(x, y, z)`: the voxel chunk `floor(x / 10), floor(y / 10), floor(z / 10)`,
        found or appended, as its position in `voxelMeshes`. */
    method FindOrAddVoxelChunk(x: int, y: int, z: int) returns (index: nat)
      requires Valid()
      modifies this
      ensures Valid() && chunks == old(chunks) && co == old(co)
      ensures var p := Coord(VoxelProbe(x), VoxelProbe(y), VoxelProbe(z));
        && voxelChunks == (if p in old(voxelChunks) then old(voxelChunks) else old(voxelChunks) + [p])
        && index < |voxelChunks| && voxelChunks[index] == p && p !in voxelChunks[..index]
    {
      var p := Coord(VoxelProbe(x), VoxelProbe(y), VoxelProbe(z));
      var found := FindCoord(voxelChunks, p);
      if found.Some? {
        index := found.value;
      } else {
        index := |voxelChunks|;
        voxelChunks := voxelChunks + [p];
        assert voxelChunks[..index] == old(voxelChunks);
      }
    }

    /** `_paintMiningMeshes(x, y, z)`: the probed chunks (found or added) take
        the paint stroke, and no other chunk does. */
    method Paint(x: int, y: int, z: int, radius: nat, falloff: Point -> real, current: Rgb)
      requires Valid()
      modifies this, Objects(chunks)
      ensures Valid() && voxelChunks == old(voxelChunks) && co == old(co)
      ensures old(chunks) <= chunks
      ensures forall i :: 0 <= i < |old(chunks)| ==> var c := old(chunks)[i];
        && c.Contents() == (if CoordOf(c) in ProbeSet(x, y, z)
                            then Stroked(old(c.Contents()), PaintBrush, c.Local(x, y, z), radius, falloff, current)
                            else old(c.Contents()))
        && c.dirty == (old(c.dirty) || (CoordOf(c) in ProbeSet(x, y, z) && Hits(c.Local(x, y, z), radius)))
        && c.visible == old(c.visible)
      ensures forall i :: |old(chunks)| <= i < |chunks| ==> var c := chunks[i];
        && fresh(c) && CoordOf(c) in ProbeSet(x, y, z) && !c.visible
        && c.Contents() == Stroked(InitialField(), PaintBrush, c.Local(x, y, z), radius, falloff, current)
        && c.dirty == Hits(c.Local(x, y, z), radius)
    {
      var result := FindOrAddChunks(x, y, z);
      AddedObjects(old(chunks));
      ObjectsSub(result, chunks);
      StrokeTargets(chunks, result, PaintBrush, x, y, z, radius, falloff, current);
      assert forall i :: 0 <= i < |old(chunks)| ==> old(chunks)[i] == chunks[i];
    }

    /** `_eraseMiningMeshes(x, y, z)`: the probed chunks are found or added, and
        then every chunk takes the erase stroke, not only the probed ones. */
    method Erase(x: int, y: int, z: int, radius: nat, falloff: Point -> real, current: Rgb)
      requires Valid()
      modifies this, Objects(chunks)
      ensures Valid() && voxelChunks == old(voxelChunks) && co == old(co)
      ensures old(chunks) <= chunks
      ensures forall i :: 0 <= i < |old(chunks)| ==> var c := old(chunks)[i];
        && c.Contents() == Stroked(old(c.Contents()), EraseBrush, c.Local(x, y, z), radius, falloff, current)
        && c.dirty == (old(c.dirty) || Hits(c.Local(x, y, z), radius)) && c.visible == old(c.visible)
      ensures forall i :: |old(chunks)| <= i < |chunks| ==> var c := chunks[i];
        && fresh(c) && CoordOf(c) in ProbeSet(x, y, z) && !c.visible
        && c.Contents() == Stroked(InitialField(), EraseBrush, c.Local(x, y, z), radius, falloff, current)
        && c.dirty == Hits(c.Local(x, y, z), radius)
    {
      var _ := FindOrAddChunks(x, y, z);
      AddedObjects(old(chunks));
      StrokeChunks(chunks, EraseBrush, x, y, z, radius, falloff, current);
      assert forall i :: 0 <= i < |old(chunks)| ==> old(chunks)[i] == chunks[i];
    }

    /** `_colorMiningMeshes(x, y, z, c)`: like erase, every chunk takes the colour
        stroke. */
    method Color(x: int, y: int, z: int, radius: nat, falloff: Point -> real, current: Rgb)
      requires Valid()
      modifies this, Objects(chunks)
      ensures Valid() && voxelChunks == old(voxelChunks) && co == old(co)
      ensures old(chunks) <= chunks
      ensures forall i :: 0 <= i < |old(chunks)| ==> var c := old(chunks)[i];
        && c.Contents() == Stroked(old(c.Contents()), ColorBrush, c.Local(x, y, z), radius, falloff, current)
        && c.dirty == (old(c.dirty) || Hits(c.Local(x, y, z), radius)) && c.visible == old(c.visible)
      ensures forall i :: |old(chunks)| <= i < |chunks| ==> var c := chunks[i];
        && fresh(c) && CoordOf(c) in ProbeSet(x, y, z) && !c.visible
        && c.Contents() == Stroked(InitialField(), ColorBrush, c.Local(x, y, z), radius, falloff, current)
        && c.dirty == Hits(c.Local(x, y, z), radius)
    {
      var _ := FindOrAddChunks(x, y, z);
      AddedObjects(old(chunks));
      StrokeChunks(chunks, ColorBrush, x, y, z, radius, falloff, current);
      assert forall i :: 0 <= i < |old(chunks)| ==> old(chunks)[i] == chunks[i];
    }
    /** The synchronous start of a refresh pass: for `MiningPass` every dirty
        chunk clears its flag and sends its fields to the marching worker (a clean
        chunk sends nothing); `VoxelPass` refreshes the voxel chunks, whose
        contents this model leaves out, and no mining chunk. */
    method StartPass(kind: Pass)
      requires ChunksOk() && !co.refreshing && Settled(co.(refreshing := true))
      modifies this, ChunkSet(chunks)
      ensures Valid() && chunks == old(chunks) && voxelChunks == old(voxelChunks)
      ensures co == old(co).(refreshing := true, passKind := kind,
        passChunks := (if kind.MiningPass? then chunks else []), passRequests := co.passRequests)
      ensures kind.MiningPass? ==> forall i :: 0 <= i < |chunks| ==>
        co.passRequests[i] == if old(chunks[i].dirty) then Some(old(chunks[i].Contents())) else None
      ensures forall i :: 0 <= i < |chunks| ==> var c := chunks[i];
        && c.Contents() == old(c.Contents()) && c.visible == old(c.visible)
        && c.dirty == (old(c.dirty) && kind.VoxelPass?)
    {
      if kind.MiningPass? {
        var requests := RefreshChunks(chunks);
        co := co.(refreshing := true, passKind := kind, passChunks := chunks, passRequests := requests);
      } else {
        co := co.(refreshing := true, passKind := kind, passChunks := [], passRequests := []);
      }
    }

    /** `_refreshMiningMeshes()` (`MiningPass`) or `_refreshVoxelMiningMeshes()`
        (`VoxelPass`) up to its `await`: during a pass the request is only
        queued, otherwise a pass starts. */
    method RequestRefresh(kind: Pass)
      requires Valid()
      modifies this, ChunkSet(chunks)
      ensures Valid() && chunks == old(chunks) && voxelChunks == old(voxelChunks)
      ensures old(co.refreshing) ==> co == old(co).(refreshQueued := true)
      ensures !old(co.refreshing) ==> co == old(co).(refreshing := true, passKind := kind,
        passChunks := (if kind.MiningPass? then chunks else []), passRequests := co.passRequests)
      ensures !old(co.refreshing) && kind.MiningPass? ==> forall i :: 0 <= i < |chunks| ==>
        co.passRequests[i] == if old(chunks[i].dirty) then Some(old(chunks[i].Contents())) else None
      ensures forall i :: 0 <= i < |chunks| ==> var c := chunks[i];
        && c.Contents() == old(c.Contents()) && c.visible == old(c.visible)
        && c.dirty == (old(c.dirty) && (old(co.refreshing) || kind.VoxelPass?))
    {
      if !co.refreshing {
        StartPass(kind);
      } else {
        co := co.(refreshQueued := true);
      }
    }

    /** The install callbacks of the pass in flight, in order: each chunk that
        sent its fields becomes visible exactly when its march response holds
        positions; the others keep their flag. */
    method InstallAll(positionCounts: seq<nat>)
      requires Valid() && |positionCounts| == |co.passChunks|
      modifies ChunkSet(co.passChunks)
      ensures forall i :: 0 <= i < |co.passChunks| ==>
        co.passChunks[i].visible == (if co.passRequests[i].Some? then positionCounts[i] > 0 else old(co.passChunks[i].visible))
      ensures forall i :: 0 <= i < |chunks| && chunks[i] !in co.passChunks ==> chunks[i].visible == old(chunks[i].visible)
      ensures forall i :: 0 <= i < |chunks| ==>
        chunks[i].dirty == old(chunks[i].dirty) && chunks[i].Contents() == old(chunks[i].Contents())
    {
      for i := 0 to |co.passChunks|
        invariant forall j :: 0 <= j < |co.passChunks| ==>
          co.passChunks[j].visible == (if j < i && co.passRequests[j].Some? then positionCounts[j] > 0 else old(co.passChunks[j].visible))
        invariant forall j :: 0 <= j < |chunks| && chunks[j] !in co.passChunks ==>
          chunks[j].visible == old(chunks[j].visible)
        invariant forall j :: 0 <= j < |chunks| ==>
          chunks[j].dirty == old(chunks[j].dirty) && chunks[j].Contents() == old(chunks[j].Contents())
      {
        var c := co.passChunks[i];
        assert forall j :: 0 <= j < |co.passChunks| && j != i ==> co.passChunks[j] != c;
        if co.passRequests[i].Some? {
          c.Install(positionCounts[i]);
        }
      }
    }

    /** The rest of a refresh pass once every march response (its position
        count, one per chunk the pass asked) is in: the installs run, the commit
        tool is shown exactly when some mining chunk is visible (for the voxel
        pass too), and then a queued request runs the same function again, or
        else every waiter is released. */
    method FinishRefresh(positionCounts: seq<nat>)
      requires Valid() && co.refreshing && |positionCounts| == |co.passChunks|
      modifies this, ChunkSet(co.passChunks), ChunkSet(chunks)
      ensures Valid() && chunks == old(chunks) && voxelChunks == old(voxelChunks)
      ensures co.commitToolShown == AnyVisible(chunks)
      ensures co.committing == old(co.committing) && co.commitQueued == old(co.commitQueued)
      ensures co.commitPhase == old(co.commitPhase) && co.commitTicket == old(co.commitTicket) && co.objects == old(co.objects)
      ensures forall i :: 0 <= i < |old(co.passChunks)| ==> var c := old(co.passChunks)[i];
        c.visible == (if old(co.passRequests)[i].Some? then positionCounts[i] > 0 else old(c.visible))
      ensures forall i :: 0 <= i < |chunks| && chunks[i] !in old(co.passChunks) ==> chunks[i].visible == old(chunks[i].visible)
      ensures forall i :: 0 <= i < |chunks| ==> chunks[i].Contents() == old(chunks[i].Contents())
      ensures old(co.refreshQueued) ==>
        && co.refreshing && !co.refreshQueued && co.passKind == old(co.passKind)
        && co.refreshCbs == old(co.refreshCbs) && co.released == old(co.released)
        && co.passChunks == (if co.passKind.MiningPass? then chunks else [])
        && (co.passKind.MiningPass? ==> forall i :: 0 <= i < |chunks| ==>
              co.passRequests[i] == if old(chunks[i].dirty) then Some(old(chunks[i].Contents())) else None)
        && (forall i :: 0 <= i < |chunks| ==> chunks[i].dirty == (old(chunks[i].dirty) && co.passKind.VoxelPass?))
      ensures !old(co.refreshQueued) ==>
        && !co.refreshing && co.refreshCbs == [] && co.released == old(co.released) + old(co.refreshCbs)
        && co.passChunks == [] && co.passRequests == []
        && (forall i :: 0 <= i < |chunks| ==> chunks[i].dirty == old(chunks[i].dirty))
    {
      InstallAll(positionCounts);
      co := co.(commitToolShown := AnyVisible(chunks), refreshing := false, passChunks := [], passRequests := []);
      if co.refreshQueued {
        co := co.(refreshQueued := false);
        StartPass(co.passKind);
      } else {
        co := co.(released := co.released + co.refreshCbs, refreshCbs := []);
      }
    }

    /** `_waitForMiningMesh()` up to its `await`: during a pass the waiter `id`
        joins `refreshCbs`; otherwise it goes on at once. */
    method WaitForMiningMesh(id: nat) returns (immediate: bool)
      requires Valid()
      modifies this
      ensures Valid() && chunks == old(chunks) && voxelChunks == old(voxelChunks)
      ensures immediate == !old(co.refreshing)
      ensures co == old(co).(refreshCbs := if immediate then old(co.refreshCbs) else old(co.refreshCbs) + [id])
    {
      if co.refreshing {
        co := co.(refreshCbs := co.refreshCbs + [id]);
        immediate := false;
      } else {
        immediate := true;
      }
    }

    /** `_newMiningMeshes()`: the collection is emptied and a refresh asked for. */
    method NewMiningChunks()
      requires Valid()
      modifies this
      ensures Valid() && chunks == [] && voxelChunks == old(voxelChunks)
      ensures co == AskEmptyRefresh(old(co))
    {
      chunks := [];
      RequestRefresh(MiningPass);
    }

    /** `_commitMiningMeshes()` up to its first `await`. */
    method RequestCommit()
      requires Valid()
      modifies this
      ensures Valid() && chunks == old(chunks) && voxelChunks == old(voxelChunks)
      ensures co == AskCommit(old(co))
    {
      if !co.committing {
        co := co.(committing := true, commitPhase := Waiting, commitTicket := co.commitTicket + 1);
        var _ := WaitForMiningMesh(co.commitTicket);
      } else {
        co := co.(commitQueued := true);
      }
    }

    /** The end of a commit, and the start of a queued one. */
    method FinishCommit()
      requires Valid() && co.committing
      modifies this
      ensures Valid() && chunks == old(chunks) && voxelChunks == old(voxelChunks)
      ensures co == EndCommit(old(co))
    {
      co := co.(committing := false, commitPhase := Idle);
      if co.commitQueued {
        co := co.(commitQueued := false);
        RequestCommit();
      }
    }

    /** `_commitMiningMeshes()` once its waiter is released (or at once, when no
        pass was in flight): when some chunk is visible (`VisibleChunksEmpty`),
        the visible chunks are merged into one new object mesh, the collection is
        emptied and a refresh asked for, and the commit awaits the new object's
        parameterization; otherwise the commit ends here. */
    method ResumeCommit()
      requires Valid() && co.commitPhase.Waiting? && co.commitTicket !in co.refreshCbs
      modifies this
      ensures Valid() && voxelChunks == old(voxelChunks)
      ensures var merged := old(VisibleChunks(chunks));
        if merged != [] then
          chunks == [] && co == AskEmptyRefresh(old(co)).(commitPhase := Parameterizing, objects := old(co.objects) + [merged])
        else
          chunks == old(chunks) && co == EndCommit(old(co))
    {
      var visible := VisibleChunks(chunks);
      if visible != [] {
        co := co.(objects := co.objects + [visible]);
        NewMiningChunks();
        co := co.(commitPhase := Parameterizing);
      } else {
        FinishCommit();
      }
    }

    /** `_commitMiningMeshes()` once `_parameterizeObjectMesh` has settled. */
    method FinishParameterize()
      requires Valid() && co.commitPhase.Parameterizing?
      modifies this
      ensures Valid() && chunks == old(chunks) && voxelChunks == old(voxelChunks)
      ensures co == EndCommit(old(co))
    {
      FinishCommit();
    }
  }
}
