/**
 * The greedy rectangle merge of the voxel mesher (create.js, `generateMesh` inside
 * `getMeshData`).
 *
 * A mask is a `dimsU` by `dimsV` plane stored row by row in a flat buffer: cell
 * `(i, j)` lives at `i + j * dimsU`. Each cell holds a colour (0 means "no face")
 * and a transparency bit. The merge scans the cells in lexicographic order; at every
 * cell that still holds a colour it grows a run of equal colour along `u` (the
 * width), extends the run row by row along `v` while the whole row matches (the
 * height), records the rectangle and zeroes its cells.
 */
module GreedyMerge {
  import opened Arith

  /** A merged rectangle: start cell `(i, j)`, width `w`, height `h`, the colour `c`
      of every cell in it and the transparency bit `t` of its start cell. */
  datatype Rect = Rect(i: nat, j: nat, w: nat, h: nat, c: int, t: bool)

  /** The buffer offset of cell `(i, j)` of a `dimsU` by `dimsV` plane. The offset
      lies inside the plane and the cell can be read back from it, so two cells
      never share an offset. */
  function Idx(dimsU: nat, dimsV: nat, i: int, j: int): (n: nat)
    requires 0 <= i < dimsU && 0 <= j < dimsV
    ensures n < dimsU * dimsV
    ensures n % dimsU == i && n / dimsU == j
  {
    DivModUnique(i + j * dimsU, dimsU, j, i);
    assert (dimsV - j) * dimsU == dimsV * dimsU - j * dimsU;
    MulAtLeast(dimsV - j, dimsU);
    i + j * dimsU
  }

  predicate InRect(r: Rect, x: int, y: int) {
    r.i <= x < r.i + r.w && r.j <= y < r.j + r.h
  }

  /** How many of the rectangles contain cell `(x, y)`. */
  function CoverCount(rs: seq<Rect>, x: int, y: int): nat
  {
    if rs == [] then 0
    else CoverCount(rs[..|rs| - 1], x, y) + (if InRect(rs[|rs| - 1], x, y) then 1 else 0)
  }

  lemma CoverCountSnoc(rs: seq<Rect>, r: Rect, x: int, y: int)
    ensures CoverCount(rs + [r], x, y) == CoverCount(rs, x, y) + (if InRect(r, x, y) then 1 else 0)
  {
    assert (rs + [r])[..|rs|] == rs;
  }

  /** Cell `(x, y)` comes before the scan position `(i, j)`. */
  predicate Before(x: int, y: int, i: int, j: int) {
    y < j || (y == j && x < i)
  }

  /** `r` is a rectangle of the plane whose cells all hold its colour in `colors` and
      whose transparency bit is that of its start cell in `bits`. */
  ghost predicate RectOf(r: Rect, colors: seq<int>, bits: seq<bool>, dimsU: nat, dimsV: nat)
    requires dimsU * dimsV <= |colors| && dimsU * dimsV <= |bits|
  {
    && 1 <= r.w && r.i + r.w <= dimsU
    && 1 <= r.h && r.j + r.h <= dimsV
    && r.c != 0
    && r.t == bits[Idx(dimsU, dimsV, r.i, r.j)]
    && forall x, y :: InRect(r, x, y) ==> colors[Idx(dimsU, dimsV, x, y)] == r.c
  }

  /** The rectangles split the non-zero cells of the mask: each is uniform in colour,
      every non-zero cell lies in exactly one of them and no zero cell in any. */
  ghost predicate Partition(rs: seq<Rect>, colors: seq<int>, bits: seq<bool>, dimsU: nat, dimsV: nat)
    requires dimsU * dimsV <= |colors| && dimsU * dimsV <= |bits|
  {
    && (forall k :: 0 <= k < |rs| ==> RectOf(rs[k], colors, bits, dimsU, dimsV))
    && (forall x, y :: 0 <= x < dimsU && 0 <= y < dimsV ==>
          CoverCount(rs, x, y) == if colors[Idx(dimsU, dimsV, x, y)] != 0 then 1 else 0)
  }

  /** The rectangles are listed in the lexicographic order of their start cells. */
  predicate StartsOrdered(rs: seq<Rect>) {
    forall k, l :: 0 <= k < l < |rs| ==> Before(rs[k].i, rs[k].j, rs[l].i, rs[l].j)
  }

  /** The colour cell `(x, y)` holds once the rectangles `rs` have been zeroed. */
  function Residual(rs: seq<Rect>, colors: seq<int>, dimsU: nat, dimsV: nat, x: int, y: int): int
    requires dimsU * dimsV <= |colors| && 0 <= x < dimsU && 0 <= y < dimsV
  {
    if CoverCount(rs, x, y) == 0 then colors[Idx(dimsU, dimsV, x, y)] else 0
  }

  /** `r` is the rectangle the greedy scan takes from the mask left after `prev`:
      it starts at the first cell in scan order that still holds a colour, its
      width stops at the row end or at the first cell of another colour, and its
      height stops at the last row or at the first row that breaks the run. */
  ghost predicate GreedyStep(prev: seq<Rect>, r: Rect, colors: seq<int>, dimsU: nat, dimsV: nat)
    requires dimsU * dimsV <= |colors|
  {
    && 1 <= r.w && r.i + r.w <= dimsU && 1 <= r.h && r.j + r.h <= dimsV
    && Residual(prev, colors, dimsU, dimsV, r.i, r.j) == r.c != 0
    && (forall x, y :: 0 <= x < dimsU && 0 <= y < dimsV && Before(x, y, r.i, r.j) ==>
          Residual(prev, colors, dimsU, dimsV, x, y) == 0)
    && (r.i + r.w == dimsU || Residual(prev, colors, dimsU, dimsV, r.i + r.w, r.j) != r.c)
    && (r.j + r.h == dimsV || ResidualRowBreaks(prev, colors, dimsU, dimsV, r.i, r.w, r.j + r.h, r.c))
  }

  /** Some cell of the run `[i, i + w)` on row `y` of the mask left after `prev` does
      not hold `c`. */
  ghost predicate ResidualRowBreaks(prev: seq<Rect>, colors: seq<int>, dimsU: nat, dimsV: nat,
                                    i: nat, w: nat, y: nat, c: int)
    requires dimsU * dimsV <= |colors| && i + w <= dimsU && y < dimsV
  {
    exists x :: i <= x < i + w && Residual(prev, colors, dimsU, dimsV, x, y) != c
  }

  /** Every rectangle is the greedy choice given the ones before it. */
  ghost predicate Greedy(rs: seq<Rect>, colors: seq<int>, dimsU: nat, dimsV: nat)
    requires dimsU * dimsV <= |colors|
  {
    forall k {:trigger GreedyStep(rs[..k], rs[k], colors, dimsU, dimsV)} :: 0 <= k < |rs| ==> GreedyStep(rs[..k], rs[k], colors, dimsU, dimsV)
  }

  lemma {:induction false} CoverCountAtLeastOne(rs: seq<Rect>, k: nat, x: int, y: int)
    requires k < |rs| && InRect(rs[k], x, y)
    ensures CoverCount(rs, x, y) >= 1
  {
    if k < |rs| - 1 {
      CoverCountAtLeastOne(rs[..|rs| - 1], k, x, y);
    }
  }

  lemma {:induction false} CoverCountAtLeastTwo(rs: seq<Rect>, k: nat, l: nat, x: int, y: int)
    requires k < l < |rs| && InRect(rs[k], x, y) && InRect(rs[l], x, y)
    ensures CoverCount(rs, x, y) >= 2
  {
    var front := rs[..|rs| - 1];
    if l < |rs| - 1 {
      CoverCountAtLeastTwo(front, k, l, x, y);
    } else {
      CoverCountAtLeastOne(front, k, x, y);
    }
  }

  lemma {:induction false} CoverCountWitness(rs: seq<Rect>, x: int, y: int) returns (k: nat)
    requires CoverCount(rs, x, y) >= 1
    ensures k < |rs| && InRect(rs[k], x, y)
  {
    var front := rs[..|rs| - 1];
    if InRect(rs[|rs| - 1], x, y) {
      k := |rs| - 1;
    } else {
      k := CoverCountWitness(front, x, y);
    }
  }

  /** The rectangles of a partition never overlap. */
  lemma PartitionDisjoint(rs: seq<Rect>, colors: seq<int>, bits: seq<bool>, dimsU: nat, dimsV: nat,
                          k: nat, l: nat, x: int, y: int)
    requires dimsU * dimsV <= |colors| && dimsU * dimsV <= |bits|
    requires Partition(rs, colors, bits, dimsU, dimsV)
    requires k < |rs| && l < |rs| && k != l
    ensures !(InRect(rs[k], x, y) && InRect(rs[l], x, y))
  {
    if InRect(rs[k], x, y) && InRect(rs[l], x, y) {
      assert RectOf(rs[k], colors, bits, dimsU, dimsV);
      assert CoverCount(rs, x, y) <= 1;
      if k < l {
        CoverCountAtLeastTwo(rs, k, l, x, y);
      } else {
        CoverCountAtLeastTwo(rs, l, k, x, y);
      }
    }
  }

  /** Every non-zero cell of the mask is the cell of some rectangle of a partition,
      and that rectangle carries the cell's colour. */
  lemma PartitionCovers(rs: seq<Rect>, colors: seq<int>, bits: seq<bool>, dimsU: nat, dimsV: nat,
                        x: int, y: int) returns (k: nat)
    requires dimsU * dimsV <= |colors| && dimsU * dimsV <= |bits|
    requires Partition(rs, colors, bits, dimsU, dimsV)
    requires 0 <= x < dimsU && 0 <= y < dimsV && colors[Idx(dimsU, dimsV, x, y)] != 0
    ensures k < |rs| && InRect(rs[k], x, y) && rs[k].c == colors[Idx(dimsU, dimsV, x, y)]
  {
    k := CoverCountWitness(rs, x, y);
    assert RectOf(rs[k], colors, bits, dimsU, dimsV);
  }

  /** The loop invariant of the merge, at scan position `(i, j)`: the rectangles found
      so far are rectangles of the original mask `c0`/`m0`, they do not overlap, the
      cells they cover are zeroed and every other cell still holds its original value,
      and every cell before the scan position is zero. */
  ghost predicate Scanned(rs: seq<Rect>, colors: seq<int>, bits: seq<bool>, c0: seq<int>, m0: seq<bool>,
                          dimsU: nat, dimsV: nat, i: int, j: int)
    requires dimsU * dimsV <= |colors| == |c0| && dimsU * dimsV <= |bits| == |m0|
  {
    && (forall k :: 0 <= k < |rs| ==> RectOf(rs[k], c0, m0, dimsU, dimsV))
    && (forall k :: 0 <= k < |rs| ==> Before(rs[k].i, rs[k].j, i, j))
    && StartsOrdered(rs)
    && Greedy(rs, c0, dimsU, dimsV)
    && (forall x, y :: 0 <= x < dimsU && 0 <= y < dimsV ==>
          && CoverCount(rs, x, y) <= 1
          && colors[Idx(dimsU, dimsV, x, y)] == (if CoverCount(rs, x, y) == 1 then 0 else c0[Idx(dimsU, dimsV, x, y)])
          && bits[Idx(dimsU, dimsV, x, y)] == (if CoverCount(rs, x, y) == 1 then false else m0[Idx(dimsU, dimsV, x, y)])
          && (Before(x, y, i, j) ==> colors[Idx(dimsU, dimsV, x, y)] == 0))
    && (forall n :: dimsU * dimsV <= n < |colors| ==> colors[n] == c0[n])
    && (forall n :: dimsU * dimsV <= n < |bits| ==> bits[n] == m0[n])
  }

  /** Generates the rectangles of one mask, zeroing the merged cells in place. The
      mask buffers are shared by all planes, so they may be longer than the plane. */
  method GenerateMesh(colors: array<int>, mask: array<bool>, dimsU: nat, dimsV: nat) returns (rs: seq<Rect>)
    requires dimsU * dimsV <= colors.Length && dimsU * dimsV <= mask.Length
    modifies colors, mask
    ensures Partition(rs, old(colors[..]), old(mask[..]), dimsU, dimsV)
    ensures StartsOrdered(rs) && Greedy(rs, old(colors[..]), dimsU, dimsV)
    ensures forall x, y :: 0 <= x < dimsU && 0 <= y < dimsV ==>
      colors[Idx(dimsU, dimsV, x, y)] == 0 &&
      mask[Idx(dimsU, dimsV, x, y)] == (old(colors[Idx(dimsU, dimsV, x, y)]) == 0 && old(mask[Idx(dimsU, dimsV, x, y)]))
    ensures forall n :: dimsU * dimsV <= n < colors.Length ==> colors[n] == old(colors[n])
    ensures forall n :: dimsU * dimsV <= n < mask.Length ==> mask[n] == old(mask[n])
  {
    ghost var c0, m0 := colors[..], mask[..];
    rs := [];
    var j := 0;
    while j < dimsV
      invariant 0 <= j <= dimsV
      invariant Scanned(rs, colors[..], mask[..], c0, m0, dimsU, dimsV, 0, j)
    {
      rs := MergeRow(colors, mask, dimsU, dimsV, j, rs, c0, m0);
      RowDoneKeepsScanned(rs, colors[..], mask[..], c0, m0, dimsU, dimsV, j);
      j := j + 1;
    }
    ScannedAllIsPartition(rs, colors[..], mask[..], c0, m0, dimsU, dimsV);
  }

  /** One row `j` of the scan: every cell of the row that still holds a colour starts
      a rectangle, which is recorded and zeroed. */
  method MergeRow(colors: array<int>, mask: array<bool>, dimsU: nat, dimsV: nat, j: nat, rs: seq<Rect>,
                  ghost c0: seq<int>, ghost m0: seq<bool>)
    returns (rs': seq<Rect>)
    requires dimsU * dimsV <= colors.Length == |c0| && dimsU * dimsV <= mask.Length == |m0| && j < dimsV
    requires Scanned(rs, colors[..], mask[..], c0, m0, dimsU, dimsV, 0, j)
    modifies colors, mask
    ensures Scanned(rs', colors[..], mask[..], c0, m0, dimsU, dimsV, dimsU, j)
  {
    rs' := rs;
    var n := j * dimsU;
    var i := 0;
    while i < dimsU
      invariant 0 <= i <= dimsU
      invariant n == i + j * dimsU
      invariant Scanned(rs', colors[..], mask[..], c0, m0, dimsU, dimsV, i, j)
    {
      assert n == Idx(dimsU, dimsV, i, j);
      var c := colors[n];
      var t := mask[n];
      if c == 0 {
        ZeroCellKeepsScanned(rs', colors[..], mask[..], c0, m0, dimsU, dimsV, i, j);
        i, n := i + 1, n + 1;
      } else {
        var w := ScanWidth(colors, dimsU, dimsV, i, j, c);
        var h := ScanHeight(colors, dimsU, dimsV, i, j, w, c);
        ghost var cb, mb := colors[..], mask[..];
        ZeroRectangle(colors, mask, dimsU, dimsV, i, j, w, h);
        NewRectKeepsScanned(rs', Rect(i, j, w, h, c, t), colors[..], mask[..], cb, mb, c0, m0, dimsU, dimsV);
        rs' := rs' + [Rect(i, j, w, h, c, t)];
        i, n := i + w, n + w;
      }
    }
  }

  lemma ZeroCellKeepsScanned(rs: seq<Rect>, colors: seq<int>, bits: seq<bool>, c0: seq<int>, m0: seq<bool>,
                             dimsU: nat, dimsV: nat, i: nat, j: nat)
    requires dimsU * dimsV <= |colors| == |c0| && dimsU * dimsV <= |bits| == |m0|
    requires i < dimsU && j < dimsV && colors[Idx(dimsU, dimsV, i, j)] == 0
    requires Scanned(rs, colors, bits, c0, m0, dimsU, dimsV, i, j)
    ensures Scanned(rs, colors, bits, c0, m0, dimsU, dimsV, i + 1, j)
  {
  }

  lemma RowDoneKeepsScanned(rs: seq<Rect>, colors: seq<int>, bits: seq<bool>, c0: seq<int>, m0: seq<bool>,
                            dimsU: nat, dimsV: nat, j: nat)
    requires dimsU * dimsV <= |colors| == |c0| && dimsU * dimsV <= |bits| == |m0|
    requires Scanned(rs, colors, bits, c0, m0, dimsU, dimsV, dimsU, j)
    ensures Scanned(rs, colors, bits, c0, m0, dimsU, dimsV, 0, j + 1)
  {
  }

  /** Once the scan has passed the last row, the rectangles partition the original
      mask and every cell is zero. */
  lemma ScannedAllIsPartition(rs: seq<Rect>, colors: seq<int>, bits: seq<bool>, c0: seq<int>, m0: seq<bool>,
                              dimsU: nat, dimsV: nat)
    requires dimsU * dimsV <= |colors| == |c0| && dimsU * dimsV <= |bits| == |m0|
    requires Scanned(rs, colors, bits, c0, m0, dimsU, dimsV, 0, dimsV)
    ensures Partition(rs, c0, m0, dimsU, dimsV)
    ensures StartsOrdered(rs) && Greedy(rs, c0, dimsU, dimsV)
    ensures forall x, y :: 0 <= x < dimsU && 0 <= y < dimsV ==>
      colors[Idx(dimsU, dimsV, x, y)] == 0 &&
      bits[Idx(dimsU, dimsV, x, y)] == (c0[Idx(dimsU, dimsV, x, y)] == 0 && m0[Idx(dimsU, dimsV, x, y)])
    ensures forall n :: dimsU * dimsV <= n < |colors| ==> colors[n] == c0[n]
    ensures forall n :: dimsU * dimsV <= n < |bits| ==> bits[n] == m0[n]
  {
    forall x, y | 0 <= x < dimsU && 0 <= y < dimsV
      ensures CoverCount(rs, x, y) == if c0[Idx(dimsU, dimsV, x, y)] != 0 then 1 else 0
    {
      if CoverCount(rs, x, y) == 1 {
        var k := CoverCountWitness(rs, x, y);
        assert RectOf(rs[k], c0, m0, dimsU, dimsV);
      }
    }
  }

  /** The run of cells equal to `c` that starts at `(i, j)` along the row: its width
      `w` is as large as it can be. */
  method ScanWidth(colors: array<int>, dimsU: nat, dimsV: nat, i: nat, j: nat, c: int) returns (w: nat)
    requires dimsU * dimsV <= colors.Length
    requires i < dimsU && j < dimsV && colors[Idx(dimsU, dimsV, i, j)] == c
    ensures 1 <= w <= dimsU - i
    ensures forall x :: i <= x < i + w ==> colors[Idx(dimsU, dimsV, x, j)] == c
    ensures i + w == dimsU || colors[Idx(dimsU, dimsV, i + w, j)] != c
  {
    var n := i + j * dimsU;
    RowFits(dimsU, dimsV, j);
    w := 1;
    while i + w < dimsU && c == colors[n + w]
      invariant 1 <= w <= dimsU - i
      invariant n - i + dimsU <= dimsU * dimsV
      invariant forall x :: i <= x < i + w ==> colors[Idx(dimsU, dimsV, x, j)] == c
    {
      assert n + w == Idx(dimsU, dimsV, i + w, j);
      w := w + 1;
    }
    if i + w < dimsU {
      assert n + w == Idx(dimsU, dimsV, i + w, j);
    }
  }

  /** How many rows, starting with row `j`, repeat the whole run `[i, i + w)` of `c`:
      the height `h` stops at the first row that breaks the run. */
  method ScanHeight(colors: array<int>, dimsU: nat, dimsV: nat, i: nat, j: nat, w: nat, c: int) returns (h: nat)
    requires dimsU * dimsV <= colors.Length
    requires 1 <= w && i + w <= dimsU && j < dimsV
    requires forall x :: i <= x < i + w ==> colors[Idx(dimsU, dimsV, x, j)] == c
    ensures 1 <= h <= dimsV - j
    ensures forall x, y :: i <= x < i + w && j <= y < j + h ==> colors[Idx(dimsU, dimsV, x, y)] == c
    ensures j + h == dimsV || RowBreaks(colors[..], dimsU, dimsV, i, w, j + h, c)
  {
    var n := i + j * dimsU;
    h := 1;
    while j + h < dimsV
      invariant 1 <= h <= dimsV - j
      invariant forall x, y :: i <= x < i + w && j <= y < j + h ==> colors[Idx(dimsU, dimsV, x, y)] == c
    {
      var k := MatchRow(colors, dimsU, dimsV, n, i, j, h, w, c, j + h);
      if k < w {
        break;
      }
      h := h + 1;
    }
  }

  /** The length `k` of the prefix of the run `[i, i + w)` of row `j + h` whose
      cells hold `c`; `n` is the offset of `(i, j)`. */
  method MatchRow(colors: array<int>, dimsU: nat, dimsV: nat, n: nat, i: nat, j: nat, h: nat, w: nat, c: int,
                  ghost row: nat)
    returns (k: nat)
    requires dimsU * dimsV <= colors.Length
    requires 1 <= w && i + w <= dimsU && row == j + h < dimsV && n == i + j * dimsU
    ensures k <= w
    ensures forall x :: i <= x < i + k ==> colors[Idx(dimsU, dimsV, x, row)] == c
    ensures k < w ==> RowBreaks(colors[..], dimsU, dimsV, i, w, row, c)
  {
    RowFits(dimsU, dimsV, row);
    assert row * dimsU == j * dimsU + h * dimsU;
    k := 0;
    while k < w && c == colors[n + k + h * dimsU]
      invariant 0 <= k <= w
      invariant forall x :: i <= x < i + k ==> colors[Idx(dimsU, dimsV, x, row)] == c
    {
      assert n + k + h * dimsU == Idx(dimsU, dimsV, i + k, row);
      k := k + 1;
    }
    if k < w {
      assert n + k + h * dimsU == Idx(dimsU, dimsV, i + k, row);
      assert colors[..][Idx(dimsU, dimsV, i + k, row)] != c;
    }
  }

  /** Some cell of the run `[i, i + w)` on row `y` does not hold `c`. */
  ghost predicate RowBreaks(colors: seq<int>, dimsU: nat, dimsV: nat, i: nat, w: nat, y: nat, c: int)
    requires i + w <= dimsU && y < dimsV && dimsU * dimsV <= |colors|
  {
    exists x :: i <= x < i + w && colors[Idx(dimsU, dimsV, x, y)] != c
  }

  /** Zeroes the colour and the bit of every cell of the rectangle `(i, j, w, h)`. */
  method ZeroRectangle(colors: array<int>, mask: array<bool>, dimsU: nat, dimsV: nat, i: nat, j: nat, w: nat, h: nat)
    requires dimsU * dimsV <= colors.Length && dimsU * dimsV <= mask.Length
    requires 1 <= w && i + w <= dimsU && 1 <= h && j + h <= dimsV
    modifies colors, mask
    ensures forall x, y :: 0 <= x < dimsU && 0 <= y < dimsV ==>
      && colors[Idx(dimsU, dimsV, x, y)] == (if InRect(Rect(i, j, w, h, 0, false), x, y) then 0 else old(colors[Idx(dimsU, dimsV, x, y)]))
      && mask[Idx(dimsU, dimsV, x, y)] == (if InRect(Rect(i, j, w, h, 0, false), x, y) then false else old(mask[Idx(dimsU, dimsV, x, y)]))
    ensures forall m :: dimsU * dimsV <= m < colors.Length ==> colors[m] == old(colors[m])
    ensures forall m :: dimsU * dimsV <= m < mask.Length ==> mask[m] == old(mask[m])
  {
    var n := i + j * dimsU;
    var W := n + w;
    var l := 0;
    while l < h
      invariant 0 <= l <= h
      invariant forall x, y :: 0 <= x < dimsU && 0 <= y < dimsV ==>
        && colors[Idx(dimsU, dimsV, x, y)] == (if InRect(Rect(i, j, w, l, 0, false), x, y) then 0 else old(colors[Idx(dimsU, dimsV, x, y)]))
        && mask[Idx(dimsU, dimsV, x, y)] == (if InRect(Rect(i, j, w, l, 0, false), x, y) then false else old(mask[Idx(dimsU, dimsV, x, y)]))
      invariant forall m :: dimsU * dimsV <= m < colors.Length ==> colors[m] == old(colors[m])
      invariant forall m :: dimsU * dimsV <= m < mask.Length ==> mask[m] == old(mask[m])
    {
      var k := n;
      while k < W
        invariant n <= k <= W
        invariant forall x, y :: 0 <= x < dimsU && 0 <= y < dimsV ==>
          && colors[Idx(dimsU, dimsV, x, y)] == (if InRect(Rect(i, j, w, l, 0, false), x, y) || (y == j + l && i <= x < i + (k - n)) then 0 else old(colors[Idx(dimsU, dimsV, x, y)]))
          && mask[Idx(dimsU, dimsV, x, y)] == (if InRect(Rect(i, j, w, l, 0, false), x, y) || (y == j + l && i <= x < i + (k - n)) then false else old(mask[Idx(dimsU, dimsV, x, y)]))
        invariant forall m :: dimsU * dimsV <= m < colors.Length ==> colors[m] == old(colors[m])
        invariant forall m :: dimsU * dimsV <= m < mask.Length ==> mask[m] == old(mask[m])
      {
        var index := k + l * dimsU;
        assert index == Idx(dimsU, dimsV, i + (k - n), j + l);
        colors[index] := 0;
        mask[index] := false;
        k := k + 1;
      }
      l := l + 1;
    }
  }

  /** Adding the rectangle that the scan found at `(r.i, r.j)` and zeroed keeps the
      loop invariant, with the scan position moved past the rectangle's first row. */
  lemma NewRectKeepsScanned(rs: seq<Rect>, r: Rect, colors: seq<int>, bits: seq<bool>,
                            colorsBefore: seq<int>, bitsBefore: seq<bool>,
                            c0: seq<int>, m0: seq<bool>, dimsU: nat, dimsV: nat)
    requires dimsU * dimsV <= |colors| == |colorsBefore| == |c0|
    requires dimsU * dimsV <= |bits| == |bitsBefore| == |m0|
    requires Scanned(rs, colorsBefore, bitsBefore, c0, m0, dimsU, dimsV, r.i, r.j)
    requires 1 <= r.w && r.i + r.w <= dimsU && 1 <= r.h && r.j + r.h <= dimsV && r.c != 0
    requires r.t == bitsBefore[Idx(dimsU, dimsV, r.i, r.j)]
    requires forall x, y :: InRect(r, x, y) ==> colorsBefore[Idx(dimsU, dimsV, x, y)] == r.c
    requires r.i + r.w == dimsU || colorsBefore[Idx(dimsU, dimsV, r.i + r.w, r.j)] != r.c
    requires r.j + r.h == dimsV || RowBreaks(colorsBefore, dimsU, dimsV, r.i, r.w, r.j + r.h, r.c)
    requires forall x, y :: 0 <= x < dimsU && 0 <= y < dimsV ==>
      && colors[Idx(dimsU, dimsV, x, y)] == (if InRect(r, x, y) then 0 else colorsBefore[Idx(dimsU, dimsV, x, y)])
      && bits[Idx(dimsU, dimsV, x, y)] == (if InRect(r, x, y) then false else bitsBefore[Idx(dimsU, dimsV, x, y)])
    requires forall m :: dimsU * dimsV <= m < |colors| ==> colors[m] == colorsBefore[m]
    requires forall m :: dimsU * dimsV <= m < |bits| ==> bits[m] == bitsBefore[m]
    ensures Scanned(rs + [r], colors, bits, c0, m0, dimsU, dimsV, r.i + r.w, r.j)
  {
    var rs' := rs + [r];
    forall x, y | 0 <= x < dimsU && 0 <= y < dimsV
      ensures CoverCount(rs', x, y) == CoverCount(rs, x, y) + (if InRect(r, x, y) then 1 else 0)
    {
      CoverCountSnoc(rs, r, x, y);
    }
    // the cells of r were uncovered, since they still held a non-zero colour
    assert forall x, y :: InRect(r, x, y) ==> CoverCount(rs, x, y) == 0 && c0[Idx(dimsU, dimsV, x, y)] == r.c;
    assert RectOf(r, c0, m0, dimsU, dimsV);
    assert forall k :: 0 <= k < |rs'| ==> RectOf(rs'[k], c0, m0, dimsU, dimsV) by {
      assert forall k :: 0 <= k < |rs| ==> rs'[k] == rs[k];
    }
    NewRectGreedy(rs, r, colorsBefore, bitsBefore, c0, m0, dimsU, dimsV);
    GreedySnoc(rs, r, c0, dimsU, dimsV);
  }

  /** The rectangle the scan found at `(r.i, r.j)` is the greedy choice: the cells
      the scan read are the mask left after the earlier rectangles. */
  lemma NewRectGreedy(rs: seq<Rect>, r: Rect, colorsBefore: seq<int>, bitsBefore: seq<bool>,
                      c0: seq<int>, m0: seq<bool>, dimsU: nat, dimsV: nat)
    requires dimsU * dimsV <= |colorsBefore| == |c0| && dimsU * dimsV <= |bitsBefore| == |m0|
    requires Scanned(rs, colorsBefore, bitsBefore, c0, m0, dimsU, dimsV, r.i, r.j)
    requires 1 <= r.w && r.i + r.w <= dimsU && 1 <= r.h && r.j + r.h <= dimsV && r.c != 0
    requires colorsBefore[Idx(dimsU, dimsV, r.i, r.j)] == r.c
    requires r.i + r.w == dimsU || colorsBefore[Idx(dimsU, dimsV, r.i + r.w, r.j)] != r.c
    requires r.j + r.h == dimsV || RowBreaks(colorsBefore, dimsU, dimsV, r.i, r.w, r.j + r.h, r.c)
    ensures GreedyStep(rs, r, c0, dimsU, dimsV)
  {
    assert forall x, y :: 0 <= x < dimsU && 0 <= y < dimsV ==>
      colorsBefore[Idx(dimsU, dimsV, x, y)] == Residual(rs, c0, dimsU, dimsV, x, y);
    if r.j + r.h < dimsV {
      var x :| r.i <= x < r.i + r.w && colorsBefore[Idx(dimsU, dimsV, x, r.j + r.h)] != r.c;
      assert Residual(rs, c0, dimsU, dimsV, x, r.j + r.h) != r.c;
    }
  }

  lemma GreedySnoc(rs: seq<Rect>, r: Rect, colors: seq<int>, dimsU: nat, dimsV: nat)
    requires dimsU * dimsV <= |colors|
    requires Greedy(rs, colors, dimsU, dimsV) && GreedyStep(rs, r, colors, dimsU, dimsV)
    ensures Greedy(rs + [r], colors, dimsU, dimsV)
  {
    var rs' := rs + [r];
    assert rs'[..|rs|] == rs;
    forall k | 0 <= k < |rs|
      ensures GreedyStep(rs'[..k], rs'[k], colors, dimsU, dimsV)
    {
      assert rs'[..k] == rs[..k];
    }
  }

  /** A plane of one colour merges into a single rectangle covering it all: the
      scan order and the greedy width and height pin the result down. */
  lemma GreedyUniform(rs: seq<Rect>, colors: seq<int>, bits: seq<bool>, dimsU: nat, dimsV: nat, c: int)
    requires 1 <= dimsU && 1 <= dimsV && dimsU * dimsV <= |colors| && dimsU * dimsV <= |bits| && c != 0
    requires forall x, y :: 0 <= x < dimsU && 0 <= y < dimsV ==> colors[Idx(dimsU, dimsV, x, y)] == c
    requires Partition(rs, colors, bits, dimsU, dimsV) && Greedy(rs, colors, dimsU, dimsV)
    ensures rs == [Rect(0, 0, dimsU, dimsV, c, bits[Idx(dimsU, dimsV, 0, 0)])]
  {
    var k := CoverCountWitness(rs, 0, 0);
    var r := rs[0];
    assert GreedyStep(rs[..0], r, colors, dimsU, dimsV);
    assert rs[..0] == [];
    // nothing is zeroed yet, so every cell still holds c
    assert forall x, y :: 0 <= x < dimsU && 0 <= y < dimsV ==> Residual([], colors, dimsU, dimsV, x, y) == c;
    assert Residual([], colors, dimsU, dimsV, 0, 0) == c;
    assert !Before(0, 0, r.i, r.j);
    assert RectOf(r, colors, bits, dimsU, dimsV);
    assert r == Rect(0, 0, dimsU, dimsV, c, bits[Idx(dimsU, dimsV, 0, 0)]);
    if |rs| > 1 {
      var s := rs[1];
      assert RectOf(s, colors, bits, dimsU, dimsV);
      CoverCountAtLeastTwo(rs, 0, 1, s.i, s.j);
      assert false;
    }
  }

}
