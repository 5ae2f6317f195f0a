/**
 * The face-emission rule of the greedy voxel mesher (create.js, `getMeshData`).
 *
 * For one cell of a face plane, `a` is the voxel behind the plane and `b` the voxel
 * in front of it (0 is the "absent" value; voxels outside the grid read as 0).
 * The rule decides which of the two faces of that cell is drawn: the forward face,
 * drawn with colour `a`, and the backward face, drawn with colour `b`. A colour of 0
 * means "no face". The two mask bits say that the face is transparent.
 */
module FaceRule {

  datatype FaceCell = FaceCell(a: int, b: int, aMask: bool, bMask: bool)

  /** The cell that draws neither face. */
  const NoFace := FaceCell(0, 0, false, false)

  /** The rule applied to the pair `(a, b)`; `transparent` and `translucent` are
      the material predicates the caller supplies. */
  function Face(a: int, b: int, transparent: int -> bool, translucent: int -> bool): (r: FaceCell)
    // each face is coloured by its own voxel, or not drawn
    ensures r.a == a || r.a == 0
    ensures r.b == b || r.b == 0
    // equal voxels, neither translucent: an interior plane, nothing is drawn
    ensures a == b && !translucent(a) ==> r == NoFace
    // two different solid voxels: nothing is drawn either
    ensures a != 0 && b != 0 && a != b && !transparent(a) && !transparent(b) ==> r == NoFace
    // a solid against absent or transparent: one forward face, coloured by a
    ensures a != 0 && (b == 0 || transparent(b)) && !(transparent(a) && transparent(b))
      ==> r == FaceCell(a, 0, transparent(a), false)
    // b solid against absent or transparent: one backward face, coloured by b
    ensures b != 0 && (a == 0 || transparent(a)) && !(transparent(a) && transparent(b))
      ==> r == FaceCell(0, b, false, transparent(b))
    // both transparent (and the plane is not interior): both faces, both flagged
    ensures transparent(a) && transparent(b) && (a != b || translucent(a) || translucent(b))
      ==> r == FaceCell(a, b, true, true)
    // equal voxels that are translucent but not transparent: nothing is drawn
    ensures a == b && !transparent(a) ==> r == NoFace
    // a face is drawn only across differing or translucent voxels
    ensures r != NoFace ==> a != b || translucent(a) || translucent(b)
  {
    if a != b || translucent(a) || translucent(b) then
      var aT := transparent(a);
      var bT := transparent(b);
      if aT && bT then
        FaceCell(a, b, aT, bT)
      else if a != 0 && (b == 0 || bT) then
        FaceCell(a, 0, aT, false)
      else if b != 0 && (a == 0 || aT) then
        FaceCell(0, b, false, bT)
      else
        NoFace
    else
      NoFace
  }

  /** The value a voxel takes once stored in the mesher's `Uint32Array` colour
      buffers: JavaScript's ToUint32, which is the remainder modulo 2^32. */
  function ToUint32(v: int): (r: int)
    ensures 0 <= r < 0x1_0000_0000
    ensures 0 <= v < 0x1_0000_0000 ==> r == v
  {
    v % 0x1_0000_0000
  }
}
