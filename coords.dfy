/**
 * The coordinate correction applied to every block-change position of a
 * recorded IGLU log (`fix_xyz` in gridworld/data/iglu_dataset.py).
 *
 * The recorded coordinates are shifted, linearised with a y stride of YMAX
 * (the faulty layout) and split again with the strides of the real
 * 11 x 9 x 11 box, then shifted back.
 */
module IgluCoords {

  const XMax := 11
  const YMax := 9
  const ZMax := 11

  /** COORD_SHIFT = [5, -63, 5] */
  const ShiftX := 5
  const ShiftY := -63
  const ShiftZ := 5

  datatype Coord = Coord(x: int, y: int, z: int)

  /** The linear index the faulty writer produced from shifted coordinates. */
  function FaultyIndex(x: int, y: int, z: int): int
  {
    (z + ShiftZ) + (y + ShiftY) * YMax + (x + ShiftX) * YMax * ZMax
  }

  /**
   * fix_xyz.  Python's `//` and `%` with a positive divisor agree with
   * Dafny's Euclidean `/` and `%`, so no adjustment is needed for
   * negative indices.
   */
  function FixXyz(x: int, y: int, z: int): (r: Coord)
    // the shifted result is the decomposition of the same index with the
    // real strides 99 / 11 / 1
    ensures YMax * ZMax * (r.x + ShiftX) + ZMax * (r.y + ShiftY) + (r.z + ShiftZ)
            == FaultyIndex(x, y, z)
    ensures 0 <= r.y + ShiftY < YMax && 0 <= r.z + ShiftZ < ZMax
    ensures 63 <= r.y <= 71 && -5 <= r.z <= 5
  {
    var index := FaultyIndex(x, y, z);
    var newX := index / (YMax * ZMax);
    var index1 := index % (YMax * ZMax);
    var newY := index1 / ZMax;
    var index2 := index1 % ZMax;
    var newZ := index2 % ZMax;
    Coord(newX - ShiftX, newY - ShiftY, newZ - ShiftZ)
  }

  /**
   * The decomposition is unique: any triple whose shifted y and z lie in
   * the box and whose real-stride index equals the faulty index is the
   * result of FixXyz.  Together with FixXyz's postcondition this pins the
   * result down completely.
   */
  lemma {:induction false} FixXyzUnique(x: int, y: int, z: int, a: int, b: int, c: int)
    requires 0 <= b < YMax && 0 <= c < ZMax
    requires YMax * ZMax * a + ZMax * b + c == FaultyIndex(x, y, z)
    ensures FixXyz(x, y, z) == Coord(a - ShiftX, b - ShiftY, c - ShiftZ)
  {
    var r := FixXyz(x, y, z);
    var a', b', c' := r.x + ShiftX, r.y + ShiftY, r.z + ShiftZ;
    // 99 (a - a') == 11 (b' - b) + (c' - c), and the right side lies in (-99, 99)
    assert 99 * (a - a') == 11 * (b' - b) + (c' - c);
    assert a == a';
    assert 11 * (b - b') == c' - c;
  }

  /**
   * The layout that FixXyz assumes the logger used: a correct position
   * (y in 63..71, z in -5..5 after the shift) linearised with the real
   * strides and split again with a z/y stride of 9.
   */
  function FaultyLayout(p: Coord): (q: Coord)
    requires 0 <= p.y + ShiftY < YMax && 0 <= p.z + ShiftZ < ZMax
    ensures FaultyIndex(q.x, q.y, q.z)
            == YMax * ZMax * (p.x + ShiftX) + ZMax * (p.y + ShiftY) + (p.z + ShiftZ)
  {
    var index := YMax * ZMax * (p.x + ShiftX) + ZMax * (p.y + ShiftY) + (p.z + ShiftZ);
    var rest := index % (YMax * ZMax);
    Coord(index / (YMax * ZMax) - ShiftX, rest / YMax - ShiftY, rest % YMax - ShiftZ)
  }

  /** FixXyz undoes the faulty layout for every in-box position. */
  lemma FixXyzUndoesFaultyLayout(p: Coord)
    requires 0 <= p.y + ShiftY < YMax && 0 <= p.z + ShiftZ < ZMax
    ensures FixXyz(FaultyLayout(p).x, FaultyLayout(p).y, FaultyLayout(p).z) == p
  {
    var q := FaultyLayout(p);
    FixXyzUnique(q.x, q.y, q.z, p.x + ShiftX, p.y + ShiftY, p.z + ShiftZ);
  }

  /** On the ground layer (shifted y == 0) the correction changes nothing. */
  lemma FixXyzGroundLayer(x: int, z: int)
    requires -5 <= z <= 5
    ensures FixXyz(x, 63, z) == Coord(x, 63, z)
  {
    FixXyzUnique(x, 63, z, x + ShiftX, 0, z + ShiftZ);
  }

  /** Above the ground the correction does move blocks: (0, 64, 5) becomes (0, 64, 3). */
  lemma FixXyzMovesUpperLayers()
    ensures FixXyz(0, 64, 5) == Coord(0, 64, 3)
  {
    FixXyzUnique(0, 64, 5, 5, 1, 8);
  }
}
