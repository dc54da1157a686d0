/** The 3x3 present shapes of solutions/day12/solution.js as 9-bit masks:
    encoding a 0/1 matrix (bit `3*y + x` for cell `(x, y)`), decoding it,
    rotating and flipping masks as bit permutations, and turning a mask into a
    normalised variant (its filled cells shifted to the top-left corner). */
module PresentShapes {
  import opened Wrappers
  import opened Bits

  const BITMASK_WIDTH: nat := 3
  const BITMASK_HEIGHT: nat := 3

  /** Target bit `t` of a quarter turn takes source bit `ROTATE_90[t]`. */
  const ROTATE_90: seq<nat> := [6, 3, 0, 7, 4, 1, 8, 5, 2]
  /** Target bit `t` of a mirror image takes source bit `FLIP_HORIZONTAL[t]`. */
  const FLIP_HORIZONTAL: seq<nat> := [2, 1, 0, 5, 4, 3, 8, 7, 6]

  type Matrix = seq<seq<int>>

  /** Three rows of three cells. */
  predicate IsShapeMatrix(m: Matrix)
  {
    |m| == BITMASK_HEIGHT && forall y :: 0 <= y < |m| ==> |m[y]| == BITMASK_WIDTH
  }

  // ---------------------------------------------------------------------------
  // encodeMatrixToBitmask / decodeBitmaskToMatrix

  /** The bits that cells `0..k-1` of `row` contribute, cell `x` at bit `base + x`. */
  function RowMask(row: seq<int>, base: nat, k: nat): nat
    requires k <= |row|
  {
    if k == 0 then 0
    else Or(RowMask(row, base, k - 1), if row[k - 1] == 1 then Pow2(base + k - 1) else 0)
  }

  /** The mask the encoding loop builds from every cell of every row: cell
      `(x, y)` equal to 1 sets bit `3*y + x`. */
  function RowsMask(m: Matrix): nat
  {
    if |m| == 0 then 0
    else Or(RowsMask(m[..|m| - 1]), RowMask(m[|m| - 1], BITMASK_WIDTH * (|m| - 1), |m[|m| - 1]|))
  }

  lemma {:induction false} BitOfRowMask(row: seq<int>, base: nat, k: nat, i: nat)
    requires k <= |row|
    ensures Bit(RowMask(row, base, k), i) <==> base <= i < base + k && row[i - base] == 1
  {
    if k == 0 {
      BitOfZero(i);
    } else {
      BitOfRowMask(row, base, k - 1, i);
      BitOfOr(RowMask(row, base, k - 1), if row[k - 1] == 1 then Pow2(base + k - 1) else 0, i);
      BitOfZero(i);
      BitOfPow2(base + k - 1, i);
    }
  }

  /** Bit `i` of a shape matrix's mask is cell `(i % 3, i / 3)`. */
  lemma BitOfShapeMask(m: Matrix, i: nat)
    requires IsShapeMatrix(m)
    ensures Bit(RowsMask(m), i) <==> i < 9 && m[i / 3][i % 3] == 1
  {
    var m2 := m[..2];
    var m1 := m[..1];
    assert m2[..1] == m1 && m1[..0] == [];
    assert RowsMask(m) == Or(RowsMask(m2), RowMask(m[2], 6, 3));
    assert RowsMask(m2) == Or(RowsMask(m1), RowMask(m[1], 3, 3));
    assert RowsMask(m1) == Or(0, RowMask(m[0], 0, 3));
    BitOfOr(RowsMask(m2), RowMask(m[2], 6, 3), i);
    BitOfOr(RowsMask(m1), RowMask(m[1], 3, 3), i);
    BitOfOr(0, RowMask(m[0], 0, 3), i);
    BitOfZero(i);
    BitOfRowMask(m[0], 0, 3, i);
    BitOfRowMask(m[1], 3, 3, i);
    BitOfRowMask(m[2], 6, 3, i);
  }

  /** `encodeMatrixToBitmask`, with the shape check applied to every row (see
      `EncodeAsWritten` for the check the source performs). A matrix without
      a first row is rejected as well: the source fails reading its width. */
  method EncodeMatrixToBitmask(matrix: Matrix) returns (r: Result<nat, string>)
    ensures r.Ok? <==> IsShapeMatrix(matrix)
    ensures r.Ok? ==> r.value == RowsMask(matrix) && r.value < Pow2(9)
  {
    if |matrix| == 0 {
      return Err("matrix has no first row");
    }
    var height := |matrix|;
    var width := |matrix[0]|;
    if width != BITMASK_WIDTH || height != BITMASK_HEIGHT {
      return Err("All shapes must be 3x3");
    }
    var k := 0;
    while k < height
      invariant 0 <= k <= height
      invariant forall y :: 0 <= y < k ==> |matrix[y]| == BITMASK_WIDTH
    {
      if |matrix[k]| != BITMASK_WIDTH {
        return Err("All shapes must be 3x3");
      }
      k := k + 1;
    }
    var bitmask := 0;
    var y := 0;
    while y < height
      invariant 0 <= y <= height
      invariant bitmask == RowsMask(matrix[..y])
    {
      var row := matrix[y];
      var x := 0;
      OrZero(bitmask);
      while x < |row|
        invariant 0 <= x <= |row|
        invariant bitmask == Or(RowsMask(matrix[..y]), RowMask(row, width * y, x))
      {
        if row[x] == 1 {
          OrAssoc(RowsMask(matrix[..y]), RowMask(row, width * y, x), Pow2(y * width + x));
          bitmask := Or(bitmask, Pow2(y * width + x));
        } else {
          OrZero(RowMask(row, width * y, x));
        }
        x := x + 1;
      }
      assert matrix[..y + 1][..y] == matrix[..y];
      y := y + 1;
    }
    assert matrix[..height] == matrix;
    forall i: nat | i >= 9 ensures !Bit(bitmask, i) {
      BitOfShapeMask(matrix, i);
    }
    BelowPow2(bitmask, 9);
    return Ok(bitmask);
  }

  /** The source's encoder as written: it checks the height and the width of
      the first row only, and then sets bit `3*y + x` for every 1 in every row,
      however long that row is. */
  function EncodeAsWritten(matrix: Matrix): (r: Result<nat, string>)
    ensures r.Ok? <==> |matrix| == 3 && |matrix[0]| == 3
  {
    if |matrix| == 0 then Err("matrix has no first row")
    else if |matrix[0]| != BITMASK_WIDTH || |matrix| != BITMASK_HEIGHT then Err("All shapes must be 3x3")
    else Ok(RowsMask(matrix))
  }

  /** `decodeBitmaskToMatrix`: cell `(x, y)` is bit `3*y + x`. */
  function DecodeBitmaskToMatrix(bitmask: nat): (m: Matrix)
    ensures IsShapeMatrix(m)
    ensures forall y, x :: 0 <= y < 3 && 0 <= x < 3 ==> m[y][x] == if Bit(bitmask, 3 * y + x) then 1 else 0
  {
    seq(BITMASK_HEIGHT, y =>
      seq(BITMASK_WIDTH, x => if y >= 0 && x >= 0 && Bit(bitmask, BITMASK_WIDTH * y + x) then 1 else 0))
  }

  predicate ZeroOne(m: Matrix)
  {
    forall y, x :: 0 <= y < |m| && 0 <= x < |m[y]| ==> m[y][x] == 0 || m[y][x] == 1
  }

  /** Decoding an encoded 3x3 0/1 matrix gives it back. */
  lemma DecodeEncode(m: Matrix)
    requires IsShapeMatrix(m) && ZeroOne(m)
    ensures DecodeBitmaskToMatrix(RowsMask(m)) == m
  {
    var d := DecodeBitmaskToMatrix(RowsMask(m));
    forall y | 0 <= y < 3 ensures d[y] == m[y] {
      forall x | 0 <= x < 3 ensures d[y][x] == m[y][x] {
        BitOfShapeMask(m, 3 * y + x);
        assert (3 * y + x) / 3 == y && (3 * y + x) % 3 == x;
      }
    }
  }

  /** Encoding a decoded 9-bit mask gives it back. */
  lemma EncodeDecode(b: nat)
    requires b < Pow2(9)
    ensures RowsMask(DecodeBitmaskToMatrix(b)) == b
  {
    var d := DecodeBitmaskToMatrix(b);
    forall i: nat ensures Bit(RowsMask(d), i) == Bit(b, i) {
      BitOfShapeMask(d, i);
      if i >= 9 {
        NoBitAbove(b, 9, i);
      } else {
        assert 3 * (i / 3) + i % 3 == i;
      }
    }
    BitsEqual(RowsMask(d), b);
  }

  /** The as-written encoder accepts a ragged matrix whose second row has a
      fourth cell, and gives it the mask of a different matrix, so decoding
      does not give it back. */
  lemma RaggedRowAliases()
    ensures var ragged := [[0, 0, 0], [0, 0, 0, 1], [0, 0, 0]];
            var other: Matrix := [[0, 0, 0], [0, 0, 0], [1, 0, 0]];
            EncodeAsWritten(ragged).Ok? && EncodeAsWritten(ragged) == EncodeAsWritten(other)
            && DecodeBitmaskToMatrix(EncodeAsWritten(ragged).value) != ragged
  {
    var ragged: Matrix := [[0, 0, 0], [0, 0, 0, 1], [0, 0, 0]];
    var other: Matrix := [[0, 0, 0], [0, 0, 0], [1, 0, 0]];
    forall i: nat ensures Bit(RowsMask(ragged), i) == Bit(RowsMask(other), i) {
      assert ragged[..2][..1] == ragged[..1] && |ragged[..1][..0]| == 0;
      assert other[..2][..1] == other[..1] && |other[..1][..0]| == 0;
      BitOfOr(RowsMask(ragged[..2]), RowMask(ragged[2], 6, 3), i);
      BitOfOr(RowsMask(ragged[..1]), RowMask(ragged[1], 3, 4), i);
      BitOfOr(0, RowMask(ragged[0], 0, 3), i);
      BitOfOr(RowsMask(other[..2]), RowMask(other[2], 6, 3), i);
      BitOfOr(RowsMask(other[..1]), RowMask(other[1], 3, 3), i);
      BitOfOr(0, RowMask(other[0], 0, 3), i);
      BitOfZero(i);
      BitOfRowMask(ragged[0], 0, 3, i);
      BitOfRowMask(ragged[1], 3, 4, i);
      BitOfRowMask(ragged[2], 6, 3, i);
      BitOfRowMask(other[0], 0, 3, i);
      BitOfRowMask(other[1], 3, 3, i);
      BitOfRowMask(other[2], 6, 3, i);
    }
    BitsEqual(RowsMask(ragged), RowsMask(other));
  }

  // ---------------------------------------------------------------------------
  // remapBitmask, rotate, flip

  /** Target bits `0..k-1` of `remapBitmask(bitmask, mapping)`. */
  function Remapped(bitmask: nat, mapping: seq<nat>, k: nat): nat
    requires k <= |mapping|
  {
    if k == 0 then 0
    else Or(Remapped(bitmask, mapping, k - 1), if Bit(bitmask, mapping[k - 1]) then Pow2(k - 1) else 0)
  }

  /** Target bit `t` is source bit `mapping[t]`; nothing above the mapping's length. */
  lemma {:induction false} BitOfRemapped(bitmask: nat, mapping: seq<nat>, k: nat, t: nat)
    requires k <= |mapping|
    ensures Bit(Remapped(bitmask, mapping, k), t) <==> t < k && Bit(bitmask, mapping[t])
  {
    if k == 0 {
      BitOfZero(t);
    } else {
      BitOfRemapped(bitmask, mapping, k - 1, t);
      BitOfOr(Remapped(bitmask, mapping, k - 1), if Bit(bitmask, mapping[k - 1]) then Pow2(k - 1) else 0, t);
      BitOfZero(t);
      BitOfPow2(k - 1, t);
    }
  }

  /** `remapBitmask`: target bit `t` takes source bit `mapping[t]`. */
  method RemapBitmask(bitmask: nat, mapping: seq<nat>) returns (result: nat)
    ensures result == Remapped(bitmask, mapping, |mapping|)
    ensures forall t: nat :: Bit(result, t) <==> t < |mapping| && Bit(bitmask, mapping[t])
  {
    result := 0;
    var targetIdx := 0;
    while targetIdx < |mapping|
      invariant 0 <= targetIdx <= |mapping|
      invariant result == Remapped(bitmask, mapping, targetIdx)
    {
      var sourceIdx := mapping[targetIdx];
      result := Or(result, if Bit(bitmask, sourceIdx) then Pow2(targetIdx) else 0);
      targetIdx := targetIdx + 1;
    }
    forall t: nat ensures Bit(result, t) <==> t < |mapping| && Bit(bitmask, mapping[t]) {
      BitOfRemapped(bitmask, mapping, |mapping|, t);
    }
  }

  /** `rotateBitmask1Turn` */
  function Rotate(bitmask: nat): nat
  {
    Remapped(bitmask, ROTATE_90, 9)
  }

  /** `flipBitmaskHorizontally` */
  function Flip(bitmask: nat): nat
  {
    Remapped(bitmask, FLIP_HORIZONTAL, 9)
  }

  lemma BitOfRotate(b: nat, t: nat)
    ensures Bit(Rotate(b), t) <==> t < 9 && Bit(b, ROTATE_90[t])
  {
    BitOfRemapped(b, ROTATE_90, 9, t);
  }

  lemma BitOfFlip(b: nat, t: nat)
    ensures Bit(Flip(b), t) <==> t < 9 && Bit(b, FLIP_HORIZONTAL[t])
  {
    BitOfRemapped(b, FLIP_HORIZONTAL, 9, t);
  }

  /** A rotated or flipped mask is again a 9-bit mask. */
  lemma TransformsStayBelow512(b: nat)
    ensures Rotate(b) < Pow2(9) && Flip(b) < Pow2(9)
  {
    forall t: nat | t >= 9 ensures !Bit(Rotate(b), t) && !Bit(Flip(b), t) {
      BitOfRotate(b, t);
      BitOfFlip(b, t);
    }
    BelowPow2(Rotate(b), 9);
    BelowPow2(Flip(b), 9);
  }

  /** Four quarter turns give the original 9-bit mask back. */
  lemma RotateFourTimes(b: nat)
    requires b < Pow2(9)
    ensures Rotate(Rotate(Rotate(Rotate(b)))) == b
  {
    var r1 := Rotate(b);
    var r2 := Rotate(r1);
    var r3 := Rotate(r2);
    var r4 := Rotate(r3);
    forall t: nat ensures Bit(r4, t) == Bit(b, t) {
      BitOfRotate(r3, t);
      if t < 9 {
        var s1 := ROTATE_90[t];
        var s2 := ROTATE_90[s1];
        var s3 := ROTATE_90[s2];
        BitOfRotate(r2, s1);
        BitOfRotate(r1, s2);
        BitOfRotate(b, s3);
        assert ROTATE_90[s3] == t;
      } else {
        NoBitAbove(b, 9, t);
      }
    }
    BitsEqual(r4, b);
  }

  /** Two mirror images give the original 9-bit mask back. */
  lemma FlipTwice(b: nat)
    requires b < Pow2(9)
    ensures Flip(Flip(b)) == b
  {
    forall t: nat ensures Bit(Flip(Flip(b)), t) == Bit(b, t) {
      BitOfFlip(Flip(b), t);
      if t < 9 {
        BitOfFlip(b, FLIP_HORIZONTAL[t]);
        assert FLIP_HORIZONTAL[FLIP_HORIZONTAL[t]] == t;
      } else {
        NoBitAbove(b, 9, t);
      }
    }
    BitsEqual(Flip(Flip(b)), b);
  }

  function BitValue(b: nat, i: nat): nat
  {
    if Bit(b, i) then 1 else 0
  }

  lemma PopCountOf9(b: nat)
    ensures PopCount(b, 9) == BitValue(b, 0) + BitValue(b, 1) + BitValue(b, 2) + BitValue(b, 3) + BitValue(b, 4)
                              + BitValue(b, 5) + BitValue(b, 6) + BitValue(b, 7) + BitValue(b, 8)
  {
    assert PopCount(b, 1) == BitValue(b, 0);
    assert PopCount(b, 2) == PopCount(b, 1) + BitValue(b, 1);
    assert PopCount(b, 3) == PopCount(b, 2) + BitValue(b, 2);
    assert PopCount(b, 4) == PopCount(b, 3) + BitValue(b, 3);
    assert PopCount(b, 5) == PopCount(b, 4) + BitValue(b, 4);
    assert PopCount(b, 6) == PopCount(b, 5) + BitValue(b, 5);
    assert PopCount(b, 7) == PopCount(b, 6) + BitValue(b, 6);
    assert PopCount(b, 8) == PopCount(b, 7) + BitValue(b, 7);
  }

  /** Rotating and flipping move cells around without adding or losing any. */
  lemma TransformsKeepPopCount(b: nat)
    ensures PopCount(Rotate(b), 9) == PopCount(b, 9)
    ensures PopCount(Flip(b), 9) == PopCount(b, 9)
  {
    PopCountOf9(b);
    PopCountOf9(Rotate(b));
    PopCountOf9(Flip(b));
    forall t: nat | t < 9
      ensures BitValue(Rotate(b), t) == BitValue(b, ROTATE_90[t])
      ensures BitValue(Flip(b), t) == BitValue(b, FLIP_HORIZONTAL[t])
    {
      BitOfRotate(b, t);
      BitOfFlip(b, t);
    }
  }

  // ---------------------------------------------------------------------------
  // createVariant

  datatype Cell = Cell(x: int, y: int)

  datatype Variant = Variant(bitmask: nat, width: nat, height: nat, cells: seq<Cell>)

  /** The filled cells among positions `0..p-1`, in row-major order, at their
      unshifted coordinates. */
  function RawCells(bitmask: nat, p: nat): (cs: seq<Cell>)
    requires p <= 9
    ensures |cs| <= p
    ensures forall k :: 0 <= k < |cs| ==> 0 <= cs[k].x < 3 && 0 <= cs[k].y < 3
  {
    if p == 0 then []
    else RawCells(bitmask, p - 1) + (if Bit(bitmask, p - 1) then [Cell((p - 1) % 3, (p - 1) / 3)] else [])
  }

  lemma {:induction false} RawCellsCount(bitmask: nat, p: nat)
    requires p <= 9
    ensures |RawCells(bitmask, p)| == PopCount(bitmask, p)
  {
    if p > 0 { RawCellsCount(bitmask, p - 1); }
  }

  /** Each raw cell is a set bit. */
  lemma {:induction false} RawCellsAreBits(bitmask: nat, p: nat, k: nat)
    requires p <= 9 && k < |RawCells(bitmask, p)|
    ensures var c := RawCells(bitmask, p)[k]; Bit(bitmask, 3 * c.y + c.x) && 3 * c.y + c.x < p
  {
    if k < |RawCells(bitmask, p - 1)| {
      RawCellsAreBits(bitmask, p - 1, k);
    } else {
      assert 3 * ((p - 1) / 3) + (p - 1) % 3 == p - 1;
    }
  }

  function MinX(cs: seq<Cell>): int
  {
    if |cs| == 0 then BITMASK_WIDTH else var m := MinX(cs[..|cs| - 1]); if cs[|cs| - 1].x < m then cs[|cs| - 1].x else m
  }

  function MinY(cs: seq<Cell>): int
  {
    if |cs| == 0 then BITMASK_HEIGHT else var m := MinY(cs[..|cs| - 1]); if cs[|cs| - 1].y < m then cs[|cs| - 1].y else m
  }

  function MaxX(cs: seq<Cell>): int
  {
    if |cs| == 0 then -1 else var m := MaxX(cs[..|cs| - 1]); if cs[|cs| - 1].x > m then cs[|cs| - 1].x else m
  }

  function MaxY(cs: seq<Cell>): int
  {
    if |cs| == 0 then -1 else var m := MaxY(cs[..|cs| - 1]); if cs[|cs| - 1].y > m then cs[|cs| - 1].y else m
  }

  /** Every cell lies in the 3x3 box of a shape. */
  predicate InShapeBox(cs: seq<Cell>)
  {
    forall k :: 0 <= k < |cs| ==> 0 <= cs[k].x < 3 && 0 <= cs[k].y < 3
  }

  /** The running minima and maxima bound every cell and are attained. */
  lemma Extremes(cs: seq<Cell>)
    requires |cs| > 0 && InShapeBox(cs)
    ensures forall k :: 0 <= k < |cs| ==> MinX(cs) <= cs[k].x <= MaxX(cs) && MinY(cs) <= cs[k].y <= MaxY(cs)
    ensures exists k :: 0 <= k < |cs| && cs[k].x == MinX(cs)
    ensures exists k :: 0 <= k < |cs| && cs[k].y == MinY(cs)
    ensures exists k :: 0 <= k < |cs| && cs[k].x == MaxX(cs)
    ensures exists k :: 0 <= k < |cs| && cs[k].y == MaxY(cs)
  {
    ExtremesBound(cs);
    ExtremesAttained(cs);
  }

  lemma {:induction false} ExtremesBound(cs: seq<Cell>)
    ensures forall k :: 0 <= k < |cs| ==> MinX(cs) <= cs[k].x <= MaxX(cs) && MinY(cs) <= cs[k].y <= MaxY(cs)
  {
    if |cs| > 0 {
      var init := cs[..|cs| - 1];
      ExtremesBound(init);
      assert forall k :: 0 <= k < |init| ==> cs[k] == init[k];
    }
  }

  lemma {:induction false} ExtremesAttained(cs: seq<Cell>)
    requires |cs| > 0 && InShapeBox(cs)
    ensures exists k :: 0 <= k < |cs| && cs[k].x == MinX(cs)
    ensures exists k :: 0 <= k < |cs| && cs[k].y == MinY(cs)
    ensures exists k :: 0 <= k < |cs| && cs[k].x == MaxX(cs)
    ensures exists k :: 0 <= k < |cs| && cs[k].y == MaxY(cs)
  {
    var init := cs[..|cs| - 1];
    var n := |cs| - 1;
    if |init| == 0 {
      assert MinX(init) == 3 && MinY(init) == 3 && MaxX(init) == -1 && MaxY(init) == -1;
      assert cs[0].x == MinX(cs) && cs[0].y == MinY(cs);
      assert cs[0].x == MaxX(cs) && cs[0].y == MaxY(cs);
    } else {
      assert InShapeBox(init) by {
        assert forall k :: 0 <= k < n ==> cs[k] == init[k];
      }
      ExtremesAttained(init);
      var a :| 0 <= a < n && init[a].x == MinX(init);
      var b :| 0 <= b < n && init[b].y == MinY(init);
      var c :| 0 <= c < n && init[c].x == MaxX(init);
      var d :| 0 <= d < n && init[d].y == MaxY(init);
      assert cs[a] == init[a] && cs[b] == init[b] && cs[c] == init[c] && cs[d] == init[d];
      assert cs[if cs[n].x < MinX(init) then n else a].x == MinX(cs);
      assert cs[if cs[n].y < MinY(init) then n else b].y == MinY(cs);
      assert cs[if cs[n].x > MaxX(init) then n else c].x == MaxX(cs);
      assert cs[if cs[n].y > MaxY(init) then n else d].y == MaxY(cs);
    }
  }

  /** A well-formed variant: every cell inside `width x height`, and, unless
      empty, touching the top, bottom, left and right edges of that box. */
  predicate NormalizedVariant(v: Variant)
  {
    (|v.cells| == 0 ==> v.width == 0 && v.height == 0)
    && (forall k :: 0 <= k < |v.cells| ==> 0 <= v.cells[k].x < v.width && 0 <= v.cells[k].y < v.height)
    && (|v.cells| > 0 ==>
          (exists k :: 0 <= k < |v.cells| && v.cells[k].x == 0)
          && (exists k :: 0 <= k < |v.cells| && v.cells[k].y == 0)
          && (exists k :: 0 <= k < |v.cells| && v.cells[k].x == v.width - 1)
          && (exists k :: 0 <= k < |v.cells| && v.cells[k].y == v.height - 1))
  }

  lemma ExtremesStep(cs: seq<Cell>, c: Cell)
    ensures MinX(cs + [c]) == if c.x < MinX(cs) then c.x else MinX(cs)
    ensures MinY(cs + [c]) == if c.y < MinY(cs) then c.y else MinY(cs)
    ensures MaxX(cs + [c]) == if c.x > MaxX(cs) then c.x else MaxX(cs)
    ensures MaxY(cs + [c]) == if c.y > MaxY(cs) then c.y else MaxY(cs)
  {
    assert (cs + [c])[..|cs|] == cs;
  }

  /** Scanning position `(x, y)` appends its cell when the bit is set. */
  lemma RawCellsStep(bitmask: nat, x: nat, y: nat)
    requires x < 3 && y < 3
    ensures RawCells(bitmask, 3 * y + x + 1)
            == RawCells(bitmask, 3 * y + x) + (if Bit(bitmask, 3 * y + x) then [Cell(x, y)] else [])
  {
    assert (3 * y + x) % 3 == x && (3 * y + x) / 3 == y;
  }

  /** The inner loop of `createVariant`'s scan: row `y`, columns 0 to 2. */
  method ScanRow(bitmask: nat, y: nat, cells0: seq<Cell>, minX0: int, minY0: int, maxX0: int, maxY0: int)
    returns (cells: seq<Cell>, minX: int, minY: int, maxX: int, maxY: int)
    requires y < 3 && cells0 == RawCells(bitmask, 3 * y)
    requires minX0 == MinX(cells0) && minY0 == MinY(cells0) && maxX0 == MaxX(cells0) && maxY0 == MaxY(cells0)
    ensures cells == RawCells(bitmask, 3 * y + 3)
    ensures minX == MinX(cells) && minY == MinY(cells) && maxX == MaxX(cells) && maxY == MaxY(cells)
  {
    cells, minX, minY, maxX, maxY := cells0, minX0, minY0, maxX0, maxY0;
    var x := 0;
    while x < BITMASK_WIDTH
      invariant 0 <= x <= BITMASK_WIDTH
      invariant cells == RawCells(bitmask, 3 * y + x)
      invariant minX == MinX(cells) && minY == MinY(cells) && maxX == MaxX(cells) && maxY == MaxY(cells)
    {
      cells, minX, minY, maxX, maxY := ScanCell(bitmask, x, y, cells, minX, minY, maxX, maxY);
      x := x + 1;
    }
  }

  /** One position `(x, y)` of the scan: its cell is recorded, and the
      extremes updated, when its bit is set. */
  method ScanCell(bitmask: nat, x: nat, y: nat, cells0: seq<Cell>, minX0: int, minY0: int, maxX0: int, maxY0: int)
    returns (cells: seq<Cell>, minX: int, minY: int, maxX: int, maxY: int)
    requires x < 3 && y < 3 && cells0 == RawCells(bitmask, 3 * y + x)
    requires minX0 == MinX(cells0) && minY0 == MinY(cells0) && maxX0 == MaxX(cells0) && maxY0 == MaxY(cells0)
    ensures cells == RawCells(bitmask, 3 * y + x + 1)
    ensures minX == MinX(cells) && minY == MinY(cells) && maxX == MaxX(cells) && maxY == MaxY(cells)
  {
    cells, minX, minY, maxX, maxY := cells0, minX0, minY0, maxX0, maxY0;
    RawCellsStep(bitmask, x, y);
    if Bit(bitmask, y * BITMASK_WIDTH + x) {
      ExtremesStep(cells, Cell(x, y));
      cells := cells + [Cell(x, y)];
      minX := if x < minX then x else minX;
      minY := if y < minY then y else minY;
      maxX := if x > maxX then x else maxX;
      maxY := if y > maxY then y else maxY;
    }
  }

  /** The scanning loops of `createVariant`: the filled cells in row-major
      order with their running extremes. */
  method ScanCells(bitmask: nat) returns (cells: seq<Cell>, minX: int, minY: int, maxX: int, maxY: int)
    ensures cells == RawCells(bitmask, 9)
    ensures minX == MinX(cells) && minY == MinY(cells) && maxX == MaxX(cells) && maxY == MaxY(cells)
  {
    cells := [];
    minX, minY, maxX, maxY := BITMASK_WIDTH, BITMASK_HEIGHT, -1, -1;
    var y := 0;
    while y < BITMASK_HEIGHT
      invariant 0 <= y <= BITMASK_HEIGHT
      invariant cells == RawCells(bitmask, 3 * y)
      invariant minX == MinX(cells) && minY == MinY(cells) && maxX == MaxX(cells) && maxY == MaxY(cells)
    {
      cells, minX, minY, maxX, maxY := ScanRow(bitmask, y, cells, minX, minY, maxX, maxY);
      y := y + 1;
    }
  }

  /** Shifting non-empty cells by their minima gives a normalised variant
      whose box is the cells' bounding box. */
  function Normalized(bitmask: nat, cs: seq<Cell>, minX: int, minY: int, maxX: int, maxY: int): (v: Variant)
    requires |cs| > 0 && InShapeBox(cs)
    requires minX == MinX(cs) && minY == MinY(cs) && maxX == MaxX(cs) && maxY == MaxY(cs)
    ensures v.bitmask == bitmask && NormalizedVariant(v)
    ensures v.width <= 3 && v.height <= 3
    ensures |v.cells| == |cs|
    ensures forall k :: 0 <= k < |v.cells| ==> v.cells[k] == Cell(cs[k].x - MinX(cs), cs[k].y - MinY(cs))
  {
    ExtremesBound(cs);
    var v := Variant(bitmask, maxX - minX + 1, maxY - minY + 1, Shifted(cs, minX, minY));
    NormalizedCorners(cs, v);
    v
  }

  /** Every cell moved by `(-dx, -dy)`. */
  function Shifted(cs: seq<Cell>, dx: int, dy: int): (r: seq<Cell>)
    requires forall k :: 0 <= k < |cs| ==> dx <= cs[k].x && dy <= cs[k].y
    ensures |r| == |cs|
    ensures forall k :: 0 <= k < |cs| ==> r[k].x == cs[k].x - dx && r[k].y == cs[k].y - dy
  {
    seq(|cs|, k requires 0 <= k < |cs| => Cell(cs[k].x - dx, cs[k].y - dy))
  }

  /** The cells attaining the extremes become the corners of the shifted box. */
  lemma NormalizedCorners(cs: seq<Cell>, v: Variant)
    requires |cs| > 0 && InShapeBox(cs)
    requires v.width == MaxX(cs) - MinX(cs) + 1 && v.height == MaxY(cs) - MinY(cs) + 1 && |v.cells| == |cs|
    requires forall k :: 0 <= k < |cs| ==> v.cells[k].x == cs[k].x - MinX(cs) && v.cells[k].y == cs[k].y - MinY(cs)
    ensures exists k :: 0 <= k < |v.cells| && v.cells[k].x == 0
    ensures exists k :: 0 <= k < |v.cells| && v.cells[k].y == 0
    ensures exists k :: 0 <= k < |v.cells| && v.cells[k].x == v.width - 1
    ensures exists k :: 0 <= k < |v.cells| && v.cells[k].y == v.height - 1
  {
    ExtremesAttained(cs);
    var a :| 0 <= a < |cs| && cs[a].x == MinX(cs);
    var b :| 0 <= b < |cs| && cs[b].y == MinY(cs);
    var c :| 0 <= c < |cs| && cs[c].x == MaxX(cs);
    var d :| 0 <= d < |cs| && cs[d].y == MaxY(cs);
    assert v.cells[a].x == 0 && v.cells[b].y == 0 && v.cells[c].x == v.width - 1 && v.cells[d].y == v.height - 1;
  }

  /** `createVariant`: the filled cells of the mask, shifted so that the
      smallest x and the smallest y are 0; an empty mask gives a 0x0 variant. */
  method CreateVariant(bitmask: nat) returns (v: Variant)
    ensures v.bitmask == bitmask
    ensures NormalizedVariant(v)
    ensures |v.cells| == PopCount(bitmask, 9)
    ensures v.width <= 3 && v.height <= 3
    ensures var raw := RawCells(bitmask, 9);
            |v.cells| == |raw|
            && forall k :: 0 <= k < |v.cells| ==> v.cells[k] == Cell(raw[k].x - MinX(raw), raw[k].y - MinY(raw))
  {
    var cells, minX, minY, maxX, maxY := ScanCells(bitmask);
    RawCellsCount(bitmask, 9);
    if |cells| == 0 {
      return Variant(bitmask, 0, 0, []);
    }
    v := Normalized(bitmask, cells, minX, minY, maxX, maxY);
  }

  // ---------------------------------------------------------------------------
  // getShapeVariants

  /** `k` quarter turns. */
  function RotateTimes(bitmask: nat, k: nat): nat
  {
    if k == 0 then bitmask else Rotate(RotateTimes(bitmask, k - 1))
  }

  /** The masks in the order `getShapeVariants` adds them to its set: the four
      rotations of the mask, then the four rotations of its mirror image. */
  function OrbitSequence(bitmask: nat): (r: seq<nat>)
    ensures |r| == 8
  {
    [RotateTimes(bitmask, 0), RotateTimes(bitmask, 1), RotateTimes(bitmask, 2), RotateTimes(bitmask, 3),
     RotateTimes(Flip(bitmask), 0), RotateTimes(Flip(bitmask), 1), RotateTimes(Flip(bitmask), 2), RotateTimes(Flip(bitmask), 3)]
  }

  predicate Distinct(xs: seq<nat>)
  {
    forall i, j :: 0 <= i < j < |xs| ==> xs[i] != xs[j]
  }

  /** `Set.add`: a value not yet present is appended. */
  function SetAdd(xs: seq<nat>, x: nat): seq<nat>
  {
    if x in xs then xs else xs + [x]
  }

  /** The values of `xs` in first-insertion order, as `Array.from(new Set(xs))` lists them. */
  function Dedup(xs: seq<nat>): seq<nat>
  {
    if |xs| == 0 then [] else SetAdd(Dedup(xs[..|xs| - 1]), xs[|xs| - 1])
  }

  /** Removing duplicates keeps every value once, in first-occurrence order. */
  lemma {:induction false} DedupProperties(xs: seq<nat>)
    ensures Distinct(Dedup(xs))
    ensures forall v :: v in Dedup(xs) <==> v in xs
    ensures |Dedup(xs)| <= |xs|
    ensures |xs| > 0 ==> |Dedup(xs)| > 0 && Dedup(xs)[0] == xs[0]
  {
    if |xs| > 0 {
      var init := xs[..|xs| - 1];
      var last := xs[|xs| - 1];
      DedupProperties(init);
      SetAddProperties(Dedup(init), last);
      assert xs == init + [last];
      forall v
        ensures v in xs <==> v in init || v == last
      {
      }
      if |init| == 0 {
        assert Dedup(init) == [];
      } else {
        assert init[0] == xs[0];
      }
    }
  }

  /** `Set.add` keeps the values distinct and adds exactly `x`. */
  lemma SetAddProperties(xs: seq<nat>, x: nat)
    requires Distinct(xs)
    ensures Distinct(SetAdd(xs, x))
    ensures forall v :: v in SetAdd(xs, x) <==> v in xs || v == x
    ensures |SetAdd(xs, x)| <= |xs| + 1
    ensures |xs| > 0 ==> SetAdd(xs, x)[0] == xs[0]
    ensures |xs| == 0 ==> SetAdd(xs, x) == [x]
  {
  }

  /** The two loops of `getShapeVariants` that fill its `Set`. */
  method CollectOrbit(bitmask: nat) returns (masks: seq<nat>)
    ensures masks == Dedup(OrbitSequence(bitmask))
  {
    masks := [];
    ghost var orbit := OrbitSequence(bitmask);
    var rotated := bitmask;
    var turn := 0;
    while turn < 4
      invariant 0 <= turn <= 4
      invariant rotated == RotateTimes(bitmask, turn)
      invariant masks == Dedup(orbit[..turn])
    {
      assert orbit[turn] == rotated;
      assert orbit[..turn + 1][..turn] == orbit[..turn];
      masks := SetAdd(masks, rotated);
      rotated := Rotate(rotated);
      turn := turn + 1;
    }
    var flipped := Flip(bitmask);
    turn := 0;
    while turn < 4
      invariant 0 <= turn <= 4
      invariant flipped == RotateTimes(Flip(bitmask), turn)
      invariant masks == Dedup(orbit[..4 + turn])
    {
      assert orbit[4 + turn] == flipped;
      assert orbit[..4 + turn + 1][..4 + turn] == orbit[..4 + turn];
      masks := SetAdd(masks, flipped);
      flipped := Rotate(flipped);
      turn := turn + 1;
    }
    assert orbit[..8] == orbit;
  }

  /** `getShapeVariants`: the distinct rotations and mirrored rotations of the
      mask, in first-seen order, each turned into a variant. */
  method GetShapeVariants(bitmask: nat) returns (variants: seq<Variant>)
    ensures |variants| == |Dedup(OrbitSequence(bitmask))|
    ensures forall i :: 0 <= i < |variants| ==> variants[i].bitmask == Dedup(OrbitSequence(bitmask))[i]
    ensures forall i :: 0 <= i < |variants| ==>
              NormalizedVariant(variants[i]) && |variants[i].cells| == PopCount(bitmask, 9)
              && variants[i].width <= 3 && variants[i].height <= 3
  {
    var masks := CollectOrbit(bitmask);
    OrbitKeepsPopCount(bitmask, masks);
    variants := [];
    var i := 0;
    while i < |masks|
      invariant 0 <= i <= |masks|
      invariant |variants| == i
      invariant forall k :: 0 <= k < i ==> variants[k].bitmask == masks[k]
      invariant forall k :: 0 <= k < i ==>
                  NormalizedVariant(variants[k]) && |variants[k].cells| == PopCount(bitmask, 9)
                  && variants[k].width <= 3 && variants[k].height <= 3
    {
      var v := CreateVariant(masks[i]);
      variants := variants + [v];
      i := i + 1;
    }
  }

  lemma {:induction false} RotateTimesKeepsPopCount(b: nat, k: nat)
    ensures PopCount(RotateTimes(b, k), 9) == PopCount(b, 9)
  {
    if k > 0 {
      RotateTimesKeepsPopCount(b, k - 1);
      TransformsKeepPopCount(RotateTimes(b, k - 1));
    }
  }

  lemma OrbitPopCount(b: nat)
    ensures forall j :: 0 <= j < 8 ==> PopCount(OrbitSequence(b)[j], 9) == PopCount(b, 9)
  {
    TransformsKeepPopCount(b);
    RotateTimesKeepsPopCount(b, 1);
    RotateTimesKeepsPopCount(b, 2);
    RotateTimesKeepsPopCount(b, 3);
    RotateTimesKeepsPopCount(Flip(b), 1);
    RotateTimesKeepsPopCount(Flip(b), 2);
    RotateTimesKeepsPopCount(Flip(b), 3);
  }

  /** Every variant mask has the cell count of the shape itself. */
  lemma OrbitKeepsPopCount(b: nat, masks: seq<nat>)
    requires masks == Dedup(OrbitSequence(b))
    ensures forall i :: 0 <= i < |masks| ==> PopCount(masks[i], 9) == PopCount(b, 9)
  {
    DedupProperties(OrbitSequence(b));
    OrbitPopCount(b);
    forall i | 0 <= i < |masks| ensures PopCount(masks[i], 9) == PopCount(b, 9) {
      assert masks[i] in OrbitSequence(b);
    }
  }

  /** The variants are at most eight distinct masks, led by the mask itself,
      and are exactly the rotations and mirrored rotations of the mask. */
  lemma VariantMasks(b: nat)
    ensures var ms := Dedup(OrbitSequence(b));
            1 <= |ms| <= 8 && Distinct(ms) && ms[0] == b
            && forall v :: v in ms <==> v in OrbitSequence(b)
  {
    DedupProperties(OrbitSequence(b));
  }
}
