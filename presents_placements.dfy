/** Placements of a present in a region, after
    `buildPlacementFromVariant` and `precomputePlacementsForShape` of
    solutions/day12/solution.js: a variant at an offset, as the board cells it
    covers (`boardY * width + boardX`) and as one mask per touched board row,
    the rows listed in the order the source's `Map` first sees them. */
module PresentPlacements {
  import opened Bits
  import opened PresentShapes

  /** A parsed shape: its id, its mask, its variants and its cell count. */
  datatype Shape = Shape(shapeId: nat, bitmask: nat, variants: seq<Variant>, area: nat)

  /** One `{ rowIndex, bitMask }` entry of a placement. */
  datatype RowBits = RowBits(rowIndex: int, bitMask: nat)

  datatype Placement = Placement(shapeId: nat, variant: Variant, variantIndex: nat,
                                 posX: int, posY: int, rows: seq<RowBits>, cells: seq<int>)

  /** `1n << BigInt(k)`; a negative shift moves the bit out (it is 0n). */
  function ShiftOne(k: int): nat
  {
    if k >= 0 then Pow2(k) else 0
  }

  /** `rowBitMap.set(rowIndex, (rowBitMap.get(rowIndex) || 0n) | bit)` on a
      map kept as its entries in insertion order. */
  function AddRowBit(rows: seq<RowBits>, rowIndex: int, bit: nat): seq<RowBits>
  {
    if |rows| == 0 then [RowBits(rowIndex, bit)]
    else if rows[0].rowIndex == rowIndex then [RowBits(rowIndex, Or(rows[0].bitMask, bit))] + rows[1..]
    else [rows[0]] + AddRowBit(rows[1..], rowIndex, bit)
  }

  /** `rowBitMap.get(rowIndex) || 0n` */
  function RowMaskAt(rows: seq<RowBits>, rowIndex: int): nat
  {
    if |rows| == 0 then 0
    else if rows[0].rowIndex == rowIndex then rows[0].bitMask
    else RowMaskAt(rows[1..], rowIndex)
  }

  predicate HasRow(rows: seq<RowBits>, rowIndex: int)
  {
    exists i :: 0 <= i < |rows| && rows[i].rowIndex == rowIndex
  }

  /** No row index is listed twice. */
  predicate DistinctRows(rows: seq<RowBits>)
  {
    forall i, j :: 0 <= i < j < |rows| ==> rows[i].rowIndex != rows[j].rowIndex
  }

  lemma {:induction false} AddRowBitFacts(rows: seq<RowBits>, rowIndex: int, bit: nat)
    ensures forall r :: RowMaskAt(AddRowBit(rows, rowIndex, bit), r)
                          == if r == rowIndex then Or(RowMaskAt(rows, rowIndex), bit) else RowMaskAt(rows, r)
    ensures forall r :: HasRow(AddRowBit(rows, rowIndex, bit), r) <==> HasRow(rows, r) || r == rowIndex
    ensures DistinctRows(rows) ==> DistinctRows(AddRowBit(rows, rowIndex, bit))
  {
    var added := AddRowBit(rows, rowIndex, bit);
    if |rows| == 0 {
      forall r ensures RowMaskAt(added, r) == if r == rowIndex then Or(RowMaskAt(rows, rowIndex), bit) else RowMaskAt(rows, r) {
        OrZero(bit);
      }
      assert added[0].rowIndex == rowIndex;
    } else if rows[0].rowIndex == rowIndex {
      assert added[1..] == rows[1..];
      forall r ensures HasRow(added, r) <==> HasRow(rows, r) || r == rowIndex {
        if r == rowIndex {
          assert added[0].rowIndex == r;
        }
        if HasRow(rows, r) {
          var i :| 0 <= i < |rows| && rows[i].rowIndex == r;
          assert added[i].rowIndex == r;
        }
        if HasRow(added, r) {
          var i :| 0 <= i < |added| && added[i].rowIndex == r;
          assert rows[i].rowIndex == r;
        }
      }
    } else {
      AddRowBitFacts(rows[1..], rowIndex, bit);
      var tail := AddRowBit(rows[1..], rowIndex, bit);
      assert added == [rows[0]] + tail;
      assert added[1..] == tail;
      assert rows == [rows[0]] + rows[1..];
      forall r ensures HasRow(added, r) <==> HasRow(rows, r) || r == rowIndex {
        HasRowCons(rows[0], rows[1..], r);
        HasRowCons(rows[0], tail, r);
      }
      if DistinctRows(rows) {
        assert DistinctRows(rows[1..]) by {
          forall i, j | 0 <= i < j < |rows[1..]| ensures rows[1..][i].rowIndex != rows[1..][j].rowIndex {
            assert rows[1..][i] == rows[i + 1] && rows[1..][j] == rows[j + 1];
          }
        }
        assert !HasRow(rows[1..], rows[0].rowIndex) by {
          forall k | 0 <= k < |rows[1..]| ensures rows[1..][k].rowIndex != rows[0].rowIndex {
            assert rows[1..][k] == rows[k + 1];
          }
        }
        assert !HasRow(tail, rows[0].rowIndex);
        forall i, j | 0 <= i < j < |added| ensures added[i].rowIndex != added[j].rowIndex {
          assert added[j] == tail[j - 1];
          if i > 0 {
            assert added[i] == tail[i - 1];
          }
        }
      }
    }
  }

  lemma HasRowCons(head: RowBits, tail: seq<RowBits>, r: int)
    ensures HasRow([head] + tail, r) <==> head.rowIndex == r || HasRow(tail, r)
  {
    var rows := [head] + tail;
    if head.rowIndex == r {
      assert rows[0].rowIndex == r;
    }
    if HasRow(tail, r) {
      var i :| 0 <= i < |tail| && tail[i].rowIndex == r;
      assert rows[i + 1].rowIndex == r;
    }
    if HasRow(rows, r) {
      var i :| 0 <= i < |rows| && rows[i].rowIndex == r;
      if i > 0 { assert tail[i - 1].rowIndex == r; }
    }
  }

  /** The row masks a variant's cells give at offset `(posX, posY)`, in the
      order `buildPlacementFromVariant` visits the cells. */
  function PlacementRows(cells: seq<Cell>, posX: int, posY: int): seq<RowBits>
  {
    if |cells| == 0 then []
    else
      var c := cells[|cells| - 1];
      AddRowBit(PlacementRows(cells[..|cells| - 1], posX, posY), posY + c.y, ShiftOne(posX + c.x))
  }

  /** The board index of every cell of the variant at offset `(posX, posY)`. */
  function CellIndices(cells: seq<Cell>, posX: int, posY: int, regionWidth: int): (r: seq<int>)
    ensures |r| == |cells|
  {
    seq(|cells|, k requires 0 <= k < |cells| => (posY + cells[k].y) * regionWidth + posX + cells[k].x)
  }

  /** The placement `buildPlacementFromVariant` returns. */
  function PlacementOf(shapeId: nat, variant: Variant, variantIndex: nat, posX: int, posY: int, regionWidth: int): Placement
  {
    Placement(shapeId, variant, variantIndex, posX, posY,
              PlacementRows(variant.cells, posX, posY), CellIndices(variant.cells, posX, posY, regionWidth))
  }

  /** The row masks cover exactly the placed cells: row `r` is listed iff some
      cell lands on it, and bit `b` of its mask is set iff a cell lands on
      `(b, r)`. */
  lemma {:induction false} PlacementRowsCover(cells: seq<Cell>, posX: int, posY: int)
    requires forall k :: 0 <= k < |cells| ==> posX + cells[k].x >= 0
    ensures DistinctRows(PlacementRows(cells, posX, posY))
    ensures forall r :: HasRow(PlacementRows(cells, posX, posY), r) <==>
                          exists k :: 0 <= k < |cells| && posY + cells[k].y == r
    ensures forall r, b: nat :: Bit(RowMaskAt(PlacementRows(cells, posX, posY), r), b) <==>
                                  exists k :: 0 <= k < |cells| && posY + cells[k].y == r && posX + cells[k].x == b
  {
    if |cells| == 0 {
      forall r, b: nat ensures !Bit(RowMaskAt(PlacementRows(cells, posX, posY), r), b) {
        BitOfZero(b);
      }
    } else {
      var n := |cells| - 1;
      var init := cells[..n];
      var c := cells[n];
      PlacementRowsCover(init, posX, posY);
      var before := PlacementRows(init, posX, posY);
      var bx := posX + c.x;
      AddRowBitFacts(before, posY + c.y, Pow2(bx));
      assert cells == init + [c];
      HasRowStep(init, c, posY, before, PlacementRows(cells, posX, posY));
      RowMaskStep(init, c, posX, posY, before, PlacementRows(cells, posX, posY));
    }
  }

  /** One more cell adds its row to the listed rows. */
  lemma HasRowStep(init: seq<Cell>, c: Cell, posY: int, before: seq<RowBits>, after: seq<RowBits>)
    requires forall r :: HasRow(before, r) <==> exists k :: 0 <= k < |init| && posY + init[k].y == r
    requires forall r :: HasRow(after, r) <==> HasRow(before, r) || r == posY + c.y
    ensures forall r :: HasRow(after, r) <==> exists k :: 0 <= k < |init| + 1 && posY + (init + [c])[k].y == r
  {
    var cells := init + [c];
    forall r ensures HasRow(after, r) <==> exists k :: 0 <= k < |cells| && posY + cells[k].y == r {
      if exists k :: 0 <= k < |cells| && posY + cells[k].y == r {
        var k :| 0 <= k < |cells| && posY + cells[k].y == r;
        if k < |init| { assert posY + init[k].y == r; }
      }
      if exists k :: 0 <= k < |init| && posY + init[k].y == r {
        var k :| 0 <= k < |init| && posY + init[k].y == r;
        assert posY + cells[k].y == r;
      }
      assert cells[|init|] == c;
    }
  }

  /** One more cell sets its bit in its row's mask. */
  lemma RowMaskStep(init: seq<Cell>, c: Cell, posX: int, posY: int, before: seq<RowBits>, after: seq<RowBits>)
    requires posX + c.x >= 0
    requires forall r, b: nat :: Bit(RowMaskAt(before, r), b) <==>
                                   exists k :: 0 <= k < |init| && posY + init[k].y == r && posX + init[k].x == b
    requires forall r :: RowMaskAt(after, r)
                           == if r == posY + c.y then Or(RowMaskAt(before, posY + c.y), Pow2(posX + c.x)) else RowMaskAt(before, r)
    ensures forall r, b: nat :: Bit(RowMaskAt(after, r), b) <==>
                                  exists k :: 0 <= k < |init| + 1 && posY + (init + [c])[k].y == r && posX + (init + [c])[k].x == b
  {
    var cells := init + [c];
    var bx := posX + c.x;
    forall r, b: nat ensures Bit(RowMaskAt(after, r), b) <==>
                               exists k :: 0 <= k < |cells| && posY + cells[k].y == r && posX + cells[k].x == b {
      BitOfOr(RowMaskAt(before, posY + c.y), Pow2(bx), b);
      BitOfPow2(bx, b);
      if exists k :: 0 <= k < |cells| && posY + cells[k].y == r && posX + cells[k].x == b {
        var k :| 0 <= k < |cells| && posY + cells[k].y == r && posX + cells[k].x == b;
        if k < |init| { assert posY + init[k].y == r && posX + init[k].x == b; }
      }
      if exists k :: 0 <= k < |init| && posY + init[k].y == r && posX + init[k].x == b {
        var k :| 0 <= k < |init| && posY + init[k].y == r && posX + init[k].x == b;
        assert posY + cells[k].y == r && posX + cells[k].x == b;
      }
      assert cells[|init|] == c;
    }
  }

  /** A placement inside the `regionWidth x regionHeight` region: the variant
      fits at its offset, every cell index is a board cell, and every row mask
      is a row of the board and fits within its width. */
  predicate InsideRegion(p: Placement, regionWidth: nat, regionHeight: nat)
  {
    0 <= p.posX && p.posX + p.variant.width <= regionWidth
    && 0 <= p.posY && p.posY + p.variant.height <= regionHeight
    && (forall k :: 0 <= k < |p.cells| ==> 0 <= p.cells[k] < regionWidth * regionHeight)
    && (forall i :: 0 <= i < |p.rows| ==> 0 <= p.rows[i].rowIndex < regionHeight && p.rows[i].bitMask < Pow2(regionWidth))
  }

  lemma CellIndexInRegion(x: int, y: int, regionWidth: nat, regionHeight: nat)
    requires 0 <= x < regionWidth && 0 <= y < regionHeight
    ensures 0 <= y * regionWidth + x < regionWidth * regionHeight
    ensures (y * regionWidth + x) % regionWidth == x && (y * regionWidth + x) / regionWidth == y
  {
    MulMonotone(y, regionHeight - 1, regionWidth);
    assert (regionHeight - 1) * regionWidth + regionWidth == regionWidth * regionHeight;
    DivModUnique(y * regionWidth + x, regionWidth, y, x);
  }

  lemma MulMonotone(a: nat, b: nat, c: nat)
    requires a <= b
    ensures a * c <= b * c
  {
  }

  /** The quotient and remainder of a Euclidean division are unique. */
  lemma DivModUnique(n: int, d: int, q: int, m: int)
    requires d > 0 && 0 <= m < d && n == q * d + m
    ensures n / d == q && n % d == m
  {
    var q' := n / d;
    var m' := n % d;
    assert (q' - q) * d == m - m';
    if q' > q {
      MulMonotone(1, q' - q, d);
    } else if q' < q {
      MulMonotone(1, q - q', d);
    }
  }

  /** A normalised variant placed where it fits lies inside the region, and
      its cell indices decode back to the board coordinates of its cells. */
  lemma PlacementInsideRegion(shapeId: nat, variant: Variant, variantIndex: nat, posX: nat, posY: nat,
                              regionWidth: nat, regionHeight: nat)
    requires NormalizedVariant(variant)
    requires posX + variant.width <= regionWidth && posY + variant.height <= regionHeight
    ensures var p := PlacementOf(shapeId, variant, variantIndex, posX, posY, regionWidth);
            InsideRegion(p, regionWidth, regionHeight)
            && forall k :: 0 <= k < |p.cells| ==>
                 p.cells[k] % regionWidth == posX + variant.cells[k].x
                 && p.cells[k] / regionWidth == posY + variant.cells[k].y
  {
    var p := PlacementOf(shapeId, variant, variantIndex, posX, posY, regionWidth);
    var cells := variant.cells;
    forall k | 0 <= k < |cells|
      ensures 0 <= p.cells[k] < regionWidth * regionHeight
      ensures p.cells[k] % regionWidth == posX + cells[k].x && p.cells[k] / regionWidth == posY + cells[k].y
    {
      CellIndexInRegion(posX + cells[k].x, posY + cells[k].y, regionWidth, regionHeight);
    }
    PlacementRowsCover(cells, posX, posY);
    forall i | 0 <= i < |p.rows| ensures 0 <= p.rows[i].rowIndex < regionHeight && p.rows[i].bitMask < Pow2(regionWidth) {
      var r := p.rows[i].rowIndex;
      assert HasRow(p.rows, r);
      var k :| 0 <= k < |cells| && posY + cells[k].y == r;
      RowMaskIsEntry(p.rows, i);
      forall b: nat | b >= regionWidth ensures !Bit(p.rows[i].bitMask, b) {
        assert forall j :: 0 <= j < |cells| ==> posX + cells[j].x < regionWidth;
      }
      BelowPow2(p.rows[i].bitMask, regionWidth);
    }
  }

  /** With distinct row indices, an entry's mask is the one looked up for its index. */
  lemma {:induction false} RowMaskIsEntry(rows: seq<RowBits>, i: nat)
    requires DistinctRows(rows) && i < |rows|
    ensures RowMaskAt(rows, rows[i].rowIndex) == rows[i].bitMask
  {
    if i > 0 {
      assert DistinctRows(rows[1..]) by {
        forall a, b | 0 <= a < b < |rows[1..]| ensures rows[1..][a].rowIndex != rows[1..][b].rowIndex {
          assert rows[1..][a] == rows[a + 1] && rows[1..][b] == rows[b + 1];
        }
      }
      RowMaskIsEntry(rows[1..], i - 1);
    }
  }

  /** `buildPlacementFromVariant` */
  method BuildPlacementFromVariant(shapeId: nat, variant: Variant, variantIndex: nat, posX: int, posY: int, regionWidth: int)
    returns (p: Placement)
    ensures p == PlacementOf(shapeId, variant, variantIndex, posX, posY, regionWidth)
  {
    var rowBitMap: seq<RowBits> := [];
    var cells: seq<int> := [];
    var k := 0;
    while k < |variant.cells|
      invariant 0 <= k <= |variant.cells|
      invariant rowBitMap == PlacementRows(variant.cells[..k], posX, posY)
      invariant cells == CellIndices(variant.cells[..k], posX, posY, regionWidth)
    {
      var c := variant.cells[k];
      var boardX := posX + c.x;
      var boardY := posY + c.y;
      assert variant.cells[..k + 1][..k] == variant.cells[..k];
      rowBitMap := AddRowBit(rowBitMap, boardY, ShiftOne(boardX));
      cells := cells + [boardY * regionWidth + boardX];
      k := k + 1;
    }
    assert variant.cells[..k] == variant.cells;
    p := Placement(shapeId, variant, variantIndex, posX, posY, rowBitMap, cells);
  }

  // ---------------------------------------------------------------------------
  // precomputePlacementsForShape

  /** A variant (with its index) and an offset. */
  datatype Anchor = Anchor(variantIndex: nat, variant: Variant, x: nat, y: nat)

  /** Offsets `(0, y) .. (count - 1, y)` of variant `vi`. */
  function RowAnchors(vi: nat, v: Variant, y: nat, count: nat): (r: seq<Anchor>)
    ensures |r| == count
    ensures forall i :: 0 <= i < count ==> r[i] == Anchor(vi, v, i, y)
  {
    seq(count, i requires 0 <= i < count => Anchor(vi, v, i, y))
  }

  /** The offsets of variant `vi` with `x <= limitX` and `y < rowCount`, row by row. */
  function GridAnchors(vi: nat, v: Variant, limitX: nat, rowCount: nat): seq<Anchor>
  {
    if rowCount == 0 then [] else GridAnchors(vi, v, limitX, rowCount - 1) + RowAnchors(vi, v, rowCount - 1, limitX + 1)
  }

  /** The offsets at which variant `vi` fits into the region, in the source's order. */
  function VariantAnchors(variants: seq<Variant>, vi: nat, regionWidth: nat, regionHeight: nat): seq<Anchor>
    requires vi < |variants|
  {
    var v := variants[vi];
    if regionWidth < v.width || regionHeight < v.height then []
    else GridAnchors(vi, v, regionWidth - v.width, regionHeight - v.height + 1)
  }

  /** The offsets of the first `count` variants. */
  function AllAnchors(variants: seq<Variant>, count: nat, regionWidth: nat, regionHeight: nat): seq<Anchor>
    requires count <= |variants|
  {
    if count == 0 then []
    else AllAnchors(variants, count - 1, regionWidth, regionHeight) + VariantAnchors(variants, count - 1, regionWidth, regionHeight)
  }

  /** The grid's offsets are those of variant `vi` within the limits. */
  lemma {:induction false} GridAnchorsSound(vi: nat, v: Variant, limitX: nat, rowCount: nat)
    ensures forall i :: 0 <= i < |GridAnchors(vi, v, limitX, rowCount)| ==>
              var a := GridAnchors(vi, v, limitX, rowCount)[i];
              a.variantIndex == vi && a.variant == v && a.x <= limitX && a.y < rowCount
  {
    if rowCount > 0 {
      GridAnchorsSound(vi, v, limitX, rowCount - 1);
    }
  }

  /** Every anchor names one of the first `count` variants at an offset where it fits. */
  lemma {:induction false} AllAnchorsSound(variants: seq<Variant>, count: nat, regionWidth: nat, regionHeight: nat)
    requires count <= |variants|
    ensures forall i :: 0 <= i < |AllAnchors(variants, count, regionWidth, regionHeight)| ==>
              var a := AllAnchors(variants, count, regionWidth, regionHeight)[i];
              a.variantIndex < count && a.variant == variants[a.variantIndex]
              && a.x + a.variant.width <= regionWidth && a.y + a.variant.height <= regionHeight
  {
    if count > 0 {
      AllAnchorsSound(variants, count - 1, regionWidth, regionHeight);
      var v := variants[count - 1];
      if regionWidth >= v.width && regionHeight >= v.height {
        GridAnchorsSound(count - 1, v, regionWidth - v.width, regionHeight - v.height + 1);
      }
    }
  }

  /** Every offset at which a variant fits is among the anchors. */
  lemma {:induction false} AnchorsComplete(variants: seq<Variant>, count: nat, regionWidth: nat, regionHeight: nat,
                                           vi: nat, x: nat, y: nat)
    requires count <= |variants| && vi < count
    requires x + variants[vi].width <= regionWidth && y + variants[vi].height <= regionHeight
    ensures Anchor(vi, variants[vi], x, y) in AllAnchors(variants, count, regionWidth, regionHeight)
  {
    var previous := AllAnchors(variants, count - 1, regionWidth, regionHeight);
    var last := VariantAnchors(variants, count - 1, regionWidth, regionHeight);
    assert AllAnchors(variants, count, regionWidth, regionHeight) == previous + last;
    if vi < count - 1 {
      AnchorsComplete(variants, count - 1, regionWidth, regionHeight, vi, x, y);
      InConcat(previous, last, Anchor(vi, variants[vi], x, y));
    } else {
      var v := variants[vi];
      GridAnchorsComplete(vi, v, regionWidth - v.width, regionHeight - v.height + 1, x, y);
      assert last == GridAnchors(vi, v, regionWidth - v.width, regionHeight - v.height + 1);
      InConcat(previous, last, Anchor(vi, variants[vi], x, y));
    }
  }

  lemma {:induction false} GridAnchorsComplete(vi: nat, v: Variant, limitX: nat, rowCount: nat, x: nat, y: nat)
    requires x <= limitX && y < rowCount
    ensures Anchor(vi, v, x, y) in GridAnchors(vi, v, limitX, rowCount)
  {
    var previous := GridAnchors(vi, v, limitX, rowCount - 1);
    var row := RowAnchors(vi, v, rowCount - 1, limitX + 1);
    if y < rowCount - 1 {
      GridAnchorsComplete(vi, v, limitX, rowCount - 1, x, y);
    } else {
      assert row[x] == Anchor(vi, v, x, y);
    }
    InConcat(previous, row, Anchor(vi, v, x, y));
  }

  lemma InConcat<T>(a: seq<T>, b: seq<T>, x: T)
    ensures x in a + b <==> x in a || x in b
  {
  }

  /** The anchors of one more variant, when it fits. */
  lemma AllAnchorsFits(variants: seq<Variant>, vi: nat, regionWidth: nat, regionHeight: nat, limitX: nat, limitY: nat)
    requires vi < |variants|
    requires limitX == regionWidth - variants[vi].width && limitY == regionHeight - variants[vi].height
    ensures AllAnchors(variants, vi + 1, regionWidth, regionHeight)
            == AllAnchors(variants, vi, regionWidth, regionHeight) + GridAnchors(vi, variants[vi], limitX, limitY + 1)
  {
  }

  /** The anchors of one more variant, when it does not fit. */
  lemma AllAnchorsSkips(variants: seq<Variant>, vi: nat, regionWidth: nat, regionHeight: nat)
    requires vi < |variants|
    requires regionWidth < variants[vi].width || regionHeight < variants[vi].height
    ensures AllAnchors(variants, vi + 1, regionWidth, regionHeight) == AllAnchors(variants, vi, regionWidth, regionHeight)
  {
    assert AllAnchors(variants, vi, regionWidth, regionHeight) + [] == AllAnchors(variants, vi, regionWidth, regionHeight);
  }

  /** The placement of a shape at an anchor. */
  function PlacementAt(shapeId: nat, a: Anchor, regionWidth: nat): Placement
  {
    PlacementOf(shapeId, a.variant, a.variantIndex, a.x, a.y, regionWidth)
  }

  /** The placement of the shape at each anchor, in order. */
  function PlaceAll(shapeId: nat, anchors: seq<Anchor>, regionWidth: nat): (r: seq<Placement>)
    ensures |r| == |anchors|
    ensures forall i :: 0 <= i < |anchors| ==> r[i] == PlacementAt(shapeId, anchors[i], regionWidth)
  {
    seq(|anchors|, i requires 0 <= i < |anchors| => PlacementAt(shapeId, anchors[i], regionWidth))
  }

  /** The placements `precomputePlacementsForShape` lists. */
  function ShapePlacements(shape: Shape, regionWidth: nat, regionHeight: nat): seq<Placement>
  {
    PlaceAll(shape.shapeId, AllAnchors(shape.variants, |shape.variants|, regionWidth, regionHeight), regionWidth)
  }

  /** `precomputePlacementsForShape`, without the module-level cache: every
      variant at every offset where it fits, variant by variant, then row by
      row, then column by column. */
  method PrecomputePlacementsForShape(shape: Shape, regionWidth: nat, regionHeight: nat) returns (placements: seq<Placement>)
    ensures placements == ShapePlacements(shape, regionWidth, regionHeight)
  {
    var variants := shape.variants;
    placements := [];
    var vi := 0;
    while vi < |variants|
      invariant 0 <= vi <= |variants|
      invariant placements == PlaceAll(shape.shapeId, AllAnchors(variants, vi, regionWidth, regionHeight), regionWidth)
    {
      placements := PlaceShapeVariant(shape.shapeId, variants, vi, regionWidth, regionHeight, placements);
      vi := vi + 1;
    }
  }

  /** One pass of the outer loop: the placements of variant `vi`, if it fits. */
  method PlaceShapeVariant(shapeId: nat, variants: seq<Variant>, vi: nat, regionWidth: nat, regionHeight: nat,
                           placements0: seq<Placement>)
    returns (placements: seq<Placement>)
    requires vi < |variants|
    requires placements0 == PlaceAll(shapeId, AllAnchors(variants, vi, regionWidth, regionHeight), regionWidth)
    ensures placements == PlaceAll(shapeId, AllAnchors(variants, vi + 1, regionWidth, regionHeight), regionWidth)
  {
    var variant := variants[vi];
    var limitX := regionWidth - variant.width;
    var limitY := regionHeight - variant.height;
    if limitX >= 0 && limitY >= 0 {
      placements := PlaceVariant(shapeId, variant, vi, limitX, limitY, regionWidth, placements0);
      PlaceGridAnchors(shapeId, vi, variant, limitX, limitY + 1, regionWidth);
      AllAnchorsFits(variants, vi, regionWidth, regionHeight, limitX, limitY);
      PlaceAllConcat(shapeId, AllAnchors(variants, vi, regionWidth, regionHeight),
                     GridAnchors(vi, variant, limitX, limitY + 1), regionWidth);
    } else {
      placements := placements0;
      AllAnchorsSkips(variants, vi, regionWidth, regionHeight);
    }
  }

  /** Placing the anchors of two lists one after the other. */
  lemma PlaceAllConcat(shapeId: nat, a: seq<Anchor>, b: seq<Anchor>, regionWidth: nat)
    ensures PlaceAll(shapeId, a + b, regionWidth) == PlaceAll(shapeId, a, regionWidth) + PlaceAll(shapeId, b, regionWidth)
  {
    var ab := a + b;
    forall i | 0 <= i < |ab| ensures ab[i] == if i < |a| then a[i] else b[i - |a|] {
    }
  }

  /** The placements of the first `rowCount` rows of offsets, row by row. */
  function PlaceGrid(shapeId: nat, vi: nat, v: Variant, limitX: nat, rowCount: nat, regionWidth: nat): seq<Placement>
  {
    if rowCount == 0 then []
    else PlaceGrid(shapeId, vi, v, limitX, rowCount - 1, regionWidth) + PlaceAll(shapeId, RowAnchors(vi, v, rowCount - 1, limitX + 1), regionWidth)
  }

  lemma {:induction false} PlaceGridAnchors(shapeId: nat, vi: nat, v: Variant, limitX: nat, rowCount: nat, regionWidth: nat)
    ensures PlaceGrid(shapeId, vi, v, limitX, rowCount, regionWidth) == PlaceAll(shapeId, GridAnchors(vi, v, limitX, rowCount), regionWidth)
  {
    if rowCount > 0 {
      PlaceGridAnchors(shapeId, vi, v, limitX, rowCount - 1, regionWidth);
      PlaceAllConcat(shapeId, GridAnchors(vi, v, limitX, rowCount - 1), RowAnchors(vi, v, rowCount - 1, limitX + 1), regionWidth);
    }
  }

  /** The two `range` loops of `precomputePlacementsForShape` for one variant. */
  method PlaceVariant(shapeId: nat, variant: Variant, vi: nat, limitX: nat, limitY: nat, regionWidth: nat,
                      placements0: seq<Placement>)
    returns (placements: seq<Placement>)
    ensures placements == placements0 + PlaceGrid(shapeId, vi, variant, limitX, limitY + 1, regionWidth)
  {
    placements := placements0;
    var posY := 0;
    while posY < limitY + 1
      invariant 0 <= posY <= limitY + 1
      invariant placements == placements0 + PlaceGrid(shapeId, vi, variant, limitX, posY, regionWidth)
    {
      placements := PlaceRow(shapeId, variant, vi, limitX, posY, regionWidth, placements);
      posY := posY + 1;
    }
  }

  /** The inner `range` loop: one row of offsets. */
  method PlaceRow(shapeId: nat, variant: Variant, vi: nat, limitX: nat, posY: nat, regionWidth: nat,
                  placements0: seq<Placement>)
    returns (placements: seq<Placement>)
    ensures placements == placements0 + PlaceAll(shapeId, RowAnchors(vi, variant, posY, limitX + 1), regionWidth)
  {
    placements := placements0;
    var posX := 0;
    while posX < limitX + 1
      invariant 0 <= posX <= limitX + 1
      invariant placements == placements0 + PlaceAll(shapeId, RowAnchors(vi, variant, posY, posX), regionWidth)
    {
      var p := BuildPlacementFromVariant(shapeId, variant, vi, posX, posY, regionWidth);
      ghost var after := RowAnchors(vi, variant, posY, posX + 1);
      assert after[..posX] == RowAnchors(vi, variant, posY, posX);
      assert after[posX] == Anchor(vi, variant, posX, posY);
      placements := placements + [p];
      posX := posX + 1;
    }
  }

  /** Every shape variant is normalised. */
  predicate NormalizedShape(shape: Shape)
  {
    forall i :: 0 <= i < |shape.variants| ==> NormalizedVariant(shape.variants[i])
  }

  /** Every precomputed placement lies inside the region, and every offset of
      every variant that fits inside the region is among them. */
  lemma PrecomputedPlacements(shape: Shape, regionWidth: nat, regionHeight: nat)
    requires NormalizedShape(shape)
    ensures var ps := ShapePlacements(shape, regionWidth, regionHeight);
            (forall i :: 0 <= i < |ps| ==>
               InsideRegion(ps[i], regionWidth, regionHeight) && ps[i].shapeId == shape.shapeId
               && NormalizedVariant(ps[i].variant) && ps[i].rows == PlacementRows(ps[i].variant.cells, ps[i].posX, ps[i].posY))
            && forall vi: nat, x: nat, y: nat ::
                 vi < |shape.variants| && x + shape.variants[vi].width <= regionWidth && y + shape.variants[vi].height <= regionHeight ==>
                   PlacementOf(shape.shapeId, shape.variants[vi], vi, x, y, regionWidth) in ps
  {
    var anchors := AllAnchors(shape.variants, |shape.variants|, regionWidth, regionHeight);
    var ps := PlaceAll(shape.shapeId, anchors, regionWidth);
    AllAnchorsSound(shape.variants, |shape.variants|, regionWidth, regionHeight);
    forall i | 0 <= i < |ps|
      ensures InsideRegion(ps[i], regionWidth, regionHeight) && ps[i].shapeId == shape.shapeId
      ensures NormalizedVariant(ps[i].variant) && ps[i].rows == PlacementRows(ps[i].variant.cells, ps[i].posX, ps[i].posY)
    {
      var a := anchors[i];
      PlacementInsideRegion(shape.shapeId, a.variant, a.variantIndex, a.x, a.y, regionWidth, regionHeight);
    }
    forall vi: nat, x: nat, y: nat |
      vi < |shape.variants| && x + shape.variants[vi].width <= regionWidth && y + shape.variants[vi].height <= regionHeight
      ensures PlacementOf(shape.shapeId, shape.variants[vi], vi, x, y, regionWidth) in ps
    {
      AnchorsComplete(shape.variants, |shape.variants|, regionWidth, regionHeight, vi, x, y);
      var i :| 0 <= i < |anchors| && anchors[i] == Anchor(vi, shape.variants[vi], x, y);
    }
  }
}
