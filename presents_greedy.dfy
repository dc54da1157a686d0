/** `generateGreedyVisualization` of solutions/day12/solution.js: the
    pieces are taken round-robin from the quantities, and each is put at the
    first free position of the scan that starts where the previous piece
    went, trying the variants from a rotating counter. */
module PresentGreedy {
  import opened Wrappers
  import opened PresentShapes
  import opened PresentPlacements
  import opened PresentBoard
  import opened PresentRegions

  // ---------------------------------------------------------------------------
  // Covered cells

  /** The cells `cells` land on at offset `(posX, posY)`. */
  function Offset(cells: seq<Cell>, posX: int, posY: int): set<(int, int)>
  {
    set c | c in cells :: (posX + c.x, posY + c.y)
  }

  /** One more cell of the prefix lands on one more position. */
  lemma OffsetSnoc(cells: seq<Cell>, k: nat, posX: int, posY: int)
    requires k < |cells|
    ensures Offset(cells[..k + 1], posX, posY) == Offset(cells[..k], posX, posY) + {(posX + cells[k].x, posY + cells[k].y)}
  {
    assert forall c :: c in cells[..k + 1] <==> c in cells[..k] || c == cells[k];
  }

  /** Every cell lands on the `regionWidth` x `regionHeight` board. */
  predicate OnBoard(cells: seq<Cell>, posX: int, posY: int, regionWidth: nat, regionHeight: nat)
  {
    forall k :: 0 <= k < |cells| ==> 0 <= posX + cells[k].x < regionWidth && 0 <= posY + cells[k].y < regionHeight
  }

  /** The cells a placement covers. */
  function CellSet(p: Placement): set<(int, int)>
  {
    Offset(p.variant.cells, p.posX, p.posY)
  }

  /** The cells the placements cover. */
  function CoverSet(ps: seq<Placement>): set<(int, int)>
  {
    if |ps| == 0 then {} else CoverSet(ps[..|ps| - 1]) + CellSet(ps[|ps| - 1])
  }

  lemma CellSetCovers(p: Placement, x: int, y: int)
    ensures (x, y) in CellSet(p) <==> Covers(p, x, y)
  {
    if Covers(p, x, y) {
      var c :| c in p.variant.cells && p.posX + c.x == x && p.posY + c.y == y;
      assert (p.posX + c.x, p.posY + c.y) in CellSet(p);
    }
  }

  /** A cell is in the cover set exactly when some placement covers it. */
  lemma {:induction false} CoverSetCovers(ps: seq<Placement>, x: int, y: int)
    ensures (x, y) in CoverSet(ps) <==> exists k :: 0 <= k < |ps| && Covers(ps[k], x, y)
  {
    if |ps| > 0 {
      var n := |ps| - 1;
      CoverSetCovers(ps[..n], x, y);
      CellSetCovers(ps[n], x, y);
      if exists k :: 0 <= k < |ps| && Covers(ps[k], x, y) {
        var k :| 0 <= k < |ps| && Covers(ps[k], x, y);
        if k < n { assert ps[..n][k] == ps[k]; }
      }
      if exists k :: 0 <= k < n && Covers(ps[..n][k], x, y) {
        var k :| 0 <= k < n && Covers(ps[..n][k], x, y);
        assert ps[..n][k] == ps[k];
      }
    }
  }

  /** The placements lie inside the region and no two cover the same cell. */
  ghost predicate Packing(ps: seq<Placement>, regionWidth: nat, regionHeight: nat)
  {
    (forall k :: 0 <= k < |ps| ==> InsideRegion(ps[k], regionWidth, regionHeight)) && NoOverlap(ps)
  }

  /** No two placements cover the same cell. */
  ghost predicate NoOverlap(ps: seq<Placement>)
  {
    forall k1, k2, x, y :: 0 <= k1 < k2 < |ps| ==> !(Covers(ps[k1], x, y) && Covers(ps[k2], x, y))
  }

  /** `canPlace` against the covered cells: the variant at `(posX, posY)`
      stays inside the region and every cell it would take is uncovered. */
  predicate Free(covered: set<(int, int)>, v: Variant, posX: int, posY: int, regionWidth: nat, regionHeight: nat)
  {
    posX + v.width <= regionWidth && posY + v.height <= regionHeight && Clear(covered, v.cells, posX, posY)
  }

  /** No cell of `cells` at offset `(posX, posY)` is covered. */
  predicate Clear(covered: set<(int, int)>, cells: seq<Cell>, posX: int, posY: int)
  {
    forall k :: 0 <= k < |cells| ==> (posX + cells[k].x, posY + cells[k].y) !in covered
  }

  /** No variant of `shape` is free at `(x, y)`. */
  predicate StuckAt(covered: set<(int, int)>, shape: Shape, x: int, y: int, regionWidth: nat, regionHeight: nat)
  {
    forall vi :: 0 <= vi < |shape.variants| ==> !Free(covered, shape.variants[vi], x, y, regionWidth, regionHeight)
  }

  /** `step` is the first step of the variant loop at `(x, y)`, counting from
      the rotation counter, whose variant is free there. */
  predicate FirstFree(covered: set<(int, int)>, shape: Shape, rotationCounter: nat, x: int, y: int,
                      regionWidth: nat, regionHeight: nat, step: nat)
  {
    var n := |shape.variants|;
    step < n
    && Free(covered, shape.variants[Cyclic(rotationCounter, n, step)], x, y, regionWidth, regionHeight)
    && forall s :: 0 <= s < step ==>
         !Free(covered, shape.variants[Cyclic(rotationCounter, n, s)], x, y, regionWidth, regionHeight)
  }

  /** No variant of `shape` is free at the scan position `linear`. */
  predicate StuckAtLinear(covered: set<(int, int)>, shape: Shape, linear: nat, regionWidth: nat, regionHeight: nat)
    requires regionWidth > 0
  {
    StuckAt(covered, shape, linear % regionWidth, linear / regionWidth, regionWidth, regionHeight)
  }

  /** No variant of `shape` is free anywhere on the board. */
  predicate Stuck(covered: set<(int, int)>, shape: Shape, regionWidth: nat, regionHeight: nat)
  {
    forall x, y :: 0 <= x < regionWidth && 0 <= y < regionHeight ==> StuckAt(covered, shape, x, y, regionWidth, regionHeight)
  }

  /** `p` is `buildPlacementFromVariant` of one variant of `shape`. */
  predicate PieceOf(p: Placement, shape: Shape, regionWidth: nat)
  {
    p.variantIndex < |shape.variants| && p.variant == shape.variants[p.variantIndex]
    && p == PlacementOf(shape.shapeId, p.variant, p.variantIndex, p.posX, p.posY, regionWidth)
  }

  /** A placement on free cells overlaps none of the earlier ones. */
  lemma NoOverlapPush(ps: seq<Placement>, p: Placement, regionWidth: nat, regionHeight: nat)
    requires NoOverlap(ps) && Free(CoverSet(ps), p.variant, p.posX, p.posY, regionWidth, regionHeight)
    ensures NoOverlap(ps + [p])
  {
    var qs := ps + [p];
    forall k1, k2, x, y | 0 <= k1 < k2 < |qs| ensures !(Covers(qs[k1], x, y) && Covers(qs[k2], x, y)) {
      if k2 < |ps| {
        assert qs[k1] == ps[k1] && qs[k2] == ps[k2];
      } else {
        assert qs[k1] == ps[k1] && qs[k2] == p;
        if Covers(p, x, y) {
          var c :| c in p.variant.cells && p.posX + c.x == x && p.posY + c.y == y;
          var k :| 0 <= k < |p.variant.cells| && p.variant.cells[k] == c;
          assert (x, y) !in CoverSet(ps);
          CoverSetCovers(ps, x, y);
        }
      }
    }
  }

  /** The last placement adds its cells to the covered set. */
  lemma CoverSetPush(ps: seq<Placement>, p: Placement)
    ensures CoverSet(ps + [p]) == CoverSet(ps) + CellSet(p)
  {
    assert (ps + [p])[..|ps|] == ps;
  }

  /** The placement lies inside the region on cells not in `covered`. */
  predicate LandsFree(covered: set<(int, int)>, p: Placement, regionWidth: nat, regionHeight: nat)
  {
    InsideRegion(p, regionWidth, regionHeight) && Free(covered, p.variant, p.posX, p.posY, regionWidth, regionHeight)
  }

  /** Adding a placement inside the region on free cells keeps a packing,
      and it covers its own cells on top of the earlier ones. */
  lemma PackingPush(ps: seq<Placement>, p: Placement, regionWidth: nat, regionHeight: nat)
    requires Packing(ps, regionWidth, regionHeight) && LandsFree(CoverSet(ps), p, regionWidth, regionHeight)
    ensures Packing(ps + [p], regionWidth, regionHeight)
  {
    var qs := ps + [p];
    assert qs[..|ps|] == ps;
    NoOverlapPush(ps, p, regionWidth, regionHeight);
    forall k | 0 <= k < |qs| ensures InsideRegion(qs[k], regionWidth, regionHeight) {
      if k < |ps| {
        assert qs[k] == ps[k];
      }
    }
  }

  /** The rotation counter after a successful placement: it cycles through
      the eight orientations. */
  function NextRotation(rotation: nat): (r: nat)
    ensures r < 8
  {
    (rotation + 1) % 8
  }

  /** The position `offset` steps after `start` on a cyclic scan of `n`. */
  function Cyclic(start: nat, n: nat, offset: nat): nat
    requires n > 0
  {
    (start + offset) % n
  }

  /** The offset after which the cyclic scan from `start` reaches `t`. */
  function OffsetTo(start: nat, n: nat, t: nat): nat
    requires n > 0
  {
    if t >= start % n then t - start % n else t + n - start % n
  }

  /** One more step of the scan moves to the next position, wrapping round. */
  lemma CyclicStep(start: nat, n: nat, offset: nat)
    requires n > 0
    ensures (Cyclic(start, n, offset) + 1) % n == Cyclic(start, n, offset + 1)
  {
    var q, r := (start + offset) / n, (start + offset) % n;
    if r + 1 < n {
      DivModUnique(start + offset + 1, n, q, r + 1);
      DivModUnique(r + 1, n, 0, r + 1);
    } else {
      DivModUnique(start + offset + 1, n, q + 1, 0);
      DivModUnique(r + 1, n, 1, 0);
    }
  }

  /** A full lap brings the cyclic position back to where it started. */
  lemma CyclicLap(start: nat, n: nat)
    requires n > 0
    ensures Cyclic(start, n, n) == Cyclic(start, n, 0)
  {
    DivModUnique(start + n, n, start / n + 1, start % n);
  }

  /** The cyclic scan of `n` steps from `start` reaches every position. */
  lemma CyclicReaches(start: nat, n: nat, t: nat)
    requires t < n
    ensures OffsetTo(start, n, t) < n && Cyclic(start, n, OffsetTo(start, n, t)) == t
  {
    var q, r := start / n, start % n;
    var j := OffsetTo(start, n, t);
    if t >= r {
      DivModUnique(start + j, n, q, t);
    } else {
      DivModUnique(start + j, n, q + 1, t);
    }
  }

  // ---------------------------------------------------------------------------
  // The board
  //
  // `board[y][x]` of `generateGreedyVisualization` is `board[y, x]` here: its
  // width is `board.Length1` and its height `board.Length0`. The closures
  // `canPlace`, `applyPlacement` and `tryPlaceShape` share the board, the
  // placements and the two counters with the enclosing function; here the
  // board is passed to them and the other three are passed in and returned.

  /** The board marks exactly the cells in `covered`. */
  ghost predicate Drawn(board: array2<bool>, covered: set<(int, int)>)
    reads board
  {
    forall x, y :: 0 <= x < board.Length1 && 0 <= y < board.Length0 ==> (board[y, x] <==> (x, y) in covered)
  }

  /** `canPlace` */
  method CanPlace(board: array2<bool>, ghost covered: set<(int, int)>, variant: Variant, posX: nat, posY: nat)
    returns (ok: bool)
    requires Drawn(board, covered) && NormalizedVariant(variant)
    ensures ok <==> Free(covered, variant, posX, posY, board.Length1, board.Length0)
  {
    if posX + variant.width > board.Length1 || posY + variant.height > board.Length0 {
      return false;
    }
    ok := CellsFree(board, covered, variant.cells, posX, posY);
  }

  /** The `every` of `canPlace`: every cell lands on an unmarked square. */
  method CellsFree(board: array2<bool>, ghost covered: set<(int, int)>, cells: seq<Cell>, posX: int, posY: int)
    returns (ok: bool)
    requires Drawn(board, covered) && OnBoard(cells, posX, posY, board.Length1, board.Length0)
    ensures ok <==> Clear(covered, cells, posX, posY)
  {
    var k := 0;
    while k < |cells|
      invariant 0 <= k <= |cells|
      invariant forall j :: 0 <= j < k ==> (posX + cells[j].x, posY + cells[j].y) !in covered
    {
      if board[posY + cells[k].y, posX + cells[k].x] {
        return false;
      }
      k := k + 1;
    }
    return true;
  }

  /** Marks one square of the board. */
  method Mark(board: array2<bool>, ghost covered: set<(int, int)>, x: nat, y: nat)
    requires Drawn(board, covered) && x < board.Length1 && y < board.Length0
    modifies board
    ensures Drawn(board, covered + {(x, y)})
  {
    board[y, x] := true;
  }

  /** The `forEach` of `applyPlacement`: marks the cells the variant lands on. */
  method MarkCells(board: array2<bool>, ghost covered: set<(int, int)>, cells: seq<Cell>, posX: int, posY: int)
    requires Drawn(board, covered) && OnBoard(cells, posX, posY, board.Length1, board.Length0)
    modifies board
    ensures Drawn(board, covered + Offset(cells, posX, posY))
  {
    var k := 0;
    ghost var marked := covered;
    while k < |cells|
      invariant 0 <= k <= |cells|
      invariant marked == covered + Offset(cells[..k], posX, posY) && Drawn(board, marked)
    {
      OffsetSnoc(cells, k, posX, posY);
      var x, y := posX + cells[k].x, posY + cells[k].y;
      Mark(board, marked, x, y);
      marked := marked + {(x, y)};
      k := k + 1;
    }
    assert cells[..k] == cells;
  }

  /** A variant that is free at `(posX, posY)` lands inside the board on
      free cells, and its placement adds exactly those cells to the cover. */
  lemma PlacementLands(placements: seq<Placement>, shapeId: nat, variant: Variant, variantIndex: nat, posX: nat, posY: nat,
                       regionWidth: nat, regionHeight: nat)
    requires NormalizedVariant(variant) && Free(CoverSet(placements), variant, posX, posY, regionWidth, regionHeight)
    ensures var p := PlacementOf(shapeId, variant, variantIndex, posX, posY, regionWidth);
            CoverSet(placements + [p]) == CoverSet(placements) + Offset(variant.cells, posX, posY)
            && LandsFree(CoverSet(placements), p, regionWidth, regionHeight)
  {
    var p := PlacementOf(shapeId, variant, variantIndex, posX, posY, regionWidth);
    PlacementInsideRegion(shapeId, variant, variantIndex, posX, posY, regionWidth, regionHeight);
    CoverSetPush(placements, p);
  }

  /** `applyPlacement`: marks the variant's cells and appends the placement. */
  method ApplyPlacement(board: array2<bool>, placements: seq<Placement>, shape: Shape, variant: Variant, variantIndex: nat,
                        posX: nat, posY: nat)
    returns (placements': seq<Placement>)
    requires Drawn(board, CoverSet(placements)) && NormalizedVariant(variant)
    requires Free(CoverSet(placements), variant, posX, posY, board.Length1, board.Length0)
    modifies board
    ensures Drawn(board, CoverSet(placements'))
    ensures placements' == placements + [PlacementOf(shape.shapeId, variant, variantIndex, posX, posY, board.Length1)]
    ensures LandsFree(CoverSet(placements), placements'[|placements|], board.Length1, board.Length0)
  {
    PlacementLands(placements, shape.shapeId, variant, variantIndex, posX, posY, board.Length1, board.Length0);
    MarkCells(board, CoverSet(placements), variant.cells, posX, posY);
    var p := BuildPlacementFromVariant(shape.shapeId, variant, variantIndex, posX, posY, board.Length1);
    placements' := placements + [p];
  }

  // ---------------------------------------------------------------------------
  // The scan of `tryPlaceShape`

  /** The variant loop of `tryPlaceShape` at `(x, y)`: the first variant,
      counting from the rotation counter, that is free there. */
  method FirstFreeVariant(board: array2<bool>, ghost covered: set<(int, int)>, shape: Shape, rotationCounter: nat,
                          x: nat, y: nat)
    returns (found: bool, variantIndex: nat, ghost step: nat)
    requires Drawn(board, covered) && NormalizedShape(shape)
    ensures found ==> FirstFree(covered, shape, rotationCounter, x, y, board.Length1, board.Length0, step)
                      && variantIndex == Cyclic(rotationCounter, |shape.variants|, step)
    ensures !found ==> StuckAt(covered, shape, x, y, board.Length1, board.Length0)
  {
    var variantCount := |shape.variants|;
    step := 0;
    if variantCount == 0 {
      return false, 0, step;
    }
    var k := 0;
    while k < variantCount
      invariant 0 <= k <= variantCount
      invariant forall s :: 0 <= s < k ==>
                  !Free(covered, shape.variants[Cyclic(rotationCounter, variantCount, s)], x, y, board.Length1, board.Length0)
    {
      variantIndex := Cyclic(rotationCounter, variantCount, k);
      var ok := CanPlace(board, covered, shape.variants[variantIndex], x, y);
      if ok {
        return true, variantIndex, k;
      }
      k := k + 1;
    }
    forall vi | 0 <= vi < variantCount
      ensures !Free(covered, shape.variants[vi], x, y, board.Length1, board.Length0)
    {
      CyclicReaches(rotationCounter, variantCount, vi);
    }
    return false, 0, step;
  }

  /** The position loop of `tryPlaceShape`: from `scanPointer` on,
      cyclically, the first position `linear = y * width + x` at which some
      variant is free, found after `offset` positions where none is. */
  method FindPosition(board: array2<bool>, ghost covered: set<(int, int)>, shape: Shape, rotationCounter: nat,
                      scanPointer: nat)
    returns (found: bool, variantIndex: nat, linear: nat, x: nat, y: nat, ghost offset: nat, ghost vstep: nat)
    requires Drawn(board, covered) && NormalizedShape(shape)
    ensures found ==> board.Length1 > 0 && linear < board.Length1 * board.Length0
                      && offset < board.Length1 * board.Length0 && linear == Cyclic(scanPointer, board.Length1 * board.Length0, offset)
                      && x == linear % board.Length1 && y == linear / board.Length1
                      && FirstFree(covered, shape, rotationCounter, x, y, board.Length1, board.Length0, vstep)
                      && variantIndex == Cyclic(rotationCounter, |shape.variants|, vstep)
    ensures found ==> forall j :: 0 <= j < offset ==>
                        StuckAtLinear(covered, shape, Cyclic(scanPointer, board.Length1 * board.Length0, j),
                                      board.Length1, board.Length0)
    ensures !found ==> Stuck(covered, shape, board.Length1, board.Length0)
  {
    var width, height := board.Length1, board.Length0;
    var totalCells := width * height;
    var step := 0;
    while step < totalCells
      invariant 0 <= step <= totalCells
      invariant forall j :: 0 <= j < step ==> StuckAtLinear(covered, shape, Cyclic(scanPointer, totalCells, j), width, height)
    {
      linear := Cyclic(scanPointer, totalCells, step);
      LinearPosition(linear, width, height);
      x, y := linear % width, linear / width;
      found, variantIndex, vstep := FirstFreeVariant(board, covered, shape, rotationCounter, x, y);
      if found {
        return found, variantIndex, linear, x, y, step, vstep;
      }
      assert StuckAtLinear(covered, shape, linear, width, height);
      step := step + 1;
    }
    StuckEverywhere(covered, shape, scanPointer, width, height);
    return false, 0, 0, 0, 0, step, 0;
  }

  /** The choice `tryPlaceShape` makes for `shape`. On success one more
      placement is pushed: a piece of the shape on free cells inside the
      region, at the first position in scan order from `scanPointer`
      (`offset` positions on) where some variant is free, in the first free
      variant from `rotationCounter` on (`step` variants on); the counter
      advances and `scanPointer` moves to that position. On failure nothing
      changes and the shape fits nowhere. */
  predicate TriedShape(placements: seq<Placement>, shape: Shape, rotationCounter: nat, scanPointer: nat,
                       placed: bool, placements': seq<Placement>, rotationCounter': nat, scanPointer': nat,
                       regionWidth: nat, regionHeight: nat, offset: nat, step: nat)
  {
    (placed ==>
       |placements'| == |placements| + 1 && placements' == placements + [placements'[|placements|]]
       && PieceOf(placements'[|placements|], shape, regionWidth)
       && LandsFree(CoverSet(placements), placements'[|placements|], regionWidth, regionHeight)
       && rotationCounter' == NextRotation(rotationCounter)
       && regionWidth > 0 && offset < regionWidth * regionHeight
       && placements'[|placements|].posX == scanPointer' % regionWidth
       && placements'[|placements|].posY == scanPointer' / regionWidth
       && scanPointer' == Cyclic(scanPointer, regionWidth * regionHeight, offset)
       && (forall j :: 0 <= j < offset ==>
             StuckAtLinear(CoverSet(placements), shape, Cyclic(scanPointer, regionWidth * regionHeight, j),
                           regionWidth, regionHeight))
       && FirstFree(CoverSet(placements), shape, rotationCounter, scanPointer' % regionWidth,
                    scanPointer' / regionWidth, regionWidth, regionHeight, step)
       && placements'[|placements|].variantIndex == Cyclic(rotationCounter, |shape.variants|, step))
    && (!placed ==>
          placements' == placements && rotationCounter' == rotationCounter && scanPointer' == scanPointer
          && Stuck(CoverSet(placements), shape, regionWidth, regionHeight))
  }

  /** `tryPlaceShape`: places the shape at the first position of the scan
      (`offset` positions after `scanPointer`, cyclically, every earlier one
      stuck), in the first free variant from the rotation counter on (`step`
      variants after it); the counter then advances and `scanPointer` moves to
      that position. When it fails, nothing changes and no variant is free
      anywhere. */
  method TryPlaceShape(board: array2<bool>, placements: seq<Placement>, shape: Shape, rotationCounter: nat, scanPointer: nat)
    returns (placed: bool, placements': seq<Placement>, rotationCounter': nat, scanPointer': nat,
             ghost offset: nat, ghost step: nat)
    requires Drawn(board, CoverSet(placements)) && NormalizedShape(shape)
    modifies board
    ensures Drawn(board, CoverSet(placements'))
    ensures TriedShape(placements, shape, rotationCounter, scanPointer, placed, placements', rotationCounter', scanPointer',
                       board.Length1, board.Length0, offset, step)
  {
    var found, variantIndex, linear, x, y;
    found, variantIndex, linear, x, y, offset, step := FindPosition(board, CoverSet(placements), shape, rotationCounter, scanPointer);
    if !found {
      return false, placements, rotationCounter, scanPointer, offset, step;
    }
    placements' := ApplyPlacement(board, placements, shape, shape.variants[variantIndex], variantIndex, x, y);
    return true, placements', NextRotation(rotationCounter), linear, offset, step;
  }

  /** A full cyclic scan of the board on which no position takes the shape
      leaves it stuck everywhere. */
  lemma StuckEverywhere(covered: set<(int, int)>, shape: Shape, start: nat, regionWidth: nat, regionHeight: nat)
    requires forall j :: 0 <= j < regionWidth * regionHeight ==>
               StuckAtLinear(covered, shape, Cyclic(start, regionWidth * regionHeight, j), regionWidth, regionHeight)
    ensures Stuck(covered, shape, regionWidth, regionHeight)
  {
    forall x, y | 0 <= x < regionWidth && 0 <= y < regionHeight
      ensures StuckAt(covered, shape, x, y, regionWidth, regionHeight)
    {
      var t := y * regionWidth + x;
      CellIndexInRegion(x, y, regionWidth, regionHeight);
      CyclicReaches(start, regionWidth * regionHeight, t);
      assert StuckAtLinear(covered, shape, t, regionWidth, regionHeight);
    }
  }

  /** A position of the scan, `linear < width * height`, is a cell of the board. */
  lemma LinearPosition(linear: nat, regionWidth: nat, regionHeight: nat)
    requires linear < regionWidth * regionHeight
    ensures regionWidth > 0 && linear % regionWidth < regionWidth && linear / regionWidth < regionHeight
    ensures linear / regionWidth * regionWidth + linear % regionWidth == linear
  {
    DivBelow(linear, regionWidth, regionHeight);
  }

  // ---------------------------------------------------------------------------
  // The buckets

  /** The starting `remaining` of every bucket: its quantity. */
  function Quantities(qs: seq<Quantity>): (r: seq<nat>)
    ensures |r| == |qs| && forall i :: 0 <= i < |qs| ==> r[i] == qs[i].quantity
  {
    seq(|qs|, i requires 0 <= i < |qs| => qs[i].quantity)
  }

  /** `totalPieces` is the number of pieces the quantities ask for. */
  lemma {:induction false} QuantitiesSum(qs: seq<Quantity>)
    ensures Sum(Quantities(qs)) == Pieces(qs)
  {
    if |qs| > 0 {
      var n := |qs| - 1;
      QuantitiesSum(qs[..n]);
      assert Quantities(qs)[..n] == Quantities(qs[..n]);
    }
  }

  /** The buckets are all empty exactly when nothing remains. */
  lemma {:induction false} SumZero(xs: seq<nat>)
    ensures Sum(xs) == 0 <==> forall i :: 0 <= i < |xs| ==> xs[i] == 0
  {
    if |xs| > 0 {
      var n := |xs| - 1;
      SumZero(xs[..n]);
      if Sum(xs) == 0 {
        forall i | 0 <= i < |xs| ensures xs[i] == 0 {
          if i < n { assert xs[..n][i] == xs[i]; }
        }
      } else if forall i :: 0 <= i < |xs| ==> xs[i] == 0 {
        forall i | 0 <= i < n ensures xs[..n][i] == 0 {
          assert xs[..n][i] == xs[i];
        }
      }
    }
  }

  /** Taking one piece out of a non-empty bucket leaves one piece fewer. */
  lemma {:induction false} SumDecrement(xs: seq<nat>, i: nat)
    requires i < |xs| && xs[i] > 0
    ensures Sum(xs[i := xs[i] - 1]) == Sum(xs) - 1
  {
    var n := |xs| - 1;
    var ys := xs[i := xs[i] - 1];
    if i < n {
      SumDecrement(xs[..n], i);
      assert ys[..n] == xs[..n][i := xs[i] - 1];
    } else {
      assert ys[..n] == xs[..n];
    }
  }

  /** The k-th placement is a variant of the shape of quantity `buckets[k]`. */
  predicate Assigned(ps: seq<Placement>, buckets: seq<nat>, qs: seq<Quantity>, regionWidth: nat)
  {
    |ps| == |buckets|
    && forall k :: 0 <= k < |ps| ==> buckets[k] < |qs| && PieceOf(ps[k], qs[buckets[k]].shape, regionWidth)
  }

  lemma AssignedPush(ps: seq<Placement>, buckets: seq<nat>, qs: seq<Quantity>, regionWidth: nat, p: Placement, i: nat)
    requires Assigned(ps, buckets, qs, regionWidth) && i < |qs| && PieceOf(p, qs[i].shape, regionWidth)
    ensures Assigned(ps + [p], buckets + [i], qs, regionWidth)
  {
    var ps', bs' := ps + [p], buckets + [i];
    forall k | 0 <= k < |ps'| ensures bs'[k] < |qs| && PieceOf(ps'[k], qs[bs'[k]].shape, regionWidth) {
      if k < |ps| {
        assert ps'[k] == ps[k] && bs'[k] == buckets[k];
      }
    }
  }

  /** Every bucket's pieces are either still remaining or placed. */
  predicate Tally(remaining: seq<nat>, buckets: seq<nat>, qs: seq<Quantity>)
  {
    |remaining| == |qs| && forall i :: 0 <= i < |qs| ==> remaining[i] + multiset(buckets)[i] == qs[i].quantity
  }

  /** Taking a piece out of bucket `i` and placing it keeps the tally. */
  lemma TallyTake(remaining: seq<nat>, buckets: seq<nat>, qs: seq<Quantity>, i: nat)
    requires Tally(remaining, buckets, qs) && i < |qs| && remaining[i] > 0
    ensures Tally(remaining[i := remaining[i] - 1], buckets + [i], qs)
  {
    assert multiset(buckets + [i]) == multiset(buckets) + multiset{i};
  }

  /** No bucket has had more pieces placed than its quantity. */
  predicate Within(buckets: seq<nat>, qs: seq<Quantity>)
  {
    forall i :: 0 <= i < |qs| ==> multiset(buckets)[i] <= qs[i].quantity
  }

  /** Every bucket has had all its pieces placed. */
  predicate Complete(buckets: seq<nat>, qs: seq<Quantity>)
  {
    forall i :: 0 <= i < |qs| ==> multiset(buckets)[i] == qs[i].quantity
  }

  /** A piece of shape `shapeId` is still in its bucket and fits nowhere on
      the board the placements leave. */
  predicate FailedOn(placements: seq<Placement>, buckets: seq<nat>, qs: seq<Quantity>, shapeId: nat,
                     regionWidth: nat, regionHeight: nat)
  {
    exists i :: 0 <= i < |qs| && qs[i].shape.shapeId == shapeId && multiset(buckets)[i] < qs[i].quantity
                && Stuck(CoverSet(placements), qs[i].shape, regionWidth, regionHeight)
  }

  /** Once nothing remains, every piece of every bucket has been placed. */
  lemma TallyComplete(remaining: seq<nat>, buckets: seq<nat>, qs: seq<Quantity>)
    requires Tally(remaining, buckets, qs) && Sum(remaining) == 0
    ensures Within(buckets, qs) && Complete(buckets, qs)
  {
    SumZero(remaining);
  }

  /** The traversal of `generateGreedyVisualization`: from `start` on, the
      first bucket, in cyclic order, that still has pieces, found after
      `traversed` empty ones; when it lands on an empty bucket, every bucket
      is empty. */
  method NextBucket(remaining: array<nat>, start: nat) returns (index: nat, ghost traversed: nat)
    requires start < remaining.Length
    ensures traversed <= remaining.Length && index == Cyclic(start, remaining.Length, traversed)
    ensures forall t :: 0 <= t < traversed ==> remaining[Cyclic(start, remaining.Length, t)] == 0
    ensures index < remaining.Length
    ensures remaining[index] == 0 ==> forall i :: 0 <= i < remaining.Length ==> remaining[i] == 0
  {
    var n := remaining.Length;
    var steps := 0;
    DivModUnique(start, n, 0, start);
    index := start;
    while remaining[index] == 0 && steps < n
      invariant 0 <= steps <= n && index == Cyclic(start, n, steps)
      invariant forall t :: 0 <= t < steps ==> remaining[Cyclic(start, n, t)] == 0
    {
      CyclicStep(start, n, steps);
      index := (index + 1) % n;
      steps := steps + 1;
    }
    traversed := steps;
    if remaining[index] == 0 {
      forall i | 0 <= i < n ensures remaining[i] == 0 {
        CyclicReaches(start, n, i);
      }
    }
  }

  // ---------------------------------------------------------------------------
  // generateGreedyVisualization

  /** The bucket step of the main loop of `generateGreedyVisualization`:
      takes a piece out of the next non-empty bucket from `start` on and
      returns that bucket and the one after it. */
  method TakePiece(remaining: array<nat>, start: nat) returns (index: nat, nextIndex: nat, ghost traversed: nat)
    requires start < remaining.Length && Sum(remaining[..]) > 0
    modifies remaining
    ensures traversed < remaining.Length && index == Cyclic(start, remaining.Length, traversed)
    ensures forall t :: 0 <= t < traversed ==> old(remaining[Cyclic(start, remaining.Length, t)]) == 0
    ensures index < remaining.Length && nextIndex == (index + 1) % remaining.Length
    ensures old(remaining[index]) > 0 && remaining[..] == old(remaining[..])[index := old(remaining[index]) - 1]
    ensures Sum(remaining[..]) == old(Sum(remaining[..])) - 1
  {
    index, traversed := NextBucket(remaining, start);
    CyclicLap(start, remaining.Length);
    if remaining[index] == 0 {
      SumZero(remaining[..]);
      assert false;
    }
    SumDecrement(remaining[..], index);
    remaining[index] := remaining[index] - 1;
    nextIndex := (index + 1) % remaining.Length;
  }

  /** One turn of the main loop of `generateGreedyVisualization`: takes a
      piece out of the next non-empty bucket and tries to place it. */
  method TakeAndPlace(board: array2<bool>, placements: seq<Placement>, rotationCounter: nat, scanPointer: nat,
                      remaining: array<nat>, qs: seq<Quantity>, bucketIndex: nat, ghost buckets: seq<nat>)
    returns (placed: bool, shapeIndex: nat, nextIndex: nat,
             placements': seq<Placement>, rotationCounter': nat, scanPointer': nat,
             ghost traversed: nat, ghost offset: nat, ghost step: nat)
    requires Drawn(board, CoverSet(placements)) && remaining.Length == |qs| && bucketIndex < |qs|
    requires forall i :: 0 <= i < |qs| ==> NormalizedShape(qs[i].shape)
    requires Tally(remaining[..], buckets, qs) && Assigned(placements, buckets, qs, board.Length1)
    requires Packing(placements, board.Length1, board.Length0) && Sum(remaining[..]) > 0
    modifies board, remaining
    ensures Drawn(board, CoverSet(placements')) && Packing(placements', board.Length1, board.Length0)
    ensures shapeIndex < |qs| && nextIndex < |qs| && nextIndex == (shapeIndex + 1) % |qs|
    ensures traversed < |qs| && shapeIndex == Cyclic(bucketIndex, |qs|, traversed)
    ensures forall t :: 0 <= t < traversed ==> old(remaining[Cyclic(bucketIndex, |qs|, t)]) == 0
    ensures old(remaining[shapeIndex]) > 0 && remaining[..] == old(remaining[..])[shapeIndex := old(remaining[shapeIndex]) - 1]
    ensures Sum(remaining[..]) == old(Sum(remaining[..])) - 1
    ensures TriedShape(placements, qs[shapeIndex].shape, rotationCounter, scanPointer, placed, placements', rotationCounter',
                       scanPointer', board.Length1, board.Length0, offset, step)
    ensures placed ==> |placements'| == |placements| + 1
                       && Tally(remaining[..], buckets + [shapeIndex], qs)
                       && Assigned(placements', buckets + [shapeIndex], qs, board.Length1)
    ensures !placed ==> placements' == placements
                        && multiset(buckets)[shapeIndex] < qs[shapeIndex].quantity
                        && Stuck(CoverSet(placements), qs[shapeIndex].shape, board.Length1, board.Length0)
                        && FailedOn(placements, buckets, qs, qs[shapeIndex].shape.shapeId, board.Length1, board.Length0)
  {
    ghost var counts := remaining[..];
    shapeIndex, nextIndex, traversed := TakePiece(remaining, bucketIndex);
    ghost var left := remaining[..];
    placed, placements', rotationCounter', scanPointer', offset, step :=
      TryPlaceShape(board, placements, qs[shapeIndex].shape, rotationCounter, scanPointer);
    assert remaining[..] == left;
    if placed {
      AssignedPush(placements, buckets, qs, board.Length1, placements'[|placements|], shapeIndex);
      PackingPush(placements, placements'[|placements|], board.Length1, board.Length0);
      TallyTake(counts, buckets, qs, shapeIndex);
    }
  }

  /** The main loop of `generateGreedyVisualization`, on an empty board:
      takes the pieces round-robin from the buckets and places each with
      `tryPlaceShape`, stopping at the first piece that fits nowhere.
      `buckets[k]` is the quantity whose shape the k-th placement is a
      variant of. */
  method PlacePieces(board: array2<bool>, remaining: array<nat>, qs: seq<Quantity>)
    returns (placements: seq<Placement>, completed: bool, failedShapeId: Option<nat>, ghost buckets: seq<nat>)
    requires Drawn(board, {}) && remaining.Length == |qs| > 0 && Tally(remaining[..], [], qs)
    requires forall i :: 0 <= i < |qs| ==> NormalizedShape(qs[i].shape)
    modifies board, remaining
    ensures completed <==> failedShapeId == None
    ensures Packing(placements, board.Length1, board.Length0)
    ensures Assigned(placements, buckets, qs, board.Length1) && Within(buckets, qs)
    ensures completed ==> |placements| == old(Sum(remaining[..])) && Complete(buckets, qs)
    ensures failedShapeId.Some? ==> FailedOn(placements, buckets, qs, failedShapeId.value, board.Length1, board.Length0)
  {
    var n := |qs|;
    var totalPieces := Sum(remaining[..]);
    var rotationCounter: nat, scanPointer: nat := 0, 0;
    var bucketIndex: nat := 0;
    var placedPieces := 0;
    placements, buckets := [], [];
    while placedPieces < totalPieces
      invariant Drawn(board, CoverSet(placements)) && Packing(placements, board.Length1, board.Length0)
      invariant remaining.Length == n && bucketIndex < n
      invariant placedPieces == |placements| == |buckets| && Sum(remaining[..]) + placedPieces == totalPieces
      invariant Tally(remaining[..], buckets, qs) && Assigned(placements, buckets, qs, board.Length1)
      decreases totalPieces - placedPieces
    {
      var placed, shapeIndex;
      ghost var traversed, offset, step;
      placed, shapeIndex, bucketIndex, placements, rotationCounter, scanPointer, traversed, offset, step :=
        TakeAndPlace(board, placements, rotationCounter, scanPointer, remaining, qs, bucketIndex, buckets);
      if !placed {
        return placements, false, Some(qs[shapeIndex].shape.shapeId), buckets;
      }
      buckets := buckets + [shapeIndex];
      placedPieces := placedPieces + 1;
    }
    TallyComplete(remaining[..], buckets, qs);
    return placements, true, None, buckets;
  }

  /** `generateGreedyVisualization`: a region that asks for no pieces is
      complete at once; otherwise the buckets start at the quantities and
      the main loop places their pieces on an empty board. */
  method GenerateGreedyVisualization(region: Region)
    returns (placements: seq<Placement>, completed: bool, failedShapeId: Option<nat>, ghost buckets: seq<nat>)
    requires forall i :: 0 <= i < |region.quantities| ==> NormalizedShape(region.quantities[i].shape)
    ensures Pieces(region.quantities) == 0 ==> placements == [] && completed && failedShapeId == None
    ensures completed <==> failedShapeId == None
    ensures Packing(placements, region.width, region.height)
    ensures Assigned(placements, buckets, region.quantities, region.width) && Within(buckets, region.quantities)
    ensures completed ==> |placements| == Pieces(region.quantities) && Complete(buckets, region.quantities)
    ensures failedShapeId.Some? ==>
              FailedOn(placements, buckets, region.quantities, failedShapeId.value, region.width, region.height)
  {
    var qs := region.quantities;
    var n := |qs|;
    var remaining := new nat[n](i requires 0 <= i < n => qs[i].quantity);
    assert remaining[..] == Quantities(qs);
    QuantitiesSum(qs);
    if Sum(remaining[..]) == 0 {
      SumZero(remaining[..]);
      return [], true, None, [];
    }
    var board := new bool[region.height, region.width]((y, x) => false);
    placements, completed, failedShapeId, buckets := PlacePieces(board, remaining, qs);
  }
}
