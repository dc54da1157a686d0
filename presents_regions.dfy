/** The regions of solutions/day12/solution.js: a width, a height and how many
    pieces of each shape must fit. The area-and-slot heuristic
    (`evaluateRegionHeuristics`) and the slot placer that backs it
    (`generateHeuristicPlacements`). */
module PresentRegions {
  import opened Bits
  import opened PresentShapes
  import opened PresentPlacements

  datatype Quantity = Quantity(shape: Shape, quantity: nat)

  datatype Region = Region(regionId: nat, width: nat, height: nat, quantities: seq<Quantity>)

  /** `quantity.reduce((sum, q) => sum + q.quantity * q.shape.area, 0)` */
  function RequiredArea(qs: seq<Quantity>): nat
  {
    if |qs| == 0 then 0 else RequiredArea(qs[..|qs| - 1]) + qs[|qs| - 1].quantity * qs[|qs| - 1].shape.area
  }

  /** The number of pieces, `quantity.reduce((sum, q) => sum + q.quantity, 0)`. */
  function Pieces(qs: seq<Quantity>): nat
  {
    if |qs| == 0 then 0 else Pieces(qs[..|qs| - 1]) + qs[|qs| - 1].quantity
  }

  /** `count` copies of `shape`. */
  function Repeat(shape: Shape, count: nat): (r: seq<Shape>)
    ensures |r| == count && forall k :: 0 <= k < count ==> r[k] == shape
  {
    seq(count, k => shape)
  }

  /** The pieces in the order both placers take them: every copy of the first
      shape, then every copy of the second, and so on. */
  function PieceShapes(qs: seq<Quantity>): (r: seq<Shape>)
  {
    if |qs| == 0 then [] else PieceShapes(qs[..|qs| - 1]) + Repeat(qs[|qs| - 1].shape, qs[|qs| - 1].quantity)
  }

  lemma {:induction false} PieceShapesCount(qs: seq<Quantity>)
    ensures |PieceShapes(qs)| == Pieces(qs)
  {
    if |qs| > 0 { PieceShapesCount(qs[..|qs| - 1]); }
  }

  /** The pieces of a prefix of the quantities come first. */
  lemma {:induction false} PieceShapesPrefix(qs: seq<Quantity>, n: nat)
    requires n <= |qs|
    ensures PieceShapes(qs[..n]) <= PieceShapes(qs)
    decreases |qs| - n
  {
    if n < |qs| {
      assert qs[..n + 1][..n] == qs[..n];
      PieceShapesPrefix(qs, n + 1);
    } else {
      assert qs[..n] == qs;
    }
  }

  /** The piece areas add up to the required area. */
  lemma {:induction false} RequiredAreaOfPieces(qs: seq<Quantity>)
    ensures RequiredArea(qs) == SumAreas(PieceShapes(qs))
  {
    if |qs| > 0 {
      RequiredAreaOfPieces(qs[..|qs| - 1]);
      var q := qs[|qs| - 1];
      SumAreasAppend(PieceShapes(qs[..|qs| - 1]), Repeat(q.shape, q.quantity));
      SumAreasRepeat(q.shape, q.quantity);
    }
  }

  function SumAreas(shapes: seq<Shape>): nat
  {
    if |shapes| == 0 then 0 else SumAreas(shapes[..|shapes| - 1]) + shapes[|shapes| - 1].area
  }

  lemma {:induction false} SumAreasAppend(a: seq<Shape>, b: seq<Shape>)
    ensures SumAreas(a + b) == SumAreas(a) + SumAreas(b)
    decreases |b|
  {
    if |b| > 0 {
      assert (a + b)[..|a + b| - 1] == a + b[..|b| - 1];
      SumAreasAppend(a, b[..|b| - 1]);
    } else {
      assert a + b == a;
    }
  }

  lemma {:induction false} SumAreasRepeat(shape: Shape, count: nat)
    ensures SumAreas(Repeat(shape, count)) == count * shape.area
  {
    if count > 0 {
      assert Repeat(shape, count)[..count - 1] == Repeat(shape, count - 1);
      SumAreasRepeat(shape, count - 1);
    }
  }

  // ---------------------------------------------------------------------------
  // evaluateRegionHeuristics

  /** The `status` of `evaluateRegionHeuristics` (the `reason` text is not modelled). */
  datatype HeuristicStatus = Fails | Fits | Unknown

  /** The number of 3x3 slots of the region. */
  function Slots(region: Region): nat
  {
    (region.width / BITMASK_WIDTH) * (region.height / BITMASK_HEIGHT)
  }

  /** `evaluateRegionHeuristics`: 'fails' when the pieces' cells outnumber the
      region's cells; otherwise 'fits' when every piece gets a 3x3 slot of its
      own; otherwise 'unknown'. */
  function EvaluateRegionHeuristics(region: Region): (status: HeuristicStatus)
    ensures status == Fails <==> region.width * region.height < RequiredArea(region.quantities)
    ensures status == Fits <==>
              region.width * region.height >= RequiredArea(region.quantities) && Slots(region) >= Pieces(region.quantities)
  {
    var requiredArea := RequiredArea(region.quantities);
    var availableArea := region.width * region.height;
    if availableArea < requiredArea then Fails
    else if Slots(region) >= Pieces(region.quantities) then Fits
    else Unknown
  }

  // ---------------------------------------------------------------------------
  // generateHeuristicPlacements

  /** Piece `k` goes to slot `k`: the first variant of its shape at the top
      left corner of the `k`-th 3x3 slot in row-major order. */
  function SlotPlacement(shape: Shape, k: nat, slotsX: nat, regionWidth: nat): Placement
    requires |shape.variants| > 0 && slotsX > 0
  {
    PlacementOf(shape.shapeId, shape.variants[0], 0, (k % slotsX) * BITMASK_WIDTH, (k / slotsX) * BITMASK_HEIGHT, regionWidth)
  }

  /** Every shape of the region has a variant. */
  predicate HasVariants(region: Region)
  {
    forall i :: 0 <= i < |region.quantities| ==> |region.quantities[i].shape.variants| > 0
  }

  /** `generateHeuristicPlacements`: nothing when the region has no slot or
      more pieces than slots, otherwise piece `k` in slot `k`. */
  method GenerateHeuristicPlacements(region: Region) returns (placements: seq<Placement>)
    requires HasVariants(region)
    ensures var slotsX := region.width / BITMASK_WIDTH;
            var slotsY := region.height / BITMASK_HEIGHT;
            var pieces := PieceShapes(region.quantities);
            if slotsX == 0 || slotsY == 0 || |pieces| > slotsX * slotsY then placements == []
            else |placements| == |pieces|
                 && forall k :: 0 <= k < |pieces| ==>
                      |pieces[k].variants| > 0 && placements[k] == SlotPlacement(pieces[k], k, slotsX, region.width)
  {
    var slotsX := region.width / BITMASK_WIDTH;
    var slotsY := region.height / BITMASK_HEIGHT;
    ghost var pieces := PieceShapes(region.quantities);
    if slotsX == 0 || slotsY == 0 {
      return [];
    }
    var qs := region.quantities;
    placements := [];
    var slotIndex := 0;
    var totalSlots := slotsX * slotsY;
    var qi := 0;
    while qi < |qs|
      invariant 0 <= qi <= |qs|
      invariant slotIndex == |placements| == |PieceShapes(qs[..qi])| <= totalSlots
      invariant forall k :: 0 <= k < |placements| ==>
                  |PieceShapes(qs[..qi])[k].variants| > 0
                  && placements[k] == SlotPlacement(PieceShapes(qs[..qi])[k], k, slotsX, region.width)
    {
      var shape := qs[qi].shape;
      var countNeeded := qs[qi].quantity;
      ghost var done := PieceShapes(qs[..qi]);
      assert qs[..qi + 1][..qi] == qs[..qi];
      assert PieceShapes(qs[..qi + 1]) == done + Repeat(shape, countNeeded);
      var count := 0;
      while count < countNeeded
        invariant 0 <= count <= countNeeded
        invariant slotIndex == |placements| == |done| + count <= totalSlots
        invariant forall k :: 0 <= k < |placements| ==>
                    |(done + Repeat(shape, countNeeded))[k].variants| > 0
                    && placements[k] == SlotPlacement((done + Repeat(shape, countNeeded))[k], k, slotsX, region.width)
      {
        if slotIndex >= totalSlots {
          PieceShapesPrefix(qs, qi + 1);
          return [];
        }
        var posX := (slotIndex % slotsX) * BITMASK_WIDTH;
        var posY := (slotIndex / slotsX) * BITMASK_HEIGHT;
        var p := BuildPlacementFromVariant(shape.shapeId, shape.variants[0], 0, posX, posY, region.width);
        placements := placements + [p];
        slotIndex := slotIndex + 1;
        count := count + 1;
      }
      qi := qi + 1;
    }
    assert qs[..qi] == qs;
  }

  /** When the heuristic says 'fits' the slot placer places every piece. */
  lemma FitsHasSlotPlacements(region: Region)
    requires EvaluateRegionHeuristics(region) == Fits && Pieces(region.quantities) > 0
    ensures region.width / BITMASK_WIDTH > 0 && region.height / BITMASK_HEIGHT > 0
    ensures |PieceShapes(region.quantities)| <= (region.width / BITMASK_WIDTH) * (region.height / BITMASK_HEIGHT)
  {
    PieceShapesCount(region.quantities);
  }

  /** Slot `k`'s placement lies inside the `3 x 3` box of slot `k`, and that
      box lies inside the region. */
  lemma SlotPlacementInside(shape: Shape, k: nat, slotsX: nat, slotsY: nat, regionWidth: nat, regionHeight: nat)
    requires |shape.variants| > 0 && NormalizedVariant(shape.variants[0])
    requires shape.variants[0].width <= 3 && shape.variants[0].height <= 3
    requires slotsX == regionWidth / BITMASK_WIDTH && slotsY == regionHeight / BITMASK_HEIGHT && slotsX > 0
    requires k < slotsX * slotsY
    ensures var p := SlotPlacement(shape, k, slotsX, regionWidth);
            InsideRegion(p, regionWidth, regionHeight)
            && forall c :: c in p.variant.cells ==>
                 (p.posX + c.x) / 3 == k % slotsX && (p.posY + c.y) / 3 == k / slotsX
  {
    var v := shape.variants[0];
    var sx := k % slotsX;
    var sy := k / slotsX;
    DivBelow(k, slotsX, slotsY);
    assert sx * 3 + 3 <= regionWidth;
    assert sy * 3 + 3 <= regionHeight by {
      MulMonotone(sy + 1, slotsY, 3);
    }
    PlacementInsideRegion(shape.shapeId, v, 0, sx * 3, sy * 3, regionWidth, regionHeight);
    forall c | c in v.cells ensures (sx * 3 + c.x) / 3 == sx && (sy * 3 + c.y) / 3 == sy {
      DivModUnique(sx * 3 + c.x, 3, sx, c.x);
      DivModUnique(sy * 3 + c.y, 3, sy, c.y);
    }
  }

  lemma DivBelow(k: nat, d: nat, n: nat)
    requires d > 0 && k < d * n
    ensures k / d < n
  {
    if k / d >= n {
      MulMonotone(n, k / d, d);
      assert false;
    }
  }

  /** A board cell covered by a placement. */
  predicate Covers(p: Placement, x: int, y: int)
  {
    exists c :: c in p.variant.cells && p.posX + c.x == x && p.posY + c.y == y
  }

  /** No two slot placements cover the same cell: different slots are
      different 3x3 boxes. */
  lemma SlotPlacementsDisjoint(pieces: seq<Shape>, slotsX: nat, slotsY: nat, regionWidth: nat, regionHeight: nat,
                               i: nat, j: nat, x: int, y: int)
    requires slotsX == regionWidth / BITMASK_WIDTH && slotsY == regionHeight / BITMASK_HEIGHT && slotsX > 0
    requires i < |pieces| && j < |pieces| && |pieces| <= slotsX * slotsY
    requires forall k :: 0 <= k < |pieces| ==>
               |pieces[k].variants| > 0 && NormalizedVariant(pieces[k].variants[0])
               && pieces[k].variants[0].width <= 3 && pieces[k].variants[0].height <= 3
    ensures (Covers(SlotPlacement(pieces[i], i, slotsX, regionWidth), x, y)
             && Covers(SlotPlacement(pieces[j], j, slotsX, regionWidth), x, y)) ==> i == j
  {
    var pi := SlotPlacement(pieces[i], i, slotsX, regionWidth);
    var pj := SlotPlacement(pieces[j], j, slotsX, regionWidth);
    if Covers(pi, x, y) && Covers(pj, x, y) {
      var ci :| ci in pi.variant.cells && pi.posX + ci.x == x && pi.posY + ci.y == y;
      var cj :| cj in pj.variant.cells && pj.posX + cj.x == x && pj.posY + cj.y == y;
      SlotPlacementInside(pieces[i], i, slotsX, slotsY, regionWidth, regionHeight);
      SlotPlacementInside(pieces[j], j, slotsX, slotsY, regionWidth, regionHeight);
      assert x / 3 == i % slotsX == j % slotsX;
      assert y / 3 == i / slotsX == j / slotsX;
      SameSlot(i, j, slotsX);
    }
  }

  /** A slot index is determined by its column and row. */
  lemma SameSlot(i: nat, j: nat, d: nat)
    requires d > 0 && i % d == j % d && i / d == j / d
    ensures i == j
  {
    assert i == (i / d) * d + i % d;
    assert j == (j / d) * d + j % d;
  }
}
