/** The backtracking packer of solutions/day12/solution.js (`solveRegion`):
    one instance per piece, each with every placement of its shape; the board
    is one mask per row; the search places the instance with the fewest
    placements that still fit, prunes by the empty components, and undoes a
    placement when the rest cannot be placed. The `Date.now()` timeout is not
    part of this model. */
module PresentSolver {
  import opened Bits
  import opened PresentShapes
  import opened PresentPlacements
  import opened PresentBoard
  import opened PresentRegions

  /** One piece to place: its shape and every placement of that shape. */
  datatype Instance = Instance(shape: Shape, placements: seq<Placement>)

  /** The memo key: the number of placed pieces, the board rows and the used
      flags (the source joins them into one string). */
  datatype MemoKey = MemoKey(placedCount: nat, board: seq<nat>, used: seq<bool>)

  // ---------------------------------------------------------------------------
  // The board as a function of the placements on it

  /** Bits of board row `r` covered by the placements `ps`. */
  function BoardRow(ps: seq<Placement>, r: int): nat
  {
    if |ps| == 0 then 0 else Or(BoardRow(ps[..|ps| - 1], r), RowMaskAt(ps[|ps| - 1].rows, r))
  }

  /** A board bit is set exactly when one of the placements sets it. */
  lemma {:induction false} BitOfBoardRow(ps: seq<Placement>, r: int, b: nat)
    ensures Bit(BoardRow(ps, r), b) <==> exists k :: 0 <= k < |ps| && Bit(RowMaskAt(ps[k].rows, r), b)
  {
    if |ps| == 0 {
      BitOfZero(b);
    } else {
      var n := |ps| - 1;
      BitOfBoardRow(ps[..n], r, b);
      BitOfOr(BoardRow(ps[..n], r), RowMaskAt(ps[n].rows, r), b);
      if exists k :: 0 <= k < |ps| && Bit(RowMaskAt(ps[k].rows, r), b) {
        var k :| 0 <= k < |ps| && Bit(RowMaskAt(ps[k].rows, r), b);
        if k < n { assert ps[..n][k] == ps[k]; }
      }
      if exists k :: 0 <= k < n && Bit(RowMaskAt(ps[..n][k].rows, r), b) {
        var k :| 0 <= k < n && Bit(RowMaskAt(ps[..n][k].rows, r), b);
        assert ps[..n][k] == ps[k];
      }
    }
  }

  /** Each placement shares no board bit with the placements before it. */
  ghost predicate Disjoint(ps: seq<Placement>)
  {
    forall j, r :: 0 <= j < |ps| ==> And(BoardRow(ps[..j], r), RowMaskAt(ps[j].rows, r)) == 0
  }

  lemma DisjointPush(ps: seq<Placement>, p: Placement)
    requires Disjoint(ps)
    requires forall r :: And(BoardRow(ps, r), RowMaskAt(p.rows, r)) == 0
    ensures Disjoint(ps + [p])
  {
    var qs := ps + [p];
    forall j, r | 0 <= j < |qs| ensures And(BoardRow(qs[..j], r), RowMaskAt(qs[j].rows, r)) == 0 {
      if j < |ps| {
        assert qs[..j] == ps[..j];
      } else {
        assert qs[..j] == ps;
      }
    }
  }

  /** Disjointness is pairwise: no two placements share a board bit. */
  lemma DisjointPairwise(ps: seq<Placement>, i: nat, j: nat, r: int)
    requires Disjoint(ps) && i < j < |ps|
    ensures And(RowMaskAt(ps[i].rows, r), RowMaskAt(ps[j].rows, r)) == 0
  {
    var before := BoardRow(ps[..j], r);
    NoCommonBit(before, RowMaskAt(ps[j].rows, r));
    forall b: nat ensures !(Bit(RowMaskAt(ps[i].rows, r), b) && Bit(RowMaskAt(ps[j].rows, r), b)) {
      BitOfBoardRow(ps[..j], r, b);
      assert ps[..j][i] == ps[i];
    }
    NoCommonBit(RowMaskAt(ps[i].rows, r), RowMaskAt(ps[j].rows, r));
  }

  // ---------------------------------------------------------------------------
  // Placements

  /** A precomputed placement: inside the region, of a normalised variant,
      with the row masks built from the variant's cells. */
  predicate WellPlaced(p: Placement, regionWidth: nat, regionHeight: nat)
  {
    InsideRegion(p, regionWidth, regionHeight) && NormalizedVariant(p.variant)
    && p.rows == PlacementRows(p.variant.cells, p.posX, p.posY)
  }

  /** A placement's row masks set exactly the cells it covers. */
  lemma WellPlacedCovers(p: Placement, regionWidth: nat, regionHeight: nat)
    requires WellPlaced(p, regionWidth, regionHeight)
    ensures DistinctRows(p.rows)
    ensures forall r, b: nat :: Bit(RowMaskAt(p.rows, r), b) <==> Covers(p, b, r)
    ensures forall x, y :: Covers(p, x, y) ==> 0 <= x && 0 <= y
  {
    var cells := p.variant.cells;
    PlacementRowsCover(cells, p.posX, p.posY);
    forall r, b: nat ensures Bit(RowMaskAt(p.rows, r), b) <==> Covers(p, b, r) {
      if Covers(p, b, r) {
        var c :| c in cells && p.posX + c.x == b && p.posY + c.y == r;
        var k :| 0 <= k < |cells| && cells[k] == c;
      }
      if exists k :: 0 <= k < |cells| && p.posY + cells[k].y == r && p.posX + cells[k].x == b {
        var k :| 0 <= k < |cells| && p.posY + cells[k].y == r && p.posX + cells[k].x == b;
        assert cells[k] in cells;
      }
    }
    forall x, y | Covers(p, x, y) ensures 0 <= x && 0 <= y {
      var c :| c in cells && p.posX + c.x == x && p.posY + c.y == y;
      var k :| 0 <= k < |cells| && cells[k] == c;
    }
  }

  /** `placement.rows.every(({ rowIndex, bitMask }) => (boardRows[rowIndex] & bitMask) === 0n)` */
  predicate CanPlace(board: seq<nat>, p: Placement)
  {
    forall k :: 0 <= k < |p.rows| ==> 0 <= p.rows[k].rowIndex < |board| && And(board[p.rows[k].rowIndex], p.rows[k].bitMask) == 0
  }

  lemma {:induction false} RowMaskAtMissing(rows: seq<RowBits>, r: int)
    requires !HasRow(rows, r)
    ensures RowMaskAt(rows, r) == 0
  {
    if |rows| > 0 {
      HasRowCons(rows[0], rows[1..], r);
      assert rows == [rows[0]] + rows[1..];
      RowMaskAtMissing(rows[1..], r);
    }
  }

  /** A placement that can be placed on the board of `ps` shares no bit with it. */
  lemma CanPlaceIsDisjoint(ps: seq<Placement>, board: seq<nat>, p: Placement, regionWidth: nat, regionHeight: nat)
    requires |board| == regionHeight && forall r :: 0 <= r < regionHeight ==> board[r] == BoardRow(ps, r)
    requires WellPlaced(p, regionWidth, regionHeight) && CanPlace(board, p)
    ensures forall r :: And(BoardRow(ps, r), RowMaskAt(p.rows, r)) == 0
  {
    WellPlacedCovers(p, regionWidth, regionHeight);
    forall r ensures And(BoardRow(ps, r), RowMaskAt(p.rows, r)) == 0 {
      if HasRow(p.rows, r) {
        var k :| 0 <= k < |p.rows| && p.rows[k].rowIndex == r;
        RowMaskIsEntry(p.rows, k);
      } else {
        RowMaskAtMissing(p.rows, r);
        AndZero(BoardRow(ps, r));
      }
    }
  }

  /** The placements of `ps` that can be placed on `board`, in order. */
  function Placeable(board: seq<nat>, ps: seq<Placement>): (r: seq<Placement>)
    ensures forall k :: 0 <= k < |r| ==> r[k] in ps && CanPlace(board, r[k])
    ensures forall p :: p in ps && CanPlace(board, p) ==> p in r
  {
    if |ps| == 0 then []
    else
      var front := Placeable(board, ps[..|ps| - 1]);
      assert forall p :: p in ps ==> p in ps[..|ps| - 1] || p == ps[|ps| - 1];
      front + if CanPlace(board, ps[|ps| - 1]) then [ps[|ps| - 1]] else []
  }

  /** The area of every instance, in order. */
  function Areas(instances: seq<Instance>): (areas: seq<nat>)
    ensures |areas| == |instances| && forall i :: 0 <= i < |instances| ==> areas[i] == instances[i].shape.area
  {
    seq(|instances|, i requires 0 <= i < |instances| => instances[i].shape.area)
  }

  /** The pruning loop of `tryPlace`: some empty component is too small for
      any remaining piece, and the empty cells outside it cannot hold the
      remaining area. */
  method Pruned(components: seq<nat>, minArea: nat, remainingArea: nat) returns (pruned: bool)
    ensures pruned <==> exists k :: 0 <= k < |components| && components[k] < minArea
                                     && Sum(components) - components[k] < remainingArea
  {
    var totalEmpty := Sum(components);
    pruned := false;
    var k := 0;
    while k < |components|
      invariant 0 <= k <= |components|
      invariant forall j :: 0 <= j < k ==> !(components[j] < minArea && totalEmpty - components[j] < remainingArea)
    {
      var size := components[k];
      if size < minArea && totalEmpty - size < remainingArea {
        return true;
      }
      k := k + 1;
    }
  }

  // ---------------------------------------------------------------------------
  // The search state of `solveRegion`

  /** Placement `k` of `ps` belongs to instance `chosen[k]`, no instance is
      chosen twice, the board is exactly the union of the placements, and the
      placements are disjoint. */
  ghost predicate PlacedState(instances: seq<Instance>, height: nat, board: seq<nat>, ps: seq<Placement>, chosen: seq<nat>)
  {
    |board| == height
    && |chosen| == |ps|
    && (forall k :: 0 <= k < |chosen| ==> chosen[k] < |instances| && ps[k] in instances[chosen[k]].placements)
    && (forall k1, k2 :: 0 <= k1 < k2 < |chosen| ==> chosen[k1] != chosen[k2])
    && (forall r :: 0 <= r < height ==> board[r] == BoardRow(ps, r))
    && Disjoint(ps)
  }

  /** Every placement of every instance is a precomputed placement. */
  ghost predicate AllWellPlaced(instances: seq<Instance>, width: nat, height: nat)
  {
    forall i, k :: 0 <= i < |instances| && 0 <= k < |instances[i].placements| ==>
      WellPlaced(instances[i].placements[k], width, height)
  }

  /** Placing an option of an unused instance keeps the placed state. */
  lemma {:induction false} PlacedPush(instances: seq<Instance>, width: nat, height: nat, board: seq<nat>, ps: seq<Placement>,
                   chosen: seq<nat>, index: nat, p: Placement, newBoard: seq<nat>)
    requires AllWellPlaced(instances, width, height) && PlacedState(instances, height, board, ps, chosen)
    requires index < |instances| && index !in chosen && p in instances[index].placements && CanPlace(board, p)
    requires |newBoard| == height && forall r :: 0 <= r < height ==> newBoard[r] == Or(board[r], RowMaskAt(p.rows, r))
    ensures PlacedState(instances, height, newBoard, ps + [p], chosen + [index])
  {
    var k :| 0 <= k < |instances[index].placements| && instances[index].placements[k] == p;
    assert WellPlaced(p, width, height);
    CanPlaceIsDisjoint(ps, board, p, width, height);
    DisjointPush(ps, p);
    var ps' := ps + [p];
    assert ps'[..|ps|] == ps;
    forall r | 0 <= r < height ensures newBoard[r] == BoardRow(ps', r) { }
    DistinctPush(chosen, index);
  }

  /** Appending an instance not yet chosen keeps the chosen instances distinct. */
  lemma DistinctPush(chosen: seq<nat>, index: nat)
    requires forall k1, k2 :: 0 <= k1 < k2 < |chosen| ==> chosen[k1] != chosen[k2]
    requires index !in chosen
    ensures forall k1, k2 :: 0 <= k1 < k2 < |chosen + [index]| ==> (chosen + [index])[k1] != (chosen + [index])[k2]
  {
    var chosen' := chosen + [index];
    forall k1, k2 | 0 <= k1 < k2 < |chosen'| ensures chosen'[k1] != chosen'[k2] {
      if k2 == |chosen| {
        assert chosen'[k1] == chosen[k1] && chosen[k1] in chosen;
      }
    }
  }

  /** Clearing the bits of a placement that could be placed restores the board. */
  lemma ClearRestores(width: nat, height: nat, board: seq<nat>, ps: seq<Placement>, p: Placement, newBoard: seq<nat>)
    requires |board| == height && forall r :: 0 <= r < height ==> board[r] == BoardRow(ps, r)
    requires WellPlaced(p, width, height) && CanPlace(board, p)
    requires |newBoard| == height
    requires forall r :: 0 <= r < height ==> newBoard[r] == AndNot(Or(board[r], RowMaskAt(p.rows, r)), RowMaskAt(p.rows, r))
    ensures newBoard == board
  {
    CanPlaceIsDisjoint(ps, board, p, width, height);
    forall r | 0 <= r < height ensures newBoard[r] == board[r] {
      SetThenClear(board[r], RowMaskAt(p.rows, r));
    }
  }

  /** Disjoint precomputed placements never cover the same cell. */
  lemma DisjointCovers(ps: seq<Placement>, width: nat, height: nat)
    requires Disjoint(ps) && forall k :: 0 <= k < |ps| ==> WellPlaced(ps[k], width, height)
    ensures forall k1, k2, x, y :: 0 <= k1 < k2 < |ps| ==> !(Covers(ps[k1], x, y) && Covers(ps[k2], x, y))
  {
    forall k1, k2, x, y | 0 <= k1 < k2 < |ps| ensures !(Covers(ps[k1], x, y) && Covers(ps[k2], x, y)) {
      WellPlacedCovers(ps[k1], width, height);
      WellPlacedCovers(ps[k2], width, height);
      if x >= 0 {
        DisjointPairwise(ps, k1, k2, y);
        NoCommonBit(RowMaskAt(ps[k1].rows, y), RowMaskAt(ps[k2].rows, y));
        var b: nat := x;
        assert !(Bit(RowMaskAt(ps[k1].rows, y), b) && Bit(RowMaskAt(ps[k2].rows, y), b));
      }
    }
  }

  /** Every memoised search state failed. */
  predicate AllFailures(memo: map<MemoKey, bool>)
  {
    forall key :: key in memo ==> !memo[key]
  }

  /** The number of instances not yet used. */
  function UnusedCount(used: seq<bool>): nat
  {
    if |used| == 0 then 0 else UnusedCount(used[..|used| - 1]) + if used[|used| - 1] then 0 else 1
  }

  lemma {:induction false} UnusedCountMark(used: seq<bool>, i: nat)
    requires i < |used| && !used[i]
    ensures UnusedCount(used[i := true]) + 1 == UnusedCount(used)
  {
    var n := |used| - 1;
    if i < n {
      assert used[i := true][..n] == used[..n][i := true];
      UnusedCountMark(used[..n], i);
    } else {
      assert used[i := true][..n] == used[..n];
    }
  }

  class RegionSolver {
    const width: nat
    const height: nat
    const instances: seq<Instance>
    /** `boardRows`: bit `x` of row `y` is set when cell `(x, y)` is covered. */
    const boardRows: array<nat>
    /** `used[i]` when instance `i` has a placement on the board. */
    const used: array<bool>
    /** `placementsUsed`, in the order they were placed. */
    var placementsUsed: seq<Placement>
    /** The instance each placement of `placementsUsed` belongs to. */
    ghost var chosen: seq<nat>
    var memo: map<MemoKey, bool>

    /** The sizes of the arrays, and every placement of every instance is a
        precomputed placement inside the region. */
    ghost predicate Layout()
      reads {}
    {
      boardRows.Length == height && used.Length == |instances| && AllWellPlaced(instances, width, height)
    }

    /** The placed pieces: each belongs to its own instance, the board is
        exactly their union, and they are disjoint. */
    ghost predicate Placed()
      reads this`placementsUsed, this`chosen, boardRows
    {
      PlacedState(instances, height, boardRows[..], placementsUsed, chosen)
    }

    /** `used` marks the placed instances and `extra` (-1 for none). */
    ghost predicate UsedExactly(extra: int)
      reads this`chosen, used
    {
      used.Length == |instances| && forall i :: 0 <= i < |instances| ==> (used[i] <==> i in chosen || i == extra)
    }

    ghost predicate Valid()
      reads this`placementsUsed, this`chosen, boardRows, used
    {
      Layout() && Placed() && UsedExactly(-1)
    }


    /** An empty board, no instance used, an empty memo. */
    constructor (regionWidth: nat, regionHeight: nat, pieces: seq<Instance>)
      requires AllWellPlaced(pieces, regionWidth, regionHeight)
      ensures width == regionWidth && height == regionHeight && instances == pieces
      ensures Valid() && placementsUsed == [] && memo == map[]
      ensures fresh(boardRows) && fresh(used)
    {
      width := regionWidth;
      height := regionHeight;
      instances := pieces;
      boardRows := new nat[regionHeight](r => 0);
      used := new bool[|pieces|](i => false);
      placementsUsed := [];
      chosen := [];
      memo := map[];
    }

    /** The placements of instance `i` that fit on the current board. */
    function Options(i: nat): seq<Placement>
      reads boardRows
      requires i < |instances|
    {
      Placeable(boardRows[..], instances[i].placements)
    }

    /** The `forEach` of `findBestShape` that collects the placements that fit. */
    method ValidPlacements(placements: seq<Placement>) returns (options: seq<Placement>)
      ensures options == Placeable(boardRows[..], placements)
    {
      options := [];
      var k := 0;
      while k < |placements|
        invariant 0 <= k <= |placements|
        invariant options == Placeable(boardRows[..], placements[..k])
      {
        assert placements[..k + 1][..k] == placements[..k];
        if CanPlace(boardRows[..], placements[k]) {
          options := options + [placements[k]];
        }
        k := k + 1;
      }
      assert placements[..k] == placements;
    }

    /** `findBestShape`: the first unused instance with no option at all, or
        else the first unused instance with the fewest options, the scan
        stopping at the first instance with a single option; -1 when every
        instance is used. */
    method FindBestShape() returns (index: int, options: seq<Placement>)
      requires used.Length == |instances|
      ensures index == -1 <==> forall i :: 0 <= i < |instances| ==> used[i]
      ensures index != -1 ==> 0 <= index < |instances| && !used[index] && options == Options(index)
      ensures index != -1 ==> forall j :: 0 <= j < index && !used[j] ==> |Options(j)| > |options|
      ensures index != -1 && |options| != 1 ==>
                forall j :: index < j < |instances| && !used[j] ==> |Options(j)| >= |options|
    {
      index := -1;
      options := [];
      var i := 0;
      while i < |instances|
        invariant 0 <= i <= |instances|
        invariant index == -1 <==> forall j :: 0 <= j < i ==> used[j]
        invariant index != -1 ==> 0 <= index < i && !used[index] && options == Options(index) && |options| > 0
        invariant forall j :: 0 <= j < i && !used[j] ==> |Options(j)| > 0
        invariant index != -1 ==> forall j :: 0 <= j < index && !used[j] ==> |Options(j)| > |options|
        invariant index != -1 ==> forall j :: index < j < i && !used[j] ==> |Options(j)| >= |options|
      {
        if !used[i] {
          var valid := ValidPlacements(instances[i].placements);
          if |valid| == 0 {
            return i, [];
          }
          if index == -1 || |valid| < |options| {
            index, options := i, valid;
            if |valid| == 1 {
              return;
            }
          }
        }
        i := i + 1;
      }
    }

    /** `boardRows[rowIndex] |= bitMask` for every row of the placement. */
    method ApplyPlacement(p: Placement)
      requires boardRows.Length == height && WellPlaced(p, width, height)
      modifies boardRows
      ensures forall r :: 0 <= r < height ==> boardRows[r] == Or(old(boardRows[r]), RowMaskAt(p.rows, r))
    {
      WellPlacedCovers(p, width, height);
      var rows := p.rows;
      var k := 0;
      while k < |rows|
        invariant 0 <= k <= |rows|
        invariant forall r :: 0 <= r < height ==> boardRows[r] == Or(old(boardRows[r]), RowMaskAt(rows[..k], r))
      {
        var e := rows[k];
        RowMaskAtSnoc(rows, k);
        OrAssoc(old(boardRows[e.rowIndex]), RowMaskAt(rows[..k], e.rowIndex), e.bitMask);
        OrZero(e.bitMask);
        boardRows[e.rowIndex] := Or(boardRows[e.rowIndex], e.bitMask);
        k := k + 1;
      }
      assert rows[..k] == rows;
    }

    /** `boardRows[rowIndex] &= ~bitMask` for every row of the placement. */
    method RemovePlacement(p: Placement)
      requires boardRows.Length == height && WellPlaced(p, width, height)
      modifies boardRows
      ensures forall r :: 0 <= r < height ==> boardRows[r] == AndNot(old(boardRows[r]), RowMaskAt(p.rows, r))
    {
      WellPlacedCovers(p, width, height);
      var rows := p.rows;
      var k := 0;
      while k < |rows|
        invariant 0 <= k <= |rows|
        invariant forall r :: 0 <= r < height ==> boardRows[r] == AndNot(old(boardRows[r]), RowMaskAt(rows[..k], r))
      {
        var e := rows[k];
        RowMaskAtSnoc(rows, k);
        AndNotZero(old(boardRows[e.rowIndex]));
        boardRows[e.rowIndex] := AndNot(boardRows[e.rowIndex], e.bitMask);
        k := k + 1;
      }
      assert rows[..k] == rows;
    }

    /** `tryPlace`: place the instance with the fewest options in each of
        its options in turn; on failure everything the call changed is undone
        and the memo records the failure. */
    method TryPlace(placedCount: nat) returns (solved: bool)
      requires Valid() && placedCount == |placementsUsed| && AllFailures(memo)
      modifies this, boardRows, used
      ensures Valid()
      ensures solved ==> |placementsUsed| == |instances| && old(placementsUsed) <= placementsUsed
      ensures !solved ==> placementsUsed == old(placementsUsed) && chosen == old(chosen)
                          && boardRows[..] == old(boardRows[..]) && used[..] == old(used[..]) && AllFailures(memo)
      decreases UnusedCount(used[..]), 3
    {
      if placedCount == |instances| {
        return true;
      }
      var key := MemoKey(placedCount, boardRows[..], used[..]);
      if key in memo {
        return memo[key];
      }
      var index, options := FindBestShape();
      if index == -1 || |options| == 0 {
        memo := memo[key := false];
        return false;
      }
      solved := TryInstance(placedCount, index, options);
      memo := memo[key := solved];
    }

    /** Marks the instance `index` used and tries its options; unmarks it
        when none of them leads to a packing. */
    method TryInstance(placedCount: nat, index: nat, options: seq<Placement>) returns (solved: bool)
      requires Valid() && placedCount == |placementsUsed| && AllFailures(memo)
      requires index < |instances| && !used[index]
      requires forall o :: 0 <= o < |options| ==> options[o] in instances[index].placements && CanPlace(boardRows[..], options[o])
      modifies this, boardRows, used
      ensures Valid()
      ensures solved ==> |placementsUsed| == |instances| && old(placementsUsed) <= placementsUsed
      ensures !solved ==> placementsUsed == old(placementsUsed) && chosen == old(chosen)
                          && boardRows[..] == old(boardRows[..]) && used[..] == old(used[..]) && AllFailures(memo)
      decreases UnusedCount(used[..]), 2
    {
      ghost var U0 := used[..];
      assert index !in chosen;
      UnusedCountMark(used[..], index);
      used[index] := true;
      solved := TryOptions(placedCount, index, options);
      if !solved {
        used[index] := false;
        assert used[..] == U0;
      }
    }

    /** The option loop of `tryPlace` for the instance `index`. */
    method TryOptions(placedCount: nat, index: nat, options: seq<Placement>) returns (solved: bool)
      requires Layout() && Placed() && placedCount == |placementsUsed| && AllFailures(memo)
      requires index < |instances| && index !in chosen && UsedExactly(index)
      requires forall o :: 0 <= o < |options| ==> options[o] in instances[index].placements && CanPlace(boardRows[..], options[o])
      modifies this, boardRows, used
      ensures solved ==> Valid() && |placementsUsed| == |instances| && old(placementsUsed) <= placementsUsed
      ensures !solved ==> Layout() && Placed() && UsedExactly(index)
      ensures !solved ==> placementsUsed == old(placementsUsed) && chosen == old(chosen)
                          && boardRows[..] == old(boardRows[..]) && used[..] == old(used[..]) && AllFailures(memo)
      decreases UnusedCount(used[..]) + 1, 1
    {
      var o := 0;
      while o < |options|
        invariant 0 <= o <= |options|
        invariant Layout() && Placed() && UsedExactly(index) && AllFailures(memo)
        invariant placementsUsed == old(placementsUsed) && chosen == old(chosen)
        invariant boardRows[..] == old(boardRows[..]) && used[..] == old(used[..])
      {
        solved := PlaceAndRecurse(placedCount, index, options[o]);
        if solved {
          return;
        }
        o := o + 1;
      }
      solved := false;
    }

    /** One turn of the option loop of `tryPlace`: set the placement's bits,
        push it, prune when some empty component is too small for every
        remaining piece and the other empty cells cannot hold the remaining
        area, recurse, and pop and clear the bits again on failure. */
    method PlaceAndRecurse(placedCount: nat, index: nat, placement: Placement) returns (solved: bool)
      requires Layout() && Placed() && placedCount == |placementsUsed| && AllFailures(memo)
      requires index < |instances| && index !in chosen && UsedExactly(index)
      requires placement in instances[index].placements && CanPlace(boardRows[..], placement)
      modifies this, boardRows, used
      ensures solved ==> Valid() && |placementsUsed| == |instances| && old(placementsUsed) + [placement] <= placementsUsed
      ensures !solved ==> Layout() && Placed() && UsedExactly(index)
      ensures !solved ==> placementsUsed == old(placementsUsed) && chosen == old(chosen)
                          && boardRows[..] == old(boardRows[..]) && used[..] == old(used[..]) && AllFailures(memo)
      decreases UnusedCount(used[..]) + 1, 0
    {
      ghost var P0, C0, B0 := placementsUsed, chosen, boardRows[..];
      assert PlacedState(instances, height, B0, P0, C0);
      Place(placement, index);
      var pruned := Prune();
      if !pruned {
        solved := TryPlace(placedCount + 1);
        if solved {
          return;
        }
      }
      Unplace(placement, index, B0, P0, C0);
      solved := false;
    }

    /** The pruning test of `tryPlace`, made only while some piece remains:
        some empty component is too small for every remaining piece and the
        other empty cells cannot hold the remaining area. */
    method Prune() returns (pruned: bool)
      requires Layout()
      ensures pruned ==> exists i :: 0 <= i < |instances| && !used[i]
    {
      pruned := false;
      var minArea := SmallestRemainingShapeArea(Areas(instances), used[..]);
      if minArea > 0 {
        ghost var unused :| 0 <= unused < |instances| && !used[..][unused];
        assert !used[unused];
        var remainingArea := RemainingShapeArea(Areas(instances), used[..]);
        var components := FindEmptyComponents(boardRows[..], width, height);
        pruned := Pruned(components, minArea, remainingArea);
      }
    }

    /** Sets the bits of an option of the unused instance `index` and pushes it. */
    method Place(placement: Placement, ghost index: nat)
      requires Layout() && Placed() && index < |instances| && index !in chosen && UsedExactly(index)
      requires placement in instances[index].placements && CanPlace(boardRows[..], placement)
      modifies this, boardRows
      ensures Valid() && memo == old(memo)
      ensures placementsUsed == old(placementsUsed) + [placement] && chosen == old(chosen) + [index]
      ensures forall r :: 0 <= r < height ==> boardRows[r] == Or(old(boardRows[r]), RowMaskAt(placement.rows, r))
    {
      ghost var C0 := chosen;
      ghost var k :| 0 <= k < |instances[index].placements| && instances[index].placements[k] == placement;
      ApplyPlacement(placement);
      ghost var B := boardRows[..];
      PlacedPush(instances, width, height, old(boardRows[..]), placementsUsed, chosen, index, placement, B);
      placementsUsed := placementsUsed + [placement];
      chosen := chosen + [index];
      assert boardRows[..] == B;
      UsedPush(used[..], C0, index);
    }

    /** Pops the last placement and clears its bits, restoring the board it
        was placed on. */
    method Unplace(placement: Placement, ghost index: nat, ghost B0: seq<nat>, ghost P0: seq<Placement>, ghost C0: seq<nat>)
      requires boardRows.Length == height && placementsUsed == P0 + [placement] && chosen == C0 + [index]
      requires PlacedState(instances, height, B0, P0, C0) && WellPlaced(placement, width, height) && CanPlace(B0, placement)
      requires forall r :: 0 <= r < height ==> boardRows[r] == Or(B0[r], RowMaskAt(placement.rows, r))
      modifies this, boardRows
      ensures placementsUsed == P0 && chosen == C0 && boardRows[..] == B0 && memo == old(memo)
    {
      placementsUsed := placementsUsed[..|placementsUsed| - 1];
      chosen := chosen[..|chosen| - 1];
      assert placementsUsed == P0 && chosen == C0;
      RemovePlacement(placement);
      ClearRestores(width, height, B0, P0, placement, boardRows[..]);
    }
  }

  /** Marking the instance `index` chosen keeps `used` exact. */
  lemma UsedPush(used: seq<bool>, chosen: seq<nat>, index: nat)
    requires forall i :: 0 <= i < |used| ==> (used[i] <==> i in chosen || i == index)
    ensures forall i :: 0 <= i < |used| ==> (used[i] <==> i in chosen + [index] || i == -1)
  {
  }

  /** Extending a prefix of distinct rows by the next entry sets that entry's
      row, which the prefix did not have, and leaves every other row alone. */
  lemma RowMaskAtSnoc(rows: seq<RowBits>, k: nat)
    requires DistinctRows(rows) && k < |rows|
    ensures RowMaskAt(rows[..k], rows[k].rowIndex) == 0
    ensures forall r :: RowMaskAt(rows[..k + 1], r) == if r == rows[k].rowIndex then rows[k].bitMask else RowMaskAt(rows[..k], r)
  {
    assert !HasRow(rows[..k], rows[k].rowIndex);
    RowMaskAtMissing(rows[..k], rows[k].rowIndex);
    assert rows[..k + 1] == rows[..k] + [rows[k]];
    forall r ensures RowMaskAt(rows[..k] + [rows[k]], r) == if r == rows[k].rowIndex then rows[k].bitMask else RowMaskAt(rows[..k], r) {
      RowMaskAtAppend(rows[..k], rows[k], r);
      if r != rows[k].rowIndex && !HasRow(rows[..k], r) {
        RowMaskAtMissing(rows[..k], r);
      }
    }
  }

  lemma {:induction false} RowMaskAtAppend(rows: seq<RowBits>, e: RowBits, r: int)
    ensures RowMaskAt(rows + [e], r) == if HasRow(rows, r) then RowMaskAt(rows, r) else if e.rowIndex == r then e.bitMask else 0
  {
    if |rows| == 0 {
      assert rows + [e] == [e];
    } else {
      assert (rows + [e])[1..] == rows[1..] + [e];
      HasRowCons(rows[0], rows[1..], r);
      assert rows == [rows[0]] + rows[1..];
      RowMaskAtAppend(rows[1..], e, r);
    }
  }

  // ---------------------------------------------------------------------------
  // solveRegion

  /** Instance `k` is piece `k` with every placement of its shape. */
  predicate InstancesOf(instances: seq<Instance>, pieces: seq<Shape>, regionWidth: nat, regionHeight: nat)
  {
    |instances| == |pieces|
    && forall k :: 0 <= k < |instances| ==> instances[k] == Instance(pieces[k], ShapePlacements(pieces[k], regionWidth, regionHeight))
  }

  lemma InstancesOfAppend(instances: seq<Instance>, pieces: seq<Shape>, shape: Shape, count: nat,
                          copies: seq<Instance>, regionWidth: nat, regionHeight: nat)
    requires InstancesOf(instances, pieces, regionWidth, regionHeight)
    requires |copies| == count
    requires forall k :: 0 <= k < count ==> copies[k] == Instance(shape, ShapePlacements(shape, regionWidth, regionHeight))
    ensures InstancesOf(instances + copies, pieces + Repeat(shape, count), regionWidth, regionHeight)
  {
  }

  /** Every piece is a copy of one of the quantities' shapes. */
  lemma {:induction false} PieceShapesFrom(qs: seq<Quantity>, k: nat)
    requires k < |PieceShapes(qs)|
    ensures exists j :: 0 <= j < |qs| && PieceShapes(qs)[k] == qs[j].shape
  {
    var n := |qs| - 1;
    var front := PieceShapes(qs[..n]);
    if k < |front| {
      PieceShapesFrom(qs[..n], k);
      var j :| 0 <= j < n && front[k] == qs[..n][j].shape;
      assert qs[..n][j] == qs[j];
    } else {
      assert PieceShapes(qs)[k] == qs[n].shape;
    }
  }

  /** `range(quantity).forEach(() => shapeInstances.push(...))` */
  method PushCopies(instances: seq<Instance>, instance: Instance, count: nat) returns (r: seq<Instance>)
    ensures |r| == |instances| + count && r[..|instances|] == instances
    ensures forall k :: |instances| <= k < |r| ==> r[k] == instance
  {
    r := instances;
    var c := 0;
    while c < count
      invariant 0 <= c <= count
      invariant |r| == |instances| + c && r[..|instances|] == instances
      invariant forall k :: |instances| <= k < |r| ==> r[k] == instance
    {
      r := r + [instance];
      c := c + 1;
    }
  }

  /** One turn of the `forEach` over the quantities: the area the quantity
      adds, its instances pushed after `instances`, and whether its shape has
      no placement although the quantity is positive. */
  method AddQuantity(quantity: Quantity, instances: seq<Instance>, ghost pieces: seq<Shape>, regionWidth: nat, regionHeight: nat)
    returns (r: seq<Instance>, impossible: bool, area: nat)
    ensures area == quantity.quantity * quantity.shape.area
    ensures impossible <==> quantity.quantity > 0 && |ShapePlacements(quantity.shape, regionWidth, regionHeight)| == 0
    ensures !impossible && InstancesOf(instances, pieces, regionWidth, regionHeight) ==>
              InstancesOf(r, pieces + Repeat(quantity.shape, quantity.quantity), regionWidth, regionHeight)
  {
    r, impossible, area := instances, false, 0;
    if quantity.quantity == 0 {
      assert pieces + Repeat(quantity.shape, 0) == pieces;
      return;
    }
    area := quantity.quantity * quantity.shape.area;
    var placements := PrecomputePlacementsForShape(quantity.shape, regionWidth, regionHeight);
    if |placements| == 0 {
      impossible := true;
      return;
    }
    r := PushCopies(instances, Instance(quantity.shape, placements), quantity.quantity);
    if InstancesOf(instances, pieces, regionWidth, regionHeight) {
      InstancesOfAppend(instances, pieces, quantity.shape, quantity.quantity, r[|instances|..], regionWidth, regionHeight);
      assert instances + r[|instances|..] == r;
    }
  }

  /** The `forEach` over the quantities that opens `solveRegion`: one
      instance per piece, the total piece area, and whether some shape with
      a positive quantity has no placement at all. */
  method BuildInstances(qs: seq<Quantity>, regionWidth: nat, regionHeight: nat)
    returns (instances: seq<Instance>, impossible: bool, totalShapeArea: nat)
    ensures totalShapeArea == RequiredArea(qs)
    ensures impossible <==> exists i :: 0 <= i < |qs| && qs[i].quantity > 0 && |ShapePlacements(qs[i].shape, regionWidth, regionHeight)| == 0
    ensures !impossible ==> InstancesOf(instances, PieceShapes(qs), regionWidth, regionHeight)
  {
    instances := [];
    impossible := false;
    totalShapeArea := 0;
    var qi := 0;
    while qi < |qs|
      invariant 0 <= qi <= |qs|
      invariant totalShapeArea == RequiredArea(qs[..qi])
      invariant impossible <==> exists i :: 0 <= i < qi && qs[i].quantity > 0 && |ShapePlacements(qs[i].shape, regionWidth, regionHeight)| == 0
      invariant !impossible ==> InstancesOf(instances, PieceShapes(qs[..qi]), regionWidth, regionHeight)
    {
      assert qs[..qi + 1][..qi] == qs[..qi];
      var area, none;
      instances, none, area := AddQuantity(qs[qi], instances, PieceShapes(qs[..qi]), regionWidth, regionHeight);
      totalShapeArea := totalShapeArea + area;
      if none {
        impossible := true;
      }
      qi := qi + 1;
    }
    assert qs[..qi] == qs;
  }

  /** What `solveRegion` reports for a region that fits: one placement per
      piece, placement `k` being a precomputed placement of piece
      `assignment[k]`, every piece used once, and no cell covered twice. */
  ghost predicate Packed(region: Region, placements: seq<Placement>, assignment: seq<nat>)
  {
    var pieces := PieceShapes(region.quantities);
    |placements| == |pieces| && |assignment| == |placements|
    && (forall k :: 0 <= k < |placements| ==>
          assignment[k] < |pieces|
          && placements[k] in ShapePlacements(pieces[assignment[k]], region.width, region.height)
          && InsideRegion(placements[k], region.width, region.height))
    && (forall k1, k2 :: 0 <= k1 < k2 < |assignment| ==> assignment[k1] != assignment[k2])
    && forall k1, k2, x, y :: 0 <= k1 < k2 < |placements| ==>
         !(Covers(placements[k1], x, y) && Covers(placements[k2], x, y))
  }

  /** `solveRegion` without its timeout: infeasible at once when some shape
      with a positive quantity has no placement or the pieces need more area
      than the region has, and otherwise the result of the backtracking
      search, whose placements pack every piece without overlap. */
  method SolveRegion(region: Region) returns (fits: bool, placements: seq<Placement>, ghost assignment: seq<nat>)
    requires forall i :: 0 <= i < |region.quantities| ==> NormalizedShape(region.quantities[i].shape)
    ensures !fits ==> placements == []
    ensures (exists i :: 0 <= i < |region.quantities| && region.quantities[i].quantity > 0
               && |ShapePlacements(region.quantities[i].shape, region.width, region.height)| == 0) ==> !fits
    ensures RequiredArea(region.quantities) > region.width * region.height ==> !fits
    ensures fits ==> |placements| == Pieces(region.quantities) && Packed(region, placements, assignment)
  {
    var regionWidth, regionHeight := region.width, region.height;
    var instances, impossible, totalShapeArea := BuildInstances(region.quantities, regionWidth, regionHeight);
    if impossible || totalShapeArea > regionWidth * regionHeight {
      return false, [], [];
    }
    InstancesWellPlaced(region.quantities, instances, regionWidth, regionHeight);
    var solver := new RegionSolver(regionWidth, regionHeight, instances);
    fits := solver.TryPlace(0);
    if !fits {
      return false, [], [];
    }
    placements, assignment := solver.placementsUsed, solver.chosen;
    assert solver.Placed();
    SolutionPacked(region, instances, solver.boardRows[..], placements, assignment);
  }

  /** The instances built for normalised shapes hold only precomputed placements. */
  lemma {:induction false} InstancesWellPlaced(qs: seq<Quantity>, instances: seq<Instance>, regionWidth: nat, regionHeight: nat)
    requires forall i :: 0 <= i < |qs| ==> NormalizedShape(qs[i].shape)
    requires InstancesOf(instances, PieceShapes(qs), regionWidth, regionHeight)
    ensures AllWellPlaced(instances, regionWidth, regionHeight)
  {
    var pieces := PieceShapes(qs);
    forall i, k | 0 <= i < |instances| && 0 <= k < |instances[i].placements|
      ensures WellPlaced(instances[i].placements[k], regionWidth, regionHeight)
    {
      PieceShapesFrom(qs, i);
      PrecomputedPlacements(pieces[i], regionWidth, regionHeight);
    }
  }

  /** A placed state that uses every instance packs the region's pieces. */
  lemma {:induction false} SolutionPacked(region: Region, instances: seq<Instance>, board: seq<nat>, placements: seq<Placement>, assignment: seq<nat>)
    requires InstancesOf(instances, PieceShapes(region.quantities), region.width, region.height)
    requires AllWellPlaced(instances, region.width, region.height)
    requires PlacedState(instances, region.height, board, placements, assignment) && |placements| == |instances|
    ensures |placements| == Pieces(region.quantities) && Packed(region, placements, assignment)
  {
    PieceShapesCount(region.quantities);
    forall k | 0 <= k < |placements| ensures WellPlaced(placements[k], region.width, region.height) {
      var i := assignment[k];
      var j :| 0 <= j < |instances[i].placements| && instances[i].placements[j] == placements[k];
    }
    DisjointCovers(placements, region.width, region.height);
  }
}
