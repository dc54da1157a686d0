// Day 4: a grid of paper rolls ('@') and empty cells ('.'). A roll is
// accessible by forklift when fewer than four of its eight neighbours are
// rolls; part 1 counts the accessible rolls.

module Forklift {
  import opened Wrappers
  import opened Text

  /** One cell of the map, with its own coordinates. */
  datatype Item = Item(symbol: char, empty: bool, roll: bool, x: nat, y: nat)

  /** An entry of a cell's neighbour list: a cell, or the `undefined` that
      `map[ny][nx]` gives inside the first row's width but past the end of a
      shorter row. */
  datatype Neighbor = Cell(item: Item) | Undefined

  type Grid = seq<seq<Item>>

  /** The eight offsets, in the order the source lists them. */
  const NEIGHBOR_COORDS: seq<(int, int)> := [(0, -1), (1, 0), (0, 1), (-1, 0), (-1, -1), (1, -1), (1, 1), (-1, 1)]

  // ---------------------------------------------------------------------------
  // parseMap

  function ItemOf(c: char, x: nat, y: nat): (item: Item)
    ensures item.symbol == c && item.x == x && item.y == y
    ensures item.empty <==> c == '.'
    ensures item.roll <==> c == '@'
  {
    Item(c, c == '.', c == '@', x, y)
  }

  function Row(line: String, y: nat): (row: seq<Item>)
    ensures |row| == |line|
    ensures forall x :: 0 <= x < |line| ==> row[x] == ItemOf(line[x], x, y)
  {
    seq(|line|, x requires 0 <= x < |line| => ItemOf(line[x], x, y))
  }

  /** One row of items per line of the input. */
  function ParseMap(input: String): (grid: Grid)
    ensures |grid| == |Split(input, "\n")| && |grid| >= 1
    ensures forall y :: 0 <= y < |grid| ==> grid[y] == Row(Split(input, "\n")[y], y)
  {
    var lines := Split(input, "\n");
    seq(|lines|, y requires 0 <= y < |lines| => Row(lines[y], y))
  }

  /** Every item knows its own place. */
  predicate Placed(grid: Grid)
  {
    forall y, x :: 0 <= y < |grid| && 0 <= x < |grid[y]| ==> grid[y][x].x == x && grid[y][x].y == y
  }

  lemma ParsedPlaced(input: String)
    ensures Placed(ParseMap(input))
  {
  }

  /** Every row is as wide as the first. */
  predicate Rectangular(grid: Grid)
  {
    |grid| > 0 && forall y :: 0 <= y < |grid| ==> |grid[y]| == |grid[0]|
  }

  /** The `reduce` that pushes the items row after row. */
  function Items(grid: Grid): (items: seq<Item>)
    ensures |items| == Cells(grid)
  {
    if |grid| == 0 then [] else Items(grid[..|grid| - 1]) + grid[|grid| - 1]
  }

  function Cells(grid: Grid): nat
  {
    if |grid| == 0 then 0 else Cells(grid[..|grid| - 1]) + |grid[|grid| - 1]|
  }

  /** In a rectangular grid of width `w` the items are in row-major order:
      item `y * w + x` is the cell in row `y`, column `x`. */
  lemma {:induction false} ItemsRowMajor(grid: Grid, w: nat, y: nat, x: nat)
    requires forall r :: 0 <= r < |grid| ==> |grid[r]| == w
    requires y < |grid| && x < w
    ensures Cells(grid) == |grid| * w
    ensures y * w + x < |Items(grid)| && Items(grid)[y * w + x] == grid[y][x]
    decreases |grid|
  {
    var init := grid[..|grid| - 1];
    CellsOfRows(init, w);
    if y < |grid| - 1 {
      ItemsRowMajor(init, w, y, x);
      assert y * w + x < |Items(init)|;
    } else {
      assert |Items(init)| == y * w;
    }
  }

  lemma {:induction false} CellsOfRows(grid: Grid, w: nat)
    requires forall r :: 0 <= r < |grid| ==> |grid[r]| == w
    ensures Cells(grid) == |grid| * w
    decreases |grid|
  {
    if |grid| > 0 {
      CellsOfRows(grid[..|grid| - 1], w);
    }
  }

  // ---------------------------------------------------------------------------
  // neighbours

  /** The neighbour at one offset: `null` outside the first row's width or
      outside the rows, otherwise `map[ny][nx]`. */
  function NeighborAt(grid: Grid, x: int, y: int, offset: (int, int)): Option<Neighbor>
    requires |grid| > 0
  {
    var nx := x + offset.0;
    var ny := y + offset.1;
    if nx < 0 || nx >= |grid[0]| || ny < 0 || ny >= |grid| then None
    else if nx < |grid[ny]| then Some(Cell(grid[ny][nx]))
    else Some(Undefined)
  }

  /** The entries of `xs` that are not `null`, in order. */
  function FilterSome(xs: seq<Option<Neighbor>>): (r: seq<Neighbor>)
    ensures forall v :: v in r <==> Some(v) in xs
  {
    if |xs| == 0 then [] else (if xs[0].Some? then [xs[0].value] else []) + FilterSome(xs[1..])
  }

  /** `neighborCoords.map(...).filter(n => n !== null)` for the item at `(x, y)`. */
  function Neighbors(grid: Grid, x: int, y: int): seq<Neighbor>
    requires |grid| > 0
  {
    FilterSome(Lookups(grid, x, y))
  }

  /** `neighborCoords.map(...)`: one lookup per offset. */
  function Lookups(grid: Grid, x: int, y: int): (r: seq<Option<Neighbor>>)
    requires |grid| > 0
    ensures |r| == 8 && forall k :: 0 <= k < 8 ==> r[k] == NeighborAt(grid, x, y, NEIGHBOR_COORDS[k])
  {
    seq(8, k requires 0 <= k < 8 => NeighborAt(grid, x, y, NEIGHBOR_COORDS[k]))
  }

  /** `(x', y')` is one of the eight cells around `(x, y)`. */
  predicate Adjacent(x': int, y': int, x: int, y: int)
  {
    -1 <= x' - x <= 1 && -1 <= y' - y <= 1 && (x', y') != (x, y)
  }

  /** The offsets are exactly the eight steps to an adjacent cell. */
  lemma OffsetsAdjacent(x: int, y: int, x': int, y': int)
    ensures Adjacent(x', y', x, y) <==>
              exists k :: 0 <= k < 8 && (x', y') == (x + NEIGHBOR_COORDS[k].0, y + NEIGHBOR_COORDS[k].1)
  {
    if Adjacent(x', y', x, y) {
      var k := if (x' - x, y' - y) == (0, -1) then 0 else if (x' - x, y' - y) == (1, 0) then 1
               else if (x' - x, y' - y) == (0, 1) then 2 else if (x' - x, y' - y) == (-1, 0) then 3
               else if (x' - x, y' - y) == (-1, -1) then 4 else if (x' - x, y' - y) == (1, -1) then 5
               else if (x' - x, y' - y) == (1, 1) then 6 else 7;
      assert (x', y') == (x + NEIGHBOR_COORDS[k].0, y + NEIGHBOR_COORDS[k].1);
    }
  }

  /** In a rectangular grid a lookup inside the rows finds the cell there. */
  lemma LookupInGrid(grid: Grid, x: nat, y: nat, k: nat)
    requires Rectangular(grid) && k < 8
    ensures var nx, ny := x + NEIGHBOR_COORDS[k].0, y + NEIGHBOR_COORDS[k].1;
            NeighborAt(grid, x, y, NEIGHBOR_COORDS[k]) ==
              if 0 <= ny < |grid| && 0 <= nx < |grid[ny]| then Some(Cell(grid[ny][nx])) else None
  {
  }

  /** Every neighbour of a cell in a rectangular grid is a cell adjacent to
      it, so never the cell itself, and none is `undefined`. */
  lemma NeighborsAdjacent(grid: Grid, x: nat, y: nat)
    requires Rectangular(grid) && Placed(grid)
    ensures forall n :: n in Neighbors(grid, x, y) ==>
              n.Cell? && n.item.y < |grid| && n.item.x < |grid[n.item.y]| && grid[n.item.y][n.item.x] == n.item
              && Adjacent(n.item.x, n.item.y, x, y)
  {
    var raw := Lookups(grid, x, y);
    forall n | n in Neighbors(grid, x, y)
      ensures n.Cell? && n.item.y < |grid| && n.item.x < |grid[n.item.y]| && grid[n.item.y][n.item.x] == n.item
              && Adjacent(n.item.x, n.item.y, x, y)
    {
      var k :| 0 <= k < 8 && raw[k] == Some(n);
      LookupAdjacent(grid, x, y, k, n);
    }
  }

  /** What one lookup finds is an adjacent cell. */
  lemma LookupAdjacent(grid: Grid, x: nat, y: nat, k: nat, n: Neighbor)
    requires Rectangular(grid) && Placed(grid) && k < 8
    requires NeighborAt(grid, x, y, NEIGHBOR_COORDS[k]) == Some(n)
    ensures n.Cell? && n.item.y < |grid| && n.item.x < |grid[n.item.y]| && grid[n.item.y][n.item.x] == n.item
            && Adjacent(n.item.x, n.item.y, x, y)
  {
    var nx, ny := x + NEIGHBOR_COORDS[k].0, y + NEIGHBOR_COORDS[k].1;
    LookupInGrid(grid, x, y, k);
    assert n == Cell(grid[ny][nx]);
    OffsetsAdjacent(x, y, nx, ny);
  }

  /** Every cell adjacent to a cell of a rectangular grid is its neighbour. */
  lemma AdjacentNeighbors(grid: Grid, x: nat, y: nat)
    requires Rectangular(grid)
    ensures forall x', y' :: 0 <= y' < |grid| && 0 <= x' < |grid[y']| && Adjacent(x', y', x, y) ==>
              Cell(grid[y'][x']) in Neighbors(grid, x, y)
  {
    var raw := Lookups(grid, x, y);
    forall x', y' | 0 <= y' < |grid| && 0 <= x' < |grid[y']| && Adjacent(x', y', x, y)
      ensures Cell(grid[y'][x']) in Neighbors(grid, x, y)
    {
      OffsetsAdjacent(x, y, x', y');
      var k :| 0 <= k < 8 && (x', y') == (x + NEIGHBOR_COORDS[k].0, y + NEIGHBOR_COORDS[k].1);
      LookupInGrid(grid, x, y, k);
      assert raw[k] == Some(Cell(grid[y'][x']));
    }
  }

  /** In a rectangular grid a cell's neighbours are exactly the cells
      adjacent to it, so never the cell itself, and none is `undefined`. */
  lemma NeighborsExact(grid: Grid, x: nat, y: nat)
    requires Rectangular(grid) && Placed(grid)
    ensures Undefined !in Neighbors(grid, x, y)
    ensures forall n :: n in Neighbors(grid, x, y) ==>
              n.Cell? && n.item.y < |grid| && n.item.x < |grid[n.item.y]| && grid[n.item.y][n.item.x] == n.item
              && Adjacent(n.item.x, n.item.y, x, y)
    ensures forall x', y' :: 0 <= y' < |grid| && 0 <= x' < |grid[y']| && Adjacent(x', y', x, y) ==>
              Cell(grid[y'][x']) in Neighbors(grid, x, y)
  {
    NeighborsAdjacent(grid, x, y);
    AdjacentNeighbors(grid, x, y);
  }

  /** The neighbour relation is symmetric. */
  lemma NeighborsSymmetric(grid: Grid, x: nat, y: nat, x': nat, y': nat)
    requires Rectangular(grid) && Placed(grid)
    requires y < |grid| && x < |grid[y]| && y' < |grid| && x' < |grid[y']|
    ensures Cell(grid[y'][x']) in Neighbors(grid, x, y) <==> Cell(grid[y][x]) in Neighbors(grid, x', y')
  {
    NeighborsExact(grid, x, y);
    NeighborsExact(grid, x', y');
  }

  // ---------------------------------------------------------------------------
  // part 1

  /** `neighbors.filter(n => n.roll).length`; an `undefined` neighbour makes
      `n.roll` throw, which is `None` here. */
  function NeighboringRolls(ns: seq<Neighbor>): (r: Option<nat>)
    ensures r.None? <==> Undefined in ns
    ensures r.Some? ==> r.value <= |ns|
  {
    if |ns| == 0 then Some(0)
    else
      var rest := NeighboringRolls(ns[1..]);
      if ns[0].Undefined? || rest.None? then None
      else Some((if ns[0].item.roll then 1 else 0) + rest.value)
  }

  /** A roll with fewer than four rolls among the neighbours `ns`. */
  predicate AccessibleAmong(item: Item, ns: seq<Neighbor>)
  {
    var rolls := NeighboringRolls(ns);
    rolls.Some? && rolls.value < 4 && item.roll
  }

  /** A roll with fewer than four neighbouring rolls. */
  predicate Accessible(grid: Grid, item: Item)
    requires |grid| > 0
  {
    AccessibleAmong(item, Neighbors(grid, item.x, item.y))
  }

  /** No item of the grid has an `undefined` neighbour. */
  predicate Defined(grid: Grid)
    requires |grid| > 0
  {
    forall k :: 0 <= k < |Items(grid)| ==> Undefined !in Neighbors(grid, Items(grid)[k].x, Items(grid)[k].y)
  }

  /** The `forEach` that gives every item its `neighbors`. */
  function NeighborLists(grid: Grid, items: seq<Item>): (lists: seq<seq<Neighbor>>)
    requires |grid| > 0
    ensures |lists| == |items|
    ensures forall i :: 0 <= i < |items| ==> lists[i] == Neighbors(grid, items[i].x, items[i].y)
  {
    seq(|items|, i requires 0 <= i < |items| => Neighbors(grid, items[i].x, items[i].y))
  }

  /** Each item's `accessibleByForklift` flag. */
  function Flags(grid: Grid, items: seq<Item>): (flags: seq<bool>)
    requires |grid| > 0
    ensures |flags| == |items| && forall i :: 0 <= i < |items| ==> (flags[i] <==> Accessible(grid, items[i]))
  {
    seq(|items|, i requires 0 <= i < |items| => Accessible(grid, items[i]))
  }

  /** The number of raised flags. */
  function CountTrue(flags: seq<bool>): (n: nat)
    ensures n <= |flags|
    ensures n == 0 <==> forall i :: 0 <= i < |flags| ==> !flags[i]
  {
    if |flags| == 0 then 0 else CountTrue(flags[..|flags| - 1]) + (if flags[|flags| - 1] then 1 else 0)
  }

  /** The `forEach` that flags the accessible rolls. An `undefined`
      neighbour throws, reported as `false`, and the flags are then
      meaningless. */
  method FlagAccessible(items: seq<Item>, neighbors: seq<seq<Neighbor>>, accessibleByForklift: array<bool>)
    returns (defined: bool)
    requires |neighbors| == |items| == accessibleByForklift.Length
    requires forall i :: 0 <= i < |items| ==> !accessibleByForklift[i]
    modifies accessibleByForklift
    ensures defined <==> forall i :: 0 <= i < |items| ==> Undefined !in neighbors[i]
    ensures defined ==> forall i :: 0 <= i < |items| ==> accessibleByForklift[i] == AccessibleAmong(items[i], neighbors[i])
  {
    var k := 0;
    while k < |items|
      invariant 0 <= k <= |items|
      invariant forall i :: 0 <= i < k ==> Undefined !in neighbors[i]
      invariant forall i :: 0 <= i < |items| ==> accessibleByForklift[i] == (i < k && AccessibleAmong(items[i], neighbors[i]))
    {
      var neighboringRolls := NeighboringRolls(neighbors[k]);
      if neighboringRolls.None? {
        return false;
      }
      if neighboringRolls.value < 4 && items[k].roll {
        accessibleByForklift[k] := true;
      }
      k := k + 1;
    }
    return true;
  }

  /** The `filter` that counts the flagged items. */
  method CountFlagged(accessibleByForklift: array<bool>) returns (count: nat)
    ensures count == CountTrue(accessibleByForklift[..])
  {
    count := 0;
    var k := 0;
    while k < accessibleByForklift.Length
      invariant 0 <= k <= accessibleByForklift.Length
      invariant count == CountTrue(accessibleByForklift[..k])
    {
      assert accessibleByForklift[..k + 1][..k] == accessibleByForklift[..k];
      if accessibleByForklift[k] {
        count := count + 1;
      }
      k := k + 1;
    }
    assert accessibleByForklift[..k] == accessibleByForklift[..];
  }

  /** Part 1: the number of rolls a forklift can reach; a map with an
      `undefined` neighbour throws and counts nothing. */
  method SolveForFirstStar(input: String) returns (r: Result<nat, String>)
    ensures r.Ok? <==> Defined(ParseMap(input))
    ensures r.Ok? ==> r.value == CountTrue(Flags(ParseMap(input), Items(ParseMap(input))))
  {
    var grid := ParseMap(input);
    var items := Items(grid);
    var neighbors := NeighborLists(grid, items);
    var accessibleByForklift := new bool[|items|](k => false);
    var defined := FlagAccessible(items, neighbors, accessibleByForklift);
    if !defined {
      return Err("an item has an undefined neighbour past the end of a shorter row");
    }
    assert accessibleByForklift[..] == Flags(grid, items);
    var count := CountFlagged(accessibleByForklift);
    r := Ok(count);
  }

  /** A rectangular map never has an `undefined` neighbour. */
  lemma RectangularDefined(input: String)
    requires Rectangular(ParseMap(input))
    ensures Defined(ParseMap(input))
  {
    var grid := ParseMap(input);
    forall k | 0 <= k < |Items(grid)|
      ensures Undefined !in Neighbors(grid, Items(grid)[k].x, Items(grid)[k].y)
    {
      var item := Items(grid)[k];
      ItemInGrid(grid, k);
      ParsedPlaced(input);
      NeighborsExact(grid, item.x, item.y);
    }
  }

  /** Every item of `Items(grid)` is the cell at its own coordinates. */
  lemma {:induction false} ItemInGrid(grid: Grid, k: nat)
    requires Placed(grid) && k < |Items(grid)|
    ensures var item := Items(grid)[k]; item.y < |grid| && item.x < |grid[item.y]| && grid[item.y][item.x] == item
    decreases |grid|
  {
    var init := grid[..|grid| - 1];
    if k < |Items(init)| {
      ItemInGrid(init, k);
    }
  }

  // ---------------------------------------------------------------------------
  // toString

  /** `map.map(row => row.map(charMapper).join('')).join('\n')`, for a mapper
      that gives one character per item. */
  function ToString(grid: Grid, charMapper: Item -> char): String
  {
    Join(seq(|grid|, y requires 0 <= y < |grid| => RowText(grid[y], charMapper)), "\n")
  }

  /** `row.map(charMapper).join('')` */
  function RowText(row: seq<Item>, charMapper: Item -> char): (text: String)
    ensures |text| == |row| && forall x :: 0 <= x < |row| ==> text[x] == charMapper(row[x])
  {
    seq(|row|, x requires 0 <= x < |row| => charMapper(row[x]))
  }

  /** With the default mapper, `toString` gives back the input. */
  lemma ToStringIdentity(input: String)
    ensures ToString(ParseMap(input), (item: Item) => item.symbol) == input
  {
    var grid := ParseMap(input);
    var lines := Split(input, "\n");
    var f := (item: Item) => item.symbol;
    var texts := seq(|grid|, y requires 0 <= y < |grid| => RowText(grid[y], f));
    forall y | 0 <= y < |grid| ensures texts[y] == lines[y] { }
    assert texts == lines;
    JoinSplit(input, "\n");
  }
}
