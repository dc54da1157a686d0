/** The region board of solutions/day12/solution.js: one mask per row, bit `x`
    of row `y` set when cell `(x, y)` is covered. The flood fill that measures
    the empty components, and the two area sums the packer prunes with. */
module PresentBoard {
  import opened Bits

  /** `isCellFilled` */
  predicate IsCellFilled(boardRows: seq<nat>, x: int, y: int)
    requires 0 <= y < |boardRows| && 0 <= x
  {
    Bit(boardRows[y], x)
  }

  /** The uncovered cells of the `width x height` board. */
  function EmptyCells(boardRows: seq<nat>, width: nat, height: nat): set<(int, int)>
    requires |boardRows| >= height
  {
    set x: int, y: int | 0 <= x < width && 0 <= y < height && !IsCellFilled(boardRows, x, y) :: (x, y)
  }

  function Sum(xs: seq<nat>): nat
  {
    if |xs| == 0 then 0 else Sum(xs[..|xs| - 1]) + xs[|xs| - 1]
  }

  lemma SumAppend(xs: seq<nat>, x: nat)
    ensures Sum(xs + [x]) == Sum(xs) + x
  {
    assert (xs + [x])[..|xs|] == xs;
  }

  /** `DIRECTIONS`: right, left, down, up. */
  const DX: seq<int> := [1, -1, 0, 0]
  const DY: seq<int> := [0, 0, 1, -1]

  /** The bookkeeping shared by the flood-fill loops: `visited` marks exactly
      the cells of `seen`, and every seen cell is an empty board cell. */
  ghost predicate Marked(boardRows: seq<nat>, width: nat, height: nat, visited: array2<bool>, seen: set<(int, int)>)
    reads visited
    requires |boardRows| >= height
  {
    visited.Length0 == height && visited.Length1 == width
    && (forall a, b :: 0 <= a < width && 0 <= b < height ==> (visited[b, a] <==> (a, b) in seen))
    && seen <= EmptyCells(boardRows, width, height)
  }

  /** The neighbour loop of `findEmptyComponents`: every in-bounds, unvisited,
      empty neighbour of `(cx, cy)` is marked and pushed. */
  method PushNeighbours(boardRows: seq<nat>, width: nat, height: nat, visited: array2<bool>,
                        cx: int, cy: int, queue0: seq<(int, int)>, ghost seen0: set<(int, int)>)
    returns (queue: seq<(int, int)>, ghost seen: set<(int, int)>)
    requires |boardRows| >= height
    requires Marked(boardRows, width, height, visited, seen0)
    modifies visited
    ensures Marked(boardRows, width, height, visited, seen)
    ensures seen0 <= seen
    ensures |seen| - |seen0| == |queue| - |queue0|
  {
    queue, seen := queue0, seen0;
    var d := 0;
    while d < 4
      invariant 0 <= d <= 4
      invariant Marked(boardRows, width, height, visited, seen)
      invariant seen0 <= seen
      invariant |seen| - |seen0| == |queue| - |queue0|
    {
      var nx := cx + DX[d];
      var ny := cy + DY[d];
      if 0 <= nx < width && 0 <= ny < height && !visited[ny, nx] && !IsCellFilled(boardRows, nx, ny) {
        assert (nx, ny) !in seen;
        assert (nx, ny) in EmptyCells(boardRows, width, height);
        visited[ny, nx] := true;
        queue := queue + [(nx, ny)];
        seen := seen + {(nx, ny)};
      }
      d := d + 1;
    }
  }

  /** The stack loop of `findEmptyComponents`, started from the empty,
      unvisited cell `(x, y)`: the number of cells it marks. */
  method ExploreComponent(boardRows: seq<nat>, width: nat, height: nat, visited: array2<bool>,
                          x: nat, y: nat, ghost seen0: set<(int, int)>)
    returns (size: nat, ghost seen: set<(int, int)>)
    requires |boardRows| >= height && x < width && y < height
    requires Marked(boardRows, width, height, visited, seen0)
    requires !visited[y, x] && !IsCellFilled(boardRows, x, y)
    modifies visited
    ensures Marked(boardRows, width, height, visited, seen)
    ensures seen0 + {(x, y)} <= seen
    ensures size >= 1 && |seen| == |seen0| + size
  {
    size := 0;
    assert (x, y) in EmptyCells(boardRows, width, height);
    visited[y, x] := true;
    var queue := [(x, y)];
    seen := seen0 + {(x, y)};
    while |queue| > 0
      invariant Marked(boardRows, width, height, visited, seen)
      invariant seen0 + {(x, y)} <= seen
      invariant |seen| == |seen0| + size + |queue|
      invariant size + |queue| >= 1
      decreases |EmptyCells(boardRows, width, height) - seen| + |queue|
    {
      var cell := queue[|queue| - 1];
      queue := queue[..|queue| - 1];
      size := size + 1;
      DifferenceCard(EmptyCells(boardRows, width, height), seen);
      queue, seen := PushNeighbours(boardRows, width, height, visited, cell.0, cell.1, queue, seen);
      DifferenceCard(EmptyCells(boardRows, width, height), seen);
    }
  }

  lemma DifferenceCard<T>(a: set<T>, b: set<T>)
    requires b <= a
    ensures |a - b| == |a| - |b|
  {
    assert a == b + (a - b);
  }

  /** `findEmptyComponents`: the sizes of the 4-connected groups of
      uncovered cells, found in row-major order of their first cell. Every
      size is at least 1 and together they count every uncovered cell once. */
  method FindEmptyComponents(boardRows: seq<nat>, width: nat, height: nat) returns (components: seq<nat>)
    requires |boardRows| >= height
    ensures forall k :: 0 <= k < |components| ==> components[k] >= 1
    ensures Sum(components) == |EmptyCells(boardRows, width, height)|
  {
    var visited := new bool[height, width]((i, j) => false);
    ghost var seen: set<(int, int)> := {};
    components := [];
    var y := 0;
    while y < height
      invariant 0 <= y <= height
      invariant Marked(boardRows, width, height, visited, seen)
      invariant Sum(components) == |seen|
      invariant forall k :: 0 <= k < |components| ==> components[k] >= 1
      invariant forall a, b :: 0 <= a < width && 0 <= b < y && !IsCellFilled(boardRows, a, b) ==> (a, b) in seen
    {
      var x := 0;
      while x < width
        invariant 0 <= x <= width
        invariant Marked(boardRows, width, height, visited, seen)
        invariant Sum(components) == |seen|
        invariant forall k :: 0 <= k < |components| ==> components[k] >= 1
        invariant forall a, b :: 0 <= a < width && 0 <= b < y && !IsCellFilled(boardRows, a, b) ==> (a, b) in seen
        invariant forall a :: 0 <= a < x && !IsCellFilled(boardRows, a, y) ==> (a, y) in seen
      {
        if !visited[y, x] && !IsCellFilled(boardRows, x, y) {
          var size;
          size, seen := ExploreComponent(boardRows, width, height, visited, x, y, seen);
          SumAppend(components, size);
          components := components + [size];
        }
        x := x + 1;
      }
      y := y + 1;
    }
    assert seen == EmptyCells(boardRows, width, height);
  }

  // ---------------------------------------------------------------------------
  // smallestRemainingShapeArea / remainingShapeArea

  /** The total area of the pieces not yet placed. */
  function UnusedArea(areas: seq<nat>, used: seq<bool>): nat
    requires |used| == |areas|
  {
    if |areas| == 0 then 0
    else UnusedArea(areas[..|areas| - 1], used[..|used| - 1]) + (if used[|used| - 1] then 0 else areas[|areas| - 1])
  }

  /** `smallestRemainingShapeArea`: the least area among the pieces not yet
      placed, 0 when every piece is placed. */
  method SmallestRemainingShapeArea(areas: seq<nat>, used: seq<bool>) returns (minArea: nat)
    requires |used| == |areas|
    ensures (forall i :: 0 <= i < |areas| ==> used[i]) ==> minArea == 0
    ensures (exists i :: 0 <= i < |areas| && !used[i]) ==>
              (exists i :: 0 <= i < |areas| && !used[i] && areas[i] == minArea)
              && forall i :: 0 <= i < |areas| && !used[i] ==> minArea <= areas[i]
  {
    var found := false;   // `minArea` is still Infinity while this is false
    minArea := 0;
    var index := 0;
    while index < |areas|
      invariant 0 <= index <= |areas|
      invariant found <==> exists i :: 0 <= i < index && !used[i]
      invariant !found ==> minArea == 0
      invariant found ==> (exists i :: 0 <= i < index && !used[i] && areas[i] == minArea)
                          && forall i :: 0 <= i < index && !used[i] ==> minArea <= areas[i]
    {
      if !used[index] {
        if !found || areas[index] < minArea {
          minArea := areas[index];
        }
        found := true;
      }
      index := index + 1;
    }
  }

  /** `remainingShapeArea` */
  method RemainingShapeArea(areas: seq<nat>, used: seq<bool>) returns (total: nat)
    requires |used| == |areas|
    ensures total == UnusedArea(areas, used)
  {
    total := 0;
    var index := 0;
    while index < |areas|
      invariant 0 <= index <= |areas|
      invariant total == UnusedArea(areas[..index], used[..index])
    {
      assert areas[..index + 1][..index] == areas[..index];
      assert used[..index + 1][..index] == used[..index];
      total := total + if used[index] then 0 else areas[index];
      index := index + 1;
    }
    assert areas[..|areas|] == areas && used[..|used|] == used;
  }

  /** Placing piece `i` takes exactly its area off the remaining area. */
  lemma {:induction false} UnusedAreaOfPlacing(areas: seq<nat>, used: seq<bool>, i: nat)
    requires |used| == |areas| && i < |areas| && !used[i]
    ensures UnusedArea(areas, used[i := true]) + areas[i] == UnusedArea(areas, used)
  {
    var n := |areas| - 1;
    if i < n {
      assert used[i := true][..n] == used[..n][i := true];
      UnusedAreaOfPlacing(areas[..n], used[..n], i);
    } else {
      assert used[i := true][..n] == used[..n];
    }
  }

  /** With every piece unplaced, the remaining area is the sum of all areas. */
  lemma {:induction false} UnusedAreaOfNoneUsed(areas: seq<nat>, used: seq<bool>)
    requires |used| == |areas| && forall i :: 0 <= i < |used| ==> !used[i]
    ensures UnusedArea(areas, used) == Sum(areas)
  {
    if |areas| > 0 {
      UnusedAreaOfNoneUsed(areas[..|areas| - 1], used[..|used| - 1]);
    }
  }
}
