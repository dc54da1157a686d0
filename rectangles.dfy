/** The red tiles of day 9 (solutions/day9/solution.js): the rectangles
    with two listed tiles as opposite corners, the largest of their areas
    (part 1) and the text picture of a viewport. A coordinate that is not a
    number (`NaN`, or `undefined` on a line without a ',') is `None`; every
    comparison with it is false and every sum, product, `Math.min` and
    `Math.max` with it is `None` again. */
module Rectangles {
  import opened Wrappers
  import opened Text

  type Num = Option<int>

  datatype Coordinate = Coordinate(x: Num, y: Num)

  datatype Rectangle = Rectangle(left: Num, right: Num, top: Num, bottom: Num, area: Num)

  datatype Viewport = Viewport(left: int, top: int, width: int, height: int, padding: int)

  // ---------------------------------------------------------------------------
  // Parsing

  /** One line `x,y`: the texts before and after the first ',' as numbers;
      a line without ',' has no `y`. */
  function ParseCoordinate(line: String): (c: Coordinate)
    ensures c.x == Number(Split(line, ",")[0])
    ensures c.y == if |Split(line, ",")| > 1 then Number(Split(line, ",")[1]) else None
  {
    var parts := Split(line, ",");
    Coordinate(Number(parts[0]), if |parts| > 1 then Number(parts[1]) else None)
  }

  /** `parseCoordinates`: one coordinate per line, blank lines included. */
  function ParseCoordinates(input: String): (coords: seq<Coordinate>)
    ensures |coords| == |Split(input, "\n")|
    ensures forall k :: 0 <= k < |coords| ==> coords[k] == ParseCoordinate(Split(input, "\n")[k])
  {
    var lines := Split(input, "\n");
    seq(|lines|, k requires 0 <= k < |lines| => ParseCoordinate(lines[k]))
  }

  // ---------------------------------------------------------------------------
  // Rectangles

  function MinOf(a: Num, b: Num): Num
  {
    if a.Some? && b.Some? then Some(if a.value <= b.value then a.value else b.value) else None
  }

  function MaxOf(a: Num, b: Num): Num
  {
    if a.Some? && b.Some? then Some(if a.value >= b.value then a.value else b.value) else None
  }

  /** Lines 70-76: the rectangle with corners `p` and `q`, counting both
      border rows and columns. When every coordinate is a number it spans
      both corners, its sides are ordered and its area is at least 1. */
  function RectangleOf(p: Coordinate, q: Coordinate): (r: Rectangle)
    ensures r.area.Some? <==> p.x.Some? && q.x.Some? && p.y.Some? && q.y.Some?
    ensures r.area.Some? ==>
      r.left.Some? && r.right.Some? && r.top.Some? && r.bottom.Some? &&
      r.left.value <= p.x.value <= r.right.value && r.left.value <= q.x.value <= r.right.value &&
      r.top.value <= p.y.value <= r.bottom.value && r.top.value <= q.y.value <= r.bottom.value &&
      (r.left.value == p.x.value || r.left.value == q.x.value) &&
      (r.right.value == p.x.value || r.right.value == q.x.value) &&
      (r.top.value == p.y.value || r.top.value == q.y.value) &&
      (r.bottom.value == p.y.value || r.bottom.value == q.y.value) &&
      r.area.value == (r.right.value - r.left.value + 1) * (r.bottom.value - r.top.value + 1) &&
      r.area.value >= 1
  {
    var left, right := MinOf(p.x, q.x), MaxOf(p.x, q.x);
    var top, bottom := MinOf(p.y, q.y), MaxOf(p.y, q.y);
    var area :=
      if left.Some? && right.Some? && top.Some? && bottom.Some? then
        AtLeastOne(right.value - left.value + 1, bottom.value - top.value + 1);
        Some((right.value - left.value + 1) * (bottom.value - top.value + 1))
      else None;
    Rectangle(left, right, top, bottom, area)
  }

  lemma AtLeastOne(a: int, b: int)
    requires a >= 1 && b >= 1
    ensures a * b >= 1
  {
    assert a * b >= 1 * b;
  }

  /** Where row `i` of the enumeration starts: `i * (n - 1)`, written as
      a sum so that the index arithmetic stays linear. */
  function RowStart(n: int, i: nat): int
  {
    if i == 0 then 0 else RowStart(n, i - 1) + (n - 1)
  }

  lemma {:induction false} RowStartIsProduct(n: int, i: nat)
    ensures RowStart(n, i) == i * (n - 1)
  {
    if i > 0 {
      RowStartIsProduct(n, i - 1);
    }
  }

  /** Later rows start at least one row length further on. */
  lemma {:induction false} RowStartMonotone(n: int, a: nat, b: nat)
    requires n >= 1 && a < b
    ensures RowStart(n, a) + (n - 1) <= RowStart(n, b)
    decreases b
  {
    if a + 1 < b {
      RowStartMonotone(n, a, b - 1);
    }
  }

  lemma {:induction false} RowStartNonNegative(n: int, i: nat)
    requires n >= 1
    ensures RowStart(n, i) >= 0
  {
    if i > 0 {
      RowStartNonNegative(n, i - 1);
    }
  }

  /** Where the rectangle of the ordered pair (i, j), i != j, lands among
      the `n * (n - 1)` rectangles: row `i`, skipping `j == i`. */
  function PairIndex(n: int, i: nat, j: int): int
  {
    RowStart(n, i) + (if j < i then j else j - 1)
  }

  /** Every ordered pair of rows before `row` has its rectangle at its
      index. */
  ghost predicate Placed(coords: seq<Coordinate>, rects: seq<Rectangle>, row: int, upTo: int)
  {
    forall i: nat, j ::
      (i < |coords| && 0 <= j < |coords| && i != j && (i < row || (i == row && j < upTo))) ==>
      0 <= PairIndex(|coords|, i, j) < |rects| &&
      rects[PairIndex(|coords|, i, j)] == RectangleOf(coords[i], coords[j])
  }

  /** Every rectangle comes from an ordered pair of distinct coordinates. */
  ghost predicate FromPairs(coords: seq<Coordinate>, rects: seq<Rectangle>)
  {
    forall k :: 0 <= k < |rects| ==>
      exists i, j :: 0 <= i < |coords| && 0 <= j < |coords| && i != j &&
                     rects[k] == RectangleOf(coords[i], coords[j])
  }

  /** Lines 67-79: the rectangle of every ordered pair (i, j) with i != j,
      row by row, so `n * (n - 1)` of them for `n` coordinates. */
  method EnumerateRectangles(coords: seq<Coordinate>) returns (rects: seq<Rectangle>)
    ensures |rects| == |coords| * (|coords| - 1)
    ensures Placed(coords, rects, |coords|, 0)
    ensures FromPairs(coords, rects)
  {
    var n := |coords|;
    rects := [];
    for i := 0 to n
      invariant |rects| == RowStart(n, i)
      invariant Placed(coords, rects, i, 0)
      invariant FromPairs(coords, rects)
    {
      for j := 0 to n
        invariant |rects| == RowStart(n, i) + (if j <= i then j else j - 1)
        invariant Placed(coords, rects, i, j)
        invariant FromPairs(coords, rects)
      {
        if i == j {
          continue;
        }
        PushPair(coords, rects, i, j);
        rects := rects + [RectangleOf(coords[i], coords[j])];
      }
    }
    RowStartIsProduct(n, n);
  }

  /** Appending the rectangle of (i, j) keeps every earlier one in place
      and puts this one at its index. */
  lemma PushPair(coords: seq<Coordinate>, rects: seq<Rectangle>, i: nat, j: int)
    requires i < |coords| && 0 <= j < |coords| && i != j
    requires |rects| == PairIndex(|coords|, i, j)
    requires Placed(coords, rects, i, j) && FromPairs(coords, rects)
    ensures Placed(coords, rects + [RectangleOf(coords[i], coords[j])], i, j + 1)
    ensures FromPairs(coords, rects + [RectangleOf(coords[i], coords[j])])
  {
    var n := |coords|;
    var rects' := rects + [RectangleOf(coords[i], coords[j])];
    forall i': nat, j' | i' < n && 0 <= j' < n && i' != j' && (i' < i || (i' == i && j' < j + 1))
      ensures 0 <= PairIndex(n, i', j') < |rects'|
      ensures rects'[PairIndex(n, i', j')] == RectangleOf(coords[i'], coords[j'])
    {
      RowStartNonNegative(n, i');
      if i' < i {
        RowStartMonotone(n, i', i);
      }
    }
    assert rects'[|rects|] == RectangleOf(coords[i], coords[j]);
  }

  // ---------------------------------------------------------------------------
  // The largest rectangle

  /** The seed of the `reduce`, `{ area: 0 }`: no sides. */
  const Seed := Rectangle(None, None, None, None, Some(0))

  /** `a > b` on numbers; false when either is not a number. */
  predicate Greater(a: Num, b: Num)
  {
    a.Some? && b.Some? && a.value > b.value
  }

  /** `r` is `rects[k]`, and every rectangle before it has a smaller
      area. */
  ghost predicate FirstLargest(rects: seq<Rectangle>, k: int, r: Rectangle)
    requires r.area.Some?
  {
    0 <= k < |rects| && r == rects[k] &&
    forall e :: 0 <= e < k && rects[e].area.Some? ==> rects[e].area.value < r.area.value
  }

  /** Lines 82-84: `rects.reduce(...)` from `best`. A rectangle replaces
      the best so far only when its area is strictly larger, so the result
      has the largest area and is the first rectangle of that area, or it
      is `best` when no rectangle beats it. */
  function LargestFrom(rects: seq<Rectangle>, best: Rectangle): (r: Rectangle)
    requires best.area.Some?
    ensures r.area.Some? && r.area.value >= best.area.value
    ensures forall k :: 0 <= k < |rects| && rects[k].area.Some? ==> rects[k].area.value <= r.area.value
    ensures r != best ==> r.area.value > best.area.value && exists k :: FirstLargest(rects, k, r)
  {
    if |rects| == 0 then best
    else
      var next := if Greater(rects[0].area, best.area) then rects[0] else best;
      var r := LargestFrom(rects[1..], next);
      assert forall k :: 1 <= k < |rects| ==> rects[k] == rects[1..][k - 1];
      if r != next then
        assert exists k :: FirstLargest(rects, k, r) by {
          var k :| FirstLargest(rects[1..], k, r);
          forall e | 0 <= e < k + 1 && rects[e].area.Some?
            ensures rects[e].area.value < r.area.value
          {
            if e > 0 {
              assert rects[e] == rects[1..][e - 1];
            }
          }
          assert FirstLargest(rects, k + 1, r);
        }
        r
      else
        assert r != best ==> FirstLargest(rects, 0, r);
        r
  }

  function Largest(rects: seq<Rectangle>): (r: Rectangle)
    ensures r.area.Some?
  {
    LargestFrom(rects, Seed)
  }

  /** Lines 64-84 and 106 on parsed coordinates: the rectangles of every
      ordered pair, and the largest of their areas, 0 when no two
      coordinates are numbers (so when there are fewer than two). */
  method LargestArea(coords: seq<Coordinate>) returns (rects: seq<Rectangle>, solution: int)
    ensures |rects| == |coords| * (|coords| - 1) && Placed(coords, rects, |coords|, 0) && FromPairs(coords, rects)
    ensures solution >= 0
    ensures forall i, j :: 0 <= i < |coords| && 0 <= j < |coords| && i != j &&
                           RectangleOf(coords[i], coords[j]).area.Some? ==>
      RectangleOf(coords[i], coords[j]).area.value <= solution
    ensures solution == 0 || exists i, j :: 0 <= i < |coords| && 0 <= j < |coords| && i != j &&
                                          RectangleOf(coords[i], coords[j]).area == Some(solution)
    ensures |coords| < 2 ==> solution == 0
  {
    rects := EnumerateRectangles(coords);
    var largest := Largest(rects);
    solution := largest.area.value;
    forall i, j | 0 <= i < |coords| && 0 <= j < |coords| && i != j &&
                  RectangleOf(coords[i], coords[j]).area.Some?
      ensures RectangleOf(coords[i], coords[j]).area.value <= solution
    {
      assert rects[PairIndex(|coords|, i, j)] == RectangleOf(coords[i], coords[j]);
    }
    if largest != Seed {
      ghost var k :| FirstLargest(rects, k, largest);
      ghost var i, j :| 0 <= i < |coords| && 0 <= j < |coords| && i != j && rects[k] == RectangleOf(coords[i], coords[j]);
      assert RectangleOf(coords[i], coords[j]).area == Some(solution);
    }
    if |coords| < 2 {
      assert |coords| == 0 || |coords| - 1 == 0;
      assert |rects| == 0;
    }
  }

  /** Part 1: `LargestArea` of the parsed input. */
  method SolveForFirstStar(input: String) returns (rects: seq<Rectangle>, solution: int)
    ensures var coords := ParseCoordinates(input);
      |rects| == |coords| * (|coords| - 1) && Placed(coords, rects, |coords|, 0) && FromPairs(coords, rects)
    ensures solution >= 0
    ensures var coords := ParseCoordinates(input);
      forall i, j :: 0 <= i < |coords| && 0 <= j < |coords| && i != j &&
                     RectangleOf(coords[i], coords[j]).area.Some? ==>
        RectangleOf(coords[i], coords[j]).area.value <= solution
    ensures var coords := ParseCoordinates(input);
      solution == 0 || exists i, j :: 0 <= i < |coords| && 0 <= j < |coords| && i != j &&
                                    RectangleOf(coords[i], coords[j]).area == Some(solution)
    ensures |ParseCoordinates(input)| < 2 ==> solution == 0
  {
    rects, solution := LargestArea(ParseCoordinates(input));
  }

  // ---------------------------------------------------------------------------
  // Rendering

  /** A cell of a rectangle whose sides are numbers. */
  predicate Covers(r: Rectangle, x: int, y: int)
  {
    r.left.Some? && r.right.Some? && r.top.Some? && r.bottom.Some? &&
    r.left.value <= x <= r.right.value && r.top.value <= y <= r.bottom.value
  }

  /** Inside the viewport widened by its padding. */
  predicate InView(v: Viewport, x: int, y: int)
  {
    v.left - v.padding <= x < v.left + v.width + v.padding &&
    v.top - v.padding <= y < v.top + v.height + v.padding
  }

  /** A tile listed at (x, y); a coordinate that is not a number matches
      no cell. */
  predicate Listed(coords: seq<Coordinate>, x: int, y: int)
  {
    exists k :: 0 <= k < |coords| && coords[k].x == Some(x) && coords[k].y == Some(y)
  }

  /** Lines 34-43: the cells of the squares inside the padded viewport.
      A square with a side that is not a number has none. */
  method SquareCells(squares: seq<Rectangle>, v: Viewport) returns (cells: set<(int, int)>)
    ensures forall x: int, y: int :: (x, y) in cells <==>
      InView(v, x, y) && exists k :: 0 <= k < |squares| && Covers(squares[k], x, y)
  {
    cells := {};
    for k := 0 to |squares|
      invariant forall x: int, y: int :: (x, y) in cells <==>
        InView(v, x, y) && exists e :: 0 <= e < k && Covers(squares[e], x, y)
    {
      var square := squares[k];
      if square.left.Some? && square.right.Some? && square.top.Some? && square.bottom.Some? {
        cells := AddSquare(cells, square, v);
      }
    }
  }

  /** The cells of one square inside the padded viewport, added row by
      row; the bounds are clipped first, so the loops' `continue` tests
      never fire. */
  method AddSquare(cells: set<(int, int)>, square: Rectangle, v: Viewport) returns (cells': set<(int, int)>)
    requires square.left.Some? && square.right.Some? && square.top.Some? && square.bottom.Some?
    ensures forall x: int, y: int :: (x, y) in cells' <==>
      (x, y) in cells || (InView(v, x, y) && Covers(square, x, y))
  {
    cells' := cells;
    var y := Greatest(square.top.value, v.top - v.padding);
    var yEnd := Least(square.bottom.value, v.top + v.height + v.padding - 1);
    while y <= yEnd
      invariant forall x: int, y': int :: (x, y') in cells' <==>
        (x, y') in cells || (InView(v, x, y') && Covers(square, x, y') && y' < y)
      decreases yEnd - y
    {
      if y < v.top - v.padding || y >= v.top + v.height + v.padding {
        y := y + 1;
        continue;
      }
      var x := Greatest(square.left.value, v.left - v.padding);
      var xEnd := Least(square.right.value, v.left + v.width + v.padding - 1);
      while x <= xEnd
        invariant forall x': int, y': int :: (x', y') in cells' <==>
          (x', y') in cells || (InView(v, x', y') && Covers(square, x', y') && (y' < y || (y' == y && x' < x)))
        decreases xEnd - x
      {
        if x < v.left - v.padding || x >= v.left + v.width + v.padding {
          x := x + 1;
          continue;
        }
        cells' := cells' + {(x, y)};
        x := x + 1;
      }
      y := y + 1;
    }
  }

  function Greatest(a: int, b: int): (m: int)
    ensures m >= a && m >= b && (m == a || m == b)
  {
    if a >= b then a else b
  }

  function Least(a: int, b: int): (m: int)
    ensures m <= a && m <= b && (m == a || m == b)
  {
    if a <= b then a else b
  }

  /** `renderAt`: a listed tile first, then a square's cell, else '.'. */
  function RenderAt(coords: seq<Coordinate>, cells: set<(int, int)>, x: int, y: int): (c: char)
    ensures c == '#' <==> Listed(coords, x, y)
    ensures c == 'O' <==> !Listed(coords, x, y) && (x, y) in cells
    ensures c == '.' <==> !Listed(coords, x, y) && (x, y) !in cells
  {
    if exists k :: 0 <= k < |coords| && coords[k].x == Some(x) && coords[k].y == Some(y) then '#'
    else if (x, y) in cells then 'O'
    else '.'
  }

  function Span(n: int): nat
  {
    if n > 0 then n else 0
  }

  /** `renderOutput`: `height + 2 * padding` lines of `width + 2 * padding`
      characters (none when negative), the character at column `c` of line
      `r` showing cell `(left - padding + c, top - padding + r)`, joined
      with newlines. */
  method RenderOutput(coords: seq<Coordinate>, squares: seq<Rectangle>, v: Viewport)
    returns (output: seq<String>, text: String)
    ensures |output| == Span(v.height + 2 * v.padding)
    ensures forall r :: 0 <= r < |output| ==> |output[r]| == Span(v.width + 2 * v.padding)
    ensures forall r, c :: 0 <= r < |output| && 0 <= c < |output[r]| ==>
      var x, y := v.left - v.padding + c, v.top - v.padding + r;
      (output[r][c] == '#' <==> Listed(coords, x, y)) &&
      (output[r][c] == 'O' <==> !Listed(coords, x, y) && exists k :: 0 <= k < |squares| && Covers(squares[k], x, y)) &&
      (output[r][c] == '.' <==> !Listed(coords, x, y) && forall k :: 0 <= k < |squares| ==> !Covers(squares[k], x, y))
    ensures text == Join(output, "\n")
  {
    var cells := SquareCells(squares, v);
    output := [];
    var y := v.top - v.padding;
    while y < v.top + v.height + v.padding
      invariant v.top - v.padding <= y
      invariant y <= v.top + v.height + v.padding || y == v.top - v.padding
      invariant |output| == y - (v.top - v.padding)
      invariant forall r :: 0 <= r < |output| ==> |output[r]| == Span(v.width + 2 * v.padding)
      invariant forall r, c :: 0 <= r < |output| && 0 <= c < |output[r]| ==>
        output[r][c] == RenderAt(coords, cells, v.left - v.padding + c, v.top - v.padding + r)
      decreases v.top + v.height + v.padding - y
    {
      var line := "";
      var x := v.left - v.padding;
      while x < v.left + v.width + v.padding
        invariant v.left - v.padding <= x
        invariant x <= v.left + v.width + v.padding || x == v.left - v.padding
        invariant |line| == x - (v.left - v.padding)
        invariant forall c :: 0 <= c < |line| ==> line[c] == RenderAt(coords, cells, v.left - v.padding + c, y)
        decreases v.left + v.width + v.padding - x
      {
        line := line + [RenderAt(coords, cells, x, y)];
        x := x + 1;
      }
      output := output + [line];
      y := y + 1;
    }
    text := Join(output, "\n");
  }
}
