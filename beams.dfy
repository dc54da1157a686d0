/** The tachyon manifold of day 7 (solutions/day7/solution.js): a sparse
    grid of the non-'.' characters of the diagram, the beam simulation that
    activates splitters (part 1) and the memoized count of timelines
    (part 2). The source keys its `Map`s by the text `x,y`; distinct integer
    pairs give distinct texts, so the model keys them by the pair itself,
    and a cell's own `x` and `y` fields are its key. */
module Beams {
  import opened Wrappers
  import opened Text
  import Bits

  type Pos = (int, int)

  /** A grid record. The parsed records have no `beamTouched` and the
      created empty cells no `isTachyonSource`; both read as false. */
  datatype Cell = Cell(value: String, isTachyonSource: bool, isSplitter: bool,
                       splitterActivated: bool, beamTouched: bool)

  /** `minX` and `minY` are always 0. */
  datatype Bounds = Bounds(maxX: int, maxY: int)

  datatype SparseGrid = SparseGrid(grid: map<Pos, Cell>, tachyonSource: Option<Pos>, bounds: Bounds)

  const RedSquare: String := "\U{1F7E5}"
  const BlueSquare: String := "\U{1F7E6}"

  // ---------------------------------------------------------------------------
  // Parsing

  function Lines(input: String): (lines: seq<String>)
    ensures |lines| >= 1
  {
    Split(input, "\n")
  }

  /** The record parsed for character `c` at some position. */
  function Record(c: char): (cell: Cell)
    ensures cell.value == [c] && !cell.splitterActivated && !cell.beamTouched
    ensures cell.isTachyonSource <==> c == 'S'
    ensures cell.isSplitter <==> c == '^'
  {
    Cell([c], c == 'S', c == '^', false, false)
  }

  /** `createEmptyCell(x, y, value)`: never a splitter, never activated. */
  function EmptyCell(value: String): (cell: Cell)
    ensures cell.value == value
    ensures !cell.isTachyonSource && !cell.isSplitter && !cell.splitterActivated && !cell.beamTouched
  {
    Cell(value, false, false, false, false)
  }

  predicate InText(lines: seq<String>, x: int, y: int)
  {
    0 <= y < |lines| && 0 <= x < |lines[y]|
  }

  /** A position whose character the grid keeps. */
  predicate Kept(lines: seq<String>, x: int, y: int)
  {
    InText(lines, x, y) && lines[y][x] != '.'
  }

  predicate IsSource(lines: seq<String>, x: int, y: int)
  {
    InText(lines, x, y) && lines[y][x] == 'S'
  }

  /** (x, y) comes before (toX, toY) in reading order. */
  predicate Before(x: int, y: int, toX: int, toY: int)
  {
    y < toY || (y == toY && x < toX)
  }

  /** The grid and the source after reading every position before
      (toX, toY): the source is the last 'S' read so far. */
  ghost predicate ScannedTo(lines: seq<String>, grid: map<Pos, Cell>, source: Option<Pos>, toX: int, toY: int)
  {
    (forall x: int, y: int :: (x, y) in grid <==> Kept(lines, x, y) && Before(x, y, toX, toY)) &&
    (forall x: int, y: int :: (x, y) in grid ==> InText(lines, x, y) && grid[(x, y)] == Record(lines[y][x])) &&
    (source.None? ==> forall x: int, y: int :: IsSource(lines, x, y) ==> !Before(x, y, toX, toY)) &&
    (source.Some? ==>
      IsSource(lines, source.value.0, source.value.1) &&
      Before(source.value.0, source.value.1, toX, toY) &&
      forall x: int, y: int :: IsSource(lines, x, y) && Before(x, y, toX, toY) ==>
        !Before(source.value.0, source.value.1, x, y))
  }

  /** What `parseSparseGrid` returns for `lines`: exactly the non-'.'
      characters, each as its record; the last 'S' in reading order as the
      source; the first line's length and the line count as bounds. */
  ghost predicate Parsed(lines: seq<String>, p: SparseGrid)
    requires |lines| >= 1
  {
    (forall x: int, y: int :: (x, y) in p.grid <==> Kept(lines, x, y)) &&
    (forall x: int, y: int :: (x, y) in p.grid ==> InText(lines, x, y) && p.grid[(x, y)] == Record(lines[y][x])) &&
    (p.tachyonSource.None? <==> forall x: int, y: int :: !IsSource(lines, x, y)) &&
    (p.tachyonSource.Some? ==>
      IsSource(lines, p.tachyonSource.value.0, p.tachyonSource.value.1) &&
      forall x: int, y: int :: IsSource(lines, x, y) ==>
        !Before(p.tachyonSource.value.0, p.tachyonSource.value.1, x, y)) &&
    p.bounds == Bounds(|lines[0]| - 1, |lines| - 1)
  }

  /** Reading the character at (x, y). */
  lemma ScanStep(lines: seq<String>, grid: map<Pos, Cell>, source: Option<Pos>, x: int, y: int)
    requires InText(lines, x, y) && ScannedTo(lines, grid, source, x, y)
    ensures ScannedTo(lines,
                      if lines[y][x] != '.' then grid[(x, y) := Record(lines[y][x])] else grid,
                      if lines[y][x] == 'S' then Some((x, y)) else source,
                      x + 1, y)
  {
  }

  /** Past the end of a line comes the start of the next. */
  lemma ScanNextLine(lines: seq<String>, grid: map<Pos, Cell>, source: Option<Pos>, y: int)
    requires 0 <= y < |lines| && ScannedTo(lines, grid, source, |lines[y]|, y)
    ensures ScannedTo(lines, grid, source, 0, y + 1)
  {
  }

  lemma ScanEnd(lines: seq<String>, p: SparseGrid)
    requires |lines| >= 1 && ScannedTo(lines, p.grid, p.tachyonSource, 0, |lines|)
    requires p.bounds == Bounds(|lines[0]| - 1, |lines| - 1)
    ensures Parsed(lines, p)
  {
  }

  method ParseSparseGrid(input: String) returns (p: SparseGrid)
    ensures Parsed(Lines(input), p)
  {
    var lines := Lines(input);
    var grid: map<Pos, Cell> := map[];
    var source: Option<Pos> := None;
    for y := 0 to |lines|
      invariant ScannedTo(lines, grid, source, 0, y)
    {
      for x := 0 to |lines[y]|
        invariant ScannedTo(lines, grid, source, x, y)
      {
        ScanStep(lines, grid, source, x, y);
        if lines[y][x] != '.' {
          var record := Record(lines[y][x]);
          if record.isTachyonSource {
            source := Some((x, y));
          }
          grid := grid[(x, y) := record];
        }
      }
      ScanNextLine(lines, grid, source, y);
    }
    p := SparseGrid(grid, source, Bounds(|lines[0]| - 1, |lines| - 1));
    ScanEnd(lines, p);
  }

  // ---------------------------------------------------------------------------
  // Part 1: the beams

  function Activated(grid: map<Pos, Cell>): set<Pos>
  {
    set p | p in grid && grid[p].splitterActivated
  }

  function Unactivated(grid: map<Pos, Cell>): set<Pos>
  {
    set p | p in grid && grid[p].isSplitter && !grid[p].splitterActivated
  }

  function Splitters(grid: map<Pos, Cell>): set<Pos>
  {
    set p | p in grid && grid[p].isSplitter
  }

  /** A cell of the grid that is not a splitter. */
  ghost predicate Plain(grid: map<Pos, Cell>, p: Pos)
  {
    p in grid && !grid[p].isSplitter
  }

  /** Every activated cell is a splitter a beam touched, and the cells on
      its left and right are the plain cells its spawned beams wrote there.
      So an activated splitter is never overwritten: a splitter next to it
      would have to activate, and no splitter remains next to it. */
  ghost predicate Guarded(grid: map<Pos, Cell>)
  {
    forall p :: p in Activated(grid) ==>
      grid[p].isSplitter && grid[p].beamTouched &&
      Plain(grid, (p.0 - 1, p.1)) && Plain(grid, (p.0 + 1, p.1))
  }

  /** A beam's share of the remaining work: the rows it can still fall
      through, and 1 for a beam already below the grid. */
  function Weight(y: int, maxY: int): (w: nat)
    ensures w >= 1
  {
    if y <= maxY then maxY + 2 - y else 1
  }

  function QueueWeight(beams: seq<Pos>, maxY: int): nat
  {
    if |beams| == 0 then 0 else Weight(beams[0].1, maxY) + QueueWeight(beams[1..], maxY)
  }

  lemma {:induction false} QueueWeightAppend(a: seq<Pos>, b: seq<Pos>, maxY: int)
    ensures QueueWeight(a + b, maxY) == QueueWeight(a, maxY) + QueueWeight(b, maxY)
  {
    if |a| > 0 {
      assert (a + b)[1..] == a[1..] + b;
      QueueWeightAppend(a[1..], b, maxY);
    } else {
      assert a + b == b;
    }
  }

  lemma {:induction false} SubsetSize<T>(a: set<T>, b: set<T>)
    requires a <= b
    ensures |a| <= |b|
  {
    if a != {} {
      var x :| x in a;
      SubsetSize(a - {x}, b - {x});
    }
  }

  /** Lines 86-94 and 102 on the grid: the splitter under the beam is
      activated and the cells on its left and right are overwritten by
      plain cells. */
  function Spawned(grid: map<Pos, Cell>, beam: Pos): map<Pos, Cell>
    requires beam in grid
  {
    grid[(beam.0 - 1, beam.1) := EmptyCell(RedSquare)]
        [(beam.0 + 1, beam.1) := EmptyCell(BlueSquare)]
        [beam := grid[beam].(beamTouched := true, splitterActivated := true)]
  }

  /** An activation adds exactly its own splitter to the activated cells:
      the overwritten neighbours cannot have been activated, since a
      splitter stands next to them. */
  lemma SpawnedActivated(grid: map<Pos, Cell>, beam: Pos)
    requires Guarded(grid)
    requires beam in grid && grid[beam].isSplitter && !grid[beam].splitterActivated
    ensures Activated(Spawned(grid, beam)) == Activated(grid) + {beam}
    ensures beam !in Activated(grid)
  {
    var left, right := (beam.0 - 1, beam.1), (beam.0 + 1, beam.1);
    var grid' := Spawned(grid, beam);
    assert left !in Activated(grid);
    assert right !in Activated(grid);
    forall p | p in grid'
      ensures p in Activated(grid') <==> p in Activated(grid) || p == beam
    {
      if p != beam && p != left && p != right {
        assert grid'[p] == grid[p];
      }
    }
  }

  lemma SpawnedGuarded(grid: map<Pos, Cell>, beam: Pos)
    requires Guarded(grid)
    requires beam in grid && grid[beam].isSplitter && !grid[beam].splitterActivated
    ensures Guarded(Spawned(grid, beam))
  {
    var left, right := (beam.0 - 1, beam.1), (beam.0 + 1, beam.1);
    var grid' := Spawned(grid, beam);
    SpawnedActivated(grid, beam);
    forall p | p in Activated(grid')
      ensures grid'[p].isSplitter && grid'[p].beamTouched
      ensures Plain(grid', (p.0 - 1, p.1)) && Plain(grid', (p.0 + 1, p.1))
    {
      if p != beam {
        assert p in Activated(grid) && p != left && p != right;
        assert Plain(grid, (p.0 - 1, p.1)) && Plain(grid, (p.0 + 1, p.1));
      }
    }
  }

  lemma SpawnedSplitters(grid: map<Pos, Cell>, beam: Pos)
    requires beam in grid && grid[beam].isSplitter && !grid[beam].splitterActivated
    ensures grid.Keys <= Spawned(grid, beam).Keys
    ensures Splitters(Spawned(grid, beam)) <= Splitters(grid)
    ensures |Unactivated(Spawned(grid, beam))| < |Unactivated(grid)|
  {
    var grid' := Spawned(grid, beam);
    assert Unactivated(grid') <= Unactivated(grid) - {beam} by {
      forall p | p in Unactivated(grid') ensures p in Unactivated(grid) && p != beam {
        assert grid'[p] == grid[p];
      }
    }
    SubsetSize(Unactivated(grid'), Unactivated(grid) - {beam});
  }

  /** Lines 84-85, 95-100 and 102 on the grid: any other cell a beam
      reaches is marked touched and written back. */
  function Touched(grid: map<Pos, Cell>, beam: Pos): map<Pos, Cell>
  {
    grid[beam := (if beam in grid then grid[beam] else EmptyCell(".")).(beamTouched := true)]
  }

  /** Touching a cell that is not an unactivated splitter changes no
      splitter. */
  lemma TouchedSplitters(grid: map<Pos, Cell>, beam: Pos)
    requires Guarded(grid)
    requires !(beam in grid && grid[beam].isSplitter && !grid[beam].splitterActivated)
    ensures Guarded(Touched(grid, beam)) && grid.Keys <= Touched(grid, beam).Keys
    ensures Splitters(Touched(grid, beam)) == Splitters(grid)
    ensures Activated(Touched(grid, beam)) == Activated(grid)
    ensures Unactivated(Touched(grid, beam)) == Unactivated(grid)
  {
    assert Activated(Touched(grid, beam)) == Activated(grid);
  }

  /** Every queued beam is below the first row. */
  ghost predicate BelowTop(beams: seq<Pos>)
  {
    forall i :: 0 <= i < |beams| ==> beams[i].1 >= 1
  }

  /** The beam stands on a splitter that is not yet activated. */
  predicate Splits(grid: map<Pos, Cell>, beam: Pos)
  {
    beam in grid && grid[beam].isSplitter && !grid[beam].splitterActivated
  }

  /** The beam stands on a splitter that is already activated. */
  predicate Absorbs(grid: map<Pos, Cell>, beam: Pos)
  {
    beam in grid && grid[beam].isSplitter && grid[beam].splitterActivated
  }

  /** One turn of the beam loop (lines 79-102) as a function of the grid and
      the queue. */
  function Step(grid: map<Pos, Cell>, beams: seq<Pos>, maxY: int): (map<Pos, Cell>, seq<Pos>)
    requires |beams| > 0
  {
    var beam := beams[0];
    if beam.1 > maxY then (grid, beams[1..])
    else if Splits(grid, beam) then
      (Spawned(grid, beam), beams[1..] + [(beam.0 - 1, beam.1), (beam.0 + 1, beam.1)])
    else if Absorbs(grid, beam) then (Touched(grid, beam), beams[1..])
    else (Touched(grid, beam), beams[1..] + [(beam.0, beam.1 + 1)])
  }

  /** A turn keeps the grid guarded and the beams below the first row,
      adds no splitter, and either activates the splitter under the beam,
      leaving one fewer to activate, or changes no splitter and leaves the
      beams less far to fall. */
  lemma StepFacts(grid: map<Pos, Cell>, beams: seq<Pos>, maxY: int)
    requires |beams| > 0 && BelowTop(beams) && Guarded(grid)
    ensures BelowTop(Step(grid, beams, maxY).1) && Guarded(Step(grid, beams, maxY).0)
    ensures grid.Keys <= Step(grid, beams, maxY).0.Keys && Splitters(Step(grid, beams, maxY).0) <= Splitters(grid)
    ensures beams[0].1 <= maxY && Splits(grid, beams[0]) ==>
      beams[0] !in Activated(grid) && Activated(Step(grid, beams, maxY).0) == Activated(grid) + {beams[0]} &&
      |Unactivated(Step(grid, beams, maxY).0)| < |Unactivated(grid)|
    ensures !(beams[0].1 <= maxY && Splits(grid, beams[0])) ==>
      Activated(Step(grid, beams, maxY).0) == Activated(grid) &&
      |Unactivated(Step(grid, beams, maxY).0)| == |Unactivated(grid)| &&
      QueueWeight(Step(grid, beams, maxY).1, maxY) < QueueWeight(beams, maxY)
  {
    var beam := beams[0];
    if beam.1 > maxY {
    } else if Splits(grid, beam) {
      SpawnedActivated(grid, beam);
      SpawnedGuarded(grid, beam);
      SpawnedSplitters(grid, beam);
    } else {
      TouchedSplitters(grid, beam);
      if !Absorbs(grid, beam) {
        QueueWeightAppend(beams[1..], [(beam.0, beam.1 + 1)], maxY);
      }
    }
  }

  /** One turn of the beam loop (lines 79-102): the first beam is taken
      off the queue; a beam below the last row is dropped; a beam on an
      unactivated splitter activates it and spawns beams on the cells left
      and right of it, which it overwrites; an activated splitter absorbs
      a beam; any other cell is marked touched and passes the beam one row
      down. */
  method Advance(grid: map<Pos, Cell>, beams: seq<Pos>, maxY: int)
    returns (grid': map<Pos, Cell>, beams': seq<Pos>)
    requires |beams| > 0 && BelowTop(beams) && Guarded(grid)
    ensures beams[0].1 > maxY ==> grid' == grid && beams' == beams[1..]
    ensures beams[0].1 <= maxY && Splits(grid, beams[0]) ==>
      grid' == Spawned(grid, beams[0]) &&
      beams' == beams[1..] + [(beams[0].0 - 1, beams[0].1), (beams[0].0 + 1, beams[0].1)]
    ensures beams[0].1 <= maxY && Absorbs(grid, beams[0]) ==>
      grid' == Touched(grid, beams[0]) && beams' == beams[1..]
    ensures beams[0].1 <= maxY && !Splits(grid, beams[0]) && !Absorbs(grid, beams[0]) ==>
      grid' == Touched(grid, beams[0]) && beams' == beams[1..] + [(beams[0].0, beams[0].1 + 1)]
    ensures grid' == Step(grid, beams, maxY).0 && beams' == Step(grid, beams, maxY).1
  {
    var beam := beams[0];
    grid', beams' := grid, beams[1..];
    if beam.1 > maxY {
      return;
    }
    var cell := if beam in grid' then grid'[beam] else EmptyCell(".");
    cell := cell.(beamTouched := true);
    if cell.isSplitter && !cell.splitterActivated {
      cell := cell.(splitterActivated := true);
      var left, right := (beam.0 - 1, beam.1), (beam.0 + 1, beam.1);
      grid' := grid'[left := EmptyCell(RedSquare)][right := EmptyCell(BlueSquare)];
      beams' := beams' + [left, right];
      grid' := grid'[beam := cell];
    } else {
      if cell.isSplitter && cell.splitterActivated {
      } else {
        beams' := beams' + [(beam.0, beam.1 + 1)];
      }
      grid' := grid'[beam := cell];
    }
  }

  /** The grid once the beam loop has run to the end from `grid` with
      `beams` queued. */
  ghost function TraceFrom(grid: map<Pos, Cell>, beams: seq<Pos>, maxY: int): map<Pos, Cell>
    requires BelowTop(beams) && Guarded(grid)
    decreases |Unactivated(grid)|, QueueWeight(beams, maxY)
  {
    if |beams| == 0 then grid
    else
      StepFacts(grid, beams, maxY);
      TraceFrom(Step(grid, beams, maxY).0, Step(grid, beams, maxY).1, maxY)
  }

  /** The number of turns of that run that activate a splitter. */
  ghost function Activations(grid: map<Pos, Cell>, beams: seq<Pos>, maxY: int): nat
    requires BelowTop(beams) && Guarded(grid)
    decreases |Unactivated(grid)|, QueueWeight(beams, maxY)
  {
    if |beams| == 0 then 0
    else
      StepFacts(grid, beams, maxY);
      (if beams[0].1 <= maxY && Splits(grid, beams[0]) then 1 else 0)
      + Activations(Step(grid, beams, maxY).0, Step(grid, beams, maxY).1, maxY)
  }

  /** Running the loop from a non-empty queue is running it from the state
      after one turn. */
  lemma TraceFromStep(grid: map<Pos, Cell>, beams: seq<Pos>, maxY: int)
    requires |beams| > 0 && BelowTop(beams) && Guarded(grid)
    ensures BelowTop(Step(grid, beams, maxY).1) && Guarded(Step(grid, beams, maxY).0)
    ensures TraceFrom(grid, beams, maxY) == TraceFrom(Step(grid, beams, maxY).0, Step(grid, beams, maxY).1, maxY)
  {
    StepFacts(grid, beams, maxY);
  }

  /** The run keeps the grid guarded, keeps every cell, adds no splitter
      and loses no activated splitter. */
  lemma {:induction false} TraceFromKeeps(grid: map<Pos, Cell>, beams: seq<Pos>, maxY: int)
    requires BelowTop(beams) && Guarded(grid)
    ensures Guarded(TraceFrom(grid, beams, maxY))
    ensures grid.Keys <= TraceFrom(grid, beams, maxY).Keys
    ensures Splitters(TraceFrom(grid, beams, maxY)) <= Splitters(grid)
    ensures Activated(grid) <= Activated(TraceFrom(grid, beams, maxY))
    decreases |Unactivated(grid)|, QueueWeight(beams, maxY)
  {
    if |beams| > 0 {
      StepFacts(grid, beams, maxY);
      TraceFromStep(grid, beams, maxY);
      var next := Step(grid, beams, maxY);
      TraceFromKeeps(next.0, next.1, maxY);
    }
  }

  /** Each activating turn of the run adds exactly one activated splitter,
      so none is counted twice. */
  lemma {:induction false} TraceFromCount(grid: map<Pos, Cell>, beams: seq<Pos>, maxY: int)
    requires BelowTop(beams) && Guarded(grid)
    ensures |Activated(TraceFrom(grid, beams, maxY))| == |Activated(grid)| + Activations(grid, beams, maxY)
    decreases |Unactivated(grid)|, QueueWeight(beams, maxY)
  {
    if |beams| > 0 {
      StepFacts(grid, beams, maxY);
      TraceFromStep(grid, beams, maxY);
      var next := Step(grid, beams, maxY);
      TraceFromCount(next.0, next.1, maxY);
    }
  }

  /** The beam loop: beams fall from the cell below the source until none
      is left, and the grid is then the one `TraceFrom` describes. The loop
      ends because an activation leaves one splitter fewer to activate, and
      every other turn moves a beam one row further down or drops it. */
  method TraceBeams(grid0: map<Pos, Cell>, source: Pos, maxY: int) returns (grid: map<Pos, Cell>)
    requires 0 <= source.1
    requires Guarded(grid0)
    ensures grid == TraceFrom(grid0, [(source.0, source.1 + 1)], maxY)
  {
    grid := grid0;
    var beams: seq<Pos> := [(source.0, source.1 + 1)];
    while |beams| > 0
      invariant BelowTop(beams) && Guarded(grid)
      invariant TraceFrom(grid, beams, maxY) == TraceFrom(grid0, [(source.0, source.1 + 1)], maxY)
      decreases |Unactivated(grid)|, QueueWeight(beams, maxY)
    {
      ghost var grid1, beams1 := grid, beams;
      grid, beams := Advance(grid, beams, maxY);
      StepFacts(grid1, beams1, maxY);
      TraceFromStep(grid1, beams1, maxY);
    }
  }

  /** Line 109: the cells whose splitter is activated. */
  function ActivatedCount(grid: map<Pos, Cell>): (n: nat)
    ensures n == |Activated(grid)|
  {
    |Activated(grid)|
  }

  /** A parsed grid has no activated splitter, and so is guarded. */
  lemma ParsedUnactivated(lines: seq<String>, p: SparseGrid)
    requires |lines| >= 1 && Parsed(lines, p)
    ensures Activated(p.grid) == {} && Guarded(p.grid)
  {
    forall q | q in p.grid ensures !p.grid[q].splitterActivated {
      var x, y := q.0, q.1;
      assert q == (x, y);
      assert p.grid[(x, y)] == Record(lines[y][x]);
    }
  }

  /** From a grid without activated splitters, the run activates each
      splitter at most once: the count of activations is the number of
      activated splitters, at most the number of splitters. */
  lemma ActivationsBound(grid: map<Pos, Cell>, beams: seq<Pos>, maxY: int)
    requires BelowTop(beams) && Guarded(grid) && Activated(grid) == {}
    ensures |Activated(TraceFrom(grid, beams, maxY))| == Activations(grid, beams, maxY)
    ensures Activations(grid, beams, maxY) <= |Splitters(grid)|
  {
    TraceFromKeeps(grid, beams, maxY);
    TraceFromCount(grid, beams, maxY);
    var T := TraceFrom(grid, beams, maxY);
    assert Activated(T) <= Splitters(grid);
    SubsetSize(Activated(T), Splitters(grid));
  }

  /** Part 1. Without an 'S' the source's beam starts at undefined
      coordinates and is never dropped, so its loop never ends; the model
      reports that input as an error. `activations` is the number of times
      a splitter was activated: the answer is that number, so no splitter
      is counted twice and none is lost, and it is at most the number of
      splitters in the diagram. */
  method SolveForFirstStar(input: String) returns (p: SparseGrid, r: Result<nat, String>, ghost activations: nat)
    ensures Parsed(Lines(input), p)
    ensures r.Ok? <==> p.tachyonSource.Some?
    ensures r.Ok? ==> r.value == activations && r.value <= |Splitters(p.grid)|
    ensures r.Ok? ==>
      Guarded(p.grid) && 0 <= p.tachyonSource.value.1 &&
      r.value == |Activated(TraceFrom(p.grid, [(p.tachyonSource.value.0, p.tachyonSource.value.1 + 1)], p.bounds.maxY))|
  {
    p := ParseSparseGrid(input);
    activations := 0;
    if p.tachyonSource.None? {
      return p, Err("no tachyon source"), activations;
    }
    ParsedUnactivated(Lines(input), p);
    var source := p.tachyonSource.value;
    var grid := TraceBeams(p.grid, source, p.bounds.maxY);
    activations := Activations(p.grid, [(source.0, source.1 + 1)], p.bounds.maxY);
    ActivationsBound(p.grid, [(source.0, source.1 + 1)], p.bounds.maxY);
    r := Ok(ActivatedCount(grid));
  }

  // ---------------------------------------------------------------------------
  // Part 2: the timelines

  /** `countTimelines(x, y)` without its memo: one timeline below the last
      row; a splitter adds the timelines of the cells down-left and
      down-right; any other cell passes on those of the cell below. */
  function Timelines(grid: map<Pos, Cell>, maxY: int, x: int, y: int): (n: nat)
    ensures n >= 1
    decreases maxY + 1 - y
  {
    if y > maxY then 1
    else if (x, y) in grid && grid[(x, y)].isSplitter then
      Timelines(grid, maxY, x - 1, y + 1) + Timelines(grid, maxY, x + 1, y + 1)
    else Timelines(grid, maxY, x, y + 1)
  }

  /** Each row can at most double the timelines. */
  lemma {:induction false} TimelinesAtMostDoubling(grid: map<Pos, Cell>, maxY: int, x: int, y: int)
    ensures Timelines(grid, maxY, x, y) <= Bits.Pow2(if y > maxY then 0 else maxY + 1 - y)
    decreases maxY + 1 - y
  {
    if y <= maxY {
      TimelinesAtMostDoubling(grid, maxY, x - 1, y + 1);
      TimelinesAtMostDoubling(grid, maxY, x + 1, y + 1);
      TimelinesAtMostDoubling(grid, maxY, x, y + 1);
    }
  }

  /** A grid without splitters has a single timeline. */
  lemma {:induction false} SingleTimeline(grid: map<Pos, Cell>, maxY: int, x: int, y: int)
    requires Splitters(grid) == {}
    ensures Timelines(grid, maxY, x, y) == 1
    decreases maxY + 1 - y
  {
    if y <= maxY {
      assert (x, y) !in Splitters(grid);
      SingleTimeline(grid, maxY, x, y + 1);
    }
  }

  /** Every memo entry holds the count of its cell. */
  ghost predicate MemoSound(grid: map<Pos, Cell>, maxY: int, memo: map<Pos, nat>)
  {
    forall p :: p in memo ==> memo[p] == Timelines(grid, maxY, p.0, p.1)
  }

  /** `countTimelines` with its memo passed in and handed back: the memo
      changes no answer, keeps its entries and only ever holds true
      counts. */
  method CountTimelines(grid: map<Pos, Cell>, maxY: int, x: int, y: int, memo: map<Pos, nat>)
    returns (count: nat, memo': map<Pos, nat>)
    requires MemoSound(grid, maxY, memo)
    ensures count == Timelines(grid, maxY, x, y)
    ensures MemoSound(grid, maxY, memo') && memo.Keys <= memo'.Keys
    decreases maxY + 1 - y
  {
    if y > maxY {
      return 1, memo;
    }
    if (x, y) in memo {
      return memo[(x, y)], memo;
    }
    if (x, y) in grid && grid[(x, y)].isSplitter {
      var left, right;
      left, memo' := CountTimelines(grid, maxY, x - 1, y + 1, memo);
      right, memo' := CountTimelines(grid, maxY, x + 1, y + 1, memo');
      count := left + right;
    } else {
      count, memo' := CountTimelines(grid, maxY, x, y + 1, memo);
    }
    memo' := memo'[(x, y) := count];
  }

  /** Part 2: the timelines of a beam starting below the source. Without an
      'S' the source recurses on the same undefined cell until its stack
      overflows; the model reports that input as an error. */
  method SolveForSecondStar(input: String) returns (p: SparseGrid, r: Result<nat, String>)
    ensures Parsed(Lines(input), p)
    ensures r.Ok? <==> p.tachyonSource.Some?
    ensures r.Ok? ==>
      r.value >= 1 &&
      r.value == Timelines(p.grid, p.bounds.maxY, p.tachyonSource.value.0, p.tachyonSource.value.1 + 1)
  {
    p := ParseSparseGrid(input);
    if p.tachyonSource.None? {
      return p, Err("no tachyon source");
    }
    var source := p.tachyonSource.value;
    var count, _ := CountTimelines(p.grid, p.bounds.maxY, source.0, source.1 + 1, map[]);
    r := Ok(count);
  }
}
