/** `parsePresentList` of solutions/day12/solution.js: blank-line separated
    sections, every section but the last a numbered 3x3 shape drawn with '#',
    the last one region lines `WxH: q0 q1 ...`. */
module PresentParse {
  import opened Wrappers
  import opened Bits
  import opened Text
  import opened PresentShapes
  import opened PresentPlacements
  import opened PresentRegions

  datatype Presents = Presents(shapes: seq<Shape>, regions: seq<Region>)

  /** `section.split('\n').map(trim).filter(nonEmpty).slice(1)`: the drawing,
      without the `k:` heading line. */
  function ShapeLines(section: String): seq<String>
  {
    var lines := TrimmedNonEmpty(section, "\n");
    Slice(lines, 1, |lines|)
  }

  /** '#' is a filled cell (1), every other character an empty one (0). */
  function MaskRow(line: String): (row: seq<int>)
    ensures |row| == |line| && forall x :: 0 <= x < |line| ==> (row[x] == 1 <==> line[x] == '#')
    ensures forall x :: 0 <= x < |line| ==> row[x] == 0 || row[x] == 1
  {
    seq(|line|, x requires 0 <= x < |line| => if line[x] == '#' then 1 else 0)
  }

  function MaskMatrix(lines: seq<String>): (m: Matrix)
    ensures |m| == |lines| && forall y :: 0 <= y < |lines| ==> m[y] == MaskRow(lines[y])
  {
    seq(|lines|, y requires 0 <= y < |lines| => MaskRow(lines[y]))
  }

  /** The 0/1 matrix a section draws. */
  function Drawing(section: String): Matrix
  {
    MaskMatrix(ShapeLines(section))
  }

  /** A section draws a shape when its drawing is three lines of three. */
  predicate ShapeSectionOk(section: String)
  {
    IsShapeMatrix(Drawing(section))
  }

  /** The bit `3*y + x` is set exactly for a '#' at column `x` of drawing line `y`. */
  lemma ShapeSectionMask(section: String, i: nat)
    requires ShapeSectionOk(section)
    ensures var lines := ShapeLines(section);
            Bit(RowsMask(MaskMatrix(lines)), i) <==> i < 9 && lines[i / 3][i % 3] == '#'
  {
    BitOfShapeMask(MaskMatrix(ShapeLines(section)), i);
  }

  /** One shape from its drawing: its mask, its distinct variants, and the
      cell count of the first variant as its area. */
  method ParseShapeDrawing(matrix: Matrix, shapeId: nat) returns (r: Result<Shape, string>)
    ensures r.Ok? <==> IsShapeMatrix(matrix)
    ensures r.Ok? ==>
              var shape := r.value;
              ParsedDrawing(matrix, shapeId, shape) && shape.bitmask < Pow2(9)
              && |shape.variants| == |Dedup(OrbitSequence(shape.bitmask))|
              && (forall i :: 0 <= i < |shape.variants| ==>
                    shape.variants[i].bitmask == Dedup(OrbitSequence(shape.bitmask))[i]
                    && |shape.variants[i].cells| == shape.area
                    && shape.variants[i].width <= 3 && shape.variants[i].height <= 3)
  {
    var encoded := EncodeMatrixToBitmask(matrix);
    if encoded.Err? {
      return Err(encoded.error);
    }
    var bitmask := encoded.value;
    var variants := GetShapeVariants(bitmask);
    VariantMasks(bitmask);
    var shape := Shape(shapeId, bitmask, variants, |variants[0].cells|);
    assert shape.area == PopCount(bitmask, 9);
    assert NormalizedShape(shape);
    return Ok(shape);
  }

  /** `Number(s)` when it is a whole number that is not negative. */
  function Count(s: String): (r: Option<nat>)
    ensures r.Some? <==> Number(s).Some? && Number(s).value >= 0
    ensures r.Some? ==> r.value as int == Number(s).value
  {
    match Number(s)
    case Some(n) => if n >= 0 then Some(n as nat) else None
    case None => None
  }

  /** `quantitiesStr.trim().split(' ').map(Number)`, the `k`-th count paired
      with shape `k`. */
  function ParseQuantities(tokens: seq<String>, shapes: seq<Shape>): (r: Result<seq<Quantity>, string>)
    ensures r.Ok? <==> |tokens| <= |shapes| && forall k :: 0 <= k < |tokens| ==> Count(tokens[k]).Some?
    ensures r.Ok? ==>
              |r.value| == |tokens|
              && forall k :: 0 <= k < |tokens| ==> r.value[k] == Quantity(shapes[k], Count(tokens[k]).value)
  {
    if |tokens| > |shapes| then Err("quantity for an undefined shape")
    else if exists k :: 0 <= k < |tokens| && Count(tokens[k]).None? then Err("quantity is not a count")
    else Ok(seq(|tokens|, k requires 0 <= k < |tokens| => Quantity(shapes[k], Count(tokens[k]).value)))
  }

  /** The fields of a region line: `line.split(':').map(trim)`, then the
      dimensions split on 'x' and the counts split on single spaces. */
  function RegionFields(line: String): Option<(seq<String>, seq<String>)>
  {
    var parts := Split(line, ":");
    if |parts| < 2 then None
    else Some((Split(Trim(parts[0]), "x"), Split(Trim(Trim(parts[1])), " ")))
  }

  /** The fields of a region line that parse against `shapeCount` shapes. */
  predicate RegionFieldsOk(dims: seq<String>, tokens: seq<String>, shapeCount: nat)
  {
    |dims| >= 2 && Count(dims[0]).Some? && Count(dims[1]).Some?
    && |tokens| <= shapeCount && forall k :: 0 <= k < |tokens| ==> Count(tokens[k]).Some?
  }

  /** A region line that parses against `shapeCount` shapes. */
  predicate RegionLineOk(line: String, shapeCount: nat)
  {
    RegionFields(line).Some? && RegionFieldsOk(RegionFields(line).value.0, RegionFields(line).value.1, shapeCount)
  }

  /** A region from its dimension fields and its count fields. A missing
      height, and a width, height or count that is not a whole number, are
      errors; so is a count for a shape that was not defined. */
  function ParseRegionFields(dims: seq<String>, tokens: seq<String>, regionId: nat, shapes: seq<Shape>): (r: Result<Region, string>)
    ensures r.Ok? <==> RegionFieldsOk(dims, tokens, |shapes|)
    ensures r.Ok? ==>
              r.value == Region(regionId, Count(dims[0]).value, Count(dims[1]).value, ParseQuantities(tokens, shapes).value)
  {
    if |dims| < 2 then Err("region has no height")
    else
      var width := Count(dims[0]);
      var height := Count(dims[1]);
      if width.None? || height.None? then Err("region size is not a whole number")
      else
        var quantities := ParseQuantities(tokens, shapes);
        if quantities.Err? then Err(quantities.error)
        else Ok(Region(regionId, width.value, height.value, quantities.value))
  }

  /** One region line; a line without ':' is an error. */
  function ParseRegionLine(line: String, regionId: nat, shapes: seq<Shape>): (r: Result<Region, string>)
    ensures r.Ok? <==> RegionLineOk(line, |shapes|)
    ensures r.Ok? ==>
              var fields := RegionFields(line).value;
              r.value == Region(regionId, Count(fields.0[0]).value, Count(fields.0[1]).value,
                                ParseQuantities(fields.1, shapes).value)
  {
    var fields := RegionFields(line);
    if fields.None? then Err("region line has no ':'")
    else ParseRegionFields(fields.value.0, fields.value.1, regionId, shapes)
  }

  /** The sections of the input: split on blank lines, trimmed, empty ones dropped. */
  function Sections(input: String): seq<String>
  {
    TrimmedNonEmpty(input, "\n\n")
  }

  /** The region lines: the last section's non-empty trimmed lines. */
  function RegionSectionLines(sections: seq<String>): seq<String>
    requires |sections| > 0
  {
    TrimmedNonEmpty(sections[|sections| - 1], "\n")
  }


  /** What the parser promises about shape `i`, read from `matrix`. */
  predicate ParsedDrawing(matrix: Matrix, i: nat, shape: Shape)
  {
    IsShapeMatrix(matrix) && shape.shapeId == i
    && shape.bitmask == RowsMask(matrix)
    && NormalizedShape(shape) && 1 <= |shape.variants| <= 8
    && shape.area == PopCount(shape.bitmask, 9)
  }

  /** What the parser promises about shape `i`, read from `section`. */
  predicate ParsedShape(section: String, i: nat, shape: Shape)
  {
    ParsedDrawing(Drawing(section), i, shape)
  }

  /** The first `n` sections are valid shape drawings. */
  predicate ShapeSectionsOk(sections: seq<String>, n: nat)
  {
    n <= |sections| && forall i :: 0 <= i < n ==> ShapeSectionOk(sections[i])
  }

  /** Shape `i` was parsed from section `i`. */
  predicate ParsedShapes(sections: seq<String>, shapes: seq<Shape>)
  {
    |shapes| <= |sections| && forall i :: 0 <= i < |shapes| ==> ParsedShape(sections[i], i, shapes[i])
  }

  /** Every region line parses against `shapeCount` shapes. */
  predicate RegionLinesOk(lines: seq<String>, shapeCount: nat)
  {
    forall k :: 0 <= k < |lines| ==> RegionLineOk(lines[k], shapeCount)
  }

  /** Region `k` was parsed from line `k`. */
  predicate ParsedRegions(lines: seq<String>, shapes: seq<Shape>, regions: seq<Region>)
  {
    |regions| == |lines| && forall k :: 0 <= k < |lines| ==> ParseRegionLine(lines[k], k, shapes) == Ok(regions[k])
  }

  /** `sections.slice(0, -1).map(...)`, on the sections' drawings: one shape
      per drawing, numbered in order. */
  method ParseShapes(drawings: seq<Matrix>) returns (r: Result<seq<Shape>, string>)
    ensures r.Ok? <==> forall i :: 0 <= i < |drawings| ==> IsShapeMatrix(drawings[i])
    ensures r.Ok? ==> |r.value| == |drawings| && forall i :: 0 <= i < |drawings| ==> ParsedDrawing(drawings[i], i, r.value[i])
  {
    var shapes: seq<Shape> := [];
    var i := 0;
    while i < |drawings|
      invariant 0 <= i <= |drawings| && |shapes| == i
      invariant forall j :: 0 <= j < i ==> ParsedDrawing(drawings[j], j, shapes[j])
    {
      var shape := ParseShapeDrawing(drawings[i], i);
      if shape.Err? {
        return Err(shape.error);
      }
      ghost var before := shapes;
      shapes := shapes + [shape.value];
      forall j | 0 <= j < i + 1 ensures ParsedDrawing(drawings[j], j, shapes[j]) {
        if j < i {
          assert shapes[j] == before[j];
        }
      }
      i := i + 1;
    }
    return Ok(shapes);
  }

  /** `regionLines.map(...)`: one region per line, numbered in order. */
  method ParseRegions(lines: seq<String>, shapes: seq<Shape>) returns (r: Result<seq<Region>, string>)
    ensures r.Ok? <==> RegionLinesOk(lines, |shapes|)
    ensures r.Ok? ==> ParsedRegions(lines, shapes, r.value)
  {
    var regions: seq<Region> := [];
    var k := 0;
    while k < |lines|
      invariant 0 <= k <= |lines| && |regions| == k
      invariant forall j :: 0 <= j < k ==> ParseRegionLine(lines[j], j, shapes) == Ok(regions[j])
      invariant forall j :: 0 <= j < k ==> RegionLineOk(lines[j], |shapes|)
    {
      var region := ParseRegionLine(lines[k], k, shapes);
      if region.Err? {
        return Err(region.error);
      }
      ghost var before := regions;
      regions := regions + [region.value];
      forall j | 0 <= j < k + 1 ensures ParseRegionLine(lines[j], j, shapes) == Ok(regions[j]) {
        if j < k {
          assert regions[j] == before[j];
        }
      }
      k := k + 1;
    }
    return Ok(regions);
  }

  /** `parsePresentList`. Shape `i` is the `i`-th section and region `k` the
      `k`-th line of the last section; any quantity `j` refers to shape `j`.
      An input without sections, a shape that is not 3x3 and a malformed
      region line are errors (the source throws on the first two, and
      builds a region with `NaN` or `undefined` fields on the third). */
  method ParsePresentList(input: String) returns (r: Result<Presents, string>)
    ensures r.Ok? <==>
              var sections := Sections(input);
              |sections| > 0 && ShapeSectionsOk(sections, |sections| - 1)
              && RegionLinesOk(RegionSectionLines(sections), |sections| - 1)
    ensures r.Ok? ==>
              var sections := Sections(input);
              |sections| > 0 && |r.value.shapes| == |sections| - 1
              && ParsedShapes(sections, r.value.shapes)
              && ParsedRegions(RegionSectionLines(sections), r.value.shapes, r.value.regions)
  {
    r := ParseSections(Sections(input));
  }

  /** The body of `parsePresentList`, on the sections of its input. */
  method ParseSections(sections: seq<String>) returns (r: Result<Presents, string>)
    ensures r.Ok? <==>
              |sections| > 0 && ShapeSectionsOk(sections, |sections| - 1)
              && RegionLinesOk(RegionSectionLines(sections), |sections| - 1)
    ensures r.Ok? ==>
              |sections| > 0 && |r.value.shapes| == |sections| - 1
              && ParsedShapes(sections, r.value.shapes)
              && ParsedRegions(RegionSectionLines(sections), r.value.shapes, r.value.regions)
  {
    if |sections| == 0 {
      return Err("input has no sections");
    }
    var shapes := ParseShapeSections(sections, |sections| - 1);
    if shapes.Err? {
      return Err(shapes.error);
    }
    var lines := RegionSectionLines(sections);
    var regions := ParseRegions(lines, shapes.value);
    if regions.Err? {
      return Err(regions.error);
    }
    return Ok(Presents(shapes.value, regions.value));
  }

  /** The shapes of the first `n` sections. */
  method ParseShapeSections(sections: seq<String>, n: nat) returns (r: Result<seq<Shape>, string>)
    requires n <= |sections|
    ensures r.Ok? <==> ShapeSectionsOk(sections, n)
    ensures r.Ok? ==> |r.value| == n && ParsedShapes(sections, r.value)
  {
    var drawings := seq(n, i requires 0 <= i < n => Drawing(sections[i]));
    r := ParseShapes(drawings);
    if r.Err? {
      var i :| 0 <= i < n && !IsShapeMatrix(drawings[i]);
      assert !ShapeSectionOk(sections[i]);
    } else {
      forall i | 0 <= i < n ensures ShapeSectionOk(sections[i]) && ParsedShape(sections[i], i, r.value[i]) {
        assert drawings[i] == Drawing(sections[i]);
      }
    }
  }
}
