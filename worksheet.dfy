/** The cephalopod math worksheet of day 6 (solutions/day6/solution.js):
    rows of numbers above a row of operators, one exercise per column.
    Part 1 reads each column's numbers top to bottom; part 2 pads each
    column's numbers to a common width and reads them digit column by digit
    column. A number that is `NaN`, or a missing cell (`undefined`), is
    `None`; `+` and `*` with it give `None`. */
module Worksheet {
  import opened Wrappers
  import opened Text

  type Num = Option<int>

  /** The two entries of `opMap`. */
  datatype Op = Add | Mul

  datatype Exercise = Exercise(values: seq<Num>, operation: Op, total: Num)

  datatype Sheet = Sheet(exercises: seq<Exercise>, grandTotal: Num)

  /** `opMap[text]`; any other text has no entry there. */
  function OpOf(text: String): (op: Option<Op>)
    ensures op == Some(Add) <==> text == "+"
    ensures op == Some(Mul) <==> text == "*"
  {
    if text == "+" then Some(Add) else if text == "*" then Some(Mul) else None
  }

  /** `addOp` and `mulOp`. */
  function Apply(op: Op, a: Num, b: Num): Num
  {
    if a.Some? && b.Some? then Some(if op == Add then a.value + b.value else a.value * b.value) else None
  }

  /** The seed of an exercise's `reduce`: 0 for '+', 1 otherwise. */
  function Identity(op: Op): int
  {
    if op == Add then 0 else 1
  }

  // ---------------------------------------------------------------------------
  // Totals

  /** `values.reduce(opFn, acc)`: a left fold. */
  function FoldFrom(values: seq<Num>, acc: Num, op: Op): Num
  {
    if |values| == 0 then acc else FoldFrom(values[1..], Apply(op, acc, values[0]), op)
  }

  /** Lines 34 and 108: an exercise's total. */
  function Total(values: seq<Num>, op: Op): Num
  {
    FoldFrom(values, Some(Identity(op)), op)
  }

  predicate AllNumbers(values: seq<Num>)
  {
    forall k :: 0 <= k < |values| ==> values[k].Some?
  }

  function Sum(values: seq<Num>): int
    requires AllNumbers(values)
  {
    if |values| == 0 then 0 else values[0].value + Sum(values[1..])
  }

  function Product(values: seq<Num>): int
    requires AllNumbers(values)
  {
    if |values| == 0 then 1 else values[0].value * Product(values[1..])
  }

  /** Folding numbers from `a` combines `a` with their sum or product. */
  lemma {:induction false} FoldOfNumbers(values: seq<Num>, a: int, op: Op)
    requires AllNumbers(values)
    ensures FoldFrom(values, Some(a), op) ==
      Some(if op == Add then a + Sum(values) else a * Product(values))
  {
    if |values| > 0 {
      var x := values[0].value;
      FoldOfNumbers(values[1..], Apply(op, Some(a), Some(x)).value, op);
      if op == Mul {
        assert (a * x) * Product(values[1..]) == a * (x * Product(values[1..]));
      }
    }
  }

  /** Once the accumulator is not a number it stays so. */
  lemma {:induction false} FoldOfNotANumber(values: seq<Num>, op: Op)
    ensures FoldFrom(values, None, op) == None
  {
    if |values| > 0 {
      FoldOfNotANumber(values[1..], op);
    }
  }

  /** A value that is not a number makes the whole fold not a number. */
  lemma {:induction false} FoldPoisoned(values: seq<Num>, acc: Num, op: Op, k: int)
    requires 0 <= k < |values| && values[k].None?
    ensures FoldFrom(values, acc, op) == None
  {
    if k == 0 {
      FoldOfNotANumber(values[1..], op);
    } else {
      FoldPoisoned(values[1..], Apply(op, acc, values[0]), op, k - 1);
    }
  }

  /** An exercise's total is the sum of its numbers for '+' and their
      product for '*', and not a number as soon as one value is not. */
  lemma TotalMeaning(values: seq<Num>, op: Op)
    ensures AllNumbers(values) ==>
      Total(values, op) == Some(if op == Add then Sum(values) else Product(values))
    ensures !AllNumbers(values) ==> Total(values, op) == None
  {
    if AllNumbers(values) {
      FoldOfNumbers(values, Identity(op), op);
    } else {
      var k :| 0 <= k < |values| && values[k].None?;
      FoldPoisoned(values, Some(Identity(op)), op, k);
    }
  }

  function Totals(exercises: seq<Exercise>): (totals: seq<Num>)
    ensures |totals| == |exercises|
    ensures forall k :: 0 <= k < |exercises| ==> totals[k] == exercises[k].total
  {
    seq(|exercises|, k requires 0 <= k < |exercises| => exercises[k].total)
  }

  /** Lines 40 and 114: the exercises' totals added up from 0. */
  function GrandTotal(exercises: seq<Exercise>): Num
  {
    FoldFrom(Totals(exercises), Some(0), Add)
  }

  /** The grand total is the sum of the totals when they are all numbers. */
  lemma GrandTotalMeaning(exercises: seq<Exercise>)
    ensures AllNumbers(Totals(exercises)) ==> GrandTotal(exercises) == Some(Sum(Totals(exercises)))
    ensures !AllNumbers(Totals(exercises)) ==> GrandTotal(exercises) == None
  {
    TotalMeaning(Totals(exercises), Add);
  }

  // ---------------------------------------------------------------------------
  // Layout

  /** The rows of numbers and the row of operator texts: the trimmed
      non-blank lines, all but the last split on white space into numbers,
      the last split into texts. The source throws when there is no line
      (`undefined.split`) and when there is no row of numbers
      (`undefined.map`). */
  datatype Layout = Layout(data: seq<seq<Num>>, operations: seq<String>)

  function Numbers(line: String): (row: seq<Num>)
    ensures |row| == |SplitWhitespace(line)|
    ensures forall k :: 0 <= k < |row| ==> row[k] == Number(SplitWhitespace(line)[k])
  {
    var words := SplitWhitespace(line);
    seq(|words|, k requires 0 <= k < |words| => Number(words[k]))
  }

  function ParseLayout(input: String): (r: Result<Layout, String>)
    ensures r.Ok? <==> |TrimmedNonEmpty(input, "\n")| >= 2
    ensures r.Ok? ==>
      var lines := TrimmedNonEmpty(input, "\n");
      |r.value.data| == |lines| - 1 >= 1 &&
      (forall k :: 0 <= k < |lines| - 1 ==> r.value.data[k] == Numbers(lines[k])) &&
      r.value.operations == SplitWhitespace(lines[|lines| - 1])
  {
    var lines := TrimmedNonEmpty(input, "\n");
    if |lines| == 0 then Err("no operator row")
    else if |lines| == 1 then Err("no row of numbers")
    else
      var data := seq(|lines| - 1, k requires 0 <= k < |lines| - 1 => Numbers(lines[k]));
      Ok(Layout(data, SplitWhitespace(lines[|lines| - 1])))
  }

  /** `data.map(row => row[col])`: one cell per row, top to bottom, `None`
      where a row is too short. */
  function Column(data: seq<seq<Num>>, col: nat): (cells: seq<Num>)
    ensures |cells| == |data|
    ensures forall r :: 0 <= r < |data| ==> cells[r] == if col < |data[r]| then data[r][col] else None
  {
    seq(|data|, r requires 0 <= r < |data| => if col < |data[r]| then data[r][col] else None)
  }

  /** `opMap[operations[col]]`, absent past the last operator. */
  function OperatorOf(layout: Layout, col: nat): Option<Op>
  {
    if col < |layout.operations| then OpOf(layout.operations[col]) else None
  }

  /** Every column of the first row has an operator. (The source throws
      otherwise: the `reduce` is given `undefined`.) */
  predicate Operated(layout: Layout)
    requires |layout.data| > 0
  {
    forall col :: 0 <= col < |layout.data[0]| ==> OperatorOf(layout, col).Some?
  }

  // ---------------------------------------------------------------------------
  // Part 1

  /** `parseWorksheet`: one exercise per column of the first row of
      numbers, its values that column's cells from top to bottom. */
  function ParseWorksheet(input: String): (r: Result<Sheet, String>)
    ensures r.Ok? <==> ParseLayout(input).Ok? && Operated(ParseLayout(input).value)
    ensures r.Ok? ==>
      var layout := ParseLayout(input).value;
      |r.value.exercises| == |layout.data[0]| &&
      (forall col :: 0 <= col < |layout.data[0]| ==>
        |r.value.exercises[col].values| == |layout.data| &&
        (forall row :: 0 <= row < |layout.data| ==>
          r.value.exercises[col].values[row] ==
            if col < |layout.data[row]| then layout.data[row][col] else None) &&
        Some(r.value.exercises[col].operation) == OperatorOf(layout, col) &&
        r.value.exercises[col].total == Total(r.value.exercises[col].values, r.value.exercises[col].operation)) &&
      r.value.grandTotal == GrandTotal(r.value.exercises)
  {
    var layout :- ParseLayout(input);
    if !Operated(layout) then Err("opMap has no such operation")
    else
      var columns := |layout.data[0]|;
      var exercises := seq(columns, col requires 0 <= col < columns && Operated(layout) =>
        var op := OperatorOf(layout, col).value;
        var values := Column(layout.data, col);
        Exercise(values, op, Total(values, op)));
      Ok(Sheet(exercises, GrandTotal(exercises)))
  }

  // ---------------------------------------------------------------------------
  // Padding

  function Repeat(c: char, n: nat): (s: String)
    ensures |s| == n && forall k :: 0 <= k < n ==> s[k] == c
  {
    if n == 0 then [] else [c] + Repeat(c, n - 1)
  }

  /** `str` behind enough `padChar`s to be `length` long. */
  function LeftPadded(str: String, length: int, padChar: char): (r: String)
    ensures |r| == if |str| < length then length else |str|
    decreases length - |str|
  {
    if |str| < length then LeftPadded([padChar] + str, length, padChar) else str
  }

  /** Left padding puts `length - |str|` copies of `padChar` in front. */
  lemma {:induction false} LeftPaddedShape(str: String, length: int, padChar: char)
    ensures LeftPadded(str, length, padChar) ==
      if |str| < length then Repeat(padChar, length - |str|) + str else str
    decreases length - |str|
  {
    if |str| < length {
      var n := length - |str| - 1;
      LeftPaddedShape([padChar] + str, length, padChar);
      RepeatSnoc(padChar, n);
      assert Repeat(padChar, n) + ([padChar] + str) == (Repeat(padChar, n) + [padChar]) + str;
    }
  }

  /** `str` before enough `padChar`s to be `length` long. */
  function RightPadded(str: String, length: int, padChar: char): (r: String)
    ensures |r| == if |str| < length then length else |str|
    decreases length - |str|
  {
    if |str| < length then RightPadded(str + [padChar], length, padChar) else str
  }

  /** Right padding puts `length - |str|` copies of `padChar` behind. */
  lemma {:induction false} RightPaddedShape(str: String, length: int, padChar: char)
    ensures RightPadded(str, length, padChar) ==
      if |str| < length then str + Repeat(padChar, length - |str|) else str
    decreases length - |str|
  {
    if |str| < length {
      var n := length - |str| - 1;
      RightPaddedShape(str + [padChar], length, padChar);
      assert (str + [padChar]) + Repeat(padChar, n) == str + ([padChar] + Repeat(padChar, n));
    }
  }

  /** `leftPadString`: one `padChar` in front at a time. */
  method LeftPadString(str: String, length: int, padChar: char) returns (r: String)
    ensures r == LeftPadded(str, length, padChar)
  {
    r := str;
    while |r| < length
      invariant LeftPadded(r, length, padChar) == LeftPadded(str, length, padChar)
      decreases length - |r|
    {
      r := [padChar] + r;
    }
  }

  /** `rightPadString`: one `padChar` behind at a time. */
  method RightPadString(str: String, length: int, padChar: char) returns (r: String)
    ensures r == RightPadded(str, length, padChar)
  {
    r := str;
    while |r| < length
      invariant RightPadded(r, length, padChar) == RightPadded(str, length, padChar)
      decreases length - |r|
    {
      r := r + [padChar];
    }
  }

  lemma {:induction false} RepeatSnoc(c: char, n: nat)
    ensures Repeat(c, n) + [c] == Repeat(c, n + 1)
  {
    if n > 0 {
      RepeatSnoc(c, n - 1);
      assert [c] + (Repeat(c, n - 1) + [c]) == ([c] + Repeat(c, n - 1)) + [c];
    }
  }

  // ---------------------------------------------------------------------------
  // Part 2

  /** A column's number text padded for `op`: '*' columns to the right
      (left-padded), all others to the left (right-padded). */
  function Padded(op: Op, text: String, width: int): (s: String)
    ensures |s| >= width && |s| >= |text|
  {
    if op == Mul then LeftPadded(text, width, ' ') else RightPadded(text, width, ' ')
  }

  function MaxOf(items: seq<int>): (m: int)
    requires |items| > 0
    ensures forall k :: 0 <= k < |items| ==> items[k] <= m
    ensures exists k :: 0 <= k < |items| && items[k] == m
  {
    if |items| == 1 then items[0]
    else
      var rest := MaxOf(items[1..]);
      assert forall k :: 1 <= k < |items| ==> items[k] == items[1..][k - 1];
      if items[0] >= rest then items[0] else rest
  }

  /** `toString()` of a cell: its digits, or "NaN". */
  function NumText(n: Num): String
  {
    if n.Some? then IntToString(n.value) else "NaN"
  }

  /** `Math.max(...rows)` over a column of cells: `NaN` as soon as one cell
      is `NaN`, otherwise the largest number. */
  function MaxCell(cells: seq<Num>): (m: Num)
    requires |cells| > 0
    ensures m.Some? <==> Numeric(cells)
    ensures m.Some? ==> (forall r :: 0 <= r < |cells| ==> cells[r].value <= m.value)
                        && exists r :: 0 <= r < |cells| && cells[r] == m
  {
    if Numeric(cells) then
      var items := Items(cells);
      var m := MaxOf(items);
      assert exists k :: 0 <= k < |items| && items[k] == m;
      Some(m)
    else None
  }

  /** `largestVal`: the length of the text of the column's maximum, which is
      that of "NaN" when a cell is `NaN`. */
  function Width(cells: seq<Num>): (w: nat)
    requires |cells| > 0
    ensures w >= 1
    ensures !Numeric(cells) ==> w == 3
    ensures Numeric(cells) ==> w == |IntToString(MaxCell(cells).value)|
    ensures Numeric(cells) ==> exists r :: 0 <= r < |cells| && w == |IntToString(cells[r].value)|
  {
    var m := MaxCell(cells);
    if m.Some? then |IntToString(m.value)| else |NumText(m)|
  }

  /** `item.toString()` for each cell of a column. */
  function ItemTexts(cells: seq<Num>): (texts: seq<String>)
    ensures |texts| == |cells| && forall r :: 0 <= r < |cells| ==> texts[r] == NumText(cells[r])
  {
    seq(|cells|, r requires 0 <= r < |cells| => NumText(cells[r]))
  }

  /** The texts of a column, each padded for `op` to `width`. */
  function PaddedItems(op: Op, texts: seq<String>, width: int): (padded: seq<String>)
    ensures |padded| == |texts| && forall r :: 0 <= r < |padded| ==> |padded[r]| >= width
  {
    seq(|texts|, r requires 0 <= r < |texts| => Padded(op, texts[r], width))
  }

  /** The `index`-th characters of `texts`, top to bottom. */
  function CharColumn(texts: seq<String>, index: nat): (s: String)
    requires forall r :: 0 <= r < |texts| ==> index < |texts[r]|
    ensures |s| == |texts|
  {
    if |texts| == 0 then ""
    else CharColumn(texts[..|texts| - 1], index) + [texts[|texts| - 1][index]]
  }

  lemma {:induction false} CharColumnAt(texts: seq<String>, index: nat)
    requires forall r :: 0 <= r < |texts| ==> index < |texts[r]|
    ensures forall r :: 0 <= r < |texts| ==> CharColumn(texts, index)[r] == texts[r][index]
  {
    if |texts| > 0 {
      CharColumnAt(texts[..|texts| - 1], index);
    }
  }

  /** The `index`-th characters of the padded items, top to bottom. */
  function DigitColumn(op: Op, texts: seq<String>, width: int, index: nat): (s: String)
    requires index < width
    ensures |s| == |texts|
  {
    CharColumn(PaddedItems(op, texts, width), index)
  }

  /** The value read from digit column `index`. */
  function ColumnValue(op: Op, texts: seq<String>, width: int, index: nat): Num
    requires index < width
  {
    ParseInt(DigitColumn(op, texts, width, index))
  }

  /** Line 101: the values of a column, `Width(cells)` of them, the value at
      `index` being `parseInt` of the `index`-th digit column. */
  function Transposed(op: Op, cells: seq<Num>): (values: seq<Num>)
    requires |cells| > 0
    ensures |values| == Width(cells)
  {
    var width := Width(cells);
    var texts := ItemTexts(cells);
    seq(width, k requires 0 <= k < width => ColumnValue(op, texts, width, k))
  }

  /** A `NaN` cell counts as its three-letter text: beside 123 it leaves the
      width at 3, and the digit columns "1N", "2a" and "3N" read as 1, 2
      and 3. */
  lemma NaNCellTransposed()
    ensures Transposed(Add, [Some(123), None]) == [Some(1), Some(2), Some(3)]
  {
    var cells: seq<Num> := [Some(123), None];
    assert DigitChar(1) == '1' && DigitChar(2) == '2' && DigitChar(3) == '3';
    assert NatToString(1) == "1";
    assert NatToString(12) == "12";
    assert IntToString(123) == "123";
    var texts := ItemTexts(cells);
    assert texts == ["123", "NaN"];
    assert Width(cells) == 3;
  }

  /** `rows.map(item => padFn(item.toString(), width).charAt(index)).join('')`,
      calling the padding loop for each row. */
  method ReadDigitColumn(op: Op, texts: seq<String>, width: int, index: nat) returns (digits: String)
    requires index < width
    ensures digits == DigitColumn(op, texts, width, index)
  {
    ghost var padded := PaddedItems(op, texts, width);
    digits := "";
    for r := 0 to |texts|
      invariant digits == CharColumn(padded[..r], index)
    {
      var text := PadItem(op, texts[r], width);
      PrefixOfPrefix(padded, r);
      digits := digits + [text[index]];
    }
    assert padded[..|texts|] == padded;
  }

  /** `padFn(item.toString(), width)`, `padFn` chosen by the operator. */
  method PadItem(op: Op, text: String, width: int) returns (padded: String)
    ensures padded == Padded(op, text, width)
  {
    if op == Mul {
      padded := LeftPadString(text, width, ' ');
    } else {
      padded := RightPadString(text, width, ' ');
    }
  }

  lemma PrefixOfPrefix<T>(s: seq<T>, n: nat)
    requires n < |s|
    ensures s[..n + 1][..n] == s[..n]
  {
  }

  lemma SliceSnoc<T>(s: seq<T>, n: nat)
    requires n < |s|
    ensures s[..n + 1] == s[..n] + [s[n]]
  {
  }

  /** The `do ... while` loop of lines 97-103 from `values` on: push the
      value of the next digit column while fewer than `width` are there. */
  function Fill(op: Op, texts: seq<String>, width: int, values: seq<Num>): (all: seq<Num>)
    decreases width - |values|
  {
    if |values| < width then Fill(op, texts, width, values + [ColumnValue(op, texts, width, |values|)])
    else values
  }

  /** Filling from the first `|values|` values of a column gives all of them. */
  lemma {:induction false} FillTransposed(op: Op, cells: seq<Num>, values: seq<Num>)
    requires |cells| > 0 && |values| <= Width(cells)
    requires values == Transposed(op, cells)[..|values|]
    ensures Fill(op, ItemTexts(cells), Width(cells), values) == Transposed(op, cells)
    decreases Width(cells) - |values|
  {
    var expected := Transposed(op, cells);
    if |values| < Width(cells) {
      SliceSnoc(expected, |values|);
      FillTransposed(op, cells, values + [expected[|values|]]);
    } else {
      assert expected[..|values|] == expected;
    }
  }

  /** Lines 97-103: the values of a column, `largestVal` being the width
      of the column's largest number. */
  method TransposeColumn(op: Op, cells: seq<Num>) returns (values: seq<Num>)
    requires |cells| > 0
    ensures values == Transposed(op, cells)
  {
    var largestVal := Width(cells);
    var texts := ItemTexts(cells);
    values := FillColumn(op, texts, largestVal);
    FillTransposed(op, cells, [ColumnValue(op, texts, largestVal, 0)]);
  }

  /** The `do ... while` loop of lines 98-103: pushing one value per digit
      column, at least once, until there are `width` of them. */
  method FillColumn(op: Op, texts: seq<String>, width: int) returns (values: seq<Num>)
    requires width >= 1
    ensures values == Fill(op, texts, width, [ColumnValue(op, texts, width, 0)])
  {
    ghost var start := [ColumnValue(op, texts, width, 0)];
    values := PushValue(op, texts, width, []);
    assert values == start;
    while |values| < width
      invariant Fill(op, texts, width, values) == Fill(op, texts, width, start)
      decreases width - |values|
    {
      values := PushValue(op, texts, width, values);
    }
  }

  /** Line 100-102: the value of the next digit column pushed. */
  method PushValue(op: Op, texts: seq<String>, width: int, values: seq<Num>) returns (values': seq<Num>)
    requires |values| < width
    ensures values' == values + [ColumnValue(op, texts, width, |values|)]
  {
    var digits := ReadDigitColumn(op, texts, width, |values|);
    values' := values + [ParseInt(digits)];
  }

  /** Every cell of the column is a number, none `NaN`. */
  predicate Numeric(cells: seq<Num>)
  {
    forall r :: 0 <= r < |cells| ==> cells[r].Some?
  }

  function Items(cells: seq<Num>): (items: seq<int>)
    requires Numeric(cells)
    ensures |items| == |cells| && forall r :: 0 <= r < |cells| ==> Some(items[r]) == cells[r]
  {
    seq(|cells|, r requires 0 <= r < |cells| => cells[r].value)
  }

  /** Every row reaches column `col`. (For a row that does not, the source
      throws on `undefined.toString()`.) */
  predicate Complete(data: seq<seq<Num>>, col: nat)
  {
    forall r :: 0 <= r < |data| ==> col < |data[r]|
  }

  /** What part 2 needs of the layout: operators for every column and a
      cell in every row for each of those columns. A `NaN` cell is read as
      its text "NaN". */
  predicate Transposable(layout: Layout)
  {
    |layout.data| > 0 && Operated(layout) &&
    forall col :: 0 <= col < |layout.data[0]| ==> Complete(layout.data, col)
  }

  /** Column `col` read for part 2: its operator, its transposed values
      and their total. */
  function TransposedColumn(layout: Layout, col: nat): Exercise
    requires |layout.data| > 0 && col < |layout.data[0]| && Transposable(layout)
  {
    var op := OperatorOf(layout, col).value;
    var values := Transposed(op, Column(layout.data, col));
    Exercise(values, op, Total(values, op))
  }

  /** Every column of the first row of numbers read for part 2. */
  function TransposedExercises(layout: Layout): (exercises: seq<Exercise>)
    requires |layout.data| > 0 && Transposable(layout)
    ensures |exercises| == |layout.data[0]|
  {
    seq(|layout.data[0]|, col requires 0 <= col < |layout.data[0]| => TransposedColumn(layout, col))
  }

  /** `parseWorksheetCorrectly`: one exercise per column of the first row
      of numbers, its values the column's transposed numbers. */
  method ParseWorksheetCorrectly(input: String) returns (r: Result<Sheet, String>)
    ensures r.Ok? <==> ParseLayout(input).Ok? && Transposable(ParseLayout(input).value)
    ensures r.Ok? ==>
      var exercises := TransposedExercises(ParseLayout(input).value);
      r.value == Sheet(exercises, GrandTotal(exercises))
  {
    var parsed := ParseLayout(input);
    if parsed.Err? {
      return Err(parsed.error);
    }
    var layout := parsed.value;
    if !Transposable(layout) {
      return Err(if Operated(layout) then "a row has no cell in this column" else "opMap has no such operation");
    }
    var exercises := ReadColumns(layout);
    r := Ok(Sheet(exercises, GrandTotal(exercises)));
  }

  /** Lines 84-110: the loop over the columns of the first row of numbers. */
  method ReadColumns(layout: Layout) returns (exercises: seq<Exercise>)
    requires |layout.data| > 0 && Transposable(layout)
    ensures exercises == TransposedExercises(layout)
  {
    ghost var expected := TransposedExercises(layout);
    exercises := [];
    for col := 0 to |layout.data[0]|
      invariant exercises == expected[..col]
    {
      var e := ReadColumn(layout, col);
      SliceSnoc(expected, col);
      exercises := exercises + [e];
    }
    assert exercises == expected;
  }

  /** Lines 85-109: one column, its operator, its transposed values and
      their total. */
  method ReadColumn(layout: Layout, col: nat) returns (e: Exercise)
    requires |layout.data| > 0 && col < |layout.data[0]| && Transposable(layout)
    ensures e == TransposedColumn(layout, col)
  {
    var op := OperatorOf(layout, col).value;
    var cells := Column(layout.data, col);
    var values := TransposeColumn(op, cells);
    e := Exercise(values, op, Total(values, op));
  }

  /** Part 1's answer. */
  function SolveForFirstStar(input: String): (r: Result<Num, String>)
    ensures r.Ok? <==> ParseWorksheet(input).Ok?
    ensures r.Ok? ==> r.value == GrandTotal(ParseWorksheet(input).value.exercises)
  {
    var sheet :- ParseWorksheet(input);
    Ok(sheet.grandTotal)
  }

  /** Part 2's answer. */
  method SolveForSecondStar(input: String) returns (r: Result<Num, String>)
    ensures r.Ok? <==> ParseLayout(input).Ok? && Transposable(ParseLayout(input).value)
    ensures r.Ok? ==> r.value == GrandTotal(TransposedExercises(ParseLayout(input).value))
  {
    var sheet := ParseWorksheetCorrectly(input);
    if sheet.Err? {
      return Err(sheet.error);
    }
    r := Ok(sheet.value.grandTotal);
  }
}
