// Day 2: ranges of product ids. An id is invalid when its decimal digits
// are some sequence of digits written twice; part 1 adds up the invalid ids
// of every range.

module ProductIds {
  import opened Wrappers
  import opened Text

  /** `{ firstId, lastId }` as `Number` gives them; `None` is `NaN` or the
      `undefined` of a range without a '-'. */
  datatype ProductRange = ProductRange(firstId: Option<int>, lastId: Option<int>)

  /** The three complaints `findInvalidIds` can push. */
  datatype IdError =
    | FirstIdNotANumber       // `First ID is not a number: …`
    | LastIdNotANumber        // `Last ID is not a number: …`
    | FirstIdGreaterThanLast  // `First ID … is greater than Last ID …`

  /** What `findInvalidIds` returns. `sumOfInvalidIds` is `None` on the
      error path, whose result has no such field. */
  datatype Analysis = Analysis(validIds: seq<int>, invalidIds: seq<int>, sumOfInvalidIds: Option<int>, errors: seq<IdError>)

  // ---------------------------------------------------------------------------
  // parseProductRanges

  /** `range.split('-').map(Number)`, destructured into its first two parts. */
  function RangeOf(range: String): ProductRange
  {
    var bounds := Split(range, "-");
    ProductRange(Number(bounds[0]), if |bounds| > 1 then Number(bounds[1]) else None)
  }

  /** One range per ','-separated piece of the input. */
  function ParseProductRanges(input: String): (ranges: seq<ProductRange>)
    ensures |ranges| == |Split(input, ",")|
    ensures forall k :: 0 <= k < |ranges| ==> ranges[k] == RangeOf(Split(input, ",")[k])
  {
    var pieces := Split(input, ",");
    seq(|pieces|, k requires 0 <= k < |pieces| => RangeOf(pieces[k]))
  }

  /** The first '-' of `s` at or after `from` is at `i`. */
  lemma {:induction false} FirstDash(s: String, from: nat, i: nat)
    requires from <= i < |s| && s[i] == '-'
    requires forall k :: from <= k < i ==> s[k] != '-'
    ensures IndexOfFrom(s, "-", from) == Some(i)
    decreases i - from
  {
    if from < i {
      assert s[from..from + 1][0] == s[from];
      FirstDash(s, from + 1, i);
    } else {
      assert s[from..from + 1] == [s[from]];
    }
  }

  /** `s` has no '-' at or after `from`. */
  lemma {:induction false} NoDash(s: String, from: nat)
    requires forall k :: from <= k < |s| ==> s[k] != '-'
    ensures IndexOfFrom(s, "-", from) == None
    decreases |s| - from
  {
    if from + 1 <= |s| {
      assert s[from..from + 1][0] == s[from];
      NoDash(s, from + 1);
    }
  }

  /** Two digit strings joined by '-' split back into the two. */
  lemma SplitAtDash(x: String, y: String)
    requires AllDigits(x) && AllDigits(y)
    ensures Split(x + "-" + y, "-") == [x, y]
  {
    var s := x + "-" + y;
    assert forall k :: 0 <= k < |x| ==> s[k] == x[k] && IsDigit(x[k]);
    FirstDash(s, 0, |x|);
    assert s[..|x|] == x;
    assert s[|x| + 1..] == y;
    assert forall k :: 0 <= k < |y| ==> IsDigit(y[k]);
    NoDash(y, 0);
    assert Split(y, "-") == [y];
    assert Split(s, "-") == [s[..|x|]] + Split(s[|x| + 1..], "-");
  }

  /** The text `a-b` of two natural numbers parses back to the range from
      `a` to `b`. */
  lemma RangeOfText(a: nat, b: nat)
    ensures RangeOf(NatToString(a) + "-" + NatToString(b)) == ProductRange(Some(a), Some(b))
  {
    SplitAtDash(NatToString(a), NatToString(b));
    NumberOfNatToString(a);
    NumberOfNatToString(b);
  }

  // ---------------------------------------------------------------------------
  // findInvalidIds: the errors

  /** The errors pushed for bounds `firstIdNum` and `lastIdNum`, in order. */
  function Errors(firstIdNum: Option<int>, lastIdNum: Option<int>): seq<IdError>
  {
    (if firstIdNum.None? then [FirstIdNotANumber] else [])
    + (if lastIdNum.None? then [LastIdNotANumber] else [])
    + (if firstIdNum.Some? && lastIdNum.Some? && firstIdNum.value > lastIdNum.value then [FirstIdGreaterThanLast] else [])
  }

  /** There is no error exactly when both bounds are numbers in order, and
      `first > last` is only reported when both are numbers. */
  lemma ErrorsMeaning(firstIdNum: Option<int>, lastIdNum: Option<int>)
    ensures Errors(firstIdNum, lastIdNum) == [] <==>
              firstIdNum.Some? && lastIdNum.Some? && firstIdNum.value <= lastIdNum.value
    ensures FirstIdGreaterThanLast in Errors(firstIdNum, lastIdNum) ==> firstIdNum.Some? && lastIdNum.Some?
    ensures (FirstIdNotANumber in Errors(firstIdNum, lastIdNum)) == firstIdNum.None?
    ensures (LastIdNotANumber in Errors(firstIdNum, lastIdNum)) == lastIdNum.None?
  {
  }

  /** `Number.parseInt(id, 10)` of a number: the text `String(id)` read
      back, and `NaN` stays `NaN`. */
  function ParseIdNumber(id: Option<int>): (n: Option<int>)
    ensures n == id
  {
    if id.None? then None
    else
      ParseIntOfIntToString(id.value);
      ParseInt(IntToString(id.value))
  }

  // ---------------------------------------------------------------------------
  // findInvalidIds: the halves test

  /** `String(id).slice(0, -h)` and `String(id).slice(-h)` for
      `h = Math.floor(String(id).length / 2)`. */
  function Halves(s: String): (String, String)
  {
    var h := |s| / 2;
    (Slice(s, 0, -1 * h), Slice(s, -1 * h, |s|))
  }

  /** The loop's test: the two halves of `String(id)` are the same text. */
  predicate HalvesMatch(id: int)
  {
    var halves := Halves(IntToString(id));
    halves.0 == halves.1
  }

  /** Some text written twice. */
  predicate RepeatedTwice(s: String)
  {
    |s| % 2 == 0 && s[..|s| / 2] == s[|s| / 2..]
  }

  /** An invalid id: its decimal text is some digits written twice. */
  predicate Invalid(id: int)
  {
    RepeatedTwice(IntToString(id))
  }

  /** The loop's halves test picks out exactly the invalid ids. */
  lemma InvalidMeaning(id: int)
    ensures HalvesMatch(id) <==> Invalid(id)
  {
    HalvesMeaning(IntToString(id));
  }

  /** The halves are equal exactly when the text is some text written twice. */
  lemma HalvesMeaning(s: String)
    requires |s| > 0
    ensures Halves(s).0 == Halves(s).1 <==> RepeatedTwice(s)
  {
    var h := |s| / 2;
    if h == 0 {
      assert Slice(s, 0, 0) == [];
      assert Slice(s, 0, |s|) == s[0..|s|] == s;
      assert |Halves(s).0| != |Halves(s).1|;
    } else {
      assert SliceIndex(-1 * h, |s|) == |s| - h;
      assert SliceIndex(0, |s|) == 0 && SliceIndex(|s|, |s|) == |s|;
      assert Halves(s).0 == s[..|s| - h];
      assert Halves(s).1 == s[|s| - h..];
      if |s| % 2 == 1 {
        assert |Halves(s).0| != |Halves(s).1|;
      }
    }
  }

  /** A one-digit id is valid: `slice(0, -0)` is empty and `slice(-0)` is
      the whole digit. */
  lemma SingleDigitValid(id: nat)
    requires id < 10
    ensures !HalvesMatch(id)
  {
    InvalidMeaning(id);
  }

  /** Digits written twice make an invalid id. */
  lemma InvalidExamples()
    ensures HalvesMatch(11) && HalvesMatch(6464) && HalvesMatch(123123)
  {
    assert NatToString(11) == "11";
    InvalidMeaning(11);
    assert NatToString(6464) == "6464";
    InvalidMeaning(6464);
    assert NatToString(123123) == "123123";
    InvalidMeaning(123123);
  }

  /** An odd number of digits, or two different halves, make a valid id. */
  lemma ValidExamples()
    ensures !HalvesMatch(101) && !HalvesMatch(12)
  {
    assert NatToString(101) == "101";
    InvalidMeaning(101);
    assert NatToString(12) == "12";
    InvalidMeaning(12);
  }

  // ---------------------------------------------------------------------------
  // findInvalidIds: the classification

  /** The ids from `lo` to `hi`, in ascending order, whose test is `invalid`. */
  function Classified(lo: int, hi: int, invalid: bool): seq<int>
    decreases hi - lo
  {
    if hi < lo then [] else Classified(lo, hi - 1, invalid) + (if Invalid(hi) == invalid then [hi] else [])
  }

  /** `Classified` holds exactly the ids of the range whose test is `invalid`. */
  lemma {:induction false} ClassifiedMembers(lo: int, hi: int, invalid: bool)
    ensures forall id :: id in Classified(lo, hi, invalid) <==> lo <= id <= hi && Invalid(id) == invalid
    decreases hi - lo
  {
    if lo <= hi {
      ClassifiedMembers(lo, hi - 1, invalid);
    }
  }

  /** `Classified` is strictly ascending, so no id is listed twice. */
  lemma {:induction false} ClassifiedAscending(lo: int, hi: int, invalid: bool)
    ensures forall i, j :: 0 <= i < j < |Classified(lo, hi, invalid)| ==>
              Classified(lo, hi, invalid)[i] < Classified(lo, hi, invalid)[j]
    decreases hi - lo
  {
    if lo <= hi {
      ClassifiedAscending(lo, hi - 1, invalid);
      ClassifiedMembers(lo, hi - 1, invalid);
      var init := Classified(lo, hi - 1, invalid);
      assert forall i :: 0 <= i < |init| ==> init[i] in init;
    }
  }

  /** Every id of the range lands in exactly one of the two lists. */
  lemma EachIdOnce(lo: int, hi: int, id: int)
    requires lo <= id <= hi
    ensures (id in Classified(lo, hi, true)) != (id in Classified(lo, hi, false))
  {
    ClassifiedMembers(lo, hi, true);
    ClassifiedMembers(lo, hi, false);
  }

  function Sum(xs: seq<int>): int
  {
    if |xs| == 0 then 0 else Sum(xs[..|xs| - 1]) + xs[|xs| - 1]
  }

  /** The running `sumOfInvalidIds` once the ids from `lo` to `hi` are done. */
  function InvalidSum(lo: int, hi: int): int
    decreases hi - lo
  {
    if hi < lo then 0 else InvalidSum(lo, hi - 1) + (if Invalid(hi) then hi else 0)
  }

  /** The running sum is the sum of the invalid ids. */
  lemma {:induction false} InvalidSumIsSum(lo: int, hi: int)
    ensures InvalidSum(lo, hi) == Sum(Classified(lo, hi, true))
    decreases hi - lo
  {
    if lo <= hi {
      InvalidSumIsSum(lo, hi - 1);
      var init := Classified(lo, hi - 1, true);
      if Invalid(hi) {
        assert (init + [hi])[..|init|] == init;
      } else {
        assert Classified(lo, hi, true) == init;
      }
    }
  }

  /** What `findInvalidIds` returns for the bounds `firstIdNum` and
      `lastIdNum`. */
  function Analyze(firstIdNum: Option<int>, lastIdNum: Option<int>): Analysis
  {
    var errors := Errors(firstIdNum, lastIdNum);
    if errors != [] then Analysis([], [], None, errors)
    else
      var invalidIds := Classified(firstIdNum.value, lastIdNum.value, true);
      Analysis(Classified(firstIdNum.value, lastIdNum.value, false), invalidIds,
               Some(InvalidSum(firstIdNum.value, lastIdNum.value)), [])
  }

  /** A range with errors classifies nothing; otherwise every id of the
      range is in exactly one of the two lists, each list is ascending, and
      the sum is the sum of the invalid ids. */
  lemma AnalyzeMeaning(firstIdNum: Option<int>, lastIdNum: Option<int>)
    ensures var a := Analyze(firstIdNum, lastIdNum);
            (a.errors == [] <==> firstIdNum.Some? && lastIdNum.Some? && firstIdNum.value <= lastIdNum.value)
            && (a.errors != [] ==> a.validIds == [] && a.invalidIds == [] && a.sumOfInvalidIds.None?)
    ensures Analyze(firstIdNum, lastIdNum).errors == [] ==>
              var a, lo, hi := Analyze(firstIdNum, lastIdNum), firstIdNum.value, lastIdNum.value;
              (forall id :: id in a.validIds <==> lo <= id <= hi && !Invalid(id))
              && (forall id :: id in a.invalidIds <==> lo <= id <= hi && Invalid(id))
              && (forall i, j :: 0 <= i < j < |a.validIds| ==> a.validIds[i] < a.validIds[j])
              && (forall i, j :: 0 <= i < j < |a.invalidIds| ==> a.invalidIds[i] < a.invalidIds[j])
              && a.sumOfInvalidIds == Some(Sum(a.invalidIds))
  {
    ErrorsMeaning(firstIdNum, lastIdNum);
    if Errors(firstIdNum, lastIdNum) == [] {
      var lo, hi := firstIdNum.value, lastIdNum.value;
      ClassifiedMembers(lo, hi, true);
      ClassifiedMembers(lo, hi, false);
      ClassifiedAscending(lo, hi, true);
      ClassifiedAscending(lo, hi, false);
      InvalidSumIsSum(lo, hi);
    }
  }

  /** `findInvalidIds(firstId, lastId)`: the loop from the first id to the
      last, once the bounds are checked. */
  method FindInvalidIds(firstId: Option<int>, lastId: Option<int>) returns (analysis: Analysis)
    ensures analysis == Analyze(firstId, lastId)
  {
    var validIds: seq<int> := [];
    var invalidIds: seq<int> := [];
    var errors: seq<IdError> := [];
    var firstIdNum := ParseIdNumber(firstId);
    var lastIdNum := ParseIdNumber(lastId);
    if firstIdNum.None? {
      errors := errors + [FirstIdNotANumber];
    }
    if lastIdNum.None? {
      errors := errors + [LastIdNotANumber];
    }
    if firstIdNum.Some? && lastIdNum.Some? && firstIdNum.value > lastIdNum.value {
      errors := errors + [FirstIdGreaterThanLast];
    }
    if |errors| > 0 {
      return Analysis(validIds, invalidIds, None, errors);
    }
    ErrorsMeaning(firstIdNum, lastIdNum);
    var sumOfInvalidIds;
    validIds, invalidIds, sumOfInvalidIds := ClassifyIds(firstIdNum.value, lastIdNum.value);
    analysis := Analysis(validIds, invalidIds, Some(sumOfInvalidIds), errors);
  }

  /** The `while (currentId <= lastIdNum)` loop: each id goes to the list its
      halves test picks, and the invalid ones are summed on the way. */
  method ClassifyIds(lo: int, hi: int) returns (validIds: seq<int>, invalidIds: seq<int>, sumOfInvalidIds: int)
    requires lo <= hi
    ensures validIds == Classified(lo, hi, false)
    ensures invalidIds == Classified(lo, hi, true)
    ensures sumOfInvalidIds == InvalidSum(lo, hi)
  {
    validIds, invalidIds := [], [];
    var currentId := lo;
    sumOfInvalidIds := 0;
    while currentId <= hi
      invariant lo <= currentId <= hi + 1
      invariant validIds == Classified(lo, currentId - 1, false)
      invariant invalidIds == Classified(lo, currentId - 1, true)
      invariant sumOfInvalidIds == InvalidSum(lo, currentId - 1)
      decreases hi - currentId
    {
      var text := IntToString(currentId);
      var firstHalf := Slice(text, 0, -1 * (|text| / 2));
      var secondHalf := Slice(text, -1 * (|text| / 2), |text|);
      HalvesMeaning(text);
      if firstHalf == secondHalf {
        invalidIds := invalidIds + [currentId];
        sumOfInvalidIds := sumOfInvalidIds + currentId;
      } else {
        validIds := validIds + [currentId];
      }
      currentId := currentId + 1;
    }
  }

  // ---------------------------------------------------------------------------
  // part 1

  /** The `sumOfInvalidIds` of one range: `None` (`undefined`) when the
      range has errors. */
  function RangeSum(range: ProductRange): Option<int>
  {
    if Errors(range.firstId, range.lastId) != [] then None
    else Some(InvalidSum(range.firstId.value, range.lastId.value))
  }

  /** The analysis of a range carries the range's sum. */
  lemma AnalyzeSum(range: ProductRange)
    ensures Analyze(range.firstId, range.lastId).sumOfInvalidIds == RangeSum(range)
  {
  }

  /** The `sumOfInvalidIds` of every range. */
  function RangeSums(ranges: seq<ProductRange>): (sums: seq<Option<int>>)
    ensures |sums| == |ranges| && forall k :: 0 <= k < |ranges| ==> sums[k] == RangeSum(ranges[k])
  {
    seq(|ranges|, k requires 0 <= k < |ranges| => RangeSum(ranges[k]))
  }

  /** `analysis.reduce((acc, curr) => acc + curr.sumOfInvalidIds, 0)` over
      the first `n` sums; one `undefined` makes the total `NaN`. */
  function Total(sums: seq<Option<int>>, n: nat): Option<int>
    requires n <= |sums|
  {
    if n == 0 then Some(0) else Add(Total(sums, n - 1), sums[n - 1])
  }

  /** `acc + curr`, where `NaN` and `undefined` give `NaN`. */
  function Add(acc: Option<int>, curr: Option<int>): (r: Option<int>)
    ensures r.Some? <==> acc.Some? && curr.Some?
    ensures r.Some? ==> r.value == acc.value + curr.value
  {
    if acc.None? || curr.None? then None else Some(acc.value + curr.value)
  }

  /** The total is a number exactly when every sum is. */
  lemma {:induction false} TotalDefined(sums: seq<Option<int>>, n: nat)
    requires n <= |sums|
    ensures Total(sums, n).Some? <==> forall k :: 0 <= k < n ==> sums[k].Some?
  {
    if n > 0 {
      TotalDefined(sums, n - 1);
    }
  }

  /** A range's sum is a number exactly when it is two numbers in order. */
  lemma RangeSumDefined(range: ProductRange)
    ensures RangeSum(range).Some? <==>
              range.firstId.Some? && range.lastId.Some? && range.firstId.value <= range.lastId.value
  {
    ErrorsMeaning(range.firstId, range.lastId);
  }

  /** The part 1 answer is a number exactly when every range of the input
      is two numbers in order. */
  lemma TotalOfRangesDefined(ranges: seq<ProductRange>)
    ensures Total(RangeSums(ranges), |ranges|).Some? <==>
              forall k :: 0 <= k < |ranges| ==>
                ranges[k].firstId.Some? && ranges[k].lastId.Some? && ranges[k].firstId.value <= ranges[k].lastId.value
  {
    TotalDefined(RangeSums(ranges), |ranges|);
    forall k | 0 <= k < |ranges| {
      RangeSumDefined(ranges[k]);
    }
  }

  /** The `sumOfInvalidIds` of every analysis. */
  function SumsOf(analyses: seq<Analysis>): (sums: seq<Option<int>>)
    ensures |sums| == |analyses| && forall k :: 0 <= k < |analyses| ==> sums[k] == analyses[k].sumOfInvalidIds
  {
    seq(|analyses|, k requires 0 <= k < |analyses| => analyses[k].sumOfInvalidIds)
  }

  /** The analysis of every range, in order. */
  function AnalyzeAll(ranges: seq<ProductRange>): (analyses: seq<Analysis>)
    ensures |analyses| == |ranges|
  {
    if |ranges| == 0 then []
    else AnalyzeAll(ranges[..|ranges| - 1]) + [Analyze(ranges[|ranges| - 1].firstId, ranges[|ranges| - 1].lastId)]
  }

  /** Each analysis's sum is its range's sum. */
  lemma {:induction false} AnalyzeAllSums(ranges: seq<ProductRange>)
    ensures forall k :: 0 <= k < |ranges| ==> AnalyzeAll(ranges)[k].sumOfInvalidIds == RangeSum(ranges[k])
  {
    if |ranges| > 0 {
      var init := ranges[..|ranges| - 1];
      AnalyzeAllSums(init);
      AnalyzeSum(ranges[|ranges| - 1]);
      assert forall k :: 0 <= k < |init| ==> AnalyzeAll(ranges)[k] == AnalyzeAll(init)[k] && ranges[k] == init[k];
    }
  }

  /** `productRanges.map(range => findInvalidIds(range.firstId, range.lastId))` */
  method AnalyzeRanges(productRanges: seq<ProductRange>) returns (analyses: seq<Analysis>)
    ensures analyses == AnalyzeAll(productRanges)
  {
    analyses := [];
    var k := 0;
    while k < |productRanges|
      invariant k <= |productRanges|
      invariant analyses == AnalyzeAll(productRanges[..k])
    {
      var analysis := FindInvalidIds(productRanges[k].firstId, productRanges[k].lastId);
      assert productRanges[..k + 1][..k] == productRanges[..k];
      analyses := analyses + [analysis];
      k := k + 1;
    }
    assert productRanges[..k] == productRanges;
  }

  /** Part 1: the sum of the invalid ids of every range of the input. */
  method SolveForFirstStar(input: String) returns (solution: Option<int>)
    ensures solution == Total(RangeSums(ParseProductRanges(input)), |ParseProductRanges(input)|)
  {
    var productRanges := ParseProductRanges(input);
    var analyses := AnalyzeRanges(productRanges);
    AnalyzeAllSums(productRanges);
    assert SumsOf(analyses) == RangeSums(productRanges);
    solution := Total(SumsOf(analyses), |analyses|);
  }
}
