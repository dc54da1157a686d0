// Day 3: banks of batteries, one digit each. A bank's joltage is the
// two-digit number made of its largest digit and the best second digit, kept
// in their original order; part 1 adds up the joltages.

module Batteries {
  import opened Wrappers
  import opened Text

  /** One battery: `Number.parseInt(char, 10)` (`None` is `NaN`) and its index. */
  datatype Battery = Battery(value: Option<int>, index: nat)

  /** A reduction's running maximum. `None` is the starting `{ value: -Infinity }`,
      which has no index. */
  type Pick = Option<Battery>

  // ---------------------------------------------------------------------------
  // parseBatteryBank

  /** `Number.parseInt(char, 10)` of a single character. */
  function DigitOf(c: char): (v: Option<int>)
    ensures v == ParseInt([c])
    ensures v == if IsDigit(c) then Some(DigitValue(c) as int) else None
  {
    ParseIntOfChar(c);
    ParseInt([c])
  }

  lemma ParseIntOfChar(c: char)
    ensures ParseInt([c]) == if IsDigit(c) then Some(DigitValue(c) as int) else None
  {
    assert [c][1..] == [];
    if IsWhitespace(c) {
      assert ParseInt([c]) == ParseSigned([]);
    } else if IsDigit(c) {
      assert SkipSign([c]) == [c];
      assert ReadDigits([c], 0, false) == ReadDigits([], DigitValue(c), true);
    }
  }

  /** Battery `k` sits at index `k`. */
  predicate Indexed(bank: seq<Battery>)
  {
    forall k :: 0 <= k < |bank| ==> bank[k].index == k
  }

  /** Each character becomes its digit at its own index. */
  function Bank(line: String): (bank: seq<Battery>)
    ensures |bank| == |line|
    ensures forall k :: 0 <= k < |line| ==> bank[k] == Battery(DigitOf(line[k]), k)
    ensures Indexed(bank)
  {
    seq(|line|, k requires 0 <= k < |line| => Battery(DigitOf(line[k]), k))
  }

  /** One bank per line. */
  function ParseBatteryBank(input: String): (banks: seq<seq<Battery>>)
    ensures |banks| == |Split(input, "\n")|
    ensures forall k :: 0 <= k < |banks| ==> banks[k] == Bank(Split(input, "\n")[k])
  {
    var lines := Split(input, "\n");
    seq(|lines|, k requires 0 <= k < |lines| => Bank(lines[k]))
  }

  // ---------------------------------------------------------------------------
  // joltBattery

  /** `item.value > maxItem.value`: `NaN` is greater than nothing, and
      everything else is greater than `-Infinity`. */
  predicate Beats(item: Battery, best: Pick)
  {
    item.value.Some? && (best.None? || (best.value.value.Some? && item.value.value > best.value.value.value))
  }

  /** The first reduction of `joltBattery` over the batteries before `n`:
      the first battery of largest value. */
  function Largest(bank: seq<Battery>, n: nat): (r: Pick)
    requires n <= |bank| && Indexed(bank)
    ensures r.None? <==> forall k :: 0 <= k < n ==> bank[k].value.None?
    ensures r.Some? ==> r.value.index < n && bank[r.value.index] == r.value && r.value.value.Some?
    ensures r.Some? ==> forall k :: 0 <= k < n && bank[k].value.Some? ==> bank[k].value.value <= r.value.value.value
    ensures r.Some? ==> forall k :: 0 <= k < r.value.index && bank[k].value.Some? ==> bank[k].value.value < r.value.value.value
  {
    if n == 0 then None
    else
      var best := Largest(bank, n - 1);
      if Beats(bank[n - 1], best) then Some(bank[n - 1]) else best
  }

  /** Whether the second reduction looks at `item`: never at the largest
      battery itself; at every other one when the largest is last, else only
      at those to its right. With no largest battery it looks at none. */
  predicate Candidate(item: Battery, largest: Pick, length: nat)
  {
    largest.Some? && item.index != largest.value.index
    && (largest.value.index == length - 1 || item.index > largest.value.index)
  }

  /** The second reduction of `joltBattery` over the batteries before `n`:
      the first candidate of largest value. */
  function Second(bank: seq<Battery>, largest: Pick, n: nat): (r: Pick)
    requires n <= |bank| && Indexed(bank)
    ensures r.None? <==> forall k :: 0 <= k < n && Candidate(bank[k], largest, |bank|) ==> bank[k].value.None?
    ensures r.Some? ==> r.value.index < n && bank[r.value.index] == r.value && r.value.value.Some?
                        && Candidate(r.value, largest, |bank|)
    ensures r.Some? ==> forall k :: 0 <= k < n && Candidate(bank[k], largest, |bank|) && bank[k].value.Some? ==>
                                      bank[k].value.value <= r.value.value.value
    ensures r.Some? ==> forall k :: 0 <= k < r.value.index && Candidate(bank[k], largest, |bank|) && bank[k].value.Some? ==>
                                      bank[k].value.value < r.value.value.value
  {
    if n == 0 then None
    else
      var best := Second(bank, largest, n - 1);
      if Candidate(bank[n - 1], largest, |bank|) && Beats(bank[n - 1], best) then Some(bank[n - 1]) else best
  }

  /** `joltBattery`: the two picks in index order, as `10 * first + second`.
      `None` is the `-Infinity` a missing pick gives. */
  function Joltage(bank: seq<Battery>): (j: Option<int>)
    requires Indexed(bank)
  {
    var largest := Largest(bank, |bank|);
    var second := Second(bank, largest, |bank|);
    if largest.None? || second.None? then None
    else
      var a := largest.value;
      var b := second.value;
      if a.index <= b.index then Some(a.value.value * 10 + b.value.value)
      else Some(b.value.value * 10 + a.value.value)
  }

  // ---------------------------------------------------------------------------
  // the joltage is the best ordered pair of digits

  /** Every character of the line is a digit. */
  predicate AllDigitBank(bank: seq<Battery>)
  {
    forall k :: 0 <= k < |bank| ==> bank[k].value.Some? && 0 <= bank[k].value.value <= 9
  }

  /** The two-digit number made of batteries `i` and `j`, in that order. */
  function PairValue(bank: seq<Battery>, i: nat, j: nat): int
    requires i < |bank| && j < |bank| && bank[i].value.Some? && bank[j].value.Some?
  {
    10 * bank[i].value.value + bank[j].value.value
  }

  /** For a bank of at least two digits, the joltage is the largest
      `10 * d_i + d_j` over all `i < j`, and some such pair attains it. */
  lemma JoltageIsBestPair(bank: seq<Battery>)
    requires Indexed(bank) && AllDigitBank(bank) && |bank| >= 2
    ensures Joltage(bank).Some?
    ensures forall i, j :: 0 <= i < j < |bank| ==> PairValue(bank, i, j) <= Joltage(bank).value
    ensures exists i, j :: 0 <= i < j < |bank| && PairValue(bank, i, j) == Joltage(bank).value
  {
    var n := |bank|;
    var largest := Largest(bank, n);
    var l := largest.value.index;
    var m := largest.value.value.value;
    if l < n - 1 {
      assert Candidate(bank[n - 1], largest, n);
      var second := Second(bank, largest, n);
      var s := second.value.index;
      assert l < s;
      forall i, j | 0 <= i < j < n ensures PairValue(bank, i, j) <= Joltage(bank).value {
        if j > l {
          assert Candidate(bank[j], largest, n);
        } else {
          assert bank[i].value.value < m;
        }
      }
      assert PairValue(bank, l, s) == Joltage(bank).value;
    } else {
      assert Candidate(bank[0], largest, n);
      var second := Second(bank, largest, n);
      var s := second.value.index;
      assert s < l;
      forall i, j | 0 <= i < j < n ensures PairValue(bank, i, j) <= Joltage(bank).value {
        assert Candidate(bank[i], largest, n);
      }
      assert PairValue(bank, s, l) == Joltage(bank).value;
    }
  }

  /** A bank of one battery, or of none, has no second pick and so a joltage
      of `-Infinity`. */
  lemma ShortBankHasNoJoltage(bank: seq<Battery>)
    requires Indexed(bank) && |bank| <= 1
    ensures Joltage(bank).None?
  {
    var largest := Largest(bank, |bank|);
    if largest.Some? {
      assert forall k :: 0 <= k < |bank| ==> !Candidate(bank[k], largest, |bank|);
    }
  }

  // ---------------------------------------------------------------------------
  // part 1

  /** `joltages.reduce((sum, item) => sum + item.joltage, 0)`; one
      `-Infinity` makes the sum `-Infinity`. */
  function SumJoltages(joltages: seq<Option<int>>): Option<int>
  {
    if |joltages| == 0 then Some(0)
    else
      var rest := SumJoltages(joltages[..|joltages| - 1]);
      var j := joltages[|joltages| - 1];
      if rest.None? || j.None? then None else Some(rest.value + j.value)
  }

  /** The sum is a number exactly when every joltage is. */
  lemma {:induction false} SumJoltagesFinite(joltages: seq<Option<int>>)
    ensures SumJoltages(joltages).Some? <==> forall k :: 0 <= k < |joltages| ==> joltages[k].Some?
    decreases |joltages|
  {
    if |joltages| > 0 {
      var init := joltages[..|joltages| - 1];
      SumJoltagesFinite(init);
      assert forall k :: 0 <= k < |init| ==> init[k] == joltages[k];
    }
  }

  /** `batteryBank.map(joltBattery)` */
  function Joltages(banks: seq<seq<Battery>>): (joltages: seq<Option<int>>)
    requires forall k :: 0 <= k < |banks| ==> Indexed(banks[k])
    ensures |joltages| == |banks| && forall k :: 0 <= k < |banks| ==> joltages[k] == Joltage(banks[k])
  {
    seq(|banks|, k requires 0 <= k < |banks| => Joltage(banks[k]))
  }

  /** Parsed banks are indexed. */
  lemma ParsedBanksIndexed(input: String)
    ensures forall k :: 0 <= k < |ParseBatteryBank(input)| ==> Indexed(ParseBatteryBank(input)[k])
  {
  }

  /** Part 1: the sum of the joltages of the banks, one per line; a number
      exactly when every bank has a joltage. */
  function SolveForFirstStar(input: String): (solution: Option<int>)
    ensures solution.Some? <==>
              forall k :: 0 <= k < |Split(input, "\n")| ==> Joltage(Bank(Split(input, "\n")[k])).Some?
  {
    var banks := ParseBatteryBank(input);
    ParsedBanksIndexed(input);
    var joltages := Joltages(banks);
    SumJoltagesFinite(joltages);
    assert forall k :: 0 <= k < |banks| ==> joltages[k] == Joltage(Bank(Split(input, "\n")[k]));
    SumJoltages(joltages)
  }
}
