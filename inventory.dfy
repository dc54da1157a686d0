// Day 5: an inventory of fresh-ingredient id ranges and ingredient ids.
// Part 1 counts the ids inside some range; part 2 merges overlapping ranges
// until none overlap and adds up their sizes.

module Inventory {
  import opened Wrappers
  import opened Text

  /** A JavaScript number read with `Number(...)`; `None` is `NaN`, or the
      `undefined` a missing field gives, which compares false the same way. */
  type Num = Option<int>

  datatype Range = Range(start: Num, end: Num)

  /** An id, the first range containing it, and whether there is one. */
  datatype Ingredient = Ingredient(id: Num, range: Option<Range>, isFresh: bool)

  datatype Inventory = Inventory(ranges: seq<Range>, ids: seq<Num>, ingredients: seq<Ingredient>,
                                 freshIngredients: seq<Ingredient>, staleIngredients: seq<Ingredient>)

  // ---------------------------------------------------------------------------
  // JavaScript comparisons and arithmetic on numbers that may be NaN

  predicate Lt(a: Num, b: Num) { a.Some? && b.Some? && a.value < b.value }
  predicate Le(a: Num, b: Num) { a.Some? && b.Some? && a.value <= b.value }

  function Min(a: Num, b: Num): Num
  {
    if a.None? || b.None? then None else Some(if a.value <= b.value then a.value else b.value)
  }

  function Max(a: Num, b: Num): Num
  {
    if a.None? || b.None? then None else Some(if a.value >= b.value then a.value else b.value)
  }

  function Add(a: Num, b: Num): Num
  {
    if a.None? || b.None? then None else Some(a.value + b.value)
  }

  // ---------------------------------------------------------------------------
  // ranges and what they cover

  /** `id >= range.start && id <= range.end` */
  predicate Contains(r: Range, id: Num)
  {
    Le(r.start, id) && Le(id, r.end)
  }

  /** Both bounds are numbers and the range is not inverted. */
  predicate WellFormed(r: Range)
  {
    r.start.Some? && r.end.Some? && r.start.value <= r.end.value
  }

  predicate AllWellFormed(rs: seq<Range>)
  {
    forall i :: 0 <= i < |rs| ==> WellFormed(rs[i])
  }

  /** Some range of `rs` contains `x`. */
  predicate CoversAny(rs: seq<Range>, x: int)
  {
    exists i :: 0 <= i < |rs| && Contains(rs[i], Some(x))
  }

  /** The integers a well-formed range contains. */
  function Span(r: Range): (s: set<int>)
  {
    if WellFormed(r) then Interval(r.start.value, r.end.value) else {}
  }

  lemma SpanMeaning(r: Range, x: int)
    ensures x in Span(r) <==> WellFormed(r) && Contains(r, Some(x))
  {
  }

  /** The integers from `lo` to `hi`, both included. */
  function Interval(lo: int, hi: int): (s: set<int>)
    ensures forall x :: x in s <==> lo <= x <= hi
    ensures lo <= hi + 1 ==> |s| == hi - lo + 1
    decreases hi - lo
  {
    if hi < lo then {} else Interval(lo, hi - 1) + {hi}
  }

  /** The integers some range of `rs` contains. */
  function Covered(rs: seq<Range>): (s: set<int>)
  {
    if |rs| == 0 then {} else Covered(rs[..|rs| - 1]) + Span(rs[|rs| - 1])
  }

  lemma {:induction false} CoveredMeaning(rs: seq<Range>, x: int)
    requires AllWellFormed(rs)
    ensures x in Covered(rs) <==> CoversAny(rs, x)
    decreases |rs|
  {
    if |rs| > 0 {
      var init := rs[..|rs| - 1];
      var last := rs[|rs| - 1];
      CoveredMeaning(init, x);
      assert Covered(rs) == Covered(init) + Span(last);
      SpanMeaning(last, x);
      if CoversAny(init, x) {
        var i :| 0 <= i < |init| && Contains(init[i], Some(x));
        assert Contains(rs[i], Some(x));
      }
      if CoversAny(rs, x) {
        var i :| 0 <= i < |rs| && Contains(rs[i], Some(x));
        if i < |init| {
          assert Contains(init[i], Some(x));
        }
      }
    }
  }

  /** Two collections of well-formed ranges that contain the same integers
      cover the same set. */
  lemma SameCovered(rs: seq<Range>, qs: seq<Range>)
    requires AllWellFormed(rs) && AllWellFormed(qs)
    requires forall x :: CoversAny(rs, x) <==> CoversAny(qs, x)
    ensures Covered(rs) == Covered(qs)
  {
    forall x ensures x in Covered(rs) <==> x in Covered(qs) {
      CoveredMeaning(rs, x);
      CoveredMeaning(qs, x);
    }
  }

  // ---------------------------------------------------------------------------
  // parseInventory

  /** `line.split('-').map(Number)`, the first two fields. */
  function ParseRange(line: String): (r: Range)
    ensures r.start == Number(Split(line, "-")[0])
    ensures r.end == if |Split(line, "-")| > 1 then Number(Split(line, "-")[1]) else None
  {
    var fields := Split(line, "-");
    Range(Number(fields[0]), if |fields| > 1 then Number(fields[1]) else None)
  }

  /** The first range that contains `id`, the `for ... of` search with its
      early return. */
  function FirstContaining(ranges: seq<Range>, id: Num): (r: Option<Range>)
    ensures r.Some? ==> exists i :: (0 <= i < |ranges| && ranges[i] == r.value && Contains(ranges[i], id)
                                     && forall k :: 0 <= k < i ==> !Contains(ranges[k], id))
    ensures r.None? <==> forall k :: 0 <= k < |ranges| ==> !Contains(ranges[k], id)
  {
    if |ranges| == 0 then None
    else if Contains(ranges[0], id) then
      assert ranges[0] == ranges[0];
      Some(ranges[0])
    else
      var r := FirstContaining(ranges[1..], id);
      if r.Some? then
        var i :| 0 <= i < |ranges[1..]| && ranges[1..][i] == r.value && Contains(ranges[1..][i], id)
                 && forall k :: 0 <= k < i ==> !Contains(ranges[1..][k], id);
        assert forall k :: 1 <= k < i + 1 ==> ranges[k] == ranges[1..][k - 1];
        assert ranges[i + 1] == r.value;
        r
      else
        assert forall k :: 1 <= k < |ranges| ==> ranges[k] == ranges[1..][k - 1];
        r
  }

  function Classify(ranges: seq<Range>, id: Num): (ing: Ingredient)
    ensures ing.id == id && ing.range == FirstContaining(ranges, id)
    ensures ing.isFresh <==> exists k :: 0 <= k < |ranges| && Contains(ranges[k], id)
  {
    var r := FirstContaining(ranges, id);
    Ingredient(id, r, r.Some?)
  }

  function FreshOnes(ings: seq<Ingredient>): (r: seq<Ingredient>)
    ensures forall k :: 0 <= k < |r| ==> r[k].isFresh
  {
    if |ings| == 0 then [] else (if ings[0].isFresh then [ings[0]] else []) + FreshOnes(ings[1..])
  }

  function StaleOnes(ings: seq<Ingredient>): (r: seq<Ingredient>)
    ensures forall k :: 0 <= k < |r| ==> !r[k].isFresh
  {
    if |ings| == 0 then [] else (if ings[0].isFresh then [] else [ings[0]]) + StaleOnes(ings[1..])
  }

  /** The fresh and the stale ingredients split the ingredients between them:
      every ingredient is in exactly one of the two, and each list keeps
      only its own kind. */
  lemma {:induction false} FreshStalePartition(ings: seq<Ingredient>)
    ensures multiset(FreshOnes(ings)) + multiset(StaleOnes(ings)) == multiset(ings)
    decreases |ings|
  {
    if |ings| > 0 {
      var rest := ings[1..];
      FreshStalePartition(rest);
      assert ings == [ings[0]] + rest;
      assert multiset(ings) == multiset{ings[0]} + multiset(rest);
      if ings[0].isFresh {
        assert FreshOnes(ings) == [ings[0]] + FreshOnes(rest) && StaleOnes(ings) == StaleOnes(rest);
        assert multiset(FreshOnes(ings)) == multiset{ings[0]} + multiset(FreshOnes(rest));
      } else {
        assert StaleOnes(ings) == [ings[0]] + StaleOnes(rest) && FreshOnes(ings) == FreshOnes(rest);
        assert multiset(StaleOnes(ings)) == multiset{ings[0]} + multiset(StaleOnes(rest));
      }
    }
  }

  /** Both lists keep the ingredients' order: each is the subsequence of its
      own kind, so the fresh ones of a concatenation are the fresh ones of
      each part in turn. */
  lemma {:induction false} FreshOnesOfConcat(a: seq<Ingredient>, b: seq<Ingredient>)
    ensures FreshOnes(a + b) == FreshOnes(a) + FreshOnes(b)
    ensures StaleOnes(a + b) == StaleOnes(a) + StaleOnes(b)
    decreases |a|
  {
    if |a| > 0 {
      FreshOnesOfConcat(a[1..], b);
      assert (a + b)[1..] == a[1..] + b;
    } else {
      assert a + b == b;
    }
  }

  /** The ranges, one per line. */
  function ParseRanges(text: String): (ranges: seq<Range>)
    ensures |ranges| == |Split(text, "\n")|
    ensures forall k :: 0 <= k < |ranges| ==> ranges[k] == ParseRange(Split(text, "\n")[k])
  {
    var lines := Split(text, "\n");
    seq(|lines|, k requires 0 <= k < |lines| => ParseRange(lines[k]))
  }

  /** The ids, `Number` of each line. */
  function ParseIds(text: String): (ids: seq<Num>)
    ensures |ids| == |Split(text, "\n")|
    ensures forall k :: 0 <= k < |ids| ==> ids[k] == Number(Split(text, "\n")[k])
  {
    var lines := Split(text, "\n");
    seq(|lines|, k requires 0 <= k < |lines| => Number(lines[k]))
  }

  /** Each id classified against the ranges, in order. */
  function ClassifyAll(ranges: seq<Range>, ids: seq<Num>): (ings: seq<Ingredient>)
    ensures |ings| == |ids|
    ensures forall k :: 0 <= k < |ids| ==> ings[k] == Classify(ranges, ids[k])
  {
    seq(|ids|, k requires 0 <= k < |ids| => Classify(ranges, ids[k]))
  }

  /** `parseInventory`: the ranges before the first blank line, then the ids,
      each classified against the ranges, and the fresh and stale ones. The
      source reads `idLines.split` with no blank line in the input and
      throws; that is an error here. */
  function ParseInventory(input: String): (r: Result<Inventory, String>)
    ensures r.Err? <==> |Split(input, "\n\n")| < 2
    ensures r.Ok? ==>
              r.value.ranges == ParseRanges(Split(input, "\n\n")[0])
              && r.value.ids == ParseIds(Split(input, "\n\n")[1])
              && r.value.ingredients == ClassifyAll(r.value.ranges, r.value.ids)
              && r.value.freshIngredients == FreshOnes(r.value.ingredients)
              && r.value.staleIngredients == StaleOnes(r.value.ingredients)
  {
    var sections := Split(input, "\n\n");
    if |sections| < 2 then Err("no blank line before the ingredient ids")
    else
      var ranges := ParseRanges(sections[0]);
      var ids := ParseIds(sections[1]);
      var ingredients := ClassifyAll(ranges, ids);
      Ok(Inventory(ranges, ids, ingredients, FreshOnes(ingredients), StaleOnes(ingredients)))
  }

  /** The number of ids some range contains. */
  function CountContained(ranges: seq<Range>, ids: seq<Num>): nat
  {
    if |ids| == 0 then 0
    else (if exists k :: 0 <= k < |ranges| && Contains(ranges[k], ids[0]) then 1 else 0) + CountContained(ranges, ids[1..])
  }

  lemma {:induction false} FreshCount(ranges: seq<Range>, ids: seq<Num>, ings: seq<Ingredient>)
    requires |ings| == |ids| && forall k :: 0 <= k < |ids| ==> ings[k] == Classify(ranges, ids[k])
    ensures |FreshOnes(ings)| == CountContained(ranges, ids)
    decreases |ids|
  {
    if |ids| > 0 {
      FreshCount(ranges, ids[1..], ings[1..]);
    }
  }

  /** Part 1: the number of fresh ingredients, which is the number of ids
      that some range contains. */
  function SolveForFirstStar(input: String): (r: Result<nat, String>)
    ensures r.Ok? <==> ParseInventory(input).Ok?
    ensures r.Ok? ==> r.value == CountContained(ParseInventory(input).value.ranges, ParseInventory(input).value.ids)
  {
    var parsed := ParseInventory(input);
    if parsed.Err? then Err(parsed.error)
    else
      var inv := parsed.value;
      FreshCount(inv.ranges, inv.ids, inv.ingredients);
      Ok(|inv.freshIngredients|)
  }

  // ---------------------------------------------------------------------------
  // part 2: merging

  /** `!(a.end < b.start || b.end < a.start)`; a `NaN` bound makes both
      comparisons false, so such a range overlaps everything. */
  predicate Overlaps(a: Range, b: Range)
  {
    !(Lt(a.end, b.start) || Lt(b.end, a.start))
  }

  predicate NoOverlaps(rs: seq<Range>)
  {
    forall i, j :: 0 <= i < j < |rs| ==> !Overlaps(rs[i], rs[j])
  }

  /** Some range outside `excluded` contains `x`. */
  ghost predicate InPool(rs: seq<Range>, excluded: set<nat>, x: int)
  {
    exists i :: 0 <= i < |rs| && i !in excluded && Contains(rs[i], Some(x))
  }

  /** Merging two overlapping well-formed ranges gives a well-formed range
      containing exactly the integers of both. */
  lemma MergeCovers(a: Range, b: Range)
    requires WellFormed(a) && WellFormed(b) && Overlaps(a, b)
    ensures WellFormed(Range(Min(a.start, b.start), Max(a.end, b.end)))
    ensures forall x :: Contains(Range(Min(a.start, b.start), Max(a.end, b.end)), Some(x)) <==>
                        Contains(a, Some(x)) || Contains(b, Some(x))
  {
  }

  /** The inner `forEach` of a merge pass: grow range `a` by absorbing every
      range not yet used that overlaps it, marking each absorbed one used. */
  method Absorb(rs: seq<Range>, a: nat, used0: set<nat>) returns (mergedRange: Range, used: set<nat>, absorbed: bool)
    requires a < |rs| && a !in used0 && forall i :: i in used0 ==> i < |rs|
    ensures used0 <= used && a !in used && forall i :: i in used ==> i < |rs|
    ensures absorbed <==> |used| > |used0|
    ensures !absorbed ==> used == used0 && mergedRange == rs[a]
                          && forall j :: 0 <= j < |rs| && j != a && j !in used0 ==> !Overlaps(rs[a], rs[j])
    ensures AllWellFormed(rs) ==> WellFormed(mergedRange)
    ensures AllWellFormed(rs) ==>
              forall x :: Contains(mergedRange, Some(x)) || InPool(rs, used + {a}, x) <==> InPool(rs, used0, x)
  {
    mergedRange := rs[a];
    used := used0;
    absorbed := false;
    var b := 0;
    while b < |rs|
      invariant 0 <= b <= |rs|
      invariant used0 <= used && a !in used && forall i :: i in used ==> i < |rs|
      invariant absorbed <==> |used| > |used0|
      invariant !absorbed ==> used == used0 && mergedRange == rs[a]
                              && forall j :: 0 <= j < b && j != a && j !in used0 ==> !Overlaps(rs[a], rs[j])
      invariant AllWellFormed(rs) ==> WellFormed(mergedRange)
      invariant AllWellFormed(rs) ==>
                  forall x :: Contains(mergedRange, Some(x)) || InPool(rs, used + {a}, x) <==> InPool(rs, used0, x)
    {
      if b != a && b !in used {
        if Overlaps(mergedRange, rs[b]) {
          AbsorbOne(rs, a, b, used0, used, mergedRange);
          mergedRange := Range(Min(mergedRange.start, rs[b].start), Max(mergedRange.end, rs[b].end));
          used := used + {b};
          absorbed := true;
        }
      }
      b := b + 1;
    }
  }

  /** Absorbing range `b` into the range grown from `a` keeps the integers
      the grown range and the unused ranges contain. */
  lemma AbsorbOne(rs: seq<Range>, a: nat, b: nat, used0: set<nat>, used: set<nat>, m: Range)
    requires a < |rs| && b < |rs| && a != b && b !in used && a !in used
    requires AllWellFormed(rs) ==> WellFormed(m)
    requires AllWellFormed(rs) ==>
               forall x :: Contains(m, Some(x)) || InPool(rs, used + {a}, x) <==> InPool(rs, used0, x)
    requires Overlaps(m, rs[b])
    ensures AllWellFormed(rs) ==> WellFormed(Range(Min(m.start, rs[b].start), Max(m.end, rs[b].end)))
    ensures AllWellFormed(rs) ==>
              forall x :: (Contains(Range(Min(m.start, rs[b].start), Max(m.end, rs[b].end)), Some(x))
                           || InPool(rs, used + {b} + {a}, x)) <==> InPool(rs, used0, x)
  {
    if AllWellFormed(rs) {
      MergeCovers(m, rs[b]);
      forall x ensures InPool(rs, used + {a}, x) <==> InPool(rs, used + {b} + {a}, x) || Contains(rs[b], Some(x)) {
        if InPool(rs, used + {a}, x) && !Contains(rs[b], Some(x)) {
          var i :| 0 <= i < |rs| && i !in used + {a} && Contains(rs[i], Some(x));
          assert i !in used + {b} + {a};
        }
      }
    }
  }

  /** The set `{0, ..., n - 1}`. */
  function Below(n: nat): (s: set<nat>)
    ensures forall i: nat :: i in s <==> i < n
    ensures |s| == n
  {
    if n == 0 then {} else Below(n - 1) + {n - 1}
  }

  lemma SubsetCard(a: set<nat>, b: set<nat>)
    requires a <= b
    ensures |a| <= |b|
  {
    assert b == a + (b - a);
  }

  /** What holds after the outer `forEach` of a merge pass has visited the
      ranges before `a`: the used indices are in range and include those
      before `a`; each pushed range used up its own index, and one more was
      absorbed if anything merged; with no merge so far the pushed ranges are
      the visited ones and none of them overlaps a later one; and the pushed
      ranges with the unused ones contain the integers of all of `rs`. */
  ghost predicate PassState(rs: seq<Range>, a: nat, used: set<nat>, newRanges: seq<Range>, merged: bool)
  {
    a <= |rs|
    && (forall i :: i in used ==> i < |rs|)
    && (forall i :: 0 <= i < a ==> i in used)
    && |newRanges| <= |used| && (merged ==> |newRanges| < |used|)
    && (!merged ==> used == Below(a) && newRanges == rs[..a]
                    && forall i, j :: 0 <= i < a && i < j < |rs| ==> !Overlaps(rs[i], rs[j]))
    && (AllWellFormed(rs) ==> AllWellFormed(newRanges))
    && (AllWellFormed(rs) ==> forall x :: CoversAny(newRanges, x) || InPool(rs, used, x) <==> CoversAny(rs, x))
  }

  /** One pass of the `while (merged)` loop: every range not yet used grows
      by absorbing the unused ranges that overlap it, and is pushed. */
  method MergePass(rs: seq<Range>) returns (newRanges: seq<Range>, merged: bool)
    ensures merged ==> |newRanges| < |rs|
    ensures !merged ==> newRanges == rs && NoOverlaps(rs)
    ensures AllWellFormed(rs) ==> AllWellFormed(newRanges)
    ensures AllWellFormed(rs) ==> forall x :: CoversAny(newRanges, x) <==> CoversAny(rs, x)
  {
    newRanges := [];
    merged := false;
    var used: set<nat> := {};
    var a := 0;
    while a < |rs|
      invariant a <= |rs| && PassState(rs, a, used, newRanges, merged)
    {
      used, newRanges, merged := VisitRange(rs, a, used, newRanges, merged);
      a := a + 1;
    }
    PassDone(rs, used, newRanges, merged);
  }

  /** One call of the outer `forEach` callback: skip a used range, otherwise
      grow it, push it and mark it used. */
  method VisitRange(rs: seq<Range>, a: nat, used0: set<nat>, newRanges0: seq<Range>, merged0: bool)
    returns (used: set<nat>, newRanges: seq<Range>, merged: bool)
    requires a < |rs| && PassState(rs, a, used0, newRanges0, merged0)
    ensures PassState(rs, a + 1, used, newRanges, merged)
  {
    used, newRanges, merged := used0, newRanges0, merged0;
    if a !in used {
      var mergedRange, used', absorbed := Absorb(rs, a, used);
      PushKeepsState(rs, a, used, used', newRanges, merged, mergedRange, absorbed);
      newRanges := newRanges + [mergedRange];
      used := used' + {a};
      merged := merged || absorbed;
    } else {
      SkipKeepsState(rs, a, used, newRanges, merged);
    }
  }

  /** Pushing the range grown from `a` moves the pass on to `a + 1`. */
  lemma PushKeepsState(rs: seq<Range>, a: nat, used0: set<nat>, used: set<nat>, newRanges: seq<Range>, merged: bool,
                       m: Range, absorbed: bool)
    requires a < |rs| && a !in used0 && PassState(rs, a, used0, newRanges, merged)
    requires used0 <= used && a !in used && forall i :: i in used ==> i < |rs|
    requires absorbed <==> |used| > |used0|
    requires !absorbed ==> used == used0 && m == rs[a]
                           && forall j :: 0 <= j < |rs| && j != a && j !in used0 ==> !Overlaps(rs[a], rs[j])
    requires AllWellFormed(rs) ==> WellFormed(m)
    requires AllWellFormed(rs) ==>
               forall x :: Contains(m, Some(x)) || InPool(rs, used + {a}, x) <==> InPool(rs, used0, x)
    ensures PassState(rs, a + 1, used + {a}, newRanges + [m], merged || absorbed)
  {
    PassStep(rs, a, used0, used, newRanges, m);
    SubsetCard(used0, used);
    if !(merged || absorbed) {
      assert rs[..a + 1] == rs[..a] + [rs[a]];
      assert used + {a} == Below(a + 1);
    }
  }

  /** A used range is skipped; it can only be one absorbed earlier, so
      something has merged already. */
  lemma SkipKeepsState(rs: seq<Range>, a: nat, used: set<nat>, newRanges: seq<Range>, merged: bool)
    requires a < |rs| && a in used && PassState(rs, a, used, newRanges, merged)
    ensures PassState(rs, a + 1, used, newRanges, merged)
  {
  }

  /** At the end of a pass every index is used, so the pushed ranges alone
      contain the integers of `rs`. */
  lemma PassDone(rs: seq<Range>, used: set<nat>, newRanges: seq<Range>, merged: bool)
    requires PassState(rs, |rs|, used, newRanges, merged)
    ensures merged ==> |newRanges| < |rs|
    ensures !merged ==> newRanges == rs && NoOverlaps(rs)
    ensures AllWellFormed(rs) ==> AllWellFormed(newRanges)
    ensures AllWellFormed(rs) ==> forall x :: CoversAny(newRanges, x) <==> CoversAny(rs, x)
  {
    SubsetCard(used, Below(|rs|));
    assert !merged ==> newRanges == rs[..|rs|];
  }

  /** Pushing the grown range and marking `a` used keeps the integers the
      pushed ranges and the unused ranges contain. */
  lemma PassStep(rs: seq<Range>, a: nat, used0: set<nat>, used: set<nat>, newRanges: seq<Range>, m: Range)
    requires a < |rs| && a !in used
    requires AllWellFormed(rs) ==>
               forall x :: Contains(m, Some(x)) || InPool(rs, used + {a}, x) <==> InPool(rs, used0, x)
    requires AllWellFormed(rs) ==> forall x :: CoversAny(newRanges, x) || InPool(rs, used0, x) <==> CoversAny(rs, x)
    ensures AllWellFormed(rs) ==>
              forall x :: CoversAny(newRanges + [m], x) || InPool(rs, used + {a}, x) <==> CoversAny(rs, x)
  {
    if AllWellFormed(rs) {
      forall x ensures CoversAny(newRanges + [m], x) <==> CoversAny(newRanges, x) || Contains(m, Some(x)) {
        var ns := newRanges + [m];
        if CoversAny(ns, x) {
          var i :| 0 <= i < |ns| && Contains(ns[i], Some(x));
          if i < |newRanges| {
            assert Contains(newRanges[i], Some(x));
          }
        }
        if CoversAny(newRanges, x) {
          var i :| 0 <= i < |newRanges| && Contains(newRanges[i], Some(x));
          assert Contains(ns[i], Some(x));
        }
        if Contains(m, Some(x)) {
          assert Contains(ns[|newRanges|], Some(x));
        }
      }
    }
  }

  /** The `while (merged)` loop: merge passes until one merges nothing. */
  method MergeRanges(ranges: seq<Range>) returns (currentRanges: seq<Range>)
    ensures NoOverlaps(currentRanges) && |currentRanges| <= |ranges|
    ensures AllWellFormed(ranges) ==> AllWellFormed(currentRanges)
    ensures AllWellFormed(ranges) ==> forall x :: CoversAny(currentRanges, x) <==> CoversAny(ranges, x)
  {
    var merged := true;
    currentRanges := ranges;
    while merged
      invariant |currentRanges| <= |ranges|
      invariant !merged ==> NoOverlaps(currentRanges)
      invariant AllWellFormed(ranges) ==> AllWellFormed(currentRanges)
      invariant AllWellFormed(ranges) ==> forall x :: CoversAny(currentRanges, x) <==> CoversAny(ranges, x)
      decreases |currentRanges| + (if merged then 1 else 0)
    {
      currentRanges, merged := MergePass(currentRanges);
    }
  }

  // ---------------------------------------------------------------------------
  // capacity

  /** `end - start + 1`, `NaN` if a bound is. */
  function Size(r: Range): Num
  {
    Add(Add(r.end, if r.start.Some? then Some(-r.start.value) else None), Some(1))
  }

  /** The `reduce` that adds up the sizes of the ranges, left to right from 0. */
  function Capacity(rs: seq<Range>): Num
  {
    if |rs| == 0 then Some(0) else Add(Capacity(rs[..|rs| - 1]), Size(rs[|rs| - 1]))
  }

  /** A well-formed range's size is the number of integers it contains. */
  lemma SizeCounts(r: Range)
    requires WellFormed(r)
    ensures Size(r) == Some(|Span(r)|)
  {
  }

  /** For well-formed ranges no two of which overlap, the capacity is the
      number of distinct integers they contain. */
  lemma {:induction false} CapacityCounts(rs: seq<Range>)
    requires AllWellFormed(rs) && NoOverlaps(rs)
    ensures Capacity(rs) == Some(|Covered(rs)|)
    decreases |rs|
  {
    if |rs| > 0 {
      var init := rs[..|rs| - 1];
      var last := rs[|rs| - 1];
      PrefixKeeps(rs);
      CapacityCounts(init);
      assert Capacity(rs) == Add(Capacity(init), Size(last));
      SizeCounts(last);
      LastIsApart(rs);
      DisjointUnionCard(Covered(init), Span(last));
      assert Covered(rs) == Covered(init) + Span(last);
    }
  }

  lemma PrefixKeeps(rs: seq<Range>)
    requires |rs| > 0 && AllWellFormed(rs) && NoOverlaps(rs)
    ensures AllWellFormed(rs[..|rs| - 1]) && NoOverlaps(rs[..|rs| - 1])
  {
  }

  /** The last of ranges no two of which overlap shares no integer with the others. */
  lemma LastIsApart(rs: seq<Range>)
    requires |rs| > 0 && AllWellFormed(rs) && NoOverlaps(rs)
    ensures Covered(rs[..|rs| - 1]) !! Span(rs[|rs| - 1])
  {
    var init := rs[..|rs| - 1];
    var last := rs[|rs| - 1];
    forall x | x in Covered(init) ensures x !in Span(last) {
      CoveredMeaning(init, x);
      var i :| 0 <= i < |init| && Contains(init[i], Some(x));
      assert !Overlaps(rs[i], rs[|rs| - 1]);
      SpanMeaning(last, x);
    }
  }

  lemma DisjointUnionCard<T>(a: set<T>, b: set<T>)
    requires a !! b
    ensures |a + b| == |a| + |b|
  {
  }

  /** Part 2: the capacity of the merged ranges. When every range is
      well-formed, that is the number of distinct integers the input
      ranges contain. */
  method SolveForSecondStar(input: String) returns (r: Result<Num, String>)
    ensures r.Ok? <==> ParseInventory(input).Ok?
    ensures r.Ok? && AllWellFormed(ParseInventory(input).value.ranges) ==>
              r.value == Some(|Covered(ParseInventory(input).value.ranges)|)
  {
    var parsed := ParseInventory(input);
    if parsed.Err? {
      return Err(parsed.error);
    }
    var ranges := parsed.value.ranges;
    var currentRanges := MergeRanges(ranges);
    var totalFreshCapacity := Capacity(currentRanges);
    if AllWellFormed(ranges) {
      CapacityCounts(currentRanges);
      SameCovered(currentRanges, ranges);
    }
    r := Ok(totalFreshCapacity);
  }
}
