/** The junction boxes of day 8 (solutions/day8/solution.js): boxes in
    space, every pair of them ordered by distance, and the circuits formed
    by connecting the closest pairs first. A box's `circuit` (a shared
    `Set` of boxes in the source) is modelled by a circuit number per box
    and a map from circuit numbers to their member sets. */
module Circuits {
  import opened Wrappers
  import opened Text

  // ---------------------------------------------------------------------------
  // Boxes

  datatype Box = Box(x: int, y: int, z: int, index: nat)

  /** One line `x,y,z`; a missing or non-numeric coordinate is `NaN` in
      the source and `None` here. Pieces after the third are ignored. */
  function ParseBox(line: String, index: nat): (r: Option<Box>)
    ensures r.Some? <==> var parts := Split(line, ",");
                         |parts| >= 3 && Number(parts[0]).Some? && Number(parts[1]).Some? && Number(parts[2]).Some?
    ensures r.Some? ==> var parts := Split(line, ",");
                        r.value == Box(Number(parts[0]).value, Number(parts[1]).value, Number(parts[2]).value, index)
  {
    var parts := Split(line, ",");
    if |parts| < 3 then None
    else
      var x, y, z := Number(parts[0]), Number(parts[1]), Number(parts[2]);
      if x.Some? && y.Some? && z.Some? then Some(Box(x.value, y.value, z.value, index)) else None
  }

  /** The boxes of `lines`, numbered in order; `None` when any line has a
      non-numeric coordinate. */
  function ParseBoxes(lines: seq<String>): (r: Option<seq<Box>>)
    ensures r.Some? <==> forall k :: 0 <= k < |lines| ==> ParseBox(lines[k], k).Some?
    ensures r.Some? ==> |r.value| == |lines| && forall k :: 0 <= k < |lines| ==> Some(r.value[k]) == ParseBox(lines[k], k)
  {
    if forall k :: 0 <= k < |lines| ==> ParseBox(lines[k], k).Some? then
      Some(seq(|lines|, k requires 0 <= k < |lines| => ParseBox(lines[k], k).value))
    else None
  }

  /** `parseJunctionBoxes`: one box per trimmed, non-empty line, numbered
      in order. */
  function ParseJunctionBoxes(input: String): (r: Option<seq<Box>>)
    ensures var lines := TrimmedNonEmpty(input, "\n");
            r.Some? <==> forall k :: 0 <= k < |lines| ==> ParseBox(lines[k], k).Some?
    ensures var lines := TrimmedNonEmpty(input, "\n");
            r.Some? ==> |r.value| == |lines| && forall k :: 0 <= k < |lines| ==>
                          Some(r.value[k]) == ParseBox(lines[k], k) && r.value[k].index == k
  {
    ParseBoxes(TrimmedNonEmpty(input, "\n"))
  }

  /** `squaredDistance` */
  function SquaredDistance(a: Box, b: Box): (d: int)
    ensures d >= 0
    ensures d == 0 <==> a.x == b.x && a.y == b.y && a.z == b.z
  {
    var dx, dy, dz := a.x - b.x, a.y - b.y, a.z - b.z;
    assert dx * dx >= 0 && dy * dy >= 0 && dz * dz >= 0;
    assert dx != 0 ==> dx * dx > 0;
    assert dy != 0 ==> dy * dy > 0;
    assert dz != 0 ==> dz * dz > 0;
    dx * dx + dy * dy + dz * dz
  }

  lemma DistanceSymmetric(a: Box, b: Box)
    ensures SquaredDistance(a, b) == SquaredDistance(b, a)
  {
    assert (a.x - b.x) * (a.x - b.x) == (b.x - a.x) * (b.x - a.x);
    assert (a.y - b.y) * (a.y - b.y) == (b.y - a.y) * (b.y - a.y);
    assert (a.z - b.z) * (a.z - b.z) == (b.z - a.z) * (b.z - a.z);
  }

  // ---------------------------------------------------------------------------
  // Pairs

  datatype Pair = Pair(indexA: nat, indexB: nat, distance: int)

  function PairOf(boxes: seq<Box>, i: nat, j: nat): Pair
    requires i < |boxes| && j < |boxes|
  {
    Pair(i, j, SquaredDistance(boxes[i], boxes[j]))
  }

  /** The pairs `(i, j)` with `i < j < end`, in order of `j`. */
  function Row(boxes: seq<Box>, i: nat, end: nat): (r: seq<Pair>)
    requires i < |boxes| && end <= |boxes|
    ensures |r| == if end <= i then 0 else end - i - 1
    ensures forall k :: 0 <= k < |r| ==> r[k] == PairOf(boxes, i, i + 1 + k)
  {
    if end == 0 then []
    else Row(boxes, i, end - 1) + (if end - 1 <= i then [] else [PairOf(boxes, i, end - 1)])
  }

  /** The pairs whose first box comes before `end`, in the order of the
      source's two nested loops. */
  function Rows(boxes: seq<Box>, end: nat): (r: seq<Pair>)
    requires end <= |boxes|
    ensures forall k :: 0 <= k < |r| ==> r[k].indexA < end && r[k].indexA < r[k].indexB < |boxes|
                                         && r[k] == PairOf(boxes, r[k].indexA, r[k].indexB)
  {
    if end == 0 then [] else Rows(boxes, end - 1) + Row(boxes, end - 1, |boxes|)
  }

  /** There are `n(n - 1)/2` pairs of `n` boxes. */
  lemma RowsCount(boxes: seq<Box>, end: nat)
    requires end <= |boxes|
    ensures 2 * |Rows(boxes, end)| == end * (2 * |boxes| - end - 1)
  {
    RowsLength(boxes, end);
    RowTotalClosed(|boxes|, end);
  }

  /** The number of pairs whose first box comes before `end`, row by row. */
  function RowTotal(n: nat, end: nat): nat
    requires end <= n
  {
    if end == 0 then 0 else RowTotal(n, end - 1) + (n - end)
  }

  lemma {:induction false} RowsLength(boxes: seq<Box>, end: nat)
    requires end <= |boxes|
    ensures |Rows(boxes, end)| == RowTotal(|boxes|, end)
  {
    if end > 0 {
      RowsLength(boxes, end - 1);
      assert |Row(boxes, end - 1, |boxes|)| == |boxes| - end;
    }
  }

  lemma {:induction false} RowTotalClosed(n: nat, end: nat)
    requires end <= n
    ensures 2 * RowTotal(n, end) == end * (2 * n - end - 1)
  {
    if end > 0 {
      RowTotalClosed(n, end - 1);
      RowsCountStep(RowTotal(n, end - 1), RowTotal(n, end), n, end);
    }
  }

  lemma RowsCountStep(count: int, total: int, n: int, end: int)
    requires 2 * count == (end - 1) * (2 * n - (end - 1) - 1) && total == count + (n - end)
    ensures 2 * total == end * (2 * n - end - 1)
  {
    assert (end - 1) * (2 * n - end) == end * (2 * n - end) - (2 * n - end);
    assert end * (2 * n - end) == end * (2 * n - end - 1) + end;
  }

  /** Every pair `i < j` is listed. */
  lemma {:induction false} RowsComplete(boxes: seq<Box>, end: nat, i: nat, j: nat)
    requires end <= |boxes| && i < end && i < j < |boxes|
    ensures PairOf(boxes, i, j) in Rows(boxes, end)
  {
    if i < end - 1 {
      RowsComplete(boxes, end - 1, i, j);
    } else {
      assert Row(boxes, i, |boxes|)[j - i - 1] == PairOf(boxes, i, j);
    }
  }

  /** No pair is listed twice. */
  lemma {:induction false} RowsDistinct(boxes: seq<Box>, end: nat)
    requires end <= |boxes|
    ensures forall k, l :: 0 <= k < l < |Rows(boxes, end)| ==> Rows(boxes, end)[k] != Rows(boxes, end)[l]
  {
    if end > 0 {
      RowsDistinct(boxes, end - 1);
      var front: seq<Pair>, back: seq<Pair> := Rows(boxes, end - 1), Row(boxes, end - 1, |boxes|);
      assert Rows(boxes, end) == front + back;
      forall k, l | 0 <= k < l < |front + back| ensures (front + back)[k] != (front + back)[l] {
        if l >= |front| && k < |front| {
          assert (front + back)[k].indexA < end - 1;
        }
      }
    }
  }

  /** Stable ordering of pairs by distance: equal distances keep the order
      of the enumeration, that is of `(indexA, indexB)`. */
  predicate Before(p: Pair, q: Pair)
  {
    p.distance < q.distance
    || (p.distance == q.distance && (p.indexA < q.indexA || (p.indexA == q.indexA && p.indexB <= q.indexB)))
  }

  predicate SortedPairs(s: seq<Pair>)
  {
    forall k, l :: 0 <= k < l < |s| ==> Before(s[k], s[l])
  }

  /** Every entry of `s` comes before `last`. */
  predicate AllBefore(s: seq<Pair>, last: Pair)
  {
    forall k :: 0 <= k < |s| ==> Before(s[k], last)
  }

  lemma AllBeforeOfMultiset(s: seq<Pair>, t: seq<Pair>, last: Pair)
    requires multiset(s) == multiset(t) && AllBefore(t, last)
    ensures AllBefore(s, last)
  {
    forall k | 0 <= k < |s| ensures Before(s[k], last) {
      assert s[k] in multiset(t);
    }
  }

  /** `sorted` with `p` placed after every entry that comes before it. */
  function Insert(sorted: seq<Pair>, p: Pair): (r: seq<Pair>)
    requires SortedPairs(sorted)
    ensures multiset(r) == multiset(sorted) + multiset{p}
    ensures SortedPairs(r)
  {
    if |sorted| == 0 then [p]
    else
      var last := sorted[|sorted| - 1];
      if Before(last, p) then sorted + [p]
      else
        var front := sorted[..|sorted| - 1];
        assert sorted == front + [last];
        var r := Insert(front, p);
        assert AllBefore(front + [p], last);
        AllBeforeOfMultiset(r, front + [p], last);
        r + [last]
  }

  /** `allPairs.sort((a, b) => a.distance - b.distance)`: a stable sort. */
  function SortPairs(s: seq<Pair>): (r: seq<Pair>)
    ensures multiset(r) == multiset(s) && SortedPairs(r)
  {
    if |s| == 0 then []
    else
      assert s == s[..|s| - 1] + [s[|s| - 1]];
      Insert(SortPairs(s[..|s| - 1]), s[|s| - 1])
  }

  /** `findAllPairs`: every pair `i < j` with its squared distance, built
      by the two nested loops and then sorted by distance. */
  method FindAllPairs(boxes: seq<Box>) returns (pairs: seq<Pair>)
    ensures pairs == SortPairs(Rows(boxes, |boxes|))
    ensures multiset(pairs) == multiset(Rows(boxes, |boxes|)) && SortedPairs(pairs)
  {
    var all := [];
    for i := 0 to |boxes|
      invariant all == Rows(boxes, i)
    {
      for j := 0 to |boxes|
        invariant all == Rows(boxes, i) + Row(boxes, i, j)
      {
        if j <= i {
          continue;
        }
        all := all + [PairOf(boxes, i, j)];
      }
    }
    pairs := SortPairs(all);
  }

  /** The sorted pairs: `n(n - 1)/2` of them. */
  lemma PairsCount(boxes: seq<Box>, pairs: seq<Pair>)
    requires multiset(pairs) == multiset(Rows(boxes, |boxes|))
    ensures 2 * |pairs| == |boxes| * (|boxes| - 1)
  {
    RowsCount(boxes, |boxes|);
    assert |pairs| == |multiset(pairs)| == |multiset(Rows(boxes, |boxes|))| == |Rows(boxes, |boxes|)|;
  }

  /** Each sorted pair is some `i < j` with its distance. */
  lemma PairsWellFormed(boxes: seq<Box>, pairs: seq<Pair>)
    requires multiset(pairs) == multiset(Rows(boxes, |boxes|))
    ensures forall k :: 0 <= k < |pairs| ==>
              pairs[k].indexA < pairs[k].indexB < |boxes| && pairs[k] == PairOf(boxes, pairs[k].indexA, pairs[k].indexB)
  {
    forall k | 0 <= k < |pairs|
      ensures pairs[k].indexA < pairs[k].indexB < |boxes| && pairs[k] == PairOf(boxes, pairs[k].indexA, pairs[k].indexB)
    {
      assert pairs[k] in multiset(Rows(boxes, |boxes|));
    }
  }

  /** Every pair `i < j` is among the sorted pairs. */
  lemma PairsComplete(boxes: seq<Box>, pairs: seq<Pair>, i: nat, j: nat)
    requires multiset(pairs) == multiset(Rows(boxes, |boxes|)) && i < j < |boxes|
    ensures PairOf(boxes, i, j) in pairs
  {
    RowsComplete(boxes, |boxes|, i, j);
    assert PairOf(boxes, i, j) in multiset(pairs);
  }

  // ---------------------------------------------------------------------------
  // Circuits

  /** The mutable part of the boxes: each box's circuit (`None` is `null`),
      the members of every circuit made so far, the next unused circuit
      number, and each box's `connections`. */
  datatype Network = Network(circuit: seq<Option<nat>>, members: map<nat, set<nat>>, nextCircuit: nat,
                             connections: seq<seq<nat>>)

  /** The boxes as `parseJunctionBoxes` leaves them. */
  function Initial(n: nat): (net: Network)
    ensures WellFormed(net) && |net.circuit| == n && Symmetric(net)
    ensures forall i :: 0 <= i < n ==> net.circuit[i].None? && net.connections[i] == []
  {
    Network(seq(n, _ => None), map[], 0, seq(n, _ => []))
  }

  /** Every member of circuit `c` points to `c`. */
  ghost predicate Owned(net: Network, c: nat)
    requires c in net.members
  {
    forall j :: j in net.members[c] ==> j < |net.circuit| && net.circuit[j] == Some(c)
  }

  /** What holds of the boxes throughout: a box with a circuit is one of its
      members, and all members of that circuit point to it. */
  ghost predicate WellFormed(net: Network)
  {
    |net.connections| == |net.circuit|
    && (forall c :: c in net.members ==> c < net.nextCircuit)
    && forall i :: 0 <= i < |net.circuit| && net.circuit[i].Some? ==>
         net.circuit[i].value in net.members && i in net.members[net.circuit[i].value] && Owned(net, net.circuit[i].value)
  }

  /** Adjacency is symmetric: `j` is among the connections of `i` exactly
      when `i` is among those of `j`. */
  ghost predicate Symmetric(net: Network)
  {
    |net.connections| == |net.circuit|
    && forall i, j :: 0 <= i < |net.circuit| && 0 <= j < |net.circuit| ==>
         (j in net.connections[i] <==> i in net.connections[j])
  }

  /** The boxes sharing a circuit with box `i`: the members of its circuit,
      or `i` alone. */
  function Component(net: Network, i: nat): set<nat>
    requires i < |net.circuit|
  {
    match net.circuit[i]
    case None => {i}
    case Some(c) => if c in net.members then net.members[c] else {}
  }

  /** `boxA.circuit !== null && boxA.circuit === boxB.circuit` */
  predicate SameCircuit(net: Network, a: nat, b: nat)
    requires a < |net.circuit| && b < |net.circuit|
  {
    net.circuit[a].Some? && net.circuit[a] == net.circuit[b]
  }

  lemma ComponentContains(net: Network, i: nat)
    requires WellFormed(net) && i < |net.circuit|
    ensures i in Component(net, i) && forall j :: j in Component(net, i) ==> j < |net.circuit|
  {
  }

  /** Boxes `moved` re-pointed to circuit `target`. */
  function Relabel(circuit: seq<Option<nat>>, moved: set<nat>, target: nat): (r: seq<Option<nat>>)
    ensures |r| == |circuit| && forall i :: 0 <= i < |r| ==> r[i] == if i in moved then Some(target) else circuit[i]
  {
    seq(|circuit|, i requires 0 <= i < |circuit| => if i in moved then Some(target) else circuit[i])
  }

  lemma RelabelOne(circuit: seq<Option<nat>>, moved: set<nat>, box: nat, target: nat)
    requires box < |circuit|
    ensures Relabel(circuit, moved, target)[box := Some(target)] == Relabel(circuit, moved + {box}, target)
  {
  }

  /** The larger of two different circuits, ties going to `ca`, and the
      other one. */
  function TargetAndSource(net: Network, ca: nat, cb: nat): (nat, nat)
    requires ca in net.members && cb in net.members
  {
    if |net.members[ca]| >= |net.members[cb]| then (ca, cb) else (cb, ca)
  }

  /** `mergeCircuits(boxA, boxB)`: two boxes without a circuit get a new
      one; a box without a circuit joins the other's; two boxes of
      different circuits move every member of the smaller (ties: of B's)
      into the larger. The emptied set stays behind, unreferenced. */
  function Merge(net: Network, a: nat, b: nat): Network
    requires WellFormed(net) && a < |net.circuit| && b < |net.circuit|
  {
    match (net.circuit[a], net.circuit[b])
    case (None, None) =>
      var k := net.nextCircuit;
      net.(circuit := net.circuit[a := Some(k)][b := Some(k)], members := net.members[k := {a, b}], nextCircuit := k + 1)
    case (Some(ca), None) =>
      net.(circuit := net.circuit[b := Some(ca)], members := net.members[ca := net.members[ca] + {b}])
    case (None, Some(cb)) =>
      net.(circuit := net.circuit[a := Some(cb)], members := net.members[cb := net.members[cb] + {a}])
    case (Some(ca), Some(cb)) =>
      if ca == cb then net
      else
        var (target, source) := TargetAndSource(net, ca, cb);
        net.(circuit := Relabel(net.circuit, net.members[source], target),
             members := net.members[target := net.members[target] + net.members[source]])
  }

  /** What `mergeCircuits` promises: afterwards A and B share a circuit,
      whose members are those of their two circuits (a box without one
      counting as alone), every other box keeps its circuit, and the
      invariant holds again. */
  ghost predicate Joined(net: Network, m: Network, a: nat, b: nat)
    requires a < |net.circuit| && b < |net.circuit| && |m.circuit| == |net.circuit|
  {
    SameCircuit(m, a, b) && Component(m, a) == Component(net, a) + Component(net, b)
    && forall i :: 0 <= i < |net.circuit| && i !in Component(net, a) && i !in Component(net, b) ==>
         m.circuit[i] == net.circuit[i] && Component(m, i) == Component(net, i)
  }

  lemma MergeFresh(net: Network, a: nat, b: nat)
    requires WellFormed(net) && a < |net.circuit| && b < |net.circuit| && net.circuit[a].None? && net.circuit[b].None?
    ensures var m := Merge(net, a, b);
            WellFormed(m) && |m.circuit| == |net.circuit| && m.connections == net.connections && Joined(net, m, a, b)
  {
    var m := Merge(net, a, b);
    var k := net.nextCircuit;
    forall i | 0 <= i < |m.circuit| && m.circuit[i].Some?
      ensures m.circuit[i].value in m.members && i in m.members[m.circuit[i].value] && Owned(m, m.circuit[i].value)
    {
      if i != a && i != b {
        var c := net.circuit[i].value;
        assert Owned(net, c);
        assert m.members[c] == net.members[c];
      }
    }
  }

  /** Box `b` without a circuit joins A's circuit `ca`. */
  lemma MergeJoin(net: Network, a: nat, b: nat)
    requires WellFormed(net) && a < |net.circuit| && b < |net.circuit| && net.circuit[a].Some? && net.circuit[b].None?
    ensures var m := Merge(net, a, b);
            WellFormed(m) && |m.circuit| == |net.circuit| && m.connections == net.connections && Joined(net, m, a, b)
  {
    var m := Merge(net, a, b);
    var ca := net.circuit[a].value;
    assert Owned(net, ca);
    forall i | 0 <= i < |m.circuit| && m.circuit[i].Some?
      ensures m.circuit[i].value in m.members && i in m.members[m.circuit[i].value] && Owned(m, m.circuit[i].value)
    {
      if i != b {
        var c := net.circuit[i].value;
        assert Owned(net, c);
      }
    }
    forall i | 0 <= i < |net.circuit| && i !in Component(net, a) && i !in Component(net, b)
      ensures m.circuit[i] == net.circuit[i] && Component(m, i) == Component(net, i)
    {
      if net.circuit[i].Some? {
        assert net.circuit[i].value != ca;
      }
    }
  }

  /** Box `a` without a circuit joins B's circuit `cb`. */
  lemma MergeJoinOther(net: Network, a: nat, b: nat)
    requires WellFormed(net) && a < |net.circuit| && b < |net.circuit| && net.circuit[a].None? && net.circuit[b].Some?
    ensures var m := Merge(net, a, b);
            WellFormed(m) && |m.circuit| == |net.circuit| && m.connections == net.connections && Joined(net, m, a, b)
  {
    var m := Merge(net, a, b);
    var cb := net.circuit[b].value;
    assert Owned(net, cb);
    forall i | 0 <= i < |m.circuit| && m.circuit[i].Some?
      ensures m.circuit[i].value in m.members && i in m.members[m.circuit[i].value] && Owned(m, m.circuit[i].value)
    {
      if i != a {
        var c := net.circuit[i].value;
        assert Owned(net, c);
      }
    }
    forall i | 0 <= i < |net.circuit| && i !in Component(net, a) && i !in Component(net, b)
      ensures m.circuit[i] == net.circuit[i] && Component(m, i) == Component(net, i)
    {
      if net.circuit[i].Some? {
        assert net.circuit[i].value != cb;
      }
    }
  }

  /** Two different circuits: the source's members move to the target. */
  lemma MergeMove(net: Network, a: nat, b: nat)
    requires WellFormed(net) && a < |net.circuit| && b < |net.circuit| && net.circuit[a].Some? && net.circuit[b].Some?
    requires net.circuit[a] != net.circuit[b]
    ensures var m := Merge(net, a, b);
            WellFormed(m) && |m.circuit| == |net.circuit| && m.connections == net.connections && Joined(net, m, a, b)
  {
    var m := Merge(net, a, b);
    var ca, cb := net.circuit[a].value, net.circuit[b].value;
    var (target, source) := TargetAndSource(net, ca, cb);
    assert Owned(net, ca) && Owned(net, cb);
    assert Owned(m, target) by {
      forall j | j in m.members[target] ensures j < |m.circuit| && m.circuit[j] == Some(target) {
        if j !in net.members[source] {
          assert j in net.members[target];
        }
      }
    }
    forall i | 0 <= i < |m.circuit| && m.circuit[i].Some?
      ensures m.circuit[i].value in m.members && i in m.members[m.circuit[i].value] && Owned(m, m.circuit[i].value)
    {
      if i !in net.members[source] {
        var c := net.circuit[i].value;
        assert Owned(net, c);
        if c != target {
          assert c != source;
          assert Owned(m, c) by {
            forall j | j in m.members[c] ensures j < |m.circuit| && m.circuit[j] == Some(c) {
              assert net.circuit[j] == Some(c);
            }
          }
        }
      }
    }
    forall i | 0 <= i < |net.circuit| && i !in Component(net, a) && i !in Component(net, b)
      ensures m.circuit[i] == net.circuit[i] && Component(m, i) == Component(net, i)
    {
      if net.circuit[i].Some? {
        assert net.circuit[i].value != ca && net.circuit[i].value != cb;
      }
    }
  }

  /** `mergeCircuits`, all cases: a merge of boxes already sharing a
      circuit changes nothing. */
  lemma MergeJoins(net: Network, a: nat, b: nat)
    requires WellFormed(net) && a < |net.circuit| && b < |net.circuit|
    ensures var m := Merge(net, a, b);
            WellFormed(m) && |m.circuit| == |net.circuit| && m.connections == net.connections && Joined(net, m, a, b)
    ensures SameCircuit(net, a, b) ==> Merge(net, a, b) == net
  {
    match (net.circuit[a], net.circuit[b])
    case (None, None) => MergeFresh(net, a, b);
    case (Some(_), None) => MergeJoin(net, a, b);
    case (None, Some(_)) => MergeJoinOther(net, a, b);
    case (Some(ca), Some(cb)) =>
      if ca == cb {
        assert Owned(net, ca);
      } else {
        MergeMove(net, a, b);
      }
  }

  /** `mergeCircuits` as the source runs it: the last case moves the
      source circuit's members one at a time. */
  method MergeCircuits(net: Network, a: nat, b: nat) returns (m: Network)
    requires WellFormed(net) && a < |net.circuit| && b < |net.circuit|
    ensures m == Merge(net, a, b)
    ensures WellFormed(m) && |m.circuit| == |net.circuit|
  {
    MergeJoins(net, a, b);
    var circuitA, circuitB := net.circuit[a], net.circuit[b];
    if circuitA.None? && circuitB.None? {
      var k := net.nextCircuit;
      return net.(circuit := net.circuit[a := Some(k)][b := Some(k)], members := net.members[k := {a, b}], nextCircuit := k + 1);
    }
    if circuitA.Some? && circuitB.None? {
      var ca := circuitA.value;
      return net.(circuit := net.circuit[b := Some(ca)], members := net.members[ca := net.members[ca] + {b}]);
    }
    if circuitA.None? && circuitB.Some? {
      var cb := circuitB.value;
      return net.(circuit := net.circuit[a := Some(cb)], members := net.members[cb := net.members[cb] + {a}]);
    }
    if circuitA == circuitB {
      return net;
    }
    var target, source := circuitA.value, circuitB.value;
    if |net.members[target]| < |net.members[source]| {
      target, source := source, target;
    }
    assert Owned(net, source);
    m := MoveCircuit(net, target, source);
  }

  /** `sourceCircuit.forEach(box => { targetCircuit.add(box); box.circuit = targetCircuit })` */
  method MoveCircuit(net: Network, target: nat, source: nat) returns (m: Network)
    requires target in net.members && source in net.members && Owned(net, source)
    ensures m == net.(circuit := Relabel(net.circuit, net.members[source], target),
                      members := net.members[target := net.members[target] + net.members[source]])
  {
    var targetCircuit, circuit := net.members[target], net.circuit;
    var rest, moved := net.members[source], {};
    while rest != {}
      invariant rest + moved == net.members[source] && rest !! moved
      invariant targetCircuit == net.members[target] + moved
      invariant circuit == Relabel(net.circuit, moved, target)
      decreases |rest|
    {
      var box :| box in rest;
      targetCircuit := targetCircuit + {box};
      assert box in net.members[source];
      RelabelOne(net.circuit, moved, box, target);
      circuit := circuit[box := Some(target)];
      moved, rest := moved + {box}, rest - {box};
    }
    return net.(circuit := circuit, members := net.members[target := targetCircuit]);
  }

  /** Once two boxes share a circuit, a merge leaves them sharing one. */
  lemma MergeKeepsTogether(net: Network, a: nat, b: nat, i: nat, j: nat)
    requires WellFormed(net) && a < |net.circuit| && b < |net.circuit| && i < |net.circuit| && j < |net.circuit|
    requires SameCircuit(net, i, j)
    ensures SameCircuit(Merge(net, a, b), i, j)
  {
    var m := Merge(net, a, b);
    MergeJoins(net, a, b);
    var c := net.circuit[i].value;
    assert Owned(net, c);
    assert Component(net, i) == Component(net, j);
    var joined := Component(net, a) + Component(net, b);
    if i in joined {
      assert j in joined by {
        if i in Component(net, a) {
          assert net.circuit[a].Some? ==> Owned(net, net.circuit[a].value);
        } else {
          assert net.circuit[b].Some? ==> Owned(net, net.circuit[b].value);
        }
      }
      var c' := m.circuit[a].value;
      assert Owned(m, c');
    }
  }

  // ---------------------------------------------------------------------------
  // Connections

  /** `boxA.connections.push(boxB.index); boxB.connections.push(boxA.index)` */
  function Link(net: Network, a: nat, b: nat): (m: Network)
    requires a < |net.connections| && b < |net.connections|
    ensures m.circuit == net.circuit && m.members == net.members && m.nextCircuit == net.nextCircuit
    ensures |m.connections| == |net.connections| && b in m.connections[a] && a in m.connections[b]
    ensures WellFormed(net) ==> WellFormed(m)
  {
    var first := net.connections[a := net.connections[a] + [b]];
    net.(connections := first[b := first[b] + [a]])
  }

  lemma LinkSymmetric(net: Network, a: nat, b: nat)
    requires Symmetric(net) && a < |net.circuit| && b < |net.circuit|
    ensures Symmetric(Link(net, a, b))
  {
    var m := Link(net, a, b);
    forall i, j | 0 <= i < |m.circuit| && 0 <= j < |m.circuit|
      ensures j in m.connections[i] <==> i in m.connections[j]
    {
      assert forall x, y :: 0 <= x < |m.circuit| ==>
        (y in m.connections[x] <==> y in net.connections[x] || (x == a && y == b) || (x == b && y == a));
    }
  }

  /** The pairs refer to boxes of the network. */
  predicate PairsIn(pairs: seq<Pair>, n: nat)
  {
    forall k :: 0 <= k < |pairs| ==> pairs[k].indexA < n && pairs[k].indexB < n
  }

  /** One pair of `formCircuitConnections`: skipped when already directly
      connected; linked only, when already in one circuit; otherwise
      linked, merged and reported as a new connection. */
  function Attempt(net: Network, p: Pair): (r: (Network, bool))
    requires WellFormed(net) && p.indexA < |net.circuit| && p.indexB < |net.circuit|
    ensures WellFormed(r.0) && |r.0.circuit| == |net.circuit|
  {
    var a, b := p.indexA, p.indexB;
    if b in net.connections[a] then (net, false)
    else
      var linked := Link(net, a, b);
      if SameCircuit(linked, a, b) then (linked, false)
      else
        MergeJoins(linked, a, b);
        (Merge(linked, a, b), true)
  }

  /** What an attempt promises: the two boxes end up directly connected; a
      connection is reported only for boxes of different circuits, which
      are then joined; otherwise the circuits stay as they were; adjacency
      stays symmetric, and boxes sharing a circuit keep sharing one. */
  lemma AttemptEffects(net: Network, p: Pair)
    requires WellFormed(net) && p.indexA < |net.circuit| && p.indexB < |net.circuit|
    ensures var r := Attempt(net, p);
            && p.indexB in r.0.connections[p.indexA]
            && (r.1 ==> !SameCircuit(net, p.indexA, p.indexB) && Joined(net, r.0, p.indexA, p.indexB))
            && (!r.1 ==> r.0.circuit == net.circuit && r.0.members == net.members)
            && (Symmetric(net) ==> Symmetric(r.0))
  {
    var a, b := p.indexA, p.indexB;
    if b !in net.connections[a] {
      var linked := Link(net, a, b);
      if Symmetric(net) {
        LinkSymmetric(net, a, b);
      }
      if !SameCircuit(linked, a, b) {
        MergeJoins(linked, a, b);
      }
    }
  }

  /** Boxes sharing a circuit keep sharing one after an attempt. */
  lemma AttemptKeepsTogether(net: Network, p: Pair, i: nat, j: nat)
    requires WellFormed(net) && p.indexA < |net.circuit| && p.indexB < |net.circuit|
    requires i < |net.circuit| && j < |net.circuit| && SameCircuit(net, i, j)
    ensures SameCircuit(Attempt(net, p).0, i, j)
  {
    var a, b := p.indexA, p.indexB;
    if b !in net.connections[a] {
      var linked := Link(net, a, b);
      if !SameCircuit(linked, a, b) {
        MergeKeepsTogether(linked, a, b, i, j);
      }
    }
  }

  /** The number of pairs `formCircuitConnections` examines. */
  function Examined(count: nat, maxConnections: int): (k: nat)
    ensures k <= count && (maxConnections <= 0 ==> k == 0)
    ensures maxConnections > 0 ==> k == if count <= maxConnections then count else maxConnections
  {
    if maxConnections <= 0 then 0 else if count <= maxConnections then count else maxConnections
  }

  /** The pairs' attempts in order: the network after them and the new
      connections made. */
  function Form(net: Network, pairs: seq<Pair>): (r: (Network, seq<(nat, nat)>))
    requires WellFormed(net) && PairsIn(pairs, |net.circuit|)
    ensures WellFormed(r.0) && |r.0.circuit| == |net.circuit| && |r.1| <= |pairs|
    decreases |pairs|
  {
    if |pairs| == 0 then (net, [])
    else
      var last := pairs[|pairs| - 1];
      var before := Form(net, pairs[..|pairs| - 1]);
      var step := Attempt(before.0, last);
      (step.0, before.1 + if step.1 then [(last.indexA, last.indexB)] else [])
  }

  /** Adjacency stays symmetric. */
  lemma {:induction false} FormSymmetric(net: Network, pairs: seq<Pair>)
    requires WellFormed(net) && PairsIn(pairs, |net.circuit|) && Symmetric(net)
    ensures Symmetric(Form(net, pairs).0)
    decreases |pairs|
  {
    if |pairs| > 0 {
      var front := pairs[..|pairs| - 1];
      FormSymmetric(net, front);
      AttemptEffects(Form(net, front).0, pairs[|pairs| - 1]);
    }
  }

  /** Every connection in `made` is one of the pairs, and its two boxes
      share a circuit in `net`. */
  ghost predicate Recorded(net: Network, made: seq<(nat, nat)>, pairs: seq<Pair>)
  {
    forall k :: 0 <= k < |made| ==>
      made[k] in Endpoints(pairs) && made[k].0 < |net.circuit| && made[k].1 < |net.circuit|
      && SameCircuit(net, made[k].0, made[k].1)
  }

  /** Every connection made is one of the pairs, and its two boxes end up
      in one circuit. */
  lemma {:induction false} FormConnections(net: Network, pairs: seq<Pair>)
    requires WellFormed(net) && PairsIn(pairs, |net.circuit|)
    ensures Recorded(Form(net, pairs).0, Form(net, pairs).1, pairs)
    decreases |pairs|
  {
    if |pairs| > 0 {
      var front, last := pairs[..|pairs| - 1], pairs[|pairs| - 1];
      FormConnections(net, front);
      var before := Form(net, front);
      var step := Attempt(before.0, last);
      var made := Form(net, pairs).1;
      assert made == before.1 + if step.1 then [(last.indexA, last.indexB)] else [];
      assert Endpoints(pairs) == Endpoints(front) + {(last.indexA, last.indexB)};
      AttemptEffects(before.0, last);
      forall k | 0 <= k < |made|
        ensures made[k] in Endpoints(pairs) && made[k].0 < |net.circuit| && made[k].1 < |net.circuit|
                && SameCircuit(step.0, made[k].0, made[k].1)
      {
        if k < |before.1| {
          assert made[k] == before.1[k];
          AttemptKeepsTogether(before.0, last, made[k].0, made[k].1);
        }
      }
    }
  }

  /** The two boxes of each pair. */
  function Endpoints(pairs: seq<Pair>): (r: set<(nat, nat)>)
    ensures forall a, b :: (a, b) in r <==> exists k :: 0 <= k < |pairs| && pairs[k].indexA == a && pairs[k].indexB == b
  {
    if |pairs| == 0 then {}
    else
      var front := pairs[..|pairs| - 1];
      var r := Endpoints(front);
      assert forall k :: 0 <= k < |front| ==> front[k] == pairs[k];
      r + {(pairs[|pairs| - 1].indexA, pairs[|pairs| - 1].indexB)}
  }

  /** `Form` one pair further. */
  lemma FormStep(net: Network, pairs: seq<Pair>, k: nat)
    requires WellFormed(net) && PairsIn(pairs, |net.circuit|) && k < |pairs|
    ensures var before := Form(net, pairs[..k]);
            var step := Attempt(before.0, pairs[k]);
            Form(net, pairs[..k + 1]) == (step.0, before.1 + if step.1 then [(pairs[k].indexA, pairs[k].indexB)] else [])
  {
    assert pairs[..k + 1][..k] == pairs[..k];
  }

  /** The body of `formCircuitConnections`' loop for one pair. */
  method AttemptPair(net: Network, p: Pair) returns (m: Network, connected: bool)
    requires WellFormed(net) && p.indexA < |net.circuit| && p.indexB < |net.circuit|
    ensures (m, connected) == Attempt(net, p)
  {
    var a, b := p.indexA, p.indexB;
    if b in net.connections[a] {
      return net, false;
    }
    if SameCircuit(net, a, b) {
      return Link(net, a, b), false;
    }
    m := Link(net, a, b);
    m := MergeCircuits(m, a, b);
    connected := true;
  }

  /** `formCircuitConnections`: the first `maxConnections` pairs, in order. */
  method FormCircuitConnections(net: Network, pairs: seq<Pair>, maxConnections: int)
    returns (m: Network, connections: seq<(nat, nat)>)
    requires WellFormed(net) && PairsIn(pairs, |net.circuit|)
    ensures (m, connections) == Form(net, pairs[..Examined(|pairs|, maxConnections)])
  {
    m, connections := net, [];
    var attemptCount := 0;
    var k := 0;
    while k < |pairs|
      invariant k == attemptCount <= Examined(|pairs|, maxConnections)
      invariant (m, connections) == Form(net, pairs[..k])
    {
      if attemptCount >= maxConnections {
        break;
      }
      attemptCount := attemptCount + 1;
      FormStep(net, pairs, k);
      var connected;
      m, connected := AttemptPair(m, pairs[k]);
      if connected {
        connections := connections + [(pairs[k].indexA, pairs[k].indexB)];
      } else {
        assert connections + [] == connections;
      }
      k := k + 1;
    }
  }

  // ---------------------------------------------------------------------------
  // Counting circuits

  /** The distinct circuits boxes point to. */
  function LiveCircuits(circuit: seq<Option<nat>>): (r: set<nat>)
    ensures forall c :: c in r <==> exists i :: 0 <= i < |circuit| && circuit[i] == Some(c)
  {
    if |circuit| == 0 then {}
    else
      var front := circuit[..|circuit| - 1];
      var r := LiveCircuits(front);
      assert forall i :: 0 <= i < |front| ==> front[i] == circuit[i];
      r + match circuit[|circuit| - 1] case None => {} case Some(c) => {c}
  }

  /** The number of boxes without a circuit. */
  function Unconnected(circuit: seq<Option<nat>>): (r: nat)
    ensures r <= |circuit| && (r == 0 <==> forall i :: 0 <= i < |circuit| ==> circuit[i].Some?)
  {
    if |circuit| == 0 then 0
    else
      var front := circuit[..|circuit| - 1];
      assert forall i :: 0 <= i < |front| ==> front[i] == circuit[i];
      Unconnected(front) + if circuit[|circuit| - 1].None? then 1 else 0
  }

  lemma CountStep(circuit: seq<Option<nat>>, i: nat)
    requires i < |circuit|
    ensures LiveCircuits(circuit[..i + 1]) == LiveCircuits(circuit[..i]) + match circuit[i] case None => {} case Some(c) => {c}
    ensures Unconnected(circuit[..i + 1]) == Unconnected(circuit[..i]) + if circuit[i].None? then 1 else 0
  {
    assert circuit[..i + 1][..i] == circuit[..i];
  }

  /** The two counts of the source: distinct circuits in use and boxes
      without one. Their sum is part 1's count of circuits. */
  method CountCircuits(net: Network) returns (circuits: nat, unconnected: nat)
    ensures circuits == |LiveCircuits(net.circuit)| && unconnected == Unconnected(net.circuit)
  {
    var live := {};
    unconnected := 0;
    for i := 0 to |net.circuit|
      invariant live == LiveCircuits(net.circuit[..i]) && unconnected == Unconnected(net.circuit[..i])
    {
      CountStep(net.circuit, i);
      match net.circuit[i]
      case None => unconnected := unconnected + 1;
      case Some(c) => live := live + {c};
    }
    assert net.circuit[..|net.circuit|] == net.circuit;
    circuits := |live|;
  }

  /** All boxes share one circuit. */
  ghost predicate AllJoined(net: Network)
  {
    forall i, j :: 0 <= i < |net.circuit| && 0 <= j < |net.circuit| ==> SameCircuit(net, i, j)
  }

  /** The source's test for part 2, one circuit in use and no box without
      one, holds exactly when all boxes (at least one) share a circuit. */
  lemma OneCircuit(net: Network)
    requires |net.circuit| > 0
    ensures |LiveCircuits(net.circuit)| == 1 && Unconnected(net.circuit) == 0 <==> AllJoined(net)
  {
    if |LiveCircuits(net.circuit)| == 1 && Unconnected(net.circuit) == 0 {
      OneCircuitJoins(net);
    }
    if AllJoined(net) {
      JoinedIsOneCircuit(net);
    }
  }

  lemma OneCircuitJoins(net: Network)
    requires |net.circuit| > 0 && |LiveCircuits(net.circuit)| == 1 && Unconnected(net.circuit) == 0
    ensures AllJoined(net)
  {
    var live := LiveCircuits(net.circuit);
    assert net.circuit[0].Some?;
    var c := net.circuit[0].value;
    assert c in live;
    forall i | 0 <= i < |net.circuit| ensures net.circuit[i] == Some(c) {
      var d := net.circuit[i].value;
      assert d in live;
      if d != c {
        SubsetCard({c, d}, live);
      }
    }
  }

  lemma JoinedIsOneCircuit(net: Network)
    requires |net.circuit| > 0 && AllJoined(net)
    ensures |LiveCircuits(net.circuit)| == 1 && Unconnected(net.circuit) == 0
  {
    assert SameCircuit(net, 0, 0);
    var c := net.circuit[0].value;
    forall i | 0 <= i < |net.circuit| ensures net.circuit[i] == Some(c) {
      assert SameCircuit(net, 0, i);
    }
    forall d | d in LiveCircuits(net.circuit) ensures d == c {
      var i :| 0 <= i < |net.circuit| && net.circuit[i] == Some(d);
    }
    assert c in LiveCircuits(net.circuit);
    assert LiveCircuits(net.circuit) == {c};
  }

  /** The sorted pairs refer to the boxes. */
  lemma SortedPairsIn(boxes: seq<Box>)
    ensures PairsIn(SortPairs(Rows(boxes, |boxes|)), |boxes|)
  {
    PairsWellFormed(boxes, SortPairs(Rows(boxes, |boxes|)));
  }

  // ---------------------------------------------------------------------------
  // Part 2: connecting until one circuit is left

  /** The loop of `solveForSecondStar`: pairs already directly connected
      or already in one circuit are skipped; any other pair is linked and
      merged, and the loop stops at the first merge after which every box
      is in one circuit, with that pair. */
  function FinishConnecting(net: Network, pairs: seq<Pair>): (r: (Network, Option<Pair>))
    requires WellFormed(net) && PairsIn(pairs, |net.circuit|)
    ensures WellFormed(r.0) && |r.0.circuit| == |net.circuit|
    decreases |pairs|
  {
    if |pairs| == 0 then (net, None)
    else
      var p := pairs[0];
      var a, b := p.indexA, p.indexB;
      PairsInTail(pairs, |net.circuit|);
      if b in net.connections[a] || SameCircuit(net, a, b) then FinishConnecting(net, pairs[1..])
      else
        var linked := Link(net, a, b);
        MergeJoins(linked, a, b);
        var m := Merge(linked, a, b);
        if |LiveCircuits(m.circuit)| == 1 && Unconnected(m.circuit) == 0 then (m, Some(p))
        else FinishConnecting(m, pairs[1..])
  }

  lemma PairsInTail(pairs: seq<Pair>, n: nat)
    requires PairsIn(pairs, n) && |pairs| > 0
    ensures PairsIn(pairs[1..], n)
  {
    forall k | 0 <= k < |pairs[1..]| ensures pairs[1..][k].indexA < n && pairs[1..][k].indexB < n {
      assert pairs[1..][k] == pairs[k + 1];
    }
  }

  /** The loop reports a pair only once every box is in one circuit, and
      reports none only when no merge along the way joined them all. */
  lemma {:induction false} FinishConnectingResult(net: Network, pairs: seq<Pair>)
    requires WellFormed(net) && PairsIn(pairs, |net.circuit|)
    ensures var r := FinishConnecting(net, pairs);
            && (r.1.Some? ==> r.1.value in pairs && AllJoined(r.0))
            && (r.1.None? && !AllJoined(net) ==> !AllJoined(r.0))
    decreases |pairs|
  {
    if |pairs| > 0 {
      var p := pairs[0];
      var a, b := p.indexA, p.indexB;
      PairsInTail(pairs, |net.circuit|);
      if b in net.connections[a] || SameCircuit(net, a, b) {
        FinishConnectingResult(net, pairs[1..]);
      } else {
        var linked := Link(net, a, b);
        MergeJoins(linked, a, b);
        var m := Merge(linked, a, b);
        OneCircuit(m);
        FinishConnectingResult(m, pairs[1..]);
      }
    }
  }

  /** `FinishConnecting` from the `k`-th pair on. */
  lemma FinishStep(net: Network, pairs: seq<Pair>, k: nat)
    requires WellFormed(net) && PairsIn(pairs, |net.circuit|) && k < |pairs|
    ensures PairsIn(pairs[k..], |net.circuit|) && PairsIn(pairs[k + 1..], |net.circuit|)
    ensures pairs[k..][1..] == pairs[k + 1..] && pairs[k..][0] == pairs[k]
  {
    assert forall l :: k <= l < |pairs| ==> pairs[k..][l - k] == pairs[l];
    assert forall l :: k + 1 <= l < |pairs| ==> pairs[k + 1..][l - k - 1] == pairs[l];
  }

  /** The same loop as the source runs it, counting the circuits after
      each merge. */
  method ConnectAll(net: Network, pairs: seq<Pair>) returns (m: Network, lastConnectedPair: Option<Pair>)
    requires WellFormed(net) && PairsIn(pairs, |net.circuit|)
    ensures (m, lastConnectedPair) == FinishConnecting(net, pairs)
  {
    m := net;
    var k := 0;
    assert pairs[0..] == pairs;
    while k < |pairs|
      invariant k <= |pairs| && WellFormed(m) && |m.circuit| == |net.circuit| && PairsIn(pairs[k..], |net.circuit|)
      invariant FinishConnecting(net, pairs) == FinishConnecting(m, pairs[k..])
    {
      FinishStep(m, pairs, k);
      var a, b := pairs[k].indexA, pairs[k].indexB;
      k := k + 1;
      if b in m.connections[a] {
        continue;
      }
      if SameCircuit(m, a, b) {
        continue;
      }
      m := Link(m, a, b);
      m := MergeCircuits(m, a, b);
      var circuits, unconnected := CountCircuits(m);
      if circuits == 1 && unconnected == 0 {
        return m, Some(pairs[k - 1]);
      }
    }
    return m, None;
  }

  // ---------------------------------------------------------------------------
  // Part 1: circuit sizes

  /** The circuits in use, in the order a `Set` built from the boxes'
      circuits lists them: by first appearance. */
  function FirstSeen(circuit: seq<Option<nat>>): (r: seq<nat>)
    ensures forall c :: c in r <==> c in LiveCircuits(circuit)
    ensures forall k, l :: 0 <= k < l < |r| ==> r[k] != r[l]
  {
    if |circuit| == 0 then []
    else
      var front := FirstSeen(circuit[..|circuit| - 1]);
      match circuit[|circuit| - 1]
      case Some(c) => if c in front then front else front + [c]
      case None => front
  }

  function CircuitSize(net: Network, c: nat): nat
  {
    if c in net.members then |net.members[c]| else 0
  }

  /** `circuitSizes`: one size per circuit in use, then a 1 for each box
      without a circuit. */
  function Sizes(net: Network): seq<nat>
  {
    var order := FirstSeen(net.circuit);
    seq(|order|, k requires 0 <= k < |order| => CircuitSize(net, order[k])) + seq(Unconnected(net.circuit), _ => 1)
  }

  /** One size per circuit in use and per box without one. */
  lemma SizesCount(net: Network)
    ensures |Sizes(net)| == |LiveCircuits(net.circuit)| + Unconnected(net.circuit)
  {
    var order := FirstSeen(net.circuit);
    DistinctCard(order);
    assert Elements(order) == LiveCircuits(net.circuit);
  }

  function Elements(s: seq<nat>): (r: set<nat>)
    ensures forall x :: x in r <==> x in s
  {
    if |s| == 0 then {} else Elements(s[..|s| - 1]) + {s[|s| - 1]}
  }

  lemma {:induction false} DistinctCard(s: seq<nat>)
    requires forall k, l :: 0 <= k < l < |s| ==> s[k] != s[l]
    ensures |Elements(s)| == |s|
  {
    if |s| > 0 {
      var n := |s| - 1;
      DistinctCard(s[..n]);
      assert s[n] !in Elements(s[..n]);
    }
  }

  predicate Descending(s: seq<nat>)
  {
    forall k, l :: 0 <= k < l < |s| ==> s[k] >= s[l]
  }

  /** Every entry of `s` is at least `x`. */
  predicate AllAtLeast(s: seq<nat>, x: nat)
  {
    forall k :: 0 <= k < |s| ==> s[k] >= x
  }

  lemma AllAtLeastOfMultiset(s: seq<nat>, t: seq<nat>, x: nat)
    requires multiset(s) == multiset(t) && AllAtLeast(t, x)
    ensures AllAtLeast(s, x)
  {
    forall k | 0 <= k < |s| ensures s[k] >= x {
      assert s[k] in multiset(t);
    }
  }

  /** `x` placed after every size at least as large. */
  function InsertSize(sorted: seq<nat>, x: nat): (r: seq<nat>)
    requires Descending(sorted)
    ensures multiset(r) == multiset(sorted) + multiset{x} && Descending(r)
  {
    if |sorted| == 0 then [x]
    else
      var last := sorted[|sorted| - 1];
      if last >= x then
        assert AllAtLeast(sorted, x);
        DescendingAppend(sorted, x);
        sorted + [x]
      else
        var front := sorted[..|sorted| - 1];
        assert sorted == front + [last];
        var r := InsertSize(front, x);
        assert AllAtLeast(front + [x], last);
        AllAtLeastOfMultiset(r, front + [x], last);
        DescendingAppend(r, last);
        r + [last]
  }

  lemma DescendingAppend(s: seq<nat>, x: nat)
    requires Descending(s) && AllAtLeast(s, x)
    ensures Descending(s + [x])
  {
  }

  /** `circuitSizes.sort((a, b) => b.size - a.size)` */
  function SortDescending(s: seq<nat>): (r: seq<nat>)
    ensures multiset(r) == multiset(s) && Descending(r)
  {
    if |s| == 0 then []
    else
      assert s == s[..|s| - 1] + [s[|s| - 1]];
      InsertSize(SortDescending(s[..|s| - 1]), s[|s| - 1])
  }

  /** `.slice(0, 3).reduce((product, circuit) => product * circuit.size, 1)` */
  function ProductOfFirstThree(s: seq<nat>): nat
  {
    if |s| == 0 then 1 else if |s| == 1 then s[0] else if |s| == 2 then s[0] * s[1] else s[0] * s[1] * s[2]
  }

  /** The sizes as the source collects them: the circuits in order of first
      appearance, then the boxes without one. */
  method CircuitSizes(net: Network) returns (sizes: seq<nat>)
    ensures sizes == Sizes(net)
  {
    var order := CircuitsInUse(net.circuit);
    sizes := [];
    for k := 0 to |order|
      invariant sizes == seq(k, l requires 0 <= l < k => CircuitSize(net, order[l]))
    {
      sizes := sizes + [CircuitSize(net, order[k])];
    }
    var ones := [];
    for i := 0 to |net.circuit|
      invariant ones == seq(Unconnected(net.circuit[..i]), _ => 1)
    {
      assert net.circuit[..i + 1][..i] == net.circuit[..i];
      if net.circuit[i].None? {
        ones := ones + [1];
      }
    }
    assert net.circuit[..|net.circuit|] == net.circuit;
    sizes := sizes + ones;
  }

  /** `new Set(junctionBoxes.map(box => box.circuit).filter(circuit => circuit !== null))` */
  method CircuitsInUse(circuit: seq<Option<nat>>) returns (order: seq<nat>)
    ensures order == FirstSeen(circuit)
  {
    order := [];
    for i := 0 to |circuit|
      invariant order == FirstSeen(circuit[..i])
    {
      assert circuit[..i + 1][..i] == circuit[..i];
      if circuit[i].Some? && circuit[i].value !in order {
        order := order + [circuit[i].value];
      }
    }
    assert circuit[..|circuit|] == circuit;
  }

  // ---------------------------------------------------------------------------
  // The two parts

  /** The circuits in use after the first `connectionCount` pairs. */
  function Connected(boxes: seq<Box>, connectionCount: int): (net: Network)
    ensures WellFormed(net) && |net.circuit| == |boxes|
  {
    var pairs := SortPairs(Rows(boxes, |boxes|));
    SortedPairsIn(boxes);
    Form(Initial(|boxes|), pairs[..Examined(|pairs|, connectionCount)]).0
  }

  /** Part 1's two results: the number of circuits (those in use plus the
      boxes in none) and the product of the three largest sizes. */
  function FirstStar(boxes: seq<Box>, connectionCount: int): (nat, nat)
  {
    var net := Connected(boxes, connectionCount);
    (|LiveCircuits(net.circuit)| + Unconnected(net.circuit), ProductOfFirstThree(SortDescending(Sizes(net))))
  }

  /** Part 2's answer: the product of the `x` coordinates of the pair
      whose merge left one circuit, if any. */
  function SecondStar(boxes: seq<Box>, connectionCount: int): Option<int>
  {
    var pairs := SortPairs(Rows(boxes, |boxes|));
    SortedPairsIn(boxes);
    var net := Connected(boxes, connectionCount);
    var last := FinishConnecting(net, pairs).1;
    FinishConnectingResult(net, pairs);
    if last.None? then None else Some(boxes[last.value.indexA].x * boxes[last.value.indexB].x)
  }

  /** `solveForFirstStar` */
  method SolveForFirstStar(input: String, connectionCount: int) returns (r: Result<(nat, nat), String>)
    ensures ParseJunctionBoxes(input).None? ==> r.Err?
    ensures ParseJunctionBoxes(input).Some? ==> r == Ok(FirstStar(ParseJunctionBoxes(input).value, connectionCount))
  {
    var parsed := ParseJunctionBoxes(input);
    if parsed.None? {
      return Err("a coordinate is not a number");
    }
    var answer := FirstStarOf(parsed.value, connectionCount);
    return Ok(answer);
  }

  /** Part 1 on boxes already parsed: connect the nearest pairs, then
      count the circuits and multiply the three largest sizes. */
  method FirstStarOf(boxes: seq<Box>, connectionCount: int) returns (answer: (nat, nat))
    ensures answer == FirstStar(boxes, connectionCount)
  {
    var allPairs := FindAllPairs(boxes);
    SortedPairsIn(boxes);
    var net, _ := FormCircuitConnections(Initial(|boxes|), allPairs, connectionCount);
    assert net == Connected(boxes, connectionCount);
    var circuits, unconnected := CountCircuits(net);
    var sizes := CircuitSizes(net);
    answer := (circuits + unconnected, ProductOfFirstThree(SortDescending(sizes)));
    ghost var expected := FirstStar(boxes, connectionCount);
    assert expected.0 == answer.0 && expected.1 == answer.1;
  }

  /** `solveForSecondStar`: keep connecting past the first
      `connectionCount` pairs until one circuit is left. With no such pair
      the source fails reading `null`. */
  method SolveForSecondStar(input: String, connectionCount: int) returns (r: Result<int, String>)
    ensures ParseJunctionBoxes(input).None? ==> r.Err?
    ensures ParseJunctionBoxes(input).Some? ==>
              var answer := SecondStar(ParseJunctionBoxes(input).value, connectionCount);
              (r.Ok? <==> answer.Some?) && (r.Ok? ==> r.value == answer.value)
  {
    var parsed := ParseJunctionBoxes(input);
    if parsed.None? {
      return Err("a coordinate is not a number");
    }
    var boxes := parsed.value;
    var allPairs := FindAllPairs(boxes);
    SortedPairsIn(boxes);
    var net, _ := FormCircuitConnections(Initial(|boxes|), allPairs, connectionCount);
    assert net == Connected(boxes, connectionCount);
    var lastConnectedPair;
    net, lastConnectedPair := ConnectAll(net, allPairs);
    FinishConnectingResult(Connected(boxes, connectionCount), allPairs);
    if lastConnectedPair.None? {
      return Err("lastConnectedPair is null");
    }
    var pair := lastConnectedPair.value;
    return Ok(boxes[pair.indexA].x * boxes[pair.indexB].x);
  }

  lemma {:induction false} SubsetCard(a: set<nat>, b: set<nat>)
    requires a <= b
    ensures |a| <= |b|
    decreases |a|
  {
    if a != {} {
      var x :| x in a;
      SubsetCard(a - {x}, b - {x});
    }
  }
}
