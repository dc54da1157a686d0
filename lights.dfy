/** The indicator-light machines of day 10 (solutions/day10/solution.js):
    parsing a machine's light diagram and wiring schematics, turning them
    into bit masks, and the breadth-first search for the fewest button
    presses that switch on exactly the lights the diagram asks for. */
module Lights {
  import opened Wrappers
  import opened Text
  import opened Bits

  // ---------------------------------------------------------------------------
  // Machines

  /** A light of the diagram: its character and whether it must end up on. */
  datatype Light = Light(symbol: char, on: bool)

  /** A wiring schematic: the light indexes its button toggles, as `Number`
      made them (`None` is `NaN`), and the token it was read from. */
  datatype Schematic = Schematic(lightIndexes: seq<Option<int>>, name: String)

  datatype Machine = Machine(lights: seq<Light>, schematics: seq<Schematic>, joltage: seq<Option<int>>)

  /** `token.slice(1, -1)`: the token without its brackets. */
  function Inner(token: String): String
  {
    Slice(token, 1, -1)
  }

  /** The lights a `[...]` token lists, one per character. */
  function DiagramOf(token: String): seq<Light>
  {
    var chars := Inner(token);
    seq(|chars|, k requires 0 <= k < |chars| => Light(chars[k], chars[k] == '#'))
  }

  /** The numbers of a `(...)` or `{...}` token: its comma-separated,
      non-empty pieces through `Number`. */
  function NumbersOf(token: String): seq<Option<int>>
  {
    var values := Filter(Split(Inner(token), ","), (v: String) => |v| > 0);
    seq(|values|, k requires 0 <= k < |values| => Number(values[k]))
  }

  /** What one token of a line adds, chosen by its first character;
      any other token is ignored. */
  function AddToken(m: Machine, token: String): Machine
  {
    if |token| == 0 then m
    else if token[0] == '[' then m.(lights := m.lights + DiagramOf(token))
    else if token[0] == '(' then m.(schematics := m.schematics + [Schematic(NumbersOf(token), token)])
    else if token[0] == '{' then m.(joltage := m.joltage + NumbersOf(token))
    else m
  }

  /** The machine the tokens describe, before the wiring is checked. */
  function Collect(tokens: seq<String>): Machine
  {
    if |tokens| == 0 then Machine([], [], []) else AddToken(Collect(tokens[..|tokens| - 1]), tokens[|tokens| - 1])
  }

  /** The range check of the linking loop; `NaN` fails both comparisons
      and passes. */
  predicate InRange(index: Option<int>, lightCount: nat)
  {
    index.None? || 0 <= index.value < lightCount
  }

  /** Every wired button refers to a light of the diagram. */
  predicate Linked(m: Machine)
  {
    forall s, k :: 0 <= s < |m.schematics| && 0 <= k < |m.schematics[s].lightIndexes| ==>
      InRange(m.schematics[s].lightIndexes[k], |m.lights|)
  }

  /** A light is to be switched on exactly when its character is `#`. */
  predicate Lit(lights: seq<Light>)
  {
    forall i :: 0 <= i < |lights| ==> (lights[i].on <==> lights[i].symbol == '#')
  }

  lemma {:induction false} CollectLit(tokens: seq<String>)
    ensures Lit(Collect(tokens).lights)
  {
    if |tokens| > 0 {
      CollectLit(tokens[..|tokens| - 1]);
    }
  }

  /** The machine a line describes, before the wiring is checked. */
  function LineMachine(line: String): Machine
  {
    Collect(Split(line, " "))
  }

  /** `parseLine`: the tokens separated by single spaces fill the diagram,
      the schematics and the joltage requirements in order; then every
      wired button is checked against the diagram, and a light index out of
      range throws. */
  method ParseLine(line: String) returns (r: Result<Machine, String>)
    ensures r.Ok? <==> Linked(LineMachine(line))
    ensures r.Ok? ==> r.value == LineMachine(line) && Lit(r.value.lights)
  {
    var tokens := Split(line, " ");
    var lightDiagram, wiringSchematics, joltageRequirements := [], [], [];
    for t := 0 to |tokens|
      invariant Machine(lightDiagram, wiringSchematics, joltageRequirements) == Collect(tokens[..t])
    {
      var token := tokens[t];
      assert tokens[..t + 1][..t] == tokens[..t];
      if |token| > 0 && token[0] == '[' {
        lightDiagram := lightDiagram + DiagramOf(token);
      } else if |token| > 0 && token[0] == '(' {
        wiringSchematics := wiringSchematics + [Schematic(NumbersOf(token), token)];
      } else if |token| > 0 && token[0] == '{' {
        joltageRequirements := joltageRequirements + NumbersOf(token);
      }
    }
    assert tokens[..|tokens|] == tokens;
    var machine := Machine(lightDiagram, wiringSchematics, joltageRequirements);
    for s := 0 to |wiringSchematics|
      invariant forall s', k :: 0 <= s' < s && 0 <= k < |wiringSchematics[s'].lightIndexes| ==>
                  InRange(wiringSchematics[s'].lightIndexes[k], |lightDiagram|)
    {
      var indexes := wiringSchematics[s].lightIndexes;
      for k := 0 to |indexes|
        invariant forall k' :: 0 <= k' < k ==> InRange(indexes[k'], |lightDiagram|)
      {
        if indexes[k].Some? && (indexes[k].value < 0 || indexes[k].value >= |lightDiagram|) {
          return Err("Invalid light index in wiring schematic");
        }
      }
    }
    CollectLit(tokens);
    return Ok(machine);
  }

  /** `machine` is what `parseLine` returns for `line`. */
  predicate ParsedFrom(machine: Machine, line: String)
  {
    Linked(LineMachine(line)) && machine == LineMachine(line) && Lit(machine.lights)
  }

  /** `parseMachineInstructions`: one machine per trimmed, non-empty line;
      the first line with a bad light index throws. */
  method ParseMachineInstructions(input: String) returns (r: Result<seq<Machine>, String>)
    ensures var lines := TrimmedNonEmpty(input, "\n");
            r.Ok? <==> forall k :: 0 <= k < |lines| ==> Linked(LineMachine(lines[k]))
    ensures var lines := TrimmedNonEmpty(input, "\n");
            r.Ok? ==> |r.value| == |lines| && forall k :: 0 <= k < |lines| ==> ParsedFrom(r.value[k], lines[k])
  {
    var lines := TrimmedNonEmpty(input, "\n");
    var machines := [];
    for k := 0 to |lines|
      invariant |machines| == k
      invariant forall j :: 0 <= j < k ==> ParsedFrom(machines[j], lines[j])
    {
      var machine := ParseLine(lines[k]);
      if machine.Err? {
        return Err(machine.error);
      }
      machines := machines + [machine.value];
    }
    return Ok(machines);
  }

  // ---------------------------------------------------------------------------
  // Masks

  /** The lights to switch on as a mask: bit `i` for light `i`. */
  function TargetMask(lights: seq<Light>): (mask: nat)
    ensures mask < Pow2(|lights|)
    ensures forall i: nat :: Bit(mask, i) <==> i < |lights| && lights[i].on
  {
    if |lights| == 0 then
      assert forall i: nat :: !Bit(0, i) by {
        forall i: nat ensures !Bit(0, i) { BitOfZero(i); }
      }
      0
    else
      var n := |lights| - 1;
      var m := TargetMask(lights[..n]);
      Pow2Monotone(n, n + 1);
      if lights[n].on then
        assert m < Pow2(n + 1) && Pow2(n) < Pow2(n + 1);
        OrBelow(m, Pow2(n), n + 1);
        assert forall i: nat :: Bit(Or(m, Pow2(n)), i) <==> i < |lights| && lights[i].on by {
          forall i: nat ensures Bit(Or(m, Pow2(n)), i) <==> i < |lights| && lights[i].on {
            BitOfOr(m, Pow2(n), i);
            BitOfPow2(n, i);
          }
        }
        Or(m, Pow2(n))
      else
        m
  }

  /** `1n << BigInt(i)`; a negative shift shifts right, and `1n >> k` is 0. */
  function Shift(i: int): nat
  {
    if i >= 0 then Pow2(i) else 0
  }

  /** A button's mask: the XOR of `1n << index` over its wired lights. */
  function ButtonMask(indexes: seq<int>): nat
  {
    if |indexes| == 0 then 0 else Xor(ButtonMask(indexes[..|indexes| - 1]), Shift(indexes[|indexes| - 1]))
  }

  /** A button toggles light `i` exactly when `i` is wired an odd number of
      times: an index listed twice cancels out. */
  lemma {:induction false} ButtonMaskBits(indexes: seq<int>, i: nat)
    ensures Bit(ButtonMask(indexes), i) <==> multiset(indexes)[i] % 2 == 1
  {
    if |indexes| == 0 {
      BitOfZero(i);
    } else {
      var n := |indexes| - 1;
      ButtonMaskBits(indexes[..n], i);
      BitOfXor(ButtonMask(indexes[..n]), Shift(indexes[n]), i);
      assert indexes == indexes[..n] + [indexes[n]];
      assert multiset(indexes) == multiset(indexes[..n]) + multiset{indexes[n]};
      assert multiset(indexes)[i] == multiset(indexes[..n])[i] + if indexes[n] == i then 1 else 0;
      if indexes[n] >= 0 {
        BitOfPow2(indexes[n], i);
      } else {
        BitOfZero(i);
      }
    }
  }

  /** A button whose indexes are all in range only toggles lights of the diagram. */
  lemma {:induction false} ButtonMaskBelow(indexes: seq<int>, n: nat)
    requires forall k :: 0 <= k < |indexes| ==> indexes[k] < n
    ensures ButtonMask(indexes) < Pow2(n)
  {
    if |indexes| > 0 {
      var last := |indexes| - 1;
      ButtonMaskBelow(indexes[..last], n);
      if indexes[last] >= 0 {
        Pow2Monotone(indexes[last] + 1, n);
      }
      XorBelow(ButtonMask(indexes[..last]), Shift(indexes[last]), n);
    }
  }

  /** A button of the search: its mask and its label. */
  datatype Button = Button(mask: nat, name: String)

  /** The indexes of a schematic, or `None` when one is `NaN`, on which
      `BigInt` throws. */
  function Indexes(wired: seq<Option<int>>): (r: Option<seq<int>>)
    ensures r.Some? <==> forall k :: 0 <= k < |wired| ==> wired[k].Some?
    ensures r.Some? ==> |r.value| == |wired| && forall k :: 0 <= k < |wired| ==> r.value[k] == wired[k].value
  {
    if |wired| == 0 then Some([])
    else match Indexes(wired[..|wired| - 1])
      case None => None
      case Some(init) =>
        if wired[|wired| - 1].None? then None else Some(init + [wired[|wired| - 1].value])
  }

  /** The buttons of `solveMachineInFewestButtonPresses`: one per schematic
      whose mask is not zero, in order; `None` when an index is `NaN`. */
  function Buttons(schematics: seq<Schematic>): (r: Option<seq<Button>>)
    ensures r.Some? <==> forall s :: 0 <= s < |schematics| ==> Indexes(schematics[s].lightIndexes).Some?
    ensures r.Some? ==> forall b :: 0 <= b < |r.value| ==> r.value[b].mask != 0
  {
    if |schematics| == 0 then Some([])
    else
      var last := schematics[|schematics| - 1];
      match Buttons(schematics[..|schematics| - 1])
      case None => None
      case Some(init) =>
        match Indexes(last.lightIndexes)
        case None => None
        case Some(indexes) =>
          var mask := ButtonMask(indexes);
          Some(if mask == 0 then init else init + [Button(mask, last.name)])
  }

  // ---------------------------------------------------------------------------
  // Pressing buttons

  /** Every press names a button. */
  predicate ValidPresses(buttons: seq<Button>, presses: seq<nat>)
  {
    forall k :: 0 <= k < |presses| ==> presses[k] < |buttons|
  }

  /** The lights after pressing `presses` in order, starting from `start`. */
  function Run(buttons: seq<Button>, start: nat, presses: seq<nat>): nat
    requires ValidPresses(buttons, presses)
  {
    if |presses| == 0 then start
    else Xor(Run(buttons, start, presses[..|presses| - 1]), buttons[presses[|presses| - 1]].mask)
  }

  /** Pressing `b` first and then `presses` is running `presses` from the
      state `b` leads to. */
  lemma {:induction false} RunCons(buttons: seq<Button>, start: nat, b: nat, presses: seq<nat>)
    requires b < |buttons| && ValidPresses(buttons, presses)
    ensures ValidPresses(buttons, [b] + presses)
    ensures Run(buttons, start, [b] + presses) == Run(buttons, Xor(start, buttons[b].mask), presses)
  {
    if |presses| > 0 {
      var n := |presses| - 1;
      assert ([b] + presses)[..n + 1] == [b] + presses[..n];
      RunCons(buttons, start, b, presses[..n]);
    }
  }

  /** The labels of the pressed buttons, in order. */
  function Labels(buttons: seq<Button>, presses: seq<nat>): (r: seq<String>)
    requires ValidPresses(buttons, presses)
    ensures |r| == |presses| && forall k :: 0 <= k < |presses| ==> r[k] == buttons[presses[k]].name
  {
    seq(|presses|, k requires 0 <= k < |presses| => buttons[presses[k]].name)
  }

  /** Appending to a sequence puts the element in front of its reversal. */
  lemma {:induction false} ReversedSnoc(s: seq<String>, x: String)
    ensures Reversed(s + [x]) == [x] + Reversed(s)
  {
    if |s| > 0 {
      assert (s + [x])[1..] == s[1..] + [x];
      ReversedSnoc(s[1..], x);
    }
  }

  /** `combinations.reverse()` */
  function Reversed(s: seq<String>): (r: seq<String>)
    ensures |r| == |s| && forall k :: 0 <= k < |s| ==> r[k] == s[|s| - 1 - k]
  {
    if |s| == 0 then [] else Reversed(s[1..]) + [s[0]]
  }

  // ---------------------------------------------------------------------------
  // The breadth-first search

  /** A `visited` entry, with the pressed button given by its index into
      the buttons rather than by its label. */
  datatype Node = Node(presses: nat, previousKey: Option<nat>, button: Option<nat>)

  /** The result of `solveMachineInFewestButtonPresses`: `AllOff` is
      `bestSolution 0` with `combinations [[]]`, `NoSolution` is
      `bestSolution null`, and `Fewest` carries the best solution and the
      labels of one press sequence that reaches it. */
  datatype Solution = AllOff | NoSolution | Fewest(bestSolution: nat, combinations: seq<String>)

  /** `visited[k]` records how `k` was first reached: from `previousKey` by
      one press of `button`, one press more than there. */
  ghost predicate Reached(visited: map<nat, Node>, buttons: seq<Button>, k: nat)
    requires k in visited
  {
    var node := visited[k];
    node.previousKey.Some? && node.button.Some? && node.previousKey.value in visited
    && node.button.value < |buttons| && Xor(node.previousKey.value, buttons[node.button.value].mask) == k
    && node.presses == visited[node.previousKey.value].presses + 1
  }

  ghost predicate Chain(visited: map<nat, Node>, buttons: seq<Button>)
  {
    0 in visited && visited[0] == Node(0, None, None)
    && forall k {:trigger Reached(visited, buttons, k)} :: k in visited && k != 0 ==> Reached(visited, buttons, k)
  }

  /** Every neighbour of `x` has been visited, at most one press further. */
  ghost predicate Closed(visited: map<nat, Node>, buttons: seq<Button>, x: nat)
    requires x in visited
  {
    forall b :: 0 <= b < |buttons| ==>
      Xor(x, buttons[b].mask) in visited && visited[Xor(x, buttons[b].mask)].presses <= visited[x].presses + 1
  }

  /** The states below `n`. */
  function Below(n: nat): (r: set<nat>)
    ensures |r| == n && forall x: int :: x in r <==> 0 <= x < n
  {
    if n == 0 then {}
    else
      var r := Below(n - 1);
      assert n - 1 !in r;
      r + {n - 1}
  }

  lemma {:induction false} SubsetCard(a: set<nat>, b: set<nat>)
    requires a <= b
    ensures |a| <= |b|
    decreases |a|
  {
    if a != {} {
      var x :| x in a;
      SubsetCard(a - {x}, b - {x});
    }
  }

  /** The visited states are exactly the queued ones. */
  ghost predicate Mirrors(visited: map<nat, Node>, queue: seq<nat>)
  {
    forall q :: q in visited <==> q in queue
  }

  /** Every queued state is below `n`. */
  ghost predicate QueuedBelow(queue: seq<nat>, n: nat)
  {
    forall i :: 0 <= i < |queue| ==> queue[i] < n
  }

  /** Every button mask is below `n`. */
  ghost predicate MasksBelow(buttons: seq<Button>, n: nat)
  {
    forall b :: 0 <= b < |buttons| ==> buttons[b].mask < n
  }

  /** What holds of the search at every step: the chain of `visited`, one
      queue entry per visited state (the queue keeps every entry, `head`
      standing for the ones `shift` took, and none twice), all states below
      `2^width`, and the target not yet reached. */
  ghost predicate Explored(visited: map<nat, Node>, queue: seq<nat>, buttons: seq<Button>, target: nat, width: nat)
  {
    Chain(visited, buttons) && Mirrors(visited, queue) && |visited| == |queue|
    && QueuedBelow(queue, Pow2(width)) && |queue| <= Pow2(width)
    && target !in visited && target < Pow2(width) && MasksBelow(buttons, Pow2(width))
  }

  /** The queue in breadth-first layers: the entries before `from` are at
      most `level` presses away, those from `from` up to `boundary` exactly
      `level`, and the rest exactly `level + 1`. */
  ghost predicate Layered(visited: map<nat, Node>, queue: seq<nat>, from: nat, boundary: nat, level: nat)
  {
    from <= boundary <= |queue|
    && (forall i :: 0 <= i < from ==> queue[i] in visited && visited[queue[i]].presses <= level)
    && (forall i :: from <= i < boundary ==> queue[i] in visited && visited[queue[i]].presses == level)
    && (forall i :: boundary <= i < |queue| ==> queue[i] in visited && visited[queue[i]].presses == level + 1)
  }

  /** Between two states taken off the queue: the layers start at `head`,
      and every state taken off has all its neighbours visited. */
  ghost predicate Between(visited: map<nat, Node>, queue: seq<nat>, head: nat, buttons: seq<Button>, target: nat, width: nat,
                       level: nat, boundary: nat)
  {
    Explored(visited, queue, buttons, target, width) && Layered(visited, queue, head, boundary, level)
    && (forall i :: 0 <= i < head ==> Closed(visited, buttons, queue[i]))
  }

  /** The buttons before `b` lead from `state` to visited states at most
      `level + 1` presses away. */
  ghost predicate Neighbours(visited: map<nat, Node>, buttons: seq<Button>, state: nat, b: nat, level: nat)
    requires b <= |buttons|
  {
    forall c :: 0 <= c < b ==>
      Xor(state, buttons[c].mask) in visited && visited[Xor(state, buttons[c].mask)].presses <= level + 1
  }

  /** Inside the button loop for the state `queue[head - 1]`, before button
      `b`. */
  ghost predicate Scanning(visited: map<nat, Node>, queue: seq<nat>, head: nat, b: nat, buttons: seq<Button>, target: nat,
                        width: nat, level: nat, boundary: nat)
  {
    Explored(visited, queue, buttons, target, width) && 0 < head && head - 1 < boundary && b <= |buttons|
    && Layered(visited, queue, head - 1, boundary, level)
    && (forall i :: 0 <= i < head - 1 ==> Closed(visited, buttons, queue[i]))
    && Neighbours(visited, buttons, queue[head - 1], b, level)
  }

  lemma {:induction false} BelowOwnPow2(m: nat)
    ensures m < Pow2(m)
  {
    if m > 0 {
      BelowOwnPow2(m - 1);
    }
  }

  /** A width for the state space: at least the target and every mask. */
  function Widest(buttons: seq<Button>, target: nat): (width: nat)
    ensures target < Pow2(width) && forall b :: 0 <= b < |buttons| ==> buttons[b].mask < Pow2(width)
  {
    var width := Largest(buttons, target);
    BelowOwnPow2(target);
    Pow2Monotone(target, width);
    forall b | 0 <= b < |buttons| ensures buttons[b].mask < Pow2(width) {
      BelowOwnPow2(buttons[b].mask);
      Pow2Monotone(buttons[b].mask, width);
    }
    width
  }

  function Largest(buttons: seq<Button>, target: nat): (m: nat)
    ensures target <= m && forall b :: 0 <= b < |buttons| ==> buttons[b].mask <= m
  {
    if |buttons| == 0 then target
    else
      var m := Largest(buttons[..|buttons| - 1], target);
      if buttons[|buttons| - 1].mask > m then buttons[|buttons| - 1].mask else m
  }

  lemma BetweenStart(buttons: seq<Button>, target: nat, width: nat)
    requires target != 0 && target < Pow2(width) && forall b :: 0 <= b < |buttons| ==> buttons[b].mask < Pow2(width)
    ensures Between(map[0 := Node(0, None, None)], [0], 0, buttons, target, width, 0, 1)
  {
  }

  /** Taking the next state off the queue; the layer moves on when the
      current one is used up. */
  lemma BetweenToScanning(visited: map<nat, Node>, queue: seq<nat>, head: nat, buttons: seq<Button>, target: nat, width: nat,
                          level: nat, boundary: nat)
    returns (level': nat, boundary': nat)
    requires Between(visited, queue, head, buttons, target, width, level, boundary) && head < |queue|
    ensures Scanning(visited, queue, head + 1, 0, buttons, target, width, level', boundary')
  {
    if head < boundary {
      level', boundary' := level, boundary;
    } else {
      level', boundary' := level + 1, |queue|;
    }
  }

  /** A neighbour visited before is at most one layer further. */
  lemma ScanningSkip(visited: map<nat, Node>, queue: seq<nat>, head: nat, b: nat, buttons: seq<Button>, target: nat, width: nat,
                     level: nat, boundary: nat)
    requires Scanning(visited, queue, head, b, buttons, target, width, level, boundary) && b < |buttons|
    requires Xor(queue[head - 1], buttons[b].mask) in visited
    ensures Scanning(visited, queue, head, b + 1, buttons, target, width, level, boundary)
  {
    var next := Xor(queue[head - 1], buttons[b].mask);
    assert next in queue;
    var j :| 0 <= j < |queue| && queue[j] == next;
    assert visited[next].presses <= level + 1 by {
      if j < head - 1 {
      } else if j < boundary {
      } else {
      }
    }
  }

  /** Recording a new state reached from `state` by button `b` keeps the chain. */
  lemma ChainPush(visited: map<nat, Node>, buttons: seq<Button>, state: nat, b: nat)
    requires Chain(visited, buttons) && state in visited && b < |buttons|
    requires Xor(state, buttons[b].mask) !in visited
    ensures Chain(visited[Xor(state, buttons[b].mask) := Node(visited[state].presses + 1, Some(state), Some(b))], buttons)
  {
    var next := Xor(state, buttons[b].mask);
    var visited' := visited[next := Node(visited[state].presses + 1, Some(state), Some(b))];
    forall k | k in visited' && k != 0 ensures Reached(visited', buttons, k) {
      if k != next {
        assert Reached(visited, buttons, k);
      }
    }
  }

  /** A new state leaves closed states closed. */
  lemma ClosedPush(visited: map<nat, Node>, buttons: seq<Button>, x: nat, next: nat, node: Node)
    requires x in visited && Closed(visited, buttons, x) && next !in visited
    ensures Closed(visited[next := node], buttons, x)
  {
  }

  /** A new state leaves the closed states at the front of the queue closed. */
  lemma ClosedPrefixPush(visited: map<nat, Node>, queue: seq<nat>, n: nat, buttons: seq<Button>, next: nat, node: Node)
    requires n <= |queue| && next !in visited
    requires forall i :: 0 <= i < n ==> queue[i] in visited
    requires forall i :: 0 <= i < n ==> Closed(visited, buttons, queue[i])
    ensures forall i :: 0 <= i < n ==> Closed(visited[next := node], buttons, (queue + [next])[i])
  {
    forall i | 0 <= i < n ensures Closed(visited[next := node], buttons, (queue + [next])[i]) {
      assert (queue + [next])[i] == queue[i];
      ClosedPush(visited, buttons, queue[i], next, node);
    }
  }

  /** Queueing a new state keeps the queue free of repeats and within the
      state space. */
  lemma ExploredPush(visited: map<nat, Node>, queue: seq<nat>, buttons: seq<Button>, target: nat, width: nat, state: nat,
                     b: nat)
    requires Explored(visited, queue, buttons, target, width) && state in visited && b < |buttons|
    requires Xor(state, buttons[b].mask) !in visited && Xor(state, buttons[b].mask) != target
    ensures var next := Xor(state, buttons[b].mask);
            Explored(visited[next := Node(visited[state].presses + 1, Some(state), Some(b))], queue + [next], buttons, target,
                     width)
  {
    var next := Xor(state, buttons[b].mask);
    var visited' := visited[next := Node(visited[state].presses + 1, Some(state), Some(b))];
    var queue' := queue + [next];
    assert state in queue;
    var s :| 0 <= s < |queue| && queue[s] == state;
    XorBelow(state, buttons[b].mask, width);
    ChainPush(visited, buttons, state, b);
    assert Mirrors(visited', queue');
    assert QueuedBelow(queue', Pow2(width));
    forall k | k in visited'.Keys ensures k in Below(Pow2(width)) {
      assert k in queue';
    }
    SubsetCard(visited'.Keys, Below(Pow2(width)));
  }

  /** A new state one layer beyond the current one goes to the back. */
  lemma LayeredPush(visited: map<nat, Node>, queue: seq<nat>, from: nat, boundary: nat, level: nat, next: nat, node: Node)
    requires Layered(visited, queue, from, boundary, level) && next !in visited && node.presses == level + 1
    ensures Layered(visited[next := node], queue + [next], from, boundary, level)
  {
    var visited', queue' := visited[next := node], queue + [next];
    forall i | 0 <= i < |queue| ensures queue'[i] in visited' && visited'[queue'[i]] == visited[queue[i]] {
      assert queue'[i] == queue[i] && queue[i] in visited;
    }
  }

  /** The earlier neighbours keep their entries when a new state is visited. */
  lemma NeighboursPush(visited: map<nat, Node>, buttons: seq<Button>, state: nat, b: nat, level: nat, node: Node)
    requires b < |buttons| && Neighbours(visited, buttons, state, b, level)
    requires Xor(state, buttons[b].mask) !in visited && node.presses == level + 1
    ensures Neighbours(visited[Xor(state, buttons[b].mask) := node], buttons, state, b + 1, level)
  {
  }

  /** Visiting a new neighbour and queueing it keeps the search's invariant. */
  lemma ScanningPush(visited: map<nat, Node>, queue: seq<nat>, head: nat, b: nat, buttons: seq<Button>, target: nat,
                     width: nat, level: nat, boundary: nat)
    requires Scanning(visited, queue, head, b, buttons, target, width, level, boundary) && b < |buttons|
    requires Xor(queue[head - 1], buttons[b].mask) !in visited && Xor(queue[head - 1], buttons[b].mask) != target
    ensures var state := queue[head - 1];
            var next := Xor(state, buttons[b].mask);
            Scanning(visited[next := Node(visited[state].presses + 1, Some(state), Some(b))], queue + [next], head, b + 1,
                     buttons, target, width, level, boundary)
  {
    var state := queue[head - 1];
    var next := Xor(state, buttons[b].mask);
    var node := Node(visited[state].presses + 1, Some(state), Some(b));
    var visited', queue' := visited[next := node], queue + [next];
    assert visited[state].presses == level;
    ExploredPush(visited, queue, buttons, target, width, state, b);
    LayeredPush(visited, queue, head - 1, boundary, level, next, node);
    NeighboursPush(visited, buttons, state, b, level, node);
    ClosedPrefixPush(visited, queue, head - 1, buttons, next, node);
    assert queue'[head - 1] == state;
    assert Explored(visited', queue', buttons, target, width);
    assert Layered(visited', queue', head - 1, boundary, level);
    assert Neighbours(visited', buttons, queue'[head - 1], b + 1, level);
    assert forall i :: 0 <= i < head - 1 ==> Closed(visited', buttons, queue'[i]);
  }

  /** After the last button the state is closed: back between states. */
  lemma ScanningToBetween(visited: map<nat, Node>, queue: seq<nat>, head: nat, buttons: seq<Button>, target: nat, width: nat,
                          level: nat, boundary: nat)
    requires Scanning(visited, queue, head, |buttons|, buttons, target, width, level, boundary)
    ensures Between(visited, queue, head, buttons, target, width, level, boundary)
  {
    var state := queue[head - 1];
    assert visited[state].presses == level;
    assert Closed(visited, buttons, state) by {
      forall c | 0 <= c < |buttons|
        ensures Xor(state, buttons[c].mask) in visited && visited[Xor(state, buttons[c].mask)].presses <= level + 1
      {
      }
    }
    assert forall i :: 0 <= i < head ==> Closed(visited, buttons, queue[i]);
    assert Layered(visited, queue, head, boundary, level);
  }

  /** When the states fewer than `limit` presses away are all closed, a
      press sequence of at most `limit` presses ends on a visited state at
      most that many presses away. */
  lemma {:induction false} Spread(visited: map<nat, Node>, buttons: seq<Button>, presses: seq<nat>, limit: nat)
    requires 0 in visited && visited[0].presses == 0
    requires forall x :: x in visited && visited[x].presses < limit ==> Closed(visited, buttons, x)
    requires ValidPresses(buttons, presses) && |presses| <= limit
    ensures Run(buttons, 0, presses) in visited && visited[Run(buttons, 0, presses)].presses <= |presses|
  {
    if |presses| > 0 {
      var n := |presses| - 1;
      Spread(visited, buttons, presses[..n], limit);
      assert Closed(visited, buttons, Run(buttons, 0, presses[..n]));
    }
  }

  /** The target turning up as a neighbour of the state `p` presses away:
      no sequence of at most `p` presses reaches it. */
  lemma FoundFewest(visited: map<nat, Node>, queue: seq<nat>, head: nat, b: nat, buttons: seq<Button>, target: nat, width: nat,
                    level: nat, boundary: nat)
    requires Scanning(visited, queue, head, b, buttons, target, width, level, boundary)
    ensures visited[queue[head - 1]].presses == level
    ensures forall presses :: ValidPresses(buttons, presses) && |presses| <= level ==> Run(buttons, 0, presses) != target
  {
    assert forall k :: head - 1 <= k < |queue| ==> level <= visited[queue[k]].presses;
    forall x | x in visited && visited[x].presses < level ensures Closed(visited, buttons, x) {
      assert x in queue;
      var j :| 0 <= j < |queue| && queue[j] == x;
    }
    forall presses | ValidPresses(buttons, presses) && |presses| <= level ensures Run(buttons, 0, presses) != target {
      Spread(visited, buttons, presses, level);
    }
  }

  /** An exhausted queue: the target is out of reach. */
  lemma Exhausted(visited: map<nat, Node>, queue: seq<nat>, buttons: seq<Button>, target: nat, width: nat, level: nat,
                  boundary: nat)
    requires Between(visited, queue, |queue|, buttons, target, width, level, boundary)
    ensures forall presses :: ValidPresses(buttons, presses) ==> Run(buttons, 0, presses) != target
  {
    forall x | x in visited ensures Closed(visited, buttons, x) {
      assert x in queue;
      var j :| 0 <= j < |queue| && queue[j] == x;
    }
    forall presses | ValidPresses(buttons, presses) ensures Run(buttons, 0, presses) != target {
      Spread(visited, buttons, presses, |presses|);
    }
  }

  /** The presses recorded along the `previousKey` chain from the all-off
      state to `key`, first press first: valid, and as many as
      `visited[key].presses`. */
  ghost function PressChain(visited: map<nat, Node>, buttons: seq<Button>, key: nat): (r: seq<nat>)
    requires Chain(visited, buttons) && key in visited
    ensures ValidPresses(buttons, r) && |r| == visited[key].presses
    decreases visited[key].presses
  {
    if key == 0 then []
    else
      assert Reached(visited, buttons, key);
      var node := visited[key];
      PressChain(visited, buttons, node.previousKey.value) + [node.button.value]
  }

  /** The recorded presses lead from the all-off state to `key`. */
  lemma {:induction false} PressChainRun(visited: map<nat, Node>, buttons: seq<Button>, key: nat)
    requires Chain(visited, buttons) && key in visited
    ensures Run(buttons, 0, PressChain(visited, buttons, key)) == key
    decreases visited[key].presses
  {
    if key != 0 {
      PressChainStep(visited, buttons, key);
      assert Reached(visited, buttons, key);
      var previous := visited[key].previousKey.value;
      PressChainRun(visited, buttons, previous);
      var r := PressChain(visited, buttons, key);
      assert r[..|r| - 1] == PressChain(visited, buttons, previous);
    }
  }

  /** One link of the chain: a key other than all-off was reached from its
      `previousKey`, with fewer presses, by one press of its `button`. */
  lemma PressChainStep(visited: map<nat, Node>, buttons: seq<Button>, key: nat)
    requires Chain(visited, buttons) && key in visited && key != 0
    ensures visited[key].previousKey.Some? && visited[key].button.Some?
    ensures visited[key].previousKey.value in visited && visited[key].button.value < |buttons|
    ensures visited[visited[key].previousKey.value].presses < visited[key].presses
    ensures PressChain(visited, buttons, key)
            == PressChain(visited, buttons, visited[key].previousKey.value) + [visited[key].button.value]
  {
    assert Reached(visited, buttons, key);
  }

  /** The state of the reconstruction loop at `cursorKey`: `presses` are the
      presses after it on the chain to `key`, and `collected` their labels,
      last press first. */
  ghost predicate Walked(visited: map<nat, Node>, buttons: seq<Button>, key: nat, cursorKey: nat,
                         presses: seq<nat>, collected: seq<String>)
    requires Chain(visited, buttons) && key in visited
  {
    cursorKey in visited && ValidPresses(buttons, presses)
    && PressChain(visited, buttons, cursorKey) + presses == PressChain(visited, buttons, key)
    && Reversed(collected) == Labels(buttons, presses)
  }

  /** One turn of the reconstruction loop keeps `Walked`. */
  lemma WalkedStep(visited: map<nat, Node>, buttons: seq<Button>, key: nat, cursorKey: nat,
                   presses: seq<nat>, collected: seq<String>)
    requires Chain(visited, buttons) && key in visited && cursorKey != 0
    requires Walked(visited, buttons, key, cursorKey, presses, collected)
    ensures visited[cursorKey].previousKey.Some? && visited[cursorKey].button.Some?
    ensures visited[cursorKey].button.value < |buttons|
    ensures visited[cursorKey].previousKey.value in visited
    ensures visited[visited[cursorKey].previousKey.value].presses < visited[cursorKey].presses
    ensures Walked(visited, buttons, key, visited[cursorKey].previousKey.value,
                   [visited[cursorKey].button.value] + presses,
                   collected + [buttons[visited[cursorKey].button.value].name])
  {
    PressChainStep(visited, buttons, cursorKey);
    var previous, button := visited[cursorKey].previousKey.value, visited[cursorKey].button.value;
    var before := PressChain(visited, buttons, previous);
    assert before + ([button] + presses) == (before + [button]) + presses;
    ReversedSnoc(collected, buttons[button].name);
    assert Labels(buttons, [button] + presses) == [buttons[button].name] + Labels(buttons, presses);
  }

  /** At the all-off state the walk has collected the whole chain, and the
      reversed labels are those of the chain's presses. */
  lemma WalkedHome(visited: map<nat, Node>, buttons: seq<Button>, key: nat, presses: seq<nat>, collected: seq<String>)
    requires Chain(visited, buttons) && key in visited
    requires Walked(visited, buttons, key, 0, presses, collected)
    ensures presses == PressChain(visited, buttons, key)
    ensures ValidPresses(buttons, presses) && |presses| == visited[key].presses && Run(buttons, 0, presses) == key
    ensures Reversed(collected) == Labels(buttons, presses)
  {
    assert PressChain(visited, buttons, 0) == [];
    assert presses == PressChain(visited, buttons, key);
    PressChainRun(visited, buttons, key);
  }

  /** The reconstruction loop: follows `previousKey` from `key` back to the
      all-off state, collecting the labels, then reverses them. */
  method Reconstruct(visited: map<nat, Node>, buttons: seq<Button>, key: nat)
    returns (combinations: seq<String>, ghost presses: seq<nat>)
    requires Chain(visited, buttons) && key in visited
    ensures presses == PressChain(visited, buttons, key)
    ensures ValidPresses(buttons, presses) && |presses| == visited[key].presses && Run(buttons, 0, presses) == key
    ensures combinations == Labels(buttons, presses)
    ensures combinations == Labels(buttons, PressChain(visited, buttons, key)) && |combinations| == visited[key].presses
  {
    var collected := [];
    var cursorKey := key;
    presses := [];
    assert PressChain(visited, buttons, key) + [] == PressChain(visited, buttons, key);
    while cursorKey != 0
      invariant Walked(visited, buttons, key, cursorKey, presses, collected)
      decreases visited[cursorKey].presses
    {
      WalkedStep(visited, buttons, key, cursorKey, presses, collected);
      var node := visited[cursorKey];
      var previous, button := node.previousKey.value, node.button.value;
      collected := collected + [buttons[button].name];
      presses := [button] + presses;
      cursorKey := previous;
    }
    WalkedHome(visited, buttons, key, presses, collected);
    combinations := Reversed(collected);
  }

  /** No press sequence switches on exactly the target lights. */
  ghost predicate Unreachable(buttons: seq<Button>, target: nat)
  {
    forall presses :: ValidPresses(buttons, presses) ==> Run(buttons, 0, presses) != target
  }

  /** No sequence of fewer than `k` presses reaches the target. */
  ghost predicate NoShorter(buttons: seq<Button>, target: nat, k: nat)
  {
    forall presses :: ValidPresses(buttons, presses) && |presses| < k ==> Run(buttons, 0, presses) != target
  }

  /** The button loop of the search for the state `queue[head - 1]`: visits
      and queues its new neighbours in button order, stopping when one is
      the target. */
  method Expand(buttons: seq<Button>, target: nat, visited: map<nat, Node>, queue: seq<nat>, head: nat, ghost width: nat,
                ghost level: nat, ghost boundary: nat)
    returns (found: bool, visited': map<nat, Node>, queue': seq<nat>)
    requires Scanning(visited, queue, head, 0, buttons, target, width, level, boundary)
    ensures !found ==> Between(visited', queue', head, buttons, target, width, level, boundary) && |queue'| >= |queue|
    ensures found ==> Chain(visited', buttons) && target in visited' && visited'[target].presses == level + 1
                      && NoShorter(buttons, target, level + 1)
  {
    var state := queue[head - 1];
    var presses := visited[state].presses;
    visited', queue' := visited, queue;
    for b := 0 to |buttons|
      invariant Scanning(visited', queue', head, b, buttons, target, width, level, boundary)
      invariant queue'[head - 1] == state && presses == level && |queue'| >= |queue|
    {
      var nextState := Xor(state, buttons[b].mask);
      if nextState in visited' {
        ScanningSkip(visited', queue', head, b, buttons, target, width, level, boundary);
        continue;
      }
      ghost var before := visited';
      visited' := visited'[nextState := Node(presses + 1, Some(state), Some(b))];
      if nextState == target {
        FoundFewest(before, queue', head, b, buttons, target, width, level, boundary);
        ChainPush(before, buttons, state, b);
        return true, visited', queue';
      }
      ScanningPush(before, queue', head, b, buttons, target, width, level, boundary);
      queue' := queue' + [nextState];
    }
    ScanningToBetween(visited', queue', head, buttons, target, width, level, boundary);
    return false, visited', queue';
  }

  /** The search of `solveMachineInFewestButtonPresses`: breadth first from
      the all-off state, one press per step, until a press reaches the
      target. */
  method Search(buttons: seq<Button>, target: nat) returns (solution: Solution, ghost sequence: seq<nat>)
    requires target != 0
    ensures solution.NoSolution? || solution.Fewest?
    ensures solution.NoSolution? ==> Unreachable(buttons, target)
    ensures solution.Fewest? ==>
              ValidPresses(buttons, sequence) && |sequence| == solution.bestSolution && Run(buttons, 0, sequence) == target
              && solution.combinations == Labels(buttons, sequence) && NoShorter(buttons, target, solution.bestSolution)
  {
    ghost var width := Widest(buttons, target);
    ghost var level, boundary := 0, 1;
    var visited: map<nat, Node> := map[0 := Node(0, None, None)];
    var queue: seq<nat> := [0];
    var head := 0;
    BetweenStart(buttons, target, width);
    while head < |queue|
      invariant Between(visited, queue, head, buttons, target, width, level, boundary)
      decreases Pow2(width) - |queue|, |queue| - head
    {
      level, boundary := BetweenToScanning(visited, queue, head, buttons, target, width, level, boundary);
      head := head + 1;
      var found;
      found, visited, queue := Expand(buttons, target, visited, queue, head, width, level, boundary);
      if found {
        var combinations;
        combinations, sequence := Reconstruct(visited, buttons, target);
        return Fewest(visited[target].presses, combinations), sequence;
      }
    }
    Exhausted(visited, queue, buttons, target, width, level, boundary);
    return NoSolution, [];
  }

  /** With no buttons only the all-off state is reachable. */
  lemma NoButtons(buttons: seq<Button>, target: nat)
    requires |buttons| == 0 && target != 0
    ensures Unreachable(buttons, target)
  {
    var visited := map[0 := Node(0, None, None)];
    assert Closed(visited, buttons, 0);
    forall presses | ValidPresses(buttons, presses) ensures Run(buttons, 0, presses) != target {
      Spread(visited, buttons, presses, |presses|);
    }
  }

  /** `solveMachineInFewestButtonPresses`: an all-off target needs no
      presses; otherwise the buttons are built (a `NaN` index throws), and
      with none left the target is out of reach; otherwise the search finds
      the fewest presses, with the labels of one sequence achieving them. */
  method SolveMachineInFewestButtonPresses(lights: seq<Light>, schematics: seq<Schematic>)
    returns (r: Result<Solution, String>, ghost sequence: seq<nat>)
    ensures TargetMask(lights) == 0 ==> r == Ok(AllOff)
    ensures TargetMask(lights) != 0 ==> (r.Err? <==> Buttons(schematics).None?)
    ensures r.Ok? && r.value.NoSolution? ==>
              TargetMask(lights) != 0 && Buttons(schematics).Some? && Unreachable(Buttons(schematics).value, TargetMask(lights))
    ensures r.Ok? && r.value.Fewest? ==>
              Buttons(schematics).Some?
              && var buttons := Buttons(schematics).value;
                 ValidPresses(buttons, sequence) && |sequence| == r.value.bestSolution
                 && Run(buttons, 0, sequence) == TargetMask(lights) && r.value.combinations == Labels(buttons, sequence)
                 && NoShorter(buttons, TargetMask(lights), r.value.bestSolution)
  {
    var targetMask := TargetMask(lights);
    if targetMask == 0 {
      return Ok(AllOff), [];
    }
    var built := Buttons(schematics);
    if built.None? {
      return Err("Cannot convert NaN to a BigInt"), [];
    }
    var buttons := built.value;
    if |buttons| == 0 {
      NoButtons(buttons, targetMask);
      return Ok(NoSolution), [];
    }
    var solution;
    solution, sequence := Search(buttons, targetMask);
    return Ok(solution), sequence;
  }
}
