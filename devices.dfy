/** The device map of day 11 (solutions/day11/solution.js): devices that
    name the devices their outputs feed, and the enumeration of every path
    from one device to another that visits no device twice. A device object
    is modelled by its position in `devices`, `deviceIndex` by the map
    `index` from names to positions. */
module Devices {
  import opened Wrappers
  import opened Text

  datatype Device = Device(name: String, outputIds: seq<String>, outputs: seq<nat>)

  datatype DeviceMap = DeviceMap(devices: seq<Device>, index: map<String, nat>)

  // ---------------------------------------------------------------------------
  // Parsing

  /** One line `name: id id ...`: the name is the text before the first
      ':', the ids are the rest (its other ':' dropped) split on white
      space. */
  function Declaration(line: String): (d: Device)
    ensures d.outputs == []
  {
    var parts := Split(line, ":");
    Device(parts[0], SplitWhitespace(Trim(Join(parts[1..], ""))), [])
  }

  /** A declared name holds no ':'. */
  lemma DeclaredName(line: String)
    ensures forall k :: 0 <= k < |Declaration(line).name| ==> Declaration(line).name[k] != ':'
  {
    var name := Split(line, ":")[0];
    forall k | 0 <= k < |name| ensures name[k] != ':' {
      SplitPiecesAvoidSeparator(line, ":", 0, k);
      assert name[k..k + 1] == [name[k]];
    }
  }

  /** No id holds white space, and only a line with nothing after its name
      has an empty id: the single id "". */
  lemma DeclaredIds(line: String)
    ensures var ids := Declaration(line).outputIds;
            (forall p, k :: 0 <= p < |ids| && 0 <= k < |ids[p]| ==> !IsWhitespace(ids[p][k]))
            && (ids == [""] || forall p :: 0 <= p < |ids| ==> |ids[p]| > 0)
  {
    var rest := Trim(Join(Split(line, ":")[1..], ""));
    if rest != "" {
      SplitWhitespaceOfTrimmed(rest);
    } else {
      assert FirstWhitespace(rest).None?;
    }
  }

  /** `outputIds.filter(Boolean)`: the non-empty ids, in order. */
  function NonEmptyIds(ids: seq<String>): seq<String>
  {
    Filter(ids, (id: String) => |id| > 0)
  }

  /** Every key of `index` names the device it points to. */
  ghost predicate Resolves(devices: seq<Device>, index: map<String, nat>)
  {
    forall n :: n in index ==> index[n] < |devices| && devices[index[n]].name == n
  }

  /** Every device's name is a key of `index`. */
  ghost predicate NamesIndexed(devices: seq<Device>, index: map<String, nat>)
  {
    forall j :: 0 <= j < |devices| ==> devices[j].name in index
  }

  /** `index` keeps every entry of `before`. */
  ghost predicate Extends(before: map<String, nat>, index: map<String, nat>)
  {
    forall n :: n in before ==> n in index && index[n] == before[n]
  }

  /** Device `j`'s outputs are the devices `ids` resolve to, in order. */
  ghost predicate ResolvedOutputs(devices: seq<Device>, index: map<String, nat>, j: nat, ids: seq<String>)
    requires j < |devices|
  {
    |devices[j].outputs| == |ids|
    && forall t :: 0 <= t < |ids| ==> ids[t] in index && index[ids[t]] == devices[j].outputs[t]
  }

  /** The devices from `from` on were made by `ensureDevice`: no outputs,
      and their names resolve to them. */
  ghost predicate Appended(devices: seq<Device>, index: map<String, nat>, from: nat)
  {
    forall j :: from <= j < |devices| ==>
      devices[j].outputIds == [] && devices[j].outputs == []
      && devices[j].name in index && index[devices[j].name] == j
  }

  /** Device `v` is the one its own name resolves to. */
  ghost predicate Canonical(g: DeviceMap, v: nat)
  {
    v < |g.devices| && g.devices[v].name in g.index && g.index[g.devices[v].name] == v
  }

  /** Names and devices agree, and every output is a device its name
      resolves to. */
  ghost predicate WellFormed(g: DeviceMap)
  {
    Resolves(g.devices, g.index) && NamesIndexed(g.devices, g.index)
    && forall j, t :: 0 <= j < |g.devices| && 0 <= t < |g.devices[j].outputs| ==> Canonical(g, g.devices[j].outputs[t])
  }

  /** What `parseDeviceMap` builds from `lines`: one device per line, in
      order, whose outputs are its non-empty ids resolved; every name
      resolving to its last declaration; then the devices made for names
      that are never declared. */
  ghost predicate Parsed(lines: seq<String>, g: DeviceMap)
  {
    |lines| <= |g.devices|
    && (forall k :: 0 <= k < |lines| ==>
          var d := Declaration(lines[k]);
          g.devices[k].name == d.name && g.devices[k].outputIds == d.outputIds
          && ResolvedOutputs(g.devices, g.index, k, NonEmptyIds(d.outputIds))
          && d.name in g.index && k <= g.index[d.name] < |lines|)
    && Appended(g.devices, g.index, |lines|)
  }

  /** The first `forEach`: `deviceIndex[name] = device`, so a name declared
      twice resolves to its last declaration. */
  method IndexDevices(devices: seq<Device>) returns (index: map<String, nat>)
    ensures Resolves(devices, index) && NamesIndexed(devices, index)
    ensures forall k :: 0 <= k < |devices| ==> k <= index[devices[k].name]
  {
    index := map[];
    for i := 0 to |devices|
      invariant forall n :: n in index ==> index[n] < i && devices[index[n]].name == n
      invariant forall k :: 0 <= k < i ==> devices[k].name in index && k <= index[devices[k].name]
    {
      index := index[devices[i].name := i];
    }
  }

  /** `ensureDevice(name)`: the device `name` resolves to; when there is
      none, a device with no outputs is made and appended. */
  method EnsureDevice(devices: seq<Device>, index: map<String, nat>, name: String)
    returns (devices': seq<Device>, index': map<String, nat>, device: nat)
    requires Resolves(devices, index)
    ensures name in index' && index'[name] == device && Resolves(devices', index')
    ensures name in index ==> devices' == devices && index' == index
    ensures name !in index ==> devices' == devices + [Device(name, [], [])] && index' == index[name := |devices|]
  {
    devices', index' := devices, index;
    if name !in index {
      index' := index[name := |devices|];
      devices' := devices + [Device(name, [], [])];
    }
    device := index'[name];
  }

  /** `ids.map(id => ensureDevice(id))` for one device. */
  method ResolveIds(devices: seq<Device>, index: map<String, nat>, ids: seq<String>)
    returns (devices': seq<Device>, index': map<String, nat>, outputs: seq<nat>)
    requires Resolves(devices, index) && NamesIndexed(devices, index)
    ensures Resolves(devices', index') && NamesIndexed(devices', index') && Extends(index, index')
    ensures |devices| <= |devices'| && devices'[..|devices|] == devices && Appended(devices', index', |devices|)
    ensures |outputs| == |ids| && forall t :: 0 <= t < |ids| ==> ids[t] in index' && index'[ids[t]] == outputs[t]
  {
    devices', index', outputs := devices, index, [];
    for t := 0 to |ids|
      invariant Resolves(devices', index') && NamesIndexed(devices', index') && Extends(index, index')
      invariant |devices| <= |devices'| && devices'[..|devices|] == devices && Appended(devices', index', |devices|)
      invariant |outputs| == t && forall u :: 0 <= u < t ==> ids[u] in index' && index'[ids[u]] == outputs[u]
    {
      var device;
      devices', index', device := EnsureDevice(devices', index', ids[t]);
      outputs := outputs + [device];
    }
  }

  /** `device.outputs = device.outputIds.filter(Boolean).map(id =>
      ensureDevice(id))` for device `k`: only its outputs change, and the
      devices it makes are appended. */
  method LinkDevice(devices: seq<Device>, index: map<String, nat>, k: nat)
    returns (devices': seq<Device>, index': map<String, nat>)
    requires Resolves(devices, index) && NamesIndexed(devices, index) && k < |devices|
    ensures Resolves(devices', index') && NamesIndexed(devices', index') && Extends(index, index')
    ensures |devices| <= |devices'| && Appended(devices', index', |devices|)
    ensures forall j :: 0 <= j < |devices| && j != k ==> devices'[j] == devices[j]
    ensures devices'[k].name == devices[k].name && devices'[k].outputIds == devices[k].outputIds
    ensures ResolvedOutputs(devices', index', k, NonEmptyIds(devices[k].outputIds))
  {
    var outputs;
    devices', index', outputs := ResolveIds(devices, index, NonEmptyIds(devices[k].outputIds));
    assert forall j :: 0 <= j < |devices| ==> devices'[j] == devices[j] by {
      forall j | 0 <= j < |devices| ensures devices'[j] == devices[j] {
        assert devices'[..|devices|][j] == devices'[j];
      }
    }
    devices' := devices'[k := devices'[k].(outputs := outputs)];
  }

  /** Outputs resolved once stay resolved while devices are only appended
      and `index` only grows. */
  lemma StillResolved(before: seq<Device>, indexBefore: map<String, nat>, devices: seq<Device>, index: map<String, nat>,
                      j: nat, ids: seq<String>)
    requires j < |before| && j < |devices| && devices[j].outputs == before[j].outputs
    requires ResolvedOutputs(before, indexBefore, j, ids) && Extends(indexBefore, index)
    ensures ResolvedOutputs(devices, index, j, ids)
  {
  }

  /** The second `forEach`: every declared device gets its non-empty ids
      resolved. It visits only the devices there were when it began, so
      the ones appended on the way keep no outputs. */
  method LinkDevices(declared: seq<Device>, index0: map<String, nat>) returns (devices: seq<Device>, index: map<String, nat>)
    requires Resolves(declared, index0) && NamesIndexed(declared, index0)
    ensures Resolves(devices, index) && NamesIndexed(devices, index) && Extends(index0, index)
    ensures |declared| <= |devices| && Appended(devices, index, |declared|)
    ensures forall j :: 0 <= j < |declared| ==>
              devices[j].name == declared[j].name && devices[j].outputIds == declared[j].outputIds
              && ResolvedOutputs(devices, index, j, NonEmptyIds(declared[j].outputIds))
  {
    devices, index := declared, index0;
    for k := 0 to |declared|
      invariant Resolves(devices, index) && NamesIndexed(devices, index) && Extends(index0, index)
      invariant |declared| <= |devices| && Appended(devices, index, |declared|)
      invariant SameDeclarations(declared, devices)
      invariant LinkedBelow(declared, devices, index, k)
    {
      ghost var (before, indexBefore) := (devices, index);
      devices, index := LinkDevice(devices, index, k);
      assert LinkedBelow(declared, devices, index, k + 1) by {
        forall j | 0 <= j < k ensures ResolvedOutputs(devices, index, j, NonEmptyIds(declared[j].outputIds)) {
          StillResolved(before, indexBefore, devices, index, j, NonEmptyIds(declared[j].outputIds));
        }
      }
      assert Appended(devices, index, |declared|) by {
        forall j | |declared| <= j < |devices|
          ensures devices[j].outputIds == [] && devices[j].outputs == [] && devices[j].name in index && index[devices[j].name] == j
        {
          if j < |before| {
            assert devices[j] == before[j];
          }
        }
      }
    }
  }

  /** The first `|declared|` devices keep their declared names and ids. */
  ghost predicate SameDeclarations(declared: seq<Device>, devices: seq<Device>)
  {
    |declared| <= |devices|
    && forall j :: 0 <= j < |declared| ==> devices[j].name == declared[j].name && devices[j].outputIds == declared[j].outputIds
  }

  /** The declared devices before `k` have their outputs resolved. */
  ghost predicate LinkedBelow(declared: seq<Device>, devices: seq<Device>, index: map<String, nat>, k: nat)
  {
    k <= |declared| <= |devices|
    && forall j :: 0 <= j < k ==> ResolvedOutputs(devices, index, j, NonEmptyIds(declared[j].outputIds))
  }

  /** `parseDeviceMap` */
  method ParseDeviceMap(input: String) returns (g: DeviceMap)
    ensures WellFormed(g) && Parsed(TrimmedNonEmpty(input, "\n"), g)
  {
    var lines := TrimmedNonEmpty(input, "\n");
    var declared := seq(|lines|, k requires 0 <= k < |lines| => Declaration(lines[k]));
    var index0 := IndexDevices(declared);
    var devices, index := LinkDevices(declared, index0);
    g := DeviceMap(devices, index);
    Linked(lines, declared, index0, g);
  }

  /** The two `forEach` passes leave a well-formed map built from `lines`. */
  lemma Linked(lines: seq<String>, declared: seq<Device>, index0: map<String, nat>, g: DeviceMap)
    requires |declared| == |lines| && forall k :: 0 <= k < |lines| ==> declared[k] == Declaration(lines[k])
    requires Resolves(declared, index0) && NamesIndexed(declared, index0)
    requires forall k :: 0 <= k < |declared| ==> k <= index0[declared[k].name]
    requires Resolves(g.devices, g.index) && NamesIndexed(g.devices, g.index) && Extends(index0, g.index)
    requires |declared| <= |g.devices| && Appended(g.devices, g.index, |declared|)
    requires forall j :: 0 <= j < |declared| ==>
               g.devices[j].name == declared[j].name && g.devices[j].outputIds == declared[j].outputIds
               && ResolvedOutputs(g.devices, g.index, j, NonEmptyIds(declared[j].outputIds))
    ensures WellFormed(g) && Parsed(lines, g)
  {
    forall j, t | 0 <= j < |g.devices| && 0 <= t < |g.devices[j].outputs|
      ensures Canonical(g, g.devices[j].outputs[t])
    {
      assert j < |lines|;
      assert ResolvedOutputs(g.devices, g.index, j, NonEmptyIds(declared[j].outputIds));
    }
    forall k | 0 <= k < |lines|
      ensures var d := Declaration(lines[k]);
              g.devices[k].name == d.name && g.devices[k].outputIds == d.outputIds
              && ResolvedOutputs(g.devices, g.index, k, NonEmptyIds(d.outputIds))
              && d.name in g.index && k <= g.index[d.name] < |lines|
    {
      var name := declared[k].name;
      assert name in index0 && k <= index0[name] < |declared|;
    }
  }

  /** Names never declared resolve to devices after the declared ones, and
      no declared device carries such a name. */
  lemma UndeclaredNames(lines: seq<String>, g: DeviceMap, j: nat)
    requires WellFormed(g) && Parsed(lines, g) && |lines| <= j < |g.devices|
    ensures Canonical(g, j) && g.devices[j].outputs == []
    ensures forall k :: 0 <= k < |lines| ==> Declaration(lines[k]).name != g.devices[j].name
  {
  }

  /** `findDevice(name)` */
  function FindDevice(g: DeviceMap, name: String): (r: Option<nat>)
    requires WellFormed(g)
    ensures r.Some? <==> name in g.index
    ensures r.Some? ==> Canonical(g, r.value) && g.devices[r.value].name == name
  {
    if name in g.index then Some(g.index[name]) else None
  }

  // ---------------------------------------------------------------------------
  // The simple paths, as a plain depth-first enumeration

  /** `[name, ...s]` for every `s` of `ps`. */
  function Extend(name: String, ps: seq<seq<String>>): (r: seq<seq<String>>)
    ensures |r| == |ps| && forall k :: 0 <= k < |ps| ==> r[k] == [name] + ps[k]
  {
    seq(|ps|, k requires 0 <= k < |ps| => [name] + ps[k])
  }

  /** `[...path, ...s]` for every `s` of `ps`. */
  function Prefixed(path: seq<String>, ps: seq<seq<String>>): (r: seq<seq<String>>)
    ensures |r| == |ps| && forall k :: 0 <= k < |ps| ==> r[k] == path + ps[k]
  {
    seq(|ps|, k requires 0 <= k < |ps| => path + ps[k])
  }

  /** The paths from device `v` to `end` that avoid the names in
      `visited`, in depth-first order, each as its list of names. */
  function Paths(g: DeviceMap, v: nat, end: Option<nat>, visited: set<String>): seq<seq<String>>
    requires WellFormed(g) && Canonical(g, v)
    decreases g.index.Keys - visited, 0
  {
    var name := g.devices[v].name;
    if name in visited then []
    else if end == Some(v) then [[name]]
    else Extend(name, Children(g, g.devices[v].outputs, end, visited + {name}))
  }

  /** The paths from each of `outs` in turn. */
  function Children(g: DeviceMap, outs: seq<nat>, end: Option<nat>, visited: set<String>): seq<seq<String>>
    requires WellFormed(g) && forall t :: 0 <= t < |outs| ==> Canonical(g, outs[t])
    decreases g.index.Keys - visited, |outs| + 1
  {
    if |outs| == 0 then []
    else Children(g, outs[..|outs| - 1], end, visited) + Paths(g, outs[|outs| - 1], end, visited)
  }

  /** Some output of the device `a` resolves to is named `b`. */
  ghost predicate Edge(g: DeviceMap, a: String, b: String)
  {
    a in g.index && g.index[a] < |g.devices|
    && exists t :: 0 <= t < |g.devices[g.index[a]].outputs|
                   && g.devices[g.index[a]].outputs[t] < |g.devices|
                   && g.devices[g.devices[g.index[a]].outputs[t]].name == b
  }

  /** `s` leads from `start` to `end` along outputs, repeats no name and
      avoids `visited`. */
  ghost predicate SimplePath(g: DeviceMap, s: seq<String>, start: String, end: String, visited: set<String>)
  {
    |s| >= 1 && s[0] == start && s[|s| - 1] == end
    && (forall k :: 0 <= k < |s| - 1 ==> Edge(g, s[k], s[k + 1]))
    && (forall k, l :: 0 <= k < l < |s| ==> s[k] != s[l])
    && (forall k :: 0 <= k < |s| ==> s[k] !in visited)
  }

  /** `s` is a simple path from one of `outs`. */
  ghost predicate FromOneOf(g: DeviceMap, s: seq<String>, outs: seq<nat>, end: String, visited: set<String>)
    requires forall t :: 0 <= t < |outs| ==> outs[t] < |g.devices|
  {
    exists t :: 0 <= t < |outs| && SimplePath(g, s, g.devices[outs[t]].name, end, visited)
  }

  /** A simple path behind one more name. */
  lemma ConsSimple(g: DeviceMap, name: String, c: seq<String>, next: String, end: String, visited: set<String>)
    requires SimplePath(g, c, next, end, visited + {name}) && Edge(g, name, next) && name !in visited
    ensures SimplePath(g, [name] + c, name, end, visited)
  {
    var s := [name] + c;
    forall k | 0 <= k < |s| - 1 ensures Edge(g, s[k], s[k + 1]) {
      if k > 0 {
        assert s[k] == c[k - 1] && s[k + 1] == c[k];
      }
    }
    forall k, l | 0 <= k < l < |s| ensures s[k] != s[l] {
      assert s[l] == c[l - 1];
      if k > 0 {
        assert s[k] == c[k - 1];
      }
    }
  }

  /** Every enumerated path is simple, from `v` to `end`. */
  lemma {:induction false} PathsSimple(g: DeviceMap, v: nat, end: nat, visited: set<String>)
    requires WellFormed(g) && Canonical(g, v) && Canonical(g, end)
    ensures forall k :: 0 <= k < |Paths(g, v, Some(end), visited)| ==>
              SimplePath(g, Paths(g, v, Some(end), visited)[k], g.devices[v].name, g.devices[end].name, visited)
    decreases g.index.Keys - visited, 0
  {
    var name := g.devices[v].name;
    if name !in visited && v != end {
      var outs := g.devices[v].outputs;
      var cs := Children(g, outs, Some(end), visited + {name});
      ChildrenSimple(g, outs, end, visited + {name});
      forall k | 0 <= k < |cs| ensures SimplePath(g, [name] + cs[k], name, g.devices[end].name, visited) {
        assert FromOneOf(g, cs[k], outs, g.devices[end].name, visited + {name});
        var t :| 0 <= t < |outs| && SimplePath(g, cs[k], g.devices[outs[t]].name, g.devices[end].name, visited + {name});
        assert Edge(g, name, g.devices[outs[t]].name);
        ConsSimple(g, name, cs[k], g.devices[outs[t]].name, g.devices[end].name, visited);
      }
    }
  }

  /** Every path from the children starts at one of them. */
  lemma {:induction false} ChildrenSimple(g: DeviceMap, outs: seq<nat>, end: nat, visited: set<String>)
    requires WellFormed(g) && Canonical(g, end) && forall t :: 0 <= t < |outs| ==> Canonical(g, outs[t])
    ensures forall k :: 0 <= k < |Children(g, outs, Some(end), visited)| ==>
              FromOneOf(g, Children(g, outs, Some(end), visited)[k], outs, g.devices[end].name, visited)
    decreases g.index.Keys - visited, |outs| + 1
  {
    if |outs| > 0 {
      var n := |outs| - 1;
      var front := outs[..n];
      var cs := Children(g, outs, Some(end), visited);
      var fs := Children(g, front, Some(end), visited);
      var ps := Paths(g, outs[n], Some(end), visited);
      ChildrenSimple(g, front, end, visited);
      PathsSimple(g, outs[n], end, visited);
      assert cs == fs + ps;
      forall k | 0 <= k < |cs| ensures FromOneOf(g, cs[k], outs, g.devices[end].name, visited) {
        if k < |fs| {
          assert cs[k] == fs[k];
          assert FromOneOf(g, fs[k], front, g.devices[end].name, visited);
          var t :| 0 <= t < |front| && SimplePath(g, fs[k], g.devices[front[t]].name, g.devices[end].name, visited);
          assert front[t] == outs[t];
        } else {
          assert cs[k] == ps[k - |fs|];
          assert SimplePath(g, cs[k], g.devices[outs[n]].name, g.devices[end].name, visited);
        }
      }
    }
  }

  /** A path from child `t` is among the children's paths. */
  lemma {:induction false} InChildren(g: DeviceMap, outs: seq<nat>, t: nat, end: Option<nat>, visited: set<String>, s: seq<String>)
    requires WellFormed(g) && (forall u :: 0 <= u < |outs| ==> Canonical(g, outs[u])) && t < |outs|
    requires s in Paths(g, outs[t], end, visited)
    ensures s in Children(g, outs, end, visited)
    decreases |outs|
  {
    var n := |outs| - 1;
    if t < n {
      assert outs[..n][t] == outs[t];
      InChildren(g, outs[..n], t, end, visited, s);
    }
  }

  /** Every simple path from `v` to `end` is enumerated. */
  lemma {:induction false} PathsComplete(g: DeviceMap, v: nat, end: nat, visited: set<String>, s: seq<String>)
    requires WellFormed(g) && Canonical(g, v) && Canonical(g, end)
    requires SimplePath(g, s, g.devices[v].name, g.devices[end].name, visited)
    ensures s in Paths(g, v, Some(end), visited)
    decreases |s|
  {
    var name := g.devices[v].name;
    assert s[0] !in visited;
    if v == end {
      assert |s| == 1;
      assert s == [name];
    } else {
      assert |s| >= 2;
      assert Edge(g, s[0], s[1]);
      var outs := g.devices[v].outputs;
      var t :| 0 <= t < |outs| && outs[t] < |g.devices| && g.devices[outs[t]].name == s[1];
      var c := s[1..];
      forall k | 0 <= k < |c| - 1 ensures Edge(g, c[k], c[k + 1]) {
        assert c[k] == s[k + 1] && c[k + 1] == s[k + 2];
      }
      forall k | 0 <= k < |c| ensures c[k] !in visited + {name} {
        assert c[k] == s[k + 1];
      }
      assert SimplePath(g, c, g.devices[outs[t]].name, g.devices[end].name, visited + {name});
      PathsComplete(g, outs[t], end, visited + {name}, c);
      InChildren(g, outs, t, Some(end), visited + {name}, c);
      var cs := Children(g, outs, Some(end), visited + {name});
      var k :| 0 <= k < |cs| && cs[k] == c;
      assert s == [name] + c;
      assert Paths(g, v, Some(end), visited)[k] == s;
    }
  }

  // ---------------------------------------------------------------------------
  // The memoised search

  /** All of `ps` begin with `prefix`. */
  ghost predicate AllStartWith(ps: seq<seq<String>>, prefix: seq<String>)
  {
    forall k :: 0 <= k < |ps| ==> |prefix| <= |ps[k]| && ps[k][..|prefix|] == prefix
  }

  /** `newPath.slice(start)` for every path of `ps`. */
  method SliceAll(ps: seq<seq<String>>, start: nat) returns (suffixes: seq<seq<String>>)
    ensures |suffixes| == |ps|
    ensures forall k :: 0 <= k < |ps| ==> suffixes[k] == if start <= |ps[k]| then ps[k][start..] else []
  {
    suffixes := [];
    for k := 0 to |ps|
      invariant |suffixes| == k
      invariant forall l :: 0 <= l < k ==> suffixes[l] == if start <= |ps[l]| then ps[l][start..] else []
    {
      var suffix := if start <= |ps[k]| then ps[k][start..] else [];
      suffixes := suffixes + [suffix];
    }
  }

  /** Cutting the paths behind `path + [name]` after `path` leaves
      `[name, ...tail]` for every `tail` they continue with. */
  lemma SlicedBehind(ps: seq<seq<String>>, path: seq<String>, name: String, suffixes: seq<seq<String>>)
    requires AllStartWith(ps, path + [name]) && |suffixes| == |ps|
    requires forall k :: 0 <= k < |ps| ==> suffixes[k] == if |path| <= |ps[k]| then ps[k][|path|..] else []
    ensures Prefixed(path, suffixes) == ps
    ensures forall tails :: ps == Prefixed(path + [name], tails) ==> suffixes == Extend(name, tails)
  {
    forall k | 0 <= k < |ps| ensures path + suffixes[k] == ps[k] {
      assert ps[k][..|path|] == (path + [name])[..|path|] == path;
    }
    forall tails | ps == Prefixed(path + [name], tails) ensures suffixes == Extend(name, tails) {
      forall k | 0 <= k < |ps| ensures suffixes[k] == [name] + tails[k] {
        assert ps[k] == path + ([name] + tails[k]);
      }
    }
  }

  lemma AllStartWithPrefixed(ps: seq<seq<String>>, prefix: seq<String>, more: seq<seq<String>>)
    requires AllStartWith(ps, prefix)
    ensures AllStartWith(ps + Prefixed(prefix, more), prefix)
  {
    var qs := ps + Prefixed(prefix, more);
    forall k | 0 <= k < |qs| ensures |prefix| <= |qs[k]| && qs[k][..|prefix|] == prefix {
      if k >= |ps| {
        assert qs[k] == prefix + more[k - |ps|];
      }
    }
  }

  lemma SliceOfAppend(a: seq<seq<String>>, b: seq<seq<String>>, i: nat)
    requires i <= |a|
    ensures (a + b)[i..] == a[i..] + b
  {
  }

  lemma PrefixedAppend(path: seq<String>, ps: seq<seq<String>>, qs: seq<seq<String>>)
    ensures Prefixed(path, ps + qs) == Prefixed(path, ps) + Prefixed(path, qs)
  {
  }

  /** `createPathFinder`: the memo and the list of found paths its closure
      shares between calls. */
  class PathFinder {
    var memo: map<(String, set<String>), seq<seq<String>>>
    var possiblePaths: seq<seq<String>>

    constructor ()
      ensures memo == map[] && possiblePaths == []
    {
      memo := map[];
      possiblePaths := [];
    }

    /** Each memo entry holds the paths to `end` from the device its name
        resolves to, avoiding its visited set. */
    ghost predicate MemoFor(g: DeviceMap, end: Option<nat>)
      requires WellFormed(g)
      reads this
    {
      forall key :: key in memo ==> key.0 in g.index && memo[key] == Paths(g, g.index[key.0], end, key.1)
    }

    /** Appends `[...path, ...suffix]` for every memoised suffix. */
    method PushAll(path: seq<String>, suffixes: seq<seq<String>>)
      modifies this
      ensures memo == old(memo) && possiblePaths == old(possiblePaths) + Prefixed(path, suffixes)
    {
      for k := 0 to |suffixes|
        invariant memo == old(memo) && possiblePaths == old(possiblePaths) + Prefixed(path, suffixes[..k])
      {
        assert Prefixed(path, suffixes[..k + 1]) == Prefixed(path, suffixes[..k]) + [path + suffixes[k]];
        possiblePaths := possiblePaths + [path + suffixes[k]];
      }
      assert suffixes[..|suffixes|] == suffixes;
    }

    /** `findPaths(startDevice, endDevice, visited, path)`. The shared
        `visited` set and `path` array are passed in and handed back, in
        the state they came in. The memo key is the device's name and the
        visited set; results found from a memo filled for the same `end`
        are exactly the enumerated paths. */
    method FindPaths(g: DeviceMap, v: nat, end: Option<nat>, visited: set<String>, path: seq<String>)
      returns (visited': set<String>, path': seq<String>)
      requires WellFormed(g) && Canonical(g, v)
      modifies this
      ensures visited' == visited && path' == path
      ensures g.devices[v].name in visited ==> memo == old(memo) && possiblePaths == old(possiblePaths)
      ensures g.devices[v].name !in visited ==>
                var key := (g.devices[v].name, visited);
                key in memo && possiblePaths == old(possiblePaths) + Prefixed(path, memo[key])
                && (key in old(memo) ==> memo == old(memo))
      ensures old(MemoFor(g, end)) ==>
                MemoFor(g, end) && possiblePaths == old(possiblePaths) + Prefixed(path, Paths(g, v, end, visited))
      decreases g.index.Keys - visited, 1
    {
      var name := g.devices[v].name;
      if name in visited {
        return visited, path;
      }
      var key := (name, visited);
      if key in memo {
        PushAll(path, memo[key]);
        return visited, path;
      }
      visited', path' := visited + {name}, path + [name];
      var pathsFromHere;
      if Some(v) == end {
        possiblePaths := possiblePaths + [path'];
        pathsFromHere := [[name]];
        assert Prefixed(path, pathsFromHere) == [path'];
      } else {
        assert path'[..|path'| - 1] == path && (visited + {name}) - {name} == visited;
        pathsFromHere := SearchOutputs(g, v, end, visited', path');
      }
      memo := memo[key := pathsFromHere];
      path' := path'[..|path'| - 1];
      visited' := visited' - {name};
    }

    /** The loop over `currentDevice.outputs`, then the found paths cut
        behind the path so far: the suffixes to memoise for the current
        device, the last name of `path`, which is already in `visited`. */
    method SearchOutputs(g: DeviceMap, v: nat, end: Option<nat>, visited: set<String>, path: seq<String>)
      returns (pathsFromHere: seq<seq<String>>)
      requires WellFormed(g) && Canonical(g, v) && g.devices[v].name in visited
      requires |path| >= 1 && path[|path| - 1] == g.devices[v].name
      modifies this
      ensures possiblePaths == old(possiblePaths) + Prefixed(path[..|path| - 1], pathsFromHere)
      ensures old(MemoFor(g, end)) ==>
                MemoFor(g, end) && pathsFromHere == Extend(g.devices[v].name, Children(g, g.devices[v].outputs, end, visited))
      decreases g.index.Keys - (visited - {g.devices[v].name}), 0
    {
      var name := g.devices[v].name;
      var outputs := g.devices[v].outputs;
      var beforeCount := |possiblePaths|;
      ghost var before := possiblePaths;
      var visited', path' := visited, path;
      for i := 0 to |outputs|
        invariant visited' == visited && path' == path
        invariant beforeCount <= |possiblePaths| && possiblePaths[..beforeCount] == before
        invariant AllStartWith(possiblePaths[beforeCount..], path)
        invariant old(MemoFor(g, end)) ==>
                    MemoFor(g, end) && possiblePaths[beforeCount..] == Prefixed(path, Children(g, outputs[..i], end, visited))
      {
        ghost var mid := possiblePaths;
        visited', path' := FindPaths(g, outputs[i], end, visited', path');
        ghost var added := possiblePaths[|mid|..];
        assert possiblePaths == mid + added;
        SliceOfAppend(mid, added, beforeCount);
        if g.devices[outputs[i]].name !in visited {
          AllStartWithPrefixed(mid[beforeCount..], path, memo[(g.devices[outputs[i]].name, visited)]);
        } else {
          assert possiblePaths[beforeCount..] == mid[beforeCount..];
        }
        if old(MemoFor(g, end)) {
          assert outputs[..i + 1][..i] == outputs[..i];
          var front := Children(g, outputs[..i], end, visited);
          var here := Paths(g, outputs[i], end, visited);
          assert Children(g, outputs[..i + 1], end, visited) == front + here;
          PrefixedAppend(path, front, here);
        }
      }
      var newPaths := possiblePaths[beforeCount..];
      pathsFromHere := SliceAll(newPaths, |path| - 1);
      assert path == path[..|path| - 1] + [name];
      SlicedBehind(newPaths, path[..|path| - 1], name, pathsFromHere);
      assert possiblePaths == before + newPaths;
      assert outputs[..|outputs|] == outputs;
    }

    /** The finder `createPathFinder` returns: it clears the paths of
        earlier calls and searches from `start` with nothing visited. The
        list it returns is its own, which the next call empties again. */
    method Find(g: DeviceMap, start: nat, end: Option<nat>) returns (paths: seq<seq<String>>)
      requires WellFormed(g) && Canonical(g, start)
      modifies this
      ensures paths == possiblePaths
      ensures var key := (g.devices[start].name, {});
              key in memo && paths == memo[key] && (key in old(memo) ==> memo == old(memo))
      ensures old(MemoFor(g, end)) ==> MemoFor(g, end) && paths == Paths(g, start, end, {})
      ensures old(MemoFor(g, end)) && end == Some(start) ==> paths == [[g.devices[start].name]]
    {
      possiblePaths := [];
      var _, _ := FindPaths(g, start, end, {}, []);
      assert forall ps :: Prefixed([], ps) == ps by {
        forall ps ensures Prefixed([], ps) == ps {
          assert forall k :: 0 <= k < |ps| ==> [] + ps[k] == ps[k];
        }
      }
      paths := possiblePaths;
    }
  }

  /** `solveForFirstStar`: the number of paths from `you` to `out`. A path
      is counted once for every output it leaves by, so an id listed twice
      counts twice. Without a `you` device the source fails reading its
      name; without an `out` device no path ends. */
  method SolveForFirstStar(input: String) returns (g: DeviceMap, r: Result<nat, String>)
    ensures WellFormed(g) && Parsed(TrimmedNonEmpty(input, "\n"), g)
    ensures r.Ok? <==> "you" in g.index
    ensures r.Ok? ==> r.value == |Paths(g, g.index["you"], FindDevice(g, "out"), {})|
  {
    g := ParseDeviceMap(input);
    var start := FindDevice(g, "you");
    if start.None? {
      return g, Err("no device named you");
    }
    var end := FindDevice(g, "out");
    var finder := new PathFinder();
    assert finder.MemoFor(g, end);
    var paths := finder.Find(g, start.value, end);
    var count: nat := |paths|;
    r := Ok(count);
  }

  // ---------------------------------------------------------------------------
  // A finder reused for another end device

  /** Device `a` feeding device `b`. */
  function TwoDevices(): (g: DeviceMap)
    ensures WellFormed(g) && Canonical(g, 0) && Canonical(g, 1)
  {
    DeviceMap([Device("a", ["b"], [1]), Device("b", [], [])], map["a" := 0, "b" := 1])
  }

  /** The memo key leaves out the end device: a finder asked for the paths
      from `a` to `b` and then for those from `a` to `a` answers the second
      question with the paths to `b`. */
  method ReusedFinder() returns (toB: seq<seq<String>>, toA: seq<seq<String>>)
    ensures toB == [["a", "b"]] && toA == toB
    ensures toA != Paths(TwoDevices(), 0, Some(0), {})
  {
    var g := TwoDevices();
    var finder := new PathFinder();
    toB := finder.Find(g, 0, Some(1));
    assert [1][..0] == [];
    assert Paths(g, 1, Some(1), {"a"}) == [["b"]];
    assert Children(g, [1], Some(1), {"a"}) == [["b"]];
    assert ["a"] + ["b"] == ["a", "b"];
    assert Extend("a", [["b"]])[0] == ["a", "b"];
    assert Paths(g, 0, Some(1), {}) == [["a", "b"]];
    toA := finder.Find(g, 0, Some(0));
    assert Paths(g, 0, Some(0), {}) == [["a"]];
  }
}
