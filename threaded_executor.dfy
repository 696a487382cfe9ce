/** framework/details/threaded_ssa_graph_executor.cc: Run adds one fetch
  * operator per fetched name, assigns every operator to a device, seeds
  * per-device ready queues and pending-input counts, and lets one worker per
  * device run the operators whose counts reach zero.
  *
  * The workers are modelled one after the other. They share only the
  * total_ops counter: a worker pops only its own ready queue, and a worker
  * that decrements an operator missing from its own map makes `at` throw
  * outside the try block, which ends the process. So which operators each
  * worker runs does not depend on how the threads interleave. The pending
  * counts are size_t in the source; a count decremented below zero wraps
  * around and never comes back to zero, which `int` models. */
module ThreadedExecutor {
  import opened Wrappers
  import opened SSAGraphs
  import opened SSAGraphBuilder
  import IrNode
  import SSAGraphChecker

  // ---------------------------------------------------------------------
  // get_device_id

  /** The device of a handle: a VarHandle sits on the place of its scope
    * (`placeDevice[i]` is the device of places_[i]); a DummyVarHandle has
    * none. A scope without a place gets -1, which the range check refuses. */
  function HandleDevice(g: Graph, placeDevice: seq<int>, v: VarId): Option<int>
    requires v < |g.vars|
  {
    match g.vars[v].kind
    case Versioned(_, _, p) => Some(if p < |placeDevice| then placeDevice[p] else -1)
    case Dummy => None
  }

  /** Every handle of the list exists. */
  predicate AllIn(g: Graph, vs: seq<VarId>)
  {
    forall i :: 0 <= i < |vs| ==> vs[i] < |g.vars|
  }

  /** The device of the first VarHandle of a list. */
  function FirstDevice(g: Graph, placeDevice: seq<int>, vs: seq<VarId>): Option<int>
    requires AllIn(g, vs)
    decreases |vs|
  {
    if vs == [] then None
    else if g.vars[vs[0]].kind.Versioned? then HandleDevice(g, placeDevice, vs[0])
    else FirstDevice(g, placeDevice, vs[1..])
  }

  /** FirstDevice is the device of the first VarHandle, and there is none
    * exactly when every handle of the list is a dummy. */
  lemma {:induction false} FirstDeviceSpec(g: Graph, placeDevice: seq<int>, vs: seq<VarId>)
    requires AllIn(g, vs)
    ensures FirstDevice(g, placeDevice, vs).None? <==> forall i :: 0 <= i < |vs| ==> g.vars[vs[i]].kind.Dummy?
    ensures FirstDevice(g, placeDevice, vs).Some? ==>
      exists i :: 0 <= i < |vs| && g.vars[vs[i]].kind.Versioned? &&
        (forall j :: 0 <= j < i ==> g.vars[vs[j]].kind.Dummy?) &&
        FirstDevice(g, placeDevice, vs) == HandleDevice(g, placeDevice, vs[i])
    decreases |vs|
  {
    if vs != [] && g.vars[vs[0]].kind.Dummy? {
      var rest := vs[1..];
      FirstDeviceSpec(g, placeDevice, rest);
      assert forall i :: 1 <= i < |vs| ==> vs[i] == rest[i - 1];
      if FirstDevice(g, placeDevice, rest).Some? {
        var i :| 0 <= i < |rest| && g.vars[rest[i]].kind.Versioned? &&
          (forall j :: 0 <= j < i ==> g.vars[rest[j]].kind.Dummy?) &&
          FirstDevice(g, placeDevice, rest) == HandleDevice(g, placeDevice, rest[i]);
        assert vs[i + 1] == rest[i];
        assert forall j :: 0 <= j < i + 1 ==> g.vars[vs[j]].kind.Dummy?;
      }
    }
  }

  /** The inputs and outputs of an operator of a valid graph exist. */
  lemma OpHandlesIn(g: Graph, o: OpId)
    requires GraphValid(g) && o < |g.ops|
    ensures AllIn(g, g.ops[o].inputs) && AllIn(g, g.ops[o].outputs)
  {
    assert OpInRange(g.ops[o], |g.vars|);
    assert forall i :: 0 <= i < |g.ops[o].inputs| ==> g.ops[o].inputs[i] in g.ops[o].inputs;
    assert forall i :: 0 <= i < |g.ops[o].outputs| ==> g.ops[o].outputs[i] in g.ops[o].outputs;
  }

  /** get_device_id: the device of the first VarHandle output, else of the
    * first VarHandle input, which must be one of the dev_cnt devices. */
  function DeviceOf(g: Graph, placeDevice: seq<int>, o: OpId): (r: Result<nat>)
    requires GraphValid(g) && o < |g.ops|
    ensures r.Ok? ==> r.value < |placeDevice|
  {
    OpHandlesIn(g, o);
    var fromOutputs := FirstDevice(g, placeDevice, g.ops[o].outputs);
    var d := if fromOutputs.Some? && fromOutputs.value != -1 then fromOutputs.value
             else match FirstDevice(g, placeDevice, g.ops[o].inputs)
                  case Some(d) => d
                  case None => -1;
    if 0 <= d < |placeDevice| then Ok(d) else Err("dev_id >= 0 && dev_id < dev_cnt")
  }

  /** The two loops of get_device_id, each stopping at the first VarHandle. */
  method GetDeviceId(g: Graph, placeDevice: seq<int>, o: OpId) returns (r: Result<nat>)
    requires GraphValid(g) && o < |g.ops|
    ensures r == DeviceOf(g, placeDevice, o)
  {
    OpHandlesIn(g, o);
    var devId := -1;
    var outs := g.ops[o].outputs;
    var i := 0;
    while i < |outs|
      invariant i <= |outs|
      invariant FirstDevice(g, placeDevice, outs) == FirstDevice(g, placeDevice, outs[i..])
      invariant devId == -1
    {
      assert outs[i..][1..] == outs[i + 1..];
      if g.vars[outs[i]].kind.Versioned? {
        devId := if g.vars[outs[i]].kind.scopeIdx < |placeDevice| then placeDevice[g.vars[outs[i]].kind.scopeIdx] else -1;
        break;
      }
      i := i + 1;
    }
    if devId == -1 {
      var ins := g.ops[o].inputs;
      var j := 0;
      while j < |ins|
        invariant j <= |ins|
        invariant FirstDevice(g, placeDevice, ins) == FirstDevice(g, placeDevice, ins[j..])
        invariant devId == -1
      {
        assert ins[j..][1..] == ins[j + 1..];
        if g.vars[ins[j]].kind.Versioned? {
          devId := if g.vars[ins[j]].kind.scopeIdx < |placeDevice| then placeDevice[g.vars[ins[j]].kind.scopeIdx] else -1;
          break;
        }
        j := j + 1;
      }
    }
    if 0 <= devId < |placeDevice| {
      r := Ok(devId);
    } else {
      r := Err("dev_id >= 0 && dev_id < dev_cnt");
    }
  }

  /** An operator whose first output is a VarHandle runs on that handle's
    * device, whatever its inputs are. */
  lemma DeviceFromFirstOutput(g: Graph, placeDevice: seq<int>, o: OpId, d: nat)
    requires GraphValid(g) && o < |g.ops| && g.ops[o].outputs != []
    requires g.ops[o].outputs[0] < |g.vars| && g.vars[g.ops[o].outputs[0]].kind.Versioned?
    requires HandleDevice(g, placeDevice, g.ops[o].outputs[0]) == Some(d) && d < |placeDevice|
    ensures DeviceOf(g, placeDevice, o) == Ok(d)
  {
    OpHandlesIn(g, o);
  }

  /** An operator with only dummy outputs (a fetch operator, say) runs on
    * the device of its first VarHandle input. */
  lemma DeviceFromInputs(g: Graph, placeDevice: seq<int>, o: OpId)
    requires GraphValid(g) && o < |g.ops|
    requires forall v :: v in g.ops[o].outputs ==> v < |g.vars| && g.vars[v].kind.Dummy?
    ensures (OpHandlesIn(g, o); var d := FirstDevice(g, placeDevice, g.ops[o].inputs);
      DeviceOf(g, placeDevice, o) == if d.Some? && 0 <= d.value < |placeDevice| then Ok(d.value) else Err("dev_id >= 0 && dev_id < dev_cnt"))
  {
    OpHandlesIn(g, o);
    FirstDeviceSpec(g, placeDevice, g.ops[o].outputs);
  }

  // ---------------------------------------------------------------------
  // InsertFetchOps

  /** The type name of a FetchOpHandle. */
  const FetchType: string := "Fetch"

  /** The newest version of `name` on each of the first `n` places that
    * have one, in place order. (A name mapped to an empty list would make
    * rbegin() undefined; it is treated as absent.) */
  function Latests(g: Graph, name: string, n: nat): (r: seq<VarId>)
    requires n <= |g.versions|
    ensures |r| <= n
  {
    if n == 0 then []
    else
      var l := Latests(g, name, n - 1);
      var vs := VersionsOf(g, n - 1, name);
      if vs == [] then l else l + [vs[|vs| - 1]]
  }

  /** fetched_vars after the first loop: every occurrence of a fetched name
    * appends the name's newest versions; a name found on no place gets no
    * entry. */
  function FetchedVars(g: Graph, names: seq<string>): (m: map<string, seq<VarId>>)
  {
    if names == [] then map[]
    else
      var name := names[|names| - 1];
      Extend(FetchedVars(g, names[..|names| - 1]), name, Latests(g, name, |g.versions|))
  }

  /** fetched_vars[name] after pushing every handle of `l`; operator[]
    * creates the entry at the first push. */
  function Extend(m: map<string, seq<VarId>>, name: string, l: seq<VarId>): map<string, seq<VarId>>
  {
    if l == [] then m else m[name := (if name in m then m[name] else []) + l]
  }

  /** The number of occurrences of `name` in `names`. */
  function Occurrences(names: seq<string>, name: string): nat
  {
    if names == [] then 0
    else Occurrences(names[..|names| - 1], name) + (if names[|names| - 1] == name then 1 else 0)
  }

  /** `s` repeated `k` times. */
  function Repeat(s: seq<VarId>, k: nat): seq<VarId>
  {
    if k == 0 then [] else Repeat(s, k - 1) + s
  }

  /** A name gets an entry exactly when it is fetched and found on some
    * place. */
  lemma {:induction false} FetchedVarsKeys(g: Graph, names: seq<string>, name: string)
    ensures name in FetchedVars(g, names) <==> name in names && Latests(g, name, |g.versions|) != []
    decreases |names|
  {
    if names != [] {
      var front, last := names[..|names| - 1], names[|names| - 1];
      FetchedVarsKeys(g, front, name);
      assert names == front + [last];
      ExtendAt(FetchedVars(g, front), last, Latests(g, last, |g.versions|), name);
    }
  }

  /** A fetched name's entry repeats its newest versions once per
    * occurrence of the name. */
  lemma {:induction false} FetchedVarsSpec(g: Graph, names: seq<string>, name: string)
    ensures var m := FetchedVars(g, names); var l := Latests(g, name, |g.versions|);
      (name in m <==> name in names && l != []) &&
      (name in m ==> m[name] == Repeat(l, Occurrences(names, name)))
    decreases |names|
  {
    FetchedVarsKeys(g, names, name);
    if names != [] {
      var front, last := names[..|names| - 1], names[|names| - 1];
      var l := Latests(g, name, |g.versions|);
      var m := FetchedVars(g, front);
      FetchedVarsSpec(g, front, name);
      ExtendAt(m, last, Latests(g, last, |g.versions|), name);
      if last != name {
        assert Occurrences(names, name) == Occurrences(front, name);
      } else if l != [] {
        var k := Occurrences(front, name);
        assert Occurrences(names, name) == k + 1;
        if name !in m {
          FetchedVarsKeys(g, front, name);
          OccurrencesAbsent(front, name);
        }
        assert Repeat(l, k + 1) == Repeat(l, k) + l;
      }
    }
  }

  /** The entry of one name after Extend. */
  lemma ExtendAt(m: map<string, seq<VarId>>, key: string, l: seq<VarId>, name: string)
    ensures name in Extend(m, key, l) <==> name in m || (name == key && l != [])
    ensures name in Extend(m, key, l) ==>
      Extend(m, key, l)[name] == if name == key && l != [] then (if name in m then m[name] else []) + l else m[name]
  {
  }

  lemma {:induction false} OccurrencesAbsent(names: seq<string>, name: string)
    requires name !in names
    ensures Occurrences(names, name) == 0
    decreases |names|
  {
    if names != [] {
      OccurrencesAbsent(names[..|names| - 1], name);
    }
  }

  /** The newest versions a fetch collects exist, and there are none
    * exactly when no place has a version of the name. */
  lemma {:induction false} LatestsSpec(g: Graph, name: string, n: nat)
    requires GraphValid(g) && n <= |g.versions|
    ensures AllIn(g, Latests(g, name, n))
    ensures Latests(g, name, n) == [] <==> forall p :: 0 <= p < n ==> VersionsOf(g, p, name) == []
    decreases n
  {
    if n > 0 {
      LatestsSpec(g, name, n - 1);
      var vs := VersionsOf(g, n - 1, name);
      if vs != [] {
        assert vs[|vs| - 1] in g.versions[n - 1][name];
      }
    }
  }

  /** Every handle fetched_vars holds exists. */
  lemma {:induction false} FetchedVarsIn(g: Graph, names: seq<string>)
    requires GraphValid(g)
    ensures forall n :: n in FetchedVars(g, names) ==> AllIn(g, FetchedVars(g, names)[n])
    decreases |names|
  {
    if names != [] {
      FetchedVarsIn(g, names[..|names| - 1]);
      LatestsSpec(g, names[|names| - 1], |g.versions|);
    }
  }

  /** op->AddInput for every handle of `vs`, in order. */
  function AddInputs(g: Graph, o: OpId, vs: seq<VarId>): (r: Graph)
    requires o < |g.ops| && AllIn(g, vs)
    ensures |r.ops| == |g.ops| && |r.vars| == |g.vars| && r.versions == g.versions && r.depVars == g.depVars
    decreases |vs|
  {
    if vs == [] then g else WithInput(AddInputs(g, o, vs[..|vs| - 1]), o, vs[|vs| - 1])
  }

  /** The operator reads `vs` after what it read before, and each handle
    * of `vs` gains it as a pending operator; nothing else changes. */
  lemma {:induction false} AddInputsSpec(g: Graph, o: OpId, vs: seq<VarId>)
    requires o < |g.ops| && AllIn(g, vs)
    ensures var r := AddInputs(g, o, vs);
      r.ops[o] == g.ops[o].(inputs := g.ops[o].inputs + vs) &&
      (forall q :: 0 <= q < |g.ops| && q != o ==> r.ops[q] == g.ops[q]) &&
      forall x :: 0 <= x < |g.vars| ==>
        r.vars[x] == g.vars[x].(pending := g.vars[x].pending + (if x in vs then {o} else {}))
    decreases |vs|
  {
    if vs != [] {
      var front := vs[..|vs| - 1];
      AddInputsSpec(g, o, front);
      assert vs == front + [vs[|vs| - 1]];
      forall x | 0 <= x < |g.vars|
        ensures x in vs <==> x in front || x == vs[|vs| - 1]
      {
      }
    }
  }

  /** One FetchOpHandle: a new operator reading `vs` and writing a new
    * DummyVarHandle. */
  function FetchOp(g: Graph, vs: seq<VarId>): (r: Graph)
    requires AllIn(g, vs)
    ensures |r.ops| == |g.ops| + 1 && |r.vars| == |g.vars| + 1 && r.versions == g.versions && r.depVars == g.depVars
  {
    var o := |g.ops|;
    var g1 := AddInputs(g.(ops := g.ops + [OpHandle(FetchType, [], [])]), o, vs);
    g1.(ops := g1.ops[o := g1.ops[o].(outputs := [|g1.vars|])], vars := g1.vars + [VarNode(Dummy, Some(o), {})])
  }

  /** The fetch operator is appended with inputs `vs` and the new dummy as
    * only output; the dummy is generated by it and read by nothing; the
    * handles it reads gain it as a pending operator. */
  lemma FetchOpSpec(g: Graph, vs: seq<VarId>)
    requires AllIn(g, vs)
    ensures var r := FetchOp(g, vs);
      r.ops == g.ops + [OpHandle(FetchType, vs, [|g.vars|])] &&
      r.vars[|g.vars|] == VarNode(Dummy, Some(|g.ops|), {}) &&
      forall x :: 0 <= x < |g.vars| ==>
        r.vars[x] == g.vars[x].(pending := g.vars[x].pending + (if x in vs then {|g.ops|} else {}))
  {
    var g0 := g.(ops := g.ops + [OpHandle(FetchType, [], [])]);
    AddInputsSpec(g0, |g.ops|, vs);
    var r := FetchOp(g, vs);
    assert r.ops[|g.ops|] == OpHandle(FetchType, vs, [|g.vars|]);
    assert r.ops == g.ops + [OpHandle(FetchType, vs, [|g.vars|])];
  }

  /** The second loop of InsertFetchOps: one fetch operator per name, in
    * order; `at` throws for a name found on no place. */
  function FetchOps(g: Graph, m: map<string, seq<VarId>>, names: seq<string>): (r: Result<Graph>)
    requires forall n :: n in m ==> AllIn(g, m[n])
    ensures r.Ok? ==> (|r.value.ops| == |g.ops| + |names| && |r.value.vars| == |g.vars| + |names| &&
      r.value.versions == g.versions && r.value.depVars == g.depVars)
    decreases |names|
  {
    if names == [] then Ok(g)
    else
      match FetchOps(g, m, names[..|names| - 1])
      case Err(e) => Err(e)
      case Ok(g1) =>
        var name := names[|names| - 1];
        if name !in m then Err("fetched_vars.at: " + name) else Ok(FetchOp(g1, m[name]))
  }

  /** The fetch operators succeed exactly when every fetched name has an
    * entry. */
  lemma {:induction false} FetchOpsOk(g: Graph, m: map<string, seq<VarId>>, names: seq<string>)
    requires forall n :: n in m ==> AllIn(g, m[n])
    ensures FetchOps(g, m, names).Ok? <==> forall i :: 0 <= i < |names| ==> names[i] in m
    decreases |names|
  {
    if names != [] {
      var front := names[..|names| - 1];
      FetchOpsOk(g, m, front);
      if FetchOps(g, m, front).Err? {
        var i :| 0 <= i < |front| && front[i] !in m;
        assert names[i] == front[i];
      }
    }
  }

  /** The first name without an entry is the one `at` throws for. */
  lemma {:induction false} FetchOpsStops(g: Graph, m: map<string, seq<VarId>>, names: seq<string>, k: nat)
    requires forall n :: n in m ==> AllIn(g, m[n])
    requires k < |names| && FetchOps(g, m, names[..k]).Ok? && names[k] !in m
    ensures FetchOps(g, m, names) == Err("fetched_vars.at: " + names[k])
    decreases |names|
  {
    var front := names[..|names| - 1];
    if k < |front| {
      assert front[..k] == names[..k];
      FetchOpsStops(g, m, front, k);
    } else {
      assert front == names[..k];
    }
  }

  /** The graph's own operators are unchanged by the fetch operators. */
  lemma {:induction false} FetchOpsPrefix(g: Graph, m: map<string, seq<VarId>>, names: seq<string>)
    requires forall n :: n in m ==> AllIn(g, m[n])
    ensures var r := FetchOps(g, m, names); r.Ok? ==> r.value.ops[..|g.ops|] == g.ops
    decreases |names|
  {
    if names != [] {
      var front := names[..|names| - 1];
      FetchOpsPrefix(g, m, front);
      var name := names[|names| - 1];
      if FetchOps(g, m, front).Ok? && name in m {
        var g1 := FetchOps(g, m, front).value;
        FetchOpSpec(g1, m[name]);
        assert FetchOp(g1, m[name]).ops[..|g.ops|] == g1.ops[..|g.ops|];
      }
    }
  }

  /** The i-th fetch operator is operator |g.ops| + i; it reads the entry
    * of the i-th name and writes dummy |g.vars| + i, which it generates and
    * nothing reads. */
  lemma {:induction false} FetchOpsHandle(g: Graph, m: map<string, seq<VarId>>, names: seq<string>, i: nat)
    requires forall n :: n in m ==> AllIn(g, m[n])
    requires i < |names|
    ensures var r := FetchOps(g, m, names); r.Ok? ==>
      names[i] in m &&
      r.value.ops[|g.ops| + i] == OpHandle(FetchType, m[names[i]], [|g.vars| + i]) &&
      r.value.vars[|g.vars| + i] == VarNode(Dummy, Some(|g.ops| + i), {})
    decreases |names|
  {
    var front := names[..|names| - 1];
    var name := names[|names| - 1];
    if FetchOps(g, m, front).Ok? && name in m {
      var g1 := FetchOps(g, m, front).value;
      FetchOpSpec(g1, m[name]);
      if i < |front| {
        FetchOpsHandle(g, m, front, i);
        assert names[i] == front[i];
      }
    }
  }

  /** The graph's handles keep their kind and generator, and gain as
    * pending operators exactly the fetch operators that read them. */
  lemma {:induction false} FetchOpsReaders(g: Graph, m: map<string, seq<VarId>>, names: seq<string>)
    requires forall n :: n in m ==> AllIn(g, m[n])
    ensures var r := FetchOps(g, m, names); r.Ok? ==>
      forall x :: 0 <= x < |g.vars| ==>
        r.value.vars[x].kind == g.vars[x].kind && r.value.vars[x].generator == g.vars[x].generator &&
        forall o :: o in r.value.vars[x].pending <==>
          o in g.vars[x].pending || (|g.ops| <= o < |g.ops| + |names| && names[o - |g.ops|] in m && x in m[names[o - |g.ops|]])
    decreases |names|
  {
    if names != [] {
      var front := names[..|names| - 1];
      FetchOpsReaders(g, m, front);
      var name := names[|names| - 1];
      if FetchOps(g, m, front).Ok? && name in m {
        var g1 := FetchOps(g, m, front).value;
        FetchOpSpec(g1, m[name]);
        assert forall j :: 0 <= j < |front| ==> names[j] == front[j];
      }
    }
  }

  /** A push appends one handle to the entry (creating it first). */
  lemma ExtendSnoc(m: map<string, seq<VarId>>, name: string, l: seq<VarId>, x: VarId)
    ensures var e := Extend(m, name, l);
      Extend(m, name, l + [x]) == e[name := (if name in e then e[name] else []) + [x]]
  {
    assert l + [x] != [];
    if l != [] {
      var base := if name in m then m[name] else [];
      assert base + (l + [x]) == (base + l) + [x];
      assert m[name := base + l][name := (base + l) + [x]] == m[name := (base + l) + [x]];
    } else {
      assert l + [x] == [x];
    }
  }

  /** One fetch operator keeps every handle of the graph in range. */
  lemma FetchOpValid(g: Graph, vs: seq<VarId>)
    requires GraphValid(g) && AllIn(g, vs)
    ensures GraphValid(FetchOp(g, vs))
  {
    FetchOpSpec(g, vs);
    var r := FetchOp(g, vs);
    forall v | 0 <= v < |r.vars|
      ensures VarInRange(r.vars[v], |r.ops|)
    {
      if v < |g.vars| {
        assert VarInRange(g.vars[v], |g.ops|);
      }
    }
    forall o | 0 <= o < |r.ops|
      ensures OpInRange(r.ops[o], |r.vars|)
    {
      if o < |g.ops| {
        assert r.ops[o] == g.ops[o];
        assert OpInRange(g.ops[o], |g.vars|);
      }
    }
  }

  /** The fetch operators keep every handle of the graph in range. */
  lemma {:induction false} FetchOpsValid(g: Graph, m: map<string, seq<VarId>>, names: seq<string>)
    requires GraphValid(g) && forall n :: n in m ==> AllIn(g, m[n])
    ensures FetchOps(g, m, names).Ok? ==> GraphValid(FetchOps(g, m, names).value)
    decreases |names|
  {
    if names != [] {
      var front, name := names[..|names| - 1], names[|names| - 1];
      FetchOpsValid(g, m, front);
      if FetchOps(g, m, front).Ok? && name in m {
        var g1 := FetchOps(g, m, front).value;
        assert AllIn(g1, m[name]);
        FetchOpValid(g1, m[name]);
      }
    }
  }

  /** A fetched name has an entry exactly when some place has a version
    * of it. */
  lemma FetchedNamesFound(g: Graph, names: seq<string>)
    ensures forall i :: 0 <= i < |names| ==> (names[i] in FetchedVars(g, names) <==> Latests(g, names[i], |g.versions|) != [])
  {
    forall i | 0 <= i < |names|
      ensures names[i] in FetchedVars(g, names) <==> Latests(g, names[i], |g.versions|) != []
    {
      FetchedVarsKeys(g, names, names[i]);
    }
  }

  /** The graph Run executes: the graph with one fetch operator per
    * fetched name, or the error `at` throws for a name found nowhere. */
  function WithFetchOps(g: Graph, names: seq<string>): (r: Result<Graph>)
    requires GraphValid(g)
    ensures r.Ok? ==> GraphValid(r.value) && |r.value.ops| == |g.ops| + |names| && r.value.ops[..|g.ops|] == g.ops
    ensures r.Ok? <==> forall i :: 0 <= i < |names| ==> Latests(g, names[i], |g.versions|) != []
  {
    FetchedVarsIn(g, names);
    FetchedNamesFound(g, names);
    FetchOpsValid(g, FetchedVars(g, names), names);
    FetchOpsPrefix(g, FetchedVars(g, names), names);
    FetchOpsOk(g, FetchedVars(g, names), names);
    FetchOps(g, FetchedVars(g, names), names)
  }

  /** The loop over places for one fetched name. */
  method CollectLatest(g: Graph, fetched: map<string, seq<VarId>>, name: string)
    returns (fetched': map<string, seq<VarId>>)
    ensures fetched' == Extend(fetched, name, Latests(g, name, |g.versions|))
  {
    fetched' := fetched;
    var p := 0;
    while p < |g.versions|
      invariant p <= |g.versions|
      invariant fetched' == Extend(fetched, name, Latests(g, name, p))
    {
      if name in g.versions[p] && g.versions[p][name] != [] {
        var list := g.versions[p][name];
        ExtendSnoc(fetched, name, Latests(g, name, p), list[|list| - 1]);
        fetched' := fetched'[name := (if name in fetched' then fetched'[name] else []) + [list[|list| - 1]]];
      }
      p := p + 1;
    }
  }

  /** One iteration of the second loop: the fetch operator, its inputs and
    * its dummy output. */
  method AddFetchOp(graph: Graph, vs: seq<VarId>) returns (graph': Graph)
    requires AllIn(graph, vs)
    ensures graph' == FetchOp(graph, vs)
  {
    var o := |graph.ops|;
    graph' := graph.(ops := graph.ops + [OpHandle(FetchType, [], [])]);
    var j := 0;
    while j < |vs|
      invariant j <= |vs|
      invariant graph' == AddInputs(graph.(ops := graph.ops + [OpHandle(FetchType, [], [])]), o, vs[..j])
    {
      assert vs[..j + 1][..j] == vs[..j];
      graph' := WithInput(graph', o, vs[j]);
      j := j + 1;
    }
    assert vs[..j] == vs;
    var dummy := |graph'.vars|;
    graph' := graph'.(ops := graph'.ops[o := graph'.ops[o].(outputs := [dummy])],
                      vars := graph'.vars + [VarNode(Dummy, Some(o), {})]);
  }

  /** InsertFetchOps: collects the newest versions of every fetched name
    * per place, then adds the fetch operators. They are added to a copy of
    * the graph: the fetch operators are destroyed when Run returns, and
    * their destructor takes them off the pending lists again. */
  method InsertFetchOps(g: Graph, names: seq<string>) returns (r: Result<Graph>)
    requires GraphValid(g)
    ensures r == WithFetchOps(g, names)
  {
    var fetched: map<string, seq<VarId>> := map[];
    var i := 0;
    while i < |names|
      invariant i <= |names|
      invariant fetched == FetchedVars(g, names[..i])
    {
      assert names[..i + 1][..i] == names[..i];
      fetched := CollectLatest(g, fetched, names[i]);
      i := i + 1;
    }
    assert names[..i] == names;
    FetchedVarsIn(g, names);
    var graph := g;
    var k := 0;
    while k < |names|
      invariant k <= |names|
      invariant FetchOps(g, fetched, names[..k]) == Ok(graph)
    {
      assert names[..k + 1][..k] == names[..k];
      if names[k] !in fetched {
        FetchOpsStops(g, fetched, names, k);
        return Err("fetched_vars.at: " + names[k]);
      }
      graph := AddFetchOp(graph, fetched[names[k]]);
      k := k + 1;
    }
    assert names[..k] == names;
    r := Ok(graph);
  }

  // ---------------------------------------------------------------------
  // Seeding the ready queues and the pending counts

  /** No element of `s` repeats an earlier one. */
  predicate Distinct(s: seq<OpId>)
    decreases |s|
  {
    s == [] || (Distinct(s[..|s| - 1]) && s[|s| - 1] !in s[..|s| - 1])
  }

  /** Distinct is the pairwise no-duplicates property. */
  lemma {:induction false} DistinctNoDuplicates(s: seq<OpId>)
    ensures Distinct(s) <==> IrNode.NoDuplicates(s)
    decreases |s|
  {
    if s != [] {
      var front, x := s[..|s| - 1], s[|s| - 1];
      DistinctNoDuplicates(front);
      if IrNode.NoDuplicates(s) {
        forall i, j | 0 <= i < j < |front|
          ensures front[i] != front[j]
        {
          assert front[i] == s[i] && front[j] == s[j];
        }
        forall i | 0 <= i < |front|
          ensures front[i] != x
        {
          assert front[i] == s[i];
        }
      }
      if Distinct(s) {
        forall i, j | 0 <= i < j < |s|
          ensures s[i] != s[j]
        {
          if j < |front| {
            assert front[i] == s[i] && front[j] == s[j];
          } else {
            assert s[i] == front[i];
          }
        }
      }
    }
  }

  lemma DistinctSnoc(s: seq<OpId>, x: OpId)
    requires Distinct(s) && x !in s
    ensures Distinct(s + [x])
  {
    assert (s + [x])[..|s|] == s;
  }

  lemma DistinctConcat(a: seq<OpId>, b: seq<OpId>)
    requires Distinct(a) && Distinct(b) && forall i :: 0 <= i < |b| ==> b[i] !in a
    ensures Distinct(a + b)
  {
    DistinctNoDuplicates(a);
    DistinctNoDuplicates(b);
    var l := a + b;
    forall i, j | 0 <= i < j < |l|
      ensures l[i] != l[j]
    {
      if i >= |a| {
        assert l[i] == b[i - |a|] && l[j] == b[j - |a|];
      } else if j >= |a| {
        assert l[j] == b[j - |a|];
      }
    }
    DistinctNoDuplicates(l);
  }

  /** Dropping the front keeps the rest distinct, and the front is not
    * in it. */
  lemma DistinctTail(s: seq<OpId>)
    requires Distinct(s) && s != []
    ensures Distinct(s[1..]) && s[0] !in s[1..]
  {
    DistinctNoDuplicates(s);
    var t := s[1..];
    forall i, j | 0 <= i < j < |t|
      ensures t[i] != t[j]
    {
      assert t[i] == s[i + 1] && t[j] == s[j + 1];
    }
    forall i | 0 <= i < |t|
      ensures t[i] != s[0]
    {
      assert t[i] == s[i + 1];
    }
    DistinctNoDuplicates(t);
  }

  /** Every operator has a device. */
  predicate DevicesOk(g: Graph, placeDevice: seq<int>)
    requires GraphValid(g)
  {
    forall o :: 0 <= o < |g.ops| ==> DeviceOf(g, placeDevice, o).Ok?
  }

  /** `devs` lists the device of every operator. */
  predicate DevicesAre(g: Graph, placeDevice: seq<int>, devs: seq<nat>)
    requires GraphValid(g)
  {
    |devs| == |g.ops| &&
    forall o {:trigger DeviceOf(g, placeDevice, o)} :: 0 <= o < |g.ops| ==> DeviceOf(g, placeDevice, o) == Ok(devs[o])
  }

  /** The device of every operator, by operator id. */
  function Devices(g: Graph, placeDevice: seq<int>): (r: seq<nat>)
    requires GraphValid(g) && DevicesOk(g, placeDevice)
    ensures DevicesAre(g, placeDevice, r)
  {
    seq(|g.ops|, o requires 0 <= o < |g.ops| => DeviceOf(g, placeDevice, o).value)
  }

  /** The per-device ready queues (BlockingQueue) and pending counts
    * (pending_op_deps). */
  datatype Queues = Queues(ready: seq<seq<OpId>>, pending: seq<map<OpId, int>>)

  /** The handles the seeding loops visit: every version in vars_ and
    * every dummy in dep_vars_. */
  function Registered(g: Graph): set<VarId>
  {
    g.depVars + set p, n, v | 0 <= p < |g.versions| && n in g.versions[p] && v in g.versions[p][n] :: v
  }

  /** The registered handles that nothing generates. */
  function Seeded(g: Graph): set<VarId>
  {
    set v | v in Registered(g) && v < |g.vars| && g.vars[v].generator.None?
  }

  /** The handles of `vs` that list `o` as a pending operator. */
  function ReadBy(g: Graph, vs: set<VarId>, o: OpId): set<VarId>
  {
    set v | v in vs && v < |g.vars| && o in g.vars[v].pending
  }

  /** The operators the first loops put in a pending map: the fetch
    * operators (numbered from `nGraph` on) and every operator with inputs. */
  predicate Keyed(g: Graph, nGraph: nat, o: OpId)
    requires o < |g.ops|
  {
    nGraph <= o || g.ops[o].inputs != []
  }

  /** The count an operator starts from: NoDupInputSize if it is keyed,
    * else the zero operator[] inserts. */
  function InitialCount(g: Graph, nGraph: nat, o: OpId): nat
    requires o < |g.ops|
  {
    if Keyed(g, nGraph, o) then |IrNode.Members(g.ops[o].inputs)| else 0
  }

  /** The queues hold operators of `devs` only, each on its own device,
    * and no ready queue holds an operator twice. */
  ghost predicate Placed(q: Queues, devs: seq<nat>)
  {
    |q.ready| == |q.pending| &&
    (forall o :: 0 <= o < |devs| ==> devs[o] < |q.ready|) &&
    (forall d, o {:trigger o in q.pending[d]} :: 0 <= d < |q.pending| && o in q.pending[d] ==> o < |devs| && devs[o] == d) &&
    (forall d, i :: 0 <= d < |q.ready| && 0 <= i < |q.ready[d]| ==> q.ready[d][i] < |devs| && devs[q.ready[d][i]] == d) &&
    (forall d :: 0 <= d < |q.ready| ==> Distinct(q.ready[d]))
  }

  /** The entry, count and readiness of one operator after `c` decrements:
    * it has an entry exactly when it is keyed or has been decremented, its
    * count is the starting count less the decrements, and it is ready
    * exactly when it has no inputs or a decrement brought it to zero. */
  ghost predicate SeededOp(g: Graph, nGraph: nat, devs: seq<nat>, q: Queues, o: OpId, c: nat)
    requires o < |g.ops| && o < |devs| && devs[o] < |q.ready| && devs[o] < |q.pending|
  {
    var d := devs[o];
    (o in q.pending[d] <==> Keyed(g, nGraph, o) || c > 0) &&
    (o in q.pending[d] ==> q.pending[d][o] == InitialCount(g, nGraph, o) - c) &&
    (o in q.ready[d] <==> !Keyed(g, nGraph, o) || 1 <= InitialCount(g, nGraph, o) <= c)
  }

  /** The queues after the decrements for the handles of `seen` and, of
    * the handle being processed, for its pending operators in `done`. */
  ghost predicate Seeding(g: Graph, nGraph: nat, devs: seq<nat>, q: Queues, seen: set<VarId>, done: set<OpId>)
  {
    |devs| == |g.ops| && Placed(q, devs) &&
    forall o :: 0 <= o < |g.ops| ==>
      SeededOp(g, nGraph, devs, q, o, |ReadBy(g, seen, o)| + (if o in done then 1 else 0))
  }

  /** One iteration of the first two loops for an operator without
    * inputs: it is pushed on its device's ready queue. */
  method PlaceReady(g: Graph, nGraph: nat, ghost devs: seq<nat>, q: Queues, o: OpId, d: nat) returns (q': Queues)
    requires o < |g.ops| && o < nGraph && g.ops[o].inputs == [] && |devs| == o && d < |q.ready|
    requires Placed(q, devs)
    requires forall x :: 0 <= x < o ==> SeededOp(g, nGraph, devs, q, x, 0)
    ensures Placed(q', devs + [d]) && |q'.ready| == |q.ready|
    ensures forall x :: 0 <= x <= o ==> SeededOp(g, nGraph, devs + [d], q', x, 0)
  {
    DistinctSnoc(q.ready[d], o);
    q' := q.(ready := q.ready[d := q.ready[d] + [o]]);
    forall x | 0 <= x < o
      ensures SeededOp(g, nGraph, devs + [d], q', x, 0)
    {
      assert SeededOp(g, nGraph, devs, q, x, 0);
      assert x in q'.ready[devs[x]] <==> x in q.ready[devs[x]];
    }
  }

  /** One iteration of the first two loops for a fetch operator or an
    * operator with inputs: its pending count is its NoDupInputSize. */
  method PlacePending(g: Graph, nGraph: nat, ghost devs: seq<nat>, q: Queues, o: OpId, d: nat) returns (q': Queues)
    requires o < |g.ops| && Keyed(g, nGraph, o) && |devs| == o && d < |q.ready|
    requires Placed(q, devs)
    requires forall x :: 0 <= x < o ==> SeededOp(g, nGraph, devs, q, x, 0)
    ensures Placed(q', devs + [d]) && |q'.ready| == |q.ready|
    ensures forall x :: 0 <= x <= o ==> SeededOp(g, nGraph, devs + [d], q', x, 0)
  {
    var n := IrNode.NoDupInputSize(g.ops[o].inputs);
    var counts: map<OpId, int> := q.pending[d][o := n];
    q' := q.(pending := q.pending[d := counts]);
    forall e, x | 0 <= e < |q'.pending| && x in q'.pending[e]
      ensures x < o + 1 && (devs + [d])[x] == e
    {
      if e != d || x != o {
        assert x in q.pending[e];
      }
    }
    forall x | 0 <= x < o
      ensures SeededOp(g, nGraph, devs + [d], q', x, 0)
    {
      assert SeededOp(g, nGraph, devs, q, x, 0);
    }
  }

  /** The first two loops: an operator without inputs is pushed ready,
    * every other operator and every fetch operator gets its
    * NoDupInputSize as pending count; an operator without a device stops
    * the run. */
  method InitQueues(g: Graph, placeDevice: seq<int>, nGraph: nat) returns (r: Result<Queues>)
    requires GraphValid(g) && nGraph <= |g.ops|
    ensures r.Err? <==> !DevicesOk(g, placeDevice)
    ensures r.Ok? ==> |r.value.ready| == |placeDevice| && Seeding(g, nGraph, Devices(g, placeDevice), r.value, {}, {})
  {
    var q := Queues(seq(|placeDevice|, _ => []), seq(|placeDevice|, _ => map[]));
    ghost var devs: seq<nat> := [];
    var o: OpId := 0;
    while o < |g.ops|
      invariant o <= |g.ops| && |devs| == o && |q.ready| == |placeDevice| == |q.pending|
      invariant forall x :: 0 <= x < o ==> DeviceOf(g, placeDevice, x) == Ok(devs[x])
      invariant Placed(q, devs)
      invariant forall x :: 0 <= x < o ==> SeededOp(g, nGraph, devs, q, x, 0)
    {
      var dr := GetDeviceId(g, placeDevice, o);
      if dr.Err? {
        return Err(dr.error);
      }
      if o < nGraph && g.ops[o].inputs == [] {
        q := PlaceReady(g, nGraph, devs, q, o, dr.value);
      } else {
        q := PlacePending(g, nGraph, devs, q, o, dr.value);
      }
      devs := devs + [dr.value];
      o := o + 1;
    }
    assert devs == Devices(g, placeDevice);
    forall x | 0 <= x < |g.ops|
      ensures SeededOp(g, nGraph, devs, q, x, |ReadBy(g, {}, x)| + 0)
    {
      assert ReadBy(g, {}, x) == {};
    }
    r := Ok(q);
  }

  /** Adding one handle to the visited ones adds one decrement to each of
    * its pending operators. */
  lemma ReadByAdd(g: Graph, seen: set<VarId>, v: VarId, o: OpId)
    requires v !in seen && v < |g.vars|
    ensures |ReadBy(g, seen + {v}, o)| == |ReadBy(g, seen, o)| + (if o in g.vars[v].pending then 1 else 0)
  {
    if o in g.vars[v].pending {
      assert ReadBy(g, seen + {v}, o) == ReadBy(g, seen, o) + {v};
    } else {
      assert ReadBy(g, seen + {v}, o) == ReadBy(g, seen, o);
    }
  }

  /** One decrement of the seeding loops: `o`'s count on its device goes
    * down by one (from the zero operator[] inserts if it has no entry),
    * and `o` is pushed ready when the count reaches zero. */
  method SeedReader(g: Graph, placeDevice: seq<int>, nGraph: nat, q: Queues, ghost devs: seq<nat>,
                    ghost seen: set<VarId>, ghost done: set<OpId>, o: OpId)
    returns (q': Queues)
    requires GraphValid(g) && DevicesAre(g, placeDevice, devs) && o < |g.ops| && o !in done
    requires Seeding(g, nGraph, devs, q, seen, done)
    ensures Seeding(g, nGraph, devs, q', seen, done + {o}) && |q'.ready| == |q.ready|
  {
    var dr := GetDeviceId(g, placeDevice, o);
    var d := dr.value;
    var count := if o in q.pending[d] then q.pending[d][o] else 0;
    var counts: map<OpId, int> := q.pending[d][o := count - 1];
    q' := q.(pending := q.pending[d := counts]);
    if count - 1 == 0 {
      q' := q'.(ready := q.ready[d := q.ready[d] + [o]]);
    }
    SeedingDecrement(g, nGraph, devs, q, seen, done, o, q');
  }

  /** The queues after one decrement of `o`'s count on its device `d`,
    * with `o` pushed ready when the count reaches zero. */
  ghost predicate Decremented(q: Queues, d: nat, o: OpId, q': Queues)
    requires d < |q.ready| == |q.pending|
  {
    var n := (if o in q.pending[d] then q.pending[d][o] else 0) - 1;
    var counts: map<OpId, int> := q.pending[d][o := n];
    q'.pending == q.pending[d := counts] &&
    q'.ready == (if n == 0 then q.ready[d := q.ready[d] + [o]] else q.ready)
  }

  lemma SeedingDecrement(g: Graph, nGraph: nat, devs: seq<nat>, q: Queues, seen: set<VarId>, done: set<OpId>,
                         o: OpId, q': Queues)
    requires o < |g.ops| && o !in done && Seeding(g, nGraph, devs, q, seen, done)
    requires Decremented(q, devs[o], o, q')
    ensures Seeding(g, nGraph, devs, q', seen, done + {o}) && |q'.ready| == |q.ready|
  {
    var d := devs[o];
    assert SeededOp(g, nGraph, devs, q, o, |ReadBy(g, seen, o)|);
    PlacedDecrement(g, nGraph, devs, q, |ReadBy(g, seen, o)|, o, q');
    forall x | 0 <= x < |g.ops| && x != o
      ensures SeededOp(g, nGraph, devs, q', x, |ReadBy(g, seen, x)| + (if x in done + {o} then 1 else 0))
    {
      assert SeededOp(g, nGraph, devs, q, x, |ReadBy(g, seen, x)| + (if x in done then 1 else 0));
      assert x in q'.ready[devs[x]] <==> x in q.ready[devs[x]];
    }
  }

  lemma PlacedDecrement(g: Graph, nGraph: nat, devs: seq<nat>, q: Queues, c: nat, o: OpId, q': Queues)
    requires o < |g.ops| && |devs| == |g.ops| && Placed(q, devs) && SeededOp(g, nGraph, devs, q, o, c)
    requires Decremented(q, devs[o], o, q')
    ensures Placed(q', devs) && |q'.ready| == |q.ready|
  {
    var d := devs[o];
    forall e, x | 0 <= e < |q'.pending| && x in q'.pending[e]
      ensures x < |devs| && devs[x] == e
    {
      if e != d || x != o {
        assert x in q.pending[e];
      }
    }
    if q'.ready != q.ready {
      DistinctSnoc(q.ready[d], o);
    }
  }

  /** One iteration over the pending operators of `v`: some operator of
    * `todo` is decremented and leaves `todo`. */
  method SeedNext(g: Graph, placeDevice: seq<int>, nGraph: nat, q: Queues, ghost devs: seq<nat>, ghost seen: set<VarId>,
                  v: VarId, todo: set<OpId>)
    returns (q': Queues, todo': set<OpId>)
    requires GraphValid(g) && DevicesAre(g, placeDevice, devs) && v < |g.vars| && todo != {} && todo <= g.vars[v].pending
    requires Seeding(g, nGraph, devs, q, seen, g.vars[v].pending - todo)
    ensures Seeding(g, nGraph, devs, q', seen, g.vars[v].pending - todo') && |q'.ready| == |q.ready|
    ensures todo' < todo
  {
    var o :| o in todo;
    q' := SeedReader(g, placeDevice, nGraph, q, devs, seen, g.vars[v].pending - todo, o);
    todo' := todo - {o};
    assert (g.vars[v].pending - todo) + {o} == g.vars[v].pending - todo';
  }

  /** Once every pending operator of `v` has been decremented, `v` counts
    * as visited. */
  lemma SeedingClose(g: Graph, nGraph: nat, devs: seq<nat>, q: Queues, seen: set<VarId>, v: VarId)
    requires v < |g.vars| && v !in seen
    requires Seeding(g, nGraph, devs, q, seen, g.vars[v].pending)
    ensures Seeding(g, nGraph, devs, q, seen + {v}, {})
  {
    forall x | 0 <= x < |g.ops|
      ensures SeededOp(g, nGraph, devs, q, x, |ReadBy(g, seen + {v}, x)| + 0)
    {
      assert SeededOp(g, nGraph, devs, q, x, |ReadBy(g, seen, x)| + (if x in g.vars[v].pending then 1 else 0));
      ReadByAdd(g, seen, v, x);
    }
  }

  /** The decrements for one generatorless handle `v`: one per pending
    * operator of `v`, in the set's own order. */
  method SeedVar(g: Graph, placeDevice: seq<int>, nGraph: nat, q: Queues, ghost devs: seq<nat>, ghost seen: set<VarId>, v: VarId)
    returns (q': Queues)
    requires GraphValid(g) && DevicesAre(g, placeDevice, devs) && v < |g.vars| && v !in seen
    requires Seeding(g, nGraph, devs, q, seen, {})
    ensures Seeding(g, nGraph, devs, q', seen + {v}, {}) && |q'.ready| == |q.ready|
  {
    q' := q;
    var todo := g.vars[v].pending;
    assert g.vars[v].pending - todo == {};
    while todo != {}
      invariant todo <= g.vars[v].pending && |q'.ready| == |q.ready|
      invariant Seeding(g, nGraph, devs, q', seen, g.vars[v].pending - todo)
      decreases todo
    {
      q', todo := SeedNext(g, placeDevice, nGraph, q', devs, seen, v, todo);
    }
    assert g.vars[v].pending - todo == g.vars[v].pending;
    SeedingClose(g, nGraph, devs, q', seen, v);
  }

  /** Step 2 of Run: the initial queues and counts, then one decrement
    * for every pending operator of every generatorless handle. The model
    * visits the handles in the set's own order, where the source walks
    * vars_ place by place and then dep_vars_. */
  method Seed(g: Graph, placeDevice: seq<int>, nGraph: nat) returns (r: Result<Queues>)
    requires GraphValid(g) && nGraph <= |g.ops|
    ensures r.Err? <==> !DevicesOk(g, placeDevice)
    ensures r.Ok? ==> |r.value.ready| == |placeDevice| && Seeding(g, nGraph, Devices(g, placeDevice), r.value, Seeded(g), {})
  {
    r := InitQueues(g, placeDevice, nGraph);
    if r.Err? {
      return;
    }
    ghost var devs := Devices(g, placeDevice);
    var q := r.value;
    var rest := Seeded(g);
    assert Seeded(g) - rest == {};
    while rest != {}
      invariant rest <= Seeded(g) && |q.ready| == |placeDevice|
      invariant Seeding(g, nGraph, devs, q, Seeded(g) - rest, {})
      decreases rest
    {
      var v :| v in rest;
      q := SeedVar(g, placeDevice, nGraph, q, devs, Seeded(g) - rest, v);
      assert (Seeded(g) - rest) + {v} == Seeded(g) - (rest - {v});
      rest := rest - {v};
    }
    assert Seeded(g) - rest == Seeded(g);
    r := Ok(q);
  }

  /** In a graph whose edge lists agree, the handles of `vs` an operator
    * waits on are exactly its inputs in `vs`. */
  lemma ReadByInputs(g: Graph, vs: set<VarId>, o: OpId)
    requires SSAGraphChecker.Consistent(g) && o < |g.ops|
    ensures ReadBy(g, vs, o) == IrNode.Members(g.ops[o].inputs) * vs
  {
    forall v | v in IrNode.Members(g.ops[o].inputs) * vs
      ensures v in ReadBy(g, vs, o)
    {
      assert v in g.ops[o].inputs;
    }
  }

  /** What seeding leaves behind, in a graph whose edge lists agree: an
    * operator with inputs, and every fetch operator, waits on exactly its
    * distinct inputs that nothing generates and that are registered; an
    * operator is ready exactly when all its inputs are such handles (a
    * fetch operator needs at least one input). */
  lemma SeedMeaning(g: Graph, nGraph: nat, devs: seq<nat>, q: Queues, o: OpId)
    requires SSAGraphChecker.Consistent(g) && Seeding(g, nGraph, devs, q, Seeded(g), {}) && o < |g.ops|
    ensures Keyed(g, nGraph, o) ==>
      o in q.pending[devs[o]] && q.pending[devs[o]][o] == |IrNode.Members(g.ops[o].inputs) - Seeded(g)|
    ensures o in q.ready[devs[o]] <==>
      (o < nGraph || g.ops[o].inputs != []) && IrNode.Members(g.ops[o].inputs) <= Seeded(g)
  {
    var ins := IrNode.Members(g.ops[o].inputs);
    assert SeededOp(g, nGraph, devs, q, o, |ReadBy(g, Seeded(g), o)| + 0);
    ReadByInputs(g, Seeded(g), o);
    CoveredCount(ins, Seeded(g));
    assert ins == {} <==> g.ops[o].inputs == [] by {
      if g.ops[o].inputs != [] {
        assert g.ops[o].inputs[0] in ins;
      }
    }
  }

  /** The handles of `ins` outside `vs` number |ins| less those inside, and
    * every one of them is inside exactly when that count is at least |ins|. */
  lemma CoveredCount<T>(ins: set<T>, vs: set<T>)
    ensures |ins - vs| == |ins| - |ins * vs|
    ensures |ins| <= |ins * vs| <==> ins <= vs
  {
    assert ins == (ins - vs) + ins * vs;
    assert |ins| == |ins - vs| + |ins * vs|;
    if |ins| <= |ins * vs| {
      assert ins - vs == {};
    }
  }

  // ---------------------------------------------------------------------
  // Releasing the outputs of a finished operator

  /** How many decrements `o` receives when the handles `outs` are
    * released: one per listed handle that `o` waits on. */
  function ReleaseCount(g: Graph, outs: seq<VarId>, o: OpId): nat
  {
    if outs == [] then 0
    else
      var v := outs[|outs| - 1];
      ReleaseCount(g, outs[..|outs| - 1], o) + (if v < |g.vars| && o in g.vars[v].pending then 1 else 0)
  }

  /** The index of the first operator of `ps` that is not delayed, or |ps|. */
  function FirstUndelayed(ps: seq<OpId>, delayed: set<OpId>): (k: nat)
    ensures k <= |ps| && (k < |ps| ==> ps[k] !in delayed)
    ensures forall i :: 0 <= i < k ==> ps[i] in delayed
  {
    if ps == [] then 0
    else if ps[0] !in delayed then 0
    else 1 + FirstUndelayed(ps[1..], delayed)
  }

  /** Where the operators a release makes ready go, taken in the order they
    * became ready: the current operator, and what is appended to local_ops. */
  function Route(ps: seq<OpId>, delayed: set<OpId>): (Option<OpId>, seq<OpId>)
  {
    if ps == [] then (None, [])
    else
      var r := Route(ps[..|ps| - 1], delayed);
      var x := ps[|ps| - 1];
      if r.0.Some? || x in delayed then (r.0, r.1 + [x]) else (Some(x), r.1)
  }

  /** The first operator not delayed, after one more operator. */
  lemma {:induction false} FirstUndelayedSnoc(front: seq<OpId>, x: OpId, delayed: set<OpId>)
    ensures var k := FirstUndelayed(front, delayed);
      FirstUndelayed(front + [x], delayed) == if k < |front| || x !in delayed then k else |front| + 1
  {
    var ps := front + [x];
    assert forall i :: 0 <= i < |front| ==> ps[i] == front[i];
    assert ps[|front|] == x;
  }

  /** The first operator that became ready and is not a delayed transfer
    * runs next; all the others go to local_ops in the order they became
    * ready. */
  lemma {:induction false} RouteSpec(ps: seq<OpId>, delayed: set<OpId>)
    ensures var k := FirstUndelayed(ps, delayed);
      Route(ps, delayed) == if k < |ps| then (Some(ps[k]), ps[..k] + ps[k + 1..]) else (None, ps)
  {
    if ps != [] {
      var front, x := ps[..|ps| - 1], ps[|ps| - 1];
      assert ps == front + [x];
      RouteSpec(front, delayed);
      FirstUndelayedSnoc(front, x, delayed);
      var k := FirstUndelayed(front, delayed);
      var r := Route(front, delayed);
      if k < |front| {
        assert r == (Some(front[k]), front[..k] + front[k + 1..]);
        assert ps[k] == front[k];
        assert ps[..k] == front[..k];
        assert ps[k + 1..] == front[k + 1..] + [x];
        assert ps[..k] + ps[k + 1..] == (front[..k] + front[k + 1..]) + [x];
        assert Route(ps, delayed) == (Some(ps[k]), ps[..k] + ps[k + 1..]);
      } else if x !in delayed {
        assert r == (None, front);
        assert ps[..k] + ps[k + 1..] == front;
        assert Route(ps, delayed) == (Some(ps[k]), ps[..k] + ps[k + 1..]);
      } else {
        assert r == (None, front);
        assert Route(ps, delayed) == (None, ps);
      }
    }
  }

  /** Route hands on every operator exactly once. */
  lemma {:induction false} RouteParts(ps: seq<OpId>, delayed: set<OpId>)
    requires Distinct(ps)
    ensures var r := Route(ps, delayed);
      Distinct(r.1) && (r.0.Some? ==> r.0.value !in r.1) &&
      forall o :: o in ps <==> o in r.1 || r.0 == Some(o)
  {
    if ps != [] {
      var front, x := ps[..|ps| - 1], ps[|ps| - 1];
      assert ps == front + [x];
      RouteParts(front, delayed);
      var r := Route(front, delayed);
      if r.0.Some? || x in delayed {
        DistinctSnoc(r.1, x);
      }
    }
  }

  /** A release in progress over `outs`: the handles of `outs[..i]` are
    * done and, of the readers of `outs[i]`, those in `done`. Every count
    * has gone down by the decrements it received; `pushed` lists, once
    * each and in order, the operators whose count went from positive to
    * zero. */
  ghost predicate Releasing(g: Graph, outs: seq<VarId>, i: nat, done: set<OpId>, pending0: map<OpId, int>,
                            pending: map<OpId, int>, pushed: seq<OpId>)
  {
    i <= |outs| && pending.Keys == pending0.Keys &&
    (forall o :: o in pending ==> pending[o] == pending0[o] - (ReleaseCount(g, outs[..i], o) + (if o in done then 1 else 0))) &&
    (forall o :: o in pushed <==> o in pending0 && pending0[o] >= 1 && pending[o] <= 0) &&
    Distinct(pushed)
  }

  /** One decrement of the release loop: `--pending_op_deps->at(o)`, which
    * fails when `o` has no count on this worker's device; a count reaching
    * zero makes `o` ready, to run next or to wait in local_ops. */
  method ReleaseReader(g: Graph, outs: seq<VarId>, i: nat, ghost done: set<OpId>, ghost pending0: map<OpId, int>,
                       pending: map<OpId, int>, ghost pushed: seq<OpId>, delayed: set<OpId>,
                       current: Option<OpId>, added: seq<OpId>, o: OpId)
    returns (ok: bool, pending': map<OpId, int>, ghost pushed': seq<OpId>, current': Option<OpId>, added': seq<OpId>)
    requires i < |outs| && o !in done && Releasing(g, outs, i, done, pending0, pending, pushed)
    requires (current, added) == Route(pushed, delayed)
    ensures ok <==> o in pending0
    ensures ok ==> Releasing(g, outs, i, done + {o}, pending0, pending', pushed') && (current', added') == Route(pushed', delayed)
  {
    pending', pushed', current', added' := pending, pushed, current, added;
    if o !in pending {
      return false, pending', pushed', current', added';
    }
    ok := true;
    var dep := pending[o] - 1;
    pending' := pending[o := dep];
    if dep == 0 {
      pushed' := pushed + [o];
      if current.Some? || o in delayed {
        added' := added + [o];
      } else {
        current' := Some(o);
      }
      assert o !in pushed;
      DistinctSnoc(pushed, o);
    }
  }

  /** Adding the next handle's decrements. */
  lemma ReleaseCountNext(g: Graph, outs: seq<VarId>, i: nat, o: OpId)
    requires i < |outs|
    ensures ReleaseCount(g, outs[..i + 1], o) ==
      ReleaseCount(g, outs[..i], o) + (if outs[i] < |g.vars| && o in g.vars[outs[i]].pending then 1 else 0)
  {
    assert outs[..i + 1][..i] == outs[..i];
  }

  /** The decrements for one released handle `outs[i]`, one per operator
    * waiting on it. */
  method ReleaseVar(g: Graph, outs: seq<VarId>, i: nat, ghost pending0: map<OpId, int>,
                    pending: map<OpId, int>, ghost pushed: seq<OpId>, delayed: set<OpId>,
                    current: Option<OpId>, added: seq<OpId>)
    returns (ok: bool, pending': map<OpId, int>, ghost pushed': seq<OpId>, current': Option<OpId>, added': seq<OpId>)
    requires i < |outs| && outs[i] < |g.vars| && Releasing(g, outs, i, {}, pending0, pending, pushed)
    requires (current, added) == Route(pushed, delayed)
    ensures ok <==> g.vars[outs[i]].pending <= pending0.Keys
    ensures ok ==> Releasing(g, outs, i + 1, {}, pending0, pending', pushed') && (current', added') == Route(pushed', delayed)
  {
    pending', pushed', current', added' := pending, pushed, current, added;
    var readers := g.vars[outs[i]].pending;
    var todo := readers;
    assert readers - todo == {};
    while todo != {}
      invariant todo <= readers && readers - todo <= pending0.Keys
      invariant Releasing(g, outs, i, readers - todo, pending0, pending', pushed') && (current', added') == Route(pushed', delayed)
      decreases todo
    {
      var o :| o in todo;
      ok, pending', pushed', current', added' := ReleaseReader(g, outs, i, readers - todo, pending0, pending', pushed', delayed, current', added', o);
      if !ok {
        return;
      }
      assert (readers - todo) + {o} == readers - (todo - {o});
      todo := todo - {o};
    }
    ok := true;
    assert readers - todo == readers;
    forall o | o in pending'
      ensures pending'[o] == pending0[o] - (ReleaseCount(g, outs[..i + 1], o) + 0)
    {
      ReleaseCountNext(g, outs, i, o);
    }
  }

  /** Every operator waiting on a handle of `outs` is in `keys`. */
  predicate ReadersKeyed(g: Graph, outs: seq<VarId>, keys: set<OpId>)
  {
    forall j, x {:trigger x in g.vars[outs[j]].pending} ::
      0 <= j < |outs| && outs[j] < |g.vars| && x in g.vars[outs[j]].pending ==> x in keys
  }

  /** Step 3 of the worker loop: every handle the finished operator `c`
    * outputs is released in order. It fails (the process aborts) when an
    * operator waiting on one of them has no count on this worker's
    * device. Otherwise each count goes down by the decrements it
    * receives, `pushed` lists once each the operators brought from
    * positive to zero, and they are routed to the current operator and
    * local_ops. */
  method Release(g: Graph, c: OpId, pending: map<OpId, int>, delayed: set<OpId>)
    returns (ok: bool, pending': map<OpId, int>, ghost pushed: seq<OpId>, current: Option<OpId>, added: seq<OpId>)
    requires GraphValid(g) && c < |g.ops|
    ensures ok <==> ReadersKeyed(g, g.ops[c].outputs, pending.Keys)
    ensures ok ==> (pending'.Keys == pending.Keys &&
      forall o :: o in pending ==> pending'[o] == pending[o] - ReleaseCount(g, g.ops[c].outputs, o))
    ensures ok ==> (Distinct(pushed) &&
      forall o :: o in pushed <==> o in pending && pending[o] >= 1 && pending'[o] <= 0)
    ensures ok ==> (current, added) == Route(pushed, delayed)
  {
    OpHandlesIn(g, c);
    var outs := g.ops[c].outputs;
    pending', pushed, current, added := pending, [], None, [];
    var i := 0;
    while i < |outs|
      invariant i <= |outs| && Releasing(g, outs, i, {}, pending, pending', pushed) && (current, added) == Route(pushed, delayed)
      invariant ReadersKeyed(g, outs[..i], pending.Keys)
    {
      ok, pending', pushed, current, added := ReleaseVar(g, outs, i, pending, pending', pushed, delayed, current, added);
      if !ok {
        return;
      }
      i := i + 1;
    }
    ok := true;
    assert outs[..i] == outs;
  }

  // ---------------------------------------------------------------------
  // The worker loop (RunOp)

  /** How an operator's Run ends when it does not return normally. */
  datatype Failure = EnforceNotMet(msg: string) | Unknown

  /** How a worker's loop ends: it saw total_ops at or below zero; its
    * queues are empty while total_ops is still positive, so it waits for
    * the other workers; or the process aborts (LOG(FATAL), or an exception
    * escaping the thread); Raised is the corrected worker's end when an
    * operator throws EnforceNotMet. */
  datatype WorkerEnd = Finished | Blocked | Fatal(msg: string) | Raised(msg: string)

  /** The operator's Run throws EnforceNotMet. */
  predicate Enforced(failures: map<OpId, Failure>, o: OpId)
  {
    o in failures && failures[o].EnforceNotMet?
  }

  const UnknownMessage := "Unknown exception catched"
  const AtMessage := "unordered_map::at"

  /** How many operators of `ran` returned normally from Run. */
  function Successes(ran: seq<OpId>, failures: map<OpId, Failure>): nat
  {
    if ran == [] then 0
    else Successes(ran[..|ran| - 1], failures) + (if ran[|ran| - 1] in failures then 0 else 1)
  }

  /** exception_ after the operators of `ran` have run, starting from `e`. */
  function LastFailure(ran: seq<OpId>, failures: map<OpId, Failure>, e: Option<string>): Option<string>
  {
    if ran == [] then e
    else
      var x := ran[|ran| - 1];
      if x in failures && failures[x].EnforceNotMet? then Some(failures[x].msg)
      else LastFailure(ran[..|ran| - 1], failures, e)
  }

  /** The operators still waiting on a positive count. */
  function Positive(pending: map<OpId, int>): set<OpId>
  {
    set o | o in pending && pending[o] >= 1
  }

  /** The worker's bookkeeping after the operators of `ran` have run:
    * `ready[k..]` is what is left of its ready queue; counts only went
    * down; every operator is in at most one of the ready queue, local_ops,
    * current_op, the positive counts and `ran`, and each comes from the
    * ready queue or from a positive count; every popped operator has run. */
  ghost predicate Worker(ready: seq<OpId>, pending: map<OpId, int>, k: nat, local: seq<OpId>, cur: Option<OpId>,
                         pnd: map<OpId, int>, ran: seq<OpId>)
  {
    k <= |ready| && pnd.Keys == pending.Keys && (forall o :: o in pnd ==> pnd[o] <= pending[o]) &&
    Distinct(ready) && Distinct(ran) && Distinct(local) &&
    (forall i :: 0 <= i < |ran| ==>
       ran[i] !in ready[k..] && ran[i] !in local && cur != Some(ran[i]) && ran[i] !in Positive(pnd) &&
       (ran[i] in ready || ran[i] in Positive(pending))) &&
    (forall i :: 0 <= i < |local| ==>
       local[i] !in ready[k..] && cur != Some(local[i]) && local[i] !in Positive(pnd) &&
       (local[i] in ready || local[i] in Positive(pending))) &&
    (cur.Some? ==> cur.value !in ready[k..] && cur.value !in Positive(pnd) && (cur.value in ready || cur.value in Positive(pending))) &&
    (forall i :: 0 <= i < |ready| ==> ready[i] !in Positive(pending)) &&
    (forall i :: 0 <= i < k ==> ready[i] in ran || cur == Some(ready[i]))
  }

  /** Run returned normally or threw EnforceNotMet, and every operator
    * waiting on an output had a count on this device. */
  predicate Survived(g: Graph, failures: map<OpId, Failure>, keys: set<OpId>, o: OpId)
    requires o < |g.ops|
  {
    (o !in failures || failures[o].EnforceNotMet?) && ReadersKeyed(g, g.ops[o].outputs, keys)
  }

  /** A sequence without repeats whose elements are below `n` is no longer
    * than `n`. */
  lemma DistinctBound(s: seq<OpId>, n: nat)
    requires Distinct(s) && forall i :: 0 <= i < |s| ==> s[i] < n
    ensures |s| <= n
  {
    DistinctNoDuplicates(s);
    IrNode.MembersBound(s);
    SSAGraphChecker.BelowCard(n);
    var below := SSAGraphChecker.Below(n);
    assert IrNode.Members(s) <= below;
    assert below == IrNode.Members(s) + (below - IrNode.Members(s));
  }

  /** Step 1 of the worker loop once total_ops has been checked: the
    * current operator, else the front of local_ops, else the front of the
    * ready queue. It leaves the bookkeeping and joins `ran`. */
  method Pick(ready: seq<OpId>, ghost pending: map<OpId, int>, k: nat, local: seq<OpId>, cur: Option<OpId>,
              ghost pnd: map<OpId, int>, ghost ran: seq<OpId>)
    returns (c: OpId, k': nat, local': seq<OpId>)
    requires Worker(ready, pending, k, local, cur, pnd, ran) && (cur.Some? || local != [] || k < |ready|)
    ensures Worker(ready, pending, k', local', None, pnd, ran + [c])
    ensures c in ready || c in Positive(pending)
    ensures k' == (if cur.None? && local == [] then k + 1 else k)
  {
    k', local' := k, local;
    if cur.Some? {
      c := cur.value;
    } else if local != [] {
      c := local[0];
      local' := local[1..];
      DistinctTail(local);
      assert local == [c] + local';
    } else {
      c := ready[k];
      k' := k + 1;
      assert ready[k..] == [c] + ready[k'..];
    }
    assert c !in ready[k'..] && c !in local' && c !in Positive(pnd) && c !in ran by {
      if cur.None? && local == [] {
        DistinctNoDuplicates(ready);
        assert c !in Positive(pending);
      }
    }
    var ran' := ran + [c];
    DistinctSnoc(ran, c);
    forall i | 0 <= i < |local'|
      ensures local'[i] !in ready[k'..] && local'[i] !in Positive(pnd) && (local'[i] in ready || local'[i] in Positive(pending))
      ensures local'[i] != c && local'[i] !in ran
    {
      if cur.None? && local != [] {
        assert local'[i] == local[i + 1];
      }
    }
    forall i | 0 <= i < |ran|
      ensures ran[i] !in ready[k'..]
    {
      assert ready[k'..] == ready[k..][k' - k..];
    }
    forall i | 0 <= i < k'
      ensures ready[i] in ran'
    {
      if i < k {
        assert ready[i] in ran || cur == Some(ready[i]);
      }
    }
  }

  /** The counts still positive after a release are those that were
    * positive and did not reach zero. */
  lemma PositiveAfter(pnd: map<OpId, int>, pnd': map<OpId, int>, pushed: seq<OpId>)
    requires pnd'.Keys == pnd.Keys && forall o :: o in pnd ==> pnd'[o] <= pnd[o]
    requires forall o :: o in pushed <==> o in pnd && pnd[o] >= 1 && pnd'[o] <= 0
    ensures forall o :: o in Positive(pnd') <==> o in Positive(pnd) && o !in pushed
  {
  }

  /** An operator whose count a release took to zero had a positive
    * count here, so it is not in the ready queue. */
  lemma PushedFresh(ready: seq<OpId>, pending: map<OpId, int>, pnd: map<OpId, int>, pnd': map<OpId, int>, pushed: seq<OpId>)
    requires pnd.Keys == pending.Keys && forall o :: o in pnd ==> pnd[o] <= pending[o]
    requires forall i :: 0 <= i < |ready| ==> ready[i] !in Positive(pending)
    requires pnd'.Keys == pnd.Keys && forall o :: o in pnd ==> pnd'[o] <= pnd[o]
    requires forall o :: o in pushed <==> o in pnd && pnd[o] >= 1 && pnd'[o] <= 0
    ensures forall o :: o in pushed ==> o in Positive(pnd) && o !in Positive(pnd') && o in Positive(pending) && o !in ready
    ensures forall o :: o in Positive(pnd') <==> o in Positive(pnd) && o !in pushed
  {
    PositiveAfter(pnd, pnd', pushed);
  }

  /** The operators a release made ready, split into current_op `cur`
    * and the `rest` appended to local_ops, are fresh: in neither
    * local_ops nor the rest of the ready queue, and their counts are no
    * longer positive. */
  lemma RoutedFresh(ready: seq<OpId>, pending: map<OpId, int>, k: nat, local: seq<OpId>, pnd: map<OpId, int>,
                    pnd': map<OpId, int>, pushed: seq<OpId>, cur: Option<OpId>, rest: seq<OpId>)
    requires k <= |ready| && Distinct(local) && Distinct(rest)
    requires forall i :: 0 <= i < |local| ==>
      local[i] !in ready[k..] && local[i] !in Positive(pnd) && (local[i] in ready || local[i] in Positive(pending))
    requires forall o :: o in pushed ==> o in Positive(pnd) && o !in Positive(pnd') && o in Positive(pending) && o !in ready
    requires forall o :: o in Positive(pnd') ==> o in Positive(pnd)
    requires (cur.Some? ==> cur.value !in rest) && forall o :: o in rest || cur == Some(o) ==> o in pushed
    ensures var l := local + rest;
      Distinct(l) &&
      (forall i :: 0 <= i < |l| ==>
         l[i] !in ready[k..] && cur != Some(l[i]) && l[i] !in Positive(pnd') && (l[i] in ready || l[i] in Positive(pending)))
    ensures cur.Some? ==> cur.value !in ready[k..] && cur.value !in Positive(pnd') && cur.value in Positive(pending)
  {
    var l := local + rest;
    forall i | 0 <= i < |rest| ensures rest[i] !in local {
      assert rest[i] in pushed;
    }
    DistinctConcat(local, rest);
    forall i | 0 <= i < |l|
      ensures l[i] !in ready[k..] && cur != Some(l[i]) && l[i] !in Positive(pnd') && (l[i] in ready || l[i] in Positive(pending))
    {
      if i >= |local| {
        assert l[i] == rest[i - |local|];
        assert l[i] in pushed;
      } else {
        assert l[i] == local[i];
      }
    }
    if cur.Some? {
      assert cur.value in pushed;
    }
  }

  /** Routing the operators a release made ready keeps the bookkeeping:
    * they leave the positive counts for current_op and local_ops. */
  lemma Routed(ready: seq<OpId>, pending: map<OpId, int>, k: nat, local: seq<OpId>, pnd: map<OpId, int>, ran: seq<OpId>,
               pnd': map<OpId, int>, pushed: seq<OpId>, delayed: set<OpId>)
    requires Worker(ready, pending, k, local, None, pnd, ran)
    requires pnd'.Keys == pnd.Keys && forall o :: o in pnd ==> pnd'[o] <= pnd[o]
    requires Distinct(pushed) && forall o :: o in pushed <==> o in pnd && pnd[o] >= 1 && pnd'[o] <= 0
    ensures var r := Route(pushed, delayed);
      Worker(ready, pending, k, local + r.1, r.0, pnd', ran)
  {
    RouteParts(pushed, delayed);
    PushedFresh(ready, pending, pnd, pnd', pushed);
    var r := Route(pushed, delayed);
    RoutedFresh(ready, pending, k, local, pnd, pnd', pushed, r.0, r.1);
    var l := local + r.1;
    forall i | 0 <= i < |ran|
      ensures ran[i] !in l && r.0 != Some(ran[i]) && ran[i] !in Positive(pnd')
    {
      assert ran[i] !in Positive(pnd) && ran[i] !in local && ran[i] !in pushed;
    }
  }

  /** Step 3 of the worker loop: release the outputs of the operator that
    * ran and route the operators they make ready. When a reader has no
    * count here the process aborts; the state returned then is the one
    * before the release. */
  method ReleaseStep(g: Graph, c: OpId, delayed: set<OpId>, ready: seq<OpId>, ghost pending: map<OpId, int>,
                     k: nat, local: seq<OpId>, pnd: map<OpId, int>, ghost ran: seq<OpId>)
    returns (ok: bool, pnd': map<OpId, int>, cur': Option<OpId>, local': seq<OpId>)
    requires GraphValid(g) && c < |g.ops| && Worker(ready, pending, k, local, None, pnd, ran)
    ensures ok <==> ReadersKeyed(g, g.ops[c].outputs, pending.Keys)
    ensures Worker(ready, pending, k, local', cur', pnd', ran)
  {
    var added;
    ghost var pushed;
    ok, pnd', pushed, cur', added := Release(g, c, pnd, delayed);
    if ok {
      Routed(ready, pending, k, local, pnd, ran, pnd', pushed, delayed);
      local' := local + added;
    } else {
      pnd', cur', local' := pnd, None, local;
    }
  }

  /** One pass of the worker loop once total_ops has been checked: pick
    * an operator `c`, run it (a normal return decrements total_ops, an
    * EnforceNotMet is kept in exception_, anything else aborts), then
    * release its outputs. `stop` is how the worker ends, if it does. With
    * `rethrow` an EnforceNotMet ends the worker at once, as Raised. */
  method Step(g: Graph, failures: map<OpId, Failure>, delayed: set<OpId>, rethrow: bool, ready: seq<OpId>,
              ghost pending: map<OpId, int>, k: nat, local: seq<OpId>, cur: Option<OpId>, pnd: map<OpId, int>,
              ghost ran: seq<OpId>, total: int, exception: Option<string>)
    returns (stop: Option<WorkerEnd>, c: OpId, k': nat, local': seq<OpId>, cur': Option<OpId>, pnd': map<OpId, int>,
             total': int, exception': Option<string>)
    requires GraphValid(g) && Worker(ready, pending, k, local, cur, pnd, ran) && (cur.Some? || local != [] || k < |ready|)
    requires forall i :: 0 <= i < |ready| ==> ready[i] < |g.ops|
    requires forall o :: o in pending ==> o < |g.ops|
    ensures c < |g.ops| && Worker(ready, pending, k', local', cur', pnd', ran + [c])
    ensures stop.None? ==> (Survived(g, failures, pending.Keys, c) &&
                            total' == total - Successes([c], failures) && exception' == LastFailure([c], failures, exception))
    ensures stop.Some? ==> stop.value.Fatal? || stop.value.Raised?
    ensures stop.Some? && stop.value.Fatal? ==> Aborts(g, failures, pending.Keys, c, stop.value.msg)
    ensures stop.Some? && stop.value.Raised? ==> rethrow && Enforced(failures, c) && stop.value.msg == failures[c].msg
    ensures rethrow && !(stop.Some? && stop.value.Raised?) ==> !Enforced(failures, c)
  {
    c, k', local' := Pick(ready, pending, k, local, cur, pnd, ran);
    total', pnd', cur', exception' := total, pnd, None, exception;
    stop := None;
    if c !in failures {
      total' := total - 1;
    } else if failures[c].Unknown? {
      stop := Some(Fatal(UnknownMessage));
    } else if rethrow {
      stop := Some(Raised(failures[c].msg));
    } else {
      exception' := Some(failures[c].msg);
    }
    if stop.None? {
      var ok;
      ok, pnd', cur', local' := ReleaseStep(g, c, delayed, ready, pending, k', local', pnd, ran + [c]);
      if !ok {
        stop := Some(Fatal(AtMessage));
      }
    }
  }

  /** Why the process aborts after operator `o` ran: its Run threw
    * something other than EnforceNotMet, or (it did not, and) a reader of
    * one of its outputs has no count on this device, so `at` throws out
    * of the worker thread. */
  predicate Aborts(g: Graph, failures: map<OpId, Failure>, keys: set<OpId>, o: OpId, msg: string)
    requires o < |g.ops|
  {
    if o in failures && failures[o].Unknown? then msg == UnknownMessage
    else msg == AtMessage && !ReadersKeyed(g, g.ops[o].outputs, keys)
  }

  /** Every operator of `ran` returned normally or threw EnforceNotMet
    * (and, with `rethrow`, returned normally), and found its readers'
    * counts. */
  ghost predicate Survivors(g: Graph, failures: map<OpId, Failure>, keys: set<OpId>, rethrow: bool, ran: seq<OpId>)
  {
    forall i :: 0 <= i < |ran| ==>
      ran[i] < |g.ops| && Survived(g, failures, keys, ran[i]) && (rethrow ==> !Enforced(failures, ran[i]))
  }

  lemma SurvivorsSnoc(g: Graph, failures: map<OpId, Failure>, keys: set<OpId>, rethrow: bool, ran: seq<OpId>, c: OpId)
    requires Survivors(g, failures, keys, rethrow, ran) && c < |g.ops| && Survived(g, failures, keys, c)
    requires rethrow ==> !Enforced(failures, c)
    ensures Survivors(g, failures, keys, rethrow, ran + [c])
  {
  }

  lemma NoneEnforced(g: Graph, failures: map<OpId, Failure>, keys: set<OpId>, ran: seq<OpId>, c: OpId)
    requires Survivors(g, failures, keys, true, ran) && !Enforced(failures, c)
    ensures forall i :: 0 <= i < |ran + [c]| ==> !Enforced(failures, (ran + [c])[i])
  {
  }

  /** Successes and LastFailure over one more operator. */
  lemma CountsSnoc(ran: seq<OpId>, c: OpId, failures: map<OpId, Failure>, e: Option<string>)
    ensures Successes(ran + [c], failures) == Successes(ran, failures) + Successes([c], failures)
    ensures LastFailure(ran + [c], failures, e) == LastFailure([c], failures, LastFailure(ran, failures, e))
  {
    assert (ran + [c])[..|ran|] == ran;
    assert [c][..0] == [];
  }

  /** How RunOp for one device ends, with `ran` the order in which its
    * operators ran: no operator twice, each from the device's ready
    * queue or waiting on a count; when the worker finishes or blocks,
    * total_ops and exception_ account for every operator that ran and
    * each of them survived; a fatal end follows an operator that did
    * not survive and carries the message of what went wrong; the
    * corrected worker raises on the first EnforceNotMet and on no other;
    * Finished means total_ops reached 0 and Blocked that it did not
    * while every seeded operator ran. */
  ghost predicate Ended(g: Graph, failures: map<OpId, Failure>, rethrow: bool, total: int,
                        ready: seq<OpId>, pending: map<OpId, int>, exception: Option<string>,
                        end: WorkerEnd, total': int, ran: seq<OpId>, exception': Option<string>)
  {
    Distinct(ran) &&
    (forall i :: 0 <= i < |ran| ==> ran[i] < |g.ops| && (ran[i] in ready || ran[i] in Positive(pending))) &&
    ((end.Finished? || end.Blocked?) ==>
       total' == total - Successes(ran, failures) && exception' == LastFailure(ran, failures, exception) &&
       Survivors(g, failures, pending.Keys, rethrow, ran)) &&
    (end.Fatal? ==> ran != [] && Aborts(g, failures, pending.Keys, ran[|ran| - 1], end.msg)) &&
    (end.Raised? ==>
       rethrow && ran != [] && Enforced(failures, ran[|ran| - 1]) && end.msg == failures[ran[|ran| - 1]].msg) &&
    (rethrow && !end.Raised? ==> forall i :: 0 <= i < |ran| ==> !Enforced(failures, ran[i])) &&
    (end.Finished? ==> total' <= 0) &&
    (end.Blocked? ==> total' > 0 && forall i :: 0 <= i < |ready| ==> ready[i] in ran)
  }

  /** The worker finds its queues empty and stops, Finished or Blocked. */
  lemma Halted(g: Graph, failures: map<OpId, Failure>, rethrow: bool, total: int,
               ready: seq<OpId>, pending: map<OpId, int>, exception: Option<string>,
               k: nat, local: seq<OpId>, cur: Option<OpId>, pnd: map<OpId, int>,
               end: WorkerEnd, total': int, ran: seq<OpId>, exception': Option<string>)
    requires Worker(ready, pending, k, local, cur, pnd, ran) && local == [] && cur == None
    requires forall i :: 0 <= i < |ran| ==> ran[i] < |g.ops|
    requires Survivors(g, failures, pending.Keys, rethrow, ran)
    requires total' == total - Successes(ran, failures) && exception' == LastFailure(ran, failures, exception)
    requires (end == Finished && total' <= 0) || (end == Blocked && total' > 0 && k == |ready|)
    ensures Ended(g, failures, rethrow, total, ready, pending, exception, end, total', ran, exception')
  {
  }

  /** The worker stops on the operator `c` it ran last, Fatal or Raised. */
  lemma Stopped(g: Graph, failures: map<OpId, Failure>, rethrow: bool, total: int,
                ready: seq<OpId>, pending: map<OpId, int>, exception: Option<string>,
                k: nat, local: seq<OpId>, cur: Option<OpId>, pnd: map<OpId, int>,
                end: WorkerEnd, total': int, ran: seq<OpId>, c: OpId, exception': Option<string>)
    requires Worker(ready, pending, k, local, cur, pnd, ran + [c])
    requires forall i :: 0 <= i < |ran| ==> ran[i] < |g.ops|
    requires c < |g.ops| && Survivors(g, failures, pending.Keys, rethrow, ran)
    requires end.Fatal? || end.Raised?
    requires end.Fatal? ==> Aborts(g, failures, pending.Keys, c, end.msg)
    requires end.Raised? ==> rethrow && Enforced(failures, c) && end.msg == failures[c].msg
    requires rethrow && !end.Raised? ==> !Enforced(failures, c)
    ensures Ended(g, failures, rethrow, total, ready, pending, exception, end, total', ran + [c], exception')
  {
    if rethrow && !end.Raised? {
      NoneEnforced(g, failures, pending.Keys, ran, c);
    }
  }

  /** RunOp for one device, run on its own: pop the device's ready queue
    * while total_ops is positive, run the operator, and release its
    * outputs, running next the first operator they make ready. It ends
    * Blocked where the source keeps polling an empty queue: no other
    * worker pushes onto this device's queue, so only the other workers'
    * decrements of total_ops can end that wait. */
  method RunOp(g: Graph, failures: map<OpId, Failure>, delayed: set<OpId>, rethrow: bool, total: int,
               ready: seq<OpId>, pending: map<OpId, int>, exception: Option<string>)
    returns (end: WorkerEnd, total': int, pending': map<OpId, int>, ran: seq<OpId>, exception': Option<string>)
    requires GraphValid(g) && Distinct(ready)
    requires forall i :: 0 <= i < |ready| ==> ready[i] < |g.ops| && ready[i] !in Positive(pending)
    requires forall o :: o in pending ==> o < |g.ops|
    ensures Ended(g, failures, rethrow, total, ready, pending, exception, end, total', ran, exception')
  {
    total', pending', ran, exception' := total, pending, [], exception;
    var k := 0;
    var local: seq<OpId> := [];
    var cur: Option<OpId> := None;
    while true
      invariant Worker(ready, pending, k, local, cur, pending', ran)
      invariant forall i :: 0 <= i < |ran| ==> ran[i] < |g.ops|
      invariant Survivors(g, failures, pending.Keys, rethrow, ran)
      invariant total' == total - Successes(ran, failures) && exception' == LastFailure(ran, failures, exception)
      invariant |ran| <= |g.ops|
      decreases |g.ops| - |ran|
    {
      if cur.None? && local == [] {
        if total' <= 0 {
          Halted(g, failures, rethrow, total, ready, pending, exception, k, local, cur, pending',
                 Finished, total', ran, exception');
          return Finished, total', pending', ran, exception';
        }
        if k == |ready| {
          Halted(g, failures, rethrow, total, ready, pending, exception, k, local, cur, pending',
                 Blocked, total', ran, exception');
          return Blocked, total', pending', ran, exception';
        }
      }
      var stop, c;
      stop, c, k, local, cur, pending', total', exception' :=
        Step(g, failures, delayed, rethrow, ready, pending, k, local, cur, pending', ran, total', exception');
      if stop.Some? {
        Stopped(g, failures, rethrow, total, ready, pending, exception, k, local, cur, pending',
                stop.value, total', ran, c, exception');
        return stop.value, total', pending', ran + [c], exception';
      }
      CountsSnoc(ran, c, failures, exception);
      SurvivorsSnoc(g, failures, pending.Keys, rethrow, ran, c);
      ran := ran + [c];
      DistinctBound(ran, |g.ops|);
    }
  }

  // ---------------------------------------------------------------------
  // Counting what ran

  /** At most every operator that ran returned normally, and all of them
    * did exactly when none is listed as failing. */
  lemma {:induction false} SuccessesBound(ran: seq<OpId>, failures: map<OpId, Failure>)
    ensures Successes(ran, failures) <= |ran|
    ensures Successes(ran, failures) == |ran| <==> forall i :: 0 <= i < |ran| ==> ran[i] !in failures
    decreases |ran|
  {
    if ran != [] {
      var front := ran[..|ran| - 1];
      SuccessesBound(front, failures);
      assert forall i :: 0 <= i < |front| ==> front[i] == ran[i];
    }
  }

  /** Successes adds up over consecutive runs. */
  lemma {:induction false} SuccessesConcat(a: seq<OpId>, b: seq<OpId>, failures: map<OpId, Failure>)
    ensures Successes(a + b, failures) == Successes(a, failures) + Successes(b, failures)
    decreases |b|
  {
    if b == [] {
      assert a + b == a;
    } else {
      var front := b[..|b| - 1];
      assert (a + b)[..|a + b| - 1] == a + front;
      SuccessesConcat(a, front, failures);
    }
  }

  /** exception_ after two consecutive runs is exception_ after the
    * second, started from what the first left. */
  lemma {:induction false} LastFailureConcat(a: seq<OpId>, b: seq<OpId>, failures: map<OpId, Failure>, e: Option<string>)
    ensures LastFailure(a + b, failures, e) == LastFailure(b, failures, LastFailure(a, failures, e))
    decreases |b|
  {
    if b == [] {
      assert a + b == a;
    } else {
      var front := b[..|b| - 1];
      assert (a + b)[..|a + b| - 1] == a + front;
      LastFailureConcat(a, front, failures, e);
    }
  }

  /** exception_ holds the message of the last operator that threw
    * EnforceNotMet, and what it held before when none did. */
  lemma {:induction false} LastFailureSpec(ran: seq<OpId>, failures: map<OpId, Failure>, e: Option<string>)
    ensures (forall i :: 0 <= i < |ran| ==> !Enforced(failures, ran[i])) ==> LastFailure(ran, failures, e) == e
    ensures forall i :: 0 <= i < |ran| && Enforced(failures, ran[i]) &&
                        (forall j :: i < j < |ran| ==> !Enforced(failures, ran[j])) ==>
                          LastFailure(ran, failures, e) == Some(failures[ran[i]].msg)
    decreases |ran|
  {
    if ran != [] {
      var front, x := ran[..|ran| - 1], ran[|ran| - 1];
      LastFailureSpec(front, failures, e);
      if !Enforced(failures, x) {
        forall i | 0 <= i < |ran| && Enforced(failures, ran[i]) && (forall j :: i < j < |ran| ==> !Enforced(failures, ran[j]))
          ensures LastFailure(ran, failures, e) == Some(failures[ran[i]].msg)
        {
          assert i < |front| && front[i] == ran[i];
          assert forall j :: i < j < |front| ==> front[j] == ran[j];
        }
        assert (forall i :: 0 <= i < |ran| ==> !Enforced(failures, ran[i])) ==>
                 (forall i :: 0 <= i < |front| ==> !Enforced(failures, front[i]));
      }
    }
  }

  /** A sequence without repeats of `n` operators below `n` holds every
    * one of them. */
  lemma FullCover(s: seq<OpId>, n: nat)
    requires Distinct(s) && |s| == n && forall i :: 0 <= i < |s| ==> s[i] < n
    ensures forall o :: 0 <= o < n ==> o in s
  {
    DistinctNoDuplicates(s);
    IrNode.MembersBound(s);
    SSAGraphChecker.BelowCard(n);
    var below := SSAGraphChecker.Below(n);
    assert IrNode.Members(s) <= below;
    assert below == IrNode.Members(s) + (below - IrNode.Members(s));
    assert below - IrNode.Members(s) == {};
    forall o | 0 <= o < n
      ensures o in s
    {
      assert o in below;
    }
  }

  /** When an operator that ran threw EnforceNotMet, fewer operators
    * returned normally than the graph has: total_ops stays positive. */
  lemma EnforcedStaysPositive(all: seq<OpId>, failures: map<OpId, Failure>, n: nat, i: nat)
    requires Distinct(all) && (forall k :: 0 <= k < |all| ==> all[k] < n)
    requires i < |all| && Enforced(failures, all[i])
    ensures Successes(all, failures) < n
  {
    SuccessesBound(all, failures);
    DistinctBound(all, n);
  }

  // ---------------------------------------------------------------------
  // Run

  /** How Run ends once its setup went through: every worker saw
    * total_ops at or below zero and the fetched values are returned;
    * total_ops stays positive, so the workers poll their empty queues
    * forever; or the process aborts. */
  datatype RunEnd = Fetched | Hangs | Aborted(msg: string)

  /** The operators the workers ran, device after device. */
  function Flatten(runs: seq<seq<OpId>>): seq<OpId>
  {
    if runs == [] then [] else Flatten(runs[..|runs| - 1]) + runs[|runs| - 1]
  }

  /** Each operator of `runs[d]` is an operator of the graph on device `d`. */
  predicate OnDevices(g: Graph, devs: seq<nat>, runs: seq<seq<OpId>>)
  {
    |devs| == |g.ops| &&
    forall d, i :: 0 <= d < |runs| && 0 <= i < |runs[d]| ==> runs[d][i] < |g.ops| && devs[runs[d][i]] == d
  }

  /** Every operator of Flatten(runs) comes from one of the runs. */
  lemma {:induction false} FlattenDevices(g: Graph, devs: seq<nat>, runs: seq<seq<OpId>>)
    requires OnDevices(g, devs, runs)
    ensures forall k :: 0 <= k < |Flatten(runs)| ==> Flatten(runs)[k] < |g.ops| && devs[Flatten(runs)[k]] < |runs|
    decreases |runs|
  {
    if runs != [] {
      var front := runs[..|runs| - 1];
      assert OnDevices(g, devs, front) by {
        forall d, i | 0 <= d < |front| && 0 <= i < |front[d]|
          ensures front[d][i] < |g.ops| && devs[front[d][i]] == d
        {
          assert front[d] == runs[d];
        }
      }
      FlattenDevices(g, devs, front);
      var f, last := Flatten(front), runs[|runs| - 1];
      forall k | 0 <= k < |Flatten(runs)|
        ensures Flatten(runs)[k] < |g.ops| && devs[Flatten(runs)[k]] < |runs|
      {
        if k >= |f| {
          assert Flatten(runs)[k] == last[k - |f|];
        } else {
          assert Flatten(runs)[k] == f[k];
        }
      }
    }
  }

  /** The queues seeding leaves give each worker what RunOp needs: its
    * ready queue has no repeats, and everything on its ready queue or in
    * its pending counts is an operator of its device; nothing ready
    * still waits on a positive count. */
  lemma SeededQueue(g: Graph, nGraph: nat, devs: seq<nat>, q: Queues, d: nat)
    requires Seeding(g, nGraph, devs, q, Seeded(g), {}) && d < |q.ready|
    ensures Distinct(q.ready[d])
    ensures forall i :: 0 <= i < |q.ready[d]| ==>
      q.ready[d][i] < |g.ops| && devs[q.ready[d][i]] == d && q.ready[d][i] !in Positive(q.pending[d])
    ensures forall o :: o in q.pending[d] ==> o < |g.ops| && devs[o] == d
  {
    forall i | 0 <= i < |q.ready[d]|
      ensures q.ready[d][i] !in Positive(q.pending[d])
    {
      var o := q.ready[d][i];
      assert SeededOp(g, nGraph, devs, q, o, |ReadBy(g, Seeded(g), o)| + (if o in {} then 1 else 0));
    }
  }

  /** One more worker joins: what it ran follows what the workers before
    * it ran, on its own device and without repeats, and its totals carry
    * on from theirs. */
  lemma Joined(g: Graph, devs: seq<nat>, q: Queues, d: nat, failures: map<OpId, Failure>, rethrow: bool,
               total: int, exception: Option<string>, runs: seq<seq<OpId>>,
               end: WorkerEnd, total': int, ran: seq<OpId>, exception': Option<string>)
    requires d < |q.ready| == |q.pending| && |runs| == d
    requires Distinct(Flatten(runs)) && OnDevices(g, devs, runs)
    requires total == |g.ops| - Successes(Flatten(runs), failures) && exception == LastFailure(Flatten(runs), failures, None)
    requires rethrow ==> forall k :: 0 <= k < |Flatten(runs)| ==> !Enforced(failures, Flatten(runs)[k])
    requires forall i :: 0 <= i < |q.ready[d]| ==> q.ready[d][i] < |g.ops| && devs[q.ready[d][i]] == d
    requires forall o :: o in q.pending[d] ==> o < |g.ops| && devs[o] == d
    requires Ended(g, failures, rethrow, total, q.ready[d], q.pending[d], exception, end, total', ran, exception')
    ensures Flatten(runs + [ran]) == Flatten(runs) + ran
    ensures var all := Flatten(runs + [ran]);
      Distinct(all) && OnDevices(g, devs, runs + [ran]) && (forall k :: 0 <= k < |all| ==> all[k] < |g.ops|) &&
      ((end.Finished? || end.Blocked?) ==>
         total' == |g.ops| - Successes(all, failures) && exception' == LastFailure(all, failures, None)) &&
      (rethrow && !end.Raised? ==> forall k :: 0 <= k < |all| ==> !Enforced(failures, all[k])) &&
      (end.Fatal? ==>
         all != [] &&
         if all[|all| - 1] in failures && failures[all[|all| - 1]].Unknown? then end.msg == UnknownMessage
         else end.msg == AtMessage) &&
      (end.Raised? ==> rethrow && all != [] && Enforced(failures, all[|all| - 1]) && end.msg == failures[all[|all| - 1]].msg)
  {
    var f := Flatten(runs);
    assert (runs + [ran])[..|runs|] == runs;
    var all := f + ran;
    FlattenDevices(g, devs, runs);
    forall i | 0 <= i < |ran|
      ensures ran[i] < |g.ops| && devs[ran[i]] == d && ran[i] !in f
    {
      if ran[i] !in q.ready[d] {
        assert ran[i] in q.pending[d];
      }
    }
    DistinctConcat(f, ran);
    assert OnDevices(g, devs, runs + [ran]) by {
      var rs := runs + [ran];
      forall e, i | 0 <= e < |rs| && 0 <= i < |rs[e]|
        ensures rs[e][i] < |g.ops| && devs[rs[e][i]] == e
      {
        if e < |runs| {
          assert rs[e] == runs[e];
        }
      }
    }
    forall k | 0 <= k < |all|
      ensures all[k] < |g.ops| && (rethrow && !end.Raised? ==> !Enforced(failures, all[k]))
    {
      if k >= |f| {
        assert all[k] == ran[k - |f|];
      } else {
        assert all[k] == f[k];
      }
    }
    SuccessesConcat(f, ran, failures);
    LastFailureConcat(f, ran, failures, None);
    if ran != [] {
      assert all[|all| - 1] == ran[|ran| - 1];
    }
  }

  /** After the last worker: total_ops at or below zero means every
    * operator ran and returned normally. */
  lemma Finish(g: Graph, devs: seq<nat>, failures: map<OpId, Failure>, total: int, runs: seq<seq<OpId>>)
    requires Distinct(Flatten(runs)) && forall k :: 0 <= k < |Flatten(runs)| ==> Flatten(runs)[k] < |g.ops|
    requires total == |g.ops| - Successes(Flatten(runs), failures)
    ensures total <= 0 ==> forall o :: 0 <= o < |g.ops| ==> o in Flatten(runs) && o !in failures
  {
    var all := Flatten(runs);
    SuccessesBound(all, failures);
    DistinctBound(all, |g.ops|);
    if total <= 0 {
      FullCover(all, |g.ops|);
      forall o | 0 <= o < |g.ops|
        ensures o !in failures
      {
        assert o in all;
        var k :| 0 <= k < |all| && all[k] == o;
      }
    }
  }

  /** What Run promises once the fetch operators are in and every
    * operator has a device, with `runs[d]` what worker `d` ran:
    * no operator runs twice and each runs on its own device; Fetched
    * means every operator, fetch operators included, ran and returned
    * normally; Hangs means fewer operators returned normally than
    * total_ops started from; an abort follows an operator whose Run
    * threw something other than EnforceNotMet, or a missing count.
    * As written (without `rethrow`) Run never reports an EnforceNotMet:
    * it returns normally or not at all, with exception_ holding the last
    * message; corrected (with `rethrow`), it returns that message as its
    * error and no operator that ran before threw. */
  ghost predicate Executed(g: Graph, placeDevice: seq<int>, failures: map<OpId, Failure>, rethrow: bool,
                           r: Result<RunEnd>, runs: seq<seq<OpId>>, exception: Option<string>)
    requires GraphValid(g) && DevicesOk(g, placeDevice)
  {
    var all := Flatten(runs);
    |runs| <= |placeDevice| && Distinct(all) && OnDevices(g, Devices(g, placeDevice), runs) &&
    (forall k :: 0 <= k < |all| ==> all[k] < |g.ops|) &&
    (r == Ok(Fetched) ==> |runs| == |placeDevice| && forall o :: 0 <= o < |g.ops| ==> o in all && o !in failures) &&
    (r == Ok(Hangs) ==> |runs| == |placeDevice| && Successes(all, failures) < |g.ops|) &&
    (r.Ok? && r.value.Aborted? ==>
       all != [] &&
       (var last := all[|all| - 1];
        if last in failures && failures[last].Unknown? then r.value.msg == UnknownMessage
        else r.value.msg == AtMessage)) &&
    (!rethrow ==> r.Ok?) &&
    (r.Ok? && !r.value.Aborted? ==> exception == LastFailure(all, failures, None)) &&
    (rethrow && r.Ok? ==> forall k :: 0 <= k < |all| ==> !Enforced(failures, all[k])) &&
    (r.Err? ==> rethrow && all != [] && Enforced(failures, all[|all| - 1]) && r.error == failures[all[|all| - 1]].msg)
  }

  /** ThreadedSSAGraphExecutor::Run with one worker per device, the
    * workers taken one after another: insert the fetch operators, seed
    * the queues, start total_ops at the number of operators, and run
    * each device's worker on the shared total_ops. A worker that blocks
    * leaves its queue empty for good, as nothing else pushes onto it. */
  method Run(g: Graph, placeDevice: seq<int>, names: seq<string>, failures: map<OpId, Failure>,
             delayed: set<OpId>, rethrow: bool)
    returns (r: Result<RunEnd>, runs: seq<seq<OpId>>, exception: Option<string>)
    requires GraphValid(g)
    ensures WithFetchOps(g, names).Err? ==> r == Err(WithFetchOps(g, names).error) && runs == []
    ensures WithFetchOps(g, names).Ok? && !DevicesOk(WithFetchOps(g, names).value, placeDevice) ==>
      r.Err? && runs == []
    ensures WithFetchOps(g, names).Ok? && DevicesOk(WithFetchOps(g, names).value, placeDevice) ==>
      Executed(WithFetchOps(g, names).value, placeDevice, failures, rethrow, r, runs, exception)
  {
    runs, exception := [], None;
    var fr := InsertFetchOps(g, names);
    if fr.Err? {
      return Err(fr.error), runs, exception;
    }
    var g' := fr.value;
    var sr := Seed(g', placeDevice, |g.ops|);
    if sr.Err? {
      return Err(sr.error), runs, exception;
    }
    r, runs, exception := Workers(g', placeDevice, |g.ops|, sr.value, failures, delayed, rethrow);
  }

  /** Step 3 of Run: the workers, device after device, on the shared
    * total_ops. */
  method Workers(g: Graph, placeDevice: seq<int>, nGraph: nat, q: Queues, failures: map<OpId, Failure>,
                 delayed: set<OpId>, rethrow: bool)
    returns (r: Result<RunEnd>, runs: seq<seq<OpId>>, exception: Option<string>)
    requires GraphValid(g) && nGraph <= |g.ops| && DevicesOk(g, placeDevice)
    requires |q.ready| == |placeDevice| && Seeding(g, nGraph, Devices(g, placeDevice), q, Seeded(g), {})
    ensures Executed(g, placeDevice, failures, rethrow, r, runs, exception)
  {
    ghost var devs := Devices(g, placeDevice);
    runs, exception := [], None;
    var total: int := |g.ops|;
    var d := 0;
    while d < |q.ready|
      invariant d <= |q.ready| && |runs| == d
      invariant Distinct(Flatten(runs)) && OnDevices(g, devs, runs)
      invariant forall k :: 0 <= k < |Flatten(runs)| ==> Flatten(runs)[k] < |g.ops|
      invariant total == |g.ops| - Successes(Flatten(runs), failures)
      invariant exception == LastFailure(Flatten(runs), failures, None)
      invariant rethrow ==> forall k :: 0 <= k < |Flatten(runs)| ==> !Enforced(failures, Flatten(runs)[k])
    {
      SeededQueue(g, nGraph, devs, q, d);
      var end, total', pending', ran, exception' :=
        RunOp(g, failures, delayed, rethrow, total, q.ready[d], q.pending[d], exception);
      Joined(g, devs, q, d, failures, rethrow, total, exception, runs, end, total', ran, exception');
      runs := runs + [ran];
      if end.Fatal? {
        return Ok(Aborted(end.msg)), runs, exception';
      }
      if end.Raised? {
        return Err(end.msg), runs, exception';
      }
      total, exception := total', exception';
      d := d + 1;
    }
    Finish(g, devs, failures, total, runs);
    r := if total <= 0 then Ok(Fetched) else Ok(Hangs);
  }
}
