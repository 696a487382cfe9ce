/** imperative/tracer.cc: the bookkeeping the dygraph tracer does around an
  * operator call: the expected place, the name maps handed to the operator,
  * the value maps and the map of current variables, and the set of slots
  * saved for the backward pass. */
module Tracer {
  import opened Wrappers

  /** A place, compared with is_same_place. */
  type Place = int

  /** What the tracer reads of a VarBase: its name, the place of its tensor
    * and whether it holds a Variable. */
  datatype VarBase = VarBase(name: string, place: Place, hasVar: bool)

  /** A VarBasePtrMap: slot name to variables, in the map's iteration order. */
  type VarBaseMap = seq<(string, seq<VarBase>)>

  /** std::map keys are distinct. */
  predicate DistinctSlots(m: VarBaseMap)
  {
    forall i, j :: 0 <= i < j < |m| ==> m[i].0 != m[j].0
  }

  /** `varbase_map.find(name)`. */
  function Find(m: VarBaseMap, name: string): (r: Option<seq<VarBase>>)
    ensures r.None? <==> forall i :: 0 <= i < |m| ==> m[i].0 != name
    ensures r.Some? ==> exists i :: 0 <= i < |m| && m[i].0 == name && m[i].1 == r.value
  {
    if m == [] then None
    else if m[0].0 == name then Some(m[0].1)
    else Find(m[1..], name)
  }

  function Names(vs: seq<VarBase>): (r: seq<string>)
    ensures |r| == |vs| && forall i :: 0 <= i < |vs| ==> r[i] == vs[i].name
  {
    seq(|vs|, i requires 0 <= i < |vs| => vs[i].name)
  }

  // ----- GetExpectedPlace -----

  /** Every input variable sits on `place`. */
  predicate AllOnPlace(inputs: VarBaseMap, place: Place)
  {
    forall i, k :: 0 <= i < |inputs| && 0 <= k < |inputs[i].1| ==> inputs[i].1[k].place == place
  }

  /** GetExpectedPlace: the given place, provided every input variable is on it. */
  method GetExpectedPlace(place: Place, inputs: VarBaseMap) returns (r: Result<Place>)
    ensures r.Ok? <==> AllOnPlace(inputs, place)
    ensures r.Ok? ==> r.value == place
  {
    var result := place;
    var i := 0;
    while i < |inputs|
      invariant 0 <= i <= |inputs|
      invariant forall a, k :: 0 <= a < i && 0 <= k < |inputs[a].1| ==> inputs[a].1[k].place == place
    {
      var k := 0;
      while k < |inputs[i].1|
        invariant 0 <= k <= |inputs[i].1|
        invariant forall kk :: 0 <= kk < k ==> inputs[i].1[kk].place == place
      {
        var tmpPlace := inputs[i].1[k].place;
        if tmpPlace != result {
          return Err("Input variable should keep in the same place");
        }
        k := k + 1;
      }
      i := i + 1;
    }
    return Ok(result);
  }

  // ----- CreateInputVarNameMap / CreateOutputVarNameMap -----

  /** An argument of an operator's proto: its slot name and whether it may be omitted. */
  datatype ArgProto = ArgProto(name: string, dispensable: bool)

  /** Every slot the proto declares is given or may be omitted. */
  predicate SlotsProvided(protoArgs: seq<ArgProto>, m: VarBaseMap)
  {
    forall i :: 0 <= i < |protoArgs| ==> Find(m, protoArgs[i].name).Some? || protoArgs[i].dispensable
  }

  /** CreateInputVarNameMap, and CreateOutputVarNameMap over the outputs:
    * without an OpInfo or a proto the map is empty; otherwise every slot of
    * the proto gets an entry, the names of its variables in order, or []
    * when it is missing, which only a dispensable slot may be. */
  method CreateVarNameMap(protoArgs: Option<seq<ArgProto>>, varbaseMap: VarBaseMap)
    returns (r: Result<map<string, seq<string>>>)
    ensures protoArgs.None? ==> r == Ok(map[])
    ensures protoArgs.Some? ==> (r.Ok? <==> SlotsProvided(protoArgs.value, varbaseMap))
    ensures protoArgs.Some? && r.Ok? ==>
      (forall s :: s in r.value <==> exists i :: 0 <= i < |protoArgs.value| && protoArgs.value[i].name == s) &&
      (forall s :: s in r.value ==>
        r.value[s] == match Find(varbaseMap, s) case None => [] case Some(vs) => Names(vs))
  {
    if protoArgs.None? {
      return Ok(map[]);
    }
    var args := protoArgs.value;
    var result: map<string, seq<string>> := map[];
    var i := 0;
    while i < |args|
      invariant 0 <= i <= |args|
      invariant forall a :: 0 <= a < i ==> Find(varbaseMap, args[a].name).Some? || args[a].dispensable
      invariant forall s :: s in result <==> exists a :: 0 <= a < i && args[a].name == s
      invariant forall s :: s in result ==>
        result[s] == match Find(varbaseMap, s) case None => [] case Some(vs) => Names(vs)
    {
      var it := Find(varbaseMap, args[i].name);
      if it.None? {
        if !args[i].dispensable {
          return Err("a non-dispensable slot is missing");
        }
        result := result[args[i].name := []];
      } else {
        var varVector := it.value;
        var names: seq<string> := [];
        var k := 0;
        while k < |varVector|
          invariant 0 <= k <= |varVector|
          invariant names == Names(varVector[..k])
        {
          names := names + [varVector[k].name];
          k := k + 1;
        }
        assert varVector[..k] == varVector;
        result := result[args[i].name := names];
      }
      i := i + 1;
    }
    return Ok(result);
  }

  // ----- PrepareInputAndOutput -----

  /** The variables of a map, slot after slot. */
  function Flatten(m: VarBaseMap): seq<VarBase>
  {
    if m == [] then [] else Flatten(m[..|m| - 1]) + m[|m| - 1].1
  }

  /** `m` maps each name in `vs` to the last variable of `vs` with that name. */
  ghost predicate LastByName(m: map<string, VarBase>, vs: seq<VarBase>)
  {
    (forall n :: n in m <==> exists k :: 0 <= k < |vs| && vs[k].name == n) &&
    (forall n :: n in m ==> exists k :: 0 <= k < |vs| && vs[k] == m[n] && vs[k].name == n &&
                              forall j :: k < j < |vs| ==> vs[j].name != n)
  }

  lemma LastByNameSnoc(m: map<string, VarBase>, vs: seq<VarBase>, v: VarBase)
    requires LastByName(m, vs)
    ensures LastByName(m[v.name := v], vs + [v])
  {
    var vs' := vs + [v];
    var m' := m[v.name := v];
    forall n | n in m'
      ensures exists k :: 0 <= k < |vs'| && vs'[k] == m'[n] && vs'[k].name == n &&
                            forall j :: k < j < |vs'| ==> vs'[j].name != n
    {
      if n == v.name {
        assert vs'[|vs|] == v;
      } else {
        var k :| 0 <= k < |vs| && vs[k] == m[n] && vs[k].name == n && forall j :: k < j < |vs| ==> vs[j].name != n;
        assert vs'[k] == m[n];
      }
    }
    forall k | 0 <= k < |vs'|
      ensures vs'[k].name in m'
    {
      if k < |vs| {
        assert vs[k].name == vs'[k].name;
      }
    }
  }

  /** The current-variables bookkeeping of one slot: unless the gradient is
    * stopped, each variable is recorded under its name. */
  method TrackCurrent(current: map<string, VarBase>, ghost seen: seq<VarBase>, vs: seq<VarBase>, stopGradient: bool)
    returns (current': map<string, VarBase>)
    requires stopGradient ==> current == map[]
    requires !stopGradient ==> LastByName(current, seen)
    ensures stopGradient ==> current' == map[]
    ensures !stopGradient ==> LastByName(current', seen + vs)
  {
    current' := current;
    var k := 0;
    assert seen + vs[..0] == seen;
    while k < |vs|
      invariant 0 <= k <= |vs|
      invariant stopGradient ==> current' == map[]
      invariant !stopGradient ==> LastByName(current', seen + vs[..k])
    {
      if !stopGradient {
        LastByNameSnoc(current', seen + vs[..k], vs[k]);
        assert seen + vs[..k + 1] == seen + vs[..k] + [vs[k]];
        current' := current'[vs[k].name := vs[k]];
      }
      k := k + 1;
    }
    assert vs[..k] == vs;
  }

  /** The value maps handed to the kernel and the map of current variables. */
  datatype Prepared = Prepared(invars: map<string, seq<VarBase>>, outvars: map<string, seq<VarBase>>,
                               currentVars: map<string, VarBase>)

  /** Every input variable holds a Variable. */
  predicate InputsHoldVars(inputs: VarBaseMap)
  {
    forall i, k :: 0 <= i < |inputs| && 0 <= k < |inputs[i].1| ==> inputs[i].1[k].hasVar
  }

  /** Tracer::PrepareInputAndOutput: each slot's variables go to the value
    * maps in order (an input without a Variable fails); unless the gradient
    * is stopped, current_vars_map records every input and then every output
    * by name, the last one of a name winning. */
  method PrepareInputAndOutput(inputs: VarBaseMap, outputs: VarBaseMap, stopGradient: bool)
    returns (r: Result<Prepared>)
    requires DistinctSlots(inputs) && DistinctSlots(outputs)
    ensures r.Ok? <==> InputsHoldVars(inputs)
    ensures r.Ok? ==> forall i :: 0 <= i < |inputs| ==> inputs[i].0 in r.value.invars && r.value.invars[inputs[i].0] == inputs[i].1
    ensures r.Ok? ==> forall i :: 0 <= i < |outputs| ==> outputs[i].0 in r.value.outvars && r.value.outvars[outputs[i].0] == outputs[i].1
    ensures r.Ok? && stopGradient ==> r.value.currentVars == map[]
    ensures r.Ok? && !stopGradient ==> LastByName(r.value.currentVars, Flatten(inputs) + Flatten(outputs))
  {
    var ok, invarsMap, currentVarsMap := PrepareInputs(inputs, stopGradient);
    if !ok {
      return Err("op input is nullptr");
    }
    var outvarsMap;
    outvarsMap, currentVarsMap := PrepareOutputs(outputs, currentVarsMap, Flatten(inputs), stopGradient);
    return Ok(Prepared(invarsMap, outvarsMap, currentVarsMap));
  }

  /** The check that every variable of one input slot holds a Variable. */
  method CheckInputVars(vars: seq<VarBase>) returns (ok: bool)
    ensures ok <==> forall k :: 0 <= k < |vars| ==> vars[k].hasVar
  {
    var k := 0;
    while k < |vars|
      invariant 0 <= k <= |vars|
      invariant forall kk :: 0 <= kk < k ==> vars[kk].hasVar
    {
      if !vars[k].hasVar {
        return false;
      }
      k := k + 1;
    }
    return true;
  }

  /** The loop over the input slots; it stops at the first variable
    * without a Variable. */
  method PrepareInputs(inputs: VarBaseMap, stopGradient: bool)
    returns (ok: bool, invars: map<string, seq<VarBase>>, current: map<string, VarBase>)
    requires DistinctSlots(inputs)
    ensures ok <==> InputsHoldVars(inputs)
    ensures ok ==> forall i :: 0 <= i < |inputs| ==> inputs[i].0 in invars && invars[inputs[i].0] == inputs[i].1
    ensures ok && stopGradient ==> current == map[]
    ensures ok && !stopGradient ==> LastByName(current, Flatten(inputs))
  {
    invars, current := map[], map[];
    ghost var seen: seq<VarBase> := [];
    var i := 0;
    while i < |inputs|
      invariant 0 <= i <= |inputs|
      invariant forall a, k :: 0 <= a < i && 0 <= k < |inputs[a].1| ==> inputs[a].1[k].hasVar
      invariant forall a :: 0 <= a < i ==> inputs[a].0 in invars && invars[inputs[a].0] == inputs[a].1
      invariant seen == Flatten(inputs[..i])
      invariant stopGradient ==> current == map[]
      invariant !stopGradient ==> LastByName(current, seen)
    {
      assert inputs[..i + 1][..i] == inputs[..i];
      var (slot, vars) := inputs[i];
      var holds := CheckInputVars(vars);
      if !holds {
        return false, invars, current;
      }
      current := TrackCurrent(current, seen, vars, stopGradient);
      invars := invars[slot := vars];
      seen := seen + vars;
      i := i + 1;
    }
    assert inputs[..i] == inputs;
    return true, invars, current;
  }

  /** The loop over the output slots. */
  method PrepareOutputs(outputs: VarBaseMap, current: map<string, VarBase>, ghost seen: seq<VarBase>, stopGradient: bool)
    returns (outvars: map<string, seq<VarBase>>, current': map<string, VarBase>)
    requires DistinctSlots(outputs)
    requires stopGradient ==> current == map[]
    requires !stopGradient ==> LastByName(current, seen)
    ensures forall i :: 0 <= i < |outputs| ==> outputs[i].0 in outvars && outvars[outputs[i].0] == outputs[i].1
    ensures stopGradient ==> current' == map[]
    ensures !stopGradient ==> LastByName(current', seen + Flatten(outputs))
  {
    outvars, current' := map[], current;
    ghost var seen' := seen;
    var i := 0;
    assert seen + Flatten(outputs[..0]) == seen;
    while i < |outputs|
      invariant 0 <= i <= |outputs|
      invariant forall a :: 0 <= a < i ==> outputs[a].0 in outvars && outvars[outputs[a].0] == outputs[a].1
      invariant seen' == seen + Flatten(outputs[..i])
      invariant stopGradient ==> current' == map[]
      invariant !stopGradient ==> LastByName(current', seen')
    {
      assert outputs[..i + 1][..i] == outputs[..i];
      var (slot, vars) := outputs[i];
      current' := TrackCurrent(current', seen', vars, stopGradient);
      outvars := outvars[slot := vars];
      seen' := seen' + vars;
      i := i + 1;
    }
    assert outputs[..i] == outputs;
  }

  // ----- GetVarsSavedForBackward -----

  /** A slot of an operator description: its name and its argument names. */
  type Slots = seq<(string, seq<string>)>

  /** What the tracer reads of a grad op description the grad op maker built. */
  datatype GradOpDesc = GradOpDesc(inputs: Slots, outputs: Slots)

  /** An input argument of a grad op is a forward variable, or the gradient
    * of one (then its forward variable must be current). */
  predicate InputArgOk(arg: string, gradToVar: map<string, string>, currentVars: map<string, VarBase>)
  {
    if arg in gradToVar then gradToVar[arg] in currentVars else arg in currentVars
  }

  /** An output argument of a grad op is the gradient of a current variable. */
  predicate OutputArgOk(arg: string, gradToVar: map<string, string>, currentVars: map<string, VarBase>)
  {
    arg in gradToVar && gradToVar[arg] in currentVars
  }

  predicate GradOpOk(op: GradOpDesc, gradToVar: map<string, string>, currentVars: map<string, VarBase>)
  {
    (forall j, a :: 0 <= j < |op.inputs| && 0 <= a < |op.inputs[j].1| ==> InputArgOk(op.inputs[j].1[a], gradToVar, currentVars)) &&
    (forall j, a :: 0 <= j < |op.outputs| && 0 <= a < |op.outputs[j].1| ==> OutputArgOk(op.outputs[j].1[a], gradToVar, currentVars))
  }

  /** The input slots, over all grad ops, that carry at least one argument. */
  function SavedSlots(gradOps: seq<GradOpDesc>): set<string>
  {
    set i, j | 0 <= i < |gradOps| && 0 <= j < |gradOps[i].inputs| && |gradOps[i].inputs[j].1| > 0 :: gradOps[i].inputs[j].0
  }

  /** Tracer::GetVarsSavedForBackward, given the grad op descriptions and
    * grad_to_var the grad op maker produced: with stop_gradient nothing is
    * saved; otherwise each input slot of each grad op is saved once per
    * argument, and every argument must resolve to a current variable. */
  method GetVarsSavedForBackward(stopGradient: bool, currentVars: map<string, VarBase>,
                                 gradOps: seq<GradOpDesc>, gradToVar: map<string, string>)
    returns (r: Result<set<string>>)
    ensures stopGradient ==> r == Ok({})
    ensures !stopGradient ==> (r.Ok? <==> forall i :: 0 <= i < |gradOps| ==> GradOpOk(gradOps[i], gradToVar, currentVars))
    ensures !stopGradient && r.Ok? ==> r.value == SavedSlots(gradOps)
  {
    var saved: set<string> := {};
    if stopGradient {
      return Ok(saved);
    }
    var i := 0;
    while i < |gradOps|
      invariant 0 <= i <= |gradOps|
      invariant forall a :: 0 <= a < i ==> GradOpOk(gradOps[a], gradToVar, currentVars)
      invariant saved == SavedSlots(gradOps[..i])
    {
      assert gradOps[..i + 1][..i] == gradOps[..i];
      var op := gradOps[i];
      var more := SaveInputs(op, gradToVar, currentVars);
      if more.Err? {
        return Err(more.error);
      }
      var j := 0;
      while j < |op.outputs|
        invariant 0 <= j <= |op.outputs|
        invariant forall jj, a :: 0 <= jj < j && 0 <= a < |op.outputs[jj].1| ==> OutputArgOk(op.outputs[jj].1[a], gradToVar, currentVars)
      {
        var a := 0;
        while a < |op.outputs[j].1|
          invariant 0 <= a <= |op.outputs[j].1|
          invariant forall aa :: 0 <= aa < a ==> OutputArgOk(op.outputs[j].1[aa], gradToVar, currentVars)
        {
          var gradOutvar := op.outputs[j].1[a];
          if gradOutvar !in gradToVar {
            return Err("Could not found the grad op output var");
          }
          if gradToVar[gradOutvar] !in currentVars {
            return Err("map::at");
          }
          a := a + 1;
        }
        j := j + 1;
      }
      SavedSlotsSnoc(gradOps[..i], op);
      assert gradOps[..i + 1] == gradOps[..i] + [op];
      saved := saved + more.value;
      i := i + 1;
    }
    assert gradOps[..i] == gradOps;
    return Ok(saved);
  }

  /** The inputs of one grad op: every argument must resolve, and each slot
    * with an argument is saved. */
  method SaveInputs(op: GradOpDesc, gradToVar: map<string, string>, currentVars: map<string, VarBase>)
    returns (r: Result<set<string>>)
    ensures r.Ok? <==> forall j, a :: 0 <= j < |op.inputs| && 0 <= a < |op.inputs[j].1| ==>
      InputArgOk(op.inputs[j].1[a], gradToVar, currentVars)
    ensures r.Ok? ==> r.value == set j | 0 <= j < |op.inputs| && |op.inputs[j].1| > 0 :: op.inputs[j].0
  {
    var saved: set<string> := {};
    var j := 0;
    while j < |op.inputs|
      invariant 0 <= j <= |op.inputs|
      invariant forall jj, a :: 0 <= jj < j && 0 <= a < |op.inputs[jj].1| ==> InputArgOk(op.inputs[jj].1[a], gradToVar, currentVars)
      invariant saved == set jj | 0 <= jj < j && |op.inputs[jj].1| > 0 :: op.inputs[jj].0
    {
      var a := 0;
      while a < |op.inputs[j].1|
        invariant 0 <= a <= |op.inputs[j].1|
        invariant forall aa :: 0 <= aa < a ==> InputArgOk(op.inputs[j].1[aa], gradToVar, currentVars)
        invariant saved == (set jj | 0 <= jj < j && |op.inputs[jj].1| > 0 :: op.inputs[jj].0) + (if a > 0 then {op.inputs[j].0} else {})
      {
        var gradInvar := op.inputs[j].1[a];
        if gradInvar !in gradToVar {
          if gradInvar !in currentVars {
            return Err("the forward variable of a grad input is not current");
          }
        } else if gradToVar[gradInvar] !in currentVars {
          return Err("map::at");
        }
        saved := saved + {op.inputs[j].0};
        a := a + 1;
      }
      j := j + 1;
    }
    return Ok(saved);
  }

  lemma SavedSlotsSnoc(ops: seq<GradOpDesc>, op: GradOpDesc)
    ensures SavedSlots(ops + [op]) ==
      SavedSlots(ops) + set j | 0 <= j < |op.inputs| && |op.inputs[j].1| > 0 :: op.inputs[j].0
  {
    var all := ops + [op];
    forall s | s in SavedSlots(all)
      ensures s in SavedSlots(ops) || s in set j | 0 <= j < |op.inputs| && |op.inputs[j].1| > 0 :: op.inputs[j].0
    {
      var i, j :| 0 <= i < |all| && 0 <= j < |all[i].inputs| && |all[i].inputs[j].1| > 0 && all[i].inputs[j].0 == s;
      if i < |ops| {
        assert all[i] == ops[i];
      }
    }
    forall s | s in SavedSlots(ops)
      ensures s in SavedSlots(all)
    {
      var i, j :| 0 <= i < |ops| && 0 <= j < |ops[i].inputs| && |ops[i].inputs[j].1| > 0 && ops[i].inputs[j].0 == s;
      assert all[i] == ops[i];
    }
    forall j | 0 <= j < |op.inputs| && |op.inputs[j].1| > 0
      ensures op.inputs[j].0 in SavedSlots(all)
    {
      assert all[|ops|] == op;
    }
  }
}
