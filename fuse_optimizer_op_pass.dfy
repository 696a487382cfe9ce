/** framework/details/fuse_optimizer_op_pass.cc: the common part of the
  * passes that fuse every optimizer op of one type (sgd, adam, momentum) into
  * one. The pass collects the ops of that type in topological order with the
  * argument of each of their auxiliary inputs, names one fused variable per
  * auxiliary input, checks the attributes earlier passes leave on the graph,
  * and reorders the ops and their arguments to follow the order of the
  * parameters. The graph attributes the pass reads and writes are a value
  * passed in and returned. */
module FuseOptimizerOpPass {
  import opened Wrappers
  import opened IrNode
  import opened IrGraph

  /** The arguments collected per auxiliary input name ("Param", "Moment1",
    * ...), one per collected op, in the order the ops were collected. */
  type AuxVars = map<string, seq<string>>

  /** std::unordered_map::operator[] on a name that may not be there yet. */
  function Lookup(aux: AuxVars, name: string): seq<string>
  {
    if name in aux then aux[name] else []
  }

  /** `(*aux_args_name)[name].emplace_back(arg)`. */
  function Append(aux: AuxVars, name: string, arg: string): (r: AuxVars)
    ensures r.Keys == aux.Keys + {name}
  {
    aux[name := Lookup(aux, name) + [arg]]
  }

  predicate Distinct(names: seq<string>)
  {
    forall i, j :: 0 <= i < j < |names| ==> names[i] != names[j]
  }

  /** The input `name` of the op has exactly one argument. */
  predicate SingleArg(desc: OpDesc, name: string)
  {
    var args := Arguments(desc.inputs, name);
    args.Ok? && |args.value| == 1
  }

  /** The one argument of input `name`. */
  function Arg(desc: OpDesc, name: string): string
    requires SingleArg(desc, name)
  {
    Arguments(desc.inputs, name).value[0]
  }

  lemma ArgIsSingle(desc: OpDesc, name: string)
    requires SingleArg(desc, name)
    ensures Arguments(desc.inputs, name) == Ok([Arg(desc, name)])
  {
    assert Arguments(desc.inputs, name).value == [Arg(desc, name)];
  }

  predicate AllSingle(names: seq<string>, desc: OpDesc)
  {
    forall n :: n in names ==> SingleArg(desc, n)
  }

  // GetSpecifiedOpsAndVars (lines 192-206)

  /** The loop of GetSpecifiedOpsAndVars over the auxiliary names (lines
    * 199-204): each must be an input of the op with exactly one argument,
    * which is appended to that name's list. */
  function AppendArgs(names: seq<string>, desc: OpDesc, aux: AuxVars): Result<AuxVars>
    decreases |names|
  {
    if names == [] then Ok(aux)
    else
      var args := Arguments(desc.inputs, names[0]);
      if args.Err? then Err(args.error)
      else if |args.value| != 1 then Err("Enforce failed: arg_names.size() != 1")
      else AppendArgs(names[1..], desc, Append(aux, names[0], args.value[0]))
  }

  /** The appending succeeds exactly when every name has one argument. */
  lemma {:induction false} AppendArgsOk(names: seq<string>, desc: OpDesc, aux: AuxVars)
    ensures AppendArgs(names, desc, aux).Ok? <==> AllSingle(names, desc)
    decreases |names|
  {
    if names != [] {
      if SingleArg(desc, names[0]) {
        AppendArgsOk(names[1..], desc, Append(aux, names[0], Arg(desc, names[0])));
      }
      assert AllSingle(names, desc) <==> SingleArg(desc, names[0]) && AllSingle(names[1..], desc) by {
        assert forall n :: n in names <==> n == names[0] || n in names[1..];
      }
    }
  }

  /** Over distinct names, each name's list grows by the one argument of that
    * input, and no other list changes. */
  lemma {:induction false} AppendArgsValue(names: seq<string>, desc: OpDesc, aux: AuxVars)
    requires Distinct(names) && AllSingle(names, desc)
    ensures AppendArgs(names, desc, aux).Ok?
    ensures forall n :: n in AppendArgs(names, desc, aux).value <==> n in aux || n in names
    ensures forall n :: n in names ==> AppendArgs(names, desc, aux).value[n] == Lookup(aux, n) + [Arg(desc, n)]
    ensures forall n :: n in aux && n !in names ==> AppendArgs(names, desc, aux).value[n] == aux[n]
    decreases |names|
  {
    if names != [] {
      var n0 := names[0];
      var aux' := Append(aux, n0, Arg(desc, n0));
      assert forall n :: n in names <==> n == n0 || n in names[1..];
      assert Distinct(names[1..]) by {
        forall i, j | 0 <= i < j < |names[1..]|
          ensures names[1..][i] != names[1..][j]
        {
          assert names[1..][i] == names[i + 1] && names[1..][j] == names[j + 1];
        }
      }
      assert n0 !in names[1..] by {
        forall i | 0 <= i < |names[1..]|
          ensures names[1..][i] != n0
        {
          assert names[1..][i] == names[i + 1];
        }
      }
      AppendArgsValue(names[1..], desc, aux');
    }
  }

  /** GetSpecifiedOpsAndVars on one node: an op of another type is skipped;
    * an op of the fused type is appended to `ops` and its auxiliary
    * arguments to their lists. */
  function SpecifiedOp(opType: string, names: seq<string>, k: NodeId, desc: OpDesc, ops: seq<NodeId>,
                       aux: AuxVars): Result<(seq<NodeId>, AuxVars)>
  {
    if desc.opType != opType then Ok((ops, aux))
    else
      var appended := AppendArgs(names, desc, aux);
      if appended.Err? then Err(appended.error) else Ok((ops + [k], appended.value))
  }

  /** GetSpecifiedOpsAndVars (lines 192-206). */
  method GetSpecifiedOpsAndVars(opType: string, names: seq<string>, k: NodeId, desc: OpDesc, ops: seq<NodeId>,
                                aux: AuxVars) returns (r: Result<(seq<NodeId>, AuxVars)>)
    ensures r == SpecifiedOp(opType, names, k, desc, ops, aux)
  {
    if desc.opType != opType {
      return Ok((ops, aux));
    }
    var cur := aux;
    var i := 0;
    while i < |names|
      invariant 0 <= i <= |names|
      invariant AppendArgs(names[i..], desc, cur) == AppendArgs(names, desc, aux)
    {
      assert names[i..][0] == names[i] && names[i..][1..] == names[i + 1..];
      var args := Arguments(desc.inputs, names[i]);
      if args.Err? {
        return Err(args.error);
      }
      if |args.value| != 1 {
        return Err("Enforce failed: arg_names.size() != 1");
      }
      cur := Append(cur, names[i], args.value[0]);
      i := i + 1;
    }
    assert names[i..] == [];
    return Ok((ops + [k], cur));
  }

  // Step 1 of ApplyImpl (lines 36-42)

  /** The ops of `topo` whose type is the fused one, in order. */
  function Matching(opType: string, topo: seq<NodeId>, descs: map<NodeId, OpDesc>): (r: seq<NodeId>)
    requires forall k :: k in topo ==> k in descs
    ensures forall k :: k in r <==> k in topo && descs[k].opType == opType
    decreases |topo|
  {
    if topo == [] then []
    else
      var last := topo[|topo| - 1];
      assert forall k :: k in topo <==> k in topo[..|topo| - 1] || k == last;
      Matching(opType, topo[..|topo| - 1], descs) + (if descs[last].opType == opType then [last] else [])
  }

  /** GetSpecifiedOpsAndVars over the ops in topological order. */
  function Collected(opType: string, names: seq<string>, topo: seq<NodeId>,
                     descs: map<NodeId, OpDesc>): Result<(seq<NodeId>, AuxVars)>
    requires forall k :: k in topo ==> k in descs
    decreases |topo|
  {
    if topo == [] then Ok(([], map[]))
    else
      var prev := Collected(opType, names, topo[..|topo| - 1], descs);
      if prev.Err? then prev
      else
        var last := topo[|topo| - 1];
        SpecifiedOp(opType, names, last, descs[last], prev.value.0, prev.value.1)
  }

  /** The collection fails exactly when an op of the fused type lacks one
    * argument for an auxiliary input. */
  lemma {:induction false} CollectedOk(opType: string, names: seq<string>, topo: seq<NodeId>,
                                       descs: map<NodeId, OpDesc>)
    requires forall k :: k in topo ==> k in descs
    ensures Collected(opType, names, topo, descs).Ok? <==>
      forall k :: k in topo && descs[k].opType == opType ==> AllSingle(names, descs[k])
    decreases |topo|
  {
    if topo != [] {
      var init := topo[..|topo| - 1];
      var last := topo[|topo| - 1];
      CollectedOk(opType, names, init, descs);
      assert forall k :: k in topo <==> k in init || k == last;
      var prev := Collected(opType, names, init, descs);
      if prev.Ok? {
        AppendArgsOk(names, descs[last], prev.value.1);
      }
    }
  }

  /** Over distinct names, the collected ops are those of the fused type in
    * topological order, and the i-th argument in each name's list is the
    * argument of the i-th op. */
  lemma {:induction false} CollectedValue(opType: string, names: seq<string>, topo: seq<NodeId>,
                                          descs: map<NodeId, OpDesc>)
    requires forall k :: k in topo ==> k in descs
    requires Distinct(names) && Collected(opType, names, topo, descs).Ok?
    ensures Collected(opType, names, topo, descs).value.0 == Matching(opType, topo, descs)
    ensures forall n :: n in Collected(opType, names, topo, descs).value.1 <==>
      n in names && Matching(opType, topo, descs) != []
    ensures forall n :: n in names ==>
      |Lookup(Collected(opType, names, topo, descs).value.1, n)| == |Matching(opType, topo, descs)|
    ensures forall n, i :: n in names && 0 <= i < |Matching(opType, topo, descs)| ==>
      SingleArg(descs[Matching(opType, topo, descs)[i]], n) &&
      Lookup(Collected(opType, names, topo, descs).value.1, n)[i] == Arg(descs[Matching(opType, topo, descs)[i]], n)
    decreases |topo|
  {
    if topo != [] {
      var init := topo[..|topo| - 1];
      var last := topo[|topo| - 1];
      CollectedValue(opType, names, init, descs);
      var (ops, aux) := Collected(opType, names, init, descs).value;
      if descs[last].opType == opType {
        AppendArgsOk(names, descs[last], aux);
        AppendArgsValue(names, descs[last], aux);
        var aux' := AppendArgs(names, descs[last], aux).value;
        assert Collected(opType, names, topo, descs) == Ok((ops + [last], aux'));
        assert Matching(opType, topo, descs) == ops + [last];
        forall n, i | n in names && 0 <= i < |ops| + 1
          ensures SingleArg(descs[(ops + [last])[i]], n) && Lookup(aux', n)[i] == Arg(descs[(ops + [last])[i]], n)
        {
          if i < |ops| {
            assert (ops + [last])[i] == ops[i];
          }
        }
      }
    }
  }

  /** A failure on a prefix of the ops is the failure of the whole collection. */
  lemma {:induction false} CollectedPrefixErr(opType: string, names: seq<string>, topo: seq<NodeId>,
                                              descs: map<NodeId, OpDesc>, j: nat)
    requires forall k :: k in topo ==> k in descs
    requires j <= |topo| && Collected(opType, names, topo[..j], descs).Err?
    ensures Collected(opType, names, topo, descs) == Collected(opType, names, topo[..j], descs)
    decreases |topo| - j
  {
    if j < |topo| {
      assert topo[..j + 1][..j] == topo[..j];
      CollectedPrefixErr(opType, names, topo, descs, j + 1);
    } else {
      assert topo[..j] == topo;
    }
  }

  /** Appending never shortens a list, and lengthens the list of every name. */
  lemma {:induction false} AppendArgsGrows(names: seq<string>, desc: OpDesc, aux: AuxVars)
    requires AppendArgs(names, desc, aux).Ok?
    ensures forall n :: |Lookup(AppendArgs(names, desc, aux).value, n)| >= |Lookup(aux, n)|
    ensures forall n :: n in names ==> |Lookup(AppendArgs(names, desc, aux).value, n)| > |Lookup(aux, n)|
    decreases |names|
  {
    if names != [] {
      var aux' := Append(aux, names[0], Arguments(desc.inputs, names[0]).value[0]);
      AppendArgsGrows(names[1..], desc, aux');
      assert forall n :: n in names <==> n == names[0] || n in names[1..];
      assert forall n :: |Lookup(aux', n)| >= |Lookup(aux, n)|;
    }
  }

  /** Every auxiliary name holds at least one argument per collected op. */
  lemma {:induction false} CollectedGrows(opType: string, names: seq<string>, topo: seq<NodeId>,
                                          descs: map<NodeId, OpDesc>)
    requires forall k :: k in topo ==> k in descs
    requires Collected(opType, names, topo, descs).Ok?
    ensures forall n :: n in names ==>
      |Lookup(Collected(opType, names, topo, descs).value.1, n)| >= |Collected(opType, names, topo, descs).value.0|
    decreases |topo|
  {
    if topo != [] {
      var init := topo[..|topo| - 1];
      var last := topo[|topo| - 1];
      CollectedGrows(opType, names, init, descs);
      var (ops, aux) := Collected(opType, names, init, descs).value;
      if descs[last].opType == opType {
        AppendArgsGrows(names, descs[last], aux);
      }
    }
  }

  /** The collected ops are those of the fused type, in topological order. */
  lemma {:induction false} CollectedOps(opType: string, names: seq<string>, topo: seq<NodeId>,
                                        descs: map<NodeId, OpDesc>)
    requires forall k :: k in topo ==> k in descs
    requires Collected(opType, names, topo, descs).Ok?
    ensures Collected(opType, names, topo, descs).value.0 == Matching(opType, topo, descs)
    decreases |topo|
  {
    if topo != [] {
      CollectedOps(opType, names, topo[..|topo| - 1], descs);
    }
  }

  /** Step 1 of ApplyImpl: GetSpecifiedOpsAndVars over every op in
    * topological order. */
  method CollectOps(opType: string, names: seq<string>, topo: seq<NodeId>, descs: map<NodeId, OpDesc>)
    returns (r: Result<(seq<NodeId>, AuxVars)>)
    requires forall k :: k in topo ==> k in descs
    ensures r == Collected(opType, names, topo, descs)
  {
    var ops: seq<NodeId> := [];
    var aux: AuxVars := map[];
    var i := 0;
    while i < |topo|
      invariant 0 <= i <= |topo|
      invariant Collected(opType, names, topo[..i], descs) == Ok((ops, aux))
    {
      assert topo[..i + 1][..i] == topo[..i] && topo[..i + 1][i] == topo[i];
      var step := GetSpecifiedOpsAndVars(opType, names, topo[i], descs[topo[i]], ops, aux);
      if step.Err? {
        CollectedPrefixErr(opType, names, topo, descs, i + 1);
        return step;
      }
      ops, aux := step.value.0, step.value.1;
      i := i + 1;
    }
    assert topo[..i] == topo;
    return Ok((ops, aux));
  }

  // Step 2 of ApplyImpl (lines 59-76)

  /** The name of the fused variable of one auxiliary input: the prefix, the
    * fused op type, the input name and its first collected argument, joined
    * by underscores (line 70). */
  function FusedVarName(prefix: string, opType: string, name: string, first: string): string
  {
    prefix + "_" + opType + "_" + name + "_" + first
  }

  /** The fused name of the i-th auxiliary input. */
  function FusedNameAt(prefix: string, opType: string, names: seq<string>, aux: AuxVars, i: nat): string
    requires i < |names| && |Lookup(aux, names[i])| > 0
  {
    FusedVarName(prefix, opType, names[i], Lookup(aux, names[i])[0])
  }

  /** The fused names of the auxiliary inputs from the i-th on. */
  function FusedNamesFrom(prefix: string, opType: string, names: seq<string>, aux: AuxVars, i: nat): (r: set<string>)
    requires i <= |names| && forall n :: n in names ==> |Lookup(aux, n)| > 0
    ensures forall j :: i <= j < |names| ==> FusedNameAt(prefix, opType, names, aux, j) in r
    decreases |names| - i
  {
    if i == |names| then {}
    else {FusedNameAt(prefix, opType, names, aux, i)} + FusedNamesFrom(prefix, opType, names, aux, i + 1)
  }

  /** The loop of lines 69-76 from the i-th name on: each fused name must not
    * be in the graph's set of fused variables yet, and is added to it; the
    * map from input name to fused name keeps the first entry of a name
    * (emplace). */
  function NameFused(prefix: string, opType: string, names: seq<string>, aux: AuxVars, i: nat,
                     acc: map<string, string>, vars: set<string>): Result<(map<string, string>, set<string>)>
    requires i <= |names| && forall n :: n in names ==> |Lookup(aux, n)| > 0
    decreases |names| - i
  {
    if i == |names| then Ok((acc, vars))
    else
      var name := FusedNameAt(prefix, opType, names, aux, i);
      if name in vars then Err("Enforce failed: fused_var_set.count(fused_var_name) != 0")
      else NameFused(prefix, opType, names, aux, i + 1, if names[i] in acc then acc else acc[names[i] := name],
                     vars + {name})
  }

  /** Naming succeeds exactly when the fused names are new and pairwise
    * different. */
  lemma {:induction false} NameFusedOk(prefix: string, opType: string, names: seq<string>, aux: AuxVars, i: nat,
                                       acc: map<string, string>, vars: set<string>)
    requires i <= |names| && forall n :: n in names ==> |Lookup(aux, n)| > 0
    ensures NameFused(prefix, opType, names, aux, i, acc, vars).Ok? <==>
      (forall j :: i <= j < |names| ==> FusedNameAt(prefix, opType, names, aux, j) !in vars) &&
      (forall j, l :: i <= j < l < |names| ==>
         FusedNameAt(prefix, opType, names, aux, j) != FusedNameAt(prefix, opType, names, aux, l))
    decreases |names| - i
  {
    if i < |names| {
      var name := FusedNameAt(prefix, opType, names, aux, i);
      var acc' := if names[i] in acc then acc else acc[names[i] := name];
      NameFusedOk(prefix, opType, names, aux, i + 1, acc', vars + {name});
      if NameFused(prefix, opType, names, aux, i, acc, vars).Ok? {
        assert NameFused(prefix, opType, names, aux, i + 1, acc', vars + {name}).Ok?;
        forall j | i <= j < |names|
          ensures FusedNameAt(prefix, opType, names, aux, j) !in vars
        {
          if j > i {
            assert FusedNameAt(prefix, opType, names, aux, j) !in vars + {name};
          }
        }
        forall j, l | i <= j < l < |names|
          ensures FusedNameAt(prefix, opType, names, aux, j) != FusedNameAt(prefix, opType, names, aux, l)
        {
          if j == i {
            assert FusedNameAt(prefix, opType, names, aux, l) !in vars + {name};
          }
        }
      } else if name !in vars {
        assert !NameFused(prefix, opType, names, aux, i + 1, acc', vars + {name}).Ok?;
      }
    }
  }

  /** One successful naming step, with no input name mapped yet from the
    * i-th on: the rest of the loop starts from the extended map and set,
    * and still finds its input names unmapped. */
  lemma NameFusedStep(prefix: string, opType: string, names: seq<string>, aux: AuxVars, i: nat,
                      acc: map<string, string>, vars: set<string>)
    requires i < |names| && forall n :: n in names ==> |Lookup(aux, n)| > 0
    requires NameFused(prefix, opType, names, aux, i, acc, vars).Ok?
    requires forall j :: i <= j < |names| ==> names[j] !in acc
    ensures var name := FusedNameAt(prefix, opType, names, aux, i);
      var acc' := acc[names[i] := name];
      NameFused(prefix, opType, names, aux, i, acc, vars) == NameFused(prefix, opType, names, aux, i + 1, acc', vars + {name}) &&
      forall j :: i + 1 <= j < |names| ==> names[j] !in acc'
  {
    NameFusedOk(prefix, opType, names, aux, i, acc, vars);
    var name := FusedNameAt(prefix, opType, names, aux, i);
    var acc' := acc[names[i] := name];
    forall j | i + 1 <= j < |names|
      ensures names[j] !in acc'
    {
      assert FusedNameAt(prefix, opType, names, aux, j) != name;
    }
    assert names[i] !in acc;
  }

  /** A successful naming adds every fused name to the set. */
  lemma {:induction false} NameFusedSet(prefix: string, opType: string, names: seq<string>, aux: AuxVars, i: nat,
                                         acc: map<string, string>, vars: set<string>)
    requires i <= |names| && forall n :: n in names ==> |Lookup(aux, n)| > 0
    requires NameFused(prefix, opType, names, aux, i, acc, vars).Ok?
    requires forall j :: i <= j < |names| ==> names[j] !in acc
    ensures NameFused(prefix, opType, names, aux, i, acc, vars).value.1 ==
      vars + FusedNamesFrom(prefix, opType, names, aux, i)
    decreases |names| - i
  {
    if i < |names| {
      NameFusedStep(prefix, opType, names, aux, i, acc, vars);
      var name := FusedNameAt(prefix, opType, names, aux, i);
      NameFusedSet(prefix, opType, names, aux, i + 1, acc[names[i] := name], vars + {name});
    }
  }

  /** A successful naming maps exactly the names already mapped and the
    * input names from the i-th on. */
  lemma {:induction false} NameFusedKeys(prefix: string, opType: string, names: seq<string>, aux: AuxVars, i: nat,
                                         acc: map<string, string>, vars: set<string>)
    requires i <= |names| && forall n :: n in names ==> |Lookup(aux, n)| > 0
    requires NameFused(prefix, opType, names, aux, i, acc, vars).Ok?
    requires forall j :: i <= j < |names| ==> names[j] !in acc
    ensures forall n :: n in NameFused(prefix, opType, names, aux, i, acc, vars).value.0 <==>
      n in acc || n in names[i..]
    decreases |names| - i
  {
    if i < |names| {
      NameFusedStep(prefix, opType, names, aux, i, acc, vars);
      var name := FusedNameAt(prefix, opType, names, aux, i);
      NameFusedKeys(prefix, opType, names, aux, i + 1, acc[names[i] := name], vars + {name});
      assert forall n :: n in names[i..] <==> n == names[i] || n in names[i + 1..] by {
        assert names[i..] == [names[i]] + names[i + 1..];
      }
    }
  }

  /** A successful naming maps each input name from the i-th on to its
    * fused name and keeps the entries already there. */
  lemma {:induction false} NameFusedEntries(prefix: string, opType: string, names: seq<string>, aux: AuxVars, i: nat,
                                            acc: map<string, string>, vars: set<string>)
    requires i <= |names| && forall n :: n in names ==> |Lookup(aux, n)| > 0
    requires NameFused(prefix, opType, names, aux, i, acc, vars).Ok?
    requires forall j :: i <= j < |names| ==> names[j] !in acc
    ensures var m := NameFused(prefix, opType, names, aux, i, acc, vars).value.0;
      (forall j :: i <= j < |names| ==> names[j] in m && m[names[j]] == FusedNameAt(prefix, opType, names, aux, j)) &&
      (forall n :: n in acc ==> n in m && m[n] == acc[n])
    decreases |names| - i
  {
    if i < |names| {
      NameFusedStep(prefix, opType, names, aux, i, acc, vars);
      var name := FusedNameAt(prefix, opType, names, aux, i);
      var acc' := acc[names[i] := name];
      NameFusedEntries(prefix, opType, names, aux, i + 1, acc', vars + {name});
      assert forall n :: n in acc ==> acc'[n] == acc[n];
    }
  }

  /** A successful naming adds every fused name to the set and maps each
    * input name to its fused name. */
  lemma NameFusedValue(prefix: string, opType: string, names: seq<string>, aux: AuxVars, i: nat,
                       acc: map<string, string>, vars: set<string>)
    requires i <= |names| && forall n :: n in names ==> |Lookup(aux, n)| > 0
    requires NameFused(prefix, opType, names, aux, i, acc, vars).Ok?
    requires forall j :: i <= j < |names| ==> names[j] !in acc
    ensures NameFused(prefix, opType, names, aux, i, acc, vars).value.1 ==
      vars + FusedNamesFrom(prefix, opType, names, aux, i)
    ensures forall n :: n in NameFused(prefix, opType, names, aux, i, acc, vars).value.0 <==>
      n in acc || n in names[i..]
    ensures forall j :: i <= j < |names| ==>
      NameFused(prefix, opType, names, aux, i, acc, vars).value.0[names[j]] == FusedNameAt(prefix, opType, names, aux, j)
    ensures forall n :: n in acc ==> NameFused(prefix, opType, names, aux, i, acc, vars).value.0[n] == acc[n]
  {
    NameFusedSet(prefix, opType, names, aux, i, acc, vars);
    NameFusedKeys(prefix, opType, names, aux, i, acc, vars);
    NameFusedEntries(prefix, opType, names, aux, i, acc, vars);
  }

  /** Equal input names give equal fused names, so a successful naming saw
    * distinct input names. */
  lemma NameFusedDistinct(prefix: string, opType: string, names: seq<string>, aux: AuxVars, vars: set<string>)
    requires forall n :: n in names ==> |Lookup(aux, n)| > 0
    requires NameFused(prefix, opType, names, aux, 0, map[], vars).Ok?
    ensures Distinct(names)
  {
    NameFusedOk(prefix, opType, names, aux, 0, map[], vars);
    forall i, j | 0 <= i < j < |names|
      ensures names[i] != names[j]
    {
      assert FusedNameAt(prefix, opType, names, aux, i) != FusedNameAt(prefix, opType, names, aux, j);
    }
  }

  /** Step 2 of ApplyImpl: names the fused variable of every auxiliary input
    * and records it among the graph's fused variables. */
  method NameFusedVars(prefix: string, opType: string, names: seq<string>, aux: AuxVars, vars: set<string>)
    returns (r: Result<(map<string, string>, set<string>)>)
    requires forall n :: n in names ==> |Lookup(aux, n)| > 0
    ensures r == NameFused(prefix, opType, names, aux, 0, map[], vars)
  {
    var fusedNames: map<string, string> := map[];
    var fusedVars := vars;
    var i := 0;
    while i < |names|
      invariant i <= |names|
      invariant NameFused(prefix, opType, names, aux, i, fusedNames, fusedVars) ==
        NameFused(prefix, opType, names, aux, 0, map[], vars)
    {
      var name := FusedVarName(prefix, opType, names[i], aux[names[i]][0]);
      if name in fusedVars {
        return Err("Enforce failed: fused_var_set.count(fused_var_name) != 0");
      }
      if names[i] !in fusedNames {
        fusedNames := fusedNames[names[i] := name];
      }
      fusedVars := fusedVars + {name};
      i := i + 1;
    }
    return Ok((fusedNames, fusedVars));
  }

  // SortParametersAndAuxVars (lines 152-190)

  /** std::find: the first position of `x`, or |s| when it is absent. */
  function Find(s: seq<string>, x: string): (r: nat)
    ensures r <= |s|
    ensures r < |s| ==> s[r] == x
    ensures forall i :: 0 <= i < r ==> s[i] != x
  {
    if s == [] then 0
    else if s[0] == x then 0
    else
      var r := 1 + Find(s[1..], x);
      assert forall i :: 1 <= i < r ==> s[i] == s[1..][i - 1];
      r
  }

  const ParamNotFound := "Enforce failed: iter != param_vec.end()"

  /** The loop of lines 162-167: the position of every parameter of
    * params_grads among the collected parameters, which must hold it. */
  function SortIndex(params: seq<string>, paramsGrads: seq<(string, string)>): (r: Result<seq<nat>>)
    ensures r.Ok? <==> forall i :: 0 <= i < |paramsGrads| ==> paramsGrads[i].0 in params
    ensures r.Err? ==> r.error == ParamNotFound
    ensures r.Ok? ==> |r.value| == |paramsGrads|
    ensures r.Ok? ==>
      forall i :: 0 <= i < |paramsGrads| ==> r.value[i] < |params| && params[r.value[i]] == paramsGrads[i].0
    decreases |paramsGrads|
  {
    if paramsGrads == [] then Ok([])
    else
      var init := paramsGrads[..|paramsGrads| - 1];
      var prev := SortIndex(params, init);
      var j := Find(params, paramsGrads[|paramsGrads| - 1].0);
      if prev.Err? then
        assert !(forall i :: 0 <= i < |init| ==> init[i].0 in params);
        prev
      else if j == |params| then Err(ParamNotFound)
      else Ok(prev.value + [j])
  }

  /** `sorted[i] = s.at(idx[i])` for every position of `s` (lines 170-174 and
    * 184-188). */
  function Gather<T>(s: seq<T>, idx: seq<nat>): (r: seq<T>)
    requires |idx| == |s| && forall i :: 0 <= i < |idx| ==> idx[i] < |s|
    ensures |r| == |s|
  {
    seq(|s|, i requires 0 <= i < |s| => s[idx[i]])
  }

  const NoParam := "Enforce failed: aux_vars_set->count(\"Param\") != 0"

  /** The reordered lists and ops: the positions of the parameters of
    * params_grads, applied to every list and to the ops. Reordering fails
    * exactly when there is no "Param" list or it misses a parameter of
    * params_grads; afterwards the i-th parameter is the one of the i-th entry
    * of params_grads. */
  function SortedVars(paramsGrads: seq<(string, string)>, aux: AuxVars, ops: seq<NodeId>)
    : (r: Result<(AuxVars, seq<NodeId>)>)
    requires |ops| == |paramsGrads| && forall n :: n in aux ==> |aux[n]| == |paramsGrads|
    ensures r.Ok? <==> "Param" in aux && forall i :: 0 <= i < |paramsGrads| ==> paramsGrads[i].0 in aux["Param"]
    ensures r.Ok? ==> r.value.0.Keys == aux.Keys && |r.value.1| == |ops|
    ensures r.Ok? ==> forall n :: n in aux ==> |r.value.0[n]| == |aux[n]|
    ensures r.Ok? ==> forall i :: 0 <= i < |paramsGrads| ==> r.value.0["Param"][i] == paramsGrads[i].0
  {
    if "Param" !in aux then Err(NoParam)
    else
      var idx := SortIndex(aux["Param"], paramsGrads);
      if idx.Err? then Err(idx.error)
      else Ok((map n | n in aux :: Gather(aux[n], idx.value), Gather(ops, idx.value)))
  }

  /** The same reordering moves every list and the ops: the i-th entries
    * after it all come from one position j before it. */
  lemma SortedTogether(paramsGrads: seq<(string, string)>, aux: AuxVars, ops: seq<NodeId>, i: nat)
    requires |ops| == |paramsGrads| && forall n :: n in aux ==> |aux[n]| == |paramsGrads|
    requires SortedVars(paramsGrads, aux, ops).Ok? && i < |paramsGrads|
    ensures exists j :: 0 <= j < |ops| && SortedVars(paramsGrads, aux, ops).value.1[i] == ops[j] &&
                        (forall n :: n in aux ==> SortedVars(paramsGrads, aux, ops).value.0[n][i] == aux[n][j])
  {
    var j := SortIndex(aux["Param"], paramsGrads).value[i];
    assert SortedVars(paramsGrads, aux, ops).value.1[i] == ops[j];
  }

  /** The parameters of params_grads are pairwise different. */
  predicate DistinctParams(paramsGrads: seq<(string, string)>)
  {
    forall i, j :: 0 <= i < j < |paramsGrads| ==> paramsGrads[i].0 != paramsGrads[j].0
  }

  predicate DistinctIndices(idx: seq<nat>)
  {
    forall i, j :: 0 <= i < j < |idx| ==> idx[i] != idx[j]
  }

  function Elems(idx: seq<nat>): (r: set<nat>)
    ensures forall v :: v in r <==> v in idx
  {
    set v | v in idx
  }

  lemma {:induction false} DistinctCard(idx: seq<nat>)
    requires DistinctIndices(idx)
    ensures |Elems(idx)| == |idx|
  {
    if idx != [] {
      var init := idx[..|idx| - 1];
      var last := idx[|idx| - 1];
      assert DistinctIndices(init) by {
        forall i, j | 0 <= i < j < |init|
          ensures init[i] != init[j]
        {
          assert init[i] == idx[i] && init[j] == idx[j];
        }
      }
      assert last !in init by {
        forall i | 0 <= i < |init|
          ensures init[i] != last
        {
          assert init[i] == idx[i];
        }
      }
      DistinctCard(init);
      assert idx == init + [last];
      assert Elems(idx) == Elems(init) + {last};
    }
  }

  /** The positions below n. */
  function Range(n: nat): (r: set<nat>)
    ensures forall v: nat :: v in r <==> v < n
    ensures |r| == n
  {
    if n == 0 then {} else Range(n - 1) + {n - 1}
  }

  lemma SubsetSameCard<T>(a: set<T>, b: set<T>)
    requires a <= b && |a| == |b|
    ensures a == b
  {
    var d := b - a;
    assert b == a + d && a * d == {};
    assert |d| == 0;
  }

  /** Pigeonhole: n pairwise different positions below n take every
    * position below n. */
  lemma Cover(idx: seq<nat>, v: nat)
    requires DistinctIndices(idx) && (forall i :: 0 <= i < |idx| ==> idx[i] < |idx|) && v < |idx|
    ensures v in idx
  {
    var taken := Elems(idx);
    DistinctCard(idx);
    assert taken <= Range(|idx|) by {
      forall x | x in taken
        ensures x < |idx|
      {
        var i :| 0 <= i < |idx| && idx[i] == x;
      }
    }
    SubsetSameCard(taken, Range(|idx|));
    assert v in taken;
  }

  /** The list without its p-th entry. */
  function DropAt(idx: seq<nat>, p: nat): (r: seq<nat>)
    requires p < |idx|
    ensures |r| == |idx| - 1
    ensures forall i :: 0 <= i < |r| ==> r[i] == if i < p then idx[i] else idx[i + 1]
  {
    idx[..p] + idx[p + 1..]
  }

  /** Taking out the position that holds the last index leaves pairwise
    * different positions below it. */
  lemma DropLast(idx: seq<nat>, p: nat)
    requires (forall i :: 0 <= i < |idx| ==> idx[i] < |idx|) && DistinctIndices(idx)
    requires p < |idx| && idx[p] == |idx| - 1
    ensures DistinctIndices(DropAt(idx, p))
    ensures forall i :: 0 <= i < |idx| - 1 ==> DropAt(idx, p)[i] < |idx| - 1
  {
    var idx' := DropAt(idx, p);
    assert forall i :: 0 <= i < |idx'| ==> idx'[i] == if i < p then idx[i] else idx[i + 1];
    forall i, j | 0 <= i < j < |idx'|
      ensures idx'[i] != idx'[j]
    {
      var i0 := if i < p then i else i + 1;
      var j0 := if j < p then j else j + 1;
      assert idx'[i] == idx[i0] && idx'[j] == idx[j0] && i0 < j0;
    }
    forall i | 0 <= i < |idx'|
      ensures idx'[i] < |idx| - 1
    {
      var i0 := if i < p then i else i + 1;
      assert idx'[i] == idx[i0] && i0 != p;
    }
  }

  lemma GatherDropLast<T>(s: seq<T>, idx: seq<nat>, p: nat)
    requires |idx| == |s| && (forall i :: 0 <= i < |idx| ==> idx[i] < |s|) && DistinctIndices(idx)
    requires p < |idx| && idx[p] == |s| - 1
    ensures DistinctIndices(DropAt(idx, p))
    ensures forall i :: 0 <= i < |idx| - 1 ==> DropAt(idx, p)[i] < |idx| - 1
    ensures Gather(s[..|s| - 1], DropAt(idx, p)) == Gather(s, idx)[..p] + Gather(s, idx)[p + 1..]
  {
    DropLast(idx, p);
  }

  /** Gathering by pairwise different positions reorders a list. */
  lemma {:induction false} GatherPermutes<T>(s: seq<T>, idx: seq<nat>)
    requires |idx| == |s| && (forall i :: 0 <= i < |idx| ==> idx[i] < |s|) && DistinctIndices(idx)
    ensures multiset(Gather(s, idx)) == multiset(s)
    decreases |s|
  {
    if s != [] {
      var m := |s| - 1;
      Cover(idx, m);
      var p :| 0 <= p < |idx| && idx[p] == m;
      GatherDropLast(s, idx, p);
      GatherPermutes(s[..m], DropAt(idx, p));
      var g := Gather(s, idx);
      SpliceMultiset(g, p);
      SpliceMultiset(s, m);
    }
  }

  lemma SpliceMultiset<T>(g: seq<T>, p: nat)
    requires p < |g|
    ensures multiset(g) == multiset(g[..p] + g[p + 1..]) + multiset{g[p]}
  {
    assert g == g[..p] + [g[p]] + g[p + 1..];
  }

  /** When the parameters of params_grads are pairwise different, the
    * reordering is a permutation of the ops and of every list. */
  lemma SortedPermutes(paramsGrads: seq<(string, string)>, aux: AuxVars, ops: seq<NodeId>)
    requires |ops| == |paramsGrads| && forall n :: n in aux ==> |aux[n]| == |paramsGrads|
    requires SortedVars(paramsGrads, aux, ops).Ok? && DistinctParams(paramsGrads)
    ensures multiset(SortedVars(paramsGrads, aux, ops).value.1) == multiset(ops)
    ensures forall n :: n in aux ==> multiset(SortedVars(paramsGrads, aux, ops).value.0[n]) == multiset(aux[n])
  {
    var idx := SortIndex(aux["Param"], paramsGrads).value;
    assert DistinctIndices(idx) by {
      forall i, j | 0 <= i < j < |idx|
        ensures idx[i] != idx[j]
      {
        assert aux["Param"][idx[i]] == paramsGrads[i].0 && aux["Param"][idx[j]] == paramsGrads[j].0;
      }
    }
    GatherPermutes(ops, idx);
    forall n | n in aux
      ensures multiset(SortedVars(paramsGrads, aux, ops).value.0[n]) == multiset(aux[n])
    {
      GatherPermutes(aux[n], idx);
    }
  }

  /** The loops of lines 170-174 and 184-188 on one list. */
  method Rearrange<T>(s: seq<T>, idx: seq<nat>) returns (sorted: seq<T>)
    requires |idx| == |s| && forall i :: 0 <= i < |idx| ==> idx[i] < |s|
    ensures sorted == Gather(s, idx)
  {
    sorted := [];
    var i := 0;
    while i < |s|
      invariant 0 <= i <= |s|
      invariant sorted == Gather(s, idx)[..i]
    {
      sorted := sorted + [s[idx[i]]];
      i := i + 1;
    }
  }

  /** The loop of lines 162-167. */
  method FindParams(params: seq<string>, paramsGrads: seq<(string, string)>) returns (r: Result<seq<nat>>)
    ensures r == SortIndex(params, paramsGrads)
  {
    var idx: seq<nat> := [];
    var i := 0;
    while i < |paramsGrads|
      invariant 0 <= i <= |paramsGrads|
      invariant SortIndex(params, paramsGrads[..i]) == Ok(idx)
    {
      assert paramsGrads[..i + 1][..i] == paramsGrads[..i];
      var j := Find(params, paramsGrads[i].0);
      if j == |params| {
        assert paramsGrads[i] == paramsGrads[..i + 1][i];
        assert SortIndex(params, paramsGrads[..i + 1]).Err?;
        return Err(ParamNotFound);
      }
      idx := idx + [j];
      i := i + 1;
    }
    assert paramsGrads[..i] == paramsGrads;
    return Ok(idx);
  }

  /** The loop of lines 169-182 over every list. */
  method RearrangeAll(aux: AuxVars, idx: seq<nat>) returns (sorted: AuxVars)
    requires forall n :: n in aux ==> |aux[n]| == |idx|
    requires forall i :: 0 <= i < |idx| ==> idx[i] < |idx|
    ensures sorted == map n | n in aux :: Gather(aux[n], idx)
  {
    sorted := aux;
    var todo := aux.Keys;
    while todo != {}
      invariant todo <= aux.Keys && sorted.Keys == aux.Keys
      invariant forall n :: n in aux ==> sorted[n] == if n in todo then aux[n] else Gather(aux[n], idx)
      decreases |todo|
    {
      var n :| n in todo;
      var list := Rearrange(aux[n], idx);
      sorted := sorted[n := list];
      todo := todo - {n};
    }
  }

  /** SortParametersAndAuxVars (lines 152-190): every list and the ops are
    * reordered in place by the positions of the parameters of params_grads. */
  method SortParametersAndAuxVars(paramsGrads: seq<(string, string)>, aux: AuxVars, ops: seq<NodeId>)
    returns (r: Result<(AuxVars, seq<NodeId>)>)
    requires |ops| == |paramsGrads| && forall n :: n in aux ==> |aux[n]| == |paramsGrads|
    ensures r == SortedVars(paramsGrads, aux, ops)
  {
    if "Param" !in aux {
      return Err(NoParam);
    }
    var idx := FindParams(aux["Param"], paramsGrads);
    if idx.Err? {
      return Err(idx.error);
    }
    var sorted := RearrangeAll(aux, idx.value);
    var sortedOps := Rearrange(ops, idx.value);
    return Ok((sorted, sortedOps));
  }

  // ApplyImpl, steps 1 to 4 (lines 25-96)

  /** The graph attributes the pass reads and sets: the fused optimizer type,
    * the set of fused variable names, the fused gradient and the
    * (parameter, gradient) pairs. */
  datatype PassAttrs = PassAttrs(fusedOptType: Option<string>, fusedVars: Option<set<string>>,
                                 fusedGrads: Option<string>, paramsGrads: Option<seq<(string, string)>>)

  /** What steps 5 to 7 work on: the ops to fuse in parameter order, their
    * auxiliary arguments in the same order, and the fused variable of each
    * auxiliary input and of "Grad". */
  datatype Plan = Plan(ops: seq<NodeId>, aux: AuxVars, fusedNames: map<string, string>)

  const NoFusedGrads := "The alloc_continuous_space_for_grad_pass should be called before this pass."
  const SizeMismatch := "The size of params_grads and aux_var_set are not equal."

  /** Steps 1 to 4. No op of the fused type, or a fused type already
    * recorded, leave the graph as it was (None). */
  function Prepared(opType: string, names: seq<string>, prefix: string, topo: seq<NodeId>,
                    descs: map<NodeId, OpDesc>, attrs: PassAttrs): Result<(PassAttrs, Option<Plan>)>
    requires forall k :: k in topo ==> k in descs
  {
    var collected := Collected(opType, names, topo, descs);
    if collected.Err? then Err(collected.error)
    else
      var (ops, aux) := collected.value;
      if ops == [] || attrs.fusedOptType.Some? then Ok((attrs, None))
      else
        CollectedGrows(opType, names, topo, descs);
        var vars := if attrs.fusedVars.Some? then attrs.fusedVars.value else {};
        var named := NameFused(prefix, opType, names, aux, 0, map[], vars);
        if named.Err? then Err(named.error)
        else
          var (fusedNames, vars') := named.value;
          if attrs.paramsGrads.None? then Err("graph attribute params_grads is not set")
          else if attrs.fusedGrads.None? then Err(NoFusedGrads)
          else if attrs.fusedGrads.value !in vars' then Err("Not find the fused_grad.")
          else
            var withGrad := if "Grad" in fusedNames then fusedNames else fusedNames["Grad" := attrs.fusedGrads.value];
            var paramsGrads := attrs.paramsGrads.value;
            if |paramsGrads| != |ops| then Err(SizeMismatch)
            else
              NameFusedDistinct(prefix, opType, names, aux, vars);
              CollectedValue(opType, names, topo, descs);
              var sorted := SortedVars(paramsGrads, aux, ops);
              if sorted.Err? then Err(sorted.error)
              else Ok((attrs.(fusedOptType := Some(opType), fusedVars := Some(vars')),
                       Some(Plan(sorted.value.1, sorted.value.0, withGrad))))
  }

  /** ApplyImpl, steps 1 to 4: the graph's nodes are not changed. */
  method ApplyImpl(g: Graph, topo: seq<NodeId>, opType: string, names: seq<string>, prefix: string,
                   attrs: PassAttrs) returns (r: Result<(PassAttrs, Option<Plan>)>)
    requires g.Valid() && forall k :: k in topo ==> k in g.nodes && IsOp(g.nodes[k])
    ensures r == Prepared(opType, names, prefix, topo, g.descs, attrs)
  {
    var collected := CollectOps(opType, names, topo, g.descs);
    if collected.Err? {
      return Err(collected.error);
    }
    var (ops, aux) := collected.value;
    if |ops| == 0 {
      return Ok((attrs, None));
    }
    if attrs.fusedOptType.Some? {
      return Ok((attrs, None));
    }
    CollectedGrows(opType, names, topo, g.descs);
    var vars := if attrs.fusedVars.Some? then attrs.fusedVars.value else {};
    var named := NameFusedVars(prefix, opType, names, aux, vars);
    if named.Err? {
      return Err(named.error);
    }
    var (fusedNames, vars') := named.value;
    if attrs.paramsGrads.None? {
      return Err("graph attribute params_grads is not set");
    }
    if attrs.fusedGrads.None? {
      return Err(NoFusedGrads);
    }
    var fusedGrad := attrs.fusedGrads.value;
    if fusedGrad !in vars' {
      return Err("Not find the fused_grad.");
    }
    if "Grad" !in fusedNames {
      fusedNames := fusedNames["Grad" := fusedGrad];
    }
    var paramsGrads := attrs.paramsGrads.value;
    if |paramsGrads| != |ops| {
      return Err(SizeMismatch);
    }
    NameFusedDistinct(prefix, opType, names, aux, vars);
    CollectedValue(opType, names, topo, g.descs);
    var sorted := SortParametersAndAuxVars(paramsGrads, aux, ops);
    if sorted.Err? {
      return Err(sorted.error);
    }
    return Ok((attrs.(fusedOptType := Some(opType), fusedVars := Some(vars')),
               Some(Plan(sorted.value.1, sorted.value.0, fusedNames))));
  }

  /** The pass leaves the graph as it was exactly when no op has the fused
    * type or a fused type is already recorded. */
  lemma PreparedSkips(opType: string, names: seq<string>, prefix: string, topo: seq<NodeId>,
                      descs: map<NodeId, OpDesc>, attrs: PassAttrs)
    requires forall k :: k in topo ==> k in descs
    requires Collected(opType, names, topo, descs).Ok?
    ensures Prepared(opType, names, prefix, topo, descs, attrs).Ok? &&
            Prepared(opType, names, prefix, topo, descs, attrs).value.1.None? <==>
            Matching(opType, topo, descs) == [] || attrs.fusedOptType.Some?
    ensures Prepared(opType, names, prefix, topo, descs, attrs).Ok? &&
            Prepared(opType, names, prefix, topo, descs, attrs).value.1.None? ==>
            Prepared(opType, names, prefix, topo, descs, attrs).value.0 == attrs
  {
    CollectedOps(opType, names, topo, descs);
  }

  /** A plan records the fused type, adds the fused name of every auxiliary
    * input to the graph's fused variables, and maps each input, and "Grad",
    * to its fused variable. */
  lemma PreparedNames(opType: string, names: seq<string>, prefix: string, topo: seq<NodeId>,
                      descs: map<NodeId, OpDesc>, attrs: PassAttrs, attrs': PassAttrs, plan: Plan)
    requires forall k :: k in topo ==> k in descs
    requires Prepared(opType, names, prefix, topo, descs, attrs) == Ok((attrs', Some(plan)))
    ensures attrs.fusedOptType.None? && attrs'.fusedOptType == Some(opType)
    ensures Distinct(names) && Collected(opType, names, topo, descs).Ok?
    ensures forall n :: n in names ==> |Lookup(Collected(opType, names, topo, descs).value.1, n)| > 0
    ensures attrs'.fusedVars ==
      Some((if attrs.fusedVars.Some? then attrs.fusedVars.value else {}) +
           FusedNamesFrom(prefix, opType, names, Collected(opType, names, topo, descs).value.1, 0))
    ensures attrs'.fusedGrads == attrs.fusedGrads && attrs'.paramsGrads == attrs.paramsGrads
    ensures attrs.fusedGrads.Some? && attrs.fusedGrads.value in attrs'.fusedVars.value
    ensures forall n :: n in names ==> n in plan.fusedNames
    ensures forall j :: 0 <= j < |names| ==>
      plan.fusedNames[names[j]] == FusedNameAt(prefix, opType, names, Collected(opType, names, topo, descs).value.1, j)
    ensures "Grad" !in names ==> plan.fusedNames["Grad"] == attrs.fusedGrads.value
  {
    var collected := Collected(opType, names, topo, descs);
    assert collected.Ok?;
    var (ops, aux) := collected.value;
    CollectedGrows(opType, names, topo, descs);
    var vars := if attrs.fusedVars.Some? then attrs.fusedVars.value else {};
    var named := NameFused(prefix, opType, names, aux, 0, map[], vars);
    assert named.Ok?;
    var (fusedNames, vars') := named.value;
    assert attrs' == attrs.(fusedOptType := Some(opType), fusedVars := Some(vars'));
    assert plan.fusedNames == if "Grad" in fusedNames then fusedNames else fusedNames["Grad" := attrs.fusedGrads.value];
    NameFusedDistinct(prefix, opType, names, aux, vars);
    NameFusedValue(prefix, opType, names, aux, 0, map[], vars);
    assert forall n :: n in names[0..] <==> n in names by {
      assert names[0..] == names;
    }
  }

  /** A plan holds the collected ops and lists reordered by params_grads. */
  lemma PreparedSorted(opType: string, names: seq<string>, prefix: string, topo: seq<NodeId>,
                       descs: map<NodeId, OpDesc>, attrs: PassAttrs, attrs': PassAttrs, plan: Plan)
    requires forall k :: k in topo ==> k in descs
    requires Prepared(opType, names, prefix, topo, descs, attrs) == Ok((attrs', Some(plan)))
    ensures Distinct(names) && Collected(opType, names, topo, descs).Ok? && attrs.paramsGrads.Some?
    ensures Collected(opType, names, topo, descs).value.0 == Matching(opType, topo, descs)
    ensures |attrs.paramsGrads.value| == |Matching(opType, topo, descs)|
    ensures forall n :: n in Collected(opType, names, topo, descs).value.1 ==>
      |Collected(opType, names, topo, descs).value.1[n]| == |attrs.paramsGrads.value|
    ensures SortedVars(attrs.paramsGrads.value, Collected(opType, names, topo, descs).value.1,
                       Collected(opType, names, topo, descs).value.0) == Ok((plan.aux, plan.ops))
  {
    PreparedNames(opType, names, prefix, topo, descs, attrs, attrs', plan);
    CollectedValue(opType, names, topo, descs);
  }

  /** A plan lists the ops in the order of params_grads' parameters, and when
    * those are pairwise different it reorders the collected ops. */
  lemma PreparedOrder(opType: string, names: seq<string>, prefix: string, topo: seq<NodeId>,
                      descs: map<NodeId, OpDesc>, attrs: PassAttrs, attrs': PassAttrs, plan: Plan)
    requires forall k :: k in topo ==> k in descs
    requires Prepared(opType, names, prefix, topo, descs, attrs) == Ok((attrs', Some(plan)))
    ensures attrs.paramsGrads.Some? && |plan.ops| == |attrs.paramsGrads.value|
    ensures "Param" in plan.aux && |plan.aux["Param"]| == |plan.ops|
    ensures forall i :: 0 <= i < |plan.ops| ==> plan.aux["Param"][i] == attrs.paramsGrads.value[i].0
    ensures DistinctParams(attrs.paramsGrads.value) ==> multiset(plan.ops) == multiset(Matching(opType, topo, descs))
  {
    PreparedSorted(opType, names, prefix, topo, descs, attrs, attrs', plan);
    var (ops, aux) := Collected(opType, names, topo, descs).value;
    if DistinctParams(attrs.paramsGrads.value) {
      SortedPermutes(attrs.paramsGrads.value, aux, ops);
    }
  }

  /** Reordering keeps the i-th op with the i-th argument of every list. */
  lemma SortedAligned(paramsGrads: seq<(string, string)>, aux: AuxVars, ops: seq<NodeId>,
                      descs: map<NodeId, OpDesc>, n: string, i: nat)
    requires |ops| == |paramsGrads| && forall m :: m in aux ==> |aux[m]| == |paramsGrads|
    requires SortedVars(paramsGrads, aux, ops).Ok? && n in aux && i < |ops|
    requires forall j :: 0 <= j < |ops| ==> ops[j] in descs && Arguments(descs[ops[j]].inputs, n) == Ok([aux[n][j]])
    ensures SortedVars(paramsGrads, aux, ops).value.1[i] in descs
    ensures Arguments(descs[SortedVars(paramsGrads, aux, ops).value.1[i]].inputs, n) ==
      Ok([SortedVars(paramsGrads, aux, ops).value.0[n][i]])
  {
    SortedTogether(paramsGrads, aux, ops, i);
  }

  /** In a plan, the i-th argument of every auxiliary input is the argument of
    * the i-th op: the reordering keeps each op with its own variables. */
  lemma PreparedAligned(opType: string, names: seq<string>, prefix: string, topo: seq<NodeId>,
                        descs: map<NodeId, OpDesc>, attrs: PassAttrs, attrs': PassAttrs, plan: Plan,
                        n: string, i: nat)
    requires forall k :: k in topo ==> k in descs
    requires Prepared(opType, names, prefix, topo, descs, attrs) == Ok((attrs', Some(plan)))
    requires n in names && i < |plan.ops|
    ensures plan.ops[i] in descs && n in plan.aux && i < |plan.aux[n]|
    ensures Arguments(descs[plan.ops[i]].inputs, n) == Ok([plan.aux[n][i]])
  {
    PreparedSorted(opType, names, prefix, topo, descs, attrs, attrs', plan);
    var (ops, aux) := Collected(opType, names, topo, descs).value;
    CollectedValue(opType, names, topo, descs);
    assert n in aux && Lookup(aux, n) == aux[n];
    forall j | 0 <= j < |ops|
      ensures ops[j] in descs && Arguments(descs[ops[j]].inputs, n) == Ok([aux[n][j]])
    {
      ArgIsSingle(descs[ops[j]], n);
    }
    SortedAligned(attrs.paramsGrads.value, aux, ops, descs, n, i);
  }

  // InserInputAndOutputForOptOps (lines 220-240)

  /** Every entry of `s` that is in `targets` becomes `repl`; the others keep
    * their place (std::replace once per target). */
  function Redirect(s: seq<NodeId>, targets: set<NodeId>, repl: NodeId): (r: seq<NodeId>)
    ensures |r| == |s|
    ensures forall i :: 0 <= i < |s| ==> r[i] == if s[i] in targets then repl else s[i]
  {
    seq(|s|, i requires 0 <= i < |s| => if s[i] in targets then repl else s[i])
  }

  /** Replacing one more target after a set of them is replacing both. */
  lemma RedirectTwice(s: seq<NodeId>, targets: set<NodeId>, o: NodeId, repl: NodeId)
    ensures Redirect(Redirect(s, targets, repl), {o}, repl) == Redirect(s, targets + {o}, repl)
  {
  }

  /** The ops to fuse: operations whose inputs and outputs are variables of
    * the graph. */
  ghost predicate OptOps(nodes: map<NodeId, Node>, ops: seq<NodeId>)
  {
    forall o :: o in ops ==>
      o in nodes && IsOp(nodes[o]) &&
      (forall x :: x in nodes[o].inputs ==> x in nodes && IsVar(nodes[x])) &&
      (forall x :: x in nodes[o].outputs ==> x in nodes && IsVar(nodes[x]))
  }

  /** The ops among `ops` that read `v`. */
  function Readers(nodes: map<NodeId, Node>, ops: seq<NodeId>, v: NodeId): set<NodeId>
  {
    set o | o in ops && o in nodes && v in nodes[o].inputs
  }

  /** The ops among `ops` that write `v`. */
  function Writers(nodes: map<NodeId, Node>, ops: seq<NodeId>, v: NodeId): set<NodeId>
  {
    set o | o in ops && o in nodes && v in nodes[o].outputs
  }

  /** Every input of the ops, and every output. */
  function InputsOf(nodes: map<NodeId, Node>, ops: seq<NodeId>): set<NodeId>
  {
    set o, x | o in ops && o in nodes && x in nodes[o].inputs :: x
  }

  function OutputsOf(nodes: map<NodeId, Node>, ops: seq<NodeId>): set<NodeId>
  {
    set o, x | o in ops && o in nodes && x in nodes[o].outputs :: x
  }

  /** The graph after every reader and writer of the ops lists `opt` in their
    * place. */
  function Redirected(nodes: map<NodeId, Node>, ops: seq<NodeId>, opt: NodeId): (r: map<NodeId, Node>)
    ensures r.Keys == nodes.Keys
  {
    map k | k in nodes :: nodes[k].(inputs := Redirect(nodes[k].inputs, Writers(nodes, ops, k), opt),
                                    outputs := Redirect(nodes[k].outputs, Readers(nodes, ops, k), opt))
  }

  /** The graph after InserInputAndOutputForOptOps, where `ins` and `outs`
    * are the order in which the sets of inputs and outputs are inserted in
    * front of the fused op's own. */
  function FusedInto(nodes: map<NodeId, Node>, ops: seq<NodeId>, opt: NodeId, ins: seq<NodeId>,
                     outs: seq<NodeId>): map<NodeId, Node>
    requires opt in nodes
  {
    var m := Redirected(nodes, ops, opt);
    m[opt := m[opt].(inputs := ins + m[opt].inputs, outputs := outs + m[opt].outputs)]
  }

  /** After the redirection no variable keeps an edge to a fused op (unless
    * it is the fused node itself), each of them has one to the fused node
    * instead, and the fused node lists every input and output of the ops. */
  lemma FusedIntoEdges(nodes: map<NodeId, Node>, ops: seq<NodeId>, opt: NodeId, ins: seq<NodeId>,
                       outs: seq<NodeId>, v: NodeId, o: NodeId)
    requires opt in nodes && v in nodes && v != opt && o in ops && o in nodes && o != opt
    requires Members(ins) == InputsOf(nodes, ops) && Members(outs) == OutputsOf(nodes, ops)
    ensures FusedInto(nodes, ops, opt, ins, outs).Keys == nodes.Keys
    ensures v in nodes[o].inputs ==>
      o !in FusedInto(nodes, ops, opt, ins, outs)[v].outputs &&
      (o in nodes[v].outputs ==> opt in FusedInto(nodes, ops, opt, ins, outs)[v].outputs) &&
      v in FusedInto(nodes, ops, opt, ins, outs)[opt].inputs
    ensures v in nodes[o].outputs ==>
      o !in FusedInto(nodes, ops, opt, ins, outs)[v].inputs &&
      (o in nodes[v].inputs ==> opt in FusedInto(nodes, ops, opt, ins, outs)[v].inputs) &&
      v in FusedInto(nodes, ops, opt, ins, outs)[opt].outputs
  {
    var r := FusedInto(nodes, ops, opt, ins, outs);
    if v in nodes[o].inputs {
      assert o in Readers(nodes, ops, v);
      assert v in InputsOf(nodes, ops);
      assert v in Members(ins);
      if o in nodes[v].outputs {
        var i :| 0 <= i < |nodes[v].outputs| && nodes[v].outputs[i] == o;
        assert r[v].outputs[i] == opt;
      }
    }
    if v in nodes[o].outputs {
      assert o in Writers(nodes, ops, v);
      assert v in OutputsOf(nodes, ops);
      assert v in Members(outs);
      if o in nodes[v].inputs {
        var i :| 0 <= i < |nodes[v].inputs| && nodes[v].inputs[i] == o;
        assert r[v].inputs[i] == opt;
      }
    }
  }

  /** The loop of lines 227-229 (or 232-234): `o` is replaced by `opt` in the
    * outputs (or inputs) of each listed variable. */
  method ReplaceOp(nodes: map<NodeId, Node>, vars: seq<NodeId>, o: NodeId, opt: NodeId, inOutputs: bool)
    returns (r: map<NodeId, Node>)
    requires forall x :: x in vars ==> x in nodes
    ensures r.Keys == nodes.Keys
    ensures forall k :: k in nodes ==>
      r[k] == if k !in vars then nodes[k]
              else if inOutputs then nodes[k].(outputs := Redirect(nodes[k].outputs, {o}, opt))
              else nodes[k].(inputs := Redirect(nodes[k].inputs, {o}, opt))
  {
    r := nodes;
    var i := 0;
    while i < |vars|
      invariant 0 <= i <= |vars| && r.Keys == nodes.Keys
      invariant forall k :: k in nodes ==>
        r[k] == if k !in vars[..i] then nodes[k]
                else if inOutputs then nodes[k].(outputs := Redirect(nodes[k].outputs, {o}, opt))
                else nodes[k].(inputs := Redirect(nodes[k].inputs, {o}, opt))
    {
      var v := vars[i];
      RedirectTwice(nodes[v].outputs, {o}, o, opt);
      RedirectTwice(nodes[v].inputs, {o}, o, opt);
      assert {o} + {o} == {o};
      if inOutputs {
        r := r[v := r[v].(outputs := Redirect(r[v].outputs, {o}, opt))];
      } else {
        r := r[v := r[v].(inputs := Redirect(r[v].inputs, {o}, opt))];
      }
      assert forall k :: k in vars[..i + 1] <==> k in vars[..i] || k == v by {
        assert vars[..i + 1] == vars[..i] + [v];
      }
      i := i + 1;
    }
    assert vars[..i] == vars;
  }

  /** The set of readers and writers after one more op. */
  lemma ReadersStep(nodes: map<NodeId, Node>, ops: seq<NodeId>, i: nat, v: NodeId)
    requires i < |ops| && ops[i] in nodes
    ensures Readers(nodes, ops[..i + 1], v) ==
      Readers(nodes, ops[..i], v) + (if v in nodes[ops[i]].inputs then {ops[i]} else {})
    ensures Writers(nodes, ops[..i + 1], v) ==
      Writers(nodes, ops[..i], v) + (if v in nodes[ops[i]].outputs then {ops[i]} else {})
  {
    assert forall o :: o in ops[..i + 1] <==> o in ops[..i] || o == ops[i] by {
      assert ops[..i + 1] == ops[..i] + [ops[i]];
    }
  }

  /** The edges of the variables after the ops before the i-th. */
  ghost predicate RedirectedUpTo(nodes0: map<NodeId, Node>, ops: seq<NodeId>, opt: NodeId, i: nat,
                                 nodes: map<NodeId, Node>)
    requires i <= |ops|
  {
    nodes.Keys == nodes0.Keys &&
    forall k :: k in nodes0 ==>
      nodes[k] == nodes0[k].(inputs := Redirect(nodes0[k].inputs, Writers(nodes0, ops[..i], k), opt),
                             outputs := Redirect(nodes0[k].outputs, Readers(nodes0, ops[..i], k), opt))
  }

  /** One variable's edges after one more op's edges are redirected. */
  lemma RedirectNodeStep(n0: Node, n: Node, mid: Node, n': Node, writers: set<NodeId>, readers: set<NodeId>,
                         o: NodeId, opt: NodeId, read: bool, written: bool)
    requires n == n0.(inputs := Redirect(n0.inputs, writers, opt), outputs := Redirect(n0.outputs, readers, opt))
    requires mid == if read then n.(outputs := Redirect(n.outputs, {o}, opt)) else n
    requires n' == if written then mid.(inputs := Redirect(mid.inputs, {o}, opt)) else mid
    ensures n' == n0.(inputs := Redirect(n0.inputs, writers + (if written then {o} else {}), opt),
                      outputs := Redirect(n0.outputs, readers + (if read then {o} else {}), opt))
  {
    RedirectTwice(n0.inputs, writers, o, opt);
    RedirectTwice(n0.outputs, readers, o, opt);
    assert writers + {} == writers && readers + {} == readers;
  }

  /** One op's inputs and outputs redirected. */
  method RedirectOne(nodes0: map<NodeId, Node>, ops: seq<NodeId>, opt: NodeId, i: nat, nodes: map<NodeId, Node>)
    returns (r: map<NodeId, Node>)
    requires i < |ops| && OptOps(nodes0, ops) && RedirectedUpTo(nodes0, ops, opt, i, nodes)
    ensures RedirectedUpTo(nodes0, ops, opt, i + 1, r)
  {
    var o := ops[i];
    assert o in ops;
    var afterIns := ReplaceOp(nodes, nodes0[o].inputs, o, opt, true);
    r := ReplaceOp(afterIns, nodes0[o].outputs, o, opt, false);
    forall k | k in nodes0
      ensures r[k] == nodes0[k].(inputs := Redirect(nodes0[k].inputs, Writers(nodes0, ops[..i + 1], k), opt),
                                 outputs := Redirect(nodes0[k].outputs, Readers(nodes0, ops[..i + 1], k), opt))
    {
      ReadersStep(nodes0, ops, i, k);
      RedirectNodeStep(nodes0[k], nodes[k], afterIns[k], r[k], Writers(nodes0, ops[..i], k),
                       Readers(nodes0, ops[..i], k), o, opt, k in nodes0[o].inputs, k in nodes0[o].outputs);
    }
  }

  /** The loop of lines 224-235 over the ops. */
  method RedirectAll(nodes0: map<NodeId, Node>, ops: seq<NodeId>, opt: NodeId) returns (nodes: map<NodeId, Node>)
    requires OptOps(nodes0, ops)
    ensures nodes == Redirected(nodes0, ops, opt)
  {
    nodes := nodes0;
    var i := 0;
    assert RedirectedUpTo(nodes0, ops, opt, 0, nodes) by {
      assert ops[..0] == [];
    }
    while i < |ops|
      invariant i <= |ops| && RedirectedUpTo(nodes0, ops, opt, i, nodes)
    {
      nodes := RedirectOne(nodes0, ops, opt, i, nodes);
      i := i + 1;
    }
    assert ops[..i] == ops;
  }

  /** Lists a set, each member once, in an unspecified order. */
  method Enumerate(s: set<NodeId>) returns (q: seq<NodeId>)
    ensures Members(q) == s && NoDuplicates(q)
  {
    q := [];
    var rest := s;
    while rest != {}
      invariant Members(q) + rest == s && Members(q) * rest == {} && NoDuplicates(q)
      decreases |rest|
    {
      var x :| x in rest;
      assert x !in Members(q);
      MembersSnoc(q, x);
      NoDuplicatesSnoc(q, x);
      q := q + [x];
      rest := rest - {x};
    }
  }

  /** InserInputAndOutputForOptOps (lines 220-240): every variable the ops
    * read or write lists the fused node in their place, and the fused node
    * gets the inputs and the outputs of all the ops, each once, in front of
    * its own, in the order returned. */
  method InserInputAndOutputForOptOps(g: Graph, optOps: seq<NodeId>, optNode: NodeId)
    returns (ins: seq<NodeId>, outs: seq<NodeId>)
    requires g.Valid() && optNode in g.nodes && OptOps(g.nodes, optOps)
    modifies g
    ensures g.Valid() && g.descs == old(g.descs) && g.nextId == old(g.nextId)
    ensures Members(ins) == InputsOf(old(g.nodes), optOps) && NoDuplicates(ins)
    ensures Members(outs) == OutputsOf(old(g.nodes), optOps) && NoDuplicates(outs)
    ensures g.nodes == FusedInto(old(g.nodes), optOps, optNode, ins, outs)
  {
    var nodes0 := g.nodes;
    var nodes := RedirectAll(nodes0, optOps, optNode);
    ins := Enumerate(InputsOf(nodes0, optOps));
    outs := Enumerate(OutputsOf(nodes0, optOps));
    nodes := nodes[optNode := nodes[optNode].(inputs := ins + nodes[optNode].inputs,
                                              outputs := outs + nodes[optNode].outputs)];
    g.nodes := nodes;
    assert forall k :: k in nodes ==> nodes[k].nodeType == nodes0[k].nodeType;
  }
}
