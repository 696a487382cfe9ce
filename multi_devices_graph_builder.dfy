/** framework/details/multi_devices_graph_builder.cc: the program's block 0
  * is replicated on every place. Each operator becomes one computation
  * handle per place reading the latest versions of its inputs and writing
  * new versions of its outputs; the loss gets a ScaleLossGrad handle per
  * place, after which the builder is in backward mode, where every
  * parameter gradient is gathered and all-reduced across the places once.
  * The graph is then polished for data hazards and its leaf operators get
  * dummy outputs. */
module MultiDevGraphBuilder {
  import opened Wrappers
  import opened SSAGraphs
  import opened SSAGraphBuilder
  import VarNames

  /** An operator of the program: its type and the argument names of its
    * inputs and outputs (InputArgumentNames, OutputArgumentNames). */
  datatype ProgramOp = ProgramOp(opType: string, inputs: seq<string>, outputs: seq<string>)

  /** The operator handle types the builder creates besides computations. */
  const ScaleLossGradType: string := "scale_loss_grad"
  const AllGatherType: string := "all_gather"
  const AllReduceType: string := "all_reduce"

  /** The builder's fields: the number of places, the loss variable and the
    * parameter gradient names. */
  datatype Config = Config(places: nat, loss: string, gradNames: set<string>)

  /** The builder state carried from one program operator to the next:
    * the graph, is_forwarding and og_has_been_broadcast. */
  datatype BuildState = BuildState(g: Graph, forwarding: bool, broadcast: set<string>)

  /** Every version after the first of a (place, name) list has a
    * generator: only CreateOrGetLatestVarHandle creates ungenerated
    * versions, and only as version 0. */
  predicate LaterWritten(g: Graph)
  {
    forall p, n, k :: 0 <= p < |g.versions| && n in g.versions[p] && 1 <= k < |g.versions[p][n]| ==>
      g.versions[p][n][k] < |g.vars| && g.vars[g.versions[p][n][k]].generator.Some?
  }

  /** The shape every intermediate graph of Build has. */
  predicate Wellformed(g: Graph)
  {
    GraphValid(g) && Numbered(g) && LaterWritten(g)
  }

  // ---------------------------------------------------------------------
  // Frame lemmas for the graph primitives

  lemma NewOpKeeps(g: Graph, opType: string)
    requires Wellformed(g)
    ensures Wellformed(NewOp(g, opType))
  {
    var r := NewOp(g, opType);
    forall u | 0 <= u < |r.vars|
      ensures VarInRange(r.vars[u], |r.ops|)
    {
      assert VarInRange(g.vars[u], |g.ops|);
    }
    forall q | 0 <= q < |r.ops|
      ensures OpInRange(r.ops[q], |r.vars|)
    {
      if q < |g.ops| {
        assert OpInRange(g.ops[q], |g.vars|);
      }
    }
  }

  lemma ReadKeeps(g: Graph, o: OpId, name: string, p: nat)
    requires Wellformed(g) && o < |g.ops| && p < |g.versions|
    ensures var (g1, v) := LatestVersion(g, p, name);
      v < |g1.vars| && ReadOne(g, o, name, p) == WithInput(g1, o, v) && Wellformed(ReadOne(g, o, name, p))
  {
    var (g1, v) := LatestVersion(g, p, name);
    LatestVersionSpec(g, p, name);
    EdgesKeepValid(g1, o, v, Dummy);
    var r := WithInput(g1, o, v);
    assert forall u :: 0 <= u < |g1.vars| ==> r.vars[u].kind == g1.vars[u].kind && r.vars[u].generator == g1.vars[u].generator;
    if VersionsOf(g, p, name) == [] {
      forall p', n, k | 0 <= p' < |g1.versions| && n in g1.versions[p'] && 1 <= k < |g1.versions[p'][n]|
        ensures g1.versions[p'][n][k] < |g1.vars| && g1.vars[g1.versions[p'][n][k]].generator.Some?
      {
        assert p' != p || n != name;
        assert g1.versions[p'][n] == g.versions[p'][n];
        assert g1.vars[g.versions[p'][n][k]] == g.vars[g.versions[p'][n][k]];
      }
    }
  }

  lemma OutputKeeps(g: Graph, o: OpId, name: string, p: nat)
    requires Wellformed(g) && o < |g.ops| && p < |g.versions|
    ensures Wellformed(OpOutput(g, o, name, p))
  {
    var r := OpOutput(g, o, name, p);
    OpOutputSpec(g, o, name, p);
    forall p', n, k | 0 <= p' < |r.versions| && n in r.versions[p'] && 1 <= k < |r.versions[p'][n]|
      ensures r.versions[p'][n][k] < |r.vars| && r.vars[r.versions[p'][n][k]].generator.Some?
    {
      if p' == p && n == name && k == |r.versions[p'][n]| - 1 {
      } else {
        assert r.versions[p'][n][k] in g.versions[p'][n];
        assert r.versions[p'][n][k] == g.versions[p'][n][k];
        assert r.vars[g.versions[p'][n][k]] == g.vars[g.versions[p'][n][k]];
      }
    }
  }

  // ---------------------------------------------------------------------
  // The graph Build produces, one step at a time

  /** CreateOrGetLatestVarHandle followed by op_handle->AddInput. (The
    * handle LatestVersion hands out always exists in a well-formed graph;
    * the guard only keeps this function total.) */
  function ReadOne(g: Graph, o: OpId, name: string, p: nat): (r: Graph)
    requires o < |g.ops| && p < |g.versions|
    ensures |r.ops| == |g.ops| && |r.versions| == |g.versions|
  {
    var (g1, v) := LatestVersion(g, p, name);
    if v < |g1.vars| then WithInput(g1, o, v) else g1
  }

  /** The inputs of a computation, in argument order. */
  function ReadInputs(g: Graph, o: OpId, names: seq<string>, p: nat): (r: Graph)
    requires o < |g.ops| && p < |g.versions|
    ensures |r.ops| == |g.ops| && |r.versions| == |g.versions|
  {
    if names == [] then g else ReadOne(ReadInputs(g, o, names[..|names| - 1], p), o, names[|names| - 1], p)
  }

  /** CreateOpOutput for every output name, in argument order. */
  function WriteOutputs(g: Graph, o: OpId, names: seq<string>, p: nat): (r: Graph)
    requires o < |g.ops| && p < |g.versions|
    ensures |r.ops| == |g.ops| && |r.versions| == |g.versions|
  {
    if names == [] then g else OpOutput(WriteOutputs(g, o, names[..|names| - 1], p), o, names[|names| - 1], p)
  }

  /** The ComputationOpHandle of `op` on place `p`. */
  function Compute(g: Graph, op: ProgramOp, p: nat): (r: Graph)
    requires p < |g.versions|
    ensures |r.ops| == |g.ops| + 1 && |r.versions| == |g.versions|
  {
    var o := |g.ops|;
    WriteOutputs(ReadInputs(NewOp(g, op.opType), o, op.inputs, p), o, op.outputs, p)
  }

  /** The ScaleLossGradOpHandle on place `p`: no input, and the next version
    * of the loss gradient as output. */
  function ScaleLoss(g: Graph, loss: string, p: nat): (r: Graph)
    requires p < |g.versions|
    ensures |r.ops| == |g.ops| + 1 && |r.versions| == |g.versions|
  {
    OpOutput(NewOp(g, ScaleLossGradType), |g.ops|, VarNames.GradVarName(loss), p)
  }

  /** The body of the loop over places for place `p`: the computation,
    * followed by a ScaleLossGrad handle when `scale` holds. */
  function PlaceStep(g: Graph, op: ProgramOp, p: nat, scale: bool, loss: string): (r: Graph)
    requires p < |g.versions|
    ensures |r.versions| == |g.versions|
  {
    var g1 := Compute(g, op, p);
    if scale then ScaleLoss(g1, loss, p) else g1
  }

  /** The graphs the loop over places goes through for the first `n`
    * places: element k is the graph before place k. */
  function Places(g: Graph, op: ProgramOp, n: nat, scale: bool, loss: string): (t: seq<Graph>)
    requires n <= |g.versions|
    ensures |t| == n + 1 && t[0] == g && forall k :: 0 <= k <= n ==> |t[k].versions| == |g.versions|
  {
    if n == 0 then [g]
    else
      var t := Places(g, op, n - 1, scale, loss);
      t + [PlaceStep(t[n - 1], op, n - 1, scale, loss)]
  }

  /** The loop over places for the first `n` places. */
  function OnPlaces(g: Graph, op: ProgramOp, n: nat, scale: bool, loss: string): (r: Graph)
    requires n <= |g.versions|
    ensures |r.versions| == |g.versions|
  {
    Places(g, op, n, scale, loss)[n]
  }

  /** One more place appends its handles to the graph of the places before
    * it. */
  lemma OnPlacesStep(g: Graph, op: ProgramOp, n: nat, scale: bool, loss: string)
    requires 0 < n <= |g.versions|
    ensures OnPlaces(g, op, n, scale, loss) == PlaceStep(OnPlaces(g, op, n - 1, scale, loss), op, n - 1, scale, loss)
  {
  }

  /** One collective handle on place `p` for gradient `og`: a place with no
    * version of `og` is skipped; otherwise the handle reads the latest
    * version and writes the next. */
  function CollectOn(g: Graph, o: OpId, og: string, p: nat): (r: Graph)
    requires o < |g.ops| && p < |g.versions|
    ensures |r.ops| == |g.ops| && |r.versions| == |g.versions|
  {
    if VersionsOf(g, p, og) == [] then g else OpOutput(ReadOne(g, o, og, p), o, og, p)
  }

  /** The gather loop over the first `n` places: an AllGatherOpHandle per
    * place, collecting on the places that have the gradient. */
  function Gather(g: Graph, og: string, n: nat): (r: Graph)
    requires n <= |g.versions|
    ensures |r.ops| == |g.ops| + n && |r.versions| == |g.versions|
  {
    if n == 0 then g else GatherOn(Gather(g, og, n - 1), og, n - 1)
  }

  /** One AllGatherOpHandle, collecting on place `p`. */
  function GatherOn(g: Graph, og: string, p: nat): (r: Graph)
    requires p < |g.versions|
    ensures |r.ops| == |g.ops| + 1 && |r.versions| == |g.versions|
  {
    CollectOn(NewOp(g, AllGatherType), |g.ops|, og, p)
  }

  /** The reduce loop over the first `n` places: the AllReduceOpHandle `o`
    * collects on every place that has the gradient. */
  function Reduce(g: Graph, o: OpId, og: string, n: nat): (r: Graph)
    requires o < |g.ops| && n <= |g.versions|
    ensures |r.ops| == |g.ops| && |r.versions| == |g.versions|
  {
    if n == 0 then g else CollectOn(Reduce(g, o, og, n - 1), o, og, n - 1)
  }

  /** The collectives for one parameter gradient: the gathers, then one
    * all-reduce over every place. */
  function Broadcast(g: Graph, og: string): (r: Graph)
    ensures |r.ops| == |g.ops| + |g.versions| + 1 && |r.versions| == |g.versions|
  {
    var g1 := Gather(g, og, |g.versions|);
    Reduce(NewOp(g1, AllReduceType), |g1.ops|, og, |g.versions|)
  }

  /** The loop over the outputs in backward mode: every parameter gradient
    * not broadcast yet is marked and broadcast. */
  function Grads(s: BuildState, outs: seq<string>, gradNames: set<string>): (r: BuildState)
    ensures |r.g.versions| == |s.g.versions| && r.forwarding == s.forwarding
  {
    if outs == [] then s
    else
      var s1 := Grads(s, outs[..|outs| - 1], gradNames);
      var og := outs[|outs| - 1];
      if og in gradNames && og !in s1.broadcast then
        s1.(g := Broadcast(s1.g, og), broadcast := s1.broadcast + {og})
      else s1
  }

  /** One program operator: dropped if it is the backward fill of the loss
    * gradient; otherwise replicated on every place (with the ScaleLossGrad
    * handles if it produces the loss while forwarding), after which the
    * builder may switch to backward mode and then broadcasts the parameter
    * gradients it outputs. */
  function Step(c: Config, s: BuildState, op: ProgramOp): (r: BuildState)
    requires |s.g.versions| == c.places
    ensures |r.g.versions| == c.places
  {
    if !s.forwarding && op.outputs == [VarNames.GradVarName(c.loss)] then s
    else
      var scale := s.forwarding && op.outputs == [c.loss];
      var g1 := OnPlaces(s.g, op, c.places, scale, c.loss);
      var forwarding := s.forwarding && !(scale && c.places > 0);
      var s1 := BuildState(g1, forwarding, s.broadcast);
      if forwarding then s1 else Grads(s1, op.outputs, c.gradNames)
  }

  /** The state after the first |ops| operators of the program. */
  function Steps(c: Config, ops: seq<ProgramOp>): (r: BuildState)
    ensures |r.g.versions| == c.places
  {
    if ops == [] then BuildState(Graph([], [], seq(c.places, p => map[]), {}), true, {})
    else Step(c, Steps(c, ops[..|ops| - 1]), ops[|ops| - 1])
  }

  // ---------------------------------------------------------------------
  // Every intermediate graph of Build is well-formed

  lemma {:induction false} ReadInputsKeeps(g: Graph, o: OpId, names: seq<string>, p: nat)
    requires Wellformed(g) && o < |g.ops| && p < |g.versions|
    ensures Wellformed(ReadInputs(g, o, names, p))
    decreases |names|
  {
    if names != [] {
      ReadInputsKeeps(g, o, names[..|names| - 1], p);
      ReadKeeps(ReadInputs(g, o, names[..|names| - 1], p), o, names[|names| - 1], p);
    }
  }

  lemma {:induction false} WriteOutputsKeeps(g: Graph, o: OpId, names: seq<string>, p: nat)
    requires Wellformed(g) && o < |g.ops| && p < |g.versions|
    ensures Wellformed(WriteOutputs(g, o, names, p))
    decreases |names|
  {
    if names != [] {
      WriteOutputsKeeps(g, o, names[..|names| - 1], p);
      OutputKeeps(WriteOutputs(g, o, names[..|names| - 1], p), o, names[|names| - 1], p);
    }
  }

  lemma ComputeKeeps(g: Graph, op: ProgramOp, p: nat)
    requires Wellformed(g) && p < |g.versions|
    ensures Wellformed(Compute(g, op, p))
  {
    var g1 := NewOp(g, op.opType);
    assert Wellformed(g1) by { NewOpKeeps(g, op.opType); }
    var g2 := ReadInputs(g1, |g.ops|, op.inputs, p);
    assert Wellformed(g2) by { ReadInputsKeeps(g1, |g.ops|, op.inputs, p); }
    WriteOutputsKeeps(g2, |g.ops|, op.outputs, p);
  }

  lemma ScaleLossKeeps(g: Graph, loss: string, p: nat)
    requires Wellformed(g) && p < |g.versions|
    ensures Wellformed(ScaleLoss(g, loss, p))
  {
    NewOpKeeps(g, ScaleLossGradType);
    OutputKeeps(NewOp(g, ScaleLossGradType), |g.ops|, VarNames.GradVarName(loss), p);
  }

  lemma PlaceStepKeeps(g: Graph, op: ProgramOp, p: nat, scale: bool, loss: string)
    requires Wellformed(g) && p < |g.versions|
    ensures Wellformed(PlaceStep(g, op, p, scale, loss))
  {
    ComputeKeeps(g, op, p);
    if scale {
      ScaleLossKeeps(Compute(g, op, p), loss, p);
    }
  }

  lemma CollectOnKeeps(g: Graph, o: OpId, og: string, p: nat)
    requires Wellformed(g) && o < |g.ops| && p < |g.versions|
    ensures Wellformed(CollectOn(g, o, og, p))
  {
    if VersionsOf(g, p, og) != [] {
      ReadKeeps(g, o, og, p);
      OutputKeeps(ReadOne(g, o, og, p), o, og, p);
    }
  }

  /** Every later version is generated, so the hazard pass never meets a
    * missing writer. */
  lemma LaterWrittenHasWriters(g: Graph)
    requires LaterWritten(g)
    ensures WritersExist(g)
  {
  }

  // ---------------------------------------------------------------------
  // What one computation handle reads and writes

  /** The version CreateOrGetLatestVarHandle hands out for `name` on `p`:
    * the newest one, or the version 0 it creates. */
  function Latest(g: Graph, p: nat, name: string): nat
    requires p < |g.versions|
  {
    if VersionsOf(g, p, name) == [] then 0 else |VersionsOf(g, p, name)| - 1
  }

  /** A read hands out the newest version of the name (creating version 0
    * when there is none) and appends it to the operator's inputs; it never
    * adds a version to a list that has one, and changes no operator but
    * `o` and no handle's kind or generator. */
  lemma ReadOneSpec(g: Graph, o: OpId, name: string, p: nat)
    requires Wellformed(g) && o < |g.ops| && p < |g.versions|
    ensures var r := ReadOne(g, o, name, p); var v := LatestVersion(g, p, name).1;
      v < |r.vars| && r.vars[v].kind == Versioned(name, Latest(g, p, name), p) &&
      r.ops[o] == g.ops[o].(inputs := g.ops[o].inputs + [v]) &&
      (forall q :: 0 <= q < |g.ops| && q != o ==> r.ops[q] == g.ops[q]) &&
      |g.vars| <= |r.vars| &&
      (forall x :: 0 <= x < |g.vars| ==> r.vars[x].kind == g.vars[x].kind && r.vars[x].generator == g.vars[x].generator)
    ensures var r := ReadOne(g, o, name, p);
      forall q, n :: 0 <= q < |g.versions| ==>
        (VersionsOf(g, q, n) != [] ==> VersionsOf(r, q, n) == VersionsOf(g, q, n)) &&
        |VersionsOf(r, q, n)| == if q == p && n == name && VersionsOf(g, q, n) == [] then 1 else |VersionsOf(g, q, n)|
  {
    var (g1, v) := LatestVersion(g, p, name);
    LatestVersionSpec(g, p, name);
    ReadKeeps(g, o, name, p);
    if VersionsOf(g, p, name) == [] {
      forall q, n | 0 <= q < |g.versions| && (q != p || n != name)
        ensures VersionsOf(g1, q, n) == VersionsOf(g, q, n)
      {
      }
    }
  }

  /** A read changes no operator but `o`, whose type and outputs it keeps,
    * and no existing handle's kind or generator. */
  lemma ReadOneFrame(g: Graph, o: OpId, name: string, p: nat)
    requires o < |g.ops| && p < |g.versions|
    ensures var r := ReadOne(g, o, name, p);
      r.ops[o].opType == g.ops[o].opType && r.ops[o].outputs == g.ops[o].outputs &&
      (forall q :: 0 <= q < |g.ops| && q != o ==> r.ops[q] == g.ops[q]) &&
      |g.vars| <= |r.vars| &&
      (forall x :: 0 <= x < |g.vars| ==> r.vars[x].kind == g.vars[x].kind && r.vars[x].generator == g.vars[x].generator)
  {
  }

  /** The reads of a computation keep the type and outputs of `o` and
    * change no other operator and no existing handle's kind or generator. */
  lemma {:induction false} ReadInputsFrame(g: Graph, o: OpId, names: seq<string>, p: nat)
    requires o < |g.ops| && p < |g.versions|
    ensures var r := ReadInputs(g, o, names, p);
      r.ops[o].opType == g.ops[o].opType && r.ops[o].outputs == g.ops[o].outputs &&
      (forall q :: 0 <= q < |g.ops| && q != o ==> r.ops[q] == g.ops[q]) &&
      |g.vars| <= |r.vars| &&
      (forall x :: 0 <= x < |g.vars| ==> r.vars[x].kind == g.vars[x].kind && r.vars[x].generator == g.vars[x].generator)
    decreases |names|
  {
    if names != [] {
      var front := names[..|names| - 1];
      ReadInputsFrame(g, o, front, p);
      ReadOneFrame(ReadInputs(g, o, front, p), o, names[|names| - 1], p);
    }
  }

  /** The reads of a computation append one input per name to `o`, which
    * keeps its type and outputs; no other operator changes, and no
    * existing handle changes kind or generator. */
  lemma {:induction false} ReadInputsShape(g: Graph, o: OpId, names: seq<string>, p: nat)
    requires Wellformed(g) && o < |g.ops| && p < |g.versions|
    ensures var r := ReadInputs(g, o, names, p); var base := |g.ops[o].inputs|;
      r.ops[o].opType == g.ops[o].opType && r.ops[o].outputs == g.ops[o].outputs &&
      |r.ops[o].inputs| == base + |names| && r.ops[o].inputs[..base] == g.ops[o].inputs &&
      (forall q :: 0 <= q < |g.ops| && q != o ==> r.ops[q] == g.ops[q]) &&
      |g.vars| <= |r.vars| &&
      (forall x :: 0 <= x < |g.vars| ==> r.vars[x].kind == g.vars[x].kind && r.vars[x].generator == g.vars[x].generator)
    decreases |names|
  {
    if names != [] {
      var front, name := names[..|names| - 1], names[|names| - 1];
      var r1 := ReadInputs(g, o, front, p);
      ReadInputsKeeps(g, o, front, p);
      ReadInputsShape(g, o, front, p);
      ReadOneSpec(r1, o, name, p);
      var base := |g.ops[o].inputs|;
      assert ReadInputs(g, o, names, p).ops[o].inputs[..base] == r1.ops[o].inputs[..base];
    }
  }

  /** Only names without a version gain one, version 0, and a list that
    * has versions keeps them. */
  lemma {:induction false} ReadInputsVersions(g: Graph, o: OpId, names: seq<string>, p: nat)
    requires Wellformed(g) && o < |g.ops| && p < |g.versions|
    ensures var r := ReadInputs(g, o, names, p);
      forall q, n :: 0 <= q < |g.versions| ==>
        (VersionsOf(g, q, n) != [] ==> VersionsOf(r, q, n) == VersionsOf(g, q, n)) &&
        |VersionsOf(r, q, n)| == if q == p && n in names && VersionsOf(g, q, n) == [] then 1 else |VersionsOf(g, q, n)|
    decreases |names|
  {
    if names != [] {
      var front, name := names[..|names| - 1], names[|names| - 1];
      var r1 := ReadInputs(g, o, front, p);
      ReadInputsKeeps(g, o, front, p);
      ReadInputsVersions(g, o, front, p);
      ReadOneSpec(r1, o, name, p);
      assert forall n :: n in names <==> n in front || n == name;
    }
  }

  /** One more read after `front`: it appends the version Latest hands
    * out on `g` itself, and changes the kind of no existing handle. */
  lemma ReadStep(g: Graph, o: OpId, front: seq<string>, name: string, p: nat)
    requires Wellformed(g) && o < |g.ops| && p < |g.versions|
    ensures var r1 := ReadInputs(g, o, front, p); var r := ReadInputs(g, o, front + [name], p);
      var v := LatestVersion(r1, p, name).1;
      r.ops[o].inputs == r1.ops[o].inputs + [v] && v < |r.vars| &&
      r.vars[v].kind == Versioned(name, Latest(g, p, name), p)
    ensures var r1 := ReadInputs(g, o, front, p); var r := ReadInputs(g, o, front + [name], p);
      |r1.vars| <= |r.vars| && forall x :: 0 <= x < |r1.vars| ==> r.vars[x].kind == r1.vars[x].kind
  {
    var names := front + [name];
    assert names[..|names| - 1] == front;
    var r1 := ReadInputs(g, o, front, p);
    ReadInputsKeeps(g, o, front, p);
    ReadOneSpec(r1, o, name, p);
    ReadInputsVersions(g, o, front, p);
    if VersionsOf(g, p, name) != [] {
      assert VersionsOf(r1, p, name) == VersionsOf(g, p, name);
    } else {
      assert |VersionsOf(r1, p, name)| <= 1;
    }
    assert Latest(r1, p, name) == Latest(g, p, name);
    var r := ReadInputs(g, o, names, p);
    assert r == ReadOne(r1, o, name, p);
    var v := LatestVersion(r1, p, name).1;
    assert r.ops[o].inputs == r1.ops[o].inputs + [v] && 0 <= v < |r.vars|;
    assert r.vars[v].kind == Versioned(name, Latest(g, p, name), p);
  }

  /** Input j of the computation is the version Latest hands out for the
    * j-th name on the place: reads earlier in the list do not change it. */
  lemma {:induction false} ReadInputLatest(g: Graph, o: OpId, names: seq<string>, p: nat, j: nat)
    requires Wellformed(g) && o < |g.ops| && p < |g.versions| && j < |names|
    ensures var ins := ReadInputs(g, o, names, p).ops[o].inputs;
      |g.ops[o].inputs| + j < |ins| && ins[|g.ops[o].inputs| + j] < |ReadInputs(g, o, names, p).vars| &&
      ReadInputs(g, o, names, p).vars[ins[|g.ops[o].inputs| + j]].kind == Versioned(names[j], Latest(g, p, names[j]), p)
    decreases |names|
  {
    var front, name := names[..|names| - 1], names[|names| - 1];
    assert names == front + [name];
    var r1 := ReadInputs(g, o, front, p);
    var r := ReadInputs(g, o, names, p);
    var base := |g.ops[o].inputs|;
    ReadStep(g, o, front, name, p);
    var v := LatestVersion(r1, p, name).1;
    ReadInputsShape(g, o, front, p);
    if j < |front| {
      ReadInputLatest(g, o, front, p, j);
      var x := r1.ops[o].inputs[base + j];
      assert r.ops[o].inputs[base + j] == x;
      assert r.vars[x].kind == r1.vars[x].kind;
      assert names[j] == front[j];
    } else {
      assert r.ops[o].inputs[base + j] == v && names[j] == name;
    }
  }

  /** The writes of a computation append one new handle per output name,
    * numbered from the current end of the handle list, as outputs of `o`;
    * no other operator, no existing handle and no other place's variable
    * table changes. */
  lemma {:induction false} WriteOutputsShape(g: Graph, o: OpId, names: seq<string>, p: nat)
    requires o < |g.ops| && p < |g.versions|
    ensures var r := WriteOutputs(g, o, names, p);
      |r.vars| == |g.vars| + |names| && r.vars[..|g.vars|] == g.vars &&
      r.ops[o] == g.ops[o].(outputs := g.ops[o].outputs + seq(|names|, j => |g.vars| + j)) &&
      (forall q :: 0 <= q < |g.ops| && q != o ==> r.ops[q] == g.ops[q]) &&
      (forall q :: 0 <= q < |g.versions| && q != p ==> r.versions[q] == g.versions[q]) &&
      r.depVars == g.depVars
    decreases |names|
  {
    if names != [] {
      var front := names[..|names| - 1];
      var r1 := WriteOutputs(g, o, front, p);
      WriteOutputsShape(g, o, front, p);
      var r := WriteOutputs(g, o, names, p);
      assert r.vars[..|r1.vars|] == r1.vars;
      assert r.vars[..|g.vars|] == r1.vars[..|g.vars|];
      assert seq(|front|, j => |g.vars| + j) + [|r1.vars|] == seq(|names|, j => |g.vars| + j);
    }
  }

  /** After the writes, the name has one more version per time it is
    * written. */
  lemma {:induction false} WriteOutputsCount(g: Graph, o: OpId, names: seq<string>, p: nat, n: string)
    requires o < |g.ops| && p < |g.versions|
    ensures |VersionsOf(WriteOutputs(g, o, names, p), p, n)| == |VersionsOf(g, p, n)| + multiset(names)[n]
    decreases |names|
  {
    if names != [] {
      var front, last := names[..|names| - 1], names[|names| - 1];
      var r1 := WriteOutputs(g, o, front, p);
      WriteOutputsCount(g, o, front, p, n);
      OutputVersions(r1, o, last, p, n);
      assert WriteOutputs(g, o, names, p) == OpOutput(r1, o, last, p);
      CountSnoc(front, last, n);
      assert names == front + [last];
    }
  }

  lemma CountSnoc(s: seq<string>, x: string, n: string)
    ensures multiset(s + [x])[n] == multiset(s)[n] + (if n == x then 1 else 0)
  {
    assert multiset(s + [x]) == multiset(s) + multiset{x};
  }

  /** One CreateOpOutput adds a version to the list of its own name and
    * leaves every other list as it was. */
  lemma OutputVersions(g: Graph, o: OpId, name: string, p: nat, n: string)
    requires o < |g.ops| && p < |g.versions|
    ensures |VersionsOf(OpOutput(g, o, name, p), p, n)| == |VersionsOf(g, p, n)| + (if n == name then 1 else 0)
  {
  }

  /** Output j is a fresh handle of the j-th name on the place, generated
    * by `o`, whose version counts the versions before it: the existing ones
    * and the earlier writes of the same name. */
  lemma {:induction false} WriteOutputVar(g: Graph, o: OpId, names: seq<string>, p: nat, j: nat)
    requires o < |g.ops| && p < |g.versions| && j < |names|
    ensures |g.vars| + j < |WriteOutputs(g, o, names, p).vars|
    ensures WriteOutputs(g, o, names, p).vars[|g.vars| + j] ==
      VarNode(Versioned(names[j], |VersionsOf(g, p, names[j])| + multiset(names[..j])[names[j]], p), Some(o), {})
    decreases |names|
  {
    var front, name := names[..|names| - 1], names[|names| - 1];
    var r1 := WriteOutputs(g, o, front, p);
    var r := WriteOutputs(g, o, names, p);
    WriteOutputsShape(g, o, front, p);
    if j < |front| {
      WriteOutputVar(g, o, front, p, j);
      assert names[j] == front[j] && names[..j] == front[..j];
      assert r.vars[|g.vars| + j] == r1.vars[|g.vars| + j];
    } else {
      WriteOutputsCount(g, o, front, p, name);
      assert names[..j] == front;
    }
  }

  // ---------------------------------------------------------------------
  // What one computation handle and one ScaleLossGrad handle add

  /** `r` only adds to `g`: operators and handles are appended, the existing
    * operators are untouched and the existing handles keep their kind and
    * generator. */
  predicate Extends(g: Graph, r: Graph)
  {
    |r.versions| == |g.versions| && |g.ops| <= |r.ops| && |g.vars| <= |r.vars| &&
    (forall q :: 0 <= q < |g.ops| ==> r.ops[q] == g.ops[q]) &&
    (forall x :: 0 <= x < |g.vars| ==> r.vars[x].kind == g.vars[x].kind && r.vars[x].generator == g.vars[x].generator)
  }

  /** The number of versions of `n` on `p` once the inputs `ins` have been
    * read: a read of a name without versions creates version 0. */
  function VersionsAfterReads(g: Graph, p: nat, n: string, ins: seq<string>): nat
    requires p < |g.versions|
  {
    if VersionsOf(g, p, n) == [] && n in ins then 1 else |VersionsOf(g, p, n)|
  }

  /** The computation handle is appended as operator |g.ops|, of the
    * operator's type; output j is a new handle of the j-th output name on
    * the place, generated by the computation; nothing that existed
    * changes. */
  lemma ComputeSpec(g: Graph, op: ProgramOp, p: nat)
    requires p < |g.versions|
    ensures var r := Compute(g, op, p); var o := |g.ops|;
      Extends(g, r) && r.ops[o].opType == op.opType && |r.ops[o].outputs| == |op.outputs| &&
      forall j :: 0 <= j < |op.outputs| ==>
        |g.vars| <= r.ops[o].outputs[j] < |r.vars| && OnPlace(r, r.ops[o].outputs[j], op.outputs[j], p) &&
        r.vars[r.ops[o].outputs[j]].generator == Some(o)
  {
    var o := |g.ops|;
    var g1 := NewOp(g, op.opType);
    ReadInputsFrame(g1, o, op.inputs, p);
    var g2 := ReadInputs(g1, o, op.inputs, p);
    WriteOutputsShape(g2, o, op.outputs, p);
    var r := Compute(g, op, p);
    forall j | 0 <= j < |op.outputs|
      ensures |g.vars| <= r.ops[o].outputs[j] < |r.vars| && OnPlace(r, r.ops[o].outputs[j], op.outputs[j], p) &&
        r.vars[r.ops[o].outputs[j]].generator == Some(o)
    {
      WriteOutputVar(g2, o, op.outputs, p, j);
    }
  }

  /** Input j of the computation handle is the latest version of the j-th
    * input name on the place (version 0 when the name had none). */
  lemma ComputeInput(g: Graph, op: ProgramOp, p: nat, j: nat)
    requires Wellformed(g) && p < |g.versions| && j < |op.inputs|
    ensures var r := Compute(g, op, p); var ins := r.ops[|g.ops|].inputs;
      |ins| == |op.inputs| && ins[j] < |r.vars| && r.vars[ins[j]].kind == Versioned(op.inputs[j], Latest(g, p, op.inputs[j]), p)
  {
    var o := |g.ops|;
    var g1 := NewOp(g, op.opType);
    NewOpKeeps(g, op.opType);
    ReadInputsShape(g1, o, op.inputs, p);
    ReadInputLatest(g1, o, op.inputs, p, j);
    var g2 := ReadInputs(g1, o, op.inputs, p);
    WriteOutputsShape(g2, o, op.outputs, p);
    var r := Compute(g, op, p);
    assert r.vars[..|g2.vars|] == g2.vars;
    assert VersionsOf(g1, p, op.inputs[j]) == VersionsOf(g, p, op.inputs[j]);
  }

  /** Output j of the computation handle is a new handle of the j-th output
    * name on the place, generated by the computation, whose version follows
    * every version before it: those that existed, one created by reading
    * the name, and the earlier outputs of the same name. */
  lemma ComputeOutput(g: Graph, op: ProgramOp, p: nat, j: nat)
    requires Wellformed(g) && p < |g.versions| && j < |op.outputs|
    ensures var r := Compute(g, op, p); var outs := r.ops[|g.ops|].outputs; var n := op.outputs[j];
      j < |outs| && |g.vars| <= outs[j] < |r.vars| &&
      r.vars[outs[j]] == VarNode(Versioned(n, VersionsAfterReads(g, p, n, op.inputs) + multiset(op.outputs[..j])[n], p), Some(|g.ops|), {})
  {
    var o := |g.ops|;
    var n := op.outputs[j];
    var g1 := NewOp(g, op.opType);
    NewOpKeeps(g, op.opType);
    ReadInputsShape(g1, o, op.inputs, p);
    ReadInputsVersions(g1, o, op.inputs, p);
    var g2 := ReadInputs(g1, o, op.inputs, p);
    WriteOutputsShape(g2, o, op.outputs, p);
    WriteOutputVar(g2, o, op.outputs, p, j);
    assert VersionsOf(g1, p, n) == VersionsOf(g, p, n);
    assert |VersionsOf(g2, p, n)| == VersionsAfterReads(g, p, n, op.inputs);
  }

  /** The ScaleLossGrad handle is appended as operator |g.ops|, without
    * inputs, and its one output is a new version of the loss gradient on
    * the place, generated by it; nothing that existed changes. */
  lemma ScaleLossSpec(g: Graph, loss: string, p: nat)
    requires p < |g.versions|
    ensures var r := ScaleLoss(g, loss, p); var o := |g.ops|;
      Extends(g, r) && r.ops[o].opType == ScaleLossGradType && r.ops[o].inputs == [] &&
      |r.ops[o].outputs| == 1 && r.ops[o].outputs[0] == |g.vars| &&
      r.vars[|g.vars|] == VarNode(Versioned(VarNames.GradVarName(loss), |VersionsOf(g, p, VarNames.GradVarName(loss))|, p), Some(o), {})
  {
  }

  /** Handle `v` of `r` is a version of `n` on place `i`. */
  predicate OnPlace(r: Graph, v: VarId, n: string, i: nat)
  {
    v < |r.vars| && r.vars[v].kind.Versioned? && r.vars[v].kind.name == n && r.vars[v].kind.scopeIdx == i
  }

  /** Operator `q` of `r` is the computation of `op` on place `i`: same
    * type, and its outputs are versions of the operator's output names on
    * that place, generated by it. */
  predicate Replica(r: Graph, q: OpId, op: ProgramOp, i: nat)
  {
    q < |r.ops| && r.ops[q].opType == op.opType && |r.ops[q].outputs| == |op.outputs| &&
    (forall j :: 0 <= j < |op.outputs| ==>
      OnPlace(r, r.ops[q].outputs[j], op.outputs[j], i) && r.vars[r.ops[q].outputs[j]].generator == Some(q))
  }

  /** Operator `q` of `r` is the ScaleLossGrad handle of place `i`: no
    * input, and one output, a version of the loss gradient on that place
    * generated by it. */
  predicate LossGrad(r: Graph, q: OpId, loss: string, i: nat)
  {
    q < |r.ops| && r.ops[q].opType == ScaleLossGradType && r.ops[q].inputs == [] && |r.ops[q].outputs| == 1 &&
    OnPlace(r, r.ops[q].outputs[0], VarNames.GradVarName(loss), i) && r.vars[r.ops[q].outputs[0]].generator == Some(q)
  }

  lemma ExtendsTrans(a: Graph, b: Graph, c: Graph)
    requires Extends(a, b) && Extends(b, c)
    ensures Extends(a, c)
  {
  }

  /** What an operator of `g` is stays true in any graph that extends `g`. */
  lemma ExtendsKeeps(g: Graph, r: Graph, q: OpId, op: ProgramOp, loss: string, i: nat)
    requires Extends(g, r)
    ensures Replica(g, q, op, i) ==> Replica(r, q, op, i)
    ensures LossGrad(g, q, loss, i) ==> LossGrad(r, q, loss, i)
  {
    if Replica(g, q, op, i) {
      forall j | 0 <= j < |op.outputs|
        ensures OnPlace(r, r.ops[q].outputs[j], op.outputs[j], i) && r.vars[r.ops[q].outputs[j]].generator == Some(q)
      {
        assert OnPlace(g, g.ops[q].outputs[j], op.outputs[j], i);
      }
    }
    if LossGrad(g, q, loss, i) {
      assert OnPlace(g, g.ops[q].outputs[0], VarNames.GradVarName(loss), i);
    }
  }

  /** The computation handle Compute appends is the replica of the operator
    * on the place. */
  lemma ComputeReplica(g: Graph, op: ProgramOp, p: nat)
    requires p < |g.versions|
    ensures Extends(g, Compute(g, op, p)) && Replica(Compute(g, op, p), |g.ops|, op, p)
  {
    ComputeSpec(g, op, p);
  }

  /** The loop over places adds one operator per place, two when the loss
    * gradient is scaled. */
  lemma OnPlacesCount(g: Graph, op: ProgramOp, n: nat, scale: bool, loss: string)
    requires n <= |g.versions|
    ensures |OnPlaces(g, op, n, scale, loss).ops| == |g.ops| + (if scale then 2 * n else n)
  {
    OnPlacesTrace(g, op, n, scale, loss);
    TraceCount(Places(g, op, n, scale, loss), op, scale, loss, n);
  }

  /** A ScaleLossGrad handle appended after an operator leaves what that
    * operator is unchanged. */
  lemma ScaleLossAfter(g: Graph, op: ProgramOp, loss: string, p: nat, q: OpId)
    requires p < |g.versions| && Replica(g, q, op, p)
    ensures var r := ScaleLoss(g, loss, p);
      Extends(g, r) && Replica(r, q, op, p) && LossGrad(r, |g.ops|, loss, p)
  {
    ScaleLossSpec(g, loss, p);
    ExtendsKeeps(g, ScaleLoss(g, loss, p), q, op, loss, p);
  }

  /** The handles of one place are appended to the graph: the
    * computation, and the ScaleLossGrad handle after it when scaled. */
  lemma PlaceAppended(g: Graph, op: ProgramOp, p: nat, scale: bool, loss: string)
    requires p < |g.versions|
    ensures var r := PlaceStep(g, op, p, scale, loss);
      Extends(g, r) && |r.ops| == |g.ops| + (if scale then 2 else 1) &&
      Replica(r, |g.ops|, op, p) && (scale ==> LossGrad(r, |g.ops| + 1, loss, p))
  {
    var g1 := Compute(g, op, p);
    ComputeReplica(g, op, p);
    if scale {
      ScaleLossAfter(g1, op, loss, p, |g.ops|);
      ExtendsTrans(g, g1, ScaleLoss(g1, loss, p));
    }
  }

  /** What the loop over places does at place `k`, read off the sequence
    * `t` of the graphs it goes through (t[k] is the graph before place
    * `k`). */
  predicate PlaceFacts(t: seq<Graph>, k: nat, op: ProgramOp, scale: bool, loss: string)
  {
    k + 1 < |t| && Extends(t[k], t[k + 1]) && |t[k + 1].ops| == |t[k].ops| + (if scale then 2 else 1) &&
    Replica(t[k + 1], |t[k].ops|, op, k) && (scale ==> LossGrad(t[k + 1], |t[k].ops| + 1, loss, k))
  }

  predicate PlacesTrace(t: seq<Graph>, op: ProgramOp, scale: bool, loss: string)
  {
    forall k :: 0 <= k < |t| - 1 ==> PlaceFacts(t, k, op, scale, loss)
  }

  /** A trace stays one when the graph appended after it has the facts of
    * its place. */
  lemma TraceSnoc(t: seq<Graph>, x: Graph, op: ProgramOp, scale: bool, loss: string)
    requires PlacesTrace(t, op, scale, loss) && |t| > 0
    requires var last := t[|t| - 1];
      Extends(last, x) && |x.ops| == |last.ops| + (if scale then 2 else 1) &&
      Replica(x, |last.ops|, op, |t| - 1) && (scale ==> LossGrad(x, |last.ops| + 1, loss, |t| - 1))
    ensures PlacesTrace(t + [x], op, scale, loss)
  {
    var t' := t + [x];
    assert t'[|t| - 1] == t[|t| - 1] && t'[|t|] == x;
    forall k | 0 <= k < |t'| - 1
      ensures PlaceFacts(t', k, op, scale, loss)
    {
      if k < |t| - 1 {
        assert PlaceFacts(t, k, op, scale, loss);
        assert t'[k] == t[k] && t'[k + 1] == t[k + 1];
      }
    }
  }

  lemma {:induction false} OnPlacesTrace(g: Graph, op: ProgramOp, n: nat, scale: bool, loss: string)
    requires n <= |g.versions|
    ensures PlacesTrace(Places(g, op, n, scale, loss), op, scale, loss)
  {
    if n > 0 {
      var t0 := Places(g, op, n - 1, scale, loss);
      OnPlacesTrace(g, op, n - 1, scale, loss);
      var x := PlaceStep(t0[n - 1], op, n - 1, scale, loss);
      PlaceAppended(t0[n - 1], op, n - 1, scale, loss);
      TraceSnoc(t0, x, op, scale, loss);
      assert Places(g, op, n, scale, loss) == t0 + [x];
    }
  }

  /** A later graph of the loop extends every earlier one. */
  lemma {:induction false} TraceExtends(t: seq<Graph>, op: ProgramOp, scale: bool, loss: string, a: nat, b: nat)
    requires PlacesTrace(t, op, scale, loss) && a <= b < |t|
    ensures Extends(t[a], t[b])
    decreases b - a
  {
    if a < b {
      assert PlaceFacts(t, b - 1, op, scale, loss);
      TraceExtends(t, op, scale, loss, a, b - 1);
      ExtendsTrans(t[a], t[b - 1], t[b]);
    }
  }

  lemma {:induction false} TraceCount(t: seq<Graph>, op: ProgramOp, scale: bool, loss: string, k: nat)
    requires PlacesTrace(t, op, scale, loss) && k < |t|
    ensures |t[k].ops| == |t[0].ops| + (if scale then 2 * k else k)
  {
    if k > 0 {
      assert PlaceFacts(t, k - 1, op, scale, loss);
      TraceCount(t, op, scale, loss, k - 1);
    }
  }

  /** The loop over places only adds to the graph. */
  lemma OnPlacesExtends(g: Graph, op: ProgramOp, n: nat, scale: bool, loss: string)
    requires n <= |g.versions|
    ensures Extends(g, OnPlaces(g, op, n, scale, loss))
  {
    OnPlacesTrace(g, op, n, scale, loss);
    TraceExtends(Places(g, op, n, scale, loss), op, scale, loss, 0, n);
  }

  /** The handles of place i stay what they are to the end of the loop. */
  lemma TraceReplica(t: seq<Graph>, op: ProgramOp, scale: bool, loss: string, i: nat)
    requires PlacesTrace(t, op, scale, loss) && i + 1 < |t|
    ensures var r := t[|t| - 1]; var q := |t[0].ops| + (if scale then 2 * i else i);
      Replica(r, q, op, i) && (scale ==> LossGrad(r, q + 1, loss, i))
  {
    var q := |t[0].ops| + (if scale then 2 * i else i);
    assert PlaceFacts(t, i, op, scale, loss);
    TraceCount(t, op, scale, loss, i);
    TraceExtends(t, op, scale, loss, i + 1, |t| - 1);
    ExtendsKeeps(t[i + 1], t[|t| - 1], q, op, loss, i);
    ExtendsKeeps(t[i + 1], t[|t| - 1], q + 1, op, loss, i);
  }

  /** Exactly one computation handle per place, in place order: the handles
    * for place i start at |g.ops| + 2 * i when the loss gradient is scaled
    * (the ScaleLossGrad handle of the place follows its computation) and
    * at |g.ops| + i otherwise. */
  lemma OnPlacesReplica(g: Graph, op: ProgramOp, n: nat, scale: bool, loss: string, i: nat)
    requires n <= |g.versions| && i < n
    ensures var r := OnPlaces(g, op, n, scale, loss); var q := |g.ops| + (if scale then 2 * i else i);
      Replica(r, q, op, i) && (scale ==> LossGrad(r, q + 1, loss, i))
  {
    OnPlacesTrace(g, op, n, scale, loss);
    TraceReplica(Places(g, op, n, scale, loss), op, scale, loss, i);
  }

  // ---------------------------------------------------------------------
  // Collectives and the backward switch

  /** A collective on a place without the gradient adds nothing; on a place
    * with it, the handle reads the newest version and writes the next one,
    * which becomes the newest. */
  lemma CollectOnSpec(g: Graph, o: OpId, og: string, p: nat)
    requires Wellformed(g) && o < |g.ops| && p < |g.versions|
    ensures VersionsOf(g, p, og) == [] ==> CollectOn(g, o, og, p) == g
    ensures var list := VersionsOf(g, p, og); var r := CollectOn(g, o, og, p);
      list != [] ==>
        r.ops[o].inputs == g.ops[o].inputs + [list[|list| - 1]] &&
        r.ops[o].outputs == g.ops[o].outputs + [|g.vars|] &&
        VersionsOf(r, p, og) == list + [|g.vars|] &&
        r.vars[|g.vars|] == VarNode(Versioned(og, |list|, p), Some(o), {})
  {
    var list := VersionsOf(g, p, og);
    if list != [] {
      LatestVersionSpec(g, p, og);
      ReadKeeps(g, o, og, p);
      var g1 := ReadOne(g, o, og, p);
      assert g1 == WithInput(g, o, list[|list| - 1]);
      assert VersionsOf(g1, p, og) == list;
      OpOutputSpec(g1, o, og, p);
    }
  }

  /** The loop over a backward operator's outputs marks exactly the
    * parameter gradients among them, and one already marked adds no
    * collective: when every such gradient was marked before, nothing
    * changes. */
  lemma {:induction false} GradsSpec(s: BuildState, outs: seq<string>, gradNames: set<string>)
    ensures var r := Grads(s, outs, gradNames);
      forall og :: og in r.broadcast <==> og in s.broadcast || (og in outs && og in gradNames)
    ensures (forall og :: og in outs && og in gradNames ==> og in s.broadcast) ==> Grads(s, outs, gradNames) == s
    decreases |outs|
  {
    if outs != [] {
      var front := outs[..|outs| - 1];
      GradsSpec(s, front, gradNames);
      assert outs == front + [outs[|outs| - 1]];
    }
  }

  /** Each parameter gradient is broadcast at most once: running the
    * outputs loop a second time over the same names adds nothing. */
  lemma GradsOnce(s: BuildState, outs: seq<string>, gradNames: set<string>)
    ensures Grads(Grads(s, outs, gradNames), outs, gradNames) == Grads(s, outs, gradNames)
  {
    GradsSpec(s, outs, gradNames);
    GradsSpec(Grads(s, outs, gradNames), outs, gradNames);
  }

  /** The builder forwards until an operator whose only output is the loss
    * has been replicated on at least one place; nothing is broadcast while
    * forwarding, and only parameter gradients are ever broadcast. */
  lemma {:induction false} StepsForwarding(c: Config, ops: seq<ProgramOp>)
    ensures var s := Steps(c, ops);
      s.forwarding <==> c.places == 0 || forall k :: 0 <= k < |ops| ==> ops[k].outputs != [c.loss]
    ensures var s := Steps(c, ops); s.forwarding ==> s.broadcast == {}
    ensures Steps(c, ops).broadcast <= c.gradNames
    decreases |ops|
  {
    if ops != [] {
      var front := ops[..|ops| - 1];
      var op := ops[|ops| - 1];
      StepsForwarding(c, front);
      var s := Steps(c, front);
      if !(!s.forwarding && op.outputs == [VarNames.GradVarName(c.loss)]) {
        var scale := s.forwarding && op.outputs == [c.loss];
        var s1 := BuildState(OnPlaces(s.g, op, c.places, scale, c.loss), s.forwarding && !(scale && c.places > 0), s.broadcast);
        GradsSpec(s1, op.outputs, c.gradNames);
      }
      forall k | 0 <= k < |front|
        ensures front[k] == ops[k]
      {
      }
    }
  }

  // ---------------------------------------------------------------------
  // The builder

  /** The inputs loop of one computation. */
  method AddInputs(graph: SSAGraph, o: OpId, names: seq<string>, p: nat)
    requires Wellformed(graph.Snapshot()) && o < |graph.ops| && p < |graph.versions|
    modifies graph
    ensures Wellformed(graph.Snapshot())
    ensures graph.Snapshot() == ReadInputs(old(graph.Snapshot()), o, names, p)
  {
    ghost var g0 := graph.Snapshot();
    var k := 0;
    while k < |names|
      invariant Wellformed(graph.Snapshot())
      invariant k <= |names| && graph.Snapshot() == ReadInputs(g0, o, names[..k], p)
    {
      assert names[..k + 1][..k] == names[..k];
      ReadKeeps(graph.Snapshot(), o, names[k], p);
      var v := CreateOrGetLatestVarHandle(graph, names[k], p);
      graph.AddOpInput(o, v);
      k := k + 1;
    }
    assert names[..k] == names;
  }

  /** The outputs loop of one computation. */
  method AddOutputs(graph: SSAGraph, o: OpId, names: seq<string>, p: nat)
    requires Wellformed(graph.Snapshot()) && o < |graph.ops| && p < |graph.versions|
    modifies graph
    ensures Wellformed(graph.Snapshot())
    ensures graph.Snapshot() == WriteOutputs(old(graph.Snapshot()), o, names, p)
  {
    ghost var g0 := graph.Snapshot();
    var k := 0;
    while k < |names|
      invariant Wellformed(graph.Snapshot())
      invariant k <= |names| && graph.Snapshot() == WriteOutputs(g0, o, names[..k], p)
    {
      assert names[..k + 1][..k] == names[..k];
      OutputKeeps(graph.Snapshot(), o, names[k], p);
      CreateOpOutput(graph, o, names[k], p);
      k := k + 1;
    }
    assert names[..k] == names;
  }

  /** One collective handle on one place, skipping a place without the
    * gradient. */
  method AddCollective(graph: SSAGraph, o: OpId, og: string, p: nat)
    requires Wellformed(graph.Snapshot()) && o < |graph.ops| && p < |graph.versions|
    modifies graph
    ensures Wellformed(graph.Snapshot())
    ensures graph.Snapshot() == CollectOn(old(graph.Snapshot()), o, og, p)
  {
    var vars := if og in graph.versions[p] then graph.versions[p][og] else [];
    if vars == [] {
      return;
    }
    ReadKeeps(graph.Snapshot(), o, og, p);
    var prev := CreateOrGetLatestVarHandle(graph, og, p);
    graph.AddOpInput(o, prev);
    OutputKeeps(graph.Snapshot(), o, og, p);
    CreateOpOutput(graph, o, og, p);
  }

  /** The AllGather handles of one gradient, one per place. */
  method AddGathers(graph: SSAGraph, og: string)
    requires Wellformed(graph.Snapshot())
    modifies graph
    ensures Wellformed(graph.Snapshot())
    ensures graph.Snapshot() == Gather(old(graph.Snapshot()), og, |old(graph.versions)|)
  {
    ghost var g0 := graph.Snapshot();
    var i := 0;
    while i < |graph.versions|
      invariant Wellformed(graph.Snapshot())
      invariant i <= |graph.versions| == |g0.versions| && graph.Snapshot() == Gather(g0, og, i)
    {
      NewOpKeeps(graph.Snapshot(), AllGatherType);
      var o := graph.NewOpHandle(AllGatherType);
      AddCollective(graph, o, og, i);
      i := i + 1;
    }
  }

  /** The AllReduce handle of one gradient, collecting on every place. */
  method AddAllReduce(graph: SSAGraph, og: string)
    requires Wellformed(graph.Snapshot())
    modifies graph
    ensures Wellformed(graph.Snapshot())
    ensures graph.Snapshot() == Reduce(NewOp(old(graph.Snapshot()), AllReduceType), |old(graph.ops)|, og, |old(graph.versions)|)
  {
    ghost var g1 := NewOp(graph.Snapshot(), AllReduceType);
    NewOpKeeps(graph.Snapshot(), AllReduceType);
    var o := graph.NewOpHandle(AllReduceType);
    var i := 0;
    while i < |graph.versions|
      invariant Wellformed(graph.Snapshot())
      invariant i <= |graph.versions| == |g1.versions| && o < |g1.ops| && graph.Snapshot() == Reduce(g1, o, og, i)
    {
      AddCollective(graph, o, og, i);
      i := i + 1;
    }
  }

  /** The AllGather handles and the AllReduce handle of one gradient. */
  method AddBroadcast(graph: SSAGraph, og: string)
    requires Wellformed(graph.Snapshot())
    modifies graph
    ensures Wellformed(graph.Snapshot())
    ensures graph.Snapshot() == Broadcast(old(graph.Snapshot()), og)
  {
    AddGathers(graph, og);
    AddAllReduce(graph, og);
  }

  /** The loop over the places for one program operator; it reports
    * whether a ScaleLossGrad handle was added (change_forward). */
  method AddOnPlaces(graph: SSAGraph, op: ProgramOp, n: nat, forwarding: bool, loss: string)
    returns (changeForward: bool)
    requires Wellformed(graph.Snapshot()) && n <= |graph.versions|
    modifies graph
    ensures Wellformed(graph.Snapshot())
    ensures graph.Snapshot() == OnPlaces(old(graph.Snapshot()), op, n, forwarding && op.outputs == [loss], loss)
    ensures changeForward == (forwarding && op.outputs == [loss] && n > 0)
  {
    ghost var g0 := graph.Snapshot();
    var scale := forwarding && op.outputs == [loss];
    changeForward := false;
    var i := 0;
    while i < n
      invariant Wellformed(graph.Snapshot())
      invariant i <= n && |g0.versions| == |graph.versions|
      invariant graph.Snapshot() == OnPlaces(g0, op, i, scale, loss)
      invariant changeForward == (scale && i > 0)
    {
      AddOnPlace(graph, op, i, scale, loss);
      assert graph.Snapshot() == OnPlaces(g0, op, i + 1, scale, loss) by {
        OnPlacesStep(g0, op, i + 1, scale, loss);
      }
      if scale {
        changeForward := true;
      }
      i := i + 1;
    }
  }

  /** The handles one program operator gets on place `p`. */
  method AddOnPlace(graph: SSAGraph, op: ProgramOp, p: nat, scale: bool, loss: string)
    requires Wellformed(graph.Snapshot()) && p < |graph.versions|
    modifies graph
    ensures Wellformed(graph.Snapshot())
    ensures graph.Snapshot() == PlaceStep(old(graph.Snapshot()), op, p, scale, loss)
  {
    NewOpKeeps(graph.Snapshot(), op.opType);
    var o := graph.NewOpHandle(op.opType);
    AddInputs(graph, o, op.inputs, p);
    AddOutputs(graph, o, op.outputs, p);
    if scale {
      NewOpKeeps(graph.Snapshot(), ScaleLossGradType);
      var scaleOp := graph.NewOpHandle(ScaleLossGradType);
      OutputKeeps(graph.Snapshot(), scaleOp, VarNames.GradVarName(loss), p);
      CreateOpOutput(graph, scaleOp, VarNames.GradVarName(loss), p);
    }
  }

  /** The loop over the outputs in backward mode. */
  method AddGrads(graph: SSAGraph, outs: seq<string>, broadcast: set<string>, gradNames: set<string>, ghost forwarding: bool)
    returns (broadcast': set<string>)
    requires Wellformed(graph.Snapshot())
    modifies graph
    ensures Wellformed(graph.Snapshot())
    ensures BuildState(graph.Snapshot(), forwarding, broadcast') ==
      Grads(BuildState(old(graph.Snapshot()), forwarding, broadcast), outs, gradNames)
  {
    ghost var s := BuildState(graph.Snapshot(), forwarding, broadcast);
    broadcast' := broadcast;
    var k := 0;
    while k < |outs|
      invariant Wellformed(graph.Snapshot())
      invariant k <= |outs|
      invariant BuildState(graph.Snapshot(), forwarding, broadcast') == Grads(s, outs[..k], gradNames)
    {
      assert outs[..k + 1][..k] == outs[..k];
      broadcast' := AddGrad(graph, outs[k], broadcast', gradNames, forwarding);
      k := k + 1;
    }
    assert outs[..k] == outs;
  }

  /** One output in backward mode: a parameter gradient not broadcast yet
    * is marked and broadcast. */
  method AddGrad(graph: SSAGraph, og: string, broadcast: set<string>, gradNames: set<string>, ghost forwarding: bool)
    returns (broadcast': set<string>)
    requires Wellformed(graph.Snapshot())
    modifies graph
    ensures Wellformed(graph.Snapshot())
    ensures var s := BuildState(old(graph.Snapshot()), forwarding, broadcast);
      BuildState(graph.Snapshot(), forwarding, broadcast') ==
        if og in gradNames && og !in broadcast then s.(g := Broadcast(s.g, og), broadcast := broadcast + {og}) else s
  {
    broadcast' := broadcast;
    if og in gradNames && og !in broadcast {
      broadcast' := broadcast + {og};
      AddBroadcast(graph, og);
    }
  }

  /** One iteration of the loop over the program's operators. */
  method AddProgramOp(graph: SSAGraph, c: Config, forwarding: bool, broadcast: set<string>, op: ProgramOp)
    returns (forwarding': bool, broadcast': set<string>)
    requires Wellformed(graph.Snapshot()) && |graph.versions| == c.places
    modifies graph
    ensures Wellformed(graph.Snapshot())
    ensures BuildState(graph.Snapshot(), forwarding', broadcast') ==
      Step(c, BuildState(old(graph.Snapshot()), forwarding, broadcast), op)
  {
    forwarding', broadcast' := forwarding, broadcast;
    if !forwarding && op.outputs == [VarNames.GradVarName(c.loss)] {
      return;
    }
    var changeForward := AddOnPlaces(graph, op, c.places, forwarding, c.loss);
    if changeForward {
      forwarding' := false;
    }
    if !forwarding' {
      broadcast' := AddGrads(graph, op.outputs, broadcast', c.gradNames, forwarding');
    }
  }

  /** MultiDevSSAGraphBuilder. */
  class MultiDevSSAGraphBuilder {
    const places: nat
    const lossVarName: string
    var gradNames: set<string>

    /** The constructor records the gradient name of every parameter. */
    constructor(places: nat, lossVarName: string, params: set<string>)
      ensures this.places == places && this.lossVarName == lossVarName
      ensures forall og :: og in gradNames <==> exists q :: q in params && og == VarNames.GradVarName(q)
    {
      this.places := places;
      this.lossVarName := lossVarName;
      var names: set<string> := {};
      var rest := params;
      while rest != {}
        invariant rest <= params
        invariant forall og :: og in names <==> exists q :: q in params - rest && og == VarNames.GradVarName(q)
        decreases rest
      {
        var q :| q in rest;
        names := names + {VarNames.GradVarName(q)};
        rest := rest - {q};
      }
      gradNames := names;
    }

    function Settings(): Config
      reads this
    {
      Config(places, lossVarName, gradNames)
    }

    /** Build: the graph of Steps over the whole program, polished for
      * hazards (`hs` lists them) and with a dummy output on every leaf
      * operator. */
    method Build(program: seq<ProgramOp>) returns (graph: SSAGraph, ghost hs: seq<Hazard>)
      ensures fresh(graph)
      ensures var built := Steps(Settings(), program).g;
        HazardsInRange(hs, |built.ops|) && Enumerates(built, hs) &&
        graph.Snapshot() == AddLeafOutputs(AddDummies(built, hs), |built.ops|)
    {
      graph := new SSAGraph(places);
      var broadcast: set<string> := {};
      var forwarding := true;
      var j := 0;
      while j < |program|
        invariant j <= |program| && fresh(graph)
        invariant Wellformed(graph.Snapshot())
        invariant BuildState(graph.Snapshot(), forwarding, broadcast) == Steps(Settings(), program[..j])
      {
        assert program[..j + 1][..j] == program[..j];
        forwarding, broadcast := AddProgramOp(graph, Settings(), forwarding, broadcast, program[j]);
        j := j + 1;
      }
      assert program[..j] == program;
      ghost var built := graph.Snapshot();
      LaterWrittenHasWriters(built);
      hs := PolishGraphToSupportDataHazards(graph);
      AddOutputToLeafOps(graph);
    }
  }
}
