/** Why the graph MultiDevSSAGraphBuilder::Build returns passes the check of
  * ssa_graph_checker: the operator handles can run in the order they were
  * created. Every input of an operator is generated by nothing or by an
  * earlier operator, because a computation or collective reads the latest
  * versions before it writes new ones; and every write-after-read hazard
  * has its reader before its writer, so the dummy that polishing adds for
  * it also points forward. Creation order is then a schedule that runs the
  * generator of every variable. */
module MultiDevGraphOrder {
  import opened Wrappers
  import opened SSAGraphs
  import opened SSAGraphBuilder
  import opened MultiDevGraphBuilder
  import SSAGraphChecker
  import VarNames

  /** Every input of operator `o` is generated by nothing or by an operator
    * created before `o`. */
  ghost predicate InputsEarlier(g: Graph)
  {
    forall o, v {:trigger v in g.ops[o].inputs} :: 0 <= o < |g.ops| && v in g.ops[o].inputs ==>
      v < |g.vars| && (g.vars[v].generator.None? || g.vars[v].generator.value < o)
  }

  /** Every write-after-read hazard has its reader created before its
    * writer. */
  ghost predicate ReadsBeforeWrite(g: Graph)
  {
    forall h {:trigger IsHazard(g, h)} :: IsHazard(g, h) ==> h.reader < h.writer
  }

  ghost predicate Ordered(g: Graph)
  {
    InputsEarlier(g) && ReadsBeforeWrite(g)
  }

  /** Every handle `o` has generated so far is a version on a place before
    * `p`: an AllReduce handle collects place by place. */
  ghost predicate OutputsBefore(g: Graph, o: OpId, p: nat)
  {
    forall v :: 0 <= v < |g.vars| && g.vars[v].generator == Some(o) ==>
      g.vars[v].kind.Versioned? && g.vars[v].kind.scopeIdx < p
  }

  // ---------------------------------------------------------------------
  // The primitives

  /** A new operator handle has no edges and has generated nothing. */
  lemma NewOpOrdered(g: Graph, opType: string, p: nat)
    requires Wellformed(g) && Ordered(g)
    ensures Ordered(NewOp(g, opType)) && OutputsBefore(NewOp(g, opType), |g.ops|, p)
  {
    var r := NewOp(g, opType);
    forall h | IsHazard(r, h)
      ensures h.reader < h.writer
    {
      assert IsHazard(g, h);
    }
    forall v | 0 <= v < |r.vars|
      ensures r.vars[v].generator != Some(|g.ops|)
    {
      assert VarInRange(g.vars[v], |g.ops|);
    }
  }

  /** CreateOrGetLatestVarHandle keeps the order: at most it adds a version
    * 0 generated by nothing. */
  lemma LatestOrdered(g: Graph, o: OpId, name: string, p: nat)
    requires Wellformed(g) && Ordered(g) && p < |g.versions| && OutputsBefore(g, o, p)
    ensures Ordered(LatestVersion(g, p, name).0) && OutputsBefore(LatestVersion(g, p, name).0, o, p)
  {
    var (g1, v) := LatestVersion(g, p, name);
    if VersionsOf(g, p, name) == [] {
      assert g1.vars[..|g.vars|] == g.vars && g1.ops == g.ops;
      forall q, x | 0 <= q < |g1.ops| && x in g1.ops[q].inputs
        ensures x < |g1.vars| && (g1.vars[x].generator.None? || g1.vars[x].generator.value < q)
      {
        assert x in g.ops[q].inputs;
        assert g1.vars[x] == g.vars[x];
      }
      forall h | IsHazard(g1, h)
        ensures h.reader < h.writer
      {
        assert h.place != p || h.name != name;
        assert g1.versions[h.place][h.name] == g.versions[h.place][h.name];
        assert g.versions[h.place][h.name][h.k - 1] in g.versions[h.place][h.name];
        assert g.versions[h.place][h.name][h.k] in g.versions[h.place][h.name];
        assert IsHazard(g, h);
      }
      forall x | 0 <= x < |g1.vars| && g1.vars[x].generator == Some(o)
        ensures g1.vars[x].kind.Versioned? && g1.vars[x].kind.scopeIdx < p
      {
        assert x < |g.vars| && g1.vars[x] == g.vars[x];
      }
    }
  }

  /** Reading the latest version `v` of `name` on `p`: `v` is generated by
    * an earlier operator, since `o` has written nothing on `p` yet, and
    * the version after `v` does not exist yet, so no hazard gains a
    * reader. */
  lemma ReadOrdered(g: Graph, o: OpId, name: string, p: nat)
    requires Wellformed(g) && Ordered(g) && o + 1 == |g.ops| && p < |g.versions| && OutputsBefore(g, o, p)
    ensures Ordered(ReadOne(g, o, name, p)) && OutputsBefore(ReadOne(g, o, name, p), o, p)
  {
    var (g1, v) := LatestVersion(g, p, name);
    LatestVersionSpec(g, p, name);
    LatestOrdered(g, o, name, p);
    ReadKeeps(g, o, name, p);
    var r := WithInput(g1, o, v);
    assert ReadOne(g, o, name, p) == r;
    assert VarInRange(g1.vars[v], |g1.ops|);
    assert g1.vars[v].generator != Some(o);
    forall q, x | 0 <= q < |r.ops| && x in r.ops[q].inputs
      ensures x < |r.vars| && (r.vars[x].generator.None? || r.vars[x].generator.value < q)
    {
      if q != o || x != v {
        assert x in g1.ops[q].inputs;
      }
    }
    forall h | IsHazard(r, h)
      ensures h.reader < h.writer
    {
      var list := g1.versions[h.place][h.name];
      var last := g1.versions[p][name];
      assert g1.vars[list[h.k - 1]].kind == Versioned(h.name, h.k - 1, h.place);
      assert g1.vars[last[|last| - 1]].kind == Versioned(name, |last| - 1, p);
      assert list[h.k - 1] != v;
      assert IsHazard(g1, h);
    }
  }

  /** A new output version is generated by the newest operator, which no
    * reader of the previous version was created after. */
  lemma OutputOrdered(g: Graph, o: OpId, name: string, p: nat, q: nat)
    requires Wellformed(g) && Ordered(g) && o + 1 == |g.ops| && p < |g.versions|
    ensures Ordered(OpOutput(g, o, name, p))
    ensures OutputsBefore(g, o, q) && p < q ==> OutputsBefore(OpOutput(g, o, name, p), o, q)
  {
    var r := OpOutput(g, o, name, p);
    var list := VersionsOf(g, p, name);
    var v := |g.vars|;
    OpOutputSpec(g, o, name, p);
    forall u | 0 <= u < |g.vars|
      ensures r.vars[u] == g.vars[u]
    {
      assert r.vars[..|g.vars|][u] == g.vars[u];
    }
    forall q', x | 0 <= q' < |r.ops| && x in r.ops[q'].inputs
      ensures x < |r.vars| && (r.vars[x].generator.None? || r.vars[x].generator.value < q')
    {
      assert x in g.ops[q'].inputs;
    }
    forall h | IsHazard(r, h)
      ensures h.reader < h.writer
    {
      if h.place == p && h.name == name && h.k == |list| {
        assert r.versions[p][name][h.k - 1] == list[h.k - 1] == g.versions[p][name][h.k - 1];
        assert VarInRange(g.vars[list[h.k - 1]], |g.ops|);
      } else {
        var old_ := g.versions[h.place][h.name];
        assert r.versions[h.place][h.name][h.k - 1] == old_[h.k - 1] && r.versions[h.place][h.name][h.k] == old_[h.k];
        assert old_[h.k - 1] in old_ && old_[h.k] in old_;
        assert IsHazard(g, h);
      }
    }
  }

  // ---------------------------------------------------------------------
  // One computation handle

  lemma {:induction false} ReadInputsOrdered(g: Graph, o: OpId, names: seq<string>, p: nat)
    requires Wellformed(g) && Ordered(g) && o + 1 == |g.ops| && p < |g.versions| && OutputsBefore(g, o, p)
    ensures Ordered(ReadInputs(g, o, names, p)) && OutputsBefore(ReadInputs(g, o, names, p), o, p)
    decreases |names|
  {
    if names != [] {
      var front := names[..|names| - 1];
      ReadInputsOrdered(g, o, front, p);
      ReadInputsKeeps(g, o, front, p);
      ReadOrdered(ReadInputs(g, o, front, p), o, names[|names| - 1], p);
    }
  }

  lemma {:induction false} WriteOutputsOrdered(g: Graph, o: OpId, names: seq<string>, p: nat)
    requires Wellformed(g) && Ordered(g) && o + 1 == |g.ops| && p < |g.versions|
    ensures Ordered(WriteOutputs(g, o, names, p))
    decreases |names|
  {
    if names != [] {
      var front := names[..|names| - 1];
      WriteOutputsOrdered(g, o, front, p);
      WriteOutputsKeeps(g, o, front, p);
      OutputOrdered(WriteOutputs(g, o, front, p), o, names[|names| - 1], p, p + 1);
    }
  }

  lemma ComputeOrdered(g: Graph, op: ProgramOp, p: nat)
    requires Wellformed(g) && Ordered(g) && p < |g.versions|
    ensures Ordered(Compute(g, op, p))
  {
    var o := |g.ops|;
    var g1 := NewOp(g, op.opType);
    NewOpKeeps(g, op.opType);
    NewOpOrdered(g, op.opType, p);
    ReadInputsOrdered(g1, o, op.inputs, p);
    ReadInputsKeeps(g1, o, op.inputs, p);
    WriteOutputsOrdered(ReadInputs(g1, o, op.inputs, p), o, op.outputs, p);
  }

  lemma PlaceStepOrdered(g: Graph, op: ProgramOp, p: nat, scale: bool, loss: string)
    requires Wellformed(g) && Ordered(g) && p < |g.versions|
    ensures Ordered(PlaceStep(g, op, p, scale, loss))
  {
    var g1 := Compute(g, op, p);
    ComputeOrdered(g, op, p);
    if scale {
      ComputeKeeps(g, op, p);
      NewOpKeeps(g1, ScaleLossGradType);
      NewOpOrdered(g1, ScaleLossGradType, p);
      OutputOrdered(NewOp(g1, ScaleLossGradType), |g1.ops|, VarNames.GradVarName(loss), p, p + 1);
    }
  }

  lemma {:induction false} OnPlacesOrdered(g: Graph, op: ProgramOp, n: nat, scale: bool, loss: string)
    requires Wellformed(g) && Ordered(g) && n <= |g.versions|
    ensures Wellformed(OnPlaces(g, op, n, scale, loss)) && Ordered(OnPlaces(g, op, n, scale, loss))
    decreases n
  {
    if n > 0 {
      OnPlacesOrdered(g, op, n - 1, scale, loss);
      OnPlacesStep(g, op, n, scale, loss);
      var g1 := OnPlaces(g, op, n - 1, scale, loss);
      PlaceStepKeeps(g1, op, n - 1, scale, loss);
      PlaceStepOrdered(g1, op, n - 1, scale, loss);
    }
  }

  // ---------------------------------------------------------------------
  // The collectives of one gradient

  lemma CollectOnOrdered(g: Graph, o: OpId, og: string, p: nat)
    requires Wellformed(g) && Ordered(g) && o + 1 == |g.ops| && p < |g.versions| && OutputsBefore(g, o, p)
    ensures Wellformed(CollectOn(g, o, og, p)) && Ordered(CollectOn(g, o, og, p))
    ensures OutputsBefore(CollectOn(g, o, og, p), o, p + 1)
  {
    CollectOnKeeps(g, o, og, p);
    if VersionsOf(g, p, og) != [] {
      var g1 := ReadOne(g, o, og, p);
      ReadOrdered(g, o, og, p);
      ReadKeeps(g, o, og, p);
      OutputOrdered(g1, o, og, p, p + 1);
    }
  }

  /** One AllGather handle added to a well-formed, ordered graph. */
  lemma GatherOne(g1: Graph, og: string, p: nat)
    requires p < |g1.versions| && Wellformed(g1) && Ordered(g1)
    ensures Wellformed(GatherOn(g1, og, p)) && Ordered(GatherOn(g1, og, p))
  {
    NewOpKeeps(g1, AllGatherType);
    NewOpOrdered(g1, AllGatherType, p);
    CollectOnOrdered(NewOp(g1, AllGatherType), |g1.ops|, og, p);
  }

  lemma {:induction false} GatherOrdered(g: Graph, og: string, n: nat)
    requires Wellformed(g) && Ordered(g) && n <= |g.versions|
    ensures Wellformed(Gather(g, og, n)) && Ordered(Gather(g, og, n))
    decreases n
  {
    if n > 0 {
      GatherOrdered(g, og, n - 1);
      var g1 := Gather(g, og, n - 1);
      GatherOne(g1, og, n - 1);
      assert Gather(g, og, n) == GatherOn(g1, og, n - 1);
    }
  }

  /** One more place of the AllReduce handle. */
  lemma ReduceStep(g: Graph, o: OpId, og: string, p: nat)
    requires p < |g.versions| && o + 1 == |g.ops|
    requires var g1 := Reduce(g, o, og, p); Wellformed(g1) && Ordered(g1) && OutputsBefore(g1, o, p)
    ensures var g2 := Reduce(g, o, og, p + 1); Wellformed(g2) && Ordered(g2) && OutputsBefore(g2, o, p + 1)
  {
    CollectOnOrdered(Reduce(g, o, og, p), o, og, p);
  }

  lemma {:induction false} ReduceOrdered(g: Graph, o: OpId, og: string, n: nat)
    requires Wellformed(g) && Ordered(g) && o + 1 == |g.ops| && n <= |g.versions| && OutputsBefore(g, o, 0)
    ensures Wellformed(Reduce(g, o, og, n)) && Ordered(Reduce(g, o, og, n)) && OutputsBefore(Reduce(g, o, og, n), o, n)
    decreases n
  {
    if n > 0 {
      ReduceOrdered(g, o, og, n - 1);
      ReduceStep(g, o, og, n - 1);
    }
  }

  lemma BroadcastOrdered(g: Graph, og: string)
    requires Wellformed(g) && Ordered(g)
    ensures Wellformed(Broadcast(g, og)) && Ordered(Broadcast(g, og))
  {
    var g1 := Gather(g, og, |g.versions|);
    GatherOrdered(g, og, |g.versions|);
    NewOpKeeps(g1, AllReduceType);
    NewOpOrdered(g1, AllReduceType, 0);
    ReduceOrdered(NewOp(g1, AllReduceType), |g1.ops|, og, |g.versions|);
  }

  // ---------------------------------------------------------------------
  // The whole program

  lemma {:induction false} GradsOrdered(s: BuildState, outs: seq<string>, gradNames: set<string>)
    requires Wellformed(s.g) && Ordered(s.g)
    ensures Wellformed(Grads(s, outs, gradNames).g) && Ordered(Grads(s, outs, gradNames).g)
    decreases |outs|
  {
    if outs != [] {
      var s1 := Grads(s, outs[..|outs| - 1], gradNames);
      GradsOrdered(s, outs[..|outs| - 1], gradNames);
      BroadcastOrdered(s1.g, outs[|outs| - 1]);
    }
  }

  lemma StepOrdered(c: Config, s: BuildState, op: ProgramOp)
    requires |s.g.versions| == c.places && Wellformed(s.g) && Ordered(s.g)
    ensures Wellformed(Step(c, s, op).g) && Ordered(Step(c, s, op).g)
  {
    var scale := s.forwarding && op.outputs == [c.loss];
    OnPlacesOrdered(s.g, op, c.places, scale, c.loss);
    var g1 := OnPlaces(s.g, op, c.places, scale, c.loss);
    var forwarding := s.forwarding && !(scale && c.places > 0);
    GradsOrdered(BuildState(g1, forwarding, s.broadcast), op.outputs, c.gradNames);
  }

  /** Every graph the loop over the program produces is well-formed and in
    * creation order. */
  lemma {:induction false} StepsOrdered(c: Config, ops: seq<ProgramOp>)
    ensures Wellformed(Steps(c, ops).g) && Ordered(Steps(c, ops).g)
    decreases |ops|
  {
    if ops != [] {
      StepsOrdered(c, ops[..|ops| - 1]);
      StepOrdered(c, Steps(c, ops[..|ops| - 1]), ops[|ops| - 1]);
    }
  }

  // ---------------------------------------------------------------------
  // Polishing and leaf outputs keep creation order a schedule

  /** The operators in the order they were created. */
  function Creation(n: nat): (order: seq<OpId>)
    ensures |order| == n && forall i :: 0 <= i < n ==> order[i] == i
  {
    seq(n, i => i)
  }

  /** A dummy operator `o` reads was made for a hazard whose writer is `o`. */
  lemma {:induction false} DummyWriter(hs: seq<Hazard>, base: nat, o: OpId, x: VarId)
    requires x in Dummies(hs, base, o, false)
    ensures base <= x < base + |hs| && hs[x - base].writer == o
    decreases |hs|
  {
    var front := hs[..|hs| - 1];
    if x in Dummies(front, base, o, false) {
      DummyWriter(front, base, o, x);
      assert hs[x - base] == front[x - base];
    }
  }

  /** The operators created before operator `i` are the first `i` of the
    * creation order. */
  lemma CreationPrefix(n: nat, i: nat, j: nat)
    requires j < i <= n
    ensures j in Creation(n)[..i]
  {
    assert Creation(n)[..i][j] == j;
  }

  /** A handle of a graph keeps its value in every graph whose handles
    * extend it. */
  lemma PrefixAt(a: seq<VarNode>, b: seq<VarNode>, x: VarId)
    requires |b| <= |a| && a[..|b|] == b && x < |b|
    ensures a[x] == b[x]
  {
    assert a[..|b|][x] == a[x];
  }

  /** The dummy operator `i` waits on for hazard hs[j] is generated by
    * that hazard's reader, which was created before `i`. */
  lemma PolishedDummy(built: Graph, hs: seq<Hazard>, i: OpId, x: VarId)
    requires ReadsBeforeWrite(built) && HazardsInRange(hs, |built.ops|) && forall h :: h in hs ==> IsHazard(built, h)
    requires x in Dummies(hs, |built.vars|, i, false)
    ensures var d := AddDummies(built, hs);
      x < |d.vars| && d.vars[x].generator.Some? && d.vars[x].generator.value < i
  {
    DummyWriter(hs, |built.vars|, i, x);
    var j := x - |built.vars|;
    AddDummiesVar(built, hs, j);
    assert hs[j] in hs;
    assert IsHazard(built, hs[j]);
  }

  /** Every input of operator `i` of the finished graph is generated by
    * nothing or by an earlier operator: its own inputs by the order of
    * the build, the dummies it waits on by the order of the hazards. */
  lemma PolishedInput(built: Graph, hs: seq<Hazard>, i: OpId, x: VarId)
    requires Ordered(built) && HazardsInRange(hs, |built.ops|) && forall h :: h in hs ==> IsHazard(built, h)
    requires i < |built.ops| && x in AddLeafOutputs(AddDummies(built, hs), |built.ops|).ops[i].inputs
    ensures var g := AddLeafOutputs(AddDummies(built, hs), |built.ops|);
      x < |g.vars| && (g.vars[x].generator.None? || g.vars[x].generator.value < i)
  {
    var d := AddDummies(built, hs);
    var g := AddLeafOutputs(d, |built.ops|);
    LeafOutputsOps(d, |built.ops|, i);
    AddDummiesInputs(built, hs, i);
    assert x in built.ops[i].inputs + Dummies(hs, |built.vars|, i, false);
    if x in built.ops[i].inputs {
      PrefixAt(d.vars, built.vars, x);
      PrefixAt(g.vars, d.vars, x);
    } else {
      PolishedDummy(built, hs, i, x);
      PrefixAt(g.vars, d.vars, x);
    }
  }

  /** Every handle of the finished graph is generated by nothing or by one
    * of its operators. */
  lemma PolishedGenerator(built: Graph, hs: seq<Hazard>, v: VarId)
    requires GraphValid(built) && HazardsInRange(hs, |built.ops|)
    requires var g := AddLeafOutputs(AddDummies(built, hs), |built.ops|);
      v < |g.vars| && g.vars[v].generator.Some?
    ensures AddLeafOutputs(AddDummies(built, hs), |built.ops|).vars[v].generator.value < |built.ops|
  {
    var d := AddDummies(built, hs);
    var g := AddLeafOutputs(d, |built.ops|);
    if v < |built.vars| {
      PrefixAt(d.vars, built.vars, v);
      PrefixAt(g.vars, d.vars, v);
      assert VarInRange(built.vars[v], |built.ops|);
    } else if v < |d.vars| {
      AddDummiesVar(built, hs, v - |built.vars|);
      PrefixAt(g.vars, d.vars, v);
    } else {
      LeafOutputVar(d, |built.ops|, v);
    }
  }

  /** Every operator reads only handles generated by nothing or by an
    * earlier operator. */
  ghost predicate ReadsEarlier(g: Graph)
  {
    forall i, x {:trigger x in g.ops[i].inputs} :: 0 <= i < |g.ops| && x in g.ops[i].inputs ==>
      x < |g.vars| && (g.vars[x].generator.None? || g.vars[x].generator.value < i)
  }

  /** Every generator is one of the graph's operators. */
  ghost predicate GeneratorsInRange(g: Graph)
  {
    forall v :: 0 <= v < |g.vars| && g.vars[v].generator.Some? ==> g.vars[v].generator.value < |g.ops|
  }

  /** Creation order is a schedule of a graph whose operators read only
    * handles generated by nothing or by an earlier operator. */
  lemma CreationSchedule(g: Graph)
    requires ReadsEarlier(g)
    ensures SSAGraphChecker.Schedule(g, Creation(|g.ops|))
  {
    var n := |g.ops|;
    var order := Creation(n);
    forall i, x | 0 <= i < |order| && x in g.ops[order[i]].inputs
      ensures x < |g.vars| && (g.vars[x].generator.None? || g.vars[x].generator.value in order[..i])
    {
      assert order[i] == i;
      assert x in g.ops[i].inputs;
      if g.vars[x].generator.Some? {
        CreationPrefix(n, i, g.vars[x].generator.value);
      }
    }
  }

  /** Creation order runs the generator of every handle whose generator is
    * one of the graph's operators. */
  lemma CreationGenerates(g: Graph)
    requires GeneratorsInRange(g)
    ensures SSAGraphChecker.AllGenerated(g, Creation(|g.ops|))
  {
    var n := |g.ops|;
    var order := Creation(n);
    forall v: VarId | SSAGraphChecker.IsRegistered(g, v) && v < |g.vars| && g.vars[v].generator.Some?
      ensures g.vars[v].generator.value in order
    {
      CreationPrefix(n, n, g.vars[v].generator.value);
      assert order[..n] == order;
    }
  }

  /** After polishing, every operator reads only handles generated by
    * nothing or by an earlier operator. */
  lemma PolishedReadsEarlier(built: Graph, hs: seq<Hazard>)
    requires Ordered(built)
    requires HazardsInRange(hs, |built.ops|) && forall h :: h in hs ==> IsHazard(built, h)
    ensures ReadsEarlier(AddLeafOutputs(AddDummies(built, hs), |built.ops|))
  {
    var d := AddDummies(built, hs);
    var g := AddLeafOutputs(d, |built.ops|);
    assert |g.ops| == |d.ops| == |built.ops|;
    forall i, x {:trigger x in g.ops[i].inputs} | 0 <= i < |g.ops| && x in g.ops[i].inputs
      ensures x < |g.vars| && (g.vars[x].generator.None? || g.vars[x].generator.value < i)
    {
      PolishedInput(built, hs, i, x);
    }
  }

  /** After polishing, every generator is one of the graph's operators. */
  lemma PolishedGeneratorsInRange(built: Graph, hs: seq<Hazard>)
    requires GraphValid(built) && HazardsInRange(hs, |built.ops|)
    ensures GeneratorsInRange(AddLeafOutputs(AddDummies(built, hs), |built.ops|))
  {
    var d := AddDummies(built, hs);
    var g := AddLeafOutputs(d, |built.ops|);
    assert |g.ops| == |d.ops| == |built.ops|;
    forall v | 0 <= v < |g.vars| && g.vars[v].generator.Some?
      ensures g.vars[v].generator.value < |g.ops|
    {
      PolishedGenerator(built, hs, v);
    }
  }

  /** Polishing a graph in creation order, and giving its leaves outputs,
    * leaves creation order a schedule that runs every generator. */
  lemma PolishedScheduled(built: Graph, hs: seq<Hazard>)
    requires GraphValid(built) && Ordered(built)
    requires HazardsInRange(hs, |built.ops|) && forall h :: h in hs ==> IsHazard(built, h)
    ensures var g := AddLeafOutputs(AddDummies(built, hs), |built.ops|);
      SSAGraphChecker.Schedule(g, Creation(|g.ops|)) && SSAGraphChecker.AllGenerated(g, Creation(|g.ops|))
  {
    PolishedReadsEarlier(built, hs);
    CreationSchedule(AddLeafOutputs(AddDummies(built, hs), |built.ops|));
    PolishedGeneratorsInRange(built, hs);
    CreationGenerates(AddLeafOutputs(AddDummies(built, hs), |built.ops|));
  }

  /** Validity of the graph Build returns: after the hazard dummies and the
    * leaf outputs, running the operators in creation order runs each one
    * after the generators of all its inputs, and runs the generator of
    * every variable. */
  lemma BuiltScheduled(c: Config, program: seq<ProgramOp>, hs: seq<Hazard>)
    requires HazardsInRange(hs, |Steps(c, program).g.ops|) && Enumerates(Steps(c, program).g, hs)
    ensures var built := Steps(c, program).g;
      var g := AddLeafOutputs(AddDummies(built, hs), |built.ops|);
      SSAGraphChecker.Schedule(g, Creation(|g.ops|)) && SSAGraphChecker.AllGenerated(g, Creation(|g.ops|))
  {
    StepsOrdered(c, program);
    PolishedScheduled(Steps(c, program).g, hs);
  }
}
