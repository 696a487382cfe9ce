/** framework/details/ssa_graph.h and var_handle.h, as an arena: variable
  * handles and operator handles are numbered by their position in `vars` and
  * `ops`. `versions[p][name]` lists the versions of `name` on place `p` in
  * creation order (SSAGraph::vars_), and `depVars` holds the dummy variables
  * (SSAGraph::dep_vars_). */
module SSAGraphs {
  import opened Wrappers

  type VarId = nat
  type OpId = nat

  /** A VarHandle (a version of a named variable on one place) or a
    * DummyVarHandle (a control dependency). */
  datatype VarKind = Versioned(name: string, version: nat, scopeIdx: nat) | Dummy

  /** generated_op_ and pending_ops_ of a variable handle. */
  datatype VarNode = VarNode(kind: VarKind, generator: Option<OpId>, pending: set<OpId>)

  /** An operator handle: its type, and its input and output variables in
    * the order they were added. */
  datatype OpHandle = OpHandle(opType: string, inputs: seq<VarId>, outputs: seq<VarId>)

  datatype Graph = Graph(vars: seq<VarNode>, ops: seq<OpHandle>,
                         versions: seq<map<string, seq<VarId>>>, depVars: set<VarId>)

  predicate VarInRange(x: VarNode, nOps: nat)
  {
    (x.generator.Some? ==> x.generator.value < nOps) && forall o :: o in x.pending ==> o < nOps
  }

  predicate OpInRange(x: OpHandle, nVars: nat)
  {
    (forall v :: v in x.inputs ==> v < nVars) && forall v :: v in x.outputs ==> v < nVars
  }

  predicate VersionsInRange(versions: seq<map<string, seq<VarId>>>, nVars: nat)
  {
    forall p, n :: 0 <= p < |versions| && n in versions[p] ==> forall v :: v in versions[p][n] ==> v < nVars
  }

  /** Every handle a graph mentions exists. */
  predicate GraphValid(g: Graph)
  {
    (forall v :: 0 <= v < |g.vars| ==> VarInRange(g.vars[v], |g.ops|)) &&
    (forall o :: 0 <= o < |g.ops| ==> OpInRange(g.ops[o], |g.vars|)) &&
    VersionsInRange(g.versions, |g.vars|) &&
    (forall d :: d in g.depVars ==> d < |g.vars|)
  }

  /** The graph with one more variable handle, generated by nothing and read
    * by nothing. */
  function NewVar(g: Graph, kind: VarKind): (r: Graph)
    ensures |r.vars| == |g.vars| + 1 && r.vars[|g.vars|] == VarNode(kind, None, {})
    ensures r.vars[..|g.vars|] == g.vars && r.ops == g.ops && r.versions == g.versions && r.depVars == g.depVars
  {
    g.(vars := g.vars + [VarNode(kind, None, {})])
  }

  /** The graph with one more operator handle of the given type, without
    * inputs or outputs yet (result.ops_.emplace_back). */
  function NewOp(g: Graph, opType: string): (r: Graph)
    ensures r.ops == g.ops + [OpHandle(opType, [], [])]
    ensures r.vars == g.vars && r.versions == g.versions && r.depVars == g.depVars
  {
    g.(ops := g.ops + [OpHandle(opType, [], [])])
  }

  /** OpHandleBase::AddOutput: the operator lists `v` as its next output and
    * `v` is generated by it. */
  function WithOutput(g: Graph, o: OpId, v: VarId): (r: Graph)
    requires o < |g.ops| && v < |g.vars|
    ensures |r.ops| == |g.ops| && |r.vars| == |g.vars|
    ensures r.ops[o].outputs == g.ops[o].outputs + [v] && r.ops[o].inputs == g.ops[o].inputs
    ensures r.ops[o].opType == g.ops[o].opType
    ensures forall q :: 0 <= q < |g.ops| && q != o ==> r.ops[q] == g.ops[q]
    ensures r.vars[v] == g.vars[v].(generator := Some(o))
    ensures forall u :: 0 <= u < |g.vars| && u != v ==> r.vars[u] == g.vars[u]
    ensures r.versions == g.versions && r.depVars == g.depVars
  {
    g.(ops := g.ops[o := g.ops[o].(outputs := g.ops[o].outputs + [v])],
       vars := g.vars[v := g.vars[v].(generator := Some(o))])
  }

  /** OpHandleBase::AddInput: the operator lists `v` as its next input and
    * becomes one of `v`'s pending operators. */
  function WithInput(g: Graph, o: OpId, v: VarId): (r: Graph)
    requires o < |g.ops| && v < |g.vars|
    ensures |r.ops| == |g.ops| && |r.vars| == |g.vars|
    ensures r.ops[o].inputs == g.ops[o].inputs + [v] && r.ops[o].outputs == g.ops[o].outputs
    ensures r.ops[o].opType == g.ops[o].opType
    ensures forall q :: 0 <= q < |g.ops| && q != o ==> r.ops[q] == g.ops[q]
    ensures r.vars[v] == g.vars[v].(pending := g.vars[v].pending + {o})
    ensures forall u :: 0 <= u < |g.vars| && u != v ==> r.vars[u] == g.vars[u]
    ensures r.versions == g.versions && r.depVars == g.depVars
  {
    g.(ops := g.ops[o := g.ops[o].(inputs := g.ops[o].inputs + [v])],
       vars := g.vars[v := g.vars[v].(pending := g.vars[v].pending + {o})])
  }

  /** The edge primitives and variable creation keep every handle in range. */
  lemma EdgesKeepValid(g: Graph, o: OpId, v: VarId, kind: VarKind)
    requires GraphValid(g) && o < |g.ops| && v < |g.vars|
    ensures GraphValid(WithOutput(g, o, v)) && GraphValid(WithInput(g, o, v))
    ensures GraphValid(NewVar(g, kind))
  {
    var n := NewVar(g, kind);
    forall q | 0 <= q < |n.ops|
      ensures OpInRange(n.ops[q], |n.vars|)
    {
      assert OpInRange(g.ops[q], |g.vars|);
    }
    var w := WithOutput(g, o, v);
    forall q | 0 <= q < |w.ops|
      ensures OpInRange(w.ops[q], |w.vars|)
    {
      assert OpInRange(g.ops[q], |g.vars|);
    }
    forall u | 0 <= u < |w.vars|
      ensures VarInRange(w.vars[u], |w.ops|)
    {
      assert VarInRange(g.vars[u], |g.ops|);
    }
    var i := WithInput(g, o, v);
    forall q | 0 <= q < |i.ops|
      ensures OpInRange(i.ops[q], |i.vars|)
    {
      assert OpInRange(g.ops[q], |g.vars|);
    }
    forall u | 0 <= u < |i.vars|
      ensures VarInRange(i.vars[u], |i.ops|)
    {
      assert VarInRange(g.vars[u], |g.ops|);
    }
  }

  /** The SSAGraph object the builders fill in place. */
  class SSAGraph {
    var vars: seq<VarNode>
    var ops: seq<OpHandle>
    var versions: seq<map<string, seq<VarId>>>
    var depVars: set<VarId>

    function Snapshot(): Graph
      reads this
    {
      Graph(vars, ops, versions, depVars)
    }

    /** An empty graph with one variable table per place. */
    constructor(places: nat)
      ensures Snapshot() == Graph([], [], seq(places, p => map[]), {})
    {
      vars := [];
      ops := [];
      versions := seq(places, p => map[]);
      depVars := {};
    }

    /** A new variable handle of the given kind, with no edges yet. */
    method NewVarHandle(kind: VarKind) returns (v: VarId)
      modifies this
      ensures Snapshot() == NewVar(old(Snapshot()), kind) && v == |old(vars)|
    {
      v := |vars|;
      vars := vars + [VarNode(kind, None, {})];
    }

    /** A new operator handle without edges. */
    method NewOpHandle(opType: string) returns (o: OpId)
      modifies this
      ensures Snapshot() == NewOp(old(Snapshot()), opType) && o == |old(ops)|
    {
      o := |ops|;
      ops := ops + [OpHandle(opType, [], [])];
    }

    /** ops[o]->AddOutput(vars[v]). */
    method AddOpOutput(o: OpId, v: VarId)
      requires o < |ops| && v < |vars|
      modifies this
      ensures Snapshot() == WithOutput(old(Snapshot()), o, v)
    {
      ops := ops[o := ops[o].(outputs := ops[o].outputs + [v])];
      vars := vars[v := vars[v].(generator := Some(o))];
    }

    /** ops[o]->AddInput(vars[v]). */
    method AddOpInput(o: OpId, v: VarId)
      requires o < |ops| && v < |vars|
      modifies this
      ensures Snapshot() == WithInput(old(Snapshot()), o, v)
    {
      ops := ops[o := ops[o].(inputs := ops[o].inputs + [v])];
      vars := vars[v := vars[v].(pending := vars[v].pending + {o})];
    }
  }
}
