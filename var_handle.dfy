/** framework/details/var_handle.h: a variable version of the SSA graph,
  * wrapping an IR node. It has at most one generating operator and a set of
  * operators waiting on it, mirrored in the node's input and output lists. */
module VarHandles {
  import opened Wrappers

  /** An operator handle; None stands for nullptr. */
  type OpRef = nat
  /** An IR node. */
  type NodeRef = nat

  /** `s` without any occurrence of `x`, the others in order
    * (std::remove followed by erase). */
  function RemoveAll(s: seq<NodeRef>, x: NodeRef): (r: seq<NodeRef>)
  {
    if s == [] then [] else RemoveAll(s[..|s| - 1], x) + (if s[|s| - 1] == x then [] else [s[|s| - 1]])
  }

  /** RemoveAll leaves no `x`, keeps every other element as often as it
    * was there, and never lengthens the list. */
  lemma {:induction false} RemoveAllSpec(s: seq<NodeRef>, x: NodeRef)
    ensures x !in RemoveAll(s, x)
    ensures forall y :: y != x ==> multiset(RemoveAll(s, x))[y] == multiset(s)[y]
    ensures |RemoveAll(s, x)| <= |s|
    ensures x !in s ==> RemoveAll(s, x) == s
    decreases |s|
  {
    if s != [] {
      var front := s[..|s| - 1];
      RemoveAllSpec(front, x);
      assert s == front + [s[|s| - 1]];
    }
  }

  /** RemoveAll keeps the relative order: it is the list of the kept
    * elements read from front to back. */
  lemma {:induction false} RemoveAllAppend(s: seq<NodeRef>, t: seq<NodeRef>, x: NodeRef)
    ensures RemoveAll(s + t, x) == RemoveAll(s, x) + RemoveAll(t, x)
    decreases |t|
  {
    if t == [] {
      assert s + t == s;
    } else {
      var front := t[..|t| - 1];
      assert s + t == (s + front) + [t[|t| - 1]];
      assert (s + t)[..|s + t| - 1] == s + front;
      RemoveAllAppend(s, front, x);
    }
  }

  class VarHandleBase {
    var generatedOp: Option<OpRef>
    var pendingOps: set<OpRef>
    /** node_->inputs and node_->outputs. */
    var nodeInputs: seq<NodeRef>
    var nodeOutputs: seq<NodeRef>

    /** A handle wraps a node with the edges the node already has. */
    constructor(nodeInputs: seq<NodeRef>, nodeOutputs: seq<NodeRef>)
      ensures generatedOp == None && pendingOps == {}
      ensures this.nodeInputs == nodeInputs && this.nodeOutputs == nodeOutputs
    {
      generatedOp := None;
      pendingOps := {};
      this.nodeInputs := nodeInputs;
      this.nodeOutputs := nodeOutputs;
    }

    /** AddInput: `input` becomes the one generator, replacing any earlier
      * one, and `node` the node's only input. */
    method AddInput(input: Option<OpRef>, node: NodeRef)
      modifies this
      ensures generatedOp == input && nodeInputs == [node]
      ensures pendingOps == old(pendingOps) && nodeOutputs == old(nodeOutputs)
    {
      nodeInputs := [];
      nodeInputs := nodeInputs + [node];
      generatedOp := input;
    }

    /** AddOutput: an operator already waiting changes nothing; a null one
      * is refused; any other is added, and its node appended. */
    method AddOutput(out: Option<OpRef>, node: NodeRef) returns (r: Outcome)
      modifies this
      ensures r.Fail? <==> out.None?
      ensures out.Some? && out.value in old(pendingOps) ==>
        pendingOps == old(pendingOps) && nodeOutputs == old(nodeOutputs)
      ensures out.Some? && out.value !in old(pendingOps) ==>
        pendingOps == old(pendingOps) + {out.value} && nodeOutputs == old(nodeOutputs) + [node]
      ensures out.None? ==> pendingOps == old(pendingOps) && nodeOutputs == old(nodeOutputs)
      ensures generatedOp == old(generatedOp) && nodeInputs == old(nodeInputs)
    {
      if out.None? || out.value !in pendingOps {
        if out.None? {
          return Fail("The output of the variable should not be nullptr");
        }
        pendingOps := pendingOps + {out.value};
        nodeOutputs := nodeOutputs + [node];
      }
      return Pass;
    }

    /** RemoveOutput: the operator stops waiting and every occurrence of
      * its node leaves the output list. */
    method RemoveOutput(out: Option<OpRef>, node: NodeRef)
      modifies this
      ensures pendingOps == if out.Some? then old(pendingOps) - {out.value} else old(pendingOps)
      ensures nodeOutputs == RemoveAll(old(nodeOutputs), node)
      ensures generatedOp == old(generatedOp) && nodeInputs == old(nodeInputs)
    {
      if out.Some? {
        pendingOps := pendingOps - {out.value};
      }
      var kept: seq<NodeRef> := [];
      var i := 0;
      while i < |nodeOutputs|
        invariant 0 <= i <= |nodeOutputs|
        invariant kept == RemoveAll(nodeOutputs[..i], node)
      {
        assert nodeOutputs[..i + 1][..i] == nodeOutputs[..i];
        if nodeOutputs[i] != node {
          kept := kept + [nodeOutputs[i]];
        }
        i := i + 1;
      }
      assert nodeOutputs[..i] == nodeOutputs;
      nodeOutputs := kept;
    }

    /** ClearGeneratedOp: no generator and no node input is left. */
    method ClearGeneratedOp()
      modifies this
      ensures generatedOp == None && nodeInputs == []
      ensures pendingOps == old(pendingOps) && nodeOutputs == old(nodeOutputs)
    {
      generatedOp := None;
      nodeInputs := [];
    }
  }

  /** Adding the same output twice leaves the handle as adding it once. */
  method AddOutputIsIdempotent(v: VarHandleBase, op: OpRef, node: NodeRef)
    modifies v
    ensures v.pendingOps == old(v.pendingOps) + {op}
    ensures v.nodeOutputs == old(v.nodeOutputs) + (if op in old(v.pendingOps) then [] else [node])
  {
    var r := v.AddOutput(Some(op), node);
    r := v.AddOutput(Some(op), node);
  }

  /** A later AddInput replaces the generator: the graph stays single
    * assignment. */
  method AddInputReplaces(v: VarHandleBase, first: OpRef, second: OpRef, node1: NodeRef, node2: NodeRef)
    modifies v
    ensures v.generatedOp == Some(second) && v.nodeInputs == [node2]
  {
    v.AddInput(Some(first), node1);
    v.AddInput(Some(second), node2);
  }

  /** A VarHandle: one version of a runtime variable. */
  datatype VarHandle = VarHandle(generatedOp: Option<OpRef>, version: nat, scopeIdx: nat, name: string, place: int)

  /** IsTheSameVar: same generator, name and scope, whatever the version. */
  predicate IsTheSameVar(a: VarHandle, b: VarHandle)
  {
    b.generatedOp == a.generatedOp && b.name == a.name && b.scopeIdx == a.scopeIdx
  }

  /** Versions and places do not tell variables apart. */
  lemma IsTheSameVarIgnoresVersion(a: VarHandle, version: nat, place: int)
    ensures IsTheSameVar(a, a.(version := version, place := place))
  {
  }

  /** IsTheSameVar is an equivalence. */
  lemma IsTheSameVarEquivalence(a: VarHandle, b: VarHandle, c: VarHandle)
    ensures IsTheSameVar(a, a)
    ensures IsTheSameVar(a, b) ==> IsTheSameVar(b, a)
    ensures IsTheSameVar(a, b) && IsTheSameVar(b, c) ==> IsTheSameVar(a, c)
  {
  }

  /** The name every DummyVarHandle reports. */
  const DummyVarName := "DummyVar"
}
