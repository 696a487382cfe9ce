/** framework/ir/fuse_elewise_add_act_pass.cc: fusing an elementwise_add and
  * an activation that one feeds into a fused_elemwise_activation op, and
  * dropping intermediate outputs nobody reads. Matching the two ops in the
  * graph (GraphPatternDetector) is not part of this model: the handlers are
  * given the matched nodes. */
module FuseElewiseAddActPass {
  import opened Wrappers
  import opened IrNode
  import opened IrGraph

  /** The enforce that the first op writes only the intermediate variable. */
  const NotIntermediate: string := "Enforce failed: an output of the first op is not the intermediate variable"

  // Node lists

  /** Every entry, with `cur` replaced by `repl`. */
  function Replaced(cur: NodeId, repl: NodeId, nodes: seq<NodeId>): (r: seq<NodeId>)
    ensures |r| == |nodes|
    ensures forall i :: 0 <= i < |nodes| ==> r[i] == (if nodes[i] == cur then repl else nodes[i])
  {
    if nodes == [] then []
    else [if nodes[0] == cur then repl else nodes[0]] + Replaced(cur, repl, nodes[1..])
  }

  /** ReplaceNode (lines 391-406): every occurrence of `cur` becomes `repl`;
    * the list must hold `cur`. */
  function ReplaceNode(cur: NodeId, repl: NodeId, nodes: seq<NodeId>): (r: Result<seq<NodeId>>)
    ensures r.Ok? <==> cur in nodes
    ensures r.Ok? ==> |r.value| == |nodes|
    ensures r.Ok? ==> forall i :: 0 <= i < |nodes| ==> r.value[i] == (if nodes[i] == cur then repl else nodes[i])
    ensures r.Ok? && cur != repl ==> cur !in r.value && repl in r.value
  {
    if cur in nodes then
      var i :| 0 <= i < |nodes| && nodes[i] == cur;
      assert Replaced(cur, repl, nodes)[i] == repl;
      Ok(Replaced(cur, repl, nodes))
    else Err("Not find the node in the node list.")
  }

  /** Replacing back restores the list, when `repl` was not in it. */
  lemma ReplaceNodeInverse(cur: NodeId, repl: NodeId, nodes: seq<NodeId>)
    requires cur in nodes && repl !in nodes
    ensures ReplaceNode(repl, cur, ReplaceNode(cur, repl, nodes).value) == Ok(nodes)
  {
    var once := ReplaceNode(cur, repl, nodes).value;
    var i :| 0 <= i < |nodes| && nodes[i] == cur;
    assert once[i] == repl;
    var back := ReplaceNode(repl, cur, once).value;
    forall j | 0 <= j < |nodes|
      ensures back[j] == nodes[j]
    {
      assert once[j] == (if nodes[j] == cur then repl else nodes[j]);
    }
    assert back == nodes;
  }

  /** RemoveNode (lines 408-417): the list without `trg`, in order. */
  function RemoveNode(trg: NodeId, nodes: seq<NodeId>): (r: seq<NodeId>)
    ensures forall x :: x in r <==> x in nodes && x != trg
    ensures multiset(r) == multiset(nodes)[trg := 0]
    ensures |r| == |nodes| - multiset(nodes)[trg]
  {
    if nodes == [] then []
    else
      assert nodes == [nodes[0]] + nodes[1..];
      if nodes[0] == trg then RemoveNode(trg, nodes[1..]) else [nodes[0]] + RemoveNode(trg, nodes[1..])
  }

  /** RemoveNode keeps the order: it distributes over concatenation. */
  lemma {:induction false} RemoveNodeConcat(trg: NodeId, a: seq<NodeId>, b: seq<NodeId>)
    ensures RemoveNode(trg, a + b) == RemoveNode(trg, a) + RemoveNode(trg, b)
  {
    if a != [] {
      assert (a + b)[0] == a[0] && (a + b)[1..] == a[1..] + b;
      RemoveNodeConcat(trg, a[1..], b);
      if a[0] != trg {
        assert RemoveNode(trg, a + b) == [a[0]] + RemoveNode(trg, a[1..] + b);
      }
    } else {
      assert a + b == b;
    }
  }

  /** A list without `trg` is left as it is, so RemoveNode is idempotent. */
  lemma {:induction false} RemoveNodeAbsent(trg: NodeId, nodes: seq<NodeId>)
    requires trg !in nodes
    ensures RemoveNode(trg, nodes) == nodes
  {
    if nodes != [] {
      RemoveNodeAbsent(trg, nodes[1..]);
    }
  }

  lemma RemoveNodeIdempotent(trg: NodeId, nodes: seq<NodeId>)
    ensures RemoveNode(trg, RemoveNode(trg, nodes)) == RemoveNode(trg, nodes)
  {
    RemoveNodeAbsent(trg, RemoveNode(trg, nodes));
  }

  /** A list without the members of `dels`, in order. */
  function Without(s: seq<NodeId>, dels: set<NodeId>): (r: seq<NodeId>)
    ensures forall x :: x in r <==> x in s && x !in dels
    ensures |r| <= |s|
  {
    if s == [] then [] else (if s[0] in dels then [] else [s[0]]) + Without(s[1..], dels)
  }

  lemma Associative(a: seq<NodeId>, b: seq<NodeId>, c: seq<NodeId>)
    ensures a + b + c == a + (b + c)
  {
  }

  /** RemoveNode drops one node the way GraphSafeRemoveNodes drops a set. */
  lemma {:induction false} RemoveNodeIsWithout(trg: NodeId, s: seq<NodeId>)
    ensures RemoveNode(trg, s) == Without(s, {trg})
  {
    if s != [] {
      RemoveNodeIsWithout(trg, s[1..]);
    }
  }

  lemma {:induction false} WithoutConcat(a: seq<NodeId>, b: seq<NodeId>, dels: set<NodeId>)
    ensures Without(a + b, dels) == Without(a, dels) + Without(b, dels)
  {
    if a == [] {
      assert a + b == b;
    } else {
      assert (a + b)[0] == a[0] && (a + b)[1..] == a[1..] + b;
      WithoutConcat(a[1..], b, dels);
    }
  }

  /** Only the members of the list matter to Without. */
  lemma {:induction false} WithoutSame(s: seq<NodeId>, a: set<NodeId>, b: set<NodeId>)
    requires forall x :: x in s ==> (x in a <==> x in b)
    ensures Without(s, a) == Without(s, b)
  {
    if s != [] {
      WithoutSame(s[1..], a, b);
    }
  }

  /** Dropping two sets one after the other drops their union. */
  lemma {:induction false} WithoutTwice(s: seq<NodeId>, a: set<NodeId>, b: set<NodeId>)
    ensures Without(Without(s, a), b) == Without(s, a + b)
  {
    if s != [] {
      WithoutTwice(s[1..], a, b);
      WithoutConcat(if s[0] in a then [] else [s[0]], Without(s[1..], a), b);
    }
  }

  lemma {:induction false} WithoutNothing(s: seq<NodeId>, dels: set<NodeId>)
    requires forall x :: x in s ==> x !in dels
    ensures Without(s, dels) == s
  {
    if s != [] {
      WithoutNothing(s[1..], dels);
    }
  }

  // Graph edits used by the pass

  /** GraphSafeRemoveNodes: the nodes leave the graph and so does every edge
    * leading to them. */
  function SafeRemove(nodes: map<NodeId, Node>, dels: set<NodeId>): (r: map<NodeId, Node>)
    ensures r.Keys == nodes.Keys - dels
    ensures forall k :: k in r ==>
      r[k] == nodes[k].(inputs := Without(nodes[k].inputs, dels), outputs := Without(nodes[k].outputs, dels))
  {
    map k | k in nodes && k !in dels :: nodes[k].(inputs := Without(nodes[k].inputs, dels),
                                                 outputs := Without(nodes[k].outputs, dels))
  }

  /** IR_OP_VAR_LINK(op, v): `v` becomes the last output of `op`, and `op` its
    * only input. */
  function Link(nodes: map<NodeId, Node>, op: NodeId, v: NodeId): (r: map<NodeId, Node>)
    requires op in nodes && v in nodes && op != v
    ensures r.Keys == nodes.Keys
  {
    var m := nodes[op := nodes[op].(outputs := nodes[op].outputs + [v])];
    m[v := m[v].(inputs := [op])]
  }

  /** Node::kControlDepVarName (node.h:30). */
  const ControlDepVarName := "__control_var"

  predicate Contains(s: string, part: string)
    decreases |s|
  {
    part <= s || (s != [] && Contains(s[1..], part))
  }

  /** Node::IsCtrlVar: a variable named as a control dependency. */
  predicate IsCtrlVar(n: Node)
  {
    IsVar(n) && Contains(n.name, ControlDepVarName)
  }

  /** Two graph states over the same nodes, each keeping its name and kind. */
  ghost predicate SameKinds(a: map<NodeId, Node>, b: map<NodeId, Node>)
  {
    a.Keys == b.Keys &&
    forall k :: k in a ==> a[k].name == b[k].name && a[k].nodeType == b[k].nodeType
  }

  /** Every member of `s` is a node other than `fused`. */
  ghost predicate Within(nodes: map<NodeId, Node>, s: seq<NodeId>, fused: NodeId)
  {
    forall x :: x in s ==> x in nodes && x != fused
  }

  /** Every member of `ins` lists `op` among its outputs. */
  ghost predicate Mirrored(nodes: map<NodeId, Node>, ins: seq<NodeId>, op: NodeId)
    requires forall x :: x in ins ==> x in nodes
  {
    forall x :: x in ins ==> op in nodes[x].outputs
  }

  // ReLinkNodes (lines 345-389), one loop at a time

  /** The first and third loops of ReLinkNodes: each input outside `skip`
    * is appended to the fused op's inputs and its edge to `op` is turned to
    * the fused op. */
  function FeedFused(nodes: map<NodeId, Node>, ins: seq<NodeId>, op: NodeId, fused: NodeId,
                     skip: set<NodeId>): (r: Result<map<NodeId, Node>>)
    requires fused in nodes && Within(nodes, ins, fused)
    ensures r.Ok? ==> r.value.Keys == nodes.Keys
    decreases |ins|
  {
    if ins == [] then Ok(nodes)
    else if ins[0] in skip then FeedFused(nodes, ins[1..], op, fused, skip)
    else
      var x := ins[0];
      var withIn := nodes[fused := nodes[fused].(inputs := nodes[fused].inputs + [x])];
      var outs := ReplaceNode(op, fused, withIn[x].outputs);
      if outs.Err? then Err(outs.error)
      else FeedFused(withIn[x := withIn[x].(outputs := outs.value)], ins[1..], op, fused, skip)
  }

  /** The loop fails only on an input that does not list `op` (again). */
  lemma {:induction false} FeedFusedOk(nodes: map<NodeId, Node>, ins: seq<NodeId>, op: NodeId, fused: NodeId,
                                       skip: set<NodeId>)
    requires fused in nodes && op != fused && Within(nodes, ins, fused)
    requires Mirrored(nodes, ins, op) && NoDuplicates(ins)
    ensures FeedFused(nodes, ins, op, fused, skip).Ok?
  {
    if ins != [] {
      var x := ins[0];
      var withIn := nodes[fused := nodes[fused].(inputs := nodes[fused].inputs + [x])];
      if x !in skip {
        var outs := ReplaceNode(op, fused, withIn[x].outputs);
        var m := withIn[x := withIn[x].(outputs := outs.value)];
        forall y | y in ins[1..]
          ensures op in m[y].outputs
        {
          var j :| 0 <= j < |ins[1..]| && ins[1..][j] == y;
          assert ins[j + 1] == y;
        }
        FeedFusedOk(m, ins[1..], op, fused, skip);
      } else {
        FeedFusedOk(nodes, ins[1..], op, fused, skip);
      }
    }
  }

  lemma SeqAssoc(a: seq<NodeId>, b: seq<NodeId>, c: seq<NodeId>)
    ensures a + b + c == a + (b + c)
  {
  }

  /** The loop keeps every node's name and kind, and touches the inputs of
    * the fused op only and the outputs of the visited inputs only. */
  lemma {:induction false} FeedFusedFrame(nodes: map<NodeId, Node>, ins: seq<NodeId>, op: NodeId, fused: NodeId,
                                          skip: set<NodeId>)
    requires fused in nodes && Within(nodes, ins, fused)
    requires FeedFused(nodes, ins, op, fused, skip).Ok?
    ensures var m := FeedFused(nodes, ins, op, fused, skip).value;
      SameKinds(m, nodes) &&
      (forall k :: k in nodes && k != fused ==> m[k].inputs == nodes[k].inputs) &&
      (forall k :: k in nodes && k !in ins && k != fused ==> m[k] == nodes[k])
  {
    if ins != [] {
      var x := ins[0];
      if x in skip {
        FeedFusedFrame(nodes, ins[1..], op, fused, skip);
      } else {
        var withIn := nodes[fused := nodes[fused].(inputs := nodes[fused].inputs + [x])];
        var outs := ReplaceNode(op, fused, withIn[x].outputs);
        var m := withIn[x := withIn[x].(outputs := outs.value)];
        FeedFusedFrame(m, ins[1..], op, fused, skip);
      }
    }
  }

  /** The loop appends the visited inputs not in `skip` to the fused op's
    * inputs, in order. */
  lemma {:induction false} FeedFusedInputs(nodes: map<NodeId, Node>, ins: seq<NodeId>, op: NodeId, fused: NodeId,
                                           skip: set<NodeId>)
    requires fused in nodes && Within(nodes, ins, fused)
    requires FeedFused(nodes, ins, op, fused, skip).Ok?
    ensures FeedFused(nodes, ins, op, fused, skip).value[fused] ==
            nodes[fused].(inputs := nodes[fused].inputs + Without(ins, skip))
  {
    if ins != [] {
      var x := ins[0];
      if x in skip {
        FeedFusedInputs(nodes, ins[1..], op, fused, skip);
      } else {
        var withIn := nodes[fused := nodes[fused].(inputs := nodes[fused].inputs + [x])];
        var outs := ReplaceNode(op, fused, withIn[x].outputs);
        var m := withIn[x := withIn[x].(outputs := outs.value)];
        FeedFusedInputs(m, ins[1..], op, fused, skip);
        assert m[fused] == withIn[fused];
        var rest := Without(ins[1..], skip);
        assert Without(ins, skip) == [x] + rest;
        SeqAssoc(nodes[fused].inputs, [x], rest);
      }
    }
  }

  /** The loop keeps every output edge except those to `op`, and each
    * visited input not in `skip` now feeds the fused op. */
  lemma {:induction false} FeedFusedOutputs(nodes: map<NodeId, Node>, ins: seq<NodeId>, op: NodeId, fused: NodeId,
                                            skip: set<NodeId>)
    requires fused in nodes && op != fused && Within(nodes, ins, fused)
    requires FeedFused(nodes, ins, op, fused, skip).Ok?
    ensures var m := FeedFused(nodes, ins, op, fused, skip).value;
      (forall k, y :: k in nodes && y in nodes[k].outputs && y != op ==> y in m[k].outputs) &&
      (forall x :: x in ins && x !in skip ==> fused in m[x].outputs)
  {
    if ins != [] {
      var x := ins[0];
      if x in skip {
        FeedFusedOutputs(nodes, ins[1..], op, fused, skip);
      } else {
        var withIn := nodes[fused := nodes[fused].(inputs := nodes[fused].inputs + [x])];
        var outs := ReplaceNode(op, fused, withIn[x].outputs);
        var m := withIn[x := withIn[x].(outputs := outs.value)];
        FeedFusedOutputs(m, ins[1..], op, fused, skip);
        FeedFusedFrame(m, ins[1..], op, fused, skip);
      }
    }
  }

  /** What the loop makes of the fused op and of the inputs it visits. */
  lemma FeedFusedEdges(nodes: map<NodeId, Node>, ins: seq<NodeId>, op: NodeId, fused: NodeId,
                       skip: set<NodeId>)
    requires fused in nodes && op != fused && Within(nodes, ins, fused)
    requires FeedFused(nodes, ins, op, fused, skip).Ok?
    ensures var m := FeedFused(nodes, ins, op, fused, skip).value;
      SameKinds(m, nodes) &&
      m[fused] == nodes[fused].(inputs := nodes[fused].inputs + Without(ins, skip)) &&
      (forall k :: k in nodes && k != fused ==> m[k].inputs == nodes[k].inputs) &&
      (forall k :: k in nodes && k !in ins && k != fused ==> m[k] == nodes[k]) &&
      (forall k, y :: k in nodes && y in nodes[k].outputs && y != op ==> y in m[k].outputs) &&
      (forall x :: x in ins && x !in skip ==> fused in m[x].outputs)
  {
    FeedFusedFrame(nodes, ins, op, fused, skip);
    FeedFusedInputs(nodes, ins, op, fused, skip);
    FeedFusedOutputs(nodes, ins, op, fused, skip);
  }

  /** The outputs of op_1 that are control variables op_2 also reads: they
    * are dropped with the two ops. */
  function SharedCtrl(nodes: map<NodeId, Node>, outs: seq<NodeId>, op2Inputs: seq<NodeId>): set<NodeId>
  {
    set out | out in outs && out in nodes && IsCtrlVar(nodes[out]) && out in op2Inputs
  }

  /** The second loop of ReLinkNodes: each output of op_1 is linked to the
    * fused op, except a control variable op_2 reads, which joins `dels`;
    * an output that is neither a control variable nor the intermediate
    * variable fails the enforce. */
  function LinkOp1Outputs(nodes: map<NodeId, Node>, outs: seq<NodeId>, fused: NodeId, op2Inputs: seq<NodeId>,
                          intermediate: NodeId, dels: set<NodeId>): (r: Result<(map<NodeId, Node>, set<NodeId>)>)
    requires fused in nodes && Within(nodes, outs, fused)
    ensures r.Ok? ==> r.value.0.Keys == nodes.Keys
    decreases |outs|
  {
    if outs == [] then Ok((nodes, dels))
    else
      var out := outs[0];
      if IsCtrlVar(nodes[out]) then
        if out in op2Inputs then LinkOp1Outputs(nodes, outs[1..], fused, op2Inputs, intermediate, dels + {out})
        else LinkOp1Outputs(Link(nodes, fused, out), outs[1..], fused, op2Inputs, intermediate, dels)
      else if out != intermediate then Err(NotIntermediate)
      else LinkOp1Outputs(Link(nodes, fused, out), outs[1..], fused, op2Inputs, intermediate, dels)
  }

  /** The enforce of the second loop, both ways. */
  lemma {:induction false} LinkOp1OutputsOk(nodes: map<NodeId, Node>, outs: seq<NodeId>, fused: NodeId,
                                            op2Inputs: seq<NodeId>, intermediate: NodeId, dels: set<NodeId>)
    requires fused in nodes && Within(nodes, outs, fused)
    ensures LinkOp1Outputs(nodes, outs, fused, op2Inputs, intermediate, dels).Ok? <==>
      forall out :: out in outs ==> IsCtrlVar(nodes[out]) || out == intermediate
  {
    if outs != [] {
      var out := outs[0];
      var m := if IsCtrlVar(nodes[out]) && out in op2Inputs then nodes else Link(nodes, fused, out);
      var d := if IsCtrlVar(nodes[out]) && out in op2Inputs then dels + {out} else dels;
      assert forall y :: y in nodes ==> m[y].name == nodes[y].name && m[y].nodeType == nodes[y].nodeType;
      LinkOp1OutputsOk(m, outs[1..], fused, op2Inputs, intermediate, d);
      assert forall y :: y in outs <==> y == out || y in outs[1..];
    }
  }

  /** The shared control variables, first output first; the rest are read
    * from any state that keeps names and kinds. */
  lemma SharedCtrlSplit(nodes: map<NodeId, Node>, m: map<NodeId, Node>, outs: seq<NodeId>, op2Inputs: seq<NodeId>)
    requires outs != [] && forall x :: x in outs ==> x in nodes
    requires SameKinds(m, nodes)
    ensures SharedCtrl(nodes, outs, op2Inputs) ==
      (if IsCtrlVar(nodes[outs[0]]) && outs[0] in op2Inputs then {outs[0]} else {}) + SharedCtrl(m, outs[1..], op2Inputs)
  {
    assert forall y :: y in outs <==> y == outs[0] || y in outs[1..];
  }

  /** The control variables the second loop sets aside. */
  lemma {:induction false} LinkOp1OutputsShared(nodes: map<NodeId, Node>, outs: seq<NodeId>, fused: NodeId,
                                                op2Inputs: seq<NodeId>, intermediate: NodeId, dels: set<NodeId>)
    requires fused in nodes && Within(nodes, outs, fused)
    requires LinkOp1Outputs(nodes, outs, fused, op2Inputs, intermediate, dels).Ok?
    ensures var (m, d) := LinkOp1Outputs(nodes, outs, fused, op2Inputs, intermediate, dels).value;
      SameKinds(m, nodes) && d == dels + SharedCtrl(nodes, outs, op2Inputs)
  {
    if outs != [] {
      var out := outs[0];
      var isShared := IsCtrlVar(nodes[out]) && out in op2Inputs;
      var m := if isShared then nodes else Link(nodes, fused, out);
      var d := if isShared then dels + {out} else dels;
      assert SameKinds(m, nodes);
      LinkOp1OutputsShared(m, outs[1..], fused, op2Inputs, intermediate, d);
      SharedCtrlSplit(nodes, m, outs, op2Inputs);
    }
  }

  /** The fused op gains the outputs of op_1 that are not set aside. */
  lemma {:induction false} LinkOp1OutputsFused(nodes: map<NodeId, Node>, outs: seq<NodeId>, fused: NodeId,
                                               op2Inputs: seq<NodeId>, intermediate: NodeId, dels: set<NodeId>)
    requires fused in nodes && Within(nodes, outs, fused)
    requires LinkOp1Outputs(nodes, outs, fused, op2Inputs, intermediate, dels).Ok?
    ensures LinkOp1Outputs(nodes, outs, fused, op2Inputs, intermediate, dels).value.0[fused] ==
      nodes[fused].(outputs := nodes[fused].outputs + Without(outs, SharedCtrl(nodes, outs, op2Inputs)))
  {
    if outs != [] {
      var out := outs[0];
      var isShared := IsCtrlVar(nodes[out]) && out in op2Inputs;
      var m := if isShared then nodes else Link(nodes, fused, out);
      var d := if isShared then dels + {out} else dels;
      var head := if isShared then [] else [out];
      assert m[fused] == nodes[fused].(outputs := nodes[fused].outputs + head);
      assert SameKinds(m, nodes);
      LinkOp1OutputsFused(m, outs[1..], fused, op2Inputs, intermediate, d);
      var rest := SharedCtrl(m, outs[1..], op2Inputs);
      var shared := SharedCtrl(nodes, outs, op2Inputs);
      SharedCtrlSplit(nodes, m, outs, op2Inputs);
      WithoutSame(outs[1..], rest, shared);
      assert Without(outs, shared) == head + Without(outs[1..], shared);
      Associative(nodes[fused].outputs, head, Without(outs[1..], shared));
    }
  }

  /** What the second loop makes of the other nodes: op_1's outputs that are
    * not set aside have the fused op as their only input. */
  lemma {:induction false} LinkOp1OutputsEdges(nodes: map<NodeId, Node>, outs: seq<NodeId>, fused: NodeId,
                                               op2Inputs: seq<NodeId>, intermediate: NodeId, dels: set<NodeId>)
    requires fused in nodes && Within(nodes, outs, fused)
    requires LinkOp1Outputs(nodes, outs, fused, op2Inputs, intermediate, dels).Ok?
    ensures var m := LinkOp1Outputs(nodes, outs, fused, op2Inputs, intermediate, dels).value.0;
      var shared := SharedCtrl(nodes, outs, op2Inputs);
      (forall k :: k in nodes && k != fused ==> m[k].outputs == nodes[k].outputs) &&
      (forall k :: k in nodes && k !in outs && k != fused ==> m[k] == nodes[k]) &&
      (forall out :: out in outs && out !in shared ==> m[out].inputs == [fused])
  {
    if outs != [] {
      var out := outs[0];
      var isShared := IsCtrlVar(nodes[out]) && out in op2Inputs;
      var m := if isShared then nodes else Link(nodes, fused, out);
      var d := if isShared then dels + {out} else dels;
      assert SameKinds(m, nodes);
      LinkOp1OutputsEdges(m, outs[1..], fused, op2Inputs, intermediate, d);
      SharedCtrlSplit(nodes, m, outs, op2Inputs);
    }
  }

  /** The fourth loop of ReLinkNodes: every output of op_2 is linked to the
    * fused op. */
  function LinkAll(nodes: map<NodeId, Node>, outs: seq<NodeId>, fused: NodeId): (r: map<NodeId, Node>)
    requires fused in nodes && Within(nodes, outs, fused)
    ensures r.Keys == nodes.Keys
    decreases |outs|
  {
    if outs == [] then nodes else LinkAll(Link(nodes, fused, outs[0]), outs[1..], fused)
  }

  /** Linking keeps names and kinds, touches the outputs of the fused op
    * only and leaves every node off the list and other than the fused op as
    * it was. */
  lemma {:induction false} LinkAllFrame(nodes: map<NodeId, Node>, outs: seq<NodeId>, fused: NodeId)
    requires fused in nodes && Within(nodes, outs, fused)
    ensures var m := LinkAll(nodes, outs, fused);
      SameKinds(m, nodes) &&
      (forall k :: k in nodes && k != fused ==> m[k].outputs == nodes[k].outputs) &&
      (forall k :: k in nodes && k !in outs && k != fused ==> m[k] == nodes[k])
  {
    if outs != [] {
      LinkAllFrame(Link(nodes, fused, outs[0]), outs[1..], fused);
    }
  }

  /** The fused op gains the listed outputs, in order. */
  lemma {:induction false} LinkAllFused(nodes: map<NodeId, Node>, outs: seq<NodeId>, fused: NodeId)
    requires fused in nodes && Within(nodes, outs, fused)
    ensures LinkAll(nodes, outs, fused)[fused] == nodes[fused].(outputs := nodes[fused].outputs + outs)
  {
    if outs != [] {
      var m := Link(nodes, fused, outs[0]);
      assert m[fused] == nodes[fused].(outputs := nodes[fused].outputs + [outs[0]]);
      LinkAllFused(m, outs[1..], fused);
      SeqAssoc(nodes[fused].outputs, [outs[0]], outs[1..]);
      assert [outs[0]] + outs[1..] == outs;
    }
  }

  /** Each listed node is now made by the fused op alone. */
  lemma {:induction false} LinkAllMade(nodes: map<NodeId, Node>, outs: seq<NodeId>, fused: NodeId)
    requires fused in nodes && Within(nodes, outs, fused)
    ensures forall out :: out in outs ==> LinkAll(nodes, outs, fused)[out].inputs == [fused]
  {
    if outs != [] {
      var m := Link(nodes, fused, outs[0]);
      LinkAllMade(m, outs[1..], fused);
      LinkAllFrame(m, outs[1..], fused);
    }
  }

  lemma LinkAllEdges(nodes: map<NodeId, Node>, outs: seq<NodeId>, fused: NodeId)
    requires fused in nodes && Within(nodes, outs, fused)
    ensures var m := LinkAll(nodes, outs, fused);
      SameKinds(m, nodes) &&
      m[fused] == nodes[fused].(outputs := nodes[fused].outputs + outs) &&
      (forall k :: k in nodes && k != fused ==> m[k].outputs == nodes[k].outputs) &&
      (forall k :: k in nodes && k !in outs && k != fused ==> m[k] == nodes[k]) &&
      (forall out :: out in outs ==> m[out].inputs == [fused])
  {
    LinkAllFrame(nodes, outs, fused);
    LinkAllFused(nodes, outs, fused);
    LinkAllMade(nodes, outs, fused);
  }

  /** What ReLinkNodes is given: two distinct ops whose edges lead to nodes of
    * the graph, and a fused op, distinct from both, created without edges. */
  ghost predicate ReLinkable(nodes: map<NodeId, Node>, op1: NodeId, op2: NodeId, fused: NodeId)
  {
    op1 in nodes && op2 in nodes && fused in nodes &&
    op1 != op2 && op1 != fused && op2 != fused &&
    nodes[fused].inputs == [] && nodes[fused].outputs == [] &&
    Within(nodes, nodes[op1].inputs, fused) && Within(nodes, nodes[op1].outputs, fused) &&
    Within(nodes, nodes[op2].inputs, fused) && Within(nodes, nodes[op2].outputs, fused)
  }

  /** The nodes ReLinkNodes removes: both ops and the control variables
    * between them. */
  function Dropped(nodes: map<NodeId, Node>, op1: NodeId, op2: NodeId): set<NodeId>
    requires op1 in nodes && op2 in nodes
  {
    SharedCtrl(nodes, nodes[op1].outputs, nodes[op2].inputs) + {op1, op2}
  }

  /** ReLinkNodes (lines 345-389) on the graph's nodes: the four loops, then
    * GraphSafeRemoveNodes. */
  function Relinked(nodes: map<NodeId, Node>, intermediate: NodeId, op1: NodeId, op2: NodeId,
                    fused: NodeId): (r: Result<map<NodeId, Node>>)
    requires ReLinkable(nodes, op1, op2, fused)
  {
    var n1 := nodes[op1];
    var n2 := nodes[op2];
    var fed := FeedFused(nodes, n1.inputs, op1, fused, {});
    if fed.Err? then Err(fed.error)
    else
      var linked := LinkOp1Outputs(fed.value, n1.outputs, fused, n2.inputs, intermediate, {});
      if linked.Err? then Err(linked.error)
      else
        var (m2, shared) := linked.value;
        var fed2 := FeedFused(m2, n2.inputs, op2, fused, {intermediate} + shared);
        if fed2.Err? then Err(fed2.error)
        else Ok(SafeRemove(LinkAll(fed2.value, n2.outputs, fused), shared + {op1, op2}))
  }

  lemma SharedCtrlKinds(a: map<NodeId, Node>, b: map<NodeId, Node>, outs: seq<NodeId>, op2Inputs: seq<NodeId>)
    requires SameKinds(a, b)
    ensures SharedCtrl(a, outs, op2Inputs) == SharedCtrl(b, outs, op2Inputs)
  {
  }

  /** ReLinkNodes fails when op_1 has an output that is neither a control
    * variable nor the intermediate variable, and succeeds on a graph whose
    * edges are mirrored and whose two ops list no input twice. */
  lemma RelinkedOk(nodes: map<NodeId, Node>, intermediate: NodeId, op1: NodeId, op2: NodeId, fused: NodeId)
    requires ReLinkable(nodes, op1, op2, fused)
    ensures Relinked(nodes, intermediate, op1, op2, fused).Ok? ==>
      forall out :: out in nodes[op1].outputs ==> IsCtrlVar(nodes[out]) || out == intermediate
    ensures Mirrored(nodes, nodes[op1].inputs, op1) && NoDuplicates(nodes[op1].inputs) &&
            Mirrored(nodes, nodes[op2].inputs, op2) && NoDuplicates(nodes[op2].inputs) &&
            (forall out :: out in nodes[op1].outputs ==> IsCtrlVar(nodes[out]) || out == intermediate) ==>
            Relinked(nodes, intermediate, op1, op2, fused).Ok?
  {
    var n1 := nodes[op1];
    var n2 := nodes[op2];
    var fed := FeedFused(nodes, n1.inputs, op1, fused, {});
    if Mirrored(nodes, n1.inputs, op1) && NoDuplicates(n1.inputs) {
      FeedFusedOk(nodes, n1.inputs, op1, fused, {});
    }
    if fed.Ok? {
      FeedFusedEdges(nodes, n1.inputs, op1, fused, {});
      LinkOp1OutputsOk(fed.value, n1.outputs, fused, n2.inputs, intermediate, {});
      var linked := LinkOp1Outputs(fed.value, n1.outputs, fused, n2.inputs, intermediate, {});
      if linked.Ok? {
        LinkOp1OutputsShared(fed.value, n1.outputs, fused, n2.inputs, intermediate, {});
        LinkOp1OutputsEdges(fed.value, n1.outputs, fused, n2.inputs, intermediate, {});
        var (m2, shared) := linked.value;
        if Mirrored(nodes, n2.inputs, op2) && NoDuplicates(n2.inputs) {
          assert Mirrored(m2, n2.inputs, op2);
          FeedFusedOk(m2, n2.inputs, op2, fused, {intermediate} + shared);
        }
      }
    }
  }

  /** The fused op's edges: op_1's inputs, then op_2's inputs but the
    * intermediate variable and the shared control variables; op_1's
    * outputs but the shared control variables, then op_2's outputs; none of
    * them a removed node. */
  lemma RelinkedFused(nodes: map<NodeId, Node>, intermediate: NodeId, op1: NodeId, op2: NodeId, fused: NodeId)
    requires ReLinkable(nodes, op1, op2, fused)
    requires Relinked(nodes, intermediate, op1, op2, fused).Ok?
    ensures var m := Relinked(nodes, intermediate, op1, op2, fused).value;
      var shared := SharedCtrl(nodes, nodes[op1].outputs, nodes[op2].inputs);
      var dropped := Dropped(nodes, op1, op2);
      fused in m &&
      m[fused].inputs == Without(nodes[op1].inputs + Without(nodes[op2].inputs, {intermediate} + shared), dropped) &&
      m[fused].outputs == Without(Without(nodes[op1].outputs, shared) + nodes[op2].outputs, dropped)
  {
    var n1 := nodes[op1];
    var n2 := nodes[op2];
    var m1 := FeedFused(nodes, n1.inputs, op1, fused, {}).value;
    FeedFusedEdges(nodes, n1.inputs, op1, fused, {});
    WithoutNothing(n1.inputs, {});
    var linked := LinkOp1Outputs(m1, n1.outputs, fused, n2.inputs, intermediate, {}).value;
    var m2 := linked.0;
    var shared := linked.1;
    LinkOp1OutputsShared(m1, n1.outputs, fused, n2.inputs, intermediate, {});
    LinkOp1OutputsFused(m1, n1.outputs, fused, n2.inputs, intermediate, {});
    SharedCtrlKinds(m1, nodes, n1.outputs, n2.inputs);
    var m3 := FeedFused(m2, n2.inputs, op2, fused, {intermediate} + shared).value;
    FeedFusedEdges(m2, n2.inputs, op2, fused, {intermediate} + shared);
    var m4 := LinkAll(m3, n2.outputs, fused);
    LinkAllEdges(m3, n2.outputs, fused);
    var dropped := shared + {op1, op2};
    assert Relinked(nodes, intermediate, op1, op2, fused) == Ok(SafeRemove(m4, dropped));
    assert shared == SharedCtrl(nodes, n1.outputs, n2.inputs);
    assert fused !in n1.outputs;
    assert fused !in dropped;
    assert m1[fused].inputs == n1.inputs && m1[fused].outputs == [];
    assert m2[fused].inputs == n1.inputs && m2[fused].outputs == Without(n1.outputs, shared);
    assert m3[fused].inputs == n1.inputs + Without(n2.inputs, {intermediate} + shared);
    assert m3[fused].outputs == Without(n1.outputs, shared);
  }

  // The loops' effect on one node

  lemma FeedFusedAt(nodes: map<NodeId, Node>, ins: seq<NodeId>, op: NodeId, fused: NodeId, skip: set<NodeId>,
                    k: NodeId)
    requires fused in nodes && op != fused && Within(nodes, ins, fused)
    requires FeedFused(nodes, ins, op, fused, skip).Ok? && k in nodes
    ensures var m := FeedFused(nodes, ins, op, fused, skip).value;
      k in m &&
      (k != fused ==> m[k].inputs == nodes[k].inputs) &&
      (k != fused && k !in ins ==> m[k] == nodes[k]) &&
      (forall y :: y in nodes[k].outputs && y != op ==> y in m[k].outputs) &&
      (k in ins && k !in skip ==> fused in m[k].outputs)
  {
    FeedFusedEdges(nodes, ins, op, fused, skip);
  }

  lemma LinkOp1OutputsAt(nodes: map<NodeId, Node>, outs: seq<NodeId>, fused: NodeId, op2Inputs: seq<NodeId>,
                         intermediate: NodeId, k: NodeId)
    requires fused in nodes && Within(nodes, outs, fused)
    requires LinkOp1Outputs(nodes, outs, fused, op2Inputs, intermediate, {}).Ok? && k in nodes && k != fused
    ensures var m := LinkOp1Outputs(nodes, outs, fused, op2Inputs, intermediate, {}).value.0;
      k in m && m[k].outputs == nodes[k].outputs &&
      (k !in outs ==> m[k] == nodes[k]) &&
      (k in outs && k !in SharedCtrl(nodes, outs, op2Inputs) ==> m[k].inputs == [fused])
  {
    LinkOp1OutputsEdges(nodes, outs, fused, op2Inputs, intermediate, {});
  }

  lemma LinkAllAt(nodes: map<NodeId, Node>, outs: seq<NodeId>, fused: NodeId, k: NodeId)
    requires fused in nodes && Within(nodes, outs, fused) && k in nodes && k != fused
    ensures var m := LinkAll(nodes, outs, fused);
      k in m && m[k].outputs == nodes[k].outputs &&
      (k !in outs ==> m[k] == nodes[k]) &&
      (k in outs ==> m[k].inputs == [fused])
  {
    LinkAllEdges(nodes, outs, fused);
  }

  /** After ReLinkNodes the graph holds its nodes but the removed ones, each
    * with its name and kind, and no edge to a removed node. */
  lemma RelinkedShape(nodes: map<NodeId, Node>, intermediate: NodeId, op1: NodeId, op2: NodeId, fused: NodeId)
    requires ReLinkable(nodes, op1, op2, fused)
    requires Relinked(nodes, intermediate, op1, op2, fused).Ok?
    ensures var m := Relinked(nodes, intermediate, op1, op2, fused).value;
      var dropped := Dropped(nodes, op1, op2);
      m.Keys == nodes.Keys - dropped &&
      (forall k :: k in m ==> m[k].name == nodes[k].name && m[k].nodeType == nodes[k].nodeType) &&
      (forall k, y :: k in m && y in dropped ==> y !in m[k].inputs && y !in m[k].outputs)
  {
    var n1 := nodes[op1];
    var n2 := nodes[op2];
    var m1 := FeedFused(nodes, n1.inputs, op1, fused, {}).value;
    FeedFusedEdges(nodes, n1.inputs, op1, fused, {});
    var linked := LinkOp1Outputs(m1, n1.outputs, fused, n2.inputs, intermediate, {}).value;
    var m2 := linked.0;
    var shared := linked.1;
    LinkOp1OutputsShared(m1, n1.outputs, fused, n2.inputs, intermediate, {});
    SharedCtrlKinds(m1, nodes, n1.outputs, n2.inputs);
    var m3 := FeedFused(m2, n2.inputs, op2, fused, {intermediate} + shared).value;
    FeedFusedEdges(m2, n2.inputs, op2, fused, {intermediate} + shared);
    var m4 := LinkAll(m3, n2.outputs, fused);
    LinkAllEdges(m3, n2.outputs, fused);
    assert Relinked(nodes, intermediate, op1, op2, fused) == Ok(SafeRemove(m4, shared + {op1, op2}));
    assert shared == SharedCtrl(nodes, n1.outputs, n2.inputs);
  }

  /** Every kept output of the two ops has the fused op as its only input. */
  lemma RelinkedOutputs(nodes: map<NodeId, Node>, intermediate: NodeId, op1: NodeId, op2: NodeId, fused: NodeId)
    requires ReLinkable(nodes, op1, op2, fused)
    requires Relinked(nodes, intermediate, op1, op2, fused).Ok?
    ensures var m := Relinked(nodes, intermediate, op1, op2, fused).value;
      forall out :: (out in nodes[op1].outputs || out in nodes[op2].outputs) && out !in Dropped(nodes, op1, op2) ==>
        out in m && m[out].inputs == [fused]
  {
    var n1 := nodes[op1];
    var n2 := nodes[op2];
    var m1 := FeedFused(nodes, n1.inputs, op1, fused, {}).value;
    FeedFusedEdges(nodes, n1.inputs, op1, fused, {});
    var linked := LinkOp1Outputs(m1, n1.outputs, fused, n2.inputs, intermediate, {}).value;
    var m2 := linked.0;
    var shared := linked.1;
    LinkOp1OutputsShared(m1, n1.outputs, fused, n2.inputs, intermediate, {});
    SharedCtrlKinds(m1, nodes, n1.outputs, n2.inputs);
    var m3 := FeedFused(m2, n2.inputs, op2, fused, {intermediate} + shared).value;
    var m4 := LinkAll(m3, n2.outputs, fused);
    var dropped := shared + {op1, op2};
    assert Relinked(nodes, intermediate, op1, op2, fused) == Ok(SafeRemove(m4, dropped));
    assert shared == SharedCtrl(nodes, n1.outputs, n2.inputs);
    assert fused !in n1.outputs && fused !in dropped;
    forall out | (out in n1.outputs || out in n2.outputs) && out !in dropped
      ensures m4[out].inputs == [fused]
    {
      LinkOp1OutputsAt(m1, n1.outputs, fused, n2.inputs, intermediate, out);
      FeedFusedAt(m2, n2.inputs, op2, fused, {intermediate} + shared, out);
      LinkAllAt(m3, n2.outputs, fused, out);
    }
  }


  /** Every kept input of the two ops lists the fused op among its outputs. */
  lemma RelinkedInputs(nodes: map<NodeId, Node>, intermediate: NodeId, op1: NodeId, op2: NodeId, fused: NodeId)
    requires ReLinkable(nodes, op1, op2, fused)
    requires Relinked(nodes, intermediate, op1, op2, fused).Ok?
    ensures var m := Relinked(nodes, intermediate, op1, op2, fused).value;
      var shared := SharedCtrl(nodes, nodes[op1].outputs, nodes[op2].inputs);
      forall x ::
        ((x in nodes[op1].inputs || (x in nodes[op2].inputs && x != intermediate && x !in shared)) &&
         x !in Dropped(nodes, op1, op2)) ==>
        x in m && fused in m[x].outputs
  {
    var n1 := nodes[op1];
    var n2 := nodes[op2];
    var m1 := FeedFused(nodes, n1.inputs, op1, fused, {}).value;
    FeedFusedEdges(nodes, n1.inputs, op1, fused, {});
    var linked := LinkOp1Outputs(m1, n1.outputs, fused, n2.inputs, intermediate, {}).value;
    var m2 := linked.0;
    var shared := linked.1;
    LinkOp1OutputsShared(m1, n1.outputs, fused, n2.inputs, intermediate, {});
    SharedCtrlKinds(m1, nodes, n1.outputs, n2.inputs);
    var m3 := FeedFused(m2, n2.inputs, op2, fused, {intermediate} + shared).value;
    var m4 := LinkAll(m3, n2.outputs, fused);
    var dropped := shared + {op1, op2};
    assert Relinked(nodes, intermediate, op1, op2, fused) == Ok(SafeRemove(m4, dropped));
    assert shared == SharedCtrl(nodes, n1.outputs, n2.inputs);
    assert fused !in n1.outputs && fused !in dropped;
    forall x | (x in n1.inputs || (x in n2.inputs && x != intermediate && x !in shared)) && x !in dropped
      ensures fused in m4[x].outputs
    {
      FeedFusedAt(nodes, n1.inputs, op1, fused, {}, x);
      LinkOp1OutputsAt(m1, n1.outputs, fused, n2.inputs, intermediate, x);
      FeedFusedAt(m2, n2.inputs, op2, fused, {intermediate} + shared, x);
      LinkAllAt(m3, n2.outputs, fused, x);
    }
  }


  // ReLinkNodes on the graph, loop by loop

  /** The first or third loop of ReLinkNodes. */
  method FeedInputs(nodes: map<NodeId, Node>, ins: seq<NodeId>, op: NodeId, fused: NodeId, skip: set<NodeId>)
    returns (r: Result<map<NodeId, Node>>)
    requires fused in nodes && Within(nodes, ins, fused)
    ensures r == FeedFused(nodes, ins, op, fused, skip)
  {
    var cur := nodes;
    var i := 0;
    while i < |ins|
      invariant 0 <= i <= |ins| && cur.Keys == nodes.Keys
      invariant FeedFused(cur, ins[i..], op, fused, skip) == FeedFused(nodes, ins, op, fused, skip)
    {
      assert ins[i..][0] == ins[i] && ins[i..][1..] == ins[i + 1..];
      var x := ins[i];
      if x !in skip {
        var withIn := cur[fused := cur[fused].(inputs := cur[fused].inputs + [x])];
        var outs := ReplaceNode(op, fused, withIn[x].outputs);
        if outs.Err? {
          return Err(outs.error);
        }
        cur := withIn[x := withIn[x].(outputs := outs.value)];
      }
      i := i + 1;
    }
    assert ins[i..] == [];
    return Ok(cur);
  }

  /** One output of op_1 handled by the second loop. */
  lemma LinkOp1OutputsStep(nodes: map<NodeId, Node>, outs: seq<NodeId>, i: nat, fused: NodeId,
                           op2Inputs: seq<NodeId>, intermediate: NodeId, dels: set<NodeId>)
    requires fused in nodes && Within(nodes, outs, fused) && i < |outs|
    ensures var out := outs[i];
      LinkOp1Outputs(nodes, outs[i..], fused, op2Inputs, intermediate, dels) ==
      if IsCtrlVar(nodes[out]) && out in op2Inputs then
        LinkOp1Outputs(nodes, outs[i + 1..], fused, op2Inputs, intermediate, dels + {out})
      else if IsCtrlVar(nodes[out]) || out == intermediate then
        LinkOp1Outputs(Link(nodes, fused, out), outs[i + 1..], fused, op2Inputs, intermediate, dels)
      else Err(NotIntermediate)
  {
    assert outs[i..][0] == outs[i] && outs[i..][1..] == outs[i + 1..];
  }

  /** The second loop of ReLinkNodes; `dels` is nodes2delete. */
  method LinkFirstOutputs(nodes: map<NodeId, Node>, outs: seq<NodeId>, fused: NodeId, op2Inputs: seq<NodeId>,
                          intermediate: NodeId) returns (r: Result<(map<NodeId, Node>, set<NodeId>)>)
    requires fused in nodes && Within(nodes, outs, fused)
    ensures r == LinkOp1Outputs(nodes, outs, fused, op2Inputs, intermediate, {})
  {
    var cur := nodes;
    var dels: set<NodeId> := {};
    var i := 0;
    while i < |outs|
      invariant 0 <= i <= |outs| && cur.Keys == nodes.Keys
      invariant LinkOp1Outputs(cur, outs[i..], fused, op2Inputs, intermediate, dels) ==
        LinkOp1Outputs(nodes, outs, fused, op2Inputs, intermediate, {})
    {
      LinkOp1OutputsStep(cur, outs, i, fused, op2Inputs, intermediate, dels);
      var out := outs[i];
      if IsCtrlVar(cur[out]) {
        if out !in op2Inputs {
          cur := Link(cur, fused, out);
        } else {
          dels := dels + {out};
        }
      } else {
        if out != intermediate {
          return Err(NotIntermediate);
        }
        cur := Link(cur, fused, out);
      }
      i := i + 1;
    }
    assert outs[i..] == [];
    return Ok((cur, dels));
  }

  /** The fourth loop of ReLinkNodes. */
  method LinkOutputs(nodes: map<NodeId, Node>, outs: seq<NodeId>, fused: NodeId) returns (r: map<NodeId, Node>)
    requires fused in nodes && Within(nodes, outs, fused)
    ensures r == LinkAll(nodes, outs, fused)
  {
    r := nodes;
    var i := 0;
    while i < |outs|
      invariant 0 <= i <= |outs| && r.Keys == nodes.Keys
      invariant LinkAll(r, outs[i..], fused) == LinkAll(nodes, outs, fused)
    {
      assert outs[i..][0] == outs[i] && outs[i..][1..] == outs[i + 1..];
      r := Link(r, fused, outs[i]);
      i := i + 1;
    }
    assert outs[i..] == [];
  }

  /** ReLinkNodes (lines 345-389): the fused op takes over the edges of op_1
    * and op_2, which leave the graph with the control variables between
    * them. On failure the graph is left as it was. */
  method ReLinkNodes(g: Graph, intermediate: NodeId, op1: NodeId, op2: NodeId, fused: NodeId) returns (r: Outcome)
    requires g.Valid() && ReLinkable(g.nodes, op1, op2, fused)
    modifies g
    ensures g.Valid() && g.nextId == old(g.nextId)
    ensures r.Pass? <==> Relinked(old(g.nodes), intermediate, op1, op2, fused).Ok?
    ensures r.Pass? ==> g.nodes == Relinked(old(g.nodes), intermediate, op1, op2, fused).value
    ensures r.Pass? ==> g.descs == old(g.descs) - Dropped(old(g.nodes), op1, op2)
    ensures r.Fail? ==> g.nodes == old(g.nodes) && g.descs == old(g.descs)
  {
    var n1 := g.nodes[op1];
    var n2 := g.nodes[op2];
    var fed := FeedInputs(g.nodes, n1.inputs, op1, fused, {});
    if fed.Err? {
      return Fail(fed.error);
    }
    var linked := LinkFirstOutputs(fed.value, n1.outputs, fused, n2.inputs, intermediate);
    if linked.Err? {
      return Fail(linked.error);
    }
    var (m2, shared) := linked.value;
    var fed2 := FeedInputs(m2, n2.inputs, op2, fused, {intermediate} + shared);
    if fed2.Err? {
      return Fail(fed2.error);
    }
    var m4 := LinkOutputs(fed2.value, n2.outputs, fused);
    ghost var nodes0 := g.nodes;
    var dropped := shared + {op1, op2};
    assert Relinked(nodes0, intermediate, op1, op2, fused) == Ok(SafeRemove(m4, dropped));
    LinkOp1OutputsShared(fed.value, n1.outputs, fused, n2.inputs, intermediate, {});
    FeedFusedEdges(nodes0, n1.inputs, op1, fused, {});
    SharedCtrlKinds(fed.value, nodes0, n1.outputs, n2.inputs);
    assert dropped == Dropped(nodes0, op1, op2);
    RelinkedShape(nodes0, intermediate, op1, op2, fused);
    g.nodes := SafeRemove(m4, dropped);
    g.descs := g.descs - dropped;
    forall k | k in g.nodes && IsOp(g.nodes[k])
      ensures k in g.descs
    {
      assert IsOp(nodes0[k]);
    }
    r := Pass;
  }

  // The fused op's description

  const FusedOpType := "fused_elemwise_activation"
  const FusedGradOpType := "fused_elemwise_activation_grad"
  const SaveIntermediateOut := "save_intermediate_out"

  /** The description CreateFuseElewiseAddActNode builds (lines 320-340):
    * X, Y, Out and IntermediateOut name one variable each; the op saves its
    * intermediate output and lists the two functors; then every attribute
    * of op_1 and then of op_2 is set over these. */
  function FusedAddActDesc(d1: OpDesc, d2: OpDesc, x: string, y: string, eleOut: string, actOut: string): OpDesc
  {
    OpDesc(FusedOpType,
           SetParam(SetParam([], "X", [x]), "Y", [y]),
           SetParam(SetParam([], "Out", [actOut]), "IntermediateOut", [eleOut]),
           map[SaveIntermediateOut := BoolAttr(true), "functor_list" := StringsAttr([d1.opType, d2.opType])]
             + d1.attrs + d2.attrs)
  }

  /** The check RemoveIntermediateOut makes of one node (lines 47-56 and
    * 71-75): the name of the intermediate output a fused op may drop, None
    * for any other node; a fused op that does not save its intermediate
    * output, or names none, is an error. */
  function IntermediateName(n: Node, desc: OpDesc): (r: Result<Option<string>>)
    ensures r.Ok? && r.value.Some? ==> IsOp(n) && (n.name == FusedOpType || n.name == FusedGradOpType)
    ensures IsVar(n) || (n.name != FusedOpType && n.name != FusedGradOpType) ==> r == Ok(None)
    ensures IsOp(n) && n.name == FusedOpType ==>
      (r.Ok? <==> GetAttr(desc, SaveIntermediateOut) == Ok(BoolAttr(true)) &&
                  Arguments(desc.outputs, "IntermediateOut").Ok? && Arguments(desc.outputs, "IntermediateOut").value != [])
    ensures IsOp(n) && n.name == FusedGradOpType ==>
      (r.Ok? <==> Arguments(desc.outputs, "IntermediateOut@GRAD").Ok? &&
                  Arguments(desc.outputs, "IntermediateOut@GRAD").value != [])
  {
    if IsVar(n) then Ok(None)
    else if n.name == FusedOpType then
      match GetAttr(desc, SaveIntermediateOut)
      case Err(e) => Err(e)
      case Ok(save) =>
        if !save.BoolAttr? then Err("attribute " + SaveIntermediateOut + " is not a bool")
        else
          match Arguments(desc.outputs, "IntermediateOut")
          case Err(e) => Err(e)
          case Ok(args) =>
            if save.b && args != [] then Ok(Some(args[0]))
            else Err("The fused_elemwise_activation should save the intermediate_out in the fusing stage.")
    else if n.name == FusedGradOpType then
      match Arguments(desc.outputs, "IntermediateOut@GRAD")
      case Err(e) => Err(e)
      case Ok(args) =>
        if args != [] then Ok(Some(args[0]))
        else Err("The fused_elemwise_activation_grad should save the intermediate_out in the fusing stage.")
    else Ok(None)
  }

  /** A fused op fresh from CreateFuseElewiseAddActNode passes the check of
    * RemoveIntermediateOut, naming the elementwise output as the one it may
    * drop, unless the fused ops' own attributes override that setting. */
  lemma CreatedDescSaves(d1: OpDesc, d2: OpDesc, x: string, y: string, eleOut: string, actOut: string, id: NodeId)
    requires SaveIntermediateOut !in d1.attrs && SaveIntermediateOut !in d2.attrs
    ensures IntermediateName(OpNode(FusedOpType, id), FusedAddActDesc(d1, d2, x, y, eleOut, actOut)) == Ok(Some(eleOut))
  {
    CreatedDescSaveAttr(d1, d2, x, y, eleOut, actOut);
    CreatedDescIntermediate(d1, d2, x, y, eleOut, actOut);
    SavingFusedOpNamed(OpNode(FusedOpType, id), FusedAddActDesc(d1, d2, x, y, eleOut, actOut), eleOut);
  }

  lemma SavingFusedOpNamed(n: Node, desc: OpDesc, e: string)
    requires IsOp(n) && n.name == FusedOpType
    requires SaveIntermediateOut in desc.attrs && desc.attrs[SaveIntermediateOut] == BoolAttr(true)
    requires Arguments(desc.outputs, "IntermediateOut") == Ok([e])
    ensures IntermediateName(n, desc) == Ok(Some(e))
  {
  }

  lemma CreatedDescSaveAttr(d1: OpDesc, d2: OpDesc, x: string, y: string, eleOut: string, actOut: string)
    requires SaveIntermediateOut !in d1.attrs && SaveIntermediateOut !in d2.attrs
    ensures var attrs := FusedAddActDesc(d1, d2, x, y, eleOut, actOut).attrs;
      SaveIntermediateOut in attrs && attrs[SaveIntermediateOut] == BoolAttr(true)
  {
    assert SaveIntermediateOut[0] != "functor_list"[0];
    var own := map[SaveIntermediateOut := BoolAttr(true), "functor_list" := StringsAttr([d1.opType, d2.opType])];
    assert (own + d1.attrs)[SaveIntermediateOut] == BoolAttr(true);
  }

  lemma CreatedDescIntermediate(d1: OpDesc, d2: OpDesc, x: string, y: string, eleOut: string, actOut: string)
    ensures Arguments(FusedAddActDesc(d1, d2, x, y, eleOut, actOut).outputs, "IntermediateOut") == Ok([eleOut])
  {
  }

  /** The fused description reads X and Y, writes Out and lists the two
    * functors, unless the fused ops' own attributes name functors. */
  lemma CreatedDescArgs(d1: OpDesc, d2: OpDesc, x: string, y: string, eleOut: string, actOut: string)
    ensures "functor_list" !in d1.attrs && "functor_list" !in d2.attrs ==>
      FusedAddActDesc(d1, d2, x, y, eleOut, actOut).attrs["functor_list"] == StringsAttr([d1.opType, d2.opType])
    ensures Arguments(FusedAddActDesc(d1, d2, x, y, eleOut, actOut).inputs, "X") == Ok([x])
    ensures Arguments(FusedAddActDesc(d1, d2, x, y, eleOut, actOut).inputs, "Y") == Ok([y])
    ensures Arguments(FusedAddActDesc(d1, d2, x, y, eleOut, actOut).outputs, "Out") == Ok([actOut])
  {
    assert "Out"[0] != "IntermediateOut"[0] && "X"[0] != "Y"[0];
  }

  /** Both of the above. */
  lemma CreatedDescChecks(d1: OpDesc, d2: OpDesc, x: string, y: string, eleOut: string, actOut: string, id: NodeId)
    requires SaveIntermediateOut !in d1.attrs && SaveIntermediateOut !in d2.attrs
    ensures IntermediateName(OpNode(FusedOpType, id), FusedAddActDesc(d1, d2, x, y, eleOut, actOut)) == Ok(Some(eleOut))
    ensures "functor_list" !in d1.attrs && "functor_list" !in d2.attrs ==>
      FusedAddActDesc(d1, d2, x, y, eleOut, actOut).attrs["functor_list"] == StringsAttr([d1.opType, d2.opType])
    ensures Arguments(FusedAddActDesc(d1, d2, x, y, eleOut, actOut).inputs, "X") == Ok([x])
    ensures Arguments(FusedAddActDesc(d1, d2, x, y, eleOut, actOut).inputs, "Y") == Ok([y])
    ensures Arguments(FusedAddActDesc(d1, d2, x, y, eleOut, actOut).outputs, "Out") == Ok([actOut])
  {
    CreatedDescSaves(d1, d2, x, y, eleOut, actOut, id);
    CreatedDescArgs(d1, d2, x, y, eleOut, actOut);
  }

  /** An op among the two whose attributes switch saving off makes the fused
    * op fail that check. */
  lemma OverriddenDescFails(d1: OpDesc, d2: OpDesc, x: string, y: string, eleOut: string, actOut: string, id: NodeId)
    requires SaveIntermediateOut in d2.attrs && d2.attrs[SaveIntermediateOut] == BoolAttr(false)
    ensures IntermediateName(OpNode(FusedOpType, id), FusedAddActDesc(d1, d2, x, y, eleOut, actOut)).Err?
  {
    assert FusedAddActDesc(d1, d2, x, y, eleOut, actOut).attrs[SaveIntermediateOut] == BoolAttr(false);
  }

  /** CreateFuseElewiseAddActNode (lines 320-343): a new op node over the
    * description built from op_1 and op_2. */
  method CreateFuseElewiseAddActNode(g: Graph, op1: NodeId, op2: NodeId, x: string, y: string, eleOut: string,
                                     actOut: string) returns (id: NodeId)
    requires g.Valid() && op1 in g.nodes && IsOp(g.nodes[op1]) && op2 in g.nodes && IsOp(g.nodes[op2])
    modifies g
    ensures g.Valid() && id !in old(g.nodes)
    ensures g.nodes == old(g.nodes)[id := OpNode(FusedOpType, id)]
    ensures g.descs == old(g.descs)[id := FusedAddActDesc(old(g.descs)[op1], old(g.descs)[op2], x, y, eleOut, actOut)]
  {
    var d1 := g.descs[op1];
    var d2 := g.descs[op2];
    var desc := OpDesc("", [], [], map[]);
    desc := desc.(inputs := SetParam(desc.inputs, "X", [x]));
    desc := desc.(inputs := SetParam(desc.inputs, "Y", [y]));
    desc := desc.(outputs := SetParam(desc.outputs, "Out", [actOut]));
    desc := desc.(outputs := SetParam(desc.outputs, "IntermediateOut", [eleOut]));
    desc := desc.(opType := FusedOpType);
    desc := desc.(attrs := desc.attrs[SaveIntermediateOut := BoolAttr(true)]);
    desc := desc.(attrs := desc.attrs["functor_list" := StringsAttr([d1.opType, d2.opType])]);
    // SetAttr of every attribute of op_1, then of op_2, each over what is set
    desc := desc.(attrs := desc.attrs + d1.attrs + d2.attrs);
    id := g.CreateOpNode(desc);
  }

  // The handlers of FuseElewiseAddAct and FuseActElewiseAdd

  /** A freshly created op can take over the edges of two ops of a closed
    * graph, and leaves the same nodes to drop. */
  lemma FreshReLinkable(nodes: map<NodeId, Node>, op1: NodeId, op2: NodeId, fused: NodeId)
    requires Closed(nodes) && op1 in nodes && op2 in nodes && op1 != op2 && fused !in nodes
    ensures ReLinkable(nodes[fused := OpNode(FusedOpType, fused)], op1, op2, fused)
    ensures Dropped(nodes[fused := OpNode(FusedOpType, fused)], op1, op2) == Dropped(nodes, op1, op2)
  {
    var m := nodes[fused := OpNode(FusedOpType, fused)];
    assert m[op1] == nodes[op1] && m[op2] == nodes[op2];
    assert SharedCtrl(m, m[op1].outputs, m[op2].inputs) == SharedCtrl(nodes, nodes[op1].outputs, nodes[op2].inputs);
  }

  /** What both handlers do with a matched pair of ops: `inner` computes
    * `intermediate`, which `outer` reads. A fused op over the description of
    * `outer` and `inner` is created, then takes over their edges. When the
    * relinking fails, the created op stays in the graph with no edges. */
  method FuseMatched(g: Graph, inner: NodeId, outer: NodeId, intermediate: NodeId, x: string, y: string,
                     interOut: string, out: string) returns (fused: NodeId, r: Outcome)
    requires g.Valid() && Closed(g.nodes)
    requires inner in g.nodes && IsOp(g.nodes[inner]) && outer in g.nodes && IsOp(g.nodes[outer]) && inner != outer
    modifies g
    ensures g.Valid() && fused !in old(g.nodes) && fused < g.nextId
    ensures r.Pass? <==>
      Relinked(old(g.nodes)[fused := OpNode(FusedOpType, fused)], intermediate, inner, outer, fused).Ok?
    ensures r.Pass? ==>
      g.nodes == Relinked(old(g.nodes)[fused := OpNode(FusedOpType, fused)], intermediate, inner, outer, fused).value
    ensures r.Pass? ==>
      g.descs == old(g.descs)[fused := FusedAddActDesc(old(g.descs)[outer], old(g.descs)[inner], x, y, interOut, out)]
                 - Dropped(old(g.nodes), inner, outer)
    ensures r.Fail? ==> g.nodes == old(g.nodes)[fused := OpNode(FusedOpType, fused)]
  {
    ghost var nodes0 := g.nodes;
    fused := CreateFuseElewiseAddActNode(g, outer, inner, x, y, interOut, out);
    FreshReLinkable(nodes0, inner, outer, fused);
    r := ReLinkNodes(g, intermediate, inner, outer, fused);
  }

  /** The handler of FuseElewiseAddAct (lines 117-137) for a match
    * act(elementwise_add(x, y)): the add is the inner op, its output the
    * intermediate one. */
  method FuseElewiseAddActMatch(g: Graph, x: NodeId, eleY: NodeId, eleOut: NodeId, actOut: NodeId, act: NodeId,
                                eleAdd: NodeId) returns (fused: NodeId, r: Outcome)
    requires g.Valid() && Closed(g.nodes)
    requires x in g.nodes && eleY in g.nodes && eleOut in g.nodes && actOut in g.nodes
    requires act in g.nodes && IsOp(g.nodes[act]) && eleAdd in g.nodes && IsOp(g.nodes[eleAdd]) && act != eleAdd
    modifies g
    ensures g.Valid() && fused !in old(g.nodes)
    ensures r.Pass? <==> Relinked(old(g.nodes)[fused := OpNode(FusedOpType, fused)], eleOut, eleAdd, act, fused).Ok?
    ensures r.Pass? ==>
      g.nodes == Relinked(old(g.nodes)[fused := OpNode(FusedOpType, fused)], eleOut, eleAdd, act, fused).value
    ensures r.Pass? ==>
      g.descs == old(g.descs)[fused := FusedAddActDesc(old(g.descs)[act], old(g.descs)[eleAdd],
                                                       old(g.nodes)[x].name, old(g.nodes)[eleY].name,
                                                       old(g.nodes)[eleOut].name, old(g.nodes)[actOut].name)]
                 - Dropped(old(g.nodes), eleAdd, act)
  {
    fused, r := FuseMatched(g, eleAdd, act, eleOut, g.nodes[x].name, g.nodes[eleY].name, g.nodes[eleOut].name,
                            g.nodes[actOut].name);
  }

  /** The handler of FuseActElewiseAdd (lines 165-190) for a match
    * elementwise_add(x, act(input)): the activation is the inner op, its
    * output the intermediate one. */
  method FuseActElewiseAddMatch(g: Graph, input: NodeId, actOut: NodeId, eleX: NodeId, eleOut: NodeId, act: NodeId,
                                eleAdd: NodeId) returns (fused: NodeId, r: Outcome)
    requires g.Valid() && Closed(g.nodes)
    requires input in g.nodes && actOut in g.nodes && eleX in g.nodes && eleOut in g.nodes
    requires act in g.nodes && IsOp(g.nodes[act]) && eleAdd in g.nodes && IsOp(g.nodes[eleAdd]) && act != eleAdd
    modifies g
    ensures g.Valid() && fused !in old(g.nodes)
    ensures r.Pass? <==> Relinked(old(g.nodes)[fused := OpNode(FusedOpType, fused)], actOut, act, eleAdd, fused).Ok?
    ensures r.Pass? ==>
      g.nodes == Relinked(old(g.nodes)[fused := OpNode(FusedOpType, fused)], actOut, act, eleAdd, fused).value
    ensures r.Pass? ==>
      g.descs == old(g.descs)[fused := FusedAddActDesc(old(g.descs)[eleAdd], old(g.descs)[act],
                                                       old(g.nodes)[eleX].name, old(g.nodes)[input].name,
                                                       old(g.nodes)[actOut].name, old(g.nodes)[eleOut].name)]
                 - Dropped(old(g.nodes), act, eleAdd)
  {
    fused, r := FuseMatched(g, act, eleAdd, actOut, g.nodes[eleX].name, g.nodes[input].name, g.nodes[actOut].name,
                            g.nodes[eleOut].name);
  }

  // RemoveIntermediateOut (lines 44-92)

  /** Every edge of an ir::Graph joins an operation and a variable. */
  ghost predicate Bipartite(nodes: map<NodeId, Node>)
  {
    (forall k, x :: k in nodes && x in nodes && x in nodes[k].inputs ==> IsOp(nodes[k]) != IsOp(nodes[x])) &&
    (forall k, x :: k in nodes && x in nodes && x in nodes[k].outputs ==> IsOp(nodes[k]) != IsOp(nodes[x]))
  }

  /** Node::Op() for a node that may have no description. */
  function DescOf(descs: map<NodeId, OpDesc>, k: NodeId): OpDesc
  {
    if k in descs then descs[k] else EmptyDesc
  }

  /** A node named `name` that nothing reads. */
  predicate Unused(n: Node, name: string)
  {
    n.name == name && n.outputs == []
  }

  /** The outputs of node `k` named `name` that nothing reads. */
  ghost function UnreadOutputs(nodes: map<NodeId, Node>, k: NodeId, name: string): set<NodeId>
    requires k in nodes
  {
    set out | out in nodes[k].outputs && out in nodes && Unused(nodes[out], name)
  }

  /** What RemoveIntermediateOut drops from the outputs of node `k`. */
  ghost function Unread(nodes: map<NodeId, Node>, descs: map<NodeId, OpDesc>, k: NodeId): set<NodeId>
    requires k in nodes
  {
    var name := IntermediateName(nodes[k], DescOf(descs, k));
    if name.Ok? && name.value.Some? then UnreadOutputs(nodes, k, name.value.value) else {}
  }

  /** What RemoveIntermediateOut drops from the graph, visiting the nodes `ks`. */
  ghost function AllUnread(nodes: map<NodeId, Node>, descs: map<NodeId, OpDesc>, ks: set<NodeId>): set<NodeId>
  {
    set k, out | k in ks && k in nodes && out in Unread(nodes, descs, k) :: out
  }

  /** The description of a fused op that dropped its intermediate output: the
    * forward op no longer saves it, the gradient op no longer names one. */
  function Retire(n: Node, desc: OpDesc): OpDesc
  {
    if n.name == FusedOpType then desc.(attrs := desc.attrs[SaveIntermediateOut := BoolAttr(false)])
    else desc.(outputs := SetParam(desc.outputs, "IntermediateOut@GRAD", []))
  }

  /** The descriptions after RemoveIntermediateOut. */
  ghost function Retired(nodes: map<NodeId, Node>, descs: map<NodeId, OpDesc>): map<NodeId, OpDesc>
  {
    map k | k in descs :: if k in nodes && Unread(nodes, descs, k) != {} then Retire(nodes[k], descs[k]) else descs[k]
  }

  /** The members of `s` named `name` that nothing reads, last one last. */
  ghost function UnreadAmong(nodes: map<NodeId, Node>, s: seq<NodeId>, name: string): set<NodeId>
    requires forall x :: x in s ==> x in nodes
  {
    if s == [] then {}
    else
      var last := s[|s| - 1];
      UnreadAmong(nodes, s[..|s| - 1], name) +
        (if Unused(nodes[last], name) then {last} else {})
  }

  lemma {:induction false} UnreadAmongAll(nodes: map<NodeId, Node>, k: NodeId, name: string, s: seq<NodeId>)
    requires k in nodes && forall x :: x in s ==> x in nodes
    ensures UnreadAmong(nodes, s, name) ==
      set out | out in s && out in nodes && Unused(nodes[out], name)
  {
    if s != [] {
      var init := s[..|s| - 1];
      UnreadAmongAll(nodes, k, name, init);
      assert forall x :: x in s <==> x in init || x == s[|s| - 1];
    }
  }

  lemma UnreadAmongPrefix(nodes: map<NodeId, Node>, s: seq<NodeId>, i: nat, name: string)
    requires forall x :: x in s ==> x in nodes
    requires i < |s|
    ensures forall x :: x in s[..i + 1] ==> x in nodes
    ensures UnreadAmong(nodes, s[..i + 1], name) ==
            UnreadAmong(nodes, s[..i], name) + (if Unused(nodes[s[i]], name) then {s[i]} else {})
  {
    assert s[..i + 1][..i] == s[..i] && s[..i + 1][i] == s[i];
  }

  lemma DropOne(s: seq<NodeId>, dropped: set<NodeId>, out: NodeId)
    ensures RemoveNode(out, Without(s, dropped)) == Without(s, dropped + {out})
  {
    RemoveNodeIsWithout(out, Without(s, dropped));
    WithoutTwice(s, dropped, {out});
  }

  /** The inner loops of RemoveIntermediateOut: RemoveNode of every output
    * named `name` that nothing reads. */
  method DropUnread(nodes: map<NodeId, Node>, upstream: seq<NodeId>, name: string)
    returns (outs: seq<NodeId>, dropped: set<NodeId>)
    requires forall x :: x in upstream ==> x in nodes
    ensures dropped == UnreadAmong(nodes, upstream, name)
    ensures outs == Without(upstream, dropped)
  {
    outs := upstream;
    dropped := {};
    WithoutNothing(upstream, {});
    var i := 0;
    while i < |upstream|
      invariant 0 <= i <= |upstream|
      invariant dropped == UnreadAmong(nodes, upstream[..i], name)
      invariant outs == Without(upstream, dropped)
    {
      var out := upstream[i];
      UnreadAmongPrefix(nodes, upstream, i, name);
      if Unused(nodes[out], name) {
        DropOne(upstream, dropped, out);
        outs := RemoveNode(out, outs);
        dropped := dropped + {out};
      }
      i := i + 1;
    }
    assert upstream[..i] == upstream;
  }


  lemma {:induction false} UnreadAmongSame(a: map<NodeId, Node>, b: map<NodeId, Node>, s: seq<NodeId>, name: string)
    requires forall x :: x in s ==> x in a && x in b && a[x] == b[x]
    ensures UnreadAmong(a, s, name) == UnreadAmong(b, s, name)
  {
    if s != [] {
      UnreadAmongSame(a, b, s[..|s| - 1], name);
    }
  }

  lemma AllUnreadStep(nodes: map<NodeId, Node>, descs: map<NodeId, OpDesc>, done: set<NodeId>, k: NodeId)
    requires k in nodes
    ensures AllUnread(nodes, descs, done + {k}) == AllUnread(nodes, descs, done) + Unread(nodes, descs, k)
  {
  }

  lemma AllUnreadNext(nodes: map<NodeId, Node>, descs: map<NodeId, OpDesc>, todo: set<NodeId>, k: NodeId)
    requires k in todo && todo <= nodes.Keys
    ensures AllUnread(nodes, descs, nodes.Keys - (todo - {k})) ==
      AllUnread(nodes, descs, nodes.Keys - todo) + Unread(nodes, descs, k)
  {
    assert nodes.Keys - todo + {k} == nodes.Keys - (todo - {k});
    AllUnreadStep(nodes, descs, nodes.Keys - todo, k);
  }

  /** The state of RemoveIntermediateOut's loop once every node outside
    * `todo` has been visited: each visited fused op passed the check and
    * lost its unread intermediate outputs, which `removed` collects. */
  ghost predicate Visited(nodes0: map<NodeId, Node>, descs0: map<NodeId, OpDesc>, nodes: map<NodeId, Node>,
                          descs: map<NodeId, OpDesc>, todo: set<NodeId>, removed: set<NodeId>)
  {
    todo <= nodes0.Keys &&
    (forall k :: k in nodes0 && k !in todo ==> IntermediateName(nodes0[k], DescOf(descs0, k)).Ok?) &&
    VisitedNodes(nodes0, descs0, nodes, todo) && VisitedDescs(nodes0, descs0, descs, todo) &&
    removed == AllUnread(nodes0, descs0, nodes0.Keys - todo)
  }

  ghost predicate VisitedNodes(nodes0: map<NodeId, Node>, descs0: map<NodeId, OpDesc>, nodes: map<NodeId, Node>,
                               todo: set<NodeId>)
  {
    nodes.Keys == nodes0.Keys &&
    forall k :: k in nodes0 ==>
      nodes[k] == if k in todo || Unread(nodes0, descs0, k) == {} then nodes0[k]
                  else nodes0[k].(outputs := Without(nodes0[k].outputs, Unread(nodes0, descs0, k)))
  }

  ghost predicate VisitedDescs(nodes0: map<NodeId, Node>, descs0: map<NodeId, OpDesc>, descs: map<NodeId, OpDesc>,
                               todo: set<NodeId>)
  {
    descs.Keys == descs0.Keys &&
    forall k :: k in descs0 ==>
      descs[k] == if k in nodes0 && k !in todo && Unread(nodes0, descs0, k) != {} then Retire(nodes0[k], descs0[k])
                  else descs0[k]
  }

  lemma VisitedNodesStep(nodes0: map<NodeId, Node>, descs0: map<NodeId, OpDesc>, nodes: map<NodeId, Node>,
                         todo: set<NodeId>, k: NodeId)
    requires VisitedNodes(nodes0, descs0, nodes, todo) && k in todo && k in nodes0 && Unread(nodes0, descs0, k) != {}
    ensures VisitedNodes(nodes0, descs0, nodes[k := nodes0[k].(outputs := Without(nodes0[k].outputs, Unread(nodes0, descs0, k)))],
                         todo - {k})
  {
  }

  lemma VisitedNodesSkip(nodes0: map<NodeId, Node>, descs0: map<NodeId, OpDesc>, nodes: map<NodeId, Node>,
                         todo: set<NodeId>, k: NodeId)
    requires VisitedNodes(nodes0, descs0, nodes, todo) && k in todo && k in nodes0 && Unread(nodes0, descs0, k) == {}
    ensures VisitedNodes(nodes0, descs0, nodes, todo - {k})
  {
  }

  lemma VisitedDescsStep(nodes0: map<NodeId, Node>, descs0: map<NodeId, OpDesc>, descs: map<NodeId, OpDesc>,
                         todo: set<NodeId>, k: NodeId)
    requires VisitedDescs(nodes0, descs0, descs, todo) && k in todo && k in nodes0 && k in descs0
    requires Unread(nodes0, descs0, k) != {}
    ensures VisitedDescs(nodes0, descs0, descs[k := Retire(nodes0[k], descs0[k])], todo - {k})
  {
  }

  lemma VisitedDescsSkip(nodes0: map<NodeId, Node>, descs0: map<NodeId, OpDesc>, descs: map<NodeId, OpDesc>,
                         todo: set<NodeId>, k: NodeId)
    requires VisitedDescs(nodes0, descs0, descs, todo) && k in todo && k in nodes0 && Unread(nodes0, descs0, k) == {}
    ensures VisitedDescs(nodes0, descs0, descs, todo - {k})
  {
  }

  /** The outputs a fused op drops: read from the graph as it is when the
    * loop reaches the op, which is the graph as it was for its outputs. */
  method DropIntermediate(nodes: map<NodeId, Node>, k: NodeId, name: string, ghost nodes0: map<NodeId, Node>,
                          ghost descs0: map<NodeId, OpDesc>, ghost todo: set<NodeId>)
    returns (outs: seq<NodeId>, dropped: set<NodeId>)
    requires Closed(nodes0) && Bipartite(nodes0) && VisitedNodes(nodes0, descs0, nodes, todo)
    requires k in todo && k in nodes0 && IntermediateName(nodes0[k], DescOf(descs0, k)) == Ok(Some(name))
    ensures dropped == Unread(nodes0, descs0, k) && outs == Without(nodes0[k].outputs, dropped)
  {
    var upstream := nodes[k].outputs;
    assert upstream == nodes0[k].outputs;
    forall x | x in upstream
      ensures x in nodes && nodes[x] == nodes0[x]
    {
      assert IsVar(nodes0[x]);
    }
    UnreadAmongSame(nodes, nodes0, upstream, name);
    UnreadAmongAll(nodes0, k, name, upstream);
    outs, dropped := DropUnread(nodes, upstream, name);
  }

  lemma VisitedStep(nodes0: map<NodeId, Node>, descs0: map<NodeId, OpDesc>, nodes: map<NodeId, Node>,
                    descs: map<NodeId, OpDesc>, todo: set<NodeId>, removed: set<NodeId>, k: NodeId,
                    nodes': map<NodeId, Node>, descs': map<NodeId, OpDesc>)
    requires Visited(nodes0, descs0, nodes, descs, todo, removed) && k in todo
    requires IntermediateName(nodes0[k], DescOf(descs0, k)).Ok?
    requires VisitedNodes(nodes0, descs0, nodes', todo - {k}) && VisitedDescs(nodes0, descs0, descs', todo - {k})
    ensures Visited(nodes0, descs0, nodes', descs', todo - {k}, removed + Unread(nodes0, descs0, k))
  {
    AllUnreadNext(nodes0, descs0, todo, k);
    forall j | j in nodes0 && j !in todo - {k}
      ensures IntermediateName(nodes0[j], DescOf(descs0, j)).Ok?
    {
      if j != k {
        assert j !in todo;
      }
    }
  }

  /** One node of RemoveIntermediateOut's loop. */
  method VisitNode(nodes: map<NodeId, Node>, descs: map<NodeId, OpDesc>, k: NodeId, ghost nodes0: map<NodeId, Node>,
                   ghost descs0: map<NodeId, OpDesc>, ghost todo: set<NodeId>, ghost removed: set<NodeId>)
    returns (r: Result<(map<NodeId, Node>, map<NodeId, OpDesc>, set<NodeId>)>)
    requires Closed(nodes0) && Bipartite(nodes0) && Described(nodes0, descs0)
    requires Visited(nodes0, descs0, nodes, descs, todo, removed) && k in todo
    ensures r.Ok? <==> IntermediateName(nodes0[k], DescOf(descs0, k)).Ok?
    ensures r.Ok? ==> Visited(nodes0, descs0, r.value.0, r.value.1, todo - {k}, removed + r.value.2)
  {
    assert nodes[k] == nodes0[k] && DescOf(descs, k) == DescOf(descs0, k);
    var name := IntermediateName(nodes[k], DescOf(descs, k));
    if name.Err? {
      return Err(name.error);
    }
    if name.value.None? {
      VisitedNodesSkip(nodes0, descs0, nodes, todo, k);
      VisitedDescsSkip(nodes0, descs0, descs, todo, k);
      VisitedStep(nodes0, descs0, nodes, descs, todo, removed, k, nodes, descs);
      return Ok((nodes, descs, {}));
    }
    var outs, dropped := DropIntermediate(nodes, k, name.value.value, nodes0, descs0, todo);
    if dropped == {} {
      VisitedNodesSkip(nodes0, descs0, nodes, todo, k);
      VisitedDescsSkip(nodes0, descs0, descs, todo, k);
      VisitedStep(nodes0, descs0, nodes, descs, todo, removed, k, nodes, descs);
      return Ok((nodes, descs, {}));
    }
    var nodes' := nodes[k := nodes[k].(outputs := outs)];
    var descs' := descs[k := Retire(nodes[k], descs[k])];
    VisitedNodesStep(nodes0, descs0, nodes, todo, k);
    VisitedDescsStep(nodes0, descs0, descs, todo, k);
    VisitedStep(nodes0, descs0, nodes, descs, todo, removed, k, nodes', descs');
    return Ok((nodes', descs', dropped));
  }


  lemma VisitedNodeAt(nodes0: map<NodeId, Node>, descs0: map<NodeId, OpDesc>, nodes: map<NodeId, Node>,
                      removed: set<NodeId>, k: NodeId)
    requires VisitedNodes(nodes0, descs0, nodes, {}) && removed == AllUnread(nodes0, descs0, nodes0.Keys)
    requires k in nodes0 && k !in removed
    ensures SafeRemove(nodes, removed)[k] == SafeRemove(nodes0, removed)[k]
  {
    var unread := Unread(nodes0, descs0, k);
    if unread != {} {
      assert unread <= removed;
      WithoutTwice(nodes0[k].outputs, unread, removed);
      assert unread + removed == removed;
    }
  }

  /** Once every node is visited, removing what was collected gives the same
    * graph as removing it from the graph the loop started from. */
  lemma VisitedAllNodes(nodes0: map<NodeId, Node>, descs0: map<NodeId, OpDesc>, nodes: map<NodeId, Node>,
                        removed: set<NodeId>)
    requires VisitedNodes(nodes0, descs0, nodes, {}) && removed == AllUnread(nodes0, descs0, nodes0.Keys)
    ensures SafeRemove(nodes, removed) == SafeRemove(nodes0, removed)
  {
    forall k | k in nodes0 && k !in removed
      ensures SafeRemove(nodes, removed)[k] == SafeRemove(nodes0, removed)[k]
    {
      VisitedNodeAt(nodes0, descs0, nodes, removed, k);
    }
  }

  lemma VisitedAllDescs(nodes0: map<NodeId, Node>, descs0: map<NodeId, OpDesc>, descs: map<NodeId, OpDesc>)
    requires VisitedDescs(nodes0, descs0, descs, {})
    ensures descs == Retired(nodes0, descs0)
  {
  }

  /** The state the loop of VisitAll ends in, once every node is visited. */
  lemma VisitedDone(nodes0: map<NodeId, Node>, descs0: map<NodeId, OpDesc>, nodes: map<NodeId, Node>,
                    descs: map<NodeId, OpDesc>, removed: set<NodeId>)
    requires Visited(nodes0, descs0, nodes, descs, {}, removed)
    ensures forall k :: k in nodes0 ==> IntermediateName(nodes0[k], DescOf(descs0, k)).Ok?
    ensures removed == AllUnread(nodes0, descs0, nodes0.Keys)
    ensures SafeRemove(nodes, removed) == SafeRemove(nodes0, removed)
    ensures descs == Retired(nodes0, descs0)
  {
    assert nodes0.Keys - {} == nodes0.Keys;
    VisitedAllNodes(nodes0, descs0, nodes, removed);
    VisitedAllDescs(nodes0, descs0, descs);
  }

  /** The loop of RemoveIntermediateOut over the graph's nodes. */
  method VisitAll(nodes0: map<NodeId, Node>, descs0: map<NodeId, OpDesc>)
    returns (r: Result<(map<NodeId, Node>, map<NodeId, OpDesc>, set<NodeId>)>)
    requires Closed(nodes0) && Bipartite(nodes0) && Described(nodes0, descs0)
    ensures r.Ok? <==> forall k :: k in nodes0 ==> IntermediateName(nodes0[k], DescOf(descs0, k)).Ok?
    ensures r.Ok? ==> r.value.2 == AllUnread(nodes0, descs0, nodes0.Keys)
    ensures r.Ok? ==> SafeRemove(r.value.0, r.value.2) == SafeRemove(nodes0, r.value.2)
    ensures r.Ok? ==> r.value.1 == Retired(nodes0, descs0)
  {
    var nodes := nodes0;
    var descs := descs0;
    var todo := nodes.Keys;
    var removed: set<NodeId> := {};
    assert nodes0.Keys - todo == {};
    while todo != {}
      invariant Visited(nodes0, descs0, nodes, descs, todo, removed)
      decreases |todo|
    {
      var k :| k in todo;
      var visited := VisitNode(nodes, descs, k, nodes0, descs0, todo, removed);
      if visited.Err? {
        return Err(visited.error);
      }
      var (nodes', descs', dropped) := visited.value;
      nodes, descs, removed := nodes', descs', removed + dropped;
      assert |todo - {k}| < |todo|;
      todo := todo - {k};
    }
    VisitedDone(nodes0, descs0, nodes, descs, removed);
    return Ok((nodes, descs, removed));
  }

  /** Every op left after the removal keeps its description. */
  lemma RetiredDescribed(nodes0: map<NodeId, Node>, descs0: map<NodeId, OpDesc>, removed: set<NodeId>)
    requires Described(nodes0, descs0)
    ensures Described(SafeRemove(nodes0, removed), Retired(nodes0, descs0) - removed)
  {
  }

  /** RemoveIntermediateOut (lines 44-92): every fused op must save its
    * intermediate output; an output of a fused op named as that
    * intermediate output and read by nothing leaves the graph, and the op
    * records that it no longer has it. Nodes are visited in the graph's
    * hash order, which the result does not depend on. On failure the graph
    * is left as it was. */
  method RemoveIntermediateOut(g: Graph) returns (r: Outcome)
    requires g.Valid() && Closed(g.nodes) && Bipartite(g.nodes)
    modifies g
    ensures g.Valid() && g.nextId == old(g.nextId)
    ensures r.Pass? <==>
      forall k :: k in old(g.nodes) ==> IntermediateName(old(g.nodes)[k], DescOf(old(g.descs), k)).Ok?
    ensures r.Pass? ==>
      g.nodes == SafeRemove(old(g.nodes), AllUnread(old(g.nodes), old(g.descs), old(g.nodes).Keys))
    ensures r.Pass? ==>
      g.descs == Retired(old(g.nodes), old(g.descs)) - AllUnread(old(g.nodes), old(g.descs), old(g.nodes).Keys)
    ensures r.Fail? ==> g.nodes == old(g.nodes) && g.descs == old(g.descs)
  {
    var visited := VisitAll(g.nodes, g.descs);
    if visited.Err? {
      return Fail(visited.error);
    }
    var (_, descs, removed) := visited.value;
    RetiredDescribed(g.nodes, g.descs, removed);
    g.nodes := SafeRemove(visited.value.0, removed);
    g.descs := descs - removed;
    r := Pass;
  }
}
