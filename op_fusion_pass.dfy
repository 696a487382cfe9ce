/** framework/ir/op_fusion_pass.cc: finds an element-wise op and an
  * activation that feeds it (or that it feeds), and replaces the pair by one
  * fused_elemwise_activation op. Ops are visited in an order GetTopoOrder
  * computes; the fused op takes over the inputs and outputs of the pair. */
module OpFusionPass {
  import opened Wrappers
  import opened IrNode
  import opened IrGraph

  /** SetUpFusion's enforce that the node is an operation. */
  const NodeIsVariable: string := "Node should not be variable."

  /** SetUpFusion's enforce that every input is a variable. */
  const InputNotVariable: string := "in_var should be a variable."

  /** SetUpFusion's enforce that every input has one generator. */
  const InputNotGenerated: string := "in_var's generation op should be one."

  /** An op that is already fused met again. */
  const FusedTwice: string := "an op already fused cannot be fused again"

  /** The fused op still has edges after FuseOperators. */
  const FusedOpHasEdges: string := "the fused op must be left without edges"

  /** A graph whose ops cannot be sorted. */
  const NoTopologicalOrder: string := "the graph has no topological order"

  /** IsActivation / IsElemwise (lines 216-225). */
  const Activations: set<string> := {"relu", "scale"}
  const Elementwises: set<string> := {"elementwise_add"}

  predicate IsActivation(opType: string)
  {
    opType in Activations
  }

  predicate IsElemwise(opType: string)
  {
    opType in Elementwises
  }

  /** An activation and an element-wise op, in either order. */
  predicate ActivationPair(a: string, b: string)
  {
    (IsActivation(a) && IsElemwise(b)) || (IsActivation(b) && IsElemwise(a))
  }

  /** IsFusible (lines 109-134): both nodes must be operations; the pair is
    * fusible when one is scale or relu and the other elementwise_add. */
  function IsFusible(nodes: map<NodeId, Node>, descs: map<NodeId, OpDesc>, n1: NodeId, n2: NodeId): (r: Result<bool>)
    requires n1 in nodes && n2 in nodes && Described(nodes, descs)
    ensures r.Ok? <==> IsOp(nodes[n1]) && IsOp(nodes[n2])
    ensures r.Ok? ==> (r.value <==> ActivationPair(descs[n1].opType, descs[n2].opType))
  {
    if IsVar(nodes[n1]) then Err("n1 should not be Variable.")
    else if IsVar(nodes[n2]) then Err("n2 should not be Variable.")
    else
      var t1, t2 := descs[n1].opType, descs[n2].opType;
      var case1 := (t1 == "scale" || t1 == "relu") && t2 == "elementwise_add";
      var case2 := (t2 == "scale" || t2 == "relu") && t1 == "elementwise_add";
      Ok(case1 || case2)
  }

  lemma SingletonUnique(s: set<NodeId>)
    requires |s| == 1
    ensures forall x, y :: x in s && y in s ==> x == y
  {
    var z :| z in s;
    assert |s - {z}| == 0;
    assert s - {z} == {};
    assert s == {z};
  }

  /** The one member of a one-member set (`*tobe_fused.begin()`). */
  function TheOne(s: set<NodeId>): (x: NodeId)
    requires |s| == 1
    ensures s == {x}
  {
    SingletonUnique(s);
    var x :| x in s;
    x
  }

  /** IsElemwiseAndActivation (lines 227-236): exactly one op to fuse, and
    * the two form an activation/element-wise pair. */
  function IsElemwiseAndActivation(nodes: map<NodeId, Node>, descs: map<NodeId, OpDesc>, node: NodeId,
                                   tobeFused: set<NodeId>): (r: Result<bool>)
    requires node in nodes && tobeFused <= nodes.Keys && Described(nodes, descs)
    ensures r.Ok? <==> |tobeFused| == 1 && IsOp(nodes[node]) && forall m :: m in tobeFused ==> IsOp(nodes[m])
    ensures r.Ok? ==> forall m :: m in tobeFused ==> (r.value <==> IsFusible(nodes, descs, node, m) == Ok(true))
  {
    if |tobeFused| != 1 then Err("tobe_fused must hold exactly one op")
    else
      var inside := TheOne(tobeFused);
      if !IsOp(nodes[node]) || !IsOp(nodes[inside]) then Err("only an operation has an OpDesc")
      else Ok(ActivationPair(descs[node].opType, descs[inside].opType))
  }

  /** The attribute holding an op's role. */
  const OpRoleAttr := "op_role"

  /** IsForward (lines 200-213): every op to be fused must have the role of
    * `node`; the answer is `role & OpRole::kForward`, a test given here as
    * `forwardRole`. Paddle defines kForward as 0x0000 in op_proto_maker.h,
    * so that bitwise test is false for every role, and the forward branch
    * of line 249 is never taken; `forwardRole` then is `_ => false`. */
  function IsForward(descs: map<NodeId, OpDesc>, node: NodeId, tobeFused: set<NodeId>, forwardRole: int -> bool): (r: Result<bool>)
    requires node in descs && tobeFused <= descs.Keys
    ensures r.Ok? <==> GetIntAttr(descs[node], OpRoleAttr).Ok? &&
                       forall m :: m in tobeFused ==> GetIntAttr(descs[m], OpRoleAttr) == GetIntAttr(descs[node], OpRoleAttr)
    ensures r.Ok? ==> (r.value <==> forwardRole(GetIntAttr(descs[node], OpRoleAttr).value))
  {
    var role := GetIntAttr(descs[node], OpRoleAttr);
    if role.Err? then Err(role.error)
    else if exists m :: m in tobeFused && GetIntAttr(descs[m], OpRoleAttr) != role then
      Err("Currently, only support fusing the same role operators")
    else Ok(forwardRole(role.value))
  }

  /** The element-wise op's argument that is not `produced` (lines 264-270). */
  function OtherInput(args: seq<string>, produced: string): (r: Result<string>)
    requires |args| == 2
    ensures r.Ok? <==> produced in args
    ensures r.Ok? ==> (args[0] == produced && r.value == args[1]) || (args[0] != produced && args[1] == produced && r.value == args[0])
  {
    if args[0] == produced then Ok(args[1])
    else if args[1] == produced then Ok(args[0])
    else Err("exception")
  }

  /** The attributes of the fused desc: functor_list, then every attribute of
    * the inner op, then axis. */
  function FusedAttrs(functors: string, inner: map<string, Attr>, axis: int): map<string, Attr>
  {
    (map["functor_list" := StringAttr(functors)] + inner)["axis" := IntAttr(axis)]
  }

  /** FuseElemwiseAndActivation (lines 238-306): the OpDesc of the fused op
    * for `node` (outside) and `intra` (inside). A backward pair leaves the
    * desc empty. */
  function FuseElemwiseAndActivation(descs: map<NodeId, OpDesc>, node: NodeId, intra: NodeId, forwardRole: int -> bool): (r: Result<OpDesc>)
    requires node in descs && intra in descs
    ensures IsForward(descs, node, {intra}, forwardRole).Err? ==> r.Err?
    ensures IsForward(descs, node, {intra}, forwardRole) == Ok(false) ==> r == Ok(EmptyDesc)
    ensures IsForward(descs, node, {intra}, forwardRole) == Ok(true) && r.Ok? ==>
              r.value.opType == "fused_elemwise_activation" &&
              Arguments(r.value.outputs, "Out") == Ok(ArgumentNames(descs[node].outputs)) &&
              ("functor_list" !in descs[intra].attrs ==>
                 ("functor_list" in r.value.attrs &&
                  r.value.attrs["functor_list"] == StringAttr(descs[node].opType + "," + descs[intra].opType)))
    ensures IsForward(descs, node, {intra}, forwardRole) == Ok(true) && IsElemwise(descs[node].opType) && r.Ok? ==>
              var produced := ArgumentNames(descs[intra].outputs);
              var cur := ArgumentNames(descs[node].inputs);
              |produced| == 1 && |cur| == 2 && produced[0] in cur &&
              Arguments(r.value.inputs, "X") == Ok([OtherInput(cur, produced[0]).value]) &&
              Arguments(r.value.inputs, "Y") == Ok(ArgumentNames(descs[intra].inputs))
    ensures (IsForward(descs, node, {intra}, forwardRole) == Ok(true) && IsElemwise(descs[node].opType) &&
             |ArgumentNames(descs[intra].outputs)| == 1 && |ArgumentNames(descs[node].inputs)| == 2 &&
             ArgumentNames(descs[intra].outputs)[0] !in ArgumentNames(descs[node].inputs)) ==> r.Err?
  {
    var outside, inner := descs[node], descs[intra];
    var fusedOperator := outside.opType + "," + inner.opType;
    var forward := IsForward(descs, node, {intra}, forwardRole);
    if forward.Err? then Err(forward.error)
    else if !forward.value then Ok(EmptyDesc)
    else if IsElemwise(outside.opType) then
      var inArgs := ArgumentNames(inner.inputs);
      var outArgs := ArgumentNames(inner.outputs);
      if |inArgs| != 1 || |outArgs| != 1 then Err("the inner op must have one input and one output")
      else
        var curInArgs := ArgumentNames(outside.inputs);
        if |curInArgs| != 2 then Err("the element-wise op must have two inputs")
        else
          var x := OtherInput(curInArgs, outArgs[0]);
          if x.Err? then Err(x.error)
          else
            var axis := GetIntAttr(outside, "axis");
            if axis.Err? then Err(axis.error)
            else Ok(OpDesc("fused_elemwise_activation", [Param("X", [x.value]), Param("Y", inArgs)],
                           [Param("Out", ArgumentNames(outside.outputs))], FusedAttrs(fusedOperator, inner.attrs, axis.value)))
    else
      var y := Arguments(inner.inputs, "Y");
      if y.Err? then Err(y.error)
      else
        var x := Arguments(inner.inputs, "X");
        if x.Err? then Err(x.error)
        else
          var axis := GetIntAttr(inner, "axis");
          if axis.Err? then Err(axis.error)
          else Ok(OpDesc("fused_elemwise_activation", [Param("X", x.value), Param("Y", y.value)],
                         [Param("Out", ArgumentNames(outside.outputs))], FusedAttrs(fusedOperator, inner.attrs, axis.value)))
  }

  /** The desc FuseOperators fills (lines 141-155), as written: with other
    * than one op to fuse, `PADDLE_ENFORCE("...")` tests a string literal,
    * which never fails, and the desc stays empty. */
  function FusedDescAsWritten(nodes: map<NodeId, Node>, descs: map<NodeId, OpDesc>, cur: NodeId,
                              tobeFused: set<NodeId>, forwardRole: int -> bool): (r: Result<OpDesc>)
    requires cur in nodes && tobeFused <= nodes.Keys && Described(nodes, descs)
    ensures |tobeFused| != 1 ==> r == Ok(EmptyDesc)
  {
    if |tobeFused| == 1 then FusedDesc(nodes, descs, cur, tobeFused, forwardRole)
    else Ok(EmptyDesc)
  }

  /** The desc FuseOperators fills, as its messages intend: only a pair of
    * ops, an element-wise op and an activation, is fused. */
  function FusedDesc(nodes: map<NodeId, Node>, descs: map<NodeId, OpDesc>, cur: NodeId,
                     tobeFused: set<NodeId>, forwardRole: int -> bool): (r: Result<OpDesc>)
    requires cur in nodes && tobeFused <= nodes.Keys && Described(nodes, descs)
    ensures r.Ok? ==> |tobeFused| == 1 && IsElemwiseAndActivation(nodes, descs, cur, tobeFused) == Ok(true)
  {
    if |tobeFused| != 1 then Err("Currently only support fusing two operators.")
    else
      var ok := IsElemwiseAndActivation(nodes, descs, cur, tobeFused);
      if ok.Err? then Err(ok.error)
      else if !ok.value then Err("Currently, only support fusing elementwise and activation operator.")
      else FuseElemwiseAndActivation(descs, cur, TheOne(tobeFused), forwardRole)
  }

  /** With two ops to fuse into an element-wise op, the desc as written is
    * accepted empty, where the intended one is refused. */
  lemma AsWrittenAcceptsThreeOps(nodes: map<NodeId, Node>, descs: map<NodeId, OpDesc>, cur: NodeId,
                                 a: NodeId, b: NodeId, forwardRole: int -> bool)
    requires cur in nodes && a in nodes && b in nodes && a != b && Described(nodes, descs)
    ensures FusedDescAsWritten(nodes, descs, cur, {a, b}, forwardRole) == Ok(EmptyDesc)
    ensures FusedDesc(nodes, descs, cur, {a, b}, forwardRole).Err?
  {
    assert |{a, b}| == 2;
  }

  /** Lines 87-90: the node whose inputs SetupFusion inspects. */
  function Cur(node: NodeId, internal: map<NodeId, NodeId>): NodeId
  {
    if node in internal then internal[node] else node
  }

  /** in_var->inputs[0]: the op that generates a variable. */
  function Generator(nodes: map<NodeId, Node>, v: NodeId): NodeId
    requires v in nodes && nodes[v].inputs != []
  {
    nodes[v].inputs[0]
  }

  /** A variable with exactly one generator, which is an operation (lines 96-98, 110-111). */
  ghost predicate HasGenerator(nodes: map<NodeId, Node>, v: NodeId)
  {
    v in nodes && IsVar(nodes[v]) && |nodes[v].inputs| == 1 && nodes[v].inputs[0] in nodes &&
    IsOp(nodes[nodes[v].inputs[0]])
  }

  ghost predicate InputsChecked(nodes: map<NodeId, Node>, ins: seq<NodeId>)
  {
    forall i :: 0 <= i < |ins| ==> HasGenerator(nodes, ins[i])
  }

  /** The generators of `ins` that form an activation/element-wise pair with `cur`. */
  ghost function FusibleGenerators(nodes: map<NodeId, Node>, descs: map<NodeId, OpDesc>, cur: NodeId,
                                   ins: seq<NodeId>): set<NodeId>
    requires cur in descs && InputsChecked(nodes, ins) && Described(nodes, descs)
  {
    set i | 0 <= i < |ins| && ActivationPair(descs[cur].opType, descs[Generator(nodes, ins[i])].opType)
      :: Generator(nodes, ins[i])
  }

  lemma FusibleGeneratorsSnoc(nodes: map<NodeId, Node>, descs: map<NodeId, OpDesc>, cur: NodeId, ins: seq<NodeId>, v: NodeId)
    requires cur in descs && InputsChecked(nodes, ins) && HasGenerator(nodes, v) && Described(nodes, descs)
    ensures InputsChecked(nodes, ins + [v])
    ensures FusibleGenerators(nodes, descs, cur, ins + [v]) ==
            FusibleGenerators(nodes, descs, cur, ins) +
            (if ActivationPair(descs[cur].opType, descs[Generator(nodes, v)].opType) then {Generator(nodes, v)} else {})
  {
    assert forall i :: 0 <= i < |ins| ==> (ins + [v])[i] == ins[i];
    assert (ins + [v])[|ins|] == v;
  }

  /** SetupFusion (lines 79-107): the ops to fuse into `node` (or into the
    * fused op that already replaced it) are the generators of its inputs
    * that pair with it; fusion is needed when there is one. */
  method SetupFusion(nodes: map<NodeId, Node>, descs: map<NodeId, OpDesc>, node: NodeId, internal: map<NodeId, NodeId>)
    returns (r: Result<bool>, tobeFused: set<NodeId>)
    requires node in nodes && Closed(nodes) && Described(nodes, descs)
    requires forall k :: k in internal ==> internal[k] in nodes && IsOp(nodes[internal[k]])
    ensures r.Ok? <==> IsOp(nodes[node]) && InputsChecked(nodes, nodes[Cur(node, internal)].inputs)
    ensures r.Ok? ==> tobeFused == FusibleGenerators(nodes, descs, Cur(node, internal), nodes[Cur(node, internal)].inputs)
    ensures r.Ok? ==> (r.value <==> tobeFused != {})
  {
    tobeFused := {};
    if IsVar(nodes[node]) {
      return Err(NodeIsVariable), tobeFused;
    }
    var needFusion := false;
    var cur := Cur(node, internal);
    var inputs := nodes[cur].inputs;
    var i := 0;
    while i < |inputs|
      invariant 0 <= i <= |inputs|
      invariant InputsChecked(nodes, inputs[..i])
      invariant tobeFused == FusibleGenerators(nodes, descs, cur, inputs[..i])
      invariant needFusion <==> tobeFused != {}
    {
      var inVar := inputs[i];
      assert inputs[..i + 1] == inputs[..i] + [inVar];
      if !IsVar(nodes[inVar]) {
        return Err(InputNotVariable), tobeFused;
      }
      if |nodes[inVar].inputs| != 1 {
        return Err(InputNotGenerated), tobeFused;
      }
      var gen := nodes[inVar].inputs[0];
      var fusible := IsFusible(nodes, descs, cur, gen);
      if fusible.Err? {
        return Err(fusible.error), tobeFused;
      }
      FusibleGeneratorsSnoc(nodes, descs, cur, inputs[..i], inVar);
      if fusible.value {
        needFusion := true;
        tobeFused := tobeFused + {gen};
      }
      i := i + 1;
    }
    assert inputs[..i] == inputs;
    r := Ok(needFusion);
  }

  /** Every listed node is a variable of the graph. */
  ghost predicate AllVars(nodes: map<NodeId, Node>, s: seq<NodeId>)
  {
    forall y :: y in s ==> y in nodes && IsVar(nodes[y])
  }

  /** A node FuseOperators may hand to the fused op: it feeds exactly one op
    * and, where the source checks it, is a variable (lines 167-170, 182). */
  ghost predicate Feedable(nodes: map<NodeId, Node>, x: NodeId, requireVar: bool)
  {
    x in nodes && (requireVar ==> IsVar(nodes[x])) && |nodes[x].outputs| == 1
  }

  /** Every input of the fused op has a generator (line 162). */
  ghost predicate Generated(nodes: map<NodeId, Node>, ins: seq<NodeId>)
  {
    forall i :: 0 <= i < |ins| ==> ins[i] in nodes && nodes[ins[i]].inputs != [] && nodes[ins[i]].inputs[0] in nodes
  }

  /** The enforces of lines 161-186 for one input `v` of the op fused into. */
  ghost predicate ContributionChecked(nodes: map<NodeId, Node>, tobeFused: set<NodeId>, v: NodeId)
    requires v in nodes && nodes[v].inputs != [] && nodes[v].inputs[0] in nodes
  {
    var gen := Generator(nodes, v);
    if gen in tobeFused then (forall x :: x in nodes[gen].inputs ==> Feedable(nodes, x, true)) && AllVars(nodes, nodes[gen].outputs)
    else Feedable(nodes, v, false)
  }

  ghost predicate FuseChecked(nodes: map<NodeId, Node>, tobeFused: set<NodeId>, ins: seq<NodeId>)
    requires Generated(nodes, ins)
  {
    forall i :: 0 <= i < |ins| ==> ContributionChecked(nodes, tobeFused, ins[i])
  }

  /** What the input `v` gives the fused op: the inputs of its generator when
    * that is fused too, otherwise `v` itself. */
  ghost function Contribution(nodes: map<NodeId, Node>, tobeFused: set<NodeId>, v: NodeId): seq<NodeId>
    requires v in nodes && nodes[v].inputs != [] && nodes[v].inputs[0] in nodes
  {
    var gen := Generator(nodes, v);
    if gen in tobeFused then nodes[gen].inputs else [v]
  }

  /** The inputs of the fused op. */
  ghost function FusedInputs(nodes: map<NodeId, Node>, tobeFused: set<NodeId>, ins: seq<NodeId>): seq<NodeId>
    requires Generated(nodes, ins)
  {
    if ins == [] then []
    else FusedInputs(nodes, tobeFused, ins[..|ins| - 1]) + Contribution(nodes, tobeFused, ins[|ins| - 1])
  }

  /** The variables the fused op swallows: each input made by a fused op, and
    * that op's outputs (lines 165, 175-178). */
  ghost function Absorbed(nodes: map<NodeId, Node>, tobeFused: set<NodeId>, ins: seq<NodeId>): set<NodeId>
    requires Generated(nodes, ins)
  {
    if ins == [] then {}
    else
      var v := ins[|ins| - 1];
      var gen := Generator(nodes, v);
      Absorbed(nodes, tobeFused, ins[..|ins| - 1]) + (if gen in tobeFused then {v} + Members(nodes[gen].outputs) else {})
  }

  lemma FuseSnoc(nodes: map<NodeId, Node>, tobeFused: set<NodeId>, ins: seq<NodeId>, i: nat)
    requires Generated(nodes, ins) && i < |ins|
    ensures Generated(nodes, ins[..i]) && Generated(nodes, ins[..i + 1])
    ensures FusedInputs(nodes, tobeFused, ins[..i + 1]) == FusedInputs(nodes, tobeFused, ins[..i]) + Contribution(nodes, tobeFused, ins[i])
    ensures Absorbed(nodes, tobeFused, ins[..i + 1]) ==
            Absorbed(nodes, tobeFused, ins[..i]) +
            (if Generator(nodes, ins[i]) in tobeFused then {ins[i]} + Members(nodes[Generator(nodes, ins[i])].outputs) else {})
    ensures FuseChecked(nodes, tobeFused, ins[..i + 1]) <==>
            FuseChecked(nodes, tobeFused, ins[..i]) && ContributionChecked(nodes, tobeFused, ins[i])
  {
    assert ins[..i + 1][..i] == ins[..i];
    assert ins[..i + 1][i] == ins[i];
  }

  /** The graph after the rewiring: every node of `fedIn` now feeds only
    * `fused`, every node of `produced` is now made only by `fused`. */
  function Rewired(nodes: map<NodeId, Node>, fedIn: set<NodeId>, produced: set<NodeId>, fused: NodeId): (r: map<NodeId, Node>)
    ensures r.Keys == nodes.Keys
  {
    map k | k in nodes :: nodes[k].(inputs := if k in produced then [fused] else nodes[k].inputs,
                                    outputs := if k in fedIn then [fused] else nodes[k].outputs)
  }

  lemma FeedOne(nodes: map<NodeId, Node>, fedIn: set<NodeId>, produced: set<NodeId>, fused: NodeId, x: NodeId)
    requires x in nodes
    ensures var m := Rewired(nodes, fedIn, produced, fused);
            m[x := m[x].(outputs := [fused])] == Rewired(nodes, fedIn + {x}, produced, fused)
  {
  }

  lemma ProduceOne(nodes: map<NodeId, Node>, fedIn: set<NodeId>, produced: set<NodeId>, fused: NodeId, x: NodeId)
    requires x in nodes
    ensures var m := Rewired(nodes, fedIn, produced, fused);
            m[x := m[x].(inputs := [fused])] == Rewired(nodes, fedIn, produced + {x}, fused)
  {
  }

  lemma RewiredAt(nodes: map<NodeId, Node>, fedIn: set<NodeId>, produced: set<NodeId>, fused: NodeId, x: NodeId)
    requires x in nodes
    ensures var n := Rewired(nodes, fedIn, produced, fused)[x];
            n.nodeType == nodes[x].nodeType && n.name == nodes[x].name &&
            n.inputs == (if x in produced then [fused] else nodes[x].inputs) &&
            n.outputs == (if x in fedIn then [fused] else nodes[x].outputs)
  {
  }

  /** Lines 166-173 (requireVar) and 180-184: each listed node must feed
    * exactly one op, and from then on feeds only the fused op. A node fed
    * earlier already feeds only the fused op. */
  method FeedInto(nodes: map<NodeId, Node>, xs: seq<NodeId>, requireVar: bool, fused: NodeId,
                  ghost base: map<NodeId, Node>, ghost fedIn: set<NodeId>, ghost produced: set<NodeId>)
    returns (ok: bool, nodes': map<NodeId, Node>)
    requires nodes == Rewired(base, fedIn, produced, fused)
    requires forall x :: x in fedIn ==> x in base && |base[x].outputs| == 1
    requires forall x :: x in xs ==> x in base
    ensures ok <==> forall x :: x in xs ==> Feedable(base, x, requireVar)
    ensures ok ==> nodes' == Rewired(base, fedIn + Members(xs), produced, fused)
  {
    nodes' := nodes;
    ghost var fed := fedIn;
    var j := 0;
    while j < |xs|
      invariant 0 <= j <= |xs|
      invariant fed == fedIn + Members(xs[..j])
      invariant nodes' == Rewired(base, fed, produced, fused)
      invariant forall i :: 0 <= i < j ==> Feedable(base, xs[i], requireVar)
      invariant forall y :: y in fed ==> y in base && |base[y].outputs| == 1
    {
      var x := xs[j];
      MembersPrefix(xs, j);
      RewiredAt(base, fed, produced, fused, x);
      if requireVar && !IsVar(nodes'[x]) {
        assert !Feedable(base, x, requireVar);
        return false, nodes';
      }
      if |nodes'[x].outputs| != 1 {
        assert x !in fed;
        assert !Feedable(base, x, requireVar);
        return false, nodes';
      }
      assert Feedable(base, x, requireVar);
      FeedOne(base, fed, produced, fused, x);
      nodes' := nodes'[x := nodes'[x].(outputs := [fused])];
      fed := fed + {x};
      j := j + 1;
    }
    assert xs[..j] == xs;
    ok := true;
  }

  /** Lines 175-178: the generator's outputs must be variables; all of them
    * are marked for removal. */
  method AbsorbOutputs(nodes: map<NodeId, Node>, outs: seq<NodeId>, removed: set<NodeId>)
    returns (ok: bool, removed': set<NodeId>)
    requires forall y :: y in outs ==> y in nodes
    ensures ok <==> AllVars(nodes, outs)
    ensures ok ==> removed' == removed + Members(outs)
  {
    removed' := removed;
    var k := 0;
    while k < |outs|
      invariant 0 <= k <= |outs|
      invariant AllVars(nodes, outs[..k])
      invariant removed' == removed + Members(outs[..k])
    {
      assert outs[..k + 1] == outs[..k] + [outs[k]];
      MembersSnoc(outs[..k], outs[k]);
      if !IsVar(nodes[outs[k]]) {
        return false, removed';
      }
      removed' := removed' + {outs[k]};
      k := k + 1;
    }
    assert outs[..k] == outs;
    ok := true;
  }

  /** Lines 189-195: each output of the op fused into must be a variable,
    * and from then on is made only by the fused op. */
  method ProduceFrom(nodes: map<NodeId, Node>, outs: seq<NodeId>, fused: NodeId,
                     ghost base: map<NodeId, Node>, ghost fedIn: set<NodeId>)
    returns (ok: bool, nodes': map<NodeId, Node>)
    requires nodes == Rewired(base, fedIn, {}, fused)
    requires forall y :: y in outs ==> y in base
    ensures ok <==> AllVars(base, outs)
    ensures ok ==> nodes' == Rewired(base, fedIn, Members(outs), fused)
  {
    nodes' := nodes;
    var k := 0;
    while k < |outs|
      invariant 0 <= k <= |outs|
      invariant nodes' == Rewired(base, fedIn, Members(outs[..k]), fused)
      invariant AllVars(base, outs[..k])
    {
      var y := outs[k];
      assert outs[..k + 1] == outs[..k] + [y];
      MembersSnoc(outs[..k], y);
      if !IsVar(nodes'[y]) {
        return false, nodes';
      }
      ProduceOne(base, fedIn, Members(outs[..k]), fused, y);
      nodes' := nodes'[y := nodes'[y].(inputs := [fused])];
      k := k + 1;
    }
    assert outs[..k] == outs;
    ok := true;
  }

  /** The graph FuseOperators leaves: the fused op `fused` has the inputs
    * FusedInputs and the outputs of `cur`; the variables it reads feed only
    * it and the outputs of `cur` are made only by it. */
  ghost predicate FusedInto(nodes: map<NodeId, Node>, descs: map<NodeId, OpDesc>, cur: NodeId, tobeFused: set<NodeId>,
                            desc: OpDesc, fused: NodeId, nodes': map<NodeId, Node>, descs': map<NodeId, OpDesc>)
    requires cur in nodes && Generated(nodes, nodes[cur].inputs)
  {
    var ins := FusedInputs(nodes, tobeFused, nodes[cur].inputs);
    var outs := nodes[cur].outputs;
    fused !in nodes && descs' == descs[fused := desc] &&
    nodes' == Rewired(nodes, Members(ins), Members(outs), fused)[fused := OpNode(desc.opType, fused).(inputs := ins, outputs := outs)]
  }

  lemma RewiredFresh(nodes0: map<NodeId, Node>, n: Node, m: Node, fedIn: set<NodeId>, produced: set<NodeId>, fused: NodeId)
    requires fused !in fedIn && fused !in produced
    ensures Rewired(nodes0[fused := n], fedIn, produced, fused)[fused := m] == Rewired(nodes0, fedIn, produced, fused)[fused := m]
  {
  }

  /** Every input variable of the op fused into lies in the graph, and so do
    * the inputs of its generator. */
  lemma ContributionInGraph(nodes: map<NodeId, Node>, tobeFused: set<NodeId>, v: NodeId)
    requires Closed(nodes) && v in nodes && nodes[v].inputs != [] && nodes[v].inputs[0] in nodes
    ensures forall x :: x in Contribution(nodes, tobeFused, v) ==> x in nodes
    ensures forall y :: y in nodes[Generator(nodes, v)].outputs ==> y in nodes
  {
  }

  /** The inputs the fused op collects each feed exactly one op. */
  lemma {:induction false} FusedInputsFeedOne(nodes: map<NodeId, Node>, tobeFused: set<NodeId>, ins: seq<NodeId>)
    requires Closed(nodes) && Generated(nodes, ins) && FuseChecked(nodes, tobeFused, ins)
    ensures forall x :: x in FusedInputs(nodes, tobeFused, ins) ==> x in nodes && |nodes[x].outputs| == 1
    decreases |ins|
  {
    if ins != [] {
      var n := |ins| - 1;
      FuseSnoc(nodes, tobeFused, ins, n);
      assert ins[..n + 1] == ins;
      FusedInputsFeedOne(nodes, tobeFused, ins[..n]);
      assert ContributionChecked(nodes, tobeFused, ins[n]);
    }
  }

  lemma RewiredUpdate(nodes: map<NodeId, Node>, n: Node, fedIn: set<NodeId>, produced: set<NodeId>, fused: NodeId)
    requires fused !in fedIn && fused !in produced
    ensures Rewired(nodes, fedIn, produced, fused)[fused := n] == Rewired(nodes[fused := n], fedIn, produced, fused)
  {
  }

  lemma UpdateOver(m: map<NodeId, Node>, m0: map<NodeId, Node>, k: NodeId, a: Node, b: Node, c: Node)
    requires m == m0[k := a]
    ensures m[k := b][k := c] == m0[k := c]
  {
  }

  /** The graph FuseOperators leaves has no dangling edge. */
  lemma FusedClosed(nodes: map<NodeId, Node>, fedIn: set<NodeId>, ins: seq<NodeId>, outs: seq<NodeId>, fused: NodeId, n: Node)
    requires Closed(nodes) && fused !in nodes
    requires forall x :: x in ins ==> x in nodes
    requires forall y :: y in outs ==> y in nodes
    requires n.inputs == ins && n.outputs == outs
    ensures Closed(Rewired(nodes, fedIn, Members(outs), fused)[fused := n])
  {
    var m := Rewired(nodes, fedIn, Members(outs), fused)[fused := n];
    forall k, x | k in m && x in m[k].inputs
      ensures x in m
    {
      if k != fused {
        RewiredAt(nodes, fedIn, Members(outs), fused, k);
      }
    }
    forall k, x | k in m && x in m[k].outputs
      ensures x in m
    {
      if k != fused {
        RewiredAt(nodes, fedIn, Members(outs), fused, k);
      }
    }
  }

  /** Lines 161-185 for one input `v` of the op fused into: `v` itself, or,
    * when its generator is fused too, that generator's inputs, are handed to
    * the fused op and feed it alone from then on. */
  method RewireOne(nodes: map<NodeId, Node>, v: NodeId, tobeFused: set<NodeId>, fused: NodeId,
                   current: map<NodeId, Node>, removed: set<NodeId>,
                   ghost nodes0: map<NodeId, Node>, ghost fedIn: set<NodeId>)
    returns (ok: bool, current': map<NodeId, Node>, contribution: seq<NodeId>, removed': set<NodeId>)
    requires Closed(nodes0) && v in nodes0 && IsVar(nodes0[v]) && nodes0[v].inputs != [] && nodes0[v].inputs[0] in nodes0
    requires forall k :: k in nodes0 ==> k in nodes && nodes[k] == nodes0[k]
    requires current == Rewired(nodes, fedIn, {}, fused)
    requires forall x :: x in fedIn ==> x in nodes0 && |nodes0[x].outputs| == 1
    ensures ok <==> ContributionChecked(nodes0, tobeFused, v)
    ensures ok ==> contribution == Contribution(nodes0, tobeFused, v)
    ensures ok ==> current' == Rewired(nodes, fedIn + Members(contribution), {}, fused)
    ensures ok ==> removed' == removed + (if Generator(nodes0, v) in tobeFused
                                          then {v} + Members(nodes0[Generator(nodes0, v)].outputs) else {})
    ensures ok ==> forall x :: x in contribution ==> x in nodes0 && IsVar(nodes0[x]) && |nodes0[x].outputs| == 1
  {
    removed' := removed;
    contribution := [];
    var gen := nodes[v].inputs[0];
    assert gen == Generator(nodes0, v) && gen in nodes0;
    if gen in tobeFused {
      removed' := removed' + {v};
      var genNode := nodes[gen];
      assert genNode == nodes0[gen];
      ok, current' := FeedInto(current, genNode.inputs, true, fused, nodes, fedIn, {});
      if !ok {
        return;
      }
      contribution := genNode.inputs;
      ok, removed' := AbsorbOutputs(nodes, genNode.outputs, removed');
      assert ok <==> AllVars(nodes0, genNode.outputs);
    } else {
      ok, current' := FeedInto(current, [v], false, fused, nodes, fedIn, {});
      contribution := [v];
    }
  }

  /** One input's contribution keeps the loop state of RewireInputs in
    * step with FusedInputs and Absorbed. */
  lemma RewireStep(nodes0: map<NodeId, Node>, tobeFused: set<NodeId>, ins: seq<NodeId>, i: nat,
                   fusedIns: seq<NodeId>, contribution: seq<NodeId>,
                   removed: set<NodeId>, removedBefore: set<NodeId>, removedAfter: set<NodeId>)
    requires Generated(nodes0, ins) && i < |ins| && Generated(nodes0, ins[..i])
    requires FuseChecked(nodes0, tobeFused, ins[..i]) && ContributionChecked(nodes0, tobeFused, ins[i])
    requires fusedIns == FusedInputs(nodes0, tobeFused, ins[..i])
    requires contribution == Contribution(nodes0, tobeFused, ins[i])
    requires removedBefore == removed + Absorbed(nodes0, tobeFused, ins[..i])
    requires removedAfter == removedBefore + (if Generator(nodes0, ins[i]) in tobeFused
                                              then {ins[i]} + Members(nodes0[Generator(nodes0, ins[i])].outputs) else {})
    ensures Generated(nodes0, ins[..i + 1]) && FuseChecked(nodes0, tobeFused, ins[..i + 1])
    ensures fusedIns + contribution == FusedInputs(nodes0, tobeFused, ins[..i + 1])
    ensures removedAfter == removed + Absorbed(nodes0, tobeFused, ins[..i + 1])
  {
    FuseSnoc(nodes0, tobeFused, ins, i);
  }

  /** Lines 160-186, the inputs of the fused op: the contributions of the
    * inputs of the op fused into, in order. */
  method RewireInputs(nodes: map<NodeId, Node>, ins: seq<NodeId>, tobeFused: set<NodeId>, fused: NodeId,
                      removed: set<NodeId>, ghost nodes0: map<NodeId, Node>)
    returns (ok: bool, nodes': map<NodeId, Node>, fusedIns: seq<NodeId>, removed': set<NodeId>)
    requires Closed(nodes0) && fused !in nodes0 && Generated(nodes0, ins) && AllVars(nodes0, ins)
    requires forall k :: k in nodes0 ==> k in nodes && nodes[k] == nodes0[k]
    ensures ok <==> FuseChecked(nodes0, tobeFused, ins)
    ensures ok ==> fusedIns == FusedInputs(nodes0, tobeFused, ins)
    ensures ok ==> nodes' == Rewired(nodes, Members(fusedIns), {}, fused)
    ensures ok ==> removed' == removed + Absorbed(nodes0, tobeFused, ins)
    ensures ok ==> forall x :: x in fusedIns ==> x in nodes0 && IsVar(nodes0[x])
  {
    removed' := removed;
    nodes' := nodes;
    fusedIns := [];
    var i := 0;
    while i < |ins|
      invariant 0 <= i <= |ins| && Generated(nodes0, ins[..i])
      invariant fusedIns == FusedInputs(nodes0, tobeFused, ins[..i])
      invariant FuseChecked(nodes0, tobeFused, ins[..i])
      invariant forall x :: x in fusedIns ==> x in nodes0 && IsVar(nodes0[x]) && |nodes0[x].outputs| == 1
      invariant nodes' == Rewired(nodes, Members(fusedIns), {}, fused)
      invariant removed' == removed + Absorbed(nodes0, tobeFused, ins[..i])
    {
      var v := ins[i];
      FuseSnoc(nodes0, tobeFused, ins, i);
      var contribution;
      ghost var removedBefore := removed';
      ok, nodes', contribution, removed' := RewireOne(nodes, v, tobeFused, fused, nodes', removed', nodes0, Members(fusedIns));
      if !ok {
        assert ins[..i + 1][i] == v;
        return;
      }
      MembersConcat(fusedIns, contribution);
      RewireStep(nodes0, tobeFused, ins, i, fusedIns, contribution, removed, removedBefore, removed');
      fusedIns := fusedIns + contribution;
      i := i + 1;
    }
    assert ins[..i] == ins;
    ok := true;
  }

  /** FuseOperators (lines 136-198): creates the fused op and moves the
    * edges of `cur` and of the ops fused into it onto the fused op. */
  method FuseOperators(g: Graph, cur: NodeId, tobeFused: set<NodeId>, removed: set<NodeId>, forwardRole: int -> bool)
    returns (r: Result<NodeId>, removed': set<NodeId>, desc: OpDesc)
    requires g.Valid() && Closed(g.nodes)
    requires cur in g.nodes && IsOp(g.nodes[cur]) && tobeFused <= g.nodes.Keys
    requires Generated(g.nodes, g.nodes[cur].inputs) && AllVars(g.nodes, g.nodes[cur].inputs)
    modifies g
    ensures g.Valid() && old(g.nodes).Keys <= g.nodes.Keys
    ensures r.Ok? <==> FusedDesc(old(g.nodes), old(g.descs), cur, tobeFused, forwardRole).Ok? &&
                       FuseChecked(old(g.nodes), tobeFused, old(g.nodes)[cur].inputs) &&
                       AllVars(old(g.nodes), old(g.nodes)[cur].outputs)
    ensures r.Ok? ==> desc == FusedDesc(old(g.nodes), old(g.descs), cur, tobeFused, forwardRole).value
    ensures r.Ok? ==> removed' == removed + Absorbed(old(g.nodes), tobeFused, old(g.nodes)[cur].inputs)
    ensures r.Ok? ==> FusedInto(old(g.nodes), old(g.descs), cur, tobeFused, desc, r.value, g.nodes, g.descs)
    ensures r.Ok? ==> forall o :: o in old(g.nodes)[cur].outputs ==> g.nodes[o].inputs == [r.value]
    ensures r.Ok? ==> Closed(g.nodes)
    ensures r.Ok? ==> forall k :: k in old(g.nodes) && IsOp(old(g.nodes)[k]) ==> g.nodes[k] == old(g.nodes)[k]
    ensures r.Ok? ==> r.value !in old(g.nodes) && g.nodes.Keys == old(g.nodes).Keys + {r.value} && IsOp(g.nodes[r.value])
  {
    removed' := removed;
    desc := EmptyDesc;
    var descR := FusedDesc(g.nodes, g.descs, cur, tobeFused, forwardRole);
    if descR.Err? {
      return Err(descR.error), removed', desc;
    }
    desc := descR.value;
    r, removed' := FuseWithDesc(g, cur, tobeFused, removed, desc);
  }

  /** The failure of the enforces of lines 161-186. */
  const NotFeedable: string := "the fused op's inputs must feed it alone and its outputs must be variables"

  /** The part of FuseOperators after the description is built: the fused
    * op is created over `desc` and takes over the edges. */
  method FuseWithDesc(g: Graph, cur: NodeId, tobeFused: set<NodeId>, removed: set<NodeId>, desc: OpDesc)
    returns (r: Result<NodeId>, removed': set<NodeId>)
    requires g.Valid() && Closed(g.nodes)
    requires cur in g.nodes && IsOp(g.nodes[cur]) && tobeFused <= g.nodes.Keys
    requires Generated(g.nodes, g.nodes[cur].inputs) && AllVars(g.nodes, g.nodes[cur].inputs)
    modifies g
    ensures g.Valid() && old(g.nodes).Keys <= g.nodes.Keys
    ensures r.Ok? <==> FuseChecked(old(g.nodes), tobeFused, old(g.nodes)[cur].inputs) &&
                       AllVars(old(g.nodes), old(g.nodes)[cur].outputs)
    ensures r.Ok? ==> removed' == removed + Absorbed(old(g.nodes), tobeFused, old(g.nodes)[cur].inputs)
    ensures r.Ok? ==> FusedInto(old(g.nodes), old(g.descs), cur, tobeFused, desc, r.value, g.nodes, g.descs)
    ensures r.Ok? ==> forall o :: o in old(g.nodes)[cur].outputs ==> g.nodes[o].inputs == [r.value]
    ensures r.Ok? ==> Closed(g.nodes)
    ensures r.Ok? ==> forall k :: k in old(g.nodes) && IsOp(old(g.nodes)[k]) ==> g.nodes[k] == old(g.nodes)[k]
    ensures r.Ok? ==> r.value !in old(g.nodes) && g.nodes.Keys == old(g.nodes).Keys + {r.value} && IsOp(g.nodes[r.value])
  {
    ghost var nodes0 := g.nodes;
    ghost var descs0 := g.descs;
    var ins := g.nodes[cur].inputs;
    var outs := g.nodes[cur].outputs;
    assert forall y :: y in outs ==> y in nodes0;
    var fused := g.CreateOpNode(desc);
    var ok, nodes;
    ok, nodes, removed' := FuseNodes(g.nodes, ins, outs, tobeFused, fused, desc.opType, removed, nodes0);
    if ok {
      FusedNodes(nodes0, descs0, cur, tobeFused, desc, fused, nodes);
      g.nodes := nodes;
      r := Ok(fused);
    } else {
      r := Err(NotFeedable);
    }
  }

  /** The node map FuseNodes leaves for the op fused into, `cur`, is the
    * one FusedInto describes, and it stays closed and described. */
  lemma FusedNodes(nodes0: map<NodeId, Node>, descs0: map<NodeId, OpDesc>, cur: NodeId, tobeFused: set<NodeId>,
                   desc: OpDesc, fused: NodeId, nodes: map<NodeId, Node>)
    requires Described(nodes0, descs0) && cur in nodes0 && Generated(nodes0, nodes0[cur].inputs) && fused !in nodes0
    requires var fusedIns := FusedInputs(nodes0, tobeFused, nodes0[cur].inputs);
             nodes == Rewired(nodes0, Members(fusedIns), Members(nodes0[cur].outputs), fused)
                        [fused := OpNode(desc.opType, fused).(inputs := fusedIns, outputs := nodes0[cur].outputs)]
    ensures FusedInto(nodes0, descs0, cur, tobeFused, desc, fused, nodes, descs0[fused := desc])
    ensures nodes.Keys == nodes0.Keys + {fused} && IsOp(nodes[fused])
    ensures Described(nodes, descs0[fused := desc])
  {
    forall k | k in nodes0
      ensures nodes[k].nodeType == nodes0[k].nodeType
    {
      assert k != fused;
    }
    KindsKeptDescribed(nodes0, descs0, nodes, fused, desc);
  }

  /** In the graph FuseOperators leaves, the fused op produces the outputs
    * of the op fused into, and no node of the old graph changes kind. */
  lemma FusedIntoKinds(nodes0: map<NodeId, Node>, descs0: map<NodeId, OpDesc>, cur: NodeId, tobeFused: set<NodeId>,
                       desc: OpDesc, fused: NodeId, nodes: map<NodeId, Node>, descs: map<NodeId, OpDesc>)
    requires cur in nodes0 && Generated(nodes0, nodes0[cur].inputs)
    requires FusedInto(nodes0, descs0, cur, tobeFused, desc, fused, nodes, descs)
    ensures fused in nodes && nodes[fused].outputs == nodes0[cur].outputs
    ensures forall k :: k in nodes0 ==> k in nodes && nodes[k].nodeType == nodes0[k].nodeType
  {
    forall k | k in nodes0
      ensures k in nodes && nodes[k].nodeType == nodes0[k].nodeType
    {
      assert k != fused;
    }
  }

  /** A node map that keeps the kind of every node and adds an op with its
    * description stays described. */
  lemma KindsKeptDescribed(nodes0: map<NodeId, Node>, descs0: map<NodeId, OpDesc>, nodes: map<NodeId, Node>,
                           fused: NodeId, desc: OpDesc)
    requires Described(nodes0, descs0) && nodes.Keys == nodes0.Keys + {fused}
    requires forall k :: k in nodes0 ==> nodes[k].nodeType == nodes0[k].nodeType
    ensures Described(nodes, descs0[fused := desc])
  {
  }

  /** Lines 158-196 on the node map: the fused op `fused`, already created,
    * takes over the edges of the op fused into (inputs `ins`, outputs `outs`). */
  method FuseNodes(nodes: map<NodeId, Node>, ins: seq<NodeId>, outs: seq<NodeId>, tobeFused: set<NodeId>,
                   fused: NodeId, opType: string, removed: set<NodeId>, ghost nodes0: map<NodeId, Node>)
    returns (ok: bool, nodes': map<NodeId, Node>, removed': set<NodeId>)
    requires Closed(nodes0) && fused !in nodes0 && nodes == nodes0[fused := OpNode(opType, fused)]
    requires Generated(nodes0, ins) && AllVars(nodes0, ins)
    requires forall y :: y in outs ==> y in nodes0
    ensures ok <==> FuseChecked(nodes0, tobeFused, ins) && AllVars(nodes0, outs)
    ensures ok ==> removed' == removed + Absorbed(nodes0, tobeFused, ins)
    ensures ok ==> var fusedIns := FusedInputs(nodes0, tobeFused, ins);
                   nodes' == Rewired(nodes0, Members(fusedIns), Members(outs), fused)
                               [fused := OpNode(opType, fused).(inputs := fusedIns, outputs := outs)]
    ensures ok ==> nodes'.Keys == nodes.Keys && Closed(nodes')
    ensures ok ==> forall o :: o in outs ==> nodes'[o].inputs == [fused]
    ensures ok ==> forall k :: k in nodes0 && IsOp(nodes0[k]) ==> nodes'[k] == nodes0[k]
    ensures ok ==> forall k :: k in nodes0 ==> nodes'[k].nodeType == nodes0[k].nodeType
  {
    var created := OpNode(opType, fused);
    var fusedIns;
    ok, nodes', fusedIns, removed' := RewireInputs(nodes, ins, tobeFused, fused, removed, nodes0);
    if !ok {
      return;
    }
    var withIns := created.(inputs := fusedIns);
    RewiredUpdate(nodes, withIns, Members(fusedIns), {}, fused);
    nodes' := nodes'[fused := withIns];
    ok, nodes' := ProduceFrom(nodes', outs, fused, nodes[fused := withIns], Members(fusedIns));
    if !ok {
      assert !AllVars(nodes0, outs);
      return;
    }
    var withBoth := withIns.(outputs := outs);
    RewiredUpdate(nodes[fused := withIns], withBoth, Members(fusedIns), Members(outs), fused);
    RewiredUpdate(nodes0, withBoth, Members(fusedIns), Members(outs), fused);
    UpdateOver(nodes, nodes0, fused, created, withIns, withBoth);
    nodes' := nodes'[fused := withBoth];
    FusedClosed(nodes0, Members(fusedIns), fusedIns, outs, fused, withBoth);
    forall o | o in outs
      ensures nodes'[o].inputs == [fused]
    {
      RewiredAt(nodes0, Members(fusedIns), Members(outs), fused, o);
    }
    forall k | k in nodes0
      ensures nodes'[k].nodeType == nodes0[k].nodeType && (IsOp(nodes0[k]) ==> nodes'[k] == nodes0[k])
    {
      RewiredAt(nodes0, Members(fusedIns), Members(outs), fused, k);
    }
  }

  lemma MembersConcat(s: seq<NodeId>, t: seq<NodeId>)
    ensures Members(s + t) == Members(s) + Members(t)
  {
    assert forall y :: y in s + t <==> y in s || y in t;
  }

  // GetTopoOrder (lines 310-366)

  /** The operations of a graph. */
  ghost function OpIds(nodes: map<NodeId, Node>): set<NodeId>
  {
    set k | k in nodes && IsOp(nodes[k])
  }

  /** The variables of a graph. */
  ghost function VarIds(nodes: map<NodeId, Node>): set<NodeId>
  {
    set k | k in nodes && IsVar(nodes[k])
  }

  /** The nodes the given ops output. */
  ghost function OutputsOf(nodes: map<NodeId, Node>, ops: set<NodeId>): set<NodeId>
  {
    set op, v | op in ops && op in nodes && v in nodes[op].outputs :: v
  }

  /** A variable is ready once it has no generator or an op that has run
    * outputs it. */
  ghost predicate Made(nodes: map<NodeId, Node>, done: set<NodeId>, v: NodeId)
    requires v in nodes
  {
    nodes[v].inputs == [] || v in OutputsOf(nodes, done)
  }

  /** Every variable of the graph is ready once the ops in `done` have run. */
  ghost predicate AllMade(nodes: map<NodeId, Node>, done: set<NodeId>)
  {
    forall v :: v in VarIds(nodes) ==> Made(nodes, done, v)
  }

  /** The dependency count of an op: absent counts as 0, as std::map's operator[] does. */
  function Deps(pendingOps: map<NodeId, int>, k: NodeId): int
  {
    if k in pendingOps then pendingOps[k] else 0
  }

  /** What the counters promise: an op still waiting is an op of the graph,
    * an op ready to run is an op that has not run, and no op that is ready or
    * has run waits for anything. */
  ghost predicate Counting(nodes: map<NodeId, Node>, pendingOps: map<NodeId, int>, readyOps: set<NodeId>, done: set<NodeId>)
  {
    (forall k :: k in pendingOps && pendingOps[k] > 0 ==> k in OpIds(nodes)) &&
    (forall k :: k in readyOps ==> k in OpIds(nodes) && k !in done) &&
    (forall k :: k in pendingOps && (k in readyOps || k in done) ==> pendingOps[k] <= 0)
  }

  /** Every input of an op is a variable that lists the op among its
    * readers: the edges the counts are set from and the edges the release
    * loop follows agree. */
  ghost predicate Linked(nodes: map<NodeId, Node>)
  {
    forall o, v :: o in OpIds(nodes) && v in nodes[o].inputs ==> v in VarIds(nodes) && o in nodes[v].outputs
  }

  /** A linked graph in SSA form: every reader of a variable reads it, a
    * variable lists each reader once, and an op's output has that op as its
    * only generator. */
  ghost predicate Wired(nodes: map<NodeId, Node>)
  {
    Linked(nodes) &&
    (forall v, o :: v in VarIds(nodes) && o in nodes[v].outputs ==> o in OpIds(nodes) && v in nodes[o].inputs) &&
    (forall v :: v in VarIds(nodes) ==> NoDuplicates(nodes[v].outputs)) &&
    (forall o, v :: o in OpIds(nodes) && v in nodes[o].outputs ==> v in VarIds(nodes) && nodes[v].inputs == [o])
  }

  /** Every op that has not run waits for an input that is not made. */
  ghost predicate Blocked(nodes: map<NodeId, Node>, done: set<NodeId>)
  {
    forall o :: o in OpIds(nodes) && o !in done ==>
      exists v :: v in nodes[o].inputs && v in nodes && !Made(nodes, done, v)
  }

  /** `s` runs ops of the graph, each once the ops before it have made all
    * its inputs. */
  ghost predicate Feeds(nodes: map<NodeId, Node>, s: seq<NodeId>)
  {
    forall k :: 0 <= k < |s| ==>
      s[k] in OpIds(nodes) && forall v :: v in nodes[s[k]].inputs ==> v in nodes && Made(nodes, Members(s[..k]), v)
  }

  /** Some order of the ops makes every variable. */
  ghost predicate Sortable(nodes: map<NodeId, Node>)
  {
    exists s :: Feeds(nodes, s) && AllMade(nodes, Members(s))
  }

  /** No op of `topo` outputs an input of itself or of an op after it: read
    * from the back, producers come before their readers. */
  ghost predicate DepOrdered(nodes: map<NodeId, Node>, topo: seq<NodeId>)
  {
    forall i, j, v ::
      0 <= i <= j < |topo| && topo[i] in nodes && topo[j] in nodes && v in nodes[topo[i]].outputs ==>
      v !in nodes[topo[j]].inputs
  }

  /** `s` read from the back, the order of ApplyImpl's `rbegin` loop. */
  function Reversed(s: seq<NodeId>): (r: seq<NodeId>)
    ensures |r| == |s|
  {
    if s == [] then [] else Reversed(s[1..]) + [s[0]]
  }

  /** Position `i` of the reversed sequence holds position `|s| - 1 - i`. */
  lemma {:induction false} ReversedAt(s: seq<NodeId>, i: nat)
    requires i < |s|
    ensures Reversed(s)[i] == s[|s| - 1 - i]
  {
    if i < |s| - 1 {
      ReversedAt(s[1..], i);
    }
  }

  /** The counts of the ops that wait, in a linked graph: each has inputs,
    * a positive count, and no more than its distinct inputs still pending. */
  ghost predicate Waiting(nodes: map<NodeId, Node>, pendingOps: map<NodeId, int>, readyOps: set<NodeId>,
                          done: set<NodeId>, pendingVars: set<NodeId>)
  {
    forall o :: o in OpIds(nodes) && o !in readyOps && o !in done ==>
      nodes[o].inputs != [] && 0 < Deps(pendingOps, o) <= |Members(nodes[o].inputs) * pendingVars|
  }

  /** In an SSA graph the count of an op that waits is exactly its distinct
    * inputs still pending. */
  ghost predicate WaitingExactly(nodes: map<NodeId, Node>, pendingOps: map<NodeId, int>, readyOps: set<NodeId>,
                                 done: set<NodeId>, pendingVars: set<NodeId>)
  {
    forall o :: o in OpIds(nodes) && o !in readyOps && o !in done ==>
      Deps(pendingOps, o) == |Members(nodes[o].inputs) * pendingVars|
  }

  /** An op that is ready or has run waits for none of its inputs. */
  ghost predicate Fed(nodes: map<NodeId, Node>, readyOps: set<NodeId>, done: set<NodeId>, pendingVars: set<NodeId>)
  {
    forall o, v :: o in OpIds(nodes) && (o in readyOps || o in done) && v in nodes[o].inputs ==> v !in pendingVars
  }

  /** The counting facts the rounds keep, by what the graph is. */
  ghost predicate Tracked(nodes: map<NodeId, Node>, pendingOps: map<NodeId, int>, readyOps: set<NodeId>,
                          done: set<NodeId>, pendingVars: set<NodeId>)
  {
    (Linked(nodes) ==> Waiting(nodes, pendingOps, readyOps, done, pendingVars)) &&
    (Wired(nodes) ==> WaitingExactly(nodes, pendingOps, readyOps, done, pendingVars) &&
                      Fed(nodes, readyOps, done, pendingVars))
  }

  /** The four queues of GetTopoOrder. */
  datatype Queues = Queues(pendingOps: map<NodeId, int>, pendingVars: set<NodeId>, readyVars: set<NodeId>, readyOps: set<NodeId>)

  /** The queues lines 330-336 build from the nodes in `seen`. */
  ghost function InitQueuesOf(nodes: map<NodeId, Node>, seen: set<NodeId>): Queues
  {
    Queues(map k | k in seen && k in nodes && IsOp(nodes[k]) && nodes[k].inputs != [] :: |Members(nodes[k].inputs)|,
           set v | v in seen && v in nodes && IsVar(nodes[v]),
           set v | v in seen && v in nodes && IsVar(nodes[v]) && nodes[v].inputs == [],
           set k | k in seen && k in nodes && IsOp(nodes[k]) && nodes[k].inputs == [])
  }

  /** The insert_var and insert_op lambdas (lines 316-329). */
  function Insert(nodes: map<NodeId, Node>, q: Queues, node: NodeId): (q': Queues)
    requires node in nodes
    ensures IsVar(nodes[node]) ==> node in q'.pendingVars && (node in q'.readyVars <==> node in q.readyVars || nodes[node].inputs == [])
    ensures IsOp(nodes[node]) ==> (node in q'.readyOps <==> node in q.readyOps || nodes[node].inputs == [])
  {
    if IsVar(nodes[node]) then
      q.(pendingVars := q.pendingVars + {node},
         readyVars := if nodes[node].inputs == [] then q.readyVars + {node} else q.readyVars)
    else if nodes[node].inputs == [] then q.(readyOps := q.readyOps + {node})
    else q.(pendingOps := q.pendingOps[node := |Members(nodes[node].inputs)|])
  }

  lemma InitStep(nodes: map<NodeId, Node>, seen: set<NodeId>, n: NodeId)
    requires n in nodes && n !in seen
    ensures InitQueuesOf(nodes, seen + {n}) == Insert(nodes, InitQueuesOf(nodes, seen), n)
  {
  }

  lemma MoveOne(seen: set<NodeId>, rest: set<NodeId>, all: set<NodeId>, x: NodeId)
    requires seen !! rest && seen + rest == all && x in rest
    ensures seen + {x} !! rest - {x} && (seen + {x}) + (rest - {x}) == all
  {
  }

  /** Lines 330-336: every variable waits, and is ready when it has no
    * generator; every op is ready when it has no input and otherwise waits
    * for its distinct inputs. */
  method InitQueues(nodes: map<NodeId, Node>) returns (q: Queues)
    ensures q == InitQueuesOf(nodes, nodes.Keys)
  {
    q := Queues(map[], {}, {}, {});
    var rest := nodes.Keys;
    ghost var seen: set<NodeId> := {};
    while rest != {}
      invariant seen !! rest && seen + rest == nodes.Keys
      invariant q == InitQueuesOf(nodes, seen)
      decreases |rest|
    {
      var node :| node in rest;
      InitStep(nodes, seen, node);
      MoveOne(seen, rest, nodes.Keys, node);
      q := Insert(nodes, q, node);
      rest := rest - {node};
      seen := seen + {node};
    }
  }

  /** The run_all_ops lambda (lines 338-347): the ready ops run as one block,
    * in the set's order, and the variables they output become ready. */
  method RunAll(nodes: map<NodeId, Node>, readyOps: set<NodeId>, readyVars: set<NodeId>)
    returns (block: seq<NodeId>, readyVars': set<NodeId>)
    requires readyOps <= OpIds(nodes)
    ensures Members(block) == readyOps && NoDuplicates(block)
    ensures readyVars' == readyVars + OutputsOf(nodes, readyOps)
  {
    block := [];
    readyVars' := readyVars;
    var rest := readyOps;
    while rest != {}
      invariant rest <= readyOps && Members(block) == readyOps - rest && NoDuplicates(block)
      invariant readyVars' == readyVars + OutputsOf(nodes, readyOps - rest)
      decreases |rest|
    {
      var op :| op in rest;
      assert OutputsOf(nodes, readyOps - (rest - {op})) == OutputsOf(nodes, readyOps - rest) + Members(nodes[op].outputs);
      readyVars' := readyVars' + Members(nodes[op].outputs);
      MembersConcat(block, [op]);
      block := block + [op];
      rest := rest - {op};
    }
  }

  /** Lines 357-360 over the ops a variable feeds, in order: each waits for
    * one input less, and becomes ready when its count reaches exactly 0. */
  ghost function Decremented(pendingOps: map<NodeId, int>, readyOps: set<NodeId>, outs: seq<NodeId>): (map<NodeId, int>, set<NodeId>)
  {
    if outs == [] then (pendingOps, readyOps)
    else
      var (p, r) := Decremented(pendingOps, readyOps, outs[..|outs| - 1]);
      var op := outs[|outs| - 1];
      var deps := Deps(p, op) - 1;
      (p[op := deps], if deps == 0 then r + {op} else r)
  }

  /** Every edge from the variable takes one off its op's count. */
  lemma {:induction false} DecrementedCounts(pendingOps: map<NodeId, int>, readyOps: set<NodeId>, outs: seq<NodeId>)
    ensures forall k :: Deps(Decremented(pendingOps, readyOps, outs).0, k) == Deps(pendingOps, k) - multiset(outs)[k]
  {
    if outs != [] {
      var front := outs[..|outs| - 1];
      DecrementedCounts(pendingOps, readyOps, front);
      assert outs == front + [outs[|outs| - 1]];
    }
  }

  /** An op becomes ready exactly when its count passes 0. */
  lemma {:induction false} DecrementedReady(pendingOps: map<NodeId, int>, readyOps: set<NodeId>, outs: seq<NodeId>)
    ensures Decremented(pendingOps, readyOps, outs).1 ==
            readyOps + set k | k in outs && 0 < Deps(pendingOps, k) <= multiset(outs)[k]
  {
    if outs != [] {
      var front := outs[..|outs| - 1];
      var op := outs[|outs| - 1];
      DecrementedReady(pendingOps, readyOps, front);
      DecrementedCounts(pendingOps, readyOps, front);
      assert outs == front + [op];
      assert forall k :: k in outs <==> k in front || k == op;
      assert forall k :: k != op ==> multiset(outs)[k] == multiset(front)[k];
      assert multiset(outs)[op] == multiset(front)[op] + 1;
    }
  }

  /** Decrementing keeps the counters' promise. */
  lemma {:induction false} DecrementedCounting(nodes: map<NodeId, Node>, pendingOps: map<NodeId, int>, readyOps: set<NodeId>,
                                               done: set<NodeId>, outs: seq<NodeId>)
    requires Counting(nodes, pendingOps, readyOps, done)
    ensures Counting(nodes, Decremented(pendingOps, readyOps, outs).0, Decremented(pendingOps, readyOps, outs).1, done)
    ensures readyOps <= Decremented(pendingOps, readyOps, outs).1
  {
    if outs != [] {
      DecrementedCounting(nodes, pendingOps, readyOps, done, outs[..|outs| - 1]);
    }
  }

  /** The inner loop of lines 357-360 for one ready variable. */
  method ReleaseVar(outs: seq<NodeId>, pendingOps: map<NodeId, int>, readyOps: set<NodeId>)
    returns (pendingOps': map<NodeId, int>, readyOps': set<NodeId>)
    ensures (pendingOps', readyOps') == Decremented(pendingOps, readyOps, outs)
  {
    pendingOps', readyOps' := pendingOps, readyOps;
    var j := 0;
    while j < |outs|
      invariant 0 <= j <= |outs|
      invariant (pendingOps', readyOps') == Decremented(pendingOps, readyOps, outs[..j])
    {
      var op := outs[j];
      assert outs[..j + 1][..j] == outs[..j];
      var deps := Deps(pendingOps', op) - 1;
      pendingOps' := pendingOps'[op := deps];
      if deps == 0 {
        readyOps' := readyOps' + {op};
      }
      j := j + 1;
    }
    assert outs[..j] == outs;
  }

  /** Lines 355-362: every ready variable stops waiting and releases the ops
    * it feeds. */
  method ReleaseReady(nodes: map<NodeId, Node>, readyVars: set<NodeId>, pendingVars: set<NodeId>,
                      pendingOps: map<NodeId, int>, readyOps: set<NodeId>, ghost done: set<NodeId>)
    returns (pendingVars': set<NodeId>, pendingOps': map<NodeId, int>, readyOps': set<NodeId>)
    requires readyVars <= nodes.Keys && Counting(nodes, pendingOps, readyOps, done)
    requires Tracked(nodes, pendingOps, readyOps, done, pendingVars)
    requires Wired(nodes) ==> readyVars <= pendingVars <= VarIds(nodes)
    ensures pendingVars' == pendingVars - readyVars
    ensures Counting(nodes, pendingOps', readyOps', done) && readyOps <= readyOps'
    ensures Tracked(nodes, pendingOps', readyOps', done, pendingVars')
  {
    pendingVars', pendingOps', readyOps' := pendingVars, pendingOps, readyOps;
    var rest := readyVars;
    while rest != {}
      invariant rest <= readyVars && pendingVars' == pendingVars - (readyVars - rest)
      invariant Counting(nodes, pendingOps', readyOps', done) && readyOps <= readyOps'
      invariant Tracked(nodes, pendingOps', readyOps', done, pendingVars')
      invariant Wired(nodes) ==> rest <= pendingVars' <= VarIds(nodes)
      decreases |rest|
    {
      var v :| v in rest;
      ReleaseTracked(nodes, pendingOps', readyOps', done, pendingVars', v);
      pendingVars' := pendingVars' - {v};
      DecrementedCounting(nodes, pendingOps', readyOps', done, nodes[v].outputs);
      pendingOps', readyOps' := ReleaseVar(nodes[v].outputs, pendingOps', readyOps');
      rest := rest - {v};
    }
  }

  lemma MissingCard(small: set<NodeId>, big: set<NodeId>, x: NodeId)
    requires small <= big && x in big && x !in small
    ensures |small| < |big|
  {
    assert small <= big - {x};
    assert |big - {x}| == |big| - 1;
    SubsetCard(small, big - {x});
  }

  lemma SubsetCard(small: set<NodeId>, big: set<NodeId>)
    requires small <= big
    ensures |small| <= |big|
  {
    assert big == small + (big - small);
  }

  /** What holds between rounds of GetTopoOrder: `topo` lists the ops that
    * have run (`done`) once each; a variable stops waiting only once it is
    * made; the ready variables wait and are made; and a waiting variable that
    * is made is ready. */
  ghost predicate Scheduled(nodes: map<NodeId, Node>, q: Queues, topo: seq<NodeId>, done: set<NodeId>)
  {
    done == Members(topo) && done <= OpIds(nodes) && NoDuplicates(topo) &&
    Counting(nodes, q.pendingOps, q.readyOps, done) &&
    q.pendingVars <= VarIds(nodes) && q.readyVars <= q.pendingVars &&
    (forall v :: v in q.readyVars ==> v in nodes && Made(nodes, done, v)) &&
    (forall v :: v in VarIds(nodes) && v !in q.pendingVars ==> Made(nodes, done, v)) &&
    (forall v :: v in q.pendingVars && Made(nodes, done, v) ==> v in q.readyVars)
  }

  /** What holds once a round's ops have run: as Scheduled, except that the
    * ready variables now include the outputs of those ops, which need not be
    * waiting. */
  ghost predicate Ran(nodes: map<NodeId, Node>, q: Queues, topo: seq<NodeId>, done: set<NodeId>)
  {
    done == Members(topo) && done <= OpIds(nodes) && NoDuplicates(topo) &&
    Counting(nodes, q.pendingOps, q.readyOps, done) && q.readyOps == {} &&
    q.pendingVars <= VarIds(nodes) &&
    (forall v :: v in q.readyVars ==> v in nodes && Made(nodes, done, v)) &&
    (forall v :: v in VarIds(nodes) && v !in q.pendingVars ==> Made(nodes, done, v)) &&
    (forall v :: v in q.pendingVars && Made(nodes, done, v) ==> v in q.readyVars)
  }

  lemma InitScheduled(nodes: map<NodeId, Node>)
    ensures Scheduled(nodes, InitQueuesOf(nodes, nodes.Keys), [], {})
  {
    var q := InitQueuesOf(nodes, nodes.Keys);
    assert OutputsOf(nodes, {}) == {};
    assert q.pendingVars == VarIds(nodes);
  }

  /** Running the ready ops (run_all_ops) as the block `block`. */
  lemma RunStep(nodes: map<NodeId, Node>, q: Queues, topo: seq<NodeId>, done: set<NodeId>, block: seq<NodeId>)
    requires Closed(nodes) && Scheduled(nodes, q, topo, done)
    requires Members(block) == q.readyOps && NoDuplicates(block)
    ensures Ran(nodes, q.(readyVars := q.readyVars + OutputsOf(nodes, q.readyOps), readyOps := {}), block + topo, done + q.readyOps)
  {
    RoundStep(nodes, done, q.readyOps, topo, block);
  }

  /** A round with ops to run shrinks the ops still to run; one without
    * makes no new variable ready. */
  lemma RunMeasure(nodes: map<NodeId, Node>, q: Queues, topo: seq<NodeId>, done: set<NodeId>)
    requires Scheduled(nodes, q, topo, done)
    ensures q.readyOps != {} ==> |OpIds(nodes) - (done + q.readyOps)| < |OpIds(nodes) - done|
    ensures q.readyOps == {} ==> OutputsOf(nodes, q.readyOps) == {}
  {
    if q.readyOps != {} {
      var x :| x in q.readyOps;
      MissingCard(OpIds(nodes) - (done + q.readyOps), OpIds(nodes) - done, x);
    }
  }

  /** Line 352: a round that makes no variable ready leaves a waiting variable unmade. */
  lemma StuckStep(nodes: map<NodeId, Node>, q: Queues, topo: seq<NodeId>, done: set<NodeId>)
    requires Ran(nodes, q, topo, done) && q.readyVars == {} && q.pendingVars != {}
    ensures !AllMade(nodes, done)
  {
    var v :| v in q.pendingVars;
    assert v in VarIds(nodes);
  }

  /** Lines 355-362: the ready variables stop waiting. */
  lemma ReleaseStep(nodes: map<NodeId, Node>, q: Queues, topo: seq<NodeId>, done: set<NodeId>,
                    pendingOps: map<NodeId, int>, pendingVars: set<NodeId>, readyOps: set<NodeId>)
    requires Ran(nodes, q, topo, done) && Counting(nodes, pendingOps, readyOps, done)
    requires pendingVars == q.pendingVars - q.readyVars
    ensures Scheduled(nodes, Queues(pendingOps, pendingVars, {}, readyOps), topo, done)
  {
  }

  lemma FinalStep(nodes: map<NodeId, Node>, q: Queues, topo: seq<NodeId>, done: set<NodeId>)
    requires Scheduled(nodes, q, topo, done) && q.pendingVars == {}
    ensures AllMade(nodes, done)
  {
  }

  lemma ScheduledFacts(nodes: map<NodeId, Node>, q: Queues, topo: seq<NodeId>, done: set<NodeId>)
    requires Scheduled(nodes, q, topo, done) || Ran(nodes, q, topo, done)
    ensures forall k :: k in topo ==> k in OpIds(nodes)
    ensures NoDuplicates(topo) && done == Members(topo)
  {
  }

  /** A sequence without duplicates holds each element once. */
  lemma {:induction false} NoDupCount(s: seq<NodeId>, x: NodeId)
    requires NoDuplicates(s)
    ensures multiset(s)[x] <= 1
  {
    if s != [] {
      var t := s[..|s| - 1];
      assert s == t + [s[|s| - 1]];
      assert forall i :: 0 <= i < |t| ==> t[i] == s[i];
      NoDupCount(t, x);
      assert s[|s| - 1] !in t;
    }
  }

  /** A set of one element that holds `x` is `{x}`. */
  lemma SingletonOf(s: set<NodeId>, x: NodeId)
    requires x in s && |s| == 1
    ensures s == {x}
  {
    assert s == (s - {x}) + {x};
    assert |s - {x}| == 0;
  }

  /** Lines 357-360 in a linked graph: releasing a variable takes at least one
    * off the count of every op that reads it, so no waiting op counts more
    * than its pending inputs, and one whose count does not reach 0 still
    * waits. */
  lemma WaitingRelease(nodes: map<NodeId, Node>, pendingOps: map<NodeId, int>, readyOps: set<NodeId>,
                       done: set<NodeId>, pendingVars: set<NodeId>, v: NodeId)
    requires Linked(nodes) && v in nodes && Waiting(nodes, pendingOps, readyOps, done, pendingVars)
    ensures Waiting(nodes, Decremented(pendingOps, readyOps, nodes[v].outputs).0,
                    Decremented(pendingOps, readyOps, nodes[v].outputs).1, done, pendingVars - {v})
  {
    var outs := nodes[v].outputs;
    var d := Decremented(pendingOps, readyOps, outs);
    DecrementedCounts(pendingOps, readyOps, outs);
    DecrementedReady(pendingOps, readyOps, outs);
    forall o | o in OpIds(nodes) && o !in d.1 && o !in done
      ensures nodes[o].inputs != [] && 0 < Deps(d.0, o) <= |Members(nodes[o].inputs) * (pendingVars - {v})|
    {
      var m := Members(nodes[o].inputs);
      if v in m && v in pendingVars {
        assert o in outs;
        assert m * pendingVars == (m * (pendingVars - {v})) + {v};
      } else {
        assert m * (pendingVars - {v}) == m * pendingVars;
      }
    }
  }

  /** Dropping `v` from the pending variables lowers an op's pending inputs
    * by one exactly when it reads `v`. */
  lemma CountAfter(m: set<NodeId>, pendingVars: set<NodeId>, v: NodeId)
    requires v in pendingVars
    ensures |m * (pendingVars - {v})| == |m * pendingVars| - (if v in m then 1 else 0)
  {
    if v in m {
      assert m * pendingVars == (m * (pendingVars - {v})) + {v};
    } else {
      assert m * (pendingVars - {v}) == m * pendingVars;
    }
  }

  /** Lines 357-360 in an SSA graph: releasing a pending variable takes
    * exactly one off the count of each of its readers and nothing off any
    * other op. */
  lemma ExactCounts(nodes: map<NodeId, Node>, pendingOps: map<NodeId, int>, readyOps: set<NodeId>,
                    done: set<NodeId>, pendingVars: set<NodeId>, v: NodeId)
    requires Wired(nodes) && v in pendingVars && v in VarIds(nodes)
    requires WaitingExactly(nodes, pendingOps, readyOps, done, pendingVars)
    ensures WaitingExactly(nodes, Decremented(pendingOps, readyOps, nodes[v].outputs).0,
                           Decremented(pendingOps, readyOps, nodes[v].outputs).1, done, pendingVars - {v})
  {
    var outs := nodes[v].outputs;
    var d := Decremented(pendingOps, readyOps, outs);
    DecrementedCounts(pendingOps, readyOps, outs);
    DecrementedReady(pendingOps, readyOps, outs);
    forall o | o in OpIds(nodes) && o !in d.1 && o !in done
      ensures Deps(d.0, o) == |Members(nodes[o].inputs) * (pendingVars - {v})|
    {
      var m := Members(nodes[o].inputs);
      NoDupCount(outs, o);
      assert o in outs <==> v in m;
      CountAfter(m, pendingVars, v);
    }
  }

  /** Lines 357-360 in an SSA graph: an op that releasing a pending variable
    * makes ready has no input left pending. */
  lemma ExactFed(nodes: map<NodeId, Node>, pendingOps: map<NodeId, int>, readyOps: set<NodeId>,
                 done: set<NodeId>, pendingVars: set<NodeId>, v: NodeId)
    requires Wired(nodes) && v in pendingVars && v in VarIds(nodes)
    requires WaitingExactly(nodes, pendingOps, readyOps, done, pendingVars) && Fed(nodes, readyOps, done, pendingVars)
    ensures Fed(nodes, Decremented(pendingOps, readyOps, nodes[v].outputs).1, done, pendingVars - {v})
  {
    var outs := nodes[v].outputs;
    var d := Decremented(pendingOps, readyOps, outs);
    DecrementedReady(pendingOps, readyOps, outs);
    forall o, w | o in OpIds(nodes) && (o in d.1 || o in done) && w in nodes[o].inputs
      ensures w !in pendingVars - {v}
    {
      if o !in readyOps && o !in done {
        var m := Members(nodes[o].inputs);
        NoDupCount(outs, o);
        assert o in outs && Deps(pendingOps, o) == 1;
        assert v in m * pendingVars;
        SingletonOf(m * pendingVars, v);
        assert w in m;
      }
    }
  }

  /** Lines 357-360 in an SSA graph: releasing a pending variable keeps the
    * counts exact and the ready ops fed. */
  lemma ExactRelease(nodes: map<NodeId, Node>, pendingOps: map<NodeId, int>, readyOps: set<NodeId>,
                     done: set<NodeId>, pendingVars: set<NodeId>, v: NodeId)
    requires Wired(nodes) && v in pendingVars && pendingVars <= VarIds(nodes)
    requires Waiting(nodes, pendingOps, readyOps, done, pendingVars)
    requires WaitingExactly(nodes, pendingOps, readyOps, done, pendingVars) && Fed(nodes, readyOps, done, pendingVars)
    ensures WaitingExactly(nodes, Decremented(pendingOps, readyOps, nodes[v].outputs).0,
                           Decremented(pendingOps, readyOps, nodes[v].outputs).1, done, pendingVars - {v})
    ensures Fed(nodes, Decremented(pendingOps, readyOps, nodes[v].outputs).1, done, pendingVars - {v})
  {
    ExactCounts(nodes, pendingOps, readyOps, done, pendingVars, v);
    ExactFed(nodes, pendingOps, readyOps, done, pendingVars, v);
  }

  /** Releasing one variable keeps the counting facts. */
  lemma ReleaseTracked(nodes: map<NodeId, Node>, pendingOps: map<NodeId, int>, readyOps: set<NodeId>,
                       done: set<NodeId>, pendingVars: set<NodeId>, v: NodeId)
    requires v in nodes && Tracked(nodes, pendingOps, readyOps, done, pendingVars)
    requires Wired(nodes) ==> v in pendingVars && pendingVars <= VarIds(nodes)
    ensures Tracked(nodes, Decremented(pendingOps, readyOps, nodes[v].outputs).0,
                    Decremented(pendingOps, readyOps, nodes[v].outputs).1, done, pendingVars - {v})
  {
    if Linked(nodes) {
      WaitingRelease(nodes, pendingOps, readyOps, done, pendingVars, v);
    }
    if Wired(nodes) {
      ExactRelease(nodes, pendingOps, readyOps, done, pendingVars, v);
    }
  }

  /** Lines 330-336: an op without inputs is ready, and every other op waits
    * for all its distinct inputs, each of them pending. */
  lemma InitTracked(nodes: map<NodeId, Node>)
    ensures Tracked(nodes, InitQueuesOf(nodes, nodes.Keys).pendingOps, InitQueuesOf(nodes, nodes.Keys).readyOps,
                    {}, InitQueuesOf(nodes, nodes.Keys).pendingVars)
  {
    var q := InitQueuesOf(nodes, nodes.Keys);
    assert q.pendingVars == VarIds(nodes);
    assert forall o :: o in q.readyOps ==> nodes[o].inputs == [];
    assert forall o :: o in OpIds(nodes) && o !in q.readyOps ==>
      nodes[o].inputs != [] && Deps(q.pendingOps, o) == |Members(nodes[o].inputs)|;
    if Linked(nodes) {
      forall o | o in OpIds(nodes) && o !in q.readyOps
        ensures nodes[o].inputs != [] && 0 < Deps(q.pendingOps, o) == |Members(nodes[o].inputs) * q.pendingVars|
      {
        assert Members(nodes[o].inputs) * q.pendingVars == Members(nodes[o].inputs);
        assert nodes[o].inputs[0] in Members(nodes[o].inputs);
      }
    }
  }

  /** In an SSA graph an op that has not run has not made its outputs. */
  lemma NotMadeBeforeRun(nodes: map<NodeId, Node>, done: set<NodeId>, b: NodeId, v: NodeId)
    requires Wired(nodes) && b in OpIds(nodes) && b !in done && done <= OpIds(nodes) && v in nodes[b].outputs
    ensures v in nodes && !Made(nodes, done, v)
  {
  }

  /** So the outputs of the ready ops are still pending. */
  lemma OutputsWaiting(nodes: map<NodeId, Node>, q: Queues, topo: seq<NodeId>, done: set<NodeId>)
    requires Wired(nodes) && Scheduled(nodes, q, topo, done)
    ensures OutputsOf(nodes, q.readyOps) <= q.pendingVars
  {
    forall v | v in OutputsOf(nodes, q.readyOps)
      ensures v in q.pendingVars
    {
      var b :| b in q.readyOps && b in nodes && v in nodes[b].outputs;
      NotMadeBeforeRun(nodes, done, b, v);
    }
  }

  /** Lines 338-347 in an SSA graph: a ready op reads nothing a ready op
    * outputs, nor does an op that has run, so the block goes in front of
    * the order without breaking its dependency order. */
  lemma RanOrdered(nodes: map<NodeId, Node>, q: Queues, topo: seq<NodeId>, done: set<NodeId>, block: seq<NodeId>)
    requires Wired(nodes) && Scheduled(nodes, q, topo, done)
    requires Fed(nodes, q.readyOps, done, q.pendingVars) && DepOrdered(nodes, topo)
    requires Members(block) == q.readyOps
    ensures DepOrdered(nodes, block + topo)
  {
    OutputsWaiting(nodes, q, topo, done);
    var s := block + topo;
    forall i, j, v | 0 <= i <= j < |s| && s[i] in nodes && s[j] in nodes && v in nodes[s[i]].outputs
      ensures v !in nodes[s[j]].inputs
    {
      if i < |block| {
        assert s[i] in Members(block);
        assert v in OutputsOf(nodes, q.readyOps);
        if j < |block| {
          assert s[j] in Members(block);
        } else {
          assert s[j] == topo[j - |block|];
          assert s[j] in Members(topo);
        }
      } else {
        assert s[i] == topo[i - |block|] && s[j] == topo[j - |block|];
      }
    }
  }

  /** Line 352 in a linked graph: when a round leaves no variable ready, every
    * op that has not run still counts a pending input, which nothing that has
    * run makes. */
  lemma StuckBlocked(nodes: map<NodeId, Node>, q: Queues, topo: seq<NodeId>, done: set<NodeId>)
    requires Linked(nodes) && Ran(nodes, q, topo, done) && q.readyVars == {}
    requires Waiting(nodes, q.pendingOps, {}, done, q.pendingVars)
    ensures Blocked(nodes, done)
  {
    forall o | o in OpIds(nodes) && o !in done
      ensures exists v :: v in nodes[o].inputs && v in nodes && !Made(nodes, done, v)
    {
      var m := Members(nodes[o].inputs);
      assert m * q.pendingVars != {};
      var v :| v in m * q.pendingVars;
      assert v in nodes[o].inputs && v in VarIds(nodes);
    }
  }

  /** Running more ops keeps a variable made. */
  lemma MadeGrows(nodes: map<NodeId, Node>, small: set<NodeId>, big: set<NodeId>, v: NodeId)
    requires small <= big && v in nodes
    ensures Made(nodes, small, v) ==> Made(nodes, big, v)
  {
    if v in OutputsOf(nodes, small) {
      var op :| op in small && op in nodes && v in nodes[op].outputs;
      assert v in OutputsOf(nodes, big);
    }
  }

  /** An order that feeds its ops cannot get past a blocked set of ops. */
  lemma {:induction false} PrefixDone(nodes: map<NodeId, Node>, s: seq<NodeId>, done: set<NodeId>, n: nat)
    requires Feeds(nodes, s) && Blocked(nodes, done) && n <= |s|
    ensures Members(s[..n]) <= done
  {
    if n > 0 {
      PrefixDone(nodes, s, done, n - 1);
      var o := s[n - 1];
      forall v | v in nodes[o].inputs
        ensures v in nodes && Made(nodes, done, v)
      {
        MadeGrows(nodes, Members(s[..n - 1]), done, v);
      }
      assert s[..n] == s[..n - 1] + [o];
      MembersConcat(s[..n - 1], [o]);
    }
  }

  /** A blocked set of ops that leaves a variable unmade means no order of
    * the ops makes every variable. */
  lemma NotSortable(nodes: map<NodeId, Node>, done: set<NodeId>)
    requires Blocked(nodes, done) && !AllMade(nodes, done)
    ensures !Sortable(nodes)
  {
    var w :| w in VarIds(nodes) && !Made(nodes, done, w);
    forall s | Feeds(nodes, s)
      ensures !AllMade(nodes, Members(s))
    {
      PrefixDone(nodes, s, done, |s|);
      assert s[..|s|] == s;
      MadeGrows(nodes, Members(s), done, w);
    }
  }

  /** Reading a sequence from the back keeps its elements. */
  lemma ReversedMembers(s: seq<NodeId>)
    ensures Members(Reversed(s)) == Members(s)
  {
    var r := Reversed(s);
    forall x | x in s
      ensures x in r
    {
      var i :| 0 <= i < |s| && s[i] == x;
      ReversedAt(s, |s| - 1 - i);
    }
    forall x | x in r
      ensures x in s
    {
      var i :| 0 <= i < |r| && r[i] == x;
      ReversedAt(s, i);
    }
  }

  /** A variable made by some op of `topo` and by none of its first `j + 1`
    * ops is made by the ops after them. */
  lemma MadeBehind(nodes: map<NodeId, Node>, topo: seq<NodeId>, j: nat, v: NodeId)
    requires j < |topo| && v in nodes && Made(nodes, Members(topo), v)
    requires forall i :: 0 <= i <= j && topo[i] in nodes ==> v !in nodes[topo[i]].outputs
    ensures Made(nodes, Members(topo[j + 1..]), v)
  {
    if nodes[v].inputs != [] {
      var g :| g in Members(topo) && g in nodes && v in nodes[g].outputs;
      var i :| 0 <= i < |topo| && topo[i] == g;
      assert topo[j + 1..][i - j - 1] == g;
      assert g in Members(topo[j + 1..]);
    }
  }

  /** The first `k` ops of a reversed order `r` are the last `k` ops of `s`. */
  lemma ReversedPrefix(s: seq<NodeId>, r: seq<NodeId>, k: nat)
    requires |r| == |s| && k <= |s|
    requires forall i :: 0 <= i < |s| ==> r[i] == s[|s| - 1 - i]
    ensures Members(r[..k]) == Members(s[|s| - k..])
  {
    var n := |s|;
    forall x | x in Members(r[..k])
      ensures x in Members(s[n - k..])
    {
      var p :| 0 <= p < k && r[..k][p] == x;
      assert r[p] == s[n - 1 - p];
      assert s[n - k..][k - 1 - p] == s[n - 1 - p];
    }
    forall x | x in Members(s[n - k..])
      ensures x in Members(r[..k])
    {
      var p :| 0 <= p < k && s[n - k..][p] == x;
      assert r[k - 1 - p] == s[n - k + p];
      assert r[..k][k - 1 - p] == r[k - 1 - p];
    }
  }

  /** In a dependency-ordered order that makes every variable, the op at
    * position `j` reads only variables made by the ops after it. */
  lemma FedFromBack(nodes: map<NodeId, Node>, topo: seq<NodeId>, j: nat)
    requires Linked(nodes) && Members(topo) <= OpIds(nodes) && AllMade(nodes, Members(topo)) && DepOrdered(nodes, topo)
    requires j < |topo|
    ensures topo[j] in OpIds(nodes)
    ensures forall v :: v in nodes[topo[j]].inputs ==> v in nodes && Made(nodes, Members(topo[j + 1..]), v)
  {
    var o := topo[j];
    assert o in Members(topo);
    forall v | v in nodes[o].inputs
      ensures v in nodes && Made(nodes, Members(topo[j + 1..]), v)
    {
      assert v in VarIds(nodes);
      MadeBehind(nodes, topo, j, v);
    }
  }

  /** An order `r` that is `topo` read from the back runs each op after the
    * ops that make its inputs, when `topo` is dependency-ordered and makes
    * every variable. */
  lemma ReversedFeeds(nodes: map<NodeId, Node>, topo: seq<NodeId>, r: seq<NodeId>)
    requires Linked(nodes) && Members(topo) <= OpIds(nodes) && AllMade(nodes, Members(topo)) && DepOrdered(nodes, topo)
    requires |r| == |topo| && forall i :: 0 <= i < |topo| ==> r[i] == topo[|topo| - 1 - i]
    ensures Feeds(nodes, r)
  {
    forall k | 0 <= k < |r|
      ensures r[k] in OpIds(nodes)
      ensures forall v :: v in nodes[r[k]].inputs ==> v in nodes && Made(nodes, Members(r[..k]), v)
    {
      ReversedPrefix(topo, r, k);
      FedFromBack(nodes, topo, |topo| - 1 - k);
    }
  }

  /** Line 365 in an SSA graph: once nothing is pending, the order read from
    * the back runs each op after the ops that make its inputs. */
  lemma FinalFeeds(nodes: map<NodeId, Node>, q: Queues, topo: seq<NodeId>, done: set<NodeId>)
    requires Wired(nodes) && Scheduled(nodes, q, topo, done) && q.pendingVars == {} && DepOrdered(nodes, topo)
    ensures Feeds(nodes, Reversed(topo)) && Members(Reversed(topo)) == done
    ensures Sortable(nodes)
  {
    FinalStep(nodes, q, topo, done);
    ScheduledFacts(nodes, q, topo, done);
    var r := Reversed(topo);
    forall i | 0 <= i < |topo|
      ensures r[i] == topo[|topo| - 1 - i]
    {
      ReversedAt(topo, i);
    }
    ReversedFeeds(nodes, topo, r);
    ReversedMembers(topo);
  }

  /** Running the ready ops moves them from the ready set to the ops that
    * have run; the counting facts carry over. */
  lemma TrackedRun(nodes: map<NodeId, Node>, pendingOps: map<NodeId, int>, readyOps: set<NodeId>,
                   done: set<NodeId>, pendingVars: set<NodeId>)
    requires Tracked(nodes, pendingOps, readyOps, done, pendingVars)
    ensures Tracked(nodes, pendingOps, {}, done + readyOps, pendingVars)
  {
  }

  /** Lines 350-351: the ready ops run as one block, put in front of the
    * order, and their outputs join the ready variables. */
  method RunReady(nodes: map<NodeId, Node>, q: Queues, topo: seq<NodeId>, ghost done: set<NodeId>)
    returns (q': Queues, topo': seq<NodeId>, ghost done': set<NodeId>)
    requires Closed(nodes) && Scheduled(nodes, q, topo, done)
    requires Tracked(nodes, q.pendingOps, q.readyOps, done, q.pendingVars)
    requires Wired(nodes) ==> DepOrdered(nodes, topo)
    ensures q' == q.(readyVars := q.readyVars + OutputsOf(nodes, q.readyOps), readyOps := {})
    ensures done' == done + q.readyOps && Ran(nodes, q', topo', done')
    ensures Tracked(nodes, q'.pendingOps, q'.readyOps, done', q'.pendingVars)
    ensures Wired(nodes) ==> DepOrdered(nodes, topo') && q'.readyVars <= q'.pendingVars
    ensures q.readyOps != {} ==> |OpIds(nodes) - done'| < |OpIds(nodes) - done|
    ensures q.readyOps == {} ==> q'.readyVars == q.readyVars && done' == done
  {
    var block, readyVars := RunAll(nodes, q.readyOps, q.readyVars);
    RunStep(nodes, q, topo, done, block);
    RunMeasure(nodes, q, topo, done);
    if Wired(nodes) {
      RanOrdered(nodes, q, topo, done, block);
      OutputsWaiting(nodes, q, topo, done);
    }
    TrackedRun(nodes, q.pendingOps, q.readyOps, done, q.pendingVars);
    topo' := block + topo;
    done' := done + q.readyOps;
    q' := q.(readyVars := readyVars, readyOps := {});
  }

  /** One round of lines 350-364: the ready ops run, and unless that leaves
    * no variable ready (`stuck`), the ready variables stop waiting. */
  method Round(nodes: map<NodeId, Node>, q: Queues, topo: seq<NodeId>, ghost done: set<NodeId>)
    returns (stuck: bool, q': Queues, topo': seq<NodeId>, ghost done': set<NodeId>)
    requires Closed(nodes) && Scheduled(nodes, q, topo, done)
    requires Tracked(nodes, q.pendingOps, q.readyOps, done, q.pendingVars)
    requires Wired(nodes) ==> DepOrdered(nodes, topo)
    ensures stuck ==> q.pendingVars != {} ==> !AllMade(nodes, done')
    ensures stuck ==> Linked(nodes) ==> Blocked(nodes, done')
    ensures stuck ==> forall k :: k in topo' ==> k in OpIds(nodes)
    ensures stuck ==> NoDuplicates(topo') && done' == Members(topo')
    ensures !stuck ==> Scheduled(nodes, q', topo', done')
    ensures !stuck ==> Tracked(nodes, q'.pendingOps, q'.readyOps, done', q'.pendingVars)
    ensures Wired(nodes) ==> DepOrdered(nodes, topo')
    ensures !stuck ==> |OpIds(nodes) - done'| < |OpIds(nodes) - done| ||
                       (done' == done && |q'.pendingVars| < |q.pendingVars|)
  {
    q', topo', done' := RunReady(nodes, q, topo, done);
    if q'.readyVars == {} {
      ScheduledFacts(nodes, q', topo', done');
      if q.pendingVars != {} {
        StuckStep(nodes, q', topo', done');
      }
      if Linked(nodes) {
        StuckBlocked(nodes, q', topo', done');
      }
      return true, q', topo', done';
    }
    var pendingVars, pendingOps, readyOps := ReleaseReady(nodes, q'.readyVars, q'.pendingVars, q'.pendingOps, q'.readyOps, done');
    ReleaseStep(nodes, q', topo', done', pendingOps, pendingVars, readyOps);
    if q.readyOps == {} {
      var x :| x in q'.readyVars;
      assert x in q.readyVars && x !in pendingVars;
      MissingCard(pendingVars, q.pendingVars, x);
    }
    stuck := false;
    q' := Queues(pendingOps, pendingVars, {}, readyOps);
  }

  /** Lines 349-365 from the queues lines 330-336 set up: the ops run in
    * rounds, each round's block going in front of the order built so far;
    * the order is complete when every variable is ready, and GetTopoOrder
    * fails when a round makes no variable ready. */
  method TopoSort(nodes: map<NodeId, Node>) returns (ok: bool, topo: seq<NodeId>)
    requires Closed(nodes)
    ensures forall k :: k in topo ==> k in OpIds(nodes)
    ensures NoDuplicates(topo)
    ensures ok <==> AllMade(nodes, Members(topo))
    ensures !ok && Linked(nodes) ==> Blocked(nodes, Members(topo)) && !Sortable(nodes)
    ensures Wired(nodes) ==> DepOrdered(nodes, topo)
    ensures ok && Wired(nodes) ==> Feeds(nodes, Reversed(topo))
    ensures Wired(nodes) ==> (ok <==> Sortable(nodes))
  {
    var q := InitQueues(nodes);
    topo := [];
    ghost var done: set<NodeId> := {};
    InitScheduled(nodes);
    InitTracked(nodes);
    while q.pendingVars != {}
      invariant Scheduled(nodes, q, topo, done)
      invariant Tracked(nodes, q.pendingOps, q.readyOps, done, q.pendingVars)
      invariant Wired(nodes) ==> DepOrdered(nodes, topo)
      decreases |OpIds(nodes) - done|, |q.pendingVars|
    {
      var stuck;
      stuck, q, topo, done := Round(nodes, q, topo, done);
      if stuck {
        if Linked(nodes) {
          NotSortable(nodes, done);
        }
        return false, topo;
      }
    }
    ScheduledFacts(nodes, q, topo, done);
    FinalStep(nodes, q, topo, done);
    if Wired(nodes) {
      FinalFeeds(nodes, q, topo, done);
    }
    ok := true;
  }

  /** One round's bookkeeping: the block holds ops that have not run. */
  lemma RoundStep(nodes: map<NodeId, Node>, done: set<NodeId>, readyOps: set<NodeId>, topo: seq<NodeId>, block: seq<NodeId>)
    requires done == Members(topo) && NoDuplicates(topo) && NoDuplicates(block) && Members(block) == readyOps
    requires readyOps !! done
    ensures NoDuplicates(block + topo) && Members(block + topo) == done + readyOps
    ensures OutputsOf(nodes, done + readyOps) == OutputsOf(nodes, done) + OutputsOf(nodes, readyOps)
  {
    MembersConcat(block, topo);
    forall i, j | 0 <= i < j < |block + topo|
      ensures (block + topo)[i] != (block + topo)[j]
    {
      if j >= |block| && i < |block| {
        assert (block + topo)[i] in Members(block);
        assert (block + topo)[j] in Members(topo);
      }
    }
  }

  /** GetTopoOrder as written (lines 310-366): the order is built in a copy
    * of `*topo_order` (line 310) and never stored back, so the caller's
    * vector keeps what it held; `built` is the order the copy received. */
  method GetTopoOrder(nodes: map<NodeId, Node>, topoOrder: seq<NodeId>)
    returns (ok: bool, topoOrder': seq<NodeId>, built: seq<NodeId>)
    requires Closed(nodes)
    ensures topoOrder' == topoOrder
    ensures ok <==> AllMade(nodes, Members(built))
    ensures forall k :: k in built ==> k in OpIds(nodes)
    ensures !ok && Linked(nodes) ==> Blocked(nodes, Members(built)) && !Sortable(nodes)
    ensures Wired(nodes) ==> DepOrdered(nodes, built)
    ensures ok && Wired(nodes) ==> Feeds(nodes, Reversed(built))
    ensures Wired(nodes) ==> (ok <==> Sortable(nodes))
  {
    var topo;
    ok, topo := TopoSort(nodes);
    built := topo;
    topoOrder' := topoOrder;
  }

  /** GetTopoOrder as evidently intended: the rounds' blocks go in front of
    * the caller's vector. */
  method GetTopoOrderFilled(nodes: map<NodeId, Node>, topoOrder: seq<NodeId>)
    returns (ok: bool, topoOrder': seq<NodeId>, built: seq<NodeId>)
    requires Closed(nodes)
    ensures topoOrder' == built + topoOrder
    ensures ok <==> AllMade(nodes, Members(built))
    ensures forall k :: k in built ==> k in OpIds(nodes)
    ensures NoDuplicates(built)
    ensures !ok && Linked(nodes) ==> Blocked(nodes, Members(built)) && !Sortable(nodes)
    ensures Wired(nodes) ==> DepOrdered(nodes, built)
    ensures ok && Wired(nodes) ==> Feeds(nodes, Reversed(built))
    ensures Wired(nodes) ==> (ok <==> Sortable(nodes))
  {
    var topo;
    ok, topo := TopoSort(nodes);
    built := topo;
    topoOrder' := topo + topoOrder;
  }

  /** SetupFusion's checks give FuseOperators what it reads. */
  lemma CheckedInputs(nodes: map<NodeId, Node>, descs: map<NodeId, OpDesc>, cur: NodeId, ins: seq<NodeId>)
    requires cur in descs && Described(nodes, descs) && InputsChecked(nodes, ins)
    ensures Generated(nodes, ins) && AllVars(nodes, ins)
    ensures FusibleGenerators(nodes, descs, cur, ins) <= nodes.Keys
  {
  }

  /** What FuseInOrder keeps, against the graph `nodes0` it started from:
    * the fused ops `created` are new ops, each producing exactly the
    * outputs of the op `into` it stands for; with the check of lines 67-68
    * each is also left without edges; the old ops are untouched and no
    * node changes kind. */
  ghost predicate Fusing(nodes0: map<NodeId, Node>, nodes: map<NodeId, Node>, created: set<NodeId>,
                         into: map<NodeId, NodeId>, checkEdges: bool)
  {
    nodes.Keys == nodes0.Keys + created && created !! nodes0.Keys && into.Keys == created &&
    (forall c :: c in created ==>
       IsOp(nodes[c]) && into[c] in nodes0 && IsOp(nodes0[into[c]]) && nodes[c].outputs == nodes0[into[c]].outputs) &&
    (checkEdges ==> forall c :: c in created ==> nodes[c].inputs == [] && nodes[c].outputs == []) &&
    (forall k :: k in nodes0 && IsOp(nodes0[k]) ==> nodes[k] == nodes0[k]) &&
    (forall k :: k in nodes0 ==> nodes[k].nodeType == nodes0[k].nodeType)
  }

  /** Lines 59-65: the ops fused away and the op fused into now stand for
    * the fused op. */
  function Redirect(internal: map<NodeId, NodeId>, tobeFused: set<NodeId>, cur: NodeId, fused: NodeId): (r: map<NodeId, NodeId>)
    ensures r.Keys == internal.Keys + tobeFused + {cur}
    ensures forall k :: k in r ==> r[k] == fused || (k in internal && r[k] == internal[k])
  {
    (internal + map sub | sub in tobeFused :: fused)[cur := fused]
  }

  lemma FusingStep(nodes0: map<NodeId, Node>, before: map<NodeId, Node>, after: map<NodeId, Node>, created: set<NodeId>,
                   into: map<NodeId, NodeId>, cur: NodeId, fused: NodeId)
    requires Fusing(nodes0, before, created, into, false)
    requires fused !in before && after.Keys == before.Keys + {fused}
    requires cur in nodes0 && IsOp(before[cur]) && IsOp(after[fused]) && after[fused].outputs == before[cur].outputs
    requires forall k :: k in before && IsOp(before[k]) ==> after[k] == before[k]
    requires forall k :: k in before ==> after[k].nodeType == before[k].nodeType
    ensures Fusing(nodes0, after, created + {fused}, into[fused := cur], false)
  {
    assert IsOp(nodes0[cur]) by { assert before[cur].nodeType == nodes0[cur].nodeType; }
    assert before[cur] == nodes0[cur];
  }

  /** After a fusion every op stands for an op fused so far. */
  lemma RedirectCreated(internal: map<NodeId, NodeId>, tobeFused: set<NodeId>, cur: NodeId, fused: NodeId, created: set<NodeId>)
    requires forall k :: k in internal ==> internal[k] in created
    ensures forall k :: k in Redirect(internal, tobeFused, cur, fused) ==> Redirect(internal, tobeFused, cur, fused)[k] in created + {fused}
  {
  }

  /** One fusion of FuseInOrder (lines 54-55): FuseOperators on `cur`, and
    * the fused op added to the record of fusions; the fused ops made
    * before are left as they were. */
  method FuseTracked(g: Graph, cur: NodeId, tobeFused: set<NodeId>, removed: set<NodeId>, forwardRole: int -> bool,
                     ghost nodes0: map<NodeId, Node>, ghost created: set<NodeId>, ghost into: map<NodeId, NodeId>)
    returns (fused: Result<NodeId>, removed': set<NodeId>)
    requires g.Valid() && Closed(g.nodes) && Fusing(nodes0, g.nodes, created, into, false)
    requires cur in nodes0 && cur in g.nodes && IsOp(g.nodes[cur]) && tobeFused <= g.nodes.Keys
    requires Generated(g.nodes, g.nodes[cur].inputs) && AllVars(g.nodes, g.nodes[cur].inputs)
    modifies g
    ensures g.Valid()
    ensures fused.Ok? ==>
      Closed(g.nodes) && fused.value !in old(g.nodes) &&
      Fusing(nodes0, g.nodes, created + {fused.value}, into[fused.value := cur], false)
    ensures fused.Ok? ==> forall c :: c in created ==> g.nodes[c] == old(g.nodes)[c]
  {
    ghost var before, beforeDescs := g.nodes, g.descs;
    var desc;
    fused, removed', desc := FuseOperators(g, cur, tobeFused, removed, forwardRole);
    if fused.Ok? {
      FusedIntoKinds(before, beforeDescs, cur, tobeFused, desc, fused.value, g.nodes, g.descs);
      FusingStep(nodes0, before, g.nodes, created, into, cur, fused.value);
    }
  }

  /** Lines 44-70: the ops are visited from the back of `order`; each that
    * needs fusion is fused with the ops SetupFusion chose, and the fused op
    * stands for all of them from then on. The result holds the fused ops,
    * and `into` maps each to the op it was fused into. `checkEdges` is the
    * enforce of lines 67-68 that the fused op has no edges: as written it
    * is on, and since the fused op takes over the outputs of the op fused
    * into, a success then means that no op with an output was fused. */
  method FuseInOrder(g: Graph, order: seq<NodeId>, forwardRole: int -> bool, checkEdges: bool)
    returns (r: Result<set<NodeId>>, removed: set<NodeId>, ghost into: map<NodeId, NodeId>)
    requires g.Valid() && Closed(g.nodes) && forall k :: k in order ==> k in g.nodes
    modifies g
    ensures g.Valid()
    ensures order == [] ==> r == Ok({}) && removed == {} && g.nodes == old(g.nodes) && g.descs == old(g.descs)
    ensures r.Ok? ==> Fusing(old(g.nodes), g.nodes, r.value, into, checkEdges)
    ensures r.Ok? && checkEdges ==> forall c :: c in r.value ==> old(g.nodes)[into[c]].outputs == []
  {
    var internal: map<NodeId, NodeId> := map[];
    var created: set<NodeId> := {};
    removed := {};
    into := map[];
    ghost var nodes0 := g.nodes;
    var j := |order|;
    while j > 0
      invariant 0 <= j <= |order|
      invariant g.Valid() && Closed(g.nodes) && Fusing(nodes0, g.nodes, created, into, false)
      invariant checkEdges ==> forall c :: c in created ==> g.nodes[c].inputs == [] && g.nodes[c].outputs == []
      invariant forall k :: k in internal ==> internal[k] in created
      invariant j == |order| ==> created == {} && removed == {} && g.nodes == nodes0 && g.descs == old(g.descs)
    {
      j := j - 1;
      var cur := order[j];
      var needed, tobeFused := SetupFusion(g.nodes, g.descs, cur, internal);
      if needed.Err? {
        return Err(needed.error), removed, into;
      }
      if needed.value {
        if cur in internal {
          return Err(FusedTwice), removed, into;
        }
        CheckedInputs(g.nodes, g.descs, cur, g.nodes[cur].inputs);
        var fused, removed' := FuseTracked(g, cur, tobeFused, removed, forwardRole, nodes0, created, into);
        if fused.Err? {
          return Err(fused.error), removed', into;
        }
        removed := removed' + tobeFused + {cur};
        if tobeFused * internal.Keys != {} || cur in tobeFused {
          return Err(FusedTwice), removed, into;
        }
        var internal' := Redirect(internal, tobeFused, cur, fused.value);
        RedirectCreated(internal, tobeFused, cur, fused.value, created);
        if checkEdges && (g.nodes[fused.value].inputs != [] || g.nodes[fused.value].outputs != []) {
          return Err(FusedOpHasEdges), removed, into;
        }
        internal := internal';
        created := created + {fused.value};
        into := into[fused.value := cur];
      }
    }
    r := Ok(created);
  }

  /** Lines 73-75: the nodes fused away leave the graph. */
  method ReleaseAll(g: Graph, removed: set<NodeId>)
    requires g.Valid()
    modifies g
    ensures g.Valid() && g.descs == old(g.descs) - removed
    ensures g.nodes == old(g.nodes) - removed
  {
    var rest := removed;
    while rest != {}
      invariant rest <= removed && g.Valid()
      invariant g.nodes == old(g.nodes) - (removed - rest) && g.descs == old(g.descs) - (removed - rest)
      decreases |rest|
    {
      var n :| n in rest;
      g.ReleaseNode(n);
      rest := rest - {n};
    }
  }

  /** OpFusionPass::ApplyImpl as written (lines 27-77). GetTopoOrder leaves
    * the order empty, so no op is visited and the graph comes back as it
    * went in; the pass only fails when GetTopoOrder does. */
  method ApplyImpl(g: Graph, forwardRole: int -> bool) returns (r: Result<set<NodeId>>, ghost built: seq<NodeId>)
    requires g.Valid() && Closed(g.nodes)
    modifies g
    ensures g.nodes == old(g.nodes) && g.descs == old(g.descs)
    ensures r.Ok? <==> AllMade(g.nodes, Members(built))
    ensures r.Ok? ==> r.value == {}
    ensures r.Err? && Linked(g.nodes) ==> Blocked(g.nodes, Members(built)) && !Sortable(g.nodes)
    ensures Wired(g.nodes) ==> (r.Ok? <==> Sortable(g.nodes))
  {
    var ok, order;
    ok, order, built := GetTopoOrder(g.nodes, []);
    if !ok {
      return Err(NoTopologicalOrder), built;
    }
    var removed;
    ghost var into;
    r, removed, into := FuseInOrder(g, order, forwardRole, true);
    ReleaseAll(g, removed);
  }

  /** ApplyImpl as evidently intended: GetTopoOrder fills the caller's
    * order, so the ops are visited producers first; the fused op keeps the
    * edges it takes over, without the enforce of lines 67-68 that no fusion
    * of an op with an output could pass; and what is fused away is
    * released. */
  method ApplyImplFilled(g: Graph, forwardRole: int -> bool)
    returns (r: Result<set<NodeId>>, removed: set<NodeId>, ghost order: seq<NodeId>, ghost into: map<NodeId, NodeId>)
    requires g.Valid() && Closed(g.nodes)
    modifies g
    ensures g.Valid()
    ensures !AllMade(old(g.nodes), Members(order)) ==> r.Err? && g.nodes == old(g.nodes)
    ensures r.Ok? ==> AllMade(old(g.nodes), Members(order)) && forall k :: k in order ==> k in OpIds(old(g.nodes))
    ensures r.Ok? ==> exists fused :: Fusing(old(g.nodes), fused, r.value, into, false) && g.nodes == fused - removed
    ensures !AllMade(old(g.nodes), Members(order)) && Linked(old(g.nodes)) ==> !Sortable(old(g.nodes))
    ensures Wired(old(g.nodes)) && !Sortable(old(g.nodes)) ==> r.Err? && g.nodes == old(g.nodes)
    ensures Wired(old(g.nodes)) ==> DepOrdered(old(g.nodes), order)
    ensures r.Ok? && Wired(old(g.nodes)) ==> Feeds(old(g.nodes), Reversed(order))
  {
    var ok, topoOrder;
    ok, topoOrder, order := GetTopoOrderFilled(g.nodes, []);
    assert topoOrder == order;
    removed := {};
    into := map[];
    if !ok {
      return Err(NoTopologicalOrder), removed, order, into;
    }
    r, removed, into := FuseInOrder(g, topoOrder, forwardRole, false);
    if r.Err? {
      return;
    }
    ghost var fused := g.nodes;
    ReleaseAll(g, removed);
  }
}

