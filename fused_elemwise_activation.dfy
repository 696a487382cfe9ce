/** fused_elemwise_activation_op.h: the gradient-op maker of the fused
  * element-wise + activation operator, and its forward and gradient kernels.
  * The header's ValidCheck, functor structs and RunFunctors/RunGradFunctors are
  * copies of those in math/functors.h and are modelled once, in Functors. */
module FusedElemwiseActivation {
  import opened Wrappers
  import opened VarNames
  import opened Functors

  /** The part of an OpDesc the gradient maker reads and writes: type,
    * parameter-to-argument maps and string attributes. */
  datatype OpDesc = OpDesc(
    opType: string,
    inputs: map<string, seq<string>>,
    outputs: map<string, seq<string>>,
    attrs: map<string, string>)

  /** The gradient variable names of a list of variable names. */
  function GradNames(names: seq<string>): (r: seq<string>)
    ensures |r| == |names|
    ensures forall i :: 0 <= i < |names| ==> r[i] == GradVarName(names[i])
  {
    if names == [] then [] else [GradVarName(names[0])] + GradNames(names[1..])
  }

  lemma GradVarNameIsInjective()
    ensures forall a, b :: GradVarName(a) == GradVarName(b) ==> a == b
  {
    forall a, b | GradVarName(a) == GradVarName(b)
      ensures a == b
    {
      GradVarNameInjective(a, b);
    }
  }

  /** The functor list of the gradient op: each half of the forward list gets "_grad". */
  function GradFunctorList(functors: string): string
  {
    var (f1, f2) := SplitFunctorList(functors);
    GradName(f1) + "," + GradName(f2)
  }

  /** True when `name` ends with the gradient suffix. */
  predicate IsGradName(name: string)
  {
    |name| >= |GradSuffix| && name[|name| - |GradSuffix|..] == GradSuffix
  }

  /** For every parameter p of `m`, the parameter GradVarName(p) holding the
    * gradients of p's arguments. */
  function GradKeyed(m: map<string, seq<string>>): (r: map<string, seq<string>>)
    ensures forall p :: p in m ==> GradVarName(p) in r && r[GradVarName(p)] == GradNames(m[p])
    ensures forall k :: k in r ==> IsGradName(k)
  {
    GradVarNameIsInjective();
    var r := map p | p in m :: GradVarName(p) := GradNames(m[p]);
    assert forall k :: k in r ==> IsGradName(k) by {
      forall k | k in r
        ensures IsGradName(k)
      {
        var p :| p in m && GradVarName(p) == k;
      }
    }
    r
  }

  /** FusedElemwiseActivationGradMaker::Apply. The forward inputs stay inputs
    * and their gradients become outputs; the forward outputs and their
    * gradients become inputs; all attributes are copied and functor_list is
    * rewritten. A missing functor_list attribute makes boost::get throw. */
  function GradMakerApply(fwd: OpDesc): (r: Result<OpDesc>)
  {
    if "functor_list" !in fwd.attrs then Err("functor_list is not set")
    else
      Ok(OpDesc(fwd.opType + "_grad",
                fwd.inputs + fwd.outputs + GradKeyed(fwd.outputs),
                GradKeyed(fwd.inputs),
                fwd.attrs["functor_list" := GradFunctorList(fwd.attrs["functor_list"])]))
  }

  /** True when no parameter name of the op is itself a gradient name, so no
    * parameter of the gradient op is written twice. */
  predicate NoGradParams(fwd: OpDesc)
  {
    (forall p :: p in fwd.inputs ==> !IsGradName(p)) &&
    (forall p :: p in fwd.outputs ==> !IsGradName(p))
  }

  /** The gradient op keeps reading every forward input and output under its own parameter. */
  lemma GradMakerKeepsForwardArgs(fwd: OpDesc)
    requires "functor_list" in fwd.attrs
    requires NoGradParams(fwd)
    requires fwd.inputs.Keys !! fwd.outputs.Keys
    ensures GradMakerApply(fwd).Ok?
    ensures var g := GradMakerApply(fwd).value;
      g.opType == fwd.opType + "_grad" &&
      (forall p :: p in fwd.inputs ==> p in g.inputs && g.inputs[p] == fwd.inputs[p]) &&
      (forall p :: p in fwd.outputs ==> p in g.inputs && g.inputs[p] == fwd.outputs[p])
  {
    var g := GradMakerApply(fwd).value;
    assert forall p :: p in fwd.inputs + fwd.outputs ==> p !in GradKeyed(fwd.outputs);
  }

  /** The gradient op writes the gradient of every forward input. */
  lemma GradMakerWritesInputGrads(fwd: OpDesc, p: string)
    requires "functor_list" in fwd.attrs && p in fwd.inputs
    ensures GradMakerApply(fwd).Ok?
    ensures var g := GradMakerApply(fwd).value;
      GradVarName(p) in g.outputs && g.outputs[GradVarName(p)] == GradNames(fwd.inputs[p])
  {
  }

  /** The gradient op reads the gradient of every forward output. */
  lemma GradMakerReadsOutputGrads(fwd: OpDesc, p: string)
    requires "functor_list" in fwd.attrs && p in fwd.outputs
    ensures GradMakerApply(fwd).Ok?
    ensures var g := GradMakerApply(fwd).value;
      GradVarName(p) in g.inputs && g.inputs[GradVarName(p)] == GradNames(fwd.outputs[p])
  {
  }

  /** The gradient list of a list ValidCheck accepts is one RunGradFunctors
    * implements: "f1,f2" becomes "f1_grad,f2_grad". */
  lemma GradFunctorListOfValidList(u: string)
    requires u in UnaryNames
    ensures GradFunctorList("elementwise_add" + "," + u) == GradName("elementwise_add") + "," + GradName(u)
    ensures GradFunctorList(u + "," + "elementwise_add") == GradName(u) + "," + GradName("elementwise_add")
    ensures GradFunctorList("elementwise_add" + "," + u) in GradLists
    ensures GradFunctorList(u + "," + "elementwise_add") in GradLists
  {
    SplitJoinedList("elementwise_add", u);
    SplitJoinedList(u, "elementwise_add");
  }

  /** FusedElemwiseActivationKernel::Compute on one element pair. */
  function ForwardKernel(attrs: map<string, string>, scale: real, x: real, y: real): (r: Result<real>)
    ensures r.Ok? <==> "functor_list" in attrs && ValidCheck(attrs["functor_list"]).Pass?
  {
    if "functor_list" !in attrs then Err("functor_list is not set")
    else
      RunFunctorsImplementsValidLists(attrs["functor_list"], scale, x, y);
      RunFunctors(attrs["functor_list"], scale, x, y)
  }

  /** FusedElemwiseActivationGradKernel::Compute on one element pair: (dX, dY). */
  function GradKernel(attrs: map<string, string>, scale: real, recomputation: bool,
                      x: real, y: real, out: real, dout: real): (r: Result<(real, real)>)
    ensures r.Ok? <==> "functor_list" in attrs && attrs["functor_list"] in GradLists
  {
    if "functor_list" !in attrs then Err("functor_list is not set")
    else RunGradFunctors(attrs["functor_list"], scale, recomputation, x, y, out, dout)
  }

  /** The gradient op the maker builds for a valid forward op (one whose
    * list is "elementwise_add,u" or "u,elementwise_add") runs in the gradient kernel. */
  lemma GradOpOfValidOpRuns(fwd: OpDesc, u: string)
    requires u in UnaryNames && "functor_list" in fwd.attrs
    requires fwd.attrs["functor_list"] in {"elementwise_add" + "," + u, u + "," + "elementwise_add"}
    ensures GradMakerApply(fwd).Ok?
    ensures "functor_list" in GradMakerApply(fwd).value.attrs
    ensures GradMakerApply(fwd).value.attrs["functor_list"] in GradLists
  {
    GradFunctorListOfValidList(u);
  }

}
