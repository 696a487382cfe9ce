/** fused_operators_op.h: the fused_operators forward and gradient kernels,
  * which pick a compound form from a two-element functor list. Both kernels
  * always use Add and Scale with the coefficient 0.1, whatever names the list
  * holds; the list only chooses the order of composition. */
module FusedOperators {
  import opened Wrappers
  import opened Functors

  const BinaryFunNames: set<string> := {"add", "sub"}
  const UnaryFunNames: set<string> := {"scale", "relu"}

  /** The scale coefficient both kernels hard-code. */
  const KernelScale: real := 0.1

  /** The name before the first comma of a unary entry (the whole entry when it has none). */
  function UnaryPrefix(entry: string): string
  {
    SplitFunctorList(entry).0
  }

  /** GetFuncitonMode: 2 when the list starts with a binary functor
    * (Binary(X, Unary(Y))), 1 when it ends with one (Unary(Binary(X, Y))).
    * The caller must supply at least two entries: the source indexes [0] and
    * [1] without checking. */
  function GetFunctionMode(functors: seq<string>): (r: Result<int>)
    requires |functors| >= 2
    ensures r.Ok? <==>
      (functors[0] in BinaryFunNames && UnaryPrefix(functors[1]) in UnaryFunNames) ||
      (functors[0] !in BinaryFunNames && functors[1] in BinaryFunNames && UnaryPrefix(functors[0]) in UnaryFunNames)
    ensures r.Ok? ==> (r.value == 2 <==> functors[0] in BinaryFunNames) && (r.value == 1 || r.value == 2)
  {
    var (mode, unaryFunStr) :=
      if functors[0] in BinaryFunNames then (2, Some(functors[1]))
      else if functors[1] in BinaryFunNames then (1, Some(functors[0]))
      else (0, None);
    if unaryFunStr.None? then Err("functor list is invalid.")
    else if UnaryPrefix(unaryFunStr.value) in UnaryFunNames then Ok(mode)
    else Err("unary functor is not supported")
  }

  /** FusedOperatorsKernel::Compute on one element pair. */
  function ForwardKernel(functors: seq<string>, x: real, y: real): (r: Result<real>)
    requires |functors| >= 2
    ensures r.Ok? <==> GetFunctionMode(functors).Ok?
    ensures r.Ok? && GetFunctionMode(functors).value == 2 ==> r.value == BinaryCompound(Scale(KernelScale), x, y)
    ensures r.Ok? && GetFunctionMode(functors).value == 1 ==> r.value == UnaryCompound(Scale(KernelScale), x, y)
  {
    match GetFunctionMode(functors)
    case Err(e) => Err(e)
    case Ok(mode) =>
      if mode == 2 then Ok(BinaryCompound(Scale(KernelScale), x, y))
      else Ok(UnaryCompound(Scale(KernelScale), x, y))
  }

  /** FusedOperatorsGradKernel::Compute on one element pair: (dX, dY). Unlike
    * the forward kernel it checks that the list has exactly two entries. */
  function GradKernel(functors: seq<string>, x: real, y: real, out: real, dout: real): (r: Result<(real, real)>)
    ensures r.Ok? <==> |functors| == 2 && GetFunctionMode(functors).Ok?
  {
    if |functors| != 2 then Err("functor_list must have two entries")
    else
      match GetFunctionMode(functors)
      case Err(e) => Err(e)
      case Ok(mode) =>
        if mode == 1 then
          Ok((UnaryCompoundGradDx(Scale(KernelScale), true, x, y, out, dout),
              UnaryCompoundGradDy(Scale(KernelScale), true, x, y, out, dout)))
        else
          Ok((BinaryCompoundGradDx(Scale(KernelScale), true, x, y, out, dout),
              BinaryCompoundGradDy(Scale(KernelScale), true, x, y, out, dout)))
  }

  /** The gradient kernel's (dX, dY) are the exact slopes of the forward kernel
    * for every accepted two-entry list. */
  lemma GradKernelIsSlope(functors: seq<string>, x: real, y: real, out: real, h: real)
    requires |functors| == 2 && GetFunctionMode(functors).Ok?
    ensures var g := GradKernel(functors, x, y, out, 1.0);
      g.Ok? &&
      ForwardKernel(functors, x + h, y).value - ForwardKernel(functors, x, y).value == h * g.value.0 &&
      ForwardKernel(functors, x, y + h).value - ForwardKernel(functors, x, y).value == h * g.value.1
  {
    if GetFunctionMode(functors).value == 2 {
      BinaryCompoundGradIsSlope(Scale(KernelScale), true, x, y, out, h);
    } else {
      UnaryCompoundGradIsSlope(Scale(KernelScale), true, x, y, out, h);
    }
  }

  /** The kernels read only the mode: two accepted lists with the same mode
    * compute the same values, so ["add", "relu"] computes x + 0.1 * y and
    * ["sub", "scale"] adds rather than subtracts. */
  lemma KernelDependsOnlyOnMode(f1: seq<string>, f2: seq<string>, x: real, y: real)
    requires |f1| >= 2 && |f2| >= 2
    requires GetFunctionMode(f1).Ok? && GetFunctionMode(f2).Ok?
    requires GetFunctionMode(f1).value == GetFunctionMode(f2).value
    ensures ForwardKernel(f1, x, y) == ForwardKernel(f2, x, y)
  {
  }
}
