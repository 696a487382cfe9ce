/** The element-wise functors of math/functors.h and the two string-dispatched
  * kernels (RunFunctors, RunGradFunctors) that compose them. A tensor element
  * is a `real`; the broadcasting loop that applies a functor to every element
  * pair (ElementwiseComputeEx) is not part of this model, so every kernel here
  * is stated for one element pair. */
module Functors {
  import opened Wrappers

  /** A unary functor: ScaleFunctor with its coefficient, or ReluFunctor. */
  datatype Unary = Scale(coeff: real) | Relu

  /** AddFunctor: out = x + y. */
  function Add(x: real, y: real): real
  {
    x + y
  }

  /** AddGradFunctor, both overloads: d(x + y)/dx = d(x + y)/dy = 1. */
  function AddGrad(x: real, y: real): real
  {
    1.0
  }

  function AddGradUsingOut(x: real, y: real, out: real): real
  {
    1.0
  }

  /** ScaleFunctor (x * coeff) and ReluFunctor (x * (x > 0)). */
  function ApplyUnary(u: Unary, x: real): (r: real)
    ensures u.Relu? ==> r >= 0.0 && (r == x || r == 0.0) && (r == x <==> x >= 0.0)
    ensures u.Scale? ==> r == u.coeff * x
  {
    match u
    case Scale(c) => x * c
    case Relu => x * (if x > 0.0 then 1.0 else 0.0)
  }

  /** ScaleGradFunctor (always coeff) and ReluGradFunctor (1 when x > 0, else 0). */
  function UnaryGrad(u: Unary, x: real): real
  {
    match u
    case Scale(c) => c
    case Relu => if x > 0.0 then 1.0 else 0.0
  }

  /** The two-argument overloads of ScaleGradFunctor and ReluGradFunctor; they ignore `out`. */
  function UnaryGradUsingOut(u: Unary, x: real, out: real): real
  {
    match u
    case Scale(c) => c
    case Relu => if x > 0.0 then 1.0 else 0.0
  }

  /** BinaryCompoundFunctor: z = Add(x, Unary(y)). */
  function BinaryCompound(u: Unary, x: real, y: real): real
  {
    Add(x, ApplyUnary(u, y))
  }

  /** UnaryCompoundFunctor: z = Unary(Add(x, y)). */
  function UnaryCompound(u: Unary, x: real, y: real): real
  {
    ApplyUnary(u, Add(x, y))
  }

  /** BinaryCompoundGradDxFunctor. */
  function BinaryCompoundGradDx(u: Unary, recomputation: bool, x: real, y: real, out: real, dout: real): real
  {
    if recomputation then dout * AddGrad(x, ApplyUnary(u, y))
    else dout * AddGradUsingOut(x, ApplyUnary(u, y), out)
  }

  /** BinaryCompoundGradDyFunctor: the binary derivative is taken with its arguments swapped. */
  function BinaryCompoundGradDy(u: Unary, recomputation: bool, x: real, y: real, out: real, dout: real): real
  {
    if recomputation then dout * AddGrad(ApplyUnary(u, y), x) * UnaryGrad(u, y)
    else dout * AddGradUsingOut(ApplyUnary(u, y), x, out) * UnaryGrad(u, y)
  }

  /** UnaryCompoundGradDxFunctor. */
  function UnaryCompoundGradDx(u: Unary, recomputation: bool, x: real, y: real, out: real, dout: real): real
  {
    var base := if recomputation then dout * UnaryGrad(u, Add(x, y))
                else dout * UnaryGradUsingOut(u, Add(x, y), out);
    base * AddGrad(x, y)
  }

  /** UnaryCompoundGradDyFunctor. */
  function UnaryCompoundGradDy(u: Unary, recomputation: bool, x: real, y: real, out: real, dout: real): real
  {
    var base := if recomputation then dout * UnaryGrad(u, Add(x, y))
                else dout * UnaryGradUsingOut(u, Add(x, y), out);
    base * AddGrad(y, x)
  }

  /** Recomputing `out` or reading it gives the same gradients, for every functor. */
  lemma RecomputationIsTransparent(u: Unary, x: real, y: real, out: real, dout: real)
    ensures BinaryCompoundGradDx(u, true, x, y, out, dout) == BinaryCompoundGradDx(u, false, x, y, out, dout)
    ensures BinaryCompoundGradDy(u, true, x, y, out, dout) == BinaryCompoundGradDy(u, false, x, y, out, dout)
    ensures UnaryCompoundGradDx(u, true, x, y, out, dout) == UnaryCompoundGradDx(u, false, x, y, out, dout)
    ensures UnaryCompoundGradDy(u, true, x, y, out, dout) == UnaryCompoundGradDy(u, false, x, y, out, dout)
  {
  }

  /** True when ReLU is linear between `a` and `b`: both on the same side of 0. */
  predicate SameSide(a: real, b: real)
  {
    (a > 0.0) == (b > 0.0)
  }

  /** The gradient functors are the exact slopes of the forward functors:
    * moving x (or y) by h moves z by h times the gradient, for a scale
    * everywhere and for ReLU wherever its argument keeps its sign. */
  lemma BinaryCompoundGradIsSlope(u: Unary, rc: bool, x: real, y: real, out: real, h: real)
    requires u.Relu? ==> SameSide(y, y + h)
    ensures BinaryCompound(u, x + h, y) - BinaryCompound(u, x, y) == h * BinaryCompoundGradDx(u, rc, x, y, out, 1.0)
    ensures BinaryCompound(u, x, y + h) - BinaryCompound(u, x, y) == h * BinaryCompoundGradDy(u, rc, x, y, out, 1.0)
  {
    match u
    case Scale(c) =>
      assert (y + h) * c == y * c + h * c;
    case Relu =>
  }

  lemma UnaryCompoundGradIsSlope(u: Unary, rc: bool, x: real, y: real, out: real, h: real)
    requires u.Relu? ==> SameSide(x + y, x + y + h)
    ensures UnaryCompound(u, x + h, y) - UnaryCompound(u, x, y) == h * UnaryCompoundGradDx(u, rc, x, y, out, 1.0)
    ensures UnaryCompound(u, x, y + h) - UnaryCompound(u, x, y) == h * UnaryCompoundGradDy(u, rc, x, y, out, 1.0)
  {
    match u
    case Scale(c) =>
      assert (x + h + y) * c == (x + y) * c + h * c;
      assert (x + (y + h)) * c == (x + y) * c + h * c;
    case Relu =>
      assert x + h + y == x + (y + h);
  }

  /** std::string::find(","): the index of the first comma, None standing for npos. */
  function FindComma(s: string): (r: Option<nat>)
    ensures r.None? <==> ',' !in s
    ensures r.Some? ==> r.value < |s| && s[r.value] == ',' && ',' !in s[..r.value]
  {
    if |s| == 0 then None
    else if s[0] == ',' then Some(0)
    else
      match FindComma(s[1..])
      case None => None
      case Some(k) =>
        assert s[..k + 1] == [s[0]] + s[1..][..k];
        Some(k + 1)
  }

  /** The two names a functor list holds: substr(0, pos) and substr(pos + 1)
    * with pos = find(","). Without a comma, pos is npos, npos + 1 wraps to 0,
    * and both halves are the whole list. */
  function SplitFunctorList(s: string): (r: (string, string))
    ensures ',' in s ==> s == r.0 + "," + r.1 && ',' !in r.0
    ensures ',' !in s ==> r.0 == s && r.1 == s
  {
    match FindComma(s)
    case None => (s, s)
    case Some(p) =>
      assert s == s[..p] + "," + s[p + 1..];
      (s[..p], s[p + 1..])
  }

  lemma {:induction false} FindCommaAfterName(a: string, b: string)
    requires ',' !in a
    ensures FindComma(a + "," + b) == Some(|a|)
  {
    if |a| > 0 {
      assert (a + "," + b)[1..] == a[1..] + "," + b;
      FindCommaAfterName(a[1..], b);
    }
  }

  /** Splitting "f1,f2" gives back f1 and f2 when f1 has no comma. */
  lemma SplitJoinedList(a: string, b: string)
    requires ',' !in a
    ensures SplitFunctorList(a + "," + b) == (a, b)
  {
    var s := a + "," + b;
    FindCommaAfterName(a, b);
    assert s[..|a|] == a;
    assert s[|a| + 1..] == b;
  }

  const BinaryNames: set<string> := {"elementwise_add"}
  const UnaryNames: set<string> := {"scale", "relu"}

  /** The four functor lists the fused kernels implement. */
  const ForwardLists: set<string> :=
    {"elementwise_add" + "," + "scale", "scale" + "," + "elementwise_add",
     "elementwise_add" + "," + "relu", "relu" + "," + "elementwise_add"}

  /** ValidCheck: one half of the list must be the binary functor and the
    * other a supported unary functor. */
  function ValidCheck(functors: string): (r: Outcome)
  {
    var (func1, func2) := SplitFunctorList(functors);
    var unary :=
      if func1 in BinaryNames then Some(func2)
      else if func2 in BinaryNames then Some(func1)
      else None;
    match unary
    case None => Fail(func1 + " and " + func2 + " are not included in fused_list.")
    case Some(name) =>
      if name in UnaryNames then Pass else Fail(name + " is not included in fused_list.")
  }

  /** The lists the kernels implement, as their two halves. */
  lemma SplitForwardLists(functors: string)
    requires functors in ForwardLists
    ensures var (f1, f2) := SplitFunctorList(functors);
      (f1 == "elementwise_add" && f2 in UnaryNames) || (f2 == "elementwise_add" && f1 in UnaryNames)
  {
    if functors == "elementwise_add" + "," + "scale" {
      SplitJoinedList("elementwise_add", "scale");
    } else if functors == "scale" + "," + "elementwise_add" {
      SplitJoinedList("scale", "elementwise_add");
    } else if functors == "elementwise_add" + "," + "relu" {
      SplitJoinedList("elementwise_add", "relu");
    } else {
      SplitJoinedList("relu", "elementwise_add");
    }
  }

  /** ValidCheck accepts exactly the four lists the kernels implement. */
  lemma ValidCheckAcceptsExactly(functors: string)
    ensures ValidCheck(functors).Pass? <==> functors in ForwardLists
  {
    var (f1, f2) := SplitFunctorList(functors);
    if functors in ForwardLists {
      SplitForwardLists(functors);
    }
    if ValidCheck(functors).Pass? && ',' in functors {
      assert functors == f1 + "," + f2;
    }
  }

  /** The unary functor a name stands for, with the op's `scale` attribute. */
  function UnaryNamed(name: string, scale: real): Option<Unary>
  {
    if name == "scale" then Some(Scale(scale))
    else if name == "relu" then Some(Relu)
    else None
  }

  /** RunFunctors: the forward kernel for one element pair. */
  function RunFunctors(functors: string, scale: real, x: real, y: real): (r: Result<real>)
  {
    if functors == "elementwise_add" + "," + "scale" then Ok(BinaryCompound(Scale(scale), x, y))
    else if functors == "scale" + "," + "elementwise_add" then Ok(UnaryCompound(Scale(scale), x, y))
    else if functors == "elementwise_add" + "," + "relu" then Ok(BinaryCompound(Relu, x, y))
    else if functors == "relu" + "," + "elementwise_add" then Ok(UnaryCompound(Relu, x, y))
    else Err(functors + " has not been implemented.")
  }

  /** RunFunctors implements exactly the lists ValidCheck accepts. */
  lemma RunFunctorsImplementsValidLists(functors: string, scale: real, x: real, y: real)
    ensures RunFunctors(functors, scale, x, y).Ok? <==> ValidCheck(functors).Pass?
  {
    ValidCheckAcceptsExactly(functors);
  }

  /** RunFunctors reads a list from the outside in: "elementwise_add,u"
    * computes x + u(y) and "u,elementwise_add" computes u(x + y). */
  lemma RunFunctorsReadsOutsideIn(u: string, scale: real, x: real, y: real)
    requires u in UnaryNames
    ensures RunFunctors("elementwise_add" + "," + u, scale, x, y)
      == Ok(x + ApplyUnary(UnaryNamed(u, scale).value, y))
    ensures RunFunctors(u + "," + "elementwise_add", scale, x, y)
      == Ok(ApplyUnary(UnaryNamed(u, scale).value, x + y))
  {
    var addScale, scaleAdd := "elementwise_add" + "," + "scale", "scale" + "," + "elementwise_add";
    var addRelu, reluAdd := "elementwise_add" + "," + "relu", "relu" + "," + "elementwise_add";
    assert addScale[0] == 'e' && scaleAdd[0] == 's' && addRelu[0] == 'e' && reluAdd[0] == 'r';
    assert addScale[16] == 's' && addRelu[16] == 'r';
  }

  /** The name of a functor's gradient functor: "elementwise_add" gives
    * "elementwise_add_grad", "scale" gives "scale_grad". */
  function GradName(name: string): string
  {
    name + "_grad"
  }

  /** The four gradient functor lists RunGradFunctors implements:
    * "elementwise_add_grad,scale_grad", "scale_grad,elementwise_add_grad",
    * "elementwise_add_grad,relu_grad" and "relu_grad,elementwise_add_grad". */
  const GradLists: set<string> :=
    {GradName("elementwise_add") + "," + GradName("scale"), GradName("scale") + "," + GradName("elementwise_add"),
     GradName("elementwise_add") + "," + GradName("relu"), GradName("relu") + "," + GradName("elementwise_add")}

  /** RunGradFunctors: (dx, dy) for one element pair, honouring the
    * `recomputation` attribute. */
  function RunGradFunctors(functors: string, scale: real, recomputation: bool,
                           x: real, y: real, out: real, dout: real): (r: Result<(real, real)>)
    ensures r.Ok? <==> functors in GradLists
  {
    if functors == GradName("elementwise_add") + "," + GradName("scale") then
      Ok((BinaryCompoundGradDx(Scale(scale), recomputation, x, y, out, dout),
          BinaryCompoundGradDy(Scale(scale), recomputation, x, y, out, dout)))
    else if functors == GradName("scale") + "," + GradName("elementwise_add") then
      Ok((UnaryCompoundGradDx(Scale(scale), recomputation, x, y, out, dout),
          UnaryCompoundGradDy(Scale(scale), recomputation, x, y, out, dout)))
    else if functors == GradName("elementwise_add") + "," + GradName("relu") then
      Ok((BinaryCompoundGradDx(Relu, recomputation, x, y, out, dout),
          BinaryCompoundGradDy(Relu, recomputation, x, y, out, dout)))
    else if functors == GradName("relu") + "," + GradName("elementwise_add") then
      Ok((UnaryCompoundGradDx(Relu, recomputation, x, y, out, dout),
          UnaryCompoundGradDy(Relu, recomputation, x, y, out, dout)))
    else Err(functors + " has not been implemented.")
  }

  /** RunGradFunctors on each of its four lists (the first characters, or the
    * character after "elementwise_add_grad,", tell the lists apart). */
  lemma RunGradFunctorsOnGradLists(scale: real, rc: bool, x: real, y: real, out: real, dout: real)
    ensures RunGradFunctors(GradName("elementwise_add") + "," + GradName("scale"), scale, rc, x, y, out, dout)
      == Ok((BinaryCompoundGradDx(Scale(scale), rc, x, y, out, dout), BinaryCompoundGradDy(Scale(scale), rc, x, y, out, dout)))
    ensures RunGradFunctors(GradName("scale") + "," + GradName("elementwise_add"), scale, rc, x, y, out, dout)
      == Ok((UnaryCompoundGradDx(Scale(scale), rc, x, y, out, dout), UnaryCompoundGradDy(Scale(scale), rc, x, y, out, dout)))
    ensures RunGradFunctors(GradName("elementwise_add") + "," + GradName("relu"), scale, rc, x, y, out, dout)
      == Ok((BinaryCompoundGradDx(Relu, rc, x, y, out, dout), BinaryCompoundGradDy(Relu, rc, x, y, out, dout)))
    ensures RunGradFunctors(GradName("relu") + "," + GradName("elementwise_add"), scale, rc, x, y, out, dout)
      == Ok((UnaryCompoundGradDx(Relu, rc, x, y, out, dout), UnaryCompoundGradDy(Relu, rc, x, y, out, dout)))
  {
    var addScale := GradName("elementwise_add") + "," + GradName("scale");
    var scaleAdd := GradName("scale") + "," + GradName("elementwise_add");
    var addRelu := GradName("elementwise_add") + "," + GradName("relu");
    var reluAdd := GradName("relu") + "," + GradName("elementwise_add");
    assert addScale[0] == 'e' && scaleAdd[0] == 's' && addRelu[0] == 'e' && reluAdd[0] == 'r';
    assert addScale[21] == 's' && addRelu[21] == 'r';
  }
}
