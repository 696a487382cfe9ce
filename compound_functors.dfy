/** math/compound_functors.h: compound functors that can also produce and
  * consume the intermediate result (the inner functor's output), their
  * gradients in the four- and five-argument forms, and the registry of named
  * compound functors. */
module CompoundFunctors {
  import opened Wrappers
  import opened Functors

  /** BinaryCompoundFunctor: Z = Add(X, Unary(Y)); the intermediate is Unary(Y). */
  function BinaryGetOut(u: Unary, x: real, y: real): real
  {
    Add(x, ApplyUnary(u, y))
  }

  function BinaryGetOutUseIntermediateOut(x: real, intermediateOut: real): real
  {
    Add(x, intermediateOut)
  }

  function BinaryGetIntermediateOut(u: Unary, x: real, y: real): real
  {
    ApplyUnary(u, y)
  }

  /** UnaryCompoundFunctor: Z = Unary(Add(X, Y)); the intermediate is Add(X, Y). */
  function UnaryGetOut(u: Unary, x: real, y: real): real
  {
    ApplyUnary(u, Add(x, y))
  }

  function UnaryGetOutUseIntermediateOut(u: Unary, x: real, intermediateOut: real): real
  {
    ApplyUnary(u, intermediateOut)
  }

  function UnaryGetIntermediateOut(x: real, y: real): real
  {
    Add(x, y)
  }

  /** Saving the intermediate and finishing from it gives the output computed
    * in one go, and that output is the one math/functors.h computes. */
  lemma IntermediateOutRoundTrip(u: Unary, x: real, y: real)
    ensures BinaryGetOutUseIntermediateOut(x, BinaryGetIntermediateOut(u, x, y)) == BinaryGetOut(u, x, y)
    ensures UnaryGetOutUseIntermediateOut(u, x, UnaryGetIntermediateOut(x, y)) == UnaryGetOut(u, x, y)
    ensures BinaryGetOut(u, x, y) == BinaryCompound(u, x, y)
    ensures UnaryGetOut(u, x, y) == UnaryCompound(u, x, y)
  {
  }

  /** The binary gradient functor's Dx and Dy: for Add both are 1. */
  function AddDx(x: real, y: real): real
  {
    1.0
  }

  function AddDy(x: real, y: real): real
  {
    1.0
  }

  /** BinaryCompoundGradDxFunctor, four-argument form (recomputes Unary(y)). */
  function BinaryGradDx(u: Unary, x: real, y: real, out: real, dout: real): real
  {
    dout * AddDx(x, ApplyUnary(u, y))
  }

  /** BinaryCompoundGradDxFunctor, five-argument form (reads the saved intermediate). */
  function BinaryGradDxUseIntermediate(x: real, y: real, intermediateOut: real, out: real, dout: real): real
  {
    dout * AddDx(x, intermediateOut)
  }

  /** BinaryCompoundGradDyFunctor, four-argument form. */
  function BinaryGradDy(u: Unary, x: real, y: real, out: real, dout: real): real
  {
    dout * AddDy(x, ApplyUnary(u, y)) * UnaryGrad(u, y)
  }

  /** BinaryCompoundGradDyFunctor, five-argument form: the unary derivative is
    * called as d_unary(y, intermediate_out). */
  function BinaryGradDyUseIntermediate(u: Unary, x: real, y: real, intermediateOut: real, out: real, dout: real): real
  {
    dout * AddDy(x, intermediateOut) * UnaryGradUsingOut(u, y, intermediateOut)
  }

  /** UnaryCompoundGradDxFunctor, four-argument form. */
  function UnaryGradDx(u: Unary, recomputation: bool, x: real, y: real, out: real, dout: real): real
  {
    var base := if recomputation then dout * UnaryGrad(u, Add(x, y))
                else dout * UnaryGradUsingOut(u, Add(x, y), out);
    base * AddDx(x, y)
  }

  /** UnaryCompoundGradDxFunctor, five-argument form. */
  function UnaryGradDxUseIntermediate(u: Unary, recomputation: bool, x: real, y: real,
                                      intermediateOut: real, out: real, dout: real): real
  {
    var base := if recomputation then dout * UnaryGrad(u, intermediateOut)
                else dout * UnaryGradUsingOut(u, intermediateOut, out);
    base * AddDx(x, y)
  }

  /** UnaryCompoundGradDyFunctor, four-argument form. */
  function UnaryGradDy(u: Unary, recomputation: bool, x: real, y: real, out: real, dout: real): real
  {
    var base := if recomputation then dout * UnaryGrad(u, Add(x, y))
                else dout * UnaryGradUsingOut(u, Add(x, y), out);
    base * AddDy(x, y)
  }

  /** UnaryCompoundGradDyFunctor, five-argument form. */
  function UnaryGradDyUseIntermediate(u: Unary, recomputation: bool, x: real, y: real,
                                      intermediateOut: real, out: real, dout: real): real
  {
    var base := if recomputation then dout * UnaryGrad(u, intermediateOut)
                else dout * UnaryGradUsingOut(u, intermediateOut, out);
    base * AddDy(x, y)
  }

  /** Fed the true intermediate, the five-argument gradients equal the
    * four-argument ones, and both equal the gradients of math/functors.h. */
  lemma IntermediateGradsAgree(u: Unary, rc: bool, x: real, y: real, out: real, dout: real)
    ensures BinaryGradDxUseIntermediate(x, y, BinaryGetIntermediateOut(u, x, y), out, dout)
      == BinaryGradDx(u, x, y, out, dout) == BinaryCompoundGradDx(u, rc, x, y, out, dout)
    ensures BinaryGradDyUseIntermediate(u, x, y, BinaryGetIntermediateOut(u, x, y), out, dout)
      == BinaryGradDy(u, x, y, out, dout) == BinaryCompoundGradDy(u, rc, x, y, out, dout)
    ensures UnaryGradDxUseIntermediate(u, rc, x, y, UnaryGetIntermediateOut(x, y), out, dout)
      == UnaryGradDx(u, rc, x, y, out, dout) == UnaryCompoundGradDx(u, rc, x, y, out, dout)
    ensures UnaryGradDyUseIntermediate(u, rc, x, y, UnaryGetIntermediateOut(x, y), out, dout)
      == UnaryGradDy(u, rc, x, y, out, dout) == UnaryCompoundGradDy(u, rc, x, y, out, dout)
  {
  }

  /** What a registered creator builds; the model keeps only its type name. */
  datatype Creator = Creator(compoundFunctorType: string)

  /** CompoundFunctorRegistry: a map from functor-type names to creators. */
  class CompoundFunctorRegistry {
    var creators: map<string, Creator>

    constructor()
      ensures creators == map[]
    {
      creators := map[];
    }

    predicate Has(functorType: string)
      reads this
    {
      functorType in creators
    }

    /** Insert refuses a name that is already registered and leaves the map as it was. */
    method Insert(functorType: string, creator: Creator) returns (r: Outcome)
      modifies this
      ensures old(Has(functorType)) ==> r.Fail? && creators == old(creators)
      ensures !old(Has(functorType)) ==> r.Pass? && creators == old(creators)[functorType := creator]
    {
      if Has(functorType) {
        return Fail("Functor " + functorType + " has been registered");
      }
      creators := creators[functorType := creator];
      return Pass;
    }

    /** Get fails for a name that was never registered. */
    function Get(functorType: string): (r: Result<Creator>)
      reads this
      ensures r.Ok? <==> Has(functorType)
      ensures r.Ok? ==> r.value == creators[functorType]
    {
      if Has(functorType) then Ok(creators[functorType])
      else Err("CompoundFunctor " + functorType + " has not been registered")
    }
  }

  /** CompoundFunctorRegistrar's constructor: registers a creator under a name
    * not yet taken, and refuses a name registered more than once. */
  method Register(registry: CompoundFunctorRegistry, functorType: string) returns (r: Outcome)
    modifies registry
    ensures old(registry.Has(functorType)) ==> r.Fail? && registry.creators == old(registry.creators)
    ensures !old(registry.Has(functorType)) ==>
      r.Pass? && registry.creators == old(registry.creators)[functorType := Creator(functorType)]
    ensures r.Pass? ==> registry.Get(functorType) == Ok(Creator(functorType))
  {
    if registry.Has(functorType) {
      return Fail("'" + functorType + "' is registered more than once.");
    }
    r := registry.Insert(functorType, Creator(functorType));
  }
}
