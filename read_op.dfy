/** reader/read_op.cc: the shape test a reader's declared shapes are checked
  * with, and the checks ReadOp::RunImpl makes before handing each read
  * tensor to its output variable. */
module ReadOp {

  /** The enforce on the numbers of inputs and outputs. */
  const SizeMismatch: string := "input size and output size of read_op do not match"

  /** The enforce on the number of fed variables. */
  const FeedMismatch: string := "output size of read_op and the number of feeded variables of reader do not match"

  /** The enforce on the dimensions of a fed variable. */
  const DimsMismatch: string := "The feeded Variable should have compatible dimensions"

  /** The enforce on the data type of a fed variable. */
  const TypeMismatch: string := "The data type of feeded Variable is not the declared one"

  /** The declared and the fed shape agree: same rank, and equal wherever both
    * entries are known (non-negative); a negative entry is a wildcard. */
  predicate Compatible(first: seq<int>, second: seq<int>)
  {
    |first| == |second| &&
    forall i :: 0 <= i < |first| ==> first[i] < 0 || second[i] < 0 || first[i] == second[i]
  }

  /** DimensionIsCompatibleWith: a rank test, then a scan that stops at the
    * first position where both entries are known and differ. */
  method DimensionIsCompatibleWith(first: seq<int>, second: seq<int>) returns (r: bool)
    ensures r <==> Compatible(first, second)
  {
    var dimSize := |first|;
    if dimSize != |second| {
      return false;
    }
    var i := 0;
    while i < dimSize
      invariant 0 <= i <= dimSize
      invariant forall k :: 0 <= k < i ==> first[k] < 0 || second[k] < 0 || first[k] == second[k]
    {
      if first[i] >= 0 && second[i] >= 0 && first[i] != second[i] {
        return false;
      }
      i := i + 1;
    }
    return true;
  }

  /** The test is symmetric and reflexive. */
  lemma CompatibleSymmetric(a: seq<int>, b: seq<int>)
    ensures Compatible(a, b) <==> Compatible(b, a)
  {
  }

  lemma CompatibleReflexive(a: seq<int>)
    ensures Compatible(a, a)
  {
  }

  /** It is not transitive: a wildcard is compatible with two shapes that
    * are not compatible with each other. */
  lemma CompatibleNotTransitive()
    ensures Compatible([2], [-1]) && Compatible([-1], [3]) && !Compatible([2], [3])
  {
    assert [2][0] != [3][0];
  }

  /** A tensor as the reader hands it over: its shape, element type and LoD. */
  datatype Tensor = Tensor(dims: seq<int>, dtype: int, lod: seq<seq<int>>)

  /** How a read ends: the outputs are filled, the reader is exhausted, or a check failed. */
  datatype ReadOutcome = Read | EndOfFile | Error(message: string)

  /** The scope after outputs 0 .. n-1 have been given their read tensors. */
  function Assigned(scope: map<string, Tensor>, names: seq<string>, ins: seq<Tensor>, n: nat): map<string, Tensor>
    requires n <= |names| && n <= |ins|
  {
    if n == 0 then scope else Assigned(scope, names, ins, n - 1)[names[n - 1] := ins[n - 1]]
  }

  /** Output i passes the feed check when it is not checked, or when its fed
    * shape is compatible with the declared one and its type is the declared type. */
  predicate FeedOk(ins: seq<Tensor>, shapes: seq<seq<int>>, varTypes: seq<int>, needCheckFeed: seq<bool>, i: nat)
    requires i < |ins| && i < |needCheckFeed| && |needCheckFeed| <= |shapes| && |needCheckFeed| <= |varTypes|
  {
    needCheckFeed[i] ==> Compatible(shapes[i], ins[i].dims) && ins[i].dtype == varTypes[i]
  }

  /** ReadOp::RunImpl after ReadNext: an empty read is the end of the data;
    * the numbers of read tensors, outputs and feed flags must agree; then
    * output by output the feed check runs and the tensor is shared into the
    * scope. A failing check, at output `n`, stops the loop with the earlier
    * outputs already set. */
  method RunImpl(scope: map<string, Tensor>, outArgNames: seq<string>, ins: seq<Tensor>,
                 shapes: seq<seq<int>>, varTypes: seq<int>, needCheckFeed: seq<bool>)
    returns (r: ReadOutcome, scope': map<string, Tensor>, ghost n: nat)
    requires |needCheckFeed| <= |shapes| && |needCheckFeed| <= |varTypes|
    ensures |ins| == 0 ==> r == EndOfFile && scope' == scope
    ensures r == Read <==>
      |ins| > 0 && |ins| == |outArgNames| == |needCheckFeed| &&
      forall i :: 0 <= i < |ins| ==> FeedOk(ins, shapes, varTypes, needCheckFeed, i)
    ensures r == Read ==> scope' == Assigned(scope, outArgNames, ins, |ins|)
    ensures r.Error? && |ins| == |outArgNames| == |needCheckFeed| ==>
      n < |ins| && !FeedOk(ins, shapes, varTypes, needCheckFeed, n) &&
      (forall i :: 0 <= i < n ==> FeedOk(ins, shapes, varTypes, needCheckFeed, i)) &&
      scope' == Assigned(scope, outArgNames, ins, n)
  {
    scope', n := scope, 0;
    if |ins| == 0 {
      return EndOfFile, scope', n;
    }
    if |ins| != |outArgNames| {
      return Error(SizeMismatch), scope', n;
    }
    if |outArgNames| != |needCheckFeed| {
      return Error(FeedMismatch), scope', n;
    }
    r, scope', n := ShareOutputs(scope, outArgNames, ins, shapes, varTypes, needCheckFeed);
  }

  /** The loop over the outputs: the feed check, then the tensor is shared
    * into the scope; `n` is the output whose check failed. */
  method ShareOutputs(scope: map<string, Tensor>, outArgNames: seq<string>, ins: seq<Tensor>,
                      shapes: seq<seq<int>>, varTypes: seq<int>, needCheckFeed: seq<bool>)
    returns (r: ReadOutcome, scope': map<string, Tensor>, ghost n: nat)
    requires |ins| == |outArgNames| == |needCheckFeed| <= |shapes| && |needCheckFeed| <= |varTypes|
    ensures r == Read || r.Error?
    ensures r == Read <==> forall i :: 0 <= i < |ins| ==> FeedOk(ins, shapes, varTypes, needCheckFeed, i)
    ensures r == Read ==> scope' == Assigned(scope, outArgNames, ins, |ins|)
    ensures r.Error? ==>
      n < |ins| && !FeedOk(ins, shapes, varTypes, needCheckFeed, n) &&
      (forall i :: 0 <= i < n ==> FeedOk(ins, shapes, varTypes, needCheckFeed, i)) &&
      scope' == Assigned(scope, outArgNames, ins, n)
  {
    scope' := scope;
    n := 0;
    var i := 0;
    while i < |outArgNames|
      invariant 0 <= i <= |outArgNames|
      invariant forall k :: 0 <= k < i ==> FeedOk(ins, shapes, varTypes, needCheckFeed, k)
      invariant scope' == Assigned(scope, outArgNames, ins, i)
    {
      if needCheckFeed[i] {
        var ok := DimensionIsCompatibleWith(shapes[i], ins[i].dims);
        if !ok {
          assert !FeedOk(ins, shapes, varTypes, needCheckFeed, i);
          return Error(DimsMismatch), scope', i;
        }
        if ins[i].dtype != varTypes[i] {
          assert !FeedOk(ins, shapes, varTypes, needCheckFeed, i);
          return Error(TypeMismatch), scope', i;
        }
      }
      scope' := scope'[outArgNames[i] := ins[i]];
      i := i + 1;
    }
    return Read, scope', n;
  }
}
