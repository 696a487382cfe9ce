/** alloc_continuous_space2_op.cc: the kernel that gives every output a copy
  * of its input tensor, and the helper that sums the inputs' sizes and
  * settles their common data type. */
module AllocContinuousSpace {
  import opened Wrappers

  /** proto::VarType::BOOL, the "no type chosen yet" value of the dtype
    * out-parameter. */
  const DefaultDtype: int := 0

  /** What the operator reads of a LoD tensor. */
  datatype TensorInfo = TensorInfo(initialized: bool, dtype: int, numel: int, dims: seq<int>, data: seq<real>)

  /** A variable slot: null, a LoD tensor, or a variable of another type. */
  datatype Var = Null | LoDTensor(tensor: TensorInfo) | OtherVar

  function SumNumel(ts: seq<TensorInfo>): int
  {
    if ts == [] then 0 else SumNumel(ts[..|ts| - 1]) + ts[|ts| - 1].numel
  }

  /** The data type GetMemSizeAndDtype settles on: the one passed in, or the
    * first tensor's when BOOL was passed in. */
  function SettledDtype(ts: seq<TensorInfo>, dtype: int): int
  {
    if dtype == DefaultDtype && |ts| > 0 then ts[0].dtype else dtype
  }

  /** The conditions under which GetMemSizeAndDtype returns normally. */
  predicate MemSizeAccepted(ts: seq<TensorInfo>, names: seq<string>, dtype: int)
  {
    |ts| == |names| &&
    (forall i :: 0 <= i < |ts| ==> ts[i].initialized && ts[i].numel > 0) &&
    (forall i :: 0 <= i < |ts| ==> ts[i].dtype == SettledDtype(ts, dtype)) &&
    (|ts| > 0 ==> SettledDtype(ts, dtype) != DefaultDtype)
  }

  /** GetMemSizeAndDtype: for each tensor in order it must be initialized; a
    * BOOL dtype is replaced by the first tensor's type, which must not be
    * BOOL; every type must equal the settled one; every size must be
    * positive; the sizes are summed. */
  method GetMemSizeAndDtype(ts: seq<TensorInfo>, names: seq<string>, dtype: int)
    returns (r: Result<(int, int)>)
    ensures r.Ok? <==> MemSizeAccepted(ts, names, dtype)
    ensures r.Ok? ==> r.value == (SumNumel(ts), SettledDtype(ts, dtype))
    ensures r.Ok? ==> r.value.0 >= |ts|
  {
    if |ts| != |names| {
      return Err("the numbers of tensors and names differ");
    }
    var numel := 0;
    var d := dtype;
    var i := 0;
    while i < |names|
      invariant 0 <= i <= |names|
      invariant numel == SumNumel(ts[..i]) && numel >= i
      invariant d == (if i == 0 then dtype else SettledDtype(ts, dtype))
      invariant i > 0 ==> d != DefaultDtype
      invariant forall k :: 0 <= k < i ==> ts[k].initialized && ts[k].numel > 0 && ts[k].dtype == d
    {
      if !ts[i].initialized {
        return Err(names[i] + " is not initialized.");
      }
      var pDtype := ts[i].dtype;
      if d == DefaultDtype {
        if pDtype == DefaultDtype {
          return Err(names[i] + "'s type should not be BOOL.");
        }
        d := pDtype;
      }
      if pDtype != d {
        return Err("Input vars is not equal.");
      }
      if ts[i].numel <= 0 {
        return Err("the size of " + names[i] + " should be positive");
      }
      assert ts[..i + 1][..i] == ts[..i];
      numel := numel + ts[i].numel;
      i := i + 1;
    }
    assert ts[..i] == ts;
    return Ok((numel, d));
  }

  /** The conditions under which AllocContinuousSpace2Kernel::Compute returns
    * normally: at least one input, as many outputs as inputs, every slot a
    * LoD tensor, with check_name the names match pairwise, and every input
    * holds memory for TensorCopy to read. */
  predicate ComputeAccepted(inNames: seq<string>, outNames: seq<string>,
                            inVars: seq<Var>, outVars: seq<Var>, checkName: bool)
    requires |inVars| == |inNames| && |outVars| == |outNames|
  {
    |inNames| > 0 && |inNames| == |outNames| &&
    (forall i :: 0 <= i < |inNames| ==> inVars[i].LoDTensor? && outVars[i].LoDTensor?) &&
    (checkName ==> forall i :: 0 <= i < |inNames| ==> inNames[i] == outNames[i]) &&
    (forall i :: 0 <= i < |inNames| ==> inVars[i].tensor.initialized)
  }

  /** AllocContinuousSpace2Kernel::Compute. After the checks, each output
    * shares a fresh copy of its input, so it ends as that input's tensor;
    * the resize done without check_name is then overwritten. TensorCopy
    * refuses an input that holds no memory. */
  method Compute(inNames: seq<string>, outNames: seq<string>,
                 inVars: seq<Var>, outVars: seq<Var>, checkName: bool)
    returns (r: Result<seq<Var>>)
    requires |inVars| == |inNames| && |outVars| == |outNames|
    ensures r.Ok? <==> ComputeAccepted(inNames, outNames, inVars, outVars, checkName)
    ensures r.Ok? ==> |r.value| == |outVars|
    ensures r.Ok? ==> forall i :: 0 <= i < |outVars| ==> r.value[i] == LoDTensor(inVars[i].tensor)
  {
    if |inNames| == 0 {
      return Err("the operator needs at least one input");
    }
    if |inNames| != |outNames| {
      return Err("the numbers of inputs and outputs differ");
    }
    var i := 0;
    while i < |inNames|
      invariant 0 <= i <= |inNames|
      invariant forall k :: 0 <= k < i ==> inVars[k].LoDTensor? && outVars[k].LoDTensor?
    {
      if inVars[i].Null? {
        return Err(inNames[i] + " should not be nullptr,");
      }
      if outVars[i].Null? {
        return Err(outNames[i] + " should not be nullptr,");
      }
      if !inVars[i].LoDTensor? || !outVars[i].LoDTensor? {
        return Err("only LoDTensor is supported");
      }
      i := i + 1;
    }
    var outs := outVars;
    if checkName {
      i := 0;
      while i < |inNames|
        invariant 0 <= i <= |inNames|
        invariant forall k :: 0 <= k < i ==> inNames[k] == outNames[k]
      {
        if inNames[i] != outNames[i] {
          return Err("the input and output names differ");
        }
        i := i + 1;
      }
    } else {
      i := 0;
      while i < |inNames|
        invariant 0 <= i <= |inNames| && |outs| == |outVars|
        invariant forall k :: 0 <= k < |outs| ==> outs[k].LoDTensor?
        invariant forall k :: 0 <= k < i ==> outs[k].tensor.dims == inVars[k].tensor.dims
      {
        outs := outs[i := LoDTensor(outs[i].tensor.(dims := inVars[i].tensor.dims))];
        i := i + 1;
      }
    }
    i := 0;
    while i < |inNames|
      invariant 0 <= i <= |inNames| && |outs| == |outVars|
      invariant forall k :: 0 <= k < |outs| ==> outs[k].LoDTensor?
      invariant forall k :: 0 <= k < i ==> outs[k] == LoDTensor(inVars[k].tensor)
      invariant forall k :: 0 <= k < i ==> inVars[k].tensor.initialized
    {
      if !inVars[i].tensor.initialized {
        return Err("Tensor holds no memory. Call Tensor::mutable_data first.");
      }
      var tmp := inVars[i].tensor;
      outs := outs[i := LoDTensor(tmp)];
      i := i + 1;
    }
    return Ok(outs);
  }

  // ---------------------------------------------------------------------
  // The operator its documentation describes

  /** What the documented operator produces: FusedOutput, whose dims are
    * {sum(numel)}, and the Output tensors sliced from it. */
  datatype FusedSpace = FusedSpace(fused: TensorInfo, outputs: seq<TensorInfo>)

  /** A tensor's element count is the length of its data. */
  predicate Sized(ts: seq<TensorInfo>)
  {
    forall i :: 0 <= i < |ts| ==> |ts[i].data| == ts[i].numel
  }

  /** Where the slice of input `i` starts in the fused buffer. */
  function Offset(ts: seq<TensorInfo>, i: nat): int
    requires i <= |ts|
  {
    SumNumel(ts[..i])
  }

  /** The inputs' data one after another. */
  function Concat(ts: seq<TensorInfo>): seq<real>
  {
    if ts == [] then [] else Concat(ts[..|ts| - 1]) + ts[|ts| - 1].data
  }

  /** The contents of the fused buffer: the inputs' data with copy_data,
    * else the constant everywhere with set_constant, else whatever the
    * allocation held (`uninit`). */
  function FusedData(ts: seq<TensorInfo>, copyData: bool, setConstant: bool, constant: real, uninit: seq<real>): seq<real>
  {
    if copyData then Concat(ts)
    else if setConstant then seq(|uninit|, _ => constant)
    else uninit
  }

  /** The documented operator: the checks of GetMemSizeAndDtype, a fused
    * tensor of dims {sum(numel)} and the settled data type, and each output
    * the slice [Offset(i), Offset(i + 1)) of it with its input's dims.
    * Every tensor it produces, FusedOutput and each output, holds as many
    * elements as its numel says. */
  function IntendedCompute(ts: seq<TensorInfo>, names: seq<string>, dtype: int, copyData: bool,
                           setConstant: bool, constant: real, uninit: seq<real>): (r: Result<FusedSpace>)
    requires Sized(ts) && |uninit| == SumNumel(ts)
    ensures r.Ok? ==> |r.value.outputs| == |ts| && Sized([r.value.fused] + r.value.outputs)
  {
    if !MemSizeAccepted(ts, names, dtype) then Err("GetMemSizeAndDtype failed")
    else
      SizedSums(ts);
      var data := FusedData(ts, copyData, setConstant, constant, uninit);
      var d := SettledDtype(ts, dtype);
      Ok(FusedSpace(TensorInfo(true, d, SumNumel(ts), [SumNumel(ts)], data),
                    seq(|ts|, i requires 0 <= i < |ts| =>
                      TensorInfo(true, d, ts[i].numel, ts[i].dims, data[Offset(ts, i)..Offset(ts, i + 1)]))))
  }

  /** Dropping the last input keeps the rest sized. */
  lemma SizedFront(ts: seq<TensorInfo>)
    requires Sized(ts) && ts != []
    ensures Sized(ts[..|ts| - 1])
  {
    var front := ts[..|ts| - 1];
    forall i | 0 <= i < |front| ensures |front[i].data| == front[i].numel {
      assert front[i] == ts[i];
    }
  }

  /** With sized inputs the concatenated data is as long as the sum. */
  lemma {:induction false} ConcatLength(ts: seq<TensorInfo>)
    requires Sized(ts)
    ensures |Concat(ts)| == SumNumel(ts)
    decreases |ts|
  {
    if ts != [] {
      SizedFront(ts);
      ConcatLength(ts[..|ts| - 1]);
    }
  }

  /** The offset after input `i` is its own offset plus its size. */
  lemma OffsetStep(ts: seq<TensorInfo>, i: nat)
    requires i < |ts|
    ensures Offset(ts, i + 1) == Offset(ts, i) + ts[i].numel
  {
    assert ts[..i + 1][..i] == ts[..i];
  }

  /** Every offset of sized inputs lies between zero and the sum. */
  lemma {:induction false} OffsetsWithin(ts: seq<TensorInfo>)
    requires Sized(ts)
    ensures forall i :: 0 <= i <= |ts| ==> 0 <= Offset(ts, i) <= SumNumel(ts)
    decreases |ts|
  {
    if ts != [] {
      var front := ts[..|ts| - 1];
      SizedFront(ts);
      OffsetsWithin(front);
      assert 0 <= |ts[|ts| - 1].data| == ts[|ts| - 1].numel;
      assert Offset(front, |front|) == SumNumel(front) by { assert front[..|front|] == front; }
      assert SumNumel(ts) == SumNumel(front) + ts[|ts| - 1].numel;
      forall i | 0 <= i <= |ts| ensures 0 <= Offset(ts, i) <= SumNumel(ts) {
        if i == |ts| {
          assert ts[..i] == ts;
        } else {
          assert ts[..i] == front[..i];
          assert Offset(ts, i) == Offset(front, i);
        }
      }
    }
  }

  /** With sized inputs the offsets grow by each input's size, and the
    * concatenated data is as long as the sum. */
  lemma SizedSums(ts: seq<TensorInfo>)
    requires Sized(ts)
    ensures |Concat(ts)| == SumNumel(ts)
    ensures forall i :: 0 <= i < |ts| ==> 0 <= Offset(ts, i) && Offset(ts, i + 1) == Offset(ts, i) + ts[i].numel
    ensures forall i :: 0 <= i <= |ts| ==> Offset(ts, i) <= SumNumel(ts)
  {
    ConcatLength(ts);
    OffsetsWithin(ts);
    forall i | 0 <= i < |ts| ensures Offset(ts, i + 1) == Offset(ts, i) + ts[i].numel {
      OffsetStep(ts, i);
    }
  }

  /** Input `i`'s data sits at [Offset(i), Offset(i + 1)) of the
    * concatenation. */
  lemma {:induction false} ConcatSlice(ts: seq<TensorInfo>, i: nat)
    requires Sized(ts) && i < |ts|
    ensures SumNumel(ts) == |Concat(ts)| && 0 <= Offset(ts, i) <= Offset(ts, i + 1) <= |Concat(ts)|
    ensures Concat(ts)[Offset(ts, i)..Offset(ts, i + 1)] == ts[i].data
    decreases |ts|
  {
    SizedSums(ts);
    var front := ts[..|ts| - 1];
    assert Sized(front) by {
      forall j | 0 <= j < |front| ensures |front[j].data| == front[j].numel {
        assert front[j] == ts[j];
      }
    }
    SizedSums(front);
    assert ts[..|ts| - 1] == front;
    if i < |front| {
      ConcatSlice(front, i);
      assert ts[..i] == front[..i] && ts[..i + 1] == front[..i + 1];
      assert front[i] == ts[i];
      assert Concat(ts)[Offset(ts, i)..Offset(ts, i + 1)] == Concat(front)[Offset(front, i)..Offset(front, i + 1)];
    } else {
      assert ts[..i] == front;
    }
  }

  /** Output `i` of the documented operator is the slice of the fused
    * data between its offsets, with its input's dims. */
  lemma IntendedOutput(ts: seq<TensorInfo>, names: seq<string>, dtype: int, copyData: bool,
                       setConstant: bool, constant: real, uninit: seq<real>, i: nat)
    requires Sized(ts) && |uninit| == SumNumel(ts) && MemSizeAccepted(ts, names, dtype) && i < |ts|
    ensures var r := IntendedCompute(ts, names, dtype, copyData, setConstant, constant, uninit);
      r.Ok? && |r.value.outputs| == |ts| && 0 <= Offset(ts, i) <= Offset(ts, i + 1) <= |r.value.fused.data| &&
      Offset(ts, i + 1) == Offset(ts, i) + ts[i].numel &&
      r.value.outputs[i].dims == ts[i].dims &&
      r.value.outputs[i].data == r.value.fused.data[Offset(ts, i)..Offset(ts, i + 1)] &&
      (copyData ==> r.value.outputs[i].data == ts[i].data)
  {
    SizedSums(ts);
    if copyData {
      ConcatSlice(ts, i);
    }
  }

  /** Output `i` is the slice of `fused` between offsets i and i + 1, with
    * input `i`'s dims. */
  predicate SlicedAt(ts: seq<TensorInfo>, fused: seq<real>, outs: seq<TensorInfo>, i: nat)
    requires i < |ts| && i < |outs|
  {
    0 <= Offset(ts, i) <= Offset(ts, i + 1) <= |fused| &&
    Offset(ts, i + 1) == Offset(ts, i) + ts[i].numel &&
    outs[i].dims == ts[i].dims && outs[i].data == fused[Offset(ts, i)..Offset(ts, i + 1)]
  }

  /** The outputs tile `fused` exactly, in input order. */
  predicate Tiled(ts: seq<TensorInfo>, fused: seq<real>, outs: seq<TensorInfo>)
  {
    |outs| == |ts| && Offset(ts, 0) == 0 && Offset(ts, |ts|) == |fused| &&
    forall i :: 0 <= i < |ts| ==> SlicedAt(ts, fused, outs, i)
  }

  /** What the documentation promises: FusedOutput has dims {sum(numel)}
    * and the settled type; the outputs are consecutive slices of it that
    * tile it exactly and keep their inputs' dims; with copy_data each
    * output holds its input's data, and with set_constant alone every
    * element is the constant. */
  lemma IntendedSlicesFused(ts: seq<TensorInfo>, names: seq<string>, dtype: int, copyData: bool,
                            setConstant: bool, constant: real, uninit: seq<real>)
    requires Sized(ts) && |uninit| == SumNumel(ts)
    ensures var r := IntendedCompute(ts, names, dtype, copyData, setConstant, constant, uninit);
      r.Ok? <==> MemSizeAccepted(ts, names, dtype)
    ensures var r := IntendedCompute(ts, names, dtype, copyData, setConstant, constant, uninit);
      r.Ok? ==>
        r.value.fused.dims == [SumNumel(ts)] && |r.value.fused.data| == SumNumel(ts) &&
        r.value.fused.dtype == SettledDtype(ts, dtype) &&
        Tiled(ts, r.value.fused.data, r.value.outputs) &&
        (copyData ==> forall i :: 0 <= i < |ts| ==> r.value.outputs[i].data == ts[i].data) &&
        (!copyData && setConstant ==> forall k :: 0 <= k < |r.value.fused.data| ==> r.value.fused.data[k] == constant)
  {
    SizedSums(ts);
    if MemSizeAccepted(ts, names, dtype) {
      IntendedTiled(ts, names, dtype, copyData, setConstant, constant, uninit);
      if copyData {
        IntendedCopies(ts, names, dtype, setConstant, constant, uninit);
      }
    }
  }

  /** An accepted call gives outputs that tile the fused data. */
  lemma IntendedTiled(ts: seq<TensorInfo>, names: seq<string>, dtype: int, copyData: bool,
                      setConstant: bool, constant: real, uninit: seq<real>)
    requires Sized(ts) && |uninit| == SumNumel(ts) && MemSizeAccepted(ts, names, dtype)
    ensures var r := IntendedCompute(ts, names, dtype, copyData, setConstant, constant, uninit);
      r.Ok? && Tiled(ts, r.value.fused.data, r.value.outputs)
  {
    SizedSums(ts);
    var r := IntendedCompute(ts, names, dtype, copyData, setConstant, constant, uninit);
    assert Offset(ts, 0) == 0 by { assert ts[..0] == []; }
    assert Offset(ts, |ts|) == |r.value.fused.data| by { assert ts[..|ts|] == ts; }
    forall i | 0 <= i < |ts|
      ensures SlicedAt(ts, r.value.fused.data, r.value.outputs, i)
    {
    }
  }

  /** With copy_data each output holds its input's data. */
  lemma IntendedCopies(ts: seq<TensorInfo>, names: seq<string>, dtype: int,
                       setConstant: bool, constant: real, uninit: seq<real>)
    requires Sized(ts) && |uninit| == SumNumel(ts) && MemSizeAccepted(ts, names, dtype)
    ensures var r := IntendedCompute(ts, names, dtype, true, setConstant, constant, uninit);
      r.Ok? && |r.value.outputs| == |ts| && forall i :: 0 <= i < |ts| ==> r.value.outputs[i].data == ts[i].data
  {
    SizedSums(ts);
    forall i | 0 <= i < |ts|
      ensures Concat(ts)[Offset(ts, i)..Offset(ts, i + 1)] == ts[i].data
    {
      ConcatSlice(ts, i);
    }
  }

  /** The kernel as written against the documented operator, for one input
    * holding 1.0 with set_constant and the constant 0.0: the kernel has no
    * attribute to read and copies the input, and produces no fused tensor,
    * while the documented operator fills a one-element FusedOutput with 0.0
    * and slices the output from it. */
  method AsWrittenIgnoresFusedOutput() returns (asWritten: Result<seq<Var>>, intended: Result<FusedSpace>)
    ensures asWritten.Ok? && |asWritten.value| == 1 && asWritten.value[0].LoDTensor? && asWritten.value[0].tensor.data == [1.0]
    ensures intended.Ok? && intended.value.fused.data == [0.0] && |intended.value.outputs| == 1 && intended.value.outputs[0].data == [0.0]
  {
    var t := TensorInfo(true, 5, 1, [1], [1.0]);
    asWritten := Compute(["x"], ["x"], [LoDTensor(t)], [LoDTensor(t)], true);
    assert SumNumel([t]) == 1 by { assert [t][..0] == []; }
    IntendedSlicesFused([t], ["x"], DefaultDtype, false, true, 0.0, [7.0]);
    intended := IntendedCompute([t], ["x"], DefaultDtype, false, true, 0.0, [7.0]);
    assert MemSizeAccepted([t], ["x"], DefaultDtype);
  }
}
