/** fuse_vars_op.cc: FuseVarOp::InferShape, which checks the inputs and
  * sizes the fused output as the sum of the inputs' element counts. */
module FuseVarsOp {
  import opened Wrappers
  import opened ElementwiseAdd

  /** proto::VarType::LOD_TENSOR. */
  const LoDTensorType: int := 7

  function SumProducts(dims: seq<seq<int>>): int
  {
    if dims == [] then 0 else SumProducts(dims[..|dims| - 1]) + Product(dims[|dims| - 1])
  }

  /** The conditions under which compile-time InferShape returns normally. */
  predicate InferShapeAccepted(inTypes: seq<int>, dims: seq<seq<int>>)
    requires |inTypes| > 0
  {
    inTypes[0] == LoDTensorType &&
    (forall i :: 0 <= i < |inTypes| ==> inTypes[i] == inTypes[0]) &&
    |dims| > 0 &&
    (forall i :: 0 <= i < |dims| ==> Product(dims[i]) >= 0)
  }

  /** The outputs FuseVarOpMaker declares. */
  const DeclaredOutputs: set<string> := {"FusedX", "Y"}

  /** The output whose dim InferShape sets, and the dim. */
  datatype OutputDim = OutputDim(name: string, numel: int)

  /** FuseVarOp::InferShape as written: the total is set as the dim of
    * "Out", which is not an output of the operator, so the fused output
    * FusedX never receives its dim. */
  method InferShapeAsWritten(hasX: bool, hasY: bool, hasFusedX: bool, isRuntime: bool,
                             inTypes: seq<int>, dims: seq<seq<int>>) returns (r: Result<Option<OutputDim>>)
    requires hasX ==> |inTypes| > 0
    ensures r.Ok? <==> hasX && hasY && hasFusedX && (isRuntime || InferShapeAccepted(inTypes, dims))
    ensures r.Ok? && isRuntime ==> r.value == None
    ensures r.Ok? && !isRuntime ==>
      r.value.Some? && r.value.value.numel == SumProducts(dims) >= 0 && r.value.value.name !in DeclaredOutputs
  {
    var total := TotalNumel(hasX, hasY, hasFusedX, isRuntime, inTypes, dims);
    if total.Err? {
      return Err(total.error);
    }
    if total.value.None? {
      return Ok(None);
    }
    return Ok(Some(OutputDim("Out", total.value.value)));
  }

  /** FuseVarOp::InferShape as evidently intended: the total is the dim of
    * the fused output FusedX. */
  method InferShape(hasX: bool, hasY: bool, hasFusedX: bool, isRuntime: bool,
                    inTypes: seq<int>, dims: seq<seq<int>>) returns (r: Result<Option<OutputDim>>)
    requires hasX ==> |inTypes| > 0
    ensures r.Ok? <==> hasX && hasY && hasFusedX && (isRuntime || InferShapeAccepted(inTypes, dims))
    ensures r.Ok? && isRuntime ==> r.value == None
    ensures r.Ok? && !isRuntime ==>
      r.value == Some(OutputDim("FusedX", SumProducts(dims))) && SumProducts(dims) >= 0 && "FusedX" in DeclaredOutputs
  {
    var total := TotalNumel(hasX, hasY, hasFusedX, isRuntime, inTypes, dims);
    if total.Err? {
      return Err(total.error);
    }
    if total.value.None? {
      return Ok(None);
    }
    return Ok(Some(OutputDim("FusedX", total.value.value)));
  }

  /** The checks of FuseVarOp::InferShape and the total it computes. X, Y
    * and FusedX must be present (a present duplicable input has at least
    * one argument); at run time nothing more is checked and no dim is set
    * (Ok(None)). Otherwise the first input type must be LOD_TENSOR and all
    * types equal to it, there must be at least one input, and every element
    * count must be non-negative, which rules out shapes with an unknown (-1)
    * dim; the total is the sum of the counts. */
  method TotalNumel(hasX: bool, hasY: bool, hasFusedX: bool, isRuntime: bool,
                    inTypes: seq<int>, dims: seq<seq<int>>) returns (r: Result<Option<int>>)
    requires hasX ==> |inTypes| > 0
    ensures r.Ok? <==> hasX && hasY && hasFusedX && (isRuntime || InferShapeAccepted(inTypes, dims))
    ensures r.Ok? && isRuntime ==> r.value == None
    ensures r.Ok? && !isRuntime ==> r.value == Some(SumProducts(dims)) && SumProducts(dims) >= 0
  {
    if !hasX {
      return Err("Inputs(X) should not be null");
    }
    if !hasY {
      return Err("Output(Out) of FuseVarOp should not be null.");
    }
    if !hasFusedX {
      return Err("Output(FusedX) of FuseVarOp should not be null.");
    }
    if isRuntime {
      return Ok(None);
    }
    if inTypes[0] != LoDTensorType {
      return Err("the input type should be LOD_TENSOR");
    }
    var i := 0;
    while i < |inTypes|
      invariant 0 <= i <= |inTypes|
      invariant forall k :: 0 <= k < i ==> inTypes[k] == inTypes[0]
    {
      if inTypes[i] != inTypes[0] {
        return Err("all input types should be equal");
      }
      i := i + 1;
    }
    if |dims| == 0 {
      return Err("Input tensors count should > 0.");
    }
    var totalNumel := 0;
    i := 0;
    while i < |dims|
      invariant 0 <= i <= |dims|
      invariant totalNumel == SumProducts(dims[..i]) && totalNumel >= 0
      invariant forall k :: 0 <= k < i ==> Product(dims[k]) >= 0
    {
      var numel := Product(dims[i]);
      if numel < 0 {
        return Err("the element count should be >= 0");
      }
      assert dims[..i + 1][..i] == dims[..i];
      totalNumel := totalNumel + numel;
      i := i + 1;
    }
    assert dims[..i] == dims;
    return Ok(Some(totalNumel));
  }
}

/** fuse_vars_op.h: FuseVarsKernel::Compute, which sizes one fused buffer for
  * the inputs that live on the GPU and makes each such output a slice of it. */
module FuseVarsKernel {
  import opened Wrappers

  datatype Place = CPUPlace | GPUPlace(device: int)

  /** What the kernel reads of an input variable: `rows` is the first entry
    * of its tensor's dims, the bound Tensor::Slice checks. */
  datatype VarInfo = VarInfo(id: int, isLoDTensor: bool, place: Place, typeHash: int, numel: int, rows: int)

  /** The tensor a slice is taken from: the output's own tensor or the
    * fused buffer. */
  datatype SliceSource = OwnTensor | FusedBuffer

  /** Output `index` is made to share the rows [start, end) of `source`. */
  datatype Slice = Slice(index: nat, source: SliceSource, start: int, end: int)

  /** The fused buffer's size (None when no input is on the GPU) and the slices. */
  datatype Fused = Fused(totalNumel: Option<int>, slices: seq<Slice>)

  /** The positions of the GPU-resident inputs, in order. */
  function GpuIndices(vars: seq<VarInfo>): (r: seq<nat>)
    ensures forall k :: 0 <= k < |r| ==> r[k] < |vars|
  {
    if vars == [] then []
    else
      var rest := GpuIndices(vars[..|vars| - 1]);
      if vars[|vars| - 1].place.GPUPlace? then rest + [|vars| - 1] else rest
  }

  /** GpuIndices lists exactly the GPU inputs, each once, in increasing order. */
  lemma {:induction false} GpuIndicesExact(vars: seq<VarInfo>)
    ensures var r := GpuIndices(vars);
      (forall k :: 0 <= k < |r| ==> r[k] < |vars| && vars[r[k]].place.GPUPlace?) &&
      (forall k, l :: 0 <= k < l < |r| ==> r[k] < r[l]) &&
      (forall i :: 0 <= i < |vars| && vars[i].place.GPUPlace? ==> i in r)
  {
    if vars != [] {
      var p := vars[..|vars| - 1];
      GpuIndicesExact(p);
      forall k | 0 <= k < |GpuIndices(p)|
        ensures vars[GpuIndices(p)[k]] == p[GpuIndices(p)[k]]
      {
      }
    }
  }

  /** The sum of the element counts of the inputs at `idx`. */
  function NumelAt(vars: seq<VarInfo>, idx: seq<nat>): int
    requires forall k :: 0 <= k < |idx| ==> idx[k] < |vars|
  {
    if idx == [] then 0 else NumelAt(vars, idx[..|idx| - 1]) + vars[idx[|idx| - 1]].numel
  }

  /** Consecutive slices of `src` for the inputs at `idx`, starting at `s`. */
  function Slices(vars: seq<VarInfo>, idx: seq<nat>, src: SliceSource, s: int): seq<Slice>
    requires forall k :: 0 <= k < |idx| ==> idx[k] < |vars|
  {
    if idx == [] then []
    else
      var prefix := Slices(vars, idx[..|idx| - 1], src, s);
      var start := s + NumelAt(vars, idx[..|idx| - 1]);
      prefix + [Slice(idx[|idx| - 1], src, start, start + vars[idx[|idx| - 1]].numel)]
  }

  /** The checks of the first loop: each input is the output at the same
    * position and a LoD tensor; every GPU input has a non-negative element
    * count and the place and type of the first GPU input, hence of all the others. */
  predicate ComputeAccepted(vars: seq<VarInfo>, outIds: seq<int>)
    requires |outIds| >= |vars|
  {
    (forall i :: 0 <= i < |vars| ==> vars[i].id == outIds[i] && vars[i].isLoDTensor) &&
    (forall i :: 0 <= i < |vars| && vars[i].place.GPUPlace? ==> vars[i].numel >= 0) &&
    (forall i, j :: 0 <= i < |vars| && 0 <= j < |vars| && vars[i].place.GPUPlace? && vars[j].place.GPUPlace? ==>
       vars[i].place == vars[j].place && vars[i].typeHash == vars[j].typeHash)
  }

  /** The bounds Tensor::Slice(begin, end) enforces on a tensor with
    * `rows` rows: 0 <= begin < end <= rows. */
  predicate SliceFits(start: int, end: int, rows: int)
  {
    0 <= start < end <= rows
  }

  /** The rows of the tensor a slice of input `i` is taken from: the
    * input's own tensor, or the fused buffer of dims {total}. */
  function RowsOf(vars: seq<VarInfo>, src: SliceSource, total: int, i: nat): int
    requires i < |vars|
  {
    if src == OwnTensor then vars[i].rows else total
  }

  /** The k-th slice the second loop takes passes Tensor::Slice's check. */
  predicate FitsAt(vars: seq<VarInfo>, idx: seq<nat>, src: SliceSource, total: int, k: nat)
    requires forall j :: 0 <= j < |idx| ==> idx[j] < |vars|
    requires k < |idx|
  {
    SliceFits(NumelAt(vars, idx[..k]), NumelAt(vars, idx[..k]) + vars[idx[k]].numel, RowsOf(vars, src, total, idx[k]))
  }

  /** Every slice the second loop takes passes Tensor::Slice's check. */
  predicate SlicesFit(vars: seq<VarInfo>, idx: seq<nat>, src: SliceSource, total: int)
    requires forall k :: 0 <= k < |idx| ==> idx[k] < |vars|
  {
    forall k :: 0 <= k < |idx| ==> FitsAt(vars, idx, src, total, k)
  }

  /** When the code as written returns normally: the first loop's checks,
    * and the one slice [0, numel) it takes of the first GPU input's own
    * tensor fits, so that input holds at least one element and no more
    * elements than rows (a tensor of more than one dimension has fewer
    * rows than elements unless its other dims are all 1). */
  predicate AsWrittenAccepted(vars: seq<VarInfo>, outIds: seq<int>)
    requires |outIds| >= |vars|
  {
    ComputeAccepted(vars, outIds) &&
    (FirstGpu(vars).Some? ==>
       var g := FirstGpu(vars).value; g < |vars| && SliceFits(0, vars[g].numel, vars[g].rows))
  }

  /** When the intended code returns normally: the first loop's checks, and
    * every slice of the fused buffer is non-empty, that is every GPU input
    * holds at least one element. */
  predicate IntendedAccepted(vars: seq<VarInfo>, outIds: seq<int>)
    requires |outIds| >= |vars|
  {
    ComputeAccepted(vars, outIds) &&
    forall i :: 0 <= i < |vars| && vars[i].place.GPUPlace? ==> vars[i].numel > 0
  }

  /** The first GPU input, if any. */
  function FirstGpu(vars: seq<VarInfo>): Option<nat>
  {
    var gpu := GpuIndices(vars);
    if gpu == [] then None else Some(gpu[0])
  }

  /** The first GPU input is the one with no GPU input before it. */
  lemma FirstGpuIsLeast(vars: seq<VarInfo>, first: Option<nat>)
    requires first.None? ==> forall k :: 0 <= k < |vars| ==> !vars[k].place.GPUPlace?
    requires first.Some? ==> (first.value < |vars| && vars[first.value].place.GPUPlace? &&
      forall k :: 0 <= k < first.value ==> !vars[k].place.GPUPlace?)
    ensures FirstGpu(vars) == first
  {
    GpuIndicesExact(vars);
    var gpu := GpuIndices(vars);
    if first.Some? {
      assert first.value in gpu;
      assert gpu[0] <= first.value;
    }
  }

  /** The first loop, shared by both versions of Compute: the checks, the
    * total of the GPU inputs' element counts and the first GPU input. */
  method ScanInputs(vars: seq<VarInfo>, outIds: seq<int>) returns (r: Result<(int, Option<nat>)>)
    requires |outIds| >= |vars|
    ensures r.Ok? <==> ComputeAccepted(vars, outIds)
    ensures r.Ok? ==> r.value == (NumelAt(vars, GpuIndices(vars)), FirstGpu(vars))
  {
    var total := 0;
    var first: Option<nat> := None;
    var i := 0;
    while i < |vars|
      invariant 0 <= i <= |vars|
      invariant total == GpuTotal(vars, i)
      invariant first.None? ==> forall k :: 0 <= k < i ==> !vars[k].place.GPUPlace?
      invariant first.Some? ==> (first.value < i && vars[first.value].place.GPUPlace? &&
        forall k :: 0 <= k < first.value ==> !vars[k].place.GPUPlace?)
      invariant forall k :: 0 <= k < i ==> vars[k].id == outIds[k] && vars[k].isLoDTensor
      invariant forall k :: 0 <= k < i && vars[k].place.GPUPlace? ==>
        vars[k].numel >= 0 && vars[k].place == vars[first.value].place &&
        vars[k].typeHash == vars[first.value].typeHash
    {
      if vars[i].id != outIds[i] {
        assert !ComputeAccepted(vars, outIds) by { assert vars[i].id != outIds[i]; }
        return Err("the input and output variables differ");
      }
      if !vars[i].isLoDTensor {
        assert !ComputeAccepted(vars, outIds) by { assert !vars[i].isLoDTensor; }
        return Err("only LoDTensor is supported");
      }
      if vars[i].place.GPUPlace? {
        if first.None? {
          first := Some(i);
        } else if vars[i].place != vars[first.value].place || vars[i].typeHash != vars[first.value].typeHash {
          assert !ComputeAccepted(vars, outIds) by { assert vars[first.value].place.GPUPlace?; }
          return Err("all GPU inputs must share place and type");
        }
        if vars[i].numel < 0 {
          assert !ComputeAccepted(vars, outIds) by { assert vars[i].place.GPUPlace?; }
          return Err("the element count should be >= 0");
        }
        total := total + vars[i].numel;
      }
      i := i + 1;
    }
    GpuTotalIsNumelAt(vars, i);
    assert vars[..i] == vars;
    FirstGpuIsLeast(vars, first);
    assert ComputeAccepted(vars, outIds) by {
      forall a, b | 0 <= a < |vars| && 0 <= b < |vars| && vars[a].place.GPUPlace? && vars[b].place.GPUPlace?
        ensures vars[a].place == vars[b].place && vars[a].typeHash == vars[b].typeHash
      {
      }
    }
    return Ok((total, first));
  }

  /** The running total of the first loop: the element counts of the GPU
    * inputs among the first n. */
  function GpuTotal(vars: seq<VarInfo>, n: nat): int
    requires n <= |vars|
  {
    if n == 0 then 0 else GpuTotal(vars, n - 1) + if vars[n - 1].place.GPUPlace? then vars[n - 1].numel else 0
  }

  lemma {:induction false} GpuTotalIsNumelAt(vars: seq<VarInfo>, n: nat)
    requires n <= |vars|
    ensures GpuTotal(vars, n) == NumelAt(vars, GpuIndices(vars[..n]))
  {
    if n > 0 {
      GpuTotalIsNumelAt(vars, n - 1);
      assert vars[..n][..n - 1] == vars[..n - 1];
      var before := GpuIndices(vars[..n - 1]);
      assert (before + [n - 1])[..|before|] == before;
    }
  }

  /** FuseVarsKernel::Compute as written. Two defects: vars_in_gpu receives
    * only the first GPU input (the push_back sits in the `size() == 0`
    * branch), so only that input is re-pointed although the buffer is sized
    * for all of them; and the output shares a slice of its OWN tensor
    * (out_t->Slice), not of the fused buffer, so no output refers to the
    * buffer at all. Slicing [0, numel) of the input's own tensor also fails
    * unless numel lies between 1 and the tensor's rows. */
  method ComputeAsWritten(vars: seq<VarInfo>, outIds: seq<int>) returns (r: Result<Fused>)
    requires |outIds| >= |vars|
    ensures r.Ok? <==> AsWrittenAccepted(vars, outIds)
    ensures r.Ok? ==> r.value == AsWrittenResult(vars)
  {
    var scan := ScanInputs(vars, outIds);
    if scan.Err? {
      return Err(scan.error);
    }
    var (total, first) := scan.value;
    if first.None? {
      return Ok(Fused(None, []));
    }
    // vars_in_gpu as the code builds it
    var varsInGpu: seq<nat> := [first.value];
    var slices := FillSlices(vars, varsInGpu, OwnTensor, total);
    assert SlicesFit(vars, varsInGpu, OwnTensor, total) <==> SliceFits(0, vars[first.value].numel, vars[first.value].rows) by {
      assert varsInGpu[..0] == [];
      assert FitsAt(vars, varsInGpu, OwnTensor, total, 0) <==> SliceFits(0, vars[first.value].numel, vars[first.value].rows);
    }
    if slices.Err? {
      return Err(slices.error);
    }
    return Ok(Fused(Some(total), slices.value));
  }

  /** The result of the code as written. */
  function AsWrittenResult(vars: seq<VarInfo>): Fused
  {
    var gpu := GpuIndices(vars);
    if gpu == [] then Fused(None, [])
    else Fused(Some(NumelAt(vars, gpu)), Slices(vars, [gpu[0]], OwnTensor, 0))
  }

  /** FuseVarsKernel::Compute as evidently intended: every GPU input is
    * recorded, and each output shares its own slice of the fused buffer
    * (fused_t->Slice), which Tensor::Slice refuses for an empty input. */
  method Compute(vars: seq<VarInfo>, outIds: seq<int>) returns (r: Result<Fused>)
    requires |outIds| >= |vars|
    ensures r.Ok? <==> IntendedAccepted(vars, outIds)
    ensures r.Ok? ==> r.value == IntendedResult(vars)
  {
    var scan := ScanInputs(vars, outIds);
    if scan.Err? {
      return Err(scan.error);
    }
    var (total, first) := scan.value;
    if first.None? {
      GpuIndicesExact(vars);
      return Ok(Fused(None, []));
    }
    var slices := FillSlices(vars, GpuIndices(vars), FusedBuffer, total);
    FusedSlicesFit(vars, outIds);
    if slices.Err? {
      return Err(slices.error);
    }
    return Ok(Fused(Some(total), slices.value));
  }

  function IntendedResult(vars: seq<VarInfo>): Fused
  {
    var gpu := GpuIndices(vars);
    if gpu == [] then Fused(None, [])
    else Fused(Some(NumelAt(vars, gpu)), Slices(vars, gpu, FusedBuffer, 0))
  }

  /** The second loop: a running offset s advances by each listed input's
    * element count, and each listed output becomes the slice [s, s + numel)
    * of `src` (of `total` rows when it is the fused buffer); a slice outside
    * Tensor::Slice's bounds fails. */
  method FillSlices(vars: seq<VarInfo>, varsInGpu: seq<nat>, src: SliceSource, total: int)
    returns (r: Result<seq<Slice>>)
    requires forall k :: 0 <= k < |varsInGpu| ==> varsInGpu[k] < |vars|
    ensures r.Ok? <==> SlicesFit(vars, varsInGpu, src, total)
    ensures r.Ok? ==> r.value == Slices(vars, varsInGpu, src, 0)
  {
    var s := 0;
    var slices := [];
    var i := 0;
    while i < |varsInGpu|
      invariant 0 <= i <= |varsInGpu|
      invariant slices == Slices(vars, varsInGpu[..i], src, 0)
      invariant s == NumelAt(vars, varsInGpu[..i])
      invariant forall k :: 0 <= k < i ==> FitsAt(vars, varsInGpu, src, total, k)
    {
      var memSize := vars[varsInGpu[i]].numel;
      var rows := if src == OwnTensor then vars[varsInGpu[i]].rows else total;
      if !(0 <= s < s + memSize <= rows) {
        assert !FitsAt(vars, varsInGpu, src, total, i);
        return Err("the slice is out of the tensor's rows");
      }
      assert FitsAt(vars, varsInGpu, src, total, i);
      assert varsInGpu[..i + 1][..i] == varsInGpu[..i];
      slices := slices + [Slice(varsInGpu[i], src, s, s + memSize)];
      s := s + memSize;
      i := i + 1;
    }
    assert varsInGpu[..i] == varsInGpu;
    return Ok(slices);
  }

  /** A prefix of inputs with non-negative counts sums to no less than zero
    * and, with the next input, to no more than the whole list. */
  lemma {:induction false} PrefixNumel(vars: seq<VarInfo>, idx: seq<nat>, k: nat)
    requires forall j :: 0 <= j < |idx| ==> idx[j] < |vars| && vars[idx[j]].numel >= 0
    requires k < |idx|
    ensures 0 <= NumelAt(vars, idx[..k]) && NumelAt(vars, idx[..k]) + vars[idx[k]].numel <= NumelAt(vars, idx)
    decreases |idx|
  {
    var front := idx[..|idx| - 1];
    if k < |front| {
      PrefixNumel(vars, front, k);
      assert front[..k] == idx[..k];
      assert NumelAt(vars, front) <= NumelAt(vars, idx);
    } else {
      assert idx[..k] == front;
      NonNegNumel(vars, front);
    }
  }

  /** Inputs with non-negative counts have a non-negative sum. */
  lemma {:induction false} NonNegNumel(vars: seq<VarInfo>, idx: seq<nat>)
    requires forall j :: 0 <= j < |idx| ==> idx[j] < |vars| && vars[idx[j]].numel >= 0
    ensures NumelAt(vars, idx) >= 0
    decreases |idx|
  {
    if idx != [] {
      NonNegNumel(vars, idx[..|idx| - 1]);
    }
  }

  /** After the first loop's checks, the slices of the fused buffer all fit
    * exactly when every GPU input holds at least one element. */
  lemma FusedSlicesFit(vars: seq<VarInfo>, outIds: seq<int>)
    requires |outIds| >= |vars| && ComputeAccepted(vars, outIds)
    ensures SlicesFit(vars, GpuIndices(vars), FusedBuffer, NumelAt(vars, GpuIndices(vars))) <==>
      forall i :: 0 <= i < |vars| && vars[i].place.GPUPlace? ==> vars[i].numel > 0
  {
    var gpu := GpuIndices(vars);
    var total := NumelAt(vars, gpu);
    GpuIndicesExact(vars);
    forall k | 0 <= k < |gpu|
      ensures FitsAt(vars, gpu, FusedBuffer, total, k) <==> vars[gpu[k]].numel > 0
    {
      PrefixNumel(vars, gpu, k);
    }
    if SlicesFit(vars, gpu, FusedBuffer, total) {
      forall i | 0 <= i < |vars| && vars[i].place.GPUPlace? ensures vars[i].numel > 0 {
        var k :| 0 <= k < |gpu| && gpu[k] == i;
        assert FitsAt(vars, gpu, FusedBuffer, total, k);
      }
    }
  }

  // ----- what the slices cover -----

  /** Slices of inputs with non-negative counts are contiguous: each starts
    * where the previous one ends, the first at s and the last ends at
    * s plus the total count, and each is as long as its input. */
  lemma {:induction false} SlicesTile(vars: seq<VarInfo>, idx: seq<nat>, src: SliceSource, s: int)
    requires forall k :: 0 <= k < |idx| ==> idx[k] < |vars| && vars[idx[k]].numel >= 0
    ensures var sl := Slices(vars, idx, src, s);
      |sl| == |idx| &&
      (forall k :: 0 <= k < |sl| ==>
         sl[k].index == idx[k] && sl[k].source == src && sl[k].end - sl[k].start == vars[idx[k]].numel) &&
      (|sl| > 0 ==> sl[0].start == s && sl[|sl| - 1].end == s + NumelAt(vars, idx)) &&
      (forall k :: 0 < k < |sl| ==> sl[k].start == sl[k - 1].end)
  {
    if idx != [] {
      SlicesTile(vars, idx[..|idx| - 1], src, s);
    }
  }

  /** With the intended code every GPU input gets a slice of the fused
    * buffer, and the slices tile the buffer [0, total) exactly. */
  lemma IntendedSlicesCoverBuffer(vars: seq<VarInfo>, outIds: seq<int>)
    requires |outIds| >= |vars| && ComputeAccepted(vars, outIds) && |GpuIndices(vars)| > 0
    ensures var f := IntendedResult(vars);
      f.totalNumel.Some? && |f.slices| == |GpuIndices(vars)| &&
      (forall k :: 0 <= k < |f.slices| ==> f.slices[k].source == FusedBuffer) &&
      f.slices[0].start == 0 && f.slices[|f.slices| - 1].end == f.totalNumel.value &&
      (forall k :: 0 < k < |f.slices| ==> f.slices[k].start == f.slices[k - 1].end) &&
      (forall i :: 0 <= i < |vars| && vars[i].place.GPUPlace? ==>
         exists k :: 0 <= k < |f.slices| && f.slices[k].index == i)
  {
    var gpu := GpuIndices(vars);
    GpuIndicesExact(vars);
    SlicesTile(vars, gpu, FusedBuffer, 0);
    var sl := Slices(vars, gpu, FusedBuffer, 0);
    forall i | 0 <= i < |vars| && vars[i].place.GPUPlace?
      ensures exists k :: 0 <= k < |sl| && sl[k].index == i
    {
      var k :| 0 <= k < |gpu| && gpu[k] == i;
      assert sl[k].index == i;
    }
  }

  /** The code as written with two one-dimensional GPU inputs of 2 and 3
    * elements: both versions accept them and the buffer holds 5 elements,
    * but only the first input is re-pointed, and at the rows [0, 2) of its
    * own tensor, that is at itself; the second input keeps its own memory
    * and nothing refers to the buffer. */
  lemma AsWrittenSlicesOnlyFirstGpuVar()
    ensures var vars := [VarInfo(1, true, GPUPlace(0), 9, 2, 2), VarInfo(2, true, GPUPlace(0), 9, 3, 3)];
      AsWrittenAccepted(vars, [1, 2]) && IntendedAccepted(vars, [1, 2]) &&
      AsWrittenResult(vars) == Fused(Some(5), [Slice(0, OwnTensor, 0, 2)]) &&
      IntendedResult(vars) == Fused(Some(5), [Slice(0, FusedBuffer, 0, 2), Slice(1, FusedBuffer, 2, 5)])
  {
    var vars := [VarInfo(1, true, GPUPlace(0), 9, 2, 2), VarInfo(2, true, GPUPlace(0), 9, 3, 3)];
    assert vars[..1] == [vars[0]];
    assert [vars[0]][..0] == [];
    assert GpuIndices([vars[0]]) == [0];
    assert GpuIndices(vars) == [0, 1];
    assert [0][..0] == [] && [0, 1][..1] == [0];
    assert NumelAt(vars, [0]) == 2;
    assert NumelAt(vars, [0, 1]) == 5;
    assert Slices(vars, [0], OwnTensor, 0) == [Slice(0, OwnTensor, 0, 2)];
    assert Slices(vars, [0], FusedBuffer, 0) == [Slice(0, FusedBuffer, 0, 2)];
  }

  /** In general, as written: once some input is on the GPU, the code
    * returns normally exactly when the first GPU input holds between 1 and
    * rows elements; then the one output re-pointed is that input,
    * re-pointed at the whole of its own tensor ([0, numel)), so no output
    * shares the fused buffer; and once two GPU inputs hold data beyond the
    * first, the single slice also ends before the end of the buffer. */
  lemma AsWrittenLeavesBufferUnused(vars: seq<VarInfo>, outIds: seq<int>)
    requires |outIds| >= |vars| && ComputeAccepted(vars, outIds) && |GpuIndices(vars)| >= 1
    ensures var g := GpuIndices(vars)[0];
      AsWrittenAccepted(vars, outIds) <==> 0 < vars[g].numel <= vars[g].rows
    ensures var f := AsWrittenResult(vars); var g := GpuIndices(vars)[0];
      AsWrittenAccepted(vars, outIds) ==>
      f.totalNumel.Some? && f.slices == [Slice(g, OwnTensor, 0, vars[g].numel)] &&
      (forall k :: 0 <= k < |f.slices| ==> f.slices[k].source != FusedBuffer) &&
      (|GpuIndices(vars)| >= 2 && NumelAt(vars, GpuIndices(vars)) > vars[g].numel ==>
         (|f.slices| < |GpuIndices(vars)| && f.slices[0].end < f.totalNumel.value))
  {
    var gpu := GpuIndices(vars);
    assert [gpu[0]][..0] == [];
    assert NumelAt(vars, [gpu[0]]) == vars[gpu[0]].numel;
    assert Slices(vars, [gpu[0]], OwnTensor, 0) == [Slice(gpu[0], OwnTensor, 0, vars[gpu[0]].numel)];
  }
}
