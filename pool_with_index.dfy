/** pool_with_index_op.cc: the output-size formula of max pooling with index
  * and the shape inference of the forward operator. Sizes are C++ `int`s and
  * the division truncates toward zero. */
module PoolWithIndex {
  import opened Wrappers

  /** C++ integer division: the quotient is truncated toward zero. */
  function TruncDiv(a: int, b: int): (q: int)
    requires b != 0
    ensures a >= 0 && b > 0 ==> q == a / b
    ensures b > 0 && a >= 0 ==> 0 <= a - q * b < b
    ensures b > 0 && a < 0 ==> -b < a - q * b <= 0
  {
    if (a >= 0) == (b > 0) then (if a >= 0 then a / b else (-a) / (-b))
    else -((if a >= 0 then a else -a) / (if b > 0 then b else -b))
  }

  /** OutputSizeMaxPool: (input - filter + 2 * padding) / stride + 1. */
  function OutputSizeMaxPool(inputSize: int, filterSize: int, padding: int, stride: int): int
    requires stride != 0
  {
    TruncDiv(inputSize - filterSize + 2 * padding, stride) + 1
  }

  /** When the padded input holds at least one window and the stride is
    * positive, the output size is the number of window positions: the last
    * window fits and one more stride would not. */
  lemma OutputSizeCountsWindows(inputSize: int, filterSize: int, padding: int, stride: int)
    requires stride > 0 && inputSize + 2 * padding >= filterSize
    ensures var n := OutputSizeMaxPool(inputSize, filterSize, padding, stride);
      n >= 1 &&
      (n - 1) * stride + filterSize <= inputSize + 2 * padding < n * stride + filterSize
  {
    var a := inputSize - filterSize + 2 * padding;
    var q := a / stride;
    assert a == q * stride + a % stride;
    assert (q + 1) * stride == q * stride + stride;
  }

  /** Truncation rounds a negative quotient up: a padded input smaller than
    * the window by less than a stride still yields one output position. */
  lemma OutputSizeOfTooSmallInput()
    ensures OutputSizeMaxPool(1, 3, 0, 3) == 1
  {
  }

  /** MaxPoolWithIndexOp::InferShape. The input must be 4-D or 5-D; global
    * pooling replaces ksize by the input's spatial dims; ksize must cover
    * exactly the spatial dims, have 2 or 3 entries, and strides and paddings
    * must be as long. The result is the shape of both Out and Mask:
    * [N, C, out_1, ...]. */
  method InferShape(hasX: bool, hasOut: bool, hasMask: bool, xDims: seq<int>,
                    ksizeAttr: seq<int>, strides: seq<int>, paddings: seq<int>, globalPooling: bool)
    returns (r: Result<seq<int>>)
    requires forall i :: 0 <= i < |strides| ==> strides[i] != 0
    ensures var ksize := if globalPooling && |xDims| >= 2 then xDims[2..] else ksizeAttr;
      (r.Ok? <==> hasX && hasOut && hasMask && (|xDims| == 4 || |xDims| == 5) &&
                  |xDims| - |ksize| == 2 && |strides| == |ksize| && |paddings| == |ksize|) &&
      (r.Ok? ==> |r.value| == |xDims| && r.value[..2] == xDims[..2] &&
                 forall i :: 0 <= i < |ksize| ==>
                   r.value[i + 2] == OutputSizeMaxPool(xDims[i + 2], ksize[i], paddings[i], strides[i]))
  {
    if !hasX {
      return Err("X(Input) of Pooling should not be null.");
    }
    if !hasOut || !hasMask {
      return Err("Out(Output) of Pooling should not be null.");
    }
    if !(|xDims| == 4 || |xDims| == 5) {
      return Err("Pooling intput should be 4-D or 5-D");
    }
    var ksize := ksizeAttr;
    if globalPooling {
      ksize := SpatialDims(xDims);
    }
    if |xDims| - |ksize| != 2 {
      return Err("Pooling intput size and pooling size should be consistent");
    }
    if !(|ksize| == 2 || |ksize| == 3) {
      return Err("Pooling size size should be 2 elements. or 3 elements.");
    }
    if |ksize| != |strides| {
      return Err("strides size and pooling size should be the same.");
    }
    if |ksize| != |paddings| {
      return Err("paddings size and pooling size should be the same.");
    }
    var outputShape := OutputShape(xDims, ksize, strides, paddings);
    return Ok(outputShape);
  }

  /** The loop global pooling uses to take ksize from the input's spatial dims. */
  method SpatialDims(xDims: seq<int>) returns (ksize: seq<int>)
    requires |xDims| >= 2
    ensures ksize == xDims[2..]
  {
    ksize := [];
    var i := 0;
    while i < |xDims| - 2
      invariant 0 <= i <= |xDims| - 2
      invariant ksize == xDims[2..i + 2]
    {
      ksize := ksize + [xDims[i + 2]];
      i := i + 1;
    }
  }

  /** The loop building [N, C, out_1, ...]. */
  method OutputShape(xDims: seq<int>, ksize: seq<int>, strides: seq<int>, paddings: seq<int>) returns (outputShape: seq<int>)
    requires |xDims| == |ksize| + 2 && |strides| == |ksize| && |paddings| == |ksize|
    requires forall i :: 0 <= i < |strides| ==> strides[i] != 0
    ensures |outputShape| == |xDims| && outputShape[..2] == xDims[..2]
    ensures forall k :: 0 <= k < |ksize| ==>
      outputShape[k + 2] == OutputSizeMaxPool(xDims[k + 2], ksize[k], paddings[k], strides[k])
  {
    outputShape := [xDims[0], xDims[1]];
    var i := 0;
    while i < |ksize|
      invariant 0 <= i <= |ksize|
      invariant |outputShape| == i + 2 && outputShape[..2] == xDims[..2]
      invariant forall k :: 0 <= k < i ==>
        outputShape[k + 2] == OutputSizeMaxPool(xDims[k + 2], ksize[k], paddings[k], strides[k])
    {
      outputShape := outputShape + [OutputSizeMaxPool(xDims[i + 2], ksize[i], paddings[i], strides[i])];
      i := i + 1;
    }
  }
}
