/** sequence_expand_as_op.h: the CPU sequence_expand_as functor, its
  * gradient and the kernel's LoD checks. Tensors are row-major
  * [rows, width]; the flat element row * width + col is modelled as the
  * element [row, col] of a two-dimensional array. The reference LoD `lod`
  * is a list of row offsets: segment h covers output rows lod[h] .. lod[h+1]-1. */
module SequenceExpandAs {
  import opened Wrappers

  /** The rows of a two-dimensional array, as values. */
  function RowsOf(a: array2<real>): (r: seq<seq<real>>)
    reads a
    ensures |r| == a.Length0
    ensures forall i :: 0 <= i < a.Length0 ==> |r[i]| == a.Length1
    ensures forall i, j :: 0 <= i < a.Length0 && 0 <= j < a.Length1 ==> r[i][j] == a[i, j]
  {
    seq(a.Length0, i requires 0 <= i < a.Length0 reads a => seq(a.Length1, j requires 0 <= j < a.Length1 reads a => a[i, j]))
  }

  /** LoD offsets are size_t positions that never decrease. */
  predicate Monotone(lod: seq<int>)
  {
    (forall i :: 0 <= i < |lod| ==> lod[i] >= 0) &&
    (forall i, j :: 0 <= i <= j < |lod| ==> lod[i] <= lod[j])
  }

  /** The segment among the first n that holds row r, if any. */
  function SegmentOf(lod: seq<int>, n: nat, r: int): (s: Option<nat>)
    requires n < |lod|
    ensures s.Some? ==> s.value < n && lod[s.value] <= r < lod[s.value + 1]
  {
    if n == 0 then None
    else if lod[n - 1] <= r < lod[n] then Some(n - 1)
    else SegmentOf(lod, n - 1, r)
  }

  /** Under monotone offsets, a row at or after lod[n] is in none of the first n segments. */
  lemma {:induction false} NoEarlierSegment(lod: seq<int>, n: nat, r: int)
    requires Monotone(lod) && n < |lod| && r >= lod[n]
    ensures SegmentOf(lod, n, r) == None
  {
    if n > 0 {
      NoEarlierSegment(lod, n - 1, r);
    }
  }

  /** A row inside segment h is found there by any search that covers h. */
  lemma {:induction false} SegmentOfIsUnique(lod: seq<int>, n: nat, h: nat, r: int)
    requires Monotone(lod) && h < n < |lod| && lod[h] <= r < lod[h + 1]
    ensures SegmentOf(lod, n, r) == Some(h)
  {
    if n - 1 == h {
      NoEarlierSegment(lod, h, r);
    } else {
      SegmentOfIsUnique(lod, n - 1, h, r);
    }
  }

  /** What the forward functor adds to output element [r, c] after the
    * first n segments: row SegmentOf(r) of X, or nothing. */
  function Gain(xs: seq<seq<real>>, lod: seq<int>, n: nat, r: int, c: int): real
    requires n < |lod| && n <= |xs|
  {
    match SegmentOf(lod, n, r)
    case None => 0.0
    case Some(h) => if 0 <= c < |xs[h]| then xs[h][c] else 0.0
  }

  /** SequenceExpandFunctor on the CPU: for each input row h with a non-empty
    * span, every output row in segment h gets row h of X added (`+=`) at
    * every column. Output rows outside all segments keep their values. */
  method Expand(out: array2<real>, x: array2<real>, lod: seq<int>)
    requires out != x
    requires Monotone(lod) && x.Length0 < |lod|
    requires lod[x.Length0] <= out.Length0 && x.Length1 == out.Length1
    modifies out
    ensures forall r, c :: 0 <= r < out.Length0 && 0 <= c < out.Length1 ==>
      out[r, c] == old(out[r, c]) + Gain(RowsOf(x), lod, x.Length0, r, c)
  {
    ghost var xs := RowsOf(x);
    var height := x.Length0;
    var h := 0;
    while h < height
      invariant 0 <= h <= height
      invariant forall r, c :: 0 <= r < out.Length0 && 0 <= c < out.Length1 ==>
        out[r, c] == old(out[r, c]) + Gain(xs, lod, h, r, c)
    {
      var span := lod[h + 1] - lod[h];
      if span != 0 {
        AddRowToSegment(out, x, h, lod[h], lod[h + 1]);
      }
      forall r, c | 0 <= r < out.Length0 && 0 <= c < out.Length1
        ensures Gain(xs, lod, h + 1, r, c) == Gain(xs, lod, h, r, c) + (if lod[h] <= r < lod[h + 1] then xs[h][c] else 0.0)
      {
        GainStep(xs, lod, h, r, c);
      }
      h := h + 1;
    }
  }

  /** One more segment adds its row of X to the rows it covers. */
  lemma GainStep(xs: seq<seq<real>>, lod: seq<int>, h: nat, r: int, c: int)
    requires Monotone(lod) && h + 1 < |lod| && h < |xs| && 0 <= c < |xs[h]|
    ensures Gain(xs, lod, h + 1, r, c) == Gain(xs, lod, h, r, c) + (if lod[h] <= r < lod[h + 1] then xs[h][c] else 0.0)
  {
    if lod[h] <= r < lod[h + 1] {
      NoEarlierSegment(lod, h, r);
    }
  }

  /** The loops over the columns and the span of one input row h: every
    * output row lo .. hi-1 gets row h of X added. */
  method AddRowToSegment(out: array2<real>, x: array2<real>, h: nat, lo: nat, hi: nat)
    requires out != x && h < x.Length0 && lo <= hi <= out.Length0 && x.Length1 == out.Length1
    modifies out
    ensures forall r, c :: 0 <= r < out.Length0 && 0 <= c < out.Length1 ==>
      out[r, c] == old(out[r, c]) + (if lo <= r < hi then x[h, c] else 0.0)
  {
    var w := 0;
    while w < x.Length1
      invariant 0 <= w <= x.Length1
      invariant forall r, c :: 0 <= r < out.Length0 && 0 <= c < out.Length1 ==>
        out[r, c] == old(out[r, c]) + (if lo <= r < hi && c < w then x[h, c] else 0.0)
    {
      AddToColumn(out, x[h, w], w, lo, hi);
      w := w + 1;
    }
  }

  /** The innermost loop: `ele` is added to column w of rows lo .. hi-1. */
  method AddToColumn(out: array2<real>, ele: real, w: nat, lo: nat, hi: nat)
    requires w < out.Length1 && lo <= hi <= out.Length0
    modifies out
    ensures forall r, c :: 0 <= r < out.Length0 && 0 <= c < out.Length1 ==>
      out[r, c] == old(out[r, c]) + (if lo <= r < hi && c == w then ele else 0.0)
  {
    var k := 0;
    while k < hi - lo
      invariant 0 <= k <= hi - lo
      invariant forall r, c :: 0 <= r < out.Length0 && 0 <= c < out.Length1 ==>
        out[r, c] == old(out[r, c]) + (if lo <= r < lo + k && c == w then ele else 0.0)
    {
      out[lo + k, w] := out[lo + k, w] + ele;
      k := k + 1;
    }
  }

  /** SequenceExpandAsKernel's LoD checks: Y has exactly one LoD level, and
    * that level holds at least two offsets. */
  function CheckLoD(yLod: seq<seq<int>>): (r: Outcome)
    ensures r.Pass? <==> |yLod| == 1 && |yLod[0]| >= 2
  {
    if |yLod| != 1 then Fail("LoD of Y should be 1.")
    else if |yLod[0]| <= 1 then Fail(".")
    else Pass
  }

  /** SequenceExpandAsKernel::Compute: the LoD checks, then the functor over
    * Y's only level. */
  method Compute(out: array2<real>, x: array2<real>, yLod: seq<seq<int>>) returns (r: Outcome)
    requires out != x
    requires CheckLoD(yLod).Pass? ==>
      Monotone(yLod[0]) && x.Length0 < |yLod[0]| &&
      yLod[0][x.Length0] <= out.Length0 && x.Length1 == out.Length1
    modifies out
    ensures r == CheckLoD(yLod)
    ensures r.Fail? ==> forall i, j :: 0 <= i < out.Length0 && 0 <= j < out.Length1 ==> out[i, j] == old(out[i, j])
    ensures r.Pass? ==> forall i, j :: 0 <= i < out.Length0 && 0 <= j < out.Length1 ==>
      out[i, j] == old(out[i, j]) + Gain(RowsOf(x), yLod[0], x.Length0, i, j)
  {
    r := CheckLoD(yLod);
    if r.Pass? {
      Expand(out, x, yLod[0]);
    }
  }

  // ----- the gradient -----

  /** ColwiseSum over `count` rows of `rows` starting at `start`, at column c. */
  function ColumnSum(rows: seq<seq<real>>, start: int, count: nat, c: int): real
    requires 0 <= start && start + count <= |rows| && 0 <= c
    requires forall i :: 0 <= i < |rows| ==> c < |rows[i]|
  {
    if count == 0 then 0.0
    else ColumnSum(rows, start, count - 1, c) + rows[start + count - 1][c]
  }

  /** SequenceExpandAsGradFunctor on the CPU: row i-1 of dX is the column sum
    * of the repeat_num = lod[i] - lod[i-1] rows of dOut that start at a running
    * offset, which advances by repeat_num; segments with no repeats leave
    * their dX row as it was. */
  method ExpandGrad(dx: array2<real>, dout: array2<real>, lod: seq<int>)
    requires dx != dout
    requires Monotone(lod) && |lod| >= 1 && |lod| - 1 <= dx.Length0
    requires lod[|lod| - 1] - lod[0] <= dout.Length0 && dx.Length1 == dout.Length1
    modifies dx
    ensures forall h, c :: 0 <= h < |lod| - 1 && 0 <= c < dx.Length1 ==>
      dx[h, c] == if lod[h + 1] - lod[h] > 0
                  then ColumnSum(RowsOf(dout), lod[h] - lod[0], lod[h + 1] - lod[h], c)
                  else old(dx[h, c])
    ensures forall h, c :: |lod| - 1 <= h < dx.Length0 && 0 <= c < dx.Length1 ==> dx[h, c] == old(dx[h, c])
  {
    var ds := RowsOf(dout);
    var doutOffset := 0;
    var i := 1;
    while i < |lod|
      invariant 1 <= i <= |lod|
      invariant doutOffset == lod[i - 1] - lod[0]
      invariant forall h, c :: 0 <= h < i - 1 && 0 <= c < dx.Length1 ==>
        dx[h, c] == if lod[h + 1] - lod[h] > 0
                    then ColumnSum(ds, lod[h] - lod[0], lod[h + 1] - lod[h], c)
                    else old(dx[h, c])
      invariant forall h, c :: i - 1 <= h < dx.Length0 && 0 <= c < dx.Length1 ==> dx[h, c] == old(dx[h, c])
    {
      var repeatNum := lod[i] - lod[i - 1];
      if repeatNum > 0 {
        WriteGradRow(dx, ds, i - 1, doutOffset, repeatNum);
        doutOffset := doutOffset + repeatNum;
      }
      i := i + 1;
    }
  }

  /** The loop over the columns of dX row `row`: each is the column sum of
    * `count` rows of dOut from `start`. */
  method WriteGradRow(dx: array2<real>, ds: seq<seq<real>>, row: nat, start: nat, count: nat)
    requires row < dx.Length0 && start + count <= |ds|
    requires forall i :: 0 <= i < |ds| ==> |ds[i]| == dx.Length1
    modifies dx
    ensures forall h, c :: 0 <= h < dx.Length0 && 0 <= c < dx.Length1 ==>
      dx[h, c] == if h == row then ColumnSum(ds, start, count, c) else old(dx[h, c])
  {
    var c := 0;
    while c < dx.Length1
      invariant 0 <= c <= dx.Length1
      invariant forall h, cc :: 0 <= h < dx.Length0 && 0 <= cc < dx.Length1 ==>
        dx[h, cc] == if h == row && cc < c then ColumnSum(ds, start, count, cc) else old(dx[h, cc])
    {
      dx[row, c] := ColumnSum(ds, start, count, c);
      c := c + 1;
    }
  }

  // ----- forward and gradient together -----

  /** k copies of v added up: k * v. */
  function Repeated(k: nat, v: real): (r: real)
    ensures r == k as real * v
  {
    if k == 0 then 0.0 else Repeated(k - 1, v) + v
  }

  /** The column sum of k rows that all hold v at column c is k * v. */
  lemma {:induction false} ColumnSumOfEqualRows(e: seq<seq<real>>, start: nat, k: nat, c: nat, v: real)
    requires start + k <= |e| && forall r :: 0 <= r < |e| ==> c < |e[r]|
    requires forall r :: start <= r < start + k ==> e[r][c] == v
    ensures ColumnSum(e, start, k, c) == Repeated(k, v)
  {
    if k > 0 {
      ColumnSumOfEqualRows(e, start, k - 1, c, v);
    }
  }

  /** Inside segment h, the forward functor adds row h of X. */
  lemma GainInSegment(xs: seq<seq<real>>, lod: seq<int>, h: nat, r: int, c: nat)
    requires |xs| < |lod| && Monotone(lod) && h < |xs| && c < |xs[h]|
    requires lod[h] <= r < lod[h + 1]
    ensures Gain(xs, lod, |xs|, r, c) == xs[h][c]
  {
    SegmentOfIsUnique(lod, |xs|, h, r);
  }

  /** The forward functor's output, `n` rows of `width` columns, when it
    * starts from zeros. */
  function Expanded(xs: seq<seq<real>>, lod: seq<int>, n: nat, width: nat): (e: seq<seq<real>>)
    requires |xs| < |lod|
    ensures |e| == n && forall r :: 0 <= r < n ==> |e[r]| == width
  {
    seq(n, r requires 0 <= r < n => seq(width, c requires 0 <= c < width => Gain(xs, lod, |xs|, r, c)))
  }

  /** Inside segment h, the forward output from zeros holds row h of X. */
  lemma ExpandedInSegment(xs: seq<seq<real>>, lod: seq<int>, n: nat, width: nat, h: nat, r: nat, c: nat)
    requires Monotone(lod) && |xs| < |lod| && h < |xs| && c < width && |xs[h]| == width
    requires lod[h] <= r < lod[h + 1] && r < n
    ensures Expanded(xs, lod, n, width)[r][c] == xs[h][c]
  {
    GainInSegment(xs, lod, h, r, c);
  }

  /** The gradient functor applied to what the forward functor wrote from
    * zeros gives back row h of X, column c, times segment h's repeat count. */
  lemma GradOfExpand(xs: seq<seq<real>>, lod: seq<int>, n: nat, width: nat, h: nat, c: nat)
    requires Monotone(lod) && |xs| < |lod| && lod[0] == 0 && lod[|xs|] <= n
    requires forall i :: 0 <= i < |xs| ==> |xs[i]| == width
    requires h < |xs| && c < width
    ensures ColumnSum(Expanded(xs, lod, n, width), lod[h], lod[h + 1] - lod[h], c) == Repeated(lod[h + 1] - lod[h], xs[h][c])
  {
    var e := Expanded(xs, lod, n, width);
    assert 0 <= lod[h] <= lod[h + 1] <= lod[|xs|];
    forall r | lod[h] <= r < lod[h + 1]
      ensures e[r][c] == xs[h][c]
    {
      ExpandedInSegment(xs, lod, n, width, h, r, c);
    }
    ColumnSumOfEqualRows(e, lod[h], lod[h + 1] - lod[h], c, xs[h][c]);
  }

  /** The worked example of the gradient: for LoD [0, 3, 6] and dOut
    * [0.1, 0.2, 0.3, 0.4, 0.5, 0.6], dX is [0.6, 1.5]. */
  lemma GradExample()
    ensures var d := [[0.1], [0.2], [0.3], [0.4], [0.5], [0.6]];
      ColumnSum(d, 0, 3, 0) == 0.6 && ColumnSum(d, 3, 3, 0) == 1.5
  {
    var d := [[0.1], [0.2], [0.3], [0.4], [0.5], [0.6]];
    assert ColumnSum(d, 0, 1, 0) == 0.1;
    assert ColumnSum(d, 3, 1, 0) == 0.4;
  }
}
