/** elementwise_add_op.h: the CPU loops of the element-wise add operator and
  * the kernel's choice between them. Y is broadcast over X: X is viewed as
  * [pre, n, post], Y as [n], and element i of X meets element
  * (i mod (n * post)) / post of Y. */
module ElementwiseAdd {
  import opened Wrappers
  import opened Functors

  // ----- index arithmetic -----

  lemma {:induction false} MulAtLeast(d: int, m: int)
    requires d >= 1 && m > 0
    ensures d * m >= m
  {
    if d > 1 {
      MulAtLeast(d - 1, m);
      assert d * m == (d - 1) * m + m;
    }
  }

  lemma MulLe(a: int, b: int, m: int)
    requires a <= b && m > 0
    ensures a * m <= b * m
  {
    if a < b {
      MulAtLeast(b - a, m);
      assert b * m - a * m == (b - a) * m;
    }
  }

  /** Euclidean division is unique: any q, r with i == q * m + r and
    * 0 <= r < m are i / m and i % m. */
  lemma DivModUnique(i: int, m: int, q: int, r: int)
    requires m > 0 && 0 <= r < m && i == q * m + r
    ensures i / m == q && i % m == r
  {
    var d := q - i / m;
    assert i == (i / m) * m + i % m;
    assert d * m == q * m - (i / m) * m;
    assert d * m == i % m - r;
    if d > 0 {
      MulAtLeast(d, m);
    } else if d < 0 {
      MulAtLeast(-d, m);
    }
  }

  /** Counting modulo m one step further. */
  lemma ModSucc(i: nat, m: nat)
    requires m > 0
    ensures (i + 1) % m == if i % m == m - 1 then 0 else i % m + 1
  {
    assert i == (i / m) * m + i % m;
    if i % m == m - 1 {
      DivModUnique(i + 1, m, i / m + 1, 0);
    } else {
      DivModUnique(i + 1, m, i / m, i % m + 1);
    }
  }

  /** One step of a wrap-around counter j that runs alongside i: j lies in
    * [0, m] and agrees with i modulo m; after wrapping m to 0 it is i mod m,
    * and one more than that agrees with i + 1. */
  lemma CounterStep(i: nat, j: nat, m: nat)
    requires m > 0 && j <= m && j % m == i % m
    ensures var j0 := if j == m then 0 else j;
      j0 == i % m && j0 + 1 <= m && (j0 + 1) % m == (i + 1) % m
  {
    DivModUnique(m, m, 1, 0);
    if j < m {
      DivModUnique(j, m, 0, j);
    }
    var j0 := if j == m then 0 else j;
    ModSucc(i, m);
    if j0 + 1 < m {
      DivModUnique(j0 + 1, m, 0, j0 + 1);
    }
  }

  /** Below n * post, dividing by post stays below n; at n * post it is n. */
  lemma DivBelow(j: nat, n: nat, post: nat)
    requires post > 0 && j <= n * post
    ensures j < n * post ==> j / post < n
    ensures j == n * post ==> j / post == n
  {
    if j == n * post {
      DivModUnique(j, post, n, 0);
    }
  }

  /** The element of Y that Add_RowWise pairs with element i of X. */
  function RowWiseIndex(i: nat, n: nat): (r: nat)
    requires n > 0
    ensures r < n
  {
    i % n
  }

  /** The element of Y that Add_MidWise pairs with element i of X. */
  function MidWiseIndex(i: nat, n: nat, post: nat): (r: nat)
    requires n > 0 && post > 0
    ensures r < n
  {
    DivBelow(i % (n * post), n, post);
    (i % (n * post)) / post
  }

  /** The position of coordinate (a, b, c) in a row-major [pre, n, post] array. */
  function Flat(a: nat, b: nat, c: nat, n: nat, post: nat): nat
  {
    (a * n + b) * post + c
  }

  /** The broadcast meaning of the mid-wise index: the element at coordinate
    * (a, b, c) of X viewed as [pre, n, post] meets Y[b]. */
  lemma MidWiseIndexIsMiddleCoordinate(a: nat, b: nat, c: nat, n: nat, post: nat)
    requires b < n && c < post
    ensures MidWiseIndex(Flat(a, b, c, n, post), n, post) == b
  {
    var np := n * post;
    var r := b * post + c;
    FlatSplit(a, b, c, n, post);
    MulLe(b + 1, n, post);
    assert (b + 1) * post == b * post + post;
    DivModUnique(Flat(a, b, c, n, post), np, a, r);
    DivModUnique(r, post, b, c);
  }

  lemma FlatSplit(a: nat, b: nat, c: nat, n: nat, post: nat)
    ensures Flat(a, b, c, n, post) == a * (n * post) + (b * post + c)
  {
    assert (a * n + b) * post == (a * n) * post + b * post;
    assert (a * n) * post == a * (n * post);
  }

  /** With post == 1 the mid-wise pairing is the row-wise one, and the
    * row-wise element at coordinate (a, b) of X viewed as [pre, n] meets Y[b]. */
  lemma {:induction false} RowWiseIsMidWiseWithPostOne(a: nat, b: nat, n: nat)
    requires b < n
    ensures RowWiseIndex(a * n + b, n) == b
    ensures forall i: nat :: MidWiseIndex(i, n, 1) == RowWiseIndex(i, n)
  {
    DivModUnique(a * n + b, n, a, b);
    forall i: nat
      ensures MidWiseIndex(i, n, 1) == RowWiseIndex(i, n)
    {
      DivModUnique(i % n, 1, i % n, 0);
    }
  }

  // ----- the three loops -----

  /** Add_same: z[i] = x[i] + y[i] for every i < num; the rest of z is untouched. */
  method AddSame(z: array<real>, x: array<real>, y: array<real>, num: nat)
    requires num <= z.Length && num <= x.Length && num <= y.Length
    requires z != x && z != y
    modifies z
    ensures forall i :: 0 <= i < num ==> z[i] == Add(x[i], y[i])
    ensures z[num..] == old(z[num..])
  {
    var i := 0;
    while i < num
      invariant 0 <= i <= num
      invariant forall k :: 0 <= k < i ==> z[k] == Add(x[k], y[k])
      invariant z[num..] == old(z[num..])
    {
      z[i] := x[i] + y[i];
      i := i + 1;
    }
  }

  /** Add_RowWise: a counter j runs alongside i and wraps to 0 when it
    * reaches yNum, so z[i] = x[i] + y[i mod yNum]. */
  method AddRowWise(z: array<real>, x: array<real>, y: array<real>, xNum: nat, yNum: nat)
    requires xNum <= z.Length && xNum <= x.Length && yNum <= y.Length
    requires xNum > 0 ==> yNum > 0
    requires z != x && z != y
    modifies z
    ensures forall i :: 0 <= i < xNum ==> z[i] == Add(x[i], y[RowWiseIndex(i, yNum)])
    ensures z[xNum..] == old(z[xNum..])
  {
    var i, j := 0, 0;
    while i < xNum
      invariant 0 <= i <= xNum
      invariant xNum > 0 ==> 0 <= j <= yNum && j % yNum == i % yNum
      invariant forall k :: 0 <= k < i ==> z[k] == Add(x[k], y[RowWiseIndex(k, yNum)])
      invariant z[xNum..] == old(z[xNum..])
    {
      CounterStep(i, j, yNum);
      if j == yNum {
        j := 0;
      }
      z[i] := x[i] + y[j];
      i, j := i + 1, j + 1;
    }
  }

  /** Add_MidWise: j counts up to yNum * post and wraps; y_i = j / post, so
    * z[i] = x[i] + y[(i mod (yNum * post)) / post]. */
  method AddMidWise(z: array<real>, x: array<real>, y: array<real>, xNum: nat, yNum: nat, post: nat)
    requires xNum <= z.Length && xNum <= x.Length && yNum <= y.Length
    requires xNum > 0 ==> yNum > 0 && post > 0
    requires z != x && z != y
    modifies z
    ensures forall i :: 0 <= i < xNum ==> z[i] == Add(x[i], y[MidWiseIndex(i, yNum, post)])
    ensures z[xNum..] == old(z[xNum..])
  {
    var i, j := 0, 0;
    ghost var m := yNum * post;
    while i < xNum
      invariant 0 <= i <= xNum
      invariant xNum > 0 ==> m > 0 && 0 <= j <= m && j % m == i % m
      invariant forall k :: 0 <= k < i ==> z[k] == Add(x[k], y[MidWiseIndex(k, yNum, post)])
      invariant z[xNum..] == old(z[xNum..])
    {
      CounterStep(i, j, m);
      DivBelow(j, yNum, post);
      var yi := j / post;
      if yi == yNum {
        j := 0;
        yi := 0;
      }
      z[i] := x[i] + y[yi];
      i, j := i + 1, j + 1;
    }
  }

  // ----- the kernel -----

  /** The number of elements of a tensor with the given dims. */
  function Product(dims: seq<int>): int
  {
    if dims == [] then 1 else dims[0] * Product(dims[1..])
  }

  lemma {:induction false} ProductSplit(a: seq<int>, b: seq<int>)
    ensures Product(a + b) == Product(a) * Product(b)
  {
    if a == [] {
      assert a + b == b;
    } else {
      assert (a + b)[1..] == a[1..] + b;
      ProductSplit(a[1..], b);
    }
  }

  lemma {:induction false} ProductNonNegative(dims: seq<int>)
    requires forall k :: 0 <= k < |dims| ==> dims[k] >= 0
    ensures Product(dims) >= 0
  {
    if dims != [] {
      ProductNonNegative(dims[1..]);
    }
  }

  /** Which loop the kernel runs and on how many elements. */
  datatype Plan = Same(num: int) | RowWise(xNum: int, n: int) | MidWise(xNum: int, n: int, post: int)

  /** get_mid_dims: pre, n and post for Y aligned with X at `axis`; Y's
    * dims must equal X's dims from `axis` on. */
  function MidDims(xDims: seq<int>, yDims: seq<int>, axis: int): (r: Result<(int, int, int)>)
    requires 0 <= axis < |xDims|
    ensures r.Ok? <==> axis + |yDims| <= |xDims| && xDims[axis..axis + |yDims|] == yDims
    ensures r.Ok? ==> r.value == (Product(xDims[..axis]), Product(yDims), Product(xDims[axis + |yDims|..]))
  {
    if axis + |yDims| > |xDims| || xDims[axis..axis + |yDims|] != yDims then Err("Broadcast dimension mismatch.")
    else Ok((Product(xDims[..axis]), Product(yDims), Product(xDims[axis + |yDims|..])))
  }

  /** The axis the kernel uses: -1 means "align Y with X's trailing dims". */
  function EffectiveAxis(xDims: seq<int>, yDims: seq<int>, axis: int): int
  {
    if axis == -1 then |xDims| - |yDims| else axis
  }

  /** ElementwiseAddKernel::Compute, the choice of loop: rank(X) >= rank(Y)
    * is enforced, equal dims add element by element, otherwise the axis is
    * checked and post == 1 selects the row-wise loop. */
  function KernelPlan(xDims: seq<int>, yDims: seq<int>, axis: int): (r: Result<Plan>)
    ensures |xDims| < |yDims| ==> r.Err?
    ensures |xDims| >= |yDims| && xDims == yDims ==> r == Ok(Same(Product(xDims)))
    ensures r.Ok? && xDims != yDims ==>
      var a := EffectiveAxis(xDims, yDims, axis);
      0 <= a < |xDims| && MidDims(xDims, yDims, a).Ok? &&
      var (pre, n, post) := MidDims(xDims, yDims, a).value;
      r.value == (if post == 1 then RowWise(Product(xDims), n) else MidWise(Product(xDims), n, post))
    ensures xDims != yDims && |xDims| >= |yDims| ==>
      (r.Ok? <==> 0 <= EffectiveAxis(xDims, yDims, axis) < |xDims| &&
                  MidDims(xDims, yDims, EffectiveAxis(xDims, yDims, axis)).Ok?)
  {
    if |xDims| < |yDims| then Err("Rank of first input must >= rank of second input.")
    else if xDims == yDims then Ok(Same(Product(xDims)))
    else
      var a := EffectiveAxis(xDims, yDims, axis);
      if !(0 <= a < |xDims|) then Err("Axis should be in range [0, x_dims)")
      else
        match MidDims(xDims, yDims, a)
        case Err(e) => Err(e)
        case Ok((pre, n, post)) =>
          if post == 1 then Ok(RowWise(Product(xDims), n)) else Ok(MidWise(Product(xDims), n, post))
  }

  /** The element of Y a plan pairs with element i of X. */
  function PlanIndex(p: Plan, i: nat): nat
  {
    match p
    case Same(_) => i
    case RowWise(_, n) => if n > 0 then RowWiseIndex(i, n) else 0
    case MidWise(_, n, post) => if n > 0 && post > 0 then MidWiseIndex(i, n, post) else 0
  }

  /** X's elements are exactly pre * n * post when Y's dims sit at `axis`. */
  lemma {:induction false} MidDimsCoverX(xDims: seq<int>, yDims: seq<int>, axis: int)
    requires 0 <= axis < |xDims| && MidDims(xDims, yDims, axis).Ok?
    ensures var m := MidDims(xDims, yDims, axis).value;
      Product(xDims) == m.0 * m.1 * m.2 && Product(yDims) == m.1
  {
    var k := axis + |yDims|;
    var pre, rest := xDims[..axis], xDims[k..];
    assert xDims[axis..k] == yDims;
    assert xDims == pre + (yDims + rest);
    ProductSplit(yDims, rest);
    ProductSplit(pre, yDims + rest);
    MulAssoc(Product(pre), Product(yDims), Product(rest));
  }

  lemma MulAssoc(x: int, y: int, z: int)
    ensures x * (y * z) == x * y * z
  {
  }

  /** Every plan the kernel accepts for distinct dims is the broadcast
    * [pre, n, post]: X has pre * n * post elements, Y has n, and the element
    * at coordinate (a, b, c) of X meets Y[b]. */
  lemma KernelPlanIsBroadcast(xDims: seq<int>, yDims: seq<int>, axis: int, a: nat, b: nat, c: nat)
    requires xDims != yDims && KernelPlan(xDims, yDims, axis).Ok?
    ensures var m := MidDims(xDims, yDims, EffectiveAxis(xDims, yDims, axis)).value;
      Product(xDims) == m.0 * m.1 * m.2 && Product(yDims) == m.1 &&
      (b < m.1 && c < m.2 ==> PlanIndex(KernelPlan(xDims, yDims, axis).value, Flat(a, b, c, m.1, m.2)) == b)
  {
    var ax := EffectiveAxis(xDims, yDims, axis);
    MidDimsCoverX(xDims, yDims, ax);
    var m := MidDims(xDims, yDims, ax).value;
    var plan := KernelPlan(xDims, yDims, axis).value;
    assert plan == if m.2 == 1 then RowWise(Product(xDims), m.1) else MidWise(Product(xDims), m.1, m.2);
    if b < m.1 && c < m.2 {
      PlanIndexIsMiddleCoordinate(plan, Product(xDims), a, b, c, m.1, m.2);
    }
  }

  /** The row-wise or mid-wise plan for [pre, n, post] pairs the element at
    * coordinate (a, b, c) of X with Y[b]. */
  lemma PlanIndexIsMiddleCoordinate(plan: Plan, xNum: int, a: nat, b: nat, c: nat, n: nat, post: nat)
    requires b < n && c < post
    requires plan == if post == 1 then RowWise(xNum, n) else MidWise(xNum, n, post)
    ensures PlanIndex(plan, Flat(a, b, c, n, post)) == b
  {
    if post == 1 {
      assert Flat(a, b, c, n, post) == a * n + b;
      RowWiseIsMidWiseWithPostOne(a, b, n);
    } else {
      MidWiseIndexIsMiddleCoordinate(a, b, c, n, post);
    }
  }

  /** The kernel: rejects what KernelPlan rejects and otherwise runs the
    * chosen loop over all of X, giving Out[i] = X[i] + Y[PlanIndex(plan, i)]. */
  method Compute(z: array<real>, x: array<real>, y: array<real>,
                 xDims: seq<int>, yDims: seq<int>, axis: int) returns (r: Outcome)
    requires forall k :: 0 <= k < |xDims| ==> xDims[k] >= 0
    requires forall k :: 0 <= k < |yDims| ==> yDims[k] >= 0
    requires x.Length == Product(xDims) && y.Length == Product(yDims) && z.Length == x.Length
    requires z != x && z != y
    modifies z
    ensures r.Pass? <==> KernelPlan(xDims, yDims, axis).Ok?
    ensures r.Fail? ==> z[..] == old(z[..])
    ensures r.Pass? ==> forall i :: 0 <= i < z.Length ==>
      PlanIndex(KernelPlan(xDims, yDims, axis).value, i) < y.Length &&
      z[i] == Add(x[i], y[PlanIndex(KernelPlan(xDims, yDims, axis).value, i)])
  {
    var plan := KernelPlan(xDims, yDims, axis);
    if plan.Err? {
      return Fail(plan.error);
    }
    match plan.value {
      case Same(num) =>
      AddSame(z, x, y, num);
    case RowWise(xNum, n) =>
      var ax := EffectiveAxis(xDims, yDims, axis);
      KernelPlanIsBroadcast(xDims, yDims, axis, 0, 0, 0);
      ProductNonNegative(yDims);
      AddRowWise(z, x, y, xNum, n);
    case MidWise(xNum, n, post) =>
      KernelPlanIsBroadcast(xDims, yDims, axis, 0, 0, 0);
      ProductNonNegative(yDims);
      var ax := EffectiveAxis(xDims, yDims, axis);
      ProductNonNegative(xDims[ax + |yDims|..]);
      AddMidWise(z, x, y, xNum, n, post);
    }
    return Pass;
  }
}
