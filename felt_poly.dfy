/** The extension-field polynomial kernels (`fpadd_poly` ... `fpcompose_poly`).
    Each one fills a caller-allocated result buffer with index loops; each is
    proved against a specification function that says, coefficient by
    coefficient, which field operations produce the result and in what order.

    A field element is abstract: the type parameter `F` with the operations in
    `FeltOps`, whose definitions (cubic-extension arithmetic) are not part of
    this model. Nothing here assumes any algebraic law; the laws appear only as
    hypotheses of the lemmas in FeltAlgebra. */
module FeltPoly {

  /** zero, one, fadd, fsub, fmul, fneg and fdiv of the extension field. */
  datatype FeltOps<!F> = FeltOps(
    zero: F,
    one: F,
    add: (F, F) -> F,
    sub: (F, F) -> F,
    mul: (F, F) -> F,
    neg: F -> F,
    div: (F, F) -> F)

  function Max(a: nat, b: nat): nat { if a < b then b else a }

  function Min(a: nat, b: nat): nat { if a < b then a else b }

  // ---------------------------------------------------------------------------
  // fpadd_poly and fpsub_poly
  // ---------------------------------------------------------------------------

  /** Slot i after the zero fill and the pass over p: `p[i] + 0`, or `0` past the end of p. */
  function WithP<F>(ops: FeltOps<F>, p: seq<F>, i: nat): F
  {
    if i < |p| then ops.add(p[i], ops.zero) else ops.zero
  }

  /** Coefficient i of fpadd: q's coefficient is added onto slot i after p's. */
  function AddCoeff<F>(ops: FeltOps<F>, p: seq<F>, q: seq<F>, i: nat): F
  {
    if i < |q| then ops.add(q[i], WithP(ops, p, i)) else WithP(ops, p, i)
  }

  /** Coefficient i of fpsub: the negation of q's coefficient is added onto slot i after p's. */
  function SubCoeff<F>(ops: FeltOps<F>, p: seq<F>, q: seq<F>, i: nat): F
  {
    if i < |q| then ops.add(ops.neg(q[i]), WithP(ops, p, i)) else WithP(ops, p, i)
  }

  function AddSpec<F>(ops: FeltOps<F>, p: seq<F>, q: seq<F>): seq<F>
  {
    seq(Max(|p|, |q|), i requires 0 <= i => AddCoeff(ops, p, q, i))
  }

  function SubSpec<F>(ops: FeltOps<F>, p: seq<F>, q: seq<F>): seq<F>
  {
    seq(Max(|p|, |q|), i requires 0 <= i => SubCoeff(ops, p, q, i))
  }

  /** fpadd_poly: zero-fill, add p coefficientwise, add q coefficientwise. */
  method FpAddPoly<F>(ops: FeltOps<F>, p: seq<F>, q: seq<F>, res: array<F>)
    requires res.Length >= Max(|p|, |q|)
    modifies res
    ensures res[..Max(|p|, |q|)] == AddSpec(ops, p, q)
    ensures forall k :: Max(|p|, |q|) <= k < res.Length ==> res[k] == old(res[k])
  {
    var m := Max(|p|, |q|);
    for i := 0 to m
      invariant forall k :: 0 <= k < i ==> res[k] == ops.zero
      invariant forall k :: m <= k < res.Length ==> res[k] == old(res[k])
    {
      res[i] := ops.zero;
    }
    for i := 0 to |p|
      invariant forall k :: 0 <= k < m ==> res[k] == (if k < i then ops.add(p[k], ops.zero) else ops.zero)
      invariant forall k :: m <= k < res.Length ==> res[k] == old(res[k])
    {
      res[i] := ops.add(p[i], res[i]);
    }
    for i := 0 to |q|
      invariant forall k :: 0 <= k < m ==>
        res[k] == (if k < i then ops.add(q[k], WithP(ops, p, k)) else WithP(ops, p, k))
      invariant forall k :: m <= k < res.Length ==> res[k] == old(res[k])
    {
      res[i] := ops.add(q[i], res[i]);
    }
    assert forall k :: 0 <= k < m ==> res[k] == AddCoeff(ops, p, q, k);
  }

  /** fpsub_poly: zero-fill, add p coefficientwise, add the negation of q coefficientwise. */
  method FpSubPoly<F>(ops: FeltOps<F>, p: seq<F>, q: seq<F>, res: array<F>)
    requires res.Length >= Max(|p|, |q|)
    modifies res
    ensures res[..Max(|p|, |q|)] == SubSpec(ops, p, q)
    ensures forall k :: Max(|p|, |q|) <= k < res.Length ==> res[k] == old(res[k])
  {
    var m := Max(|p|, |q|);
    for i := 0 to m
      invariant forall k :: 0 <= k < i ==> res[k] == ops.zero
      invariant forall k :: m <= k < res.Length ==> res[k] == old(res[k])
    {
      res[i] := ops.zero;
    }
    for i := 0 to |p|
      invariant forall k :: 0 <= k < m ==> res[k] == (if k < i then ops.add(p[k], ops.zero) else ops.zero)
      invariant forall k :: m <= k < res.Length ==> res[k] == old(res[k])
    {
      res[i] := ops.add(p[i], res[i]);
    }
    for i := 0 to |q|
      invariant forall k :: 0 <= k < m ==>
        res[k] == (if k < i then ops.add(ops.neg(q[k]), WithP(ops, p, k)) else WithP(ops, p, k))
      invariant forall k :: m <= k < res.Length ==> res[k] == old(res[k])
    {
      var negQ := ops.neg(q[i]);
      res[i] := ops.add(negQ, res[i]);
    }
    assert forall k :: 0 <= k < m ==> res[k] == SubCoeff(ops, p, q, k);
  }

  // ---------------------------------------------------------------------------
  // fpneg_poly and fpscal_poly
  // ---------------------------------------------------------------------------

  function NegSpec<F>(ops: FeltOps<F>, p: seq<F>): seq<F>
  {
    seq(|p|, i requires 0 <= i < |p| => ops.neg(p[i]))
  }

  function ScalSpec<F>(ops: FeltOps<F>, c: F, p: seq<F>): seq<F>
  {
    seq(|p|, i requires 0 <= i < |p| => ops.mul(c, p[i]))
  }

  /** fpneg_poly: res[i] = -p[i] for every coefficient of p. */
  method FpNegPoly<F>(ops: FeltOps<F>, p: seq<F>, res: array<F>)
    requires res.Length >= |p|
    modifies res
    ensures res[..|p|] == NegSpec(ops, p)
    ensures forall k :: |p| <= k < res.Length ==> res[k] == old(res[k])
  {
    for i := 0 to |p|
      invariant forall k :: 0 <= k < i ==> res[k] == ops.neg(p[k])
      invariant forall k :: |p| <= k < res.Length ==> res[k] == old(res[k])
    {
      res[i] := ops.neg(p[i]);
    }
  }

  /** fpscal_poly: res[i] = c * p[i] for every coefficient of p. */
  method FpScalPoly<F>(ops: FeltOps<F>, c: F, p: seq<F>, res: array<F>)
    requires res.Length >= |p|
    modifies res
    ensures res[..|p|] == ScalSpec(ops, c, p)
    ensures forall k :: |p| <= k < res.Length ==> res[k] == old(res[k])
  {
    for i := 0 to |p|
      invariant forall k :: 0 <= k < i ==> res[k] == ops.mul(c, p[k])
      invariant forall k :: |p| <= k < res.Length ==> res[k] == old(res[k])
    {
      res[i] := ops.mul(c, p[i]);
    }
  }

  // ---------------------------------------------------------------------------
  // fpmul_poly: naive convolution
  // ---------------------------------------------------------------------------

  /** Coefficient k of p*q after the first m rows of the double loop: the
      terms p[i]*q[k-i] for i < m (those with k-i a valid index of q), each
      added onto the running value, starting from zero. */
  function ConvAcc<F>(ops: FeltOps<F>, p: seq<F>, q: seq<F>, k: nat, m: nat): F
    requires m <= |p|
  {
    if m == 0 then ops.zero
    else
      var prev := ConvAcc(ops, p, q, k, m - 1);
      if m - 1 <= k < m - 1 + |q| then ops.add(ops.mul(p[m - 1], q[k - (m - 1)]), prev) else prev
  }

  /** Length of a product: 0 if either factor is empty, else the sum of lengths less one. */
  function MulLen(lp: nat, lq: nat): nat
  {
    if lp == 0 || lq == 0 then 0 else lp + lq - 1
  }

  /** A buffer of n slots holding the convolution of p and q. */
  function MulBuffer<F>(ops: FeltOps<F>, p: seq<F>, q: seq<F>, n: nat): seq<F>
  {
    seq(n, k requires 0 <= k => ConvAcc(ops, p, q, k, |p|))
  }

  function MulSpec<F>(ops: FeltOps<F>, p: seq<F>, q: seq<F>): seq<F>
  {
    MulBuffer(ops, p, q, MulLen(|p|, |q|))
  }

  /** Past the last possible index sum, no term reaches slot k. */
  lemma {:induction false} ConvAccBeyond<F>(ops: FeltOps<F>, p: seq<F>, q: seq<F>, k: nat, m: nat)
    requires m <= |p| && k >= m + |q| - 1
    ensures ConvAcc(ops, p, q, k, m) == ops.zero
  {
    if m > 0 {
      ConvAccBeyond(ops, p, q, k, m - 1);
    }
  }

  /** fpmul_poly: zero-fill the whole buffer, then res[i+j] += p[i]*q[j] row by row. */
  method FpMulPoly<F>(ops: FeltOps<F>, p: seq<F>, q: seq<F>, res: array<F>)
    requires |p| > 0 && |q| > 0 ==> res.Length >= |p| + |q| - 1
    modifies res
    ensures |p| == 0 || |q| == 0 ==> res[..] == old(res[..])
    ensures |p| > 0 && |q| > 0 ==> res[..] == MulBuffer(ops, p, q, res.Length)
  {
    if |p| == 0 || |q| == 0 {
      return;
    }
    for i := 0 to res.Length
      invariant forall k :: 0 <= k < i ==> res[k] == ops.zero
    {
      res[i] := ops.zero;
    }
    for i := 0 to |p|
      invariant forall k :: 0 <= k < res.Length ==> res[k] == ConvAcc(ops, p, q, k, i)
    {
      for j := 0 to |q|
        invariant forall k :: 0 <= k < res.Length ==>
          res[k] == (if i <= k < i + j then ops.add(ops.mul(p[i], q[k - i]), ConvAcc(ops, p, q, k, i))
                     else ConvAcc(ops, p, q, k, i))
      {
        var prod := ops.mul(p[i], q[j]);
        res[i + j] := ops.add(prod, res[i + j]);
      }
    }
  }

  // ---------------------------------------------------------------------------
  // fpeval_poly: Horner's rule
  // ---------------------------------------------------------------------------

  /** The Horner accumulator once coefficients |p|-1 down to i are folded in:
      it starts at the top coefficient and each step computes acc*x + p[i]. */
  function HornerFrom<F>(ops: FeltOps<F>, p: seq<F>, x: F, i: nat): F
    requires i < |p|
    decreases |p| - i
  {
    if i == |p| - 1 then p[i] else ops.add(ops.mul(HornerFrom(ops, p, x, i + 1), x), p[i])
  }

  function Horner<F>(ops: FeltOps<F>, p: seq<F>, x: F): F
  {
    if |p| == 0 then ops.zero else HornerFrom(ops, p, x, 0)
  }

  /** fpeval_poly: zero for the empty polynomial, else the Horner fold from the top. */
  method FpEvalPoly<F>(ops: FeltOps<F>, p: seq<F>, x: F) returns (result: F)
    ensures |p| == 0 ==> result == ops.zero
    ensures |p| > 0 ==> result == HornerFrom(ops, p, x, 0)
  {
    if |p| == 0 {
      return ops.zero;
    }
    result := p[|p| - 1];
    var i := |p| - 1;
    while i > 0
      invariant 0 <= i <= |p| - 1
      invariant result == HornerFrom(ops, p, x, i)
    {
      i := i - 1;
      var temp := ops.mul(result, x);
      result := ops.add(temp, p[i]);
    }
  }

  // ---------------------------------------------------------------------------
  // fp_fft_poly and fp_ifft_poly: placeholders that copy their input
  // ---------------------------------------------------------------------------

  /** fp_fft_poly: copies p into the front of res. */
  method FpFftPoly<F>(p: seq<F>, res: array<F>)
    requires res.Length >= |p|
    modifies res
    ensures res[..|p|] == p
    ensures forall k :: |p| <= k < res.Length ==> res[k] == old(res[k])
  {
    for i := 0 to |p|
      invariant forall k :: 0 <= k < i ==> res[k] == p[k]
      invariant forall k :: |p| <= k < res.Length ==> res[k] == old(res[k])
    {
      res[i] := p[i];
    }
  }

  /** fp_ifft_poly: the same copy as fp_fft_poly. */
  method FpIfftPoly<F>(p: seq<F>, res: array<F>)
    requires res.Length >= |p|
    modifies res
    ensures res[..|p|] == p
    ensures forall k :: |p| <= k < res.Length ==> res[k] == old(res[k])
  {
    FpFftPoly(p, res);
  }

  // ---------------------------------------------------------------------------
  // interpolate_poly: the "simplified" Lagrange interpolation
  // ---------------------------------------------------------------------------

  /** The denominator of point i after the inner loop has visited j < m:
      starting from one, each j != i multiplies it by (d[i] - d[j]). */
  function Denom<F>(ops: FeltOps<F>, d: seq<F>, i: nat, m: nat): F
    requires i < |d| && m <= |d|
  {
    if m == 0 then ops.one
    else
      var prev := Denom(ops, d, i, m - 1);
      if i != m - 1 then ops.mul(prev, ops.sub(d[i], d[m - 1])) else prev
  }

  /** res[0] after the outer loop has visited i < m: each values[i]/denom_i is added onto it. */
  function InterpSum<F>(ops: FeltOps<F>, d: seq<F>, v: seq<F>, m: nat): F
    requires m <= |d| <= |v|
  {
    if m == 0 then ops.zero
    else ops.add(ops.div(v[m - 1], Denom(ops, d, m - 1, |d|)), InterpSum(ops, d, v, m - 1))
  }

  function InterpolateSpec<F>(ops: FeltOps<F>, d: seq<F>, v: seq<F>): seq<F>
    requires |d| <= |v|
  {
    seq(|d|, k requires 0 <= k => if k == 0 then InterpSum(ops, d, v, |d|) else ops.zero)
  }

  /** The inner loop of interpolate_poly: the product of d[i] - d[j] over every j != i. */
  method LagrangeDenom<F>(ops: FeltOps<F>, domain: seq<F>, i: nat) returns (denom: F)
    requires i < |domain|
    ensures denom == Denom(ops, domain, i, |domain|)
  {
    denom := ops.one;
    for j := 0 to |domain|
      invariant denom == Denom(ops, domain, i, j)
    {
      if i != j {
        var diff := ops.sub(domain[i], domain[j]);
        denom := ops.mul(denom, diff);
      }
    }
  }

  /** interpolate_poly: zero-fill, then add values[i]/prod_{j != i}(d[i]-d[j]) into res[0] only. */
  method InterpolatePoly<F>(ops: FeltOps<F>, domain: seq<F>, values: seq<F>, res: array<F>)
    requires |values| >= |domain|
    requires res.Length >= |domain|
    modifies res
    ensures res[..|domain|] == InterpolateSpec(ops, domain, values)
    ensures forall k :: |domain| <= k < res.Length ==> res[k] == old(res[k])
  {
    var n := |domain|;
    for i := 0 to n
      invariant forall k :: 0 <= k < i ==> res[k] == ops.zero
      invariant forall k :: n <= k < res.Length ==> res[k] == old(res[k])
    {
      res[i] := ops.zero;
    }
    for i := 0 to n
      invariant n > 0 ==> res[0] == InterpSum(ops, domain, values, i)
      invariant forall k :: 1 <= k < n ==> res[k] == ops.zero
      invariant forall k :: n <= k < res.Length ==> res[k] == old(res[k])
    {
      var denom := LagrangeDenom(ops, domain, i);
      var scale := ops.div(values[i], denom);
      res[0] := ops.add(scale, res[0]);
    }
  }

  // ---------------------------------------------------------------------------
  // fpcompose_poly: P(Q(X))
  // ---------------------------------------------------------------------------

  /** Q^i as the kernel builds it: [one], then repeated naive products with q. */
  function QPow<F>(ops: FeltOps<F>, q: seq<F>, i: nat): (r: seq<F>)
    requires |q| > 0
    ensures |r| == i * (|q| - 1) + 1
  {
    if i == 0 then [ops.one]
    else
      var prev := QPow(ops, q, i - 1);
      assert (i - 1) * (|q| - 1) + (|q| - 1) == i * (|q| - 1);
      MulSpec(ops, prev, q)
  }

  /** Coefficient j of the result after res = [p[0], 0, ...] has had
      p[1]*Q^1, ..., p[m-1]*Q^(m-1) added onto it (a term reaches slot j only
      when Q^i has a coefficient there). */
  function ComposeCoeff<F>(ops: FeltOps<F>, p: seq<F>, q: seq<F>, j: nat, m: nat): F
    requires |q| > 0 && 1 <= m <= |p|
  {
    if m == 1 then (if j == 0 then p[0] else ops.zero)
    else
      var prev := ComposeCoeff(ops, p, q, j, m - 1);
      var qp := QPow(ops, q, m - 1);
      if j < |qp| then ops.add(ops.mul(p[m - 1], qp[j]), prev) else prev
  }

  /** A buffer of n slots holding the composition of p and q. */
  function ComposeBuffer<F>(ops: FeltOps<F>, p: seq<F>, q: seq<F>, n: nat): seq<F>
    requires |p| > 0 && |q| > 0
  {
    seq(n, j requires 0 <= j => ComposeCoeff(ops, p, q, j, |p|))
  }

  /** Length of a composition: deg(p)*deg(q)+1, or 0 if either operand is empty. */
  function ComposeLen(lp: nat, lq: nat): (n: nat)
    ensures lp > 0 && lq > 0 <==> n >= 1
  {
    if lp == 0 || lq == 0 then 0 else MulNonNegative(lp - 1, lq - 1); (lp - 1) * (lq - 1) + 1
  }

  lemma {:induction false} MulNonNegative(a: nat, b: nat)
    ensures a * b >= 0
  {
    if a > 0 {
      MulNonNegative(a - 1, b);
      assert a * b == (a - 1) * b + b;
    }
  }

  function ComposeSpec<F>(ops: FeltOps<F>, p: seq<F>, q: seq<F>): seq<F>
  {
    if |p| == 0 || |q| == 0 then [] else ComposeBuffer(ops, p, q, ComposeLen(|p|, |q|))
  }

  /** Every power Q^i the kernel forms (i < |p|) fits in a result of ComposeLen slots,
      so the kernel's truncation to min(|Q^i|, |res|) never drops a coefficient. */
  lemma QPowFits<F>(ops: FeltOps<F>, p: seq<F>, q: seq<F>, i: nat)
    requires |q| > 0 && i < |p|
    ensures |QPow(ops, q, i)| <= ComposeLen(|p|, |q|)
  {
    assert i * (|q| - 1) <= (|p| - 1) * (|q| - 1) by {
      MulMonotone(i, |p| - 1, |q| - 1);
    }
  }

  lemma MulMonotone(a: nat, b: nat, c: nat)
    requires a <= b
    ensures a * c <= b * c
  {
  }

  /** One step of the power loop: a fresh vector of |Q^(i-1)| + |q| - 1 zeros
      receives the naive product of Q^(i-1) and q. */
  method NextPower<F>(ops: FeltOps<F>, qPower: seq<F>, q: seq<F>) returns (temp: array<F>)
    requires |qPower| > 0 && |q| > 0
    ensures fresh(temp)
    ensures temp[..] == MulSpec(ops, qPower, q)
  {
    temp := new F[|qPower| + |q| - 1](_ => ops.zero);
    FpMulPoly(ops, qPower, q, temp);
  }

  /** One step of the accumulation loop: res[j] += c * qp[j] for j < min(|qp|, |res|). */
  method AddScaledInto<F>(ops: FeltOps<F>, c: F, qp: seq<F>, res: array<F>)
    modifies res
    ensures forall k :: 0 <= k < res.Length ==>
      res[k] == (if k < |qp| then ops.add(ops.mul(c, qp[k]), old(res[k])) else old(res[k]))
  {
    var bound := Min(|qp|, res.Length);
    for j := 0 to bound
      invariant forall k :: 0 <= k < res.Length ==>
        res[k] == (if k < j then ops.add(ops.mul(c, qp[k]), old(res[k])) else old(res[k]))
    {
      var term := ops.mul(c, qp[j]);
      res[j] := ops.add(term, res[j]);
    }
  }

  /** fpcompose_poly: res = [p[0], 0, ...]; then for each i >= 1, Q^i := Q^(i-1)*q
      (the same nested loops as fpmul_poly) and res[j] += p[i]*Q^i[j]
      for j < min(|Q^i|, |res|). */
  method FpComposePoly<F>(ops: FeltOps<F>, p: seq<F>, q: seq<F>, res: array<F>)
    requires |p| > 0 && |q| > 0 ==> res.Length >= 1
    modifies res
    ensures |p| == 0 || |q| == 0 ==> res[..] == old(res[..])
    ensures |p| > 0 && |q| > 0 ==> res[..] == ComposeBuffer(ops, p, q, res.Length)
  {
    if |p| == 0 || |q| == 0 {
      return;
    }
    for i := 0 to res.Length
      invariant forall k :: 0 <= k < i ==> res[k] == ops.zero
    {
      res[i] := ops.zero;
    }
    res[0] := p[0];
    var qPower := [ops.one];
    for i := 1 to |p|
      invariant qPower == QPow(ops, q, i - 1)
      invariant forall k :: 0 <= k < res.Length ==> res[k] == ComposeCoeff(ops, p, q, k, i)
    {
      var temp := NextPower(ops, qPower, q);
      qPower := temp[..];
      AddScaledInto(ops, p[i], qPower, res);
    }
  }
}
