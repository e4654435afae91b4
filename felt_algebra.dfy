/** What the polynomial kernels compute, read as polynomial algebra.

    A coefficient vector c denotes the polynomial c[0] + c[1] X + c[2] X^2 + ...;
    `Eval` evaluates it at a point. Under the commutative-ring laws of the
    field operations (`CommRing`), the kernels' specification functions are
    shown to agree with the polynomial operations they are named after:
    Horner evaluation is evaluation, the coefficientwise sums and the naive
    convolution evaluate to the sum and the product, and the composition
    kernel evaluates to p(q(x)). The simplified interpolation kernel is shown
    to produce a constant polynomial. */
module FeltAlgebra {
  import opened FeltPoly

  /** The laws of a commutative ring with subtraction defined as adding the negation.
      Commutativity and associativity are instantiated only when both sides of
      the equation are already present, so that they check a rewriting step
      rather than generate every rearrangement of a sum or product. */
  ghost predicate CommRing<F(!new)>(ops: FeltOps<F>)
  {
    && (forall a, b {:trigger ops.add(a, b), ops.add(b, a)} :: ops.add(a, b) == ops.add(b, a))
    && (forall a, b, c {:trigger ops.add(ops.add(a, b), c), ops.add(a, ops.add(b, c))} ::
          ops.add(ops.add(a, b), c) == ops.add(a, ops.add(b, c)))
    && (forall a :: ops.add(a, ops.zero) == a)
    && (forall a :: ops.add(a, ops.neg(a)) == ops.zero)
    && (forall a, b {:trigger ops.mul(a, b), ops.mul(b, a)} :: ops.mul(a, b) == ops.mul(b, a))
    && (forall a, b, c {:trigger ops.mul(ops.mul(a, b), c), ops.mul(a, ops.mul(b, c))} ::
          ops.mul(ops.mul(a, b), c) == ops.mul(a, ops.mul(b, c)))
    && (forall a :: ops.mul(a, ops.one) == a)
    && (forall a, b, c :: ops.mul(a, ops.add(b, c)) == ops.add(ops.mul(a, b), ops.mul(a, c)))
    && (forall a, b :: ops.sub(a, b) == ops.add(a, ops.neg(b)))
  }

  /** A field: a commutative ring in which division undoes multiplication by a non-zero element. */
  ghost predicate Field<F(!new)>(ops: FeltOps<F>)
  {
    && CommRing(ops)
    && (forall a, b :: b != ops.zero ==> ops.mul(ops.div(a, b), b) == a)
  }

  /** The value of the polynomial with coefficients c (lowest first) at x. */
  function Eval<F>(ops: FeltOps<F>, c: seq<F>, x: F): F
  {
    if c == [] then ops.zero else ops.add(c[0], ops.mul(x, Eval(ops, c[1..], x)))
  }

  function Pow<F>(ops: FeltOps<F>, x: F, n: nat): F
  {
    if n == 0 then ops.one else ops.mul(x, Pow(ops, x, n - 1))
  }

  function Zeros<F>(ops: FeltOps<F>, n: nat): (r: seq<F>)
    ensures |r| == n && forall i :: 0 <= i < n ==> r[i] == ops.zero
  {
    seq(n, _ => ops.zero)
  }

  // ---------------------------------------------------------------------------
  // Consequences of the ring laws
  // ---------------------------------------------------------------------------

  lemma ZeroAdd<F(!new)>(ops: FeltOps<F>, a: F)
    requires CommRing(ops)
    ensures ops.add(ops.zero, a) == a
  {
    assert ops.add(ops.zero, a) == ops.add(a, ops.zero);
  }

  lemma OneMul<F(!new)>(ops: FeltOps<F>, a: F)
    requires CommRing(ops)
    ensures ops.mul(ops.one, a) == a
  {
    assert ops.mul(ops.one, a) == ops.mul(a, ops.one);
  }

  lemma MulZero<F(!new)>(ops: FeltOps<F>, a: F)
    requires CommRing(ops)
    ensures ops.mul(a, ops.zero) == ops.zero
    ensures ops.mul(ops.zero, a) == ops.zero
  {
    var m := ops.mul(a, ops.zero);
    assert ops.add(m, m) == m by {
      assert ops.add(ops.zero, ops.zero) == ops.zero;
      assert ops.mul(a, ops.add(ops.zero, ops.zero)) == ops.add(m, m);
    }
    calc {
      ops.zero;
      ops.add(m, ops.neg(m));
      ops.add(ops.add(m, m), ops.neg(m));
      ops.add(m, ops.add(m, ops.neg(m)));
      ops.add(m, ops.zero);
      m;
    }
    assert ops.mul(ops.zero, a) == m;
  }

  /** An additive inverse is unique. */
  lemma NegUnique<F(!new)>(ops: FeltOps<F>, a: F, b: F)
    requires CommRing(ops)
    requires ops.add(a, b) == ops.zero
    ensures b == ops.neg(a)
  {
    calc {
      b;
      ops.add(b, ops.zero);
      ops.add(b, ops.add(a, ops.neg(a)));
      ops.add(ops.add(b, a), ops.neg(a));
      { assert ops.add(b, a) == ops.add(a, b); }
      ops.add(ops.zero, ops.neg(a));
      { ZeroAdd(ops, ops.neg(a)); }
      ops.neg(a);
    }
  }

  lemma NegZero<F(!new)>(ops: FeltOps<F>)
    requires CommRing(ops)
    ensures ops.neg(ops.zero) == ops.zero
  {
    NegUnique(ops, ops.zero, ops.zero);
  }

  lemma NegNegLaw<F(!new)>(ops: FeltOps<F>, a: F)
    requires CommRing(ops)
    ensures ops.neg(ops.neg(a)) == a
  {
    assert ops.add(ops.neg(a), a) == ops.zero by {
      assert ops.add(ops.neg(a), a) == ops.add(a, ops.neg(a));
    }
    NegUnique(ops, ops.neg(a), a);
  }

  /** (a + b) + (c + d) == (a + c) + (b + d). */
  lemma AddSwap<F(!new)>(ops: FeltOps<F>, a: F, b: F, c: F, d: F)
    requires CommRing(ops)
    ensures ops.add(ops.add(a, b), ops.add(c, d)) == ops.add(ops.add(a, c), ops.add(b, d))
  {
    calc {
      ops.add(ops.add(a, b), ops.add(c, d));
      ops.add(a, ops.add(b, ops.add(c, d)));
      ops.add(a, ops.add(ops.add(b, c), d));
      { assert ops.add(b, c) == ops.add(c, b); }
      ops.add(a, ops.add(ops.add(c, b), d));
      ops.add(a, ops.add(c, ops.add(b, d)));
      ops.add(ops.add(a, c), ops.add(b, d));
    }
  }

  lemma NegOfAdd<F(!new)>(ops: FeltOps<F>, a: F, b: F)
    requires CommRing(ops)
    ensures ops.neg(ops.add(a, b)) == ops.add(ops.neg(a), ops.neg(b))
  {
    calc {
      ops.add(ops.add(a, b), ops.add(ops.neg(a), ops.neg(b)));
      { AddSwap(ops, a, b, ops.neg(a), ops.neg(b)); }
      ops.add(ops.add(a, ops.neg(a)), ops.add(b, ops.neg(b)));
      ops.add(ops.zero, ops.zero);
      ops.zero;
    }
    NegUnique(ops, ops.add(a, b), ops.add(ops.neg(a), ops.neg(b)));
  }

  lemma MulNeg<F(!new)>(ops: FeltOps<F>, a: F, b: F)
    requires CommRing(ops)
    ensures ops.mul(a, ops.neg(b)) == ops.neg(ops.mul(a, b))
  {
    calc {
      ops.add(ops.mul(a, b), ops.mul(a, ops.neg(b)));
      ops.mul(a, ops.add(b, ops.neg(b)));
      ops.mul(a, ops.zero);
      { MulZero(ops, a); }
      ops.zero;
    }
    NegUnique(ops, ops.mul(a, b), ops.mul(a, ops.neg(b)));
  }

  /** a * (b * c) == b * (a * c). */
  lemma MulLeftComm<F(!new)>(ops: FeltOps<F>, a: F, b: F, c: F)
    requires CommRing(ops)
    ensures ops.mul(a, ops.mul(b, c)) == ops.mul(b, ops.mul(a, c))
  {
    calc {
      ops.mul(a, ops.mul(b, c));
      ops.mul(ops.mul(a, b), c);
      { assert ops.mul(a, b) == ops.mul(b, a); }
      ops.mul(ops.mul(b, a), c);
      ops.mul(b, ops.mul(a, c));
    }
  }

  // ---------------------------------------------------------------------------
  // Evaluation of coefficient vectors
  // ---------------------------------------------------------------------------

  lemma {:induction false} EvalZeros<F(!new)>(ops: FeltOps<F>, n: nat, x: F)
    requires CommRing(ops)
    ensures Eval(ops, Zeros(ops, n), x) == ops.zero
    decreases n
  {
    if n > 0 {
      assert Zeros(ops, n)[1..] == Zeros(ops, n - 1);
      EvalZeros(ops, n - 1, x);
      MulZero(ops, x);
    }
  }

  /** Trailing zero coefficients do not change the value. */
  lemma {:induction false} EvalPad<F(!new)>(ops: FeltOps<F>, s: seq<F>, n: nat, x: F)
    requires CommRing(ops)
    ensures Eval(ops, s + Zeros(ops, n), x) == Eval(ops, s, x)
    decreases |s|
  {
    if s == [] {
      assert s + Zeros(ops, n) == Zeros(ops, n);
      EvalZeros(ops, n, x);
    } else {
      assert (s + Zeros(ops, n))[1..] == s[1..] + Zeros(ops, n);
      EvalPad(ops, s[1..], n, x);
    }
  }

  /** m leading zero coefficients multiply the value by x^m. */
  lemma {:induction false} EvalShift<F(!new)>(ops: FeltOps<F>, m: nat, s: seq<F>, x: F)
    requires CommRing(ops)
    ensures Eval(ops, Zeros(ops, m) + s, x) == ops.mul(Pow(ops, x, m), Eval(ops, s, x))
    decreases m
  {
    var e := Eval(ops, s, x);
    if m == 0 {
      assert Zeros(ops, m) + s == s;
      OneMul(ops, e);
    } else {
      assert (Zeros(ops, m) + s)[1..] == Zeros(ops, m - 1) + s;
      EvalShift(ops, m - 1, s, x);
      calc {
        Eval(ops, Zeros(ops, m) + s, x);
        ops.add(ops.zero, ops.mul(x, Eval(ops, Zeros(ops, m - 1) + s, x)));
        { ZeroAdd(ops, ops.mul(x, Eval(ops, Zeros(ops, m - 1) + s, x))); }
        ops.mul(x, ops.mul(Pow(ops, x, m - 1), e));
        ops.mul(ops.mul(x, Pow(ops, x, m - 1)), e);
      }
    }
  }

  /** Appending a top coefficient a adds a * x^|s|. */
  lemma {:induction false} EvalSnoc<F(!new)>(ops: FeltOps<F>, s: seq<F>, a: F, x: F)
    requires CommRing(ops)
    ensures Eval(ops, s + [a], x) == ops.add(Eval(ops, s, x), ops.mul(Pow(ops, x, |s|), a))
    decreases |s|
  {
    if s == [] {
      assert s + [a] == [a];
      assert [a][1..] == [];
      MulZero(ops, x);
      OneMul(ops, a);
      ZeroAdd(ops, a);
    } else {
      assert (s + [a])[1..] == s[1..] + [a];
      EvalSnoc(ops, s[1..], a, x);
      var e := Eval(ops, s[1..], x);
      var t := ops.mul(Pow(ops, x, |s| - 1), a);
      calc {
        Eval(ops, s + [a], x);
        ops.add(s[0], ops.mul(x, ops.add(e, t)));
        ops.add(s[0], ops.add(ops.mul(x, e), ops.mul(x, t)));
        ops.add(ops.add(s[0], ops.mul(x, e)), ops.mul(x, t));
        ops.add(Eval(ops, s, x), ops.mul(ops.mul(x, Pow(ops, x, |s| - 1)), a));
      }
    }
  }

  /** Evaluation is additive: coefficientwise sums evaluate to sums. */
  lemma {:induction false} EvalLinear<F(!new)>(ops: FeltOps<F>, a: seq<F>, b: seq<F>, c: seq<F>, x: F)
    requires CommRing(ops)
    requires |a| == |c| && |b| == |c|
    requires forall i :: 0 <= i < |c| ==> c[i] == ops.add(a[i], b[i])
    ensures Eval(ops, c, x) == ops.add(Eval(ops, a, x), Eval(ops, b, x))
    decreases |c|
  {
    if c != [] {
      EvalLinear(ops, a[1..], b[1..], c[1..], x);
      var ea, eb := Eval(ops, a[1..], x), Eval(ops, b[1..], x);
      calc {
        Eval(ops, c, x);
        ops.add(ops.add(a[0], b[0]), ops.mul(x, ops.add(ea, eb)));
        ops.add(ops.add(a[0], b[0]), ops.add(ops.mul(x, ea), ops.mul(x, eb)));
        { AddSwap(ops, a[0], b[0], ops.mul(x, ea), ops.mul(x, eb)); }
        ops.add(ops.add(a[0], ops.mul(x, ea)), ops.add(b[0], ops.mul(x, eb)));
      }
    }
  }

  // ---------------------------------------------------------------------------
  // The kernels as polynomial operations
  // ---------------------------------------------------------------------------

  /** Horner's fold from coefficient i equals the value of the tail p[i..]. */
  lemma {:induction false} HornerFromIsEval<F(!new)>(ops: FeltOps<F>, p: seq<F>, x: F, i: nat)
    requires CommRing(ops)
    requires i < |p|
    ensures HornerFrom(ops, p, x, i) == Eval(ops, p[i..], x)
    decreases |p| - i
  {
    assert p[i..][1..] == p[i + 1..];
    if i == |p| - 1 {
      assert p[i + 1..] == [];
      MulZero(ops, x);
    } else {
      HornerFromIsEval(ops, p, x, i + 1);
      var e := Eval(ops, p[i + 1..], x);
      calc {
        HornerFrom(ops, p, x, i);
        ops.add(ops.mul(e, x), p[i]);
        { assert ops.mul(e, x) == ops.mul(x, e); }
        ops.add(ops.mul(x, e), p[i]);
        ops.add(p[i], ops.mul(x, e));
      }
    }
  }

  /** fpeval_poly evaluates the polynomial (zero for the empty one). */
  lemma HornerIsEval<F(!new)>(ops: FeltOps<F>, p: seq<F>, x: F)
    requires CommRing(ops)
    ensures Horner(ops, p, x) == Eval(ops, p, x)
  {
    if |p| > 0 {
      HornerFromIsEval(ops, p, x, 0);
      assert p[0..] == p;
    }
  }

  /** Coefficient i of p, or zero past its end. */
  function Coeff<F>(ops: FeltOps<F>, p: seq<F>, i: nat): F
  {
    if i < |p| then p[i] else ops.zero
  }

  /** p padded with zeros to n coefficients. */
  function Padded<F>(ops: FeltOps<F>, p: seq<F>, n: nat): (r: seq<F>)
    requires |p| <= n
    ensures |r| == n && forall i :: 0 <= i < n ==> r[i] == Coeff(ops, p, i)
  {
    p + Zeros(ops, n - |p|)
  }

  /** fpadd_poly adds: its result evaluates to p(x) + q(x). */
  lemma EvalOfAdd<F(!new)>(ops: FeltOps<F>, p: seq<F>, q: seq<F>, x: F)
    requires CommRing(ops)
    ensures Eval(ops, AddSpec(ops, p, q), x) == ops.add(Eval(ops, p, x), Eval(ops, q, x))
  {
    var n := Max(|p|, |q|);
    var pp, qq, r := Padded(ops, p, n), Padded(ops, q, n), AddSpec(ops, p, q);
    forall i | 0 <= i < n
      ensures r[i] == ops.add(qq[i], pp[i])
    {
      assert WithP(ops, p, i) == Coeff(ops, p, i);
      if i >= |q| {
        ZeroAdd(ops, Coeff(ops, p, i));
      }
    }
    EvalLinear(ops, qq, pp, r, x);
    EvalPad(ops, p, n - |p|, x);
    EvalPad(ops, q, n - |q|, x);
  }

  /** fpneg_poly negates: its result evaluates to -p(x). */
  lemma {:induction false} EvalOfNeg<F(!new)>(ops: FeltOps<F>, p: seq<F>, x: F)
    requires CommRing(ops)
    ensures Eval(ops, NegSpec(ops, p), x) == ops.neg(Eval(ops, p, x))
    decreases |p|
  {
    if p == [] {
      NegZero(ops);
    } else {
      assert NegSpec(ops, p)[1..] == NegSpec(ops, p[1..]);
      EvalOfNeg(ops, p[1..], x);
      var e := Eval(ops, p[1..], x);
      calc {
        Eval(ops, NegSpec(ops, p), x);
        ops.add(ops.neg(p[0]), ops.mul(x, ops.neg(e)));
        { MulNeg(ops, x, e); }
        ops.add(ops.neg(p[0]), ops.neg(ops.mul(x, e)));
        { NegOfAdd(ops, p[0], ops.mul(x, e)); }
        ops.neg(ops.add(p[0], ops.mul(x, e)));
      }
    }
  }

  /** fpsub_poly is fpadd_poly with the negated second operand, coefficient for coefficient
      (no algebraic law is needed: the kernels perform the same operations). */
  lemma SubIsAddNeg<F(!new)>(ops: FeltOps<F>, p: seq<F>, q: seq<F>)
    ensures SubSpec(ops, p, q) == AddSpec(ops, p, NegSpec(ops, q))
  {
    var l, r := SubSpec(ops, p, q), AddSpec(ops, p, NegSpec(ops, q));
    assert |l| == |r|;
    forall i | 0 <= i < |l|
      ensures l[i] == r[i]
    {
      assert SubCoeff(ops, p, q, i) == AddCoeff(ops, p, NegSpec(ops, q), i);
    }
  }

  /** fpsub_poly subtracts: its result evaluates to p(x) - q(x). */
  lemma EvalOfSub<F(!new)>(ops: FeltOps<F>, p: seq<F>, q: seq<F>, x: F)
    requires CommRing(ops)
    ensures Eval(ops, SubSpec(ops, p, q), x) == ops.sub(Eval(ops, p, x), Eval(ops, q, x))
  {
    SubIsAddNeg(ops, p, q);
    EvalOfAdd(ops, p, NegSpec(ops, q), x);
    EvalOfNeg(ops, q, x);
  }

  /** Negating twice gives back the operand. */
  lemma NegNeg<F(!new)>(ops: FeltOps<F>, p: seq<F>)
    requires CommRing(ops)
    ensures NegSpec(ops, NegSpec(ops, p)) == p
  {
    var r := NegSpec(ops, NegSpec(ops, p));
    forall i | 0 <= i < |p|
      ensures r[i] == p[i]
    {
      NegNegLaw(ops, p[i]);
    }
  }

  /** Addition is commutative on polynomials of any two lengths. */
  lemma AddCommutes<F(!new)>(ops: FeltOps<F>, p: seq<F>, q: seq<F>)
    requires CommRing(ops)
    ensures AddSpec(ops, p, q) == AddSpec(ops, q, p)
  {
    var l, r := AddSpec(ops, p, q), AddSpec(ops, q, p);
    forall i | 0 <= i < |l|
      ensures l[i] == r[i]
    {
      ZeroAdd(ops, Coeff(ops, p, i));
      ZeroAdd(ops, Coeff(ops, q, i));
      assert WithP(ops, p, i) == Coeff(ops, p, i);
      assert WithP(ops, q, i) == Coeff(ops, q, i);
    }
  }

  /** fpscal_poly scales: its result evaluates to c * p(x). */
  lemma {:induction false} EvalOfScal<F(!new)>(ops: FeltOps<F>, c: F, p: seq<F>, x: F)
    requires CommRing(ops)
    ensures Eval(ops, ScalSpec(ops, c, p), x) == ops.mul(c, Eval(ops, p, x))
    decreases |p|
  {
    if p == [] {
      MulZero(ops, c);
    } else {
      assert ScalSpec(ops, c, p)[1..] == ScalSpec(ops, c, p[1..]);
      EvalOfScal(ops, c, p[1..], x);
      var e := Eval(ops, p[1..], x);
      calc {
        Eval(ops, ScalSpec(ops, c, p), x);
        ops.add(ops.mul(c, p[0]), ops.mul(x, ops.mul(c, e)));
        { MulLeftComm(ops, x, c, e); }
        ops.add(ops.mul(c, p[0]), ops.mul(c, ops.mul(x, e)));
        ops.mul(c, ops.add(p[0], ops.mul(x, e)));
      }
    }
  }

  /** Scaling by c after scaling by d is scaling by c * d. */
  lemma ScalCompose<F(!new)>(ops: FeltOps<F>, c: F, d: F, p: seq<F>)
    requires CommRing(ops)
    ensures ScalSpec(ops, c, ScalSpec(ops, d, p)) == ScalSpec(ops, ops.mul(c, d), p)
  {
    var l, r := ScalSpec(ops, c, ScalSpec(ops, d, p)), ScalSpec(ops, ops.mul(c, d), p);
    forall i | 0 <= i < |p|
      ensures l[i] == r[i]
    {
      assert ops.mul(ops.mul(c, d), p[i]) == ops.mul(c, ops.mul(d, p[i]));
    }
  }

  // ---------------------------------------------------------------------------
  // fpmul_poly
  // ---------------------------------------------------------------------------

  /** The buffer after the first m rows of the double loop of fpmul_poly. */
  function MulRows<F>(ops: FeltOps<F>, p: seq<F>, q: seq<F>, m: nat, n: nat): (r: seq<F>)
    requires m <= |p|
    ensures |r| == n && forall k :: 0 <= k < n ==> r[k] == ConvAcc(ops, p, q, k, m)
  {
    seq(n, k requires 0 <= k => ConvAcc(ops, p, q, k, m))
  }

  /** c*q placed at offset m of a buffer of n slots, zero elsewhere. */
  function RowBuffer<F>(ops: FeltOps<F>, c: F, q: seq<F>, m: nat, n: nat): (t: seq<F>)
    requires m + |q| <= n
    ensures |t| == n
    ensures forall k :: 0 <= k < n ==>
      t[k] == (if m <= k < m + |q| then ops.mul(c, q[k - m]) else ops.zero)
  {
    Zeros(ops, m) + ScalSpec(ops, c, q) + Zeros(ops, n - m - |q|)
  }

  /** Row m of the convolution, laid out in a buffer of n slots: p[m]*q shifted by m. */
  lemma RowTerm<F(!new)>(ops: FeltOps<F>, p: seq<F>, q: seq<F>, m: nat, n: nat, x: F) returns (t: seq<F>)
    requires CommRing(ops)
    requires m < |p| && m + |q| <= n
    ensures |t| == n
    ensures forall k :: 0 <= k < n ==>
      t[k] == (if m <= k < m + |q| then ops.mul(p[m], q[k - m]) else ops.zero)
    ensures Eval(ops, t, x) == ops.mul(Pow(ops, x, m), ops.mul(p[m], Eval(ops, q, x)))
  {
    var shifted := Zeros(ops, m) + ScalSpec(ops, p[m], q);
    t := RowBuffer(ops, p[m], q, m, n);
    EvalPad(ops, shifted, n - m - |q|, x);
    EvalShift(ops, m, ScalSpec(ops, p[m], q), x);
    EvalOfScal(ops, p[m], q, x);
  }

  /** After m rows the buffer holds (p[0] + ... + p[m-1] X^(m-1)) * q. */
  lemma {:induction false} MulRowsEval<F(!new)>(ops: FeltOps<F>, p: seq<F>, q: seq<F>, m: nat, x: F)
    requires CommRing(ops)
    requires |q| > 0 && m <= |p|
    ensures Eval(ops, MulRows(ops, p, q, m, |p| + |q| - 1), x)
         == ops.mul(Eval(ops, p[..m], x), Eval(ops, q, x))
    decreases m
  {
    var n := |p| + |q| - 1;
    var eq := Eval(ops, q, x);
    if m == 0 {
      assert MulRows(ops, p, q, 0, n) == Zeros(ops, n);
      EvalZeros(ops, n, x);
      MulZero(ops, eq);
    } else {
      var k := m - 1;
      MulRowsEval(ops, p, q, k, x);
      var prev, cur := MulRows(ops, p, q, k, n), MulRows(ops, p, q, m, n);
      var t := RowTerm(ops, p, q, k, n, x);
      forall j | 0 <= j < n
        ensures cur[j] == ops.add(t[j], prev[j])
      {
        if !(k <= j < k + |q|) {
          ZeroAdd(ops, prev[j]);
        }
      }
      EvalLinear(ops, t, prev, cur, x);
      assert p[..m] == p[..k] + [p[k]];
      EvalSnoc(ops, p[..k], p[k], x);
      var ep, pw := Eval(ops, p[..k], x), Pow(ops, x, k);
      calc {
        Eval(ops, cur, x);
        ops.add(ops.mul(pw, ops.mul(p[k], eq)), ops.mul(ep, eq));
        { assert ops.mul(pw, ops.mul(p[k], eq)) == ops.mul(ops.mul(pw, p[k]), eq); }
        ops.add(ops.mul(ops.mul(pw, p[k]), eq), ops.mul(ep, eq));
        { assert ops.mul(ops.mul(pw, p[k]), eq) == ops.mul(eq, ops.mul(pw, p[k]));
          assert ops.mul(ep, eq) == ops.mul(eq, ep); }
        ops.add(ops.mul(eq, ops.mul(pw, p[k])), ops.mul(eq, ep));
        ops.mul(eq, ops.add(ops.mul(pw, p[k]), ep));
        ops.mul(eq, ops.add(ep, ops.mul(pw, p[k])));
        ops.mul(ops.add(ep, ops.mul(pw, p[k])), eq);
        ops.mul(Eval(ops, p[..m], x), eq);
      }
    }
  }

  /** fpmul_poly multiplies: its result evaluates to p(x) * q(x). */
  lemma EvalOfMul<F(!new)>(ops: FeltOps<F>, p: seq<F>, q: seq<F>, x: F)
    requires CommRing(ops)
    ensures Eval(ops, MulSpec(ops, p, q), x) == ops.mul(Eval(ops, p, x), Eval(ops, q, x))
  {
    if |p| == 0 || |q| == 0 {
      MulZero(ops, Eval(ops, p, x));
      MulZero(ops, Eval(ops, q, x));
    } else {
      MulRowsEval(ops, p, q, |p|, x);
      assert MulSpec(ops, p, q) == MulRows(ops, p, q, |p|, |p| + |q| - 1);
      assert p[..|p|] == p;
    }
  }

  // ---------------------------------------------------------------------------
  // fpcompose_poly
  // ---------------------------------------------------------------------------

  /** The i-th power the kernel forms evaluates to q(x)^i. */
  lemma {:induction false} QPowEval<F(!new)>(ops: FeltOps<F>, q: seq<F>, i: nat, x: F)
    requires CommRing(ops)
    requires |q| > 0
    ensures Eval(ops, QPow(ops, q, i), x) == Pow(ops, Eval(ops, q, x), i)
    decreases i
  {
    var y := Eval(ops, q, x);
    if i == 0 {
      assert [ops.one][1..] == [];
      MulZero(ops, x);
    } else {
      QPowEval(ops, q, i - 1, x);
      EvalOfMul(ops, QPow(ops, q, i - 1), q, x);
      assert ops.mul(Pow(ops, y, i - 1), y) == ops.mul(y, Pow(ops, y, i - 1));
    }
  }

  /** The result buffer after the first m terms of fpcompose_poly. */
  function ComposeRows<F>(ops: FeltOps<F>, p: seq<F>, q: seq<F>, m: nat, n: nat): (r: seq<F>)
    requires |q| > 0 && 1 <= m <= |p|
    ensures |r| == n && forall j :: 0 <= j < n ==> r[j] == ComposeCoeff(ops, p, q, j, m)
  {
    seq(n, j requires 0 <= j => ComposeCoeff(ops, p, q, j, m))
  }

  /** Term m of the composition, laid out in a buffer of n slots: p[m] * Q^m. */
  lemma ComposeTerm<F(!new)>(ops: FeltOps<F>, p: seq<F>, q: seq<F>, m: nat, n: nat, x: F)
    returns (t: seq<F>)
    requires CommRing(ops)
    requires |q| > 0 && m < |p| && n == ComposeLen(|p|, |q|)
    ensures |t| == n
    ensures forall j :: 0 <= j < n ==>
      t[j] == (if j < |QPow(ops, q, m)| then ops.mul(p[m], QPow(ops, q, m)[j]) else ops.zero)
    ensures Eval(ops, t, x) == ops.mul(p[m], Pow(ops, Eval(ops, q, x), m))
  {
    var qp := QPow(ops, q, m);
    QPowFits(ops, p, q, m);
    t := ScalSpec(ops, p[m], qp) + Zeros(ops, n - |qp|);
    EvalPad(ops, ScalSpec(ops, p[m], qp), n - |qp|, x);
    EvalOfScal(ops, p[m], qp, x);
    QPowEval(ops, q, m, x);
  }

  /** A constant followed by zeros evaluates to the constant. */
  lemma EvalConstant<F(!new)>(ops: FeltOps<F>, a: F, k: nat, x: F)
    requires CommRing(ops)
    ensures Eval(ops, [a] + Zeros(ops, k), x) == a
  {
    EvalPad(ops, [a], k, x);
    assert [a][1..] == [];
    MulZero(ops, x);
  }

  /** Before the loop the buffer is [p[0], 0, ...], whose value is p[0]. */
  lemma ComposeFirstRow<F(!new)>(ops: FeltOps<F>, p: seq<F>, q: seq<F>, n: nat, x: F)
    requires CommRing(ops)
    requires |q| > 0 && 1 <= |p| && n >= 1
    ensures Eval(ops, ComposeRows(ops, p, q, 1, n), x) == Eval(ops, p[..1], Eval(ops, q, x))
  {
    var rows, expected := ComposeRows(ops, p, q, 1, n), [p[0]] + Zeros(ops, n - 1);
    forall j | 0 <= j < n
      ensures rows[j] == expected[j]
    {
      assert rows[j] == ComposeCoeff(ops, p, q, j, 1);
    }
    assert rows == expected;
    EvalConstant(ops, p[0], n - 1, x);
    assert p[..1] == [p[0]] + Zeros(ops, 0);
    EvalConstant(ops, p[0], 0, Eval(ops, q, x));
  }

  /** Adding term k onto the buffer adds p[k] * q(x)^k to its value. */
  lemma ComposeRowsStep<F(!new)>(ops: FeltOps<F>, p: seq<F>, q: seq<F>, k: nat, n: nat, x: F)
    requires CommRing(ops)
    requires |q| > 0 && 1 <= k < |p|
    requires n == ComposeLen(|p|, |q|) && n >= 1
    ensures Eval(ops, ComposeRows(ops, p, q, k + 1, n), x)
         == ops.add(ops.mul(p[k], Pow(ops, Eval(ops, q, x), k)), Eval(ops, ComposeRows(ops, p, q, k, n), x))
  {
    var prev, cur := ComposeRows(ops, p, q, k, n), ComposeRows(ops, p, q, k + 1, n);
    var t := ComposeTerm(ops, p, q, k, n, x);
    forall j | 0 <= j < n
      ensures cur[j] == ops.add(t[j], prev[j])
    {
      if j >= |QPow(ops, q, k)| {
        ZeroAdd(ops, prev[j]);
      }
    }
    EvalLinear(ops, t, prev, cur, x);
  }

  /** After m terms the buffer evaluates to (p[0] + ... + p[m-1] Y^(m-1)) at Y = q(x). */
  lemma {:induction false} ComposeRowsEval<F(!new)>(ops: FeltOps<F>, p: seq<F>, q: seq<F>, m: nat, n: nat, x: F)
    requires CommRing(ops)
    requires |q| > 0 && 1 <= m <= |p|
    requires n == ComposeLen(|p|, |q|) && n >= 1
    ensures Eval(ops, ComposeRows(ops, p, q, m, n), x)
         == Eval(ops, p[..m], Eval(ops, q, x))
    decreases m
  {
    if m == 1 {
      ComposeFirstRow(ops, p, q, n, x);
    } else {
      var y := Eval(ops, q, x);
      var k := m - 1;
      ComposeRowsEval(ops, p, q, k, n, x);
      ComposeRowsStep(ops, p, q, k, n, x);
      assert p[..m] == p[..k] + [p[k]];
      EvalSnoc(ops, p[..k], p[k], y);
      assert ops.mul(p[k], Pow(ops, y, k)) == ops.mul(Pow(ops, y, k), p[k]);
      assert ops.add(ops.mul(p[k], Pow(ops, y, k)), Eval(ops, p[..k], y))
          == ops.add(Eval(ops, p[..k], y), ops.mul(p[k], Pow(ops, y, k)));
    }
  }

  /** fpcompose_poly composes: for a non-empty q its result evaluates to p(q(x)).
      (For an empty q the kernel leaves the empty result, the zero polynomial.) */
  lemma EvalOfCompose<F(!new)>(ops: FeltOps<F>, p: seq<F>, q: seq<F>, x: F)
    requires CommRing(ops)
    requires |q| > 0
    ensures Eval(ops, ComposeSpec(ops, p, q), x) == Eval(ops, p, Eval(ops, q, x))
  {
    if |p| > 0 {
      var n := ComposeLen(|p|, |q|);
      ComposeRowsEval(ops, p, q, |p|, n, x);
      var spec, rows := ComposeSpec(ops, p, q), ComposeRows(ops, p, q, |p|, n);
      assert spec == ComposeBuffer(ops, p, q, n);
      forall j | 0 <= j < n
        ensures spec[j] == rows[j]
      {
      }
      assert spec == rows;
      assert p[..|p|] == p;
    }
  }

  // ---------------------------------------------------------------------------
  // interpolate_poly
  // ---------------------------------------------------------------------------

  /** The simplified interpolation yields a constant polynomial: only
      coefficient 0 is ever written, so its value is the same at every point. */
  lemma InterpolateIsConstant<F(!new)>(ops: FeltOps<F>, d: seq<F>, v: seq<F>, x: F)
    requires CommRing(ops)
    requires |d| <= |v|
    ensures |d| > 0 ==> Eval(ops, InterpolateSpec(ops, d, v), x) == InterpSum(ops, d, v, |d|)
    ensures |d| == 0 ==> InterpolateSpec(ops, d, v) == []
  {
    if |d| > 0 {
      var s := InterpSum(ops, d, v, |d|);
      assert InterpolateSpec(ops, d, v) == [s] + Zeros(ops, |d| - 1);
      EvalPad(ops, [s], |d| - 1, x);
      assert [s][1..] == [];
      MulZero(ops, x);
    }
  }

  /** Through a single point (d0, v0) the kernel produces the constant v0,
      which is the interpolating polynomial of degree 0. */
  lemma InterpolateSinglePoint<F(!new)>(ops: FeltOps<F>, d0: F, v: seq<F>, x: F)
    requires Field(ops)
    requires |v| >= 1
    requires ops.one != ops.zero
    ensures Eval(ops, InterpolateSpec(ops, [d0], v), x) == v[0]
  {
    InterpolateIsConstant(ops, [d0], v, x);
    assert Denom(ops, [d0], 0, 1) == ops.one;
    assert ops.div(v[0], ops.one) == v[0] by {
      assert ops.mul(ops.div(v[0], ops.one), ops.one) == v[0];
    }
  }
}
