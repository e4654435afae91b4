/** The base field of the prover: naturals below the Goldilocks prime
    P = 2^64 - 2^32 + 1, with multiplication reduced modulo P, and the
    library routines over base-field polynomials that the jets call but
    that are not part of this model. */
module Belts {
  import opened Nouns

  const P: nat := 0xffff_ffff_0000_0001

  type Belt = x: nat | x < P

  /** `Belt * Belt`: the product reduced modulo P. */
  function BMul(a: nat, b: nat): Belt
  {
    (a * b) % P
  }

  /** c^i over the naturals. */
  function Pow(c: nat, i: nat): nat
  {
    if i == 0 then 1 else Pow(c, i - 1) * c
  }

  /** c^i in the field, computed as a running product `power = power * c`
      starting from `Belt::one()`, as the power tables and the unshift loop do. */
  function PowMod(c: nat, i: nat): Belt
  {
    if i == 0 then 1 else BMul(PowMod(c, i - 1), c)
  }

  function Pow2(k: nat): (r: nat)
    ensures r >= 1
  {
    if k == 0 then 1 else 2 * Pow2(k - 1)
  }

  // ---------------------------------------------------------------------------
  // Modular arithmetic
  // ---------------------------------------------------------------------------

  lemma ModMultiple(k: nat, z: nat)
    ensures (k * P + z) % P == z % P
  {
    var m := z % P;
    var d := z / P;
    assert z == d * P + m;
    assert k * P + z == (k + d) * P + m;
  }

  /** Reducing a factor first does not change a product modulo P. */
  lemma ModMulLeft(x: nat, y: nat)
    ensures ((x % P) * y) % P == (x * y) % P
  {
    var q := x / P;
    var m := x % P;
    assert x == q * P + m;
    assert x * y == (q * y) * P + m * y;
    ModMultiple(q * y, m * y);
  }

  lemma BMulComm(a: nat, b: nat)
    ensures BMul(a, b) == BMul(b, a)
  {
  }

  lemma BMulAssoc(a: nat, b: nat, c: nat)
    ensures BMul(BMul(a, b), c) == BMul(a, BMul(b, c))
  {
    ModMulLeft(a * b, c);
    ModMulLeft(b * c, a);
    assert a * (b * c) == (a * b) * c;
    assert (b * c) % P * a == a * ((b * c) % P);
  }

  /** One is neutral for field elements. */
  lemma BMulOne(x: Belt)
    ensures BMul(x, 1) == x && BMul(1, x) == x
  {
  }

  /** The running product is the true power reduced modulo P. */
  lemma {:induction false} PowModIsPow(c: nat, i: nat)
    ensures PowMod(c, i) == Pow(c, i) % P
  {
    if i > 0 {
      PowModIsPow(c, i - 1);
      ModMulLeft(Pow(c, i - 1), c);
    }
  }

  /** Every power of 1 is 1. */
  lemma {:induction false} PowModOfOne(i: nat)
    ensures PowMod(1, i) == 1
  {
    if i > 0 {
      PowModOfOne(i - 1);
    }
  }

  /** a^i * b^i == (a*b)^i in the field. */
  lemma {:induction false} PowModMul(a: nat, b: nat, i: nat)
    ensures BMul(PowMod(a, i), PowMod(b, i)) == PowMod(BMul(a, b), i)
  {
    if i > 0 {
      PowModMul(a, b, i - 1);
      var x, y := PowMod(a, i - 1), PowMod(b, i - 1);
      calc {
        BMul(PowMod(a, i), PowMod(b, i));
        BMul(BMul(x, a), BMul(y, b));
        { BMulAssoc(x, a, BMul(y, b)); }
        BMul(x, BMul(a, BMul(y, b)));
        { BMulAssoc(a, y, b); BMulComm(a, y); BMulAssoc(y, a, b); }
        BMul(x, BMul(y, BMul(a, b)));
        { BMulAssoc(x, y, BMul(a, b)); }
        BMul(BMul(x, y), BMul(a, b));
        PowMod(BMul(a, b), i);
      }
    }
  }

  /** If `u` inverts `c`, then u^i inverts c^i. */
  lemma InversePowers(c: nat, u: nat, i: nat)
    requires BMul(u, c) == 1
    ensures BMul(PowMod(u, i), PowMod(c, i)) == 1
  {
    PowModMul(u, c, i);
    PowModOfOne(i);
  }

  // ---------------------------------------------------------------------------
  // Powers of two and the `n & (n - 1)` test
  // ---------------------------------------------------------------------------

  /** Bitwise AND of two naturals, bit by bit from the least significant. */
  function BitAnd(a: nat, b: nat): nat
  {
    if a == 0 || b == 0 then 0 else 2 * BitAnd(a / 2, b / 2) + (a % 2) * (b % 2)
  }

  predicate IsPowerOfTwo(n: nat)
  {
    n == 1 || (n >= 2 && n % 2 == 0 && IsPowerOfTwo(n / 2))
  }

  lemma {:induction false} BitAndSelf(m: nat)
    ensures BitAnd(m, m) == m
  {
    if m > 0 {
      BitAndSelf(m / 2);
    }
  }

  /** The validation `n != 0 && n & (n - 1) == 0` accepts exactly the powers of two. */
  lemma {:induction false} PowerOfTwoTest(n: nat)
    requires n >= 1
    ensures BitAnd(n, n - 1) == 0 <==> IsPowerOfTwo(n)
  {
    if n >= 2 {
      if n % 2 == 0 {
        assert (n - 1) / 2 == n / 2 - 1;
        PowerOfTwoTest(n / 2);
      } else {
        assert (n - 1) / 2 == n / 2;
        BitAndSelf(n / 2);
      }
    }
  }

  lemma {:induction false} Pow2IsPowerOfTwo(k: nat)
    ensures IsPowerOfTwo(Pow2(k))
  {
    if k > 0 {
      Pow2IsPowerOfTwo(k - 1);
      assert Pow2(k) / 2 == Pow2(k - 1);
    }
  }

  // ---------------------------------------------------------------------------
  // Library routines outside this model
  // ---------------------------------------------------------------------------

  /** The base-field routines the jets call, which are not part of this model:
      `BPolySlice::try_from`, `as_belt`, the coefficient `bp_shift` writes at
      an index, `bp_ntt` with a raw root word, `bp_fft` (which can fail), the
      coefficient `bpmul` writes at an index of a buffer of a given length,
      the coefficient `bp_hadamard` writes at an index, `ordered_root`,
      `Belt::inv` of a raw word, and `is_zero`. */
  datatype BeltLib = BeltLib(
    decodePoly: Noun -> Option<seq<Belt>>,
    asBelt: Noun -> Option<Belt>,
    shift: (seq<Belt>, Belt, nat) -> Belt,
    ntt: (seq<Belt>, nat) -> seq<Belt>,
    fft: seq<Belt> -> Option<seq<Belt>>,
    mul: (seq<Belt>, seq<Belt>, nat, nat) -> Belt,
    hadamard: (seq<Belt>, seq<Belt>, nat) -> Belt,
    orderedRoot: nat -> Option<Belt>,
    inv: nat -> Belt,
    isZero: seq<Belt> -> bool)
}
