/** The jet wrappers around the extension-field polynomial kernels
    (`fp_add_jet` ... `fpcompose_jet`). Each reads its arguments from the
    sample of the subject, decodes them, allocates a result buffer of the
    length its rule prescribes, runs the kernel and returns the buffer.

    The two copies of these wrappers differ only in how the scalar of
    `fp_scal_jet` and the point of `fp_eval_jet` are decoded: one uses
    `Felt::try_from`, which falls back to reading a raw four-word atom, the
    other uses `as_felt` alone. `ScalarRead` selects between them. */
module FeltJets {
  import opened Nouns
  import opened FeltPoly

  /** The noun-level helpers the wrappers call, which are not part of this model:
      `FPolySlice::try_from`, `as_felt`, building a felt from three raw 64-bit
      words, and reading a felt's three words back. */
  datatype FeltCodec<!F> = FeltCodec(
    decodePoly: Noun -> Option<seq<F>>,
    asFelt: Noun -> Option<F>,
    fromWords: (nat, nat, nat) -> F,
    words: F -> (nat, nat, nat))

  /** How a wrapper decodes a single felt argument. */
  datatype ScalarRead = TryFrom | AsFeltOnly

  const W1: nat := 0x1_0000_0000_0000_0000
  const W2: nat := W1 * W1
  const W3: nat := W2 * W1
  const W4: nat := W3 * W1

  /** An indirect atom occupying exactly four 64-bit words (direct atoms are below 2^63). */
  predicate IsFourWordAtom(v: nat)
  {
    W3 <= v < W4
  }

  /** `Felt::try_from`: `as_felt` first; failing that, an atom of exactly four
      words, whose low three words become the felt's coefficients unreduced. */
  function TryFromFelt<F>(codec: FeltCodec<F>, n: Noun): (r: Option<F>)
    ensures codec.asFelt(n).Some? ==> r == codec.asFelt(n)
    ensures codec.asFelt(n).None? && n.Atom? && IsFourWordAtom(n.value) ==>
      r == Some(codec.fromWords(n.value % W1, (n.value / W1) % W1, (n.value / W1 / W1) % W1))
    ensures codec.asFelt(n).None? && !(n.Atom? && IsFourWordAtom(n.value)) ==> r.None?
  {
    match codec.asFelt(n)
    case Some(f) => Some(f)
    case None =>
      if n.Atom? && IsFourWordAtom(n.value) then
        var v := n.value;
        Some(codec.fromWords(v % W1, (v / W1) % W1, (v / W1 / W1) % W1))
      else None
  }

  function ReadScalar<F>(codec: FeltCodec<F>, how: ScalarRead, n: Noun): Option<F>
  {
    match how
    case TryFrom => TryFromFelt(codec, n)
    case AsFeltOnly => codec.asFelt(n)
  }

  /** Whatever `as_felt` alone accepts, `Felt::try_from` accepts with the same value:
      a wrapper that decodes with `as_felt` succeeds only where the other one
      succeeds, and then with the same result. */
  lemma AsFeltOnlyIsStricter<F>(codec: FeltCodec<F>, n: Noun)
    ensures ReadScalar(codec, AsFeltOnly, n).Some? ==>
      ReadScalar(codec, TryFrom, n) == ReadScalar(codec, AsFeltOnly, n)
  {
  }

  /** The atom `fp_eval_jet` returns: the felt's three words as 24 little-endian bytes. */
  function FeltAtom<F>(codec: FeltCodec<F>, f: F): (r: nat)
    ensures r < W3
  {
    var (a, b, c) := codec.words(f);
    WordsBound(a % W1, b % W1, c % W1);
    a % W1 + W1 * (b % W1) + W2 * (c % W1)
  }

  lemma WordsBound(a: nat, b: nat, c: nat)
    requires a < W1 && b < W1 && c < W1
    ensures a + W1 * b + W2 * c < W3
  {
    assert W1 * b <= W1 * (W1 - 1);
    assert W2 * c <= W2 * (W1 - 1);
  }

  /** Splitting x = a + W1*y with a < W1 recovers a and y. */
  lemma DivModWord(a: nat, y: nat)
    requires a < W1
    ensures (a + W1 * y) % W1 == a
    ensures (a + W1 * y) / W1 == y
  {
  }

  /** The atom returned by `fp_eval_jet` carries the felt's three words, which
      word-wise decoding (as the raw fallback of `Felt::try_from` does) reads
      back; yet being below 2^192 it is never the four-word atom that fallback
      accepts. */
  lemma FeltAtomWords<F>(codec: FeltCodec<F>, f: F)
    ensures var (a, b, c) := codec.words(f);
      var v := FeltAtom(codec, f);
      v % W1 == a % W1 && (v / W1) % W1 == b % W1 && (v / W1 / W1) % W1 == c % W1
    ensures !IsFourWordAtom(FeltAtom(codec, f))
  {
    var (a, b, c) := codec.words(f);
    var a0, b0, c0 := a % W1, b % W1, c % W1;
    var v := FeltAtom(codec, f);
    var hi := b0 + W1 * c0;
    assert v == a0 + W1 * hi;
    DivModWord(a0, hi);
    DivModWord(b0, c0);
  }

  // ---------------------------------------------------------------------------
  // Argument decoding
  // ---------------------------------------------------------------------------

  /** A single polynomial sample (`slot(subject, 6)` decoded as a polynomial). */
  function PolyArg<F>(codec: FeltCodec<F>, subject: Noun): Option<seq<F>>
  {
    match Sample(subject)
    case None => None
    case Some(sam) => codec.decodePoly(sam)
  }

  /** Two polynomials at axes 2 and 3 of the sample. */
  function PolyPair<F>(codec: FeltCodec<F>, subject: Noun): Option<(seq<F>, seq<F>)>
  {
    match SamplePair(subject)
    case None => None
    case Some((a, b)) =>
      match (codec.decodePoly(a), codec.decodePoly(b))
      case (Some(p), Some(q)) => Some((p, q))
      case _ => None
  }

  /** `[c p]` for the scaling jet: a felt and a polynomial. */
  function ScalArgs<F>(codec: FeltCodec<F>, how: ScalarRead, subject: Noun): Option<(F, seq<F>)>
  {
    match SamplePair(subject)
    case None => None
    case Some((c, fp)) =>
      match (codec.decodePoly(fp), ReadScalar(codec, how, c))
      case (Some(p), Some(cf)) => Some((cf, p))
      case _ => None
  }

  /** `[p x]` for the evaluation jet: a polynomial and a felt. */
  function EvalArgs<F>(codec: FeltCodec<F>, how: ScalarRead, subject: Noun): Option<(seq<F>, F)>
  {
    match SamplePair(subject)
    case None => None
    case Some((fp, x)) =>
      match (codec.decodePoly(fp), ReadScalar(codec, how, x))
      case (Some(p), Some(xf)) => Some((p, xf))
      case _ => None
  }

  // ---------------------------------------------------------------------------
  // The wrappers
  // ---------------------------------------------------------------------------

  /** fp_add_jet: a buffer of max(|p|, |q|) felts filled by fpadd_poly. */
  method AddJet<F>(ops: FeltOps<F>, codec: FeltCodec<F>, subject: Noun) returns (r: JetResult<seq<F>>)
    ensures PolyPair(codec, subject).None? ==> r == JetError
    ensures PolyPair(codec, subject).Some? ==>
      var (p, q) := PolyPair(codec, subject).value;
      r == Done(AddSpec(ops, p, q)) && |r.value| == Max(|p|, |q|)
  {
    var args := PolyPair(codec, subject);
    if args.None? {
      return JetError;
    }
    var (p, q) := args.value;
    var res := new F[Max(|p|, |q|)](_ => ops.zero);
    FpAddPoly(ops, p, q, res);
    assert res[..] == res[..Max(|p|, |q|)];
    return Done(res[..]);
  }

  /** fp_neg_jet: a buffer of |p| felts filled by fpneg_poly. */
  method NegJet<F>(ops: FeltOps<F>, codec: FeltCodec<F>, subject: Noun) returns (r: JetResult<seq<F>>)
    ensures PolyArg(codec, subject).None? ==> r == JetError
    ensures PolyArg(codec, subject).Some? ==>
      r == Done(NegSpec(ops, PolyArg(codec, subject).value)) && |r.value| == |PolyArg(codec, subject).value|
  {
    var arg := PolyArg(codec, subject);
    if arg.None? {
      return JetError;
    }
    var p := arg.value;
    var res := new F[|p|](_ => ops.zero);
    FpNegPoly(ops, p, res);
    assert res[..] == res[..|p|];
    return Done(res[..]);
  }

  /** fp_sub_jet: a buffer of max(|p|, |q|) felts filled by fpsub_poly. */
  method SubJet<F>(ops: FeltOps<F>, codec: FeltCodec<F>, subject: Noun) returns (r: JetResult<seq<F>>)
    ensures PolyPair(codec, subject).None? ==> r == JetError
    ensures PolyPair(codec, subject).Some? ==>
      var (p, q) := PolyPair(codec, subject).value;
      r == Done(SubSpec(ops, p, q)) && |r.value| == Max(|p|, |q|)
  {
    var args := PolyPair(codec, subject);
    if args.None? {
      return JetError;
    }
    var (p, q) := args.value;
    var res := new F[Max(|p|, |q|)](_ => ops.zero);
    FpSubPoly(ops, p, q, res);
    assert res[..] == res[..Max(|p|, |q|)];
    return Done(res[..]);
  }

  /** fp_scal_jet: errors unless both the polynomial and the scalar decode;
      then a buffer of |p| felts filled by fpscal_poly. */
  method ScalJet<F>(ops: FeltOps<F>, codec: FeltCodec<F>, how: ScalarRead, subject: Noun)
    returns (r: JetResult<seq<F>>)
    ensures ScalArgs(codec, how, subject).None? ==> r == JetError
    ensures ScalArgs(codec, how, subject).Some? ==>
      var (c, p) := ScalArgs(codec, how, subject).value;
      r == Done(ScalSpec(ops, c, p)) && |r.value| == |p|
  {
    var args := ScalArgs(codec, how, subject);
    if args.None? {
      return JetError;
    }
    var (c, p) := args.value;
    var res := new F[|p|](_ => ops.zero);
    FpScalPoly(ops, c, p, res);
    assert res[..] == res[..|p|];
    return Done(res[..]);
  }

  /** fp_mul_jet: a buffer of MulLen(|p|, |q|) felts filled by fpmul_poly. */
  method MulJet<F>(ops: FeltOps<F>, codec: FeltCodec<F>, subject: Noun) returns (r: JetResult<seq<F>>)
    ensures PolyPair(codec, subject).None? ==> r == JetError
    ensures PolyPair(codec, subject).Some? ==>
      var (p, q) := PolyPair(codec, subject).value;
      r == Done(MulSpec(ops, p, q)) && |r.value| == MulLen(|p|, |q|)
  {
    var args := PolyPair(codec, subject);
    if args.None? {
      return JetError;
    }
    var (p, q) := args.value;
    var res := new F[MulLen(|p|, |q|)](_ => ops.zero);
    FpMulPoly(ops, p, q, res);
    assert res[..] == MulSpec(ops, p, q);
    return Done(res[..]);
  }

  /** fp_eval_jet: the Horner value of p at x, returned as a 24-byte atom. */
  method EvalJet<F>(ops: FeltOps<F>, codec: FeltCodec<F>, how: ScalarRead, subject: Noun)
    returns (r: JetResult<Noun>)
    ensures EvalArgs(codec, how, subject).None? ==> r == JetError
    ensures EvalArgs(codec, how, subject).Some? ==>
      var (p, x) := EvalArgs(codec, how, subject).value;
      r == Done(Atom(FeltAtom(codec, Horner(ops, p, x))))
  {
    var args := EvalArgs(codec, how, subject);
    if args.None? {
      return JetError;
    }
    var (p, x) := args.value;
    var result := FpEvalPoly(ops, p, x);
    return Done(Atom(FeltAtom(codec, result)));
  }

  /** fp_fft_jet: the placeholder transform returns its input unchanged. */
  method FftJet<F>(ops: FeltOps<F>, codec: FeltCodec<F>, subject: Noun) returns (r: JetResult<seq<F>>)
    ensures PolyArg(codec, subject).None? ==> r == JetError
    ensures PolyArg(codec, subject).Some? ==> r == Done(PolyArg(codec, subject).value)
  {
    var arg := PolyArg(codec, subject);
    if arg.None? {
      return JetError;
    }
    var p := arg.value;
    var res := new F[|p|](_ => ops.zero);
    FpFftPoly(p, res);
    assert res[..] == res[..|p|];
    return Done(res[..]);
  }

  /** fp_ifft_jet: the placeholder inverse transform returns its input unchanged. */
  method IfftJet<F>(ops: FeltOps<F>, codec: FeltCodec<F>, subject: Noun) returns (r: JetResult<seq<F>>)
    ensures PolyArg(codec, subject).None? ==> r == JetError
    ensures PolyArg(codec, subject).Some? ==> r == Done(PolyArg(codec, subject).value)
  {
    var arg := PolyArg(codec, subject);
    if arg.None? {
      return JetError;
    }
    var p := arg.value;
    var res := new F[|p|](_ => ops.zero);
    FpIfftPoly(p, res);
    assert res[..] == res[..|p|];
    return Done(res[..]);
  }

  /** interpolate_jet: errors when the domain and the values differ in length;
      otherwise a buffer of |domain| felts filled by interpolate_poly. */
  method InterpolateJet<F>(ops: FeltOps<F>, codec: FeltCodec<F>, subject: Noun)
    returns (r: JetResult<seq<F>>)
    ensures PolyPair(codec, subject).None? ==> r == JetError
    ensures PolyPair(codec, subject).Some? ==>
      var (d, v) := PolyPair(codec, subject).value;
      (|d| != |v| ==> r == JetError) &&
      (|d| == |v| ==> r == Done(InterpolateSpec(ops, d, v)) && |r.value| == |d|)
  {
    var args := PolyPair(codec, subject);
    if args.None? {
      return JetError;
    }
    var (d, v) := args.value;
    if |d| != |v| {
      return JetError;
    }
    var res := new F[|d|](_ => ops.zero);
    InterpolatePoly(ops, d, v, res);
    assert res[..] == res[..|d|];
    return Done(res[..]);
  }

  /** fpcompose_jet: a buffer of ComposeLen(|p|, |q|) felts filled by fpcompose_poly. */
  method ComposeJet<F>(ops: FeltOps<F>, codec: FeltCodec<F>, subject: Noun) returns (r: JetResult<seq<F>>)
    ensures PolyPair(codec, subject).None? ==> r == JetError
    ensures PolyPair(codec, subject).Some? ==>
      var (p, q) := PolyPair(codec, subject).value;
      r == Done(ComposeSpec(ops, p, q)) && |r.value| == ComposeLen(|p|, |q|)
  {
    var args := PolyPair(codec, subject);
    if args.None? {
      return JetError;
    }
    var (p, q) := args.value;
    var n := ComposeLen(|p|, |q|);
    var res := new F[n](_ => ops.zero);
    FpComposePoly(ops, p, q, res);
    if |p| == 0 || |q| == 0 {
      assert res[..] == [];
    } else {
      assert res[..] == ComposeBuffer(ops, p, q, n);
    }
    return Done(res[..]);
  }
}
