/** The "parallel" base-field jets: FFT, NTT, polynomial multiplication and
    the Hadamard product, with their registration table. The parallel
    routines they call delegate to the sequential library ones; the
    elementwise loop of the large Hadamard case runs sequentially here. */
module BpParallel {
  import opened Nouns
  import opened Belts

  // ---------------------------------------------------------------------------
  // Arguments
  // ---------------------------------------------------------------------------

  /** The whole sample decoded as one polynomial. */
  function PolyArg(lib: BeltLib, subject: Noun): Option<seq<Belt>>
  {
    match Sample(subject)
    case None => None
    case Some(sam) => lib.decodePoly(sam)
  }

  /** Two polynomials at axes 2 and 3 of the sample. */
  function PolyPair(lib: BeltLib, subject: Noun): Option<(seq<Belt>, seq<Belt>)>
  {
    match SamplePair(subject)
    case None => None
    case Some((a, b)) =>
      match (lib.decodePoly(a), lib.decodePoly(b))
      case (Some(p), Some(q)) => Some((p, q))
      case _ => None
  }

  /** `[bp root]`: a polynomial and an atom that fits in 64 bits, passed on
      unreduced as the root. */
  function NttArgs(lib: BeltLib, subject: Noun): Option<(seq<Belt>, nat)>
  {
    match SamplePair(subject)
    case None => None
    case Some((bp, root)) =>
      match (lib.decodePoly(bp), AsU64(root))
      case (Some(p), Some(w)) => Some((p, w))
      case _ => None
  }

  /** Copies a returned polynomial into a freshly allocated buffer (`copy_from_slice`). */
  method CopyToBuffer(src: seq<Belt>) returns (out: seq<Belt>)
    ensures out == src
  {
    var res := new Belt[|src|];
    for i := 0 to |src|
      invariant forall k :: 0 <= k < i ==> res[k] == src[k]
    {
      res[i] := src[i];
    }
    out := res[..];
  }

  // ---------------------------------------------------------------------------
  // FFT and NTT
  // ---------------------------------------------------------------------------

  /** `bp_fft_parallel`: the sequential `bp_fft`, failure included. */
  function FftParallel(lib: BeltLib, input: seq<Belt>): Option<seq<Belt>>
  {
    lib.fft(input)
  }

  /** `bp_ntt_parallel`: the sequential `bp_ntt`. */
  function NttParallel(lib: BeltLib, input: seq<Belt>, root: nat): seq<Belt>
  {
    lib.ntt(input, root)
  }

  /** `bp_fft_parallel_jet`: fails when the sample is not a polynomial or the
      transform fails, and otherwise returns exactly `bp_fft` of the input. */
  method FftJet(lib: BeltLib, subject: Noun) returns (r: JetResult<seq<Belt>>)
    ensures PolyArg(lib, subject).None? ==> r == JetError
    ensures PolyArg(lib, subject).Some? && lib.fft(PolyArg(lib, subject).value).None? ==> r == JetError
    ensures PolyArg(lib, subject).Some? && lib.fft(PolyArg(lib, subject).value).Some? ==>
      r == Done(lib.fft(PolyArg(lib, subject).value).value)
  {
    var p := PolyArg(lib, subject);
    if p.None? {
      return JetError;
    }
    var returned := FftParallel(lib, p.value);
    if returned.None? {
      return JetError;
    }
    var out := CopyToBuffer(returned.value);
    r := Done(out);
  }

  /** `bp_ntt_parallel_jet`: fails unless the polynomial decodes and the root
      is an atom below 2^64, and otherwise returns exactly `bp_ntt(p, root)`. */
  method NttJet(lib: BeltLib, subject: Noun) returns (r: JetResult<seq<Belt>>)
    ensures NttArgs(lib, subject).None? ==> r == JetError
    ensures NttArgs(lib, subject).Some? ==>
      var (p, root) := NttArgs(lib, subject).value;
      r == Done(lib.ntt(p, root))
  {
    var args := NttArgs(lib, subject);
    if args.None? {
      return JetError;
    }
    var (p, root) := args.value;
    var out := CopyToBuffer(NttParallel(lib, p, root));
    r := Done(out);
  }

  // ---------------------------------------------------------------------------
  // Multiplication
  // ---------------------------------------------------------------------------

  /** The buffer length of `bpmul_parallel_jet`: 1 when either operand is the
      zero polynomial, otherwise |p| + |q| - 1; that subtraction underflows
      (a panic) when both operands are empty and neither counts as zero. */
  function MulResLen(lib: BeltLib, p: seq<Belt>, q: seq<Belt>): (r: Option<nat>)
    ensures r.None? <==> !lib.isZero(p) && !lib.isZero(q) && |p| == 0 && |q| == 0
    ensures r.Some? && (lib.isZero(p) || lib.isZero(q)) ==> r.value == 1
    ensures r.Some? && !lib.isZero(p) && !lib.isZero(q) ==> r.value + 1 == |p| + |q|
  {
    if lib.isZero(p) || lib.isZero(q) then Some(1)
    else if |p| + |q| == 0 then None
    else Some(|p| + |q| - 1)
  }

  function MulCoeff(lib: BeltLib, p: seq<Belt>, q: seq<Belt>, n: nat, i: nat): Belt
  {
    lib.mul(p, q, n, i)
  }

  /** The buffer of length n that `bpmul` fills. */
  function LibMul(lib: BeltLib, p: seq<Belt>, q: seq<Belt>, n: nat): (r: seq<Belt>)
    ensures |r| == n
  {
    seq(n, i requires 0 <= i < n => MulCoeff(lib, p, q, n, i))
  }

  /** The call `bpmul(a, b, res)`: the library routine, whose code is not part
      of this model, writes its coefficients into the caller's buffer. */
  method Bpmul(lib: BeltLib, a: seq<Belt>, b: seq<Belt>, res: array<Belt>)
    modifies res
    ensures res[..] == LibMul(lib, a, b, res.Length)
  {
    for i := 0 to res.Length
      invariant forall k :: 0 <= k < i ==> res[k] == MulCoeff(lib, a, b, res.Length, k)
    {
      res[i] := MulCoeff(lib, a, b, res.Length, i);
    }
  }

  /** `bpmul_fft_parallel`: delegates to `bpmul`. */
  method BpmulFftParallel(lib: BeltLib, a: seq<Belt>, b: seq<Belt>, res: array<Belt>)
    modifies res
    ensures res[..] == LibMul(lib, a, b, res.Length)
  {
    Bpmul(lib, a, b, res);
  }

  /** `bpmul_parallel_jet`. The result has the length `MulResLen` prescribes
      and is the same on both sides of the 64-coefficient threshold. */
  method MulJet(lib: BeltLib, subject: Noun) returns (r: JetResult<seq<Belt>>)
    ensures PolyPair(lib, subject).None? ==> r == JetError
    ensures PolyPair(lib, subject).Some? ==>
      var (p, q) := PolyPair(lib, subject).value;
      (MulResLen(lib, p, q).None? ==> r == Panicked) &&
      (MulResLen(lib, p, q).Some? ==> r == Done(LibMul(lib, p, q, MulResLen(lib, p, q).value)))
  {
    var args := PolyPair(lib, subject);
    if args.None? {
      return JetError;
    }
    var (p, q) := args.value;
    var len := MulResLen(lib, p, q);
    if len.None? {
      return Panicked;
    }
    var res := new Belt[len.value];
    if len.value > 64 {
      BpmulFftParallel(lib, p, q, res);
    } else {
      Bpmul(lib, p, q, res);
    }
    r := Done(res[..]);
  }

  // ---------------------------------------------------------------------------
  // Hadamard product
  // ---------------------------------------------------------------------------

  /** The elementwise product in the field. */
  function Pointwise(p: seq<Belt>, q: seq<Belt>): (r: seq<Belt>)
    requires |p| == |q|
    ensures |r| == |p|
  {
    seq(|p|, i requires 0 <= i < |p| => BMul(p[i], q[i]))
  }

  function HadamardCoeff(lib: BeltLib, p: seq<Belt>, q: seq<Belt>, i: nat): Belt
  {
    lib.hadamard(p, q, i)
  }

  /** The buffer `bp_hadamard` fills. */
  function LibHadamard(lib: BeltLib, p: seq<Belt>, q: seq<Belt>): (r: seq<Belt>)
    ensures |r| == |p|
  {
    seq(|p|, i requires 0 <= i < |p| => HadamardCoeff(lib, p, q, i))
  }

  /** `bp_hadamard_parallel_jet`. Operands of different lengths panic; the
      result has their common length; above 1024 elements it is the
      elementwise product, at or below it is what `bp_hadamard` writes. */
  method HadamardJet(lib: BeltLib, subject: Noun) returns (r: JetResult<seq<Belt>>)
    ensures PolyPair(lib, subject).None? ==> r == JetError
    ensures PolyPair(lib, subject).Some? ==>
      var (p, q) := PolyPair(lib, subject).value;
      (|p| != |q| ==> r == Panicked) &&
      (|p| == |q| && |p| > 1024 ==> r == Done(Pointwise(p, q))) &&
      (|p| == |q| && |p| <= 1024 ==> r == Done(LibHadamard(lib, p, q)))
  {
    var args := PolyPair(lib, subject);
    if args.None? {
      return JetError;
    }
    var (p, q) := args.value;
    if |p| != |q| {
      return Panicked;
    }
    var res := new Belt[|p|];
    if |p| > 1024 {
      for i := 0 to |p|
        invariant forall k :: 0 <= k < i ==> res[k] == BMul(p[k], q[k])
      {
        res[i] := BMul(p[i], q[i]);
      }
      assert res[..] == Pointwise(p, q);
    } else {
      for i := 0 to |p|
        invariant forall k :: 0 <= k < i ==> res[k] == HadamardCoeff(lib, p, q, k)
      {
        res[i] := HadamardCoeff(lib, p, q, i);
      }
      assert res[..] == LibHadamard(lib, p, q);
    }
    r := Done(res[..]);
  }

  /** When `bp_hadamard` computes the elementwise product, both sides of the
      1024-element threshold return the same buffer. */
  lemma HadamardBranchesAgree(lib: BeltLib, p: seq<Belt>, q: seq<Belt>)
    requires |p| == |q|
    requires forall i :: 0 <= i < |p| ==> lib.hadamard(p, q, i) == BMul(p[i], q[i])
    ensures LibHadamard(lib, p, q) == Pointwise(p, q)
  {
  }

  /** The elementwise product does not depend on the order of its operands. */
  lemma PointwiseCommutes(p: seq<Belt>, q: seq<Belt>)
    requires |p| == |q|
    ensures Pointwise(p, q) == Pointwise(q, p)
  {
    forall i | 0 <= i < |p|
      ensures Pointwise(p, q)[i] == Pointwise(q, p)[i]
    {
      BMulComm(p[i], q[i]);
    }
  }

  // ---------------------------------------------------------------------------
  // Registration
  // ---------------------------------------------------------------------------

  /** A segment of a jet's battery path: a kernel version or an arm label. */
  datatype Segment = Kelvin(version: nat) | Label(name: string)

  datatype ParallelJet = FftParallelJet | NttParallelJet | MulParallelJet | HadamardParallelJet

  /** A hot-state entry: battery path, axis of the arm, and the jet. */
  datatype HotEntry = HotEntry(path: seq<Segment>, axis: nat, jet: ParallelJet)

  const ZekePath: seq<Segment> :=
    [Kelvin(138), Label("one"), Label("two"), Label("tri"), Label("qua"), Label("pen"), Label("zeke")]

  /** `PARALLEL_POLY_JETS`. */
  const ParallelPolyJets: seq<HotEntry> := [
    HotEntry(ZekePath + [Label("bp-fft-parallel")], 1, FftParallelJet),
    HotEntry(ZekePath + [Label("bp-ntt-parallel")], 1, NttParallelJet),
    HotEntry(ZekePath + [Label("bpmul-parallel")], 1, MulParallelJet),
    HotEntry(ZekePath + [Label("bp-hadamard-parallel")], 1, HadamardParallelJet)
  ]

  /** The jet registered for a path: the first entry with that path. */
  function Lookup(entries: seq<HotEntry>, path: seq<Segment>): (r: Option<ParallelJet>)
    ensures r.Some? ==> exists i :: 0 <= i < |entries| && entries[i].path == path && entries[i].jet == r.value
    ensures r.None? ==> forall i :: 0 <= i < |entries| ==> entries[i].path != path
  {
    if entries == [] then None
    else if entries[0].path == path then Some(entries[0].jet)
    else
      var rest := Lookup(entries[1..], path);
      if rest.Some? then
        assert exists i :: 0 <= i < |entries[1..]| && entries[1..][i].path == path && entries[1..][i].jet == rest.value;
        var i :| 0 <= i < |entries[1..]| && entries[1..][i].path == path && entries[1..][i].jet == rest.value;
        assert entries[i + 1] == entries[1..][i];
        rest
      else
        assert forall i :: 1 <= i < |entries| ==> entries[i] == entries[1..][i - 1];
        None
  }

  /** With every other entry on a different path, an entry's own path finds its jet. */
  lemma LookupDistinct(entries: seq<HotEntry>, i: nat)
    requires i < |entries|
    requires forall j :: 0 <= j < |entries| && j != i ==> entries[j].path != entries[i].path
    ensures Lookup(entries, entries[i].path) == Some(entries[i].jet)
  {
  }

  /** The four arms under the zeke core resolve, at axis 1, to the four jets in order. */
  lemma RegistryResolves()
    ensures Lookup(ParallelPolyJets, ZekePath + [Label("bp-fft-parallel")]) == Some(FftParallelJet)
    ensures Lookup(ParallelPolyJets, ZekePath + [Label("bp-ntt-parallel")]) == Some(NttParallelJet)
    ensures Lookup(ParallelPolyJets, ZekePath + [Label("bpmul-parallel")]) == Some(MulParallelJet)
    ensures Lookup(ParallelPolyJets, ZekePath + [Label("bp-hadamard-parallel")]) == Some(HadamardParallelJet)
    ensures |ParallelPolyJets| == 4
    ensures forall i :: 0 <= i < 4 ==> ParallelPolyJets[i].axis == 1
  {
    var e := ParallelPolyJets;
    assert e[0].path != e[1].path by { assert e[0].path[7] != e[1].path[7]; }
    assert e[0].path != e[2].path by { assert e[0].path[7] != e[2].path[7]; }
    assert e[1].path != e[2].path by { assert e[1].path[7] != e[2].path[7]; }
    assert e[0].path != e[3].path by { assert e[0].path[7] != e[3].path[7]; }
    assert e[1].path != e[3].path by { assert e[1].path[7] != e[3].path[7]; }
    assert e[2].path != e[3].path by { assert e[2].path[7] != e[3].path[7]; }
    LookupDistinct(e, 0);
    LookupDistinct(e, 1);
    LookupDistinct(e, 2);
    LookupDistinct(e, 3);
  }
}
