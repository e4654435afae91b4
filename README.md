# Nockchain prover jets and mining driver logic, modelled in Dafny

This project models the sequential core of five parts of the nockchain
repository. Each part's contracts are proved against a specification.

- **Extension-field polynomial kernels** (`FeltPoly`, `FeltAlgebra`). These are the
  buffer-filling kernels behind the `fp_*` jets: add, sub, neg, scale,
  convolution multiply, Horner evaluation, placeholder FFT/IFFT, the
  simplified interpolation, and composition.
  - Each kernel is a method over an `array`, with loop invariants. It is proved equal
    to a specification function on sequences.
  - `FeltAlgebra` then proves, under the commutative-ring laws, what those functions
    mean as polynomials: the result of `fpmul_poly` evaluates to p(x)·q(x), the result
    of `fpcompose_poly` to p(q(x)), and so on.
  - The felt type is a type parameter with its operations passed in as a record. The
    cubic-extension arithmetic itself is not part of this model.
- **Jet wrappers** (`FeltJets`). How `fp_add_jet` … `fpcompose_jet` read their sample,
  which inputs make them fail, and how long a buffer they allocate. Both copies of the
  wrappers are modelled. They differ only in how a single felt argument is decoded
  (`Felt::try_from` or `as_felt`), and `ScalarRead` selects between the two.
- **The domain cache** (`Belts`, `Domains`).
  - Base-field elements are naturals below P = 2^64 − 2^32 + 1.
  - `DomainCache` is a class holding the `(size, offset)` table and the four counters.
  - It covers `new`, `precompute_domain`, `get`, the cached coset-shift jet, the
    intercosate jet with its validation, and `get_cache_stats`.
- **The parallel base-field jets** (`BpParallel`). The multiplication length rule, the
  sequential/parallel dispatch of multiplication and of the Hadamard product, the FFT
  and NTT delegations, and the registration table.
- **The table-building jets** (`TableJets`). The walk over the compute queue, the
  one-hot operation rows and the padding row, `rows_to_list`, the entry count, the two
  table headers, and both build jets. Nouns are `Atom(nat) | Cell(head, tail)`
  (`Nouns`).
- **The mining driver's sequential logic** (`Mining`).
  - The worker-count rule and threads per worker.
  - The `share,m:key1,key2` parser, with a round trip through its printed form.
  - The wires.
  - The set-key and enable pokes, including the nested loops that build the advanced
    poke.
  - The bounded candidate queue with its enqueue-or-drop rule.

Library routines that the jets call but whose code is not part of this model are fields
of records passed as parameters (`Belts.BeltLib`, `FeltJets.FeltCodec`). The jets are
proved to return exactly what those routines produce. These routines are:
`bp_ntt`, `bp_fft`, `bpmul`, `bp_hadamard`, `bp_shift`, `ordered_root`, `Belt::inv`,
`is_zero`, and polynomial and felt decoding. The model proves nothing about their
internals.

Where the project's written description and the code disagree, the model follows the code.
The exceptions are the two source defects listed under "## Findings". For each of them,
separate as-written members carry the code's behaviour. The members the rest of the model
uses carry the evidently intended behaviour: the intercosate jet reads its sample at the
corrected axes, and the table headers hold the prime as a full atom. The cases where the
model follows the code:

- A mining worker that panics is not restarted (`crates/nockchain/src/mining.rs:263-265`).
  Only a worker that returns normally is. Workers are not part of this model.
- Hadamard operands of different lengths make the jet panic (`assert_eq!`). It does not
  return a jet error. `BpParallel.HadamardJet` returns `Panicked`.
- On a miss, `get` neither computes nor inserts anything.
  - The unit test at `crates/zkvm-jetpack/src/domain_cache.rs:390-393` expects the
    second lookup of `(37, 2)` to be a hit. The code makes it a second miss.
  - `Domains.CacheHitMissScenario` proves the counters the code produces: one hit and
    two misses.

## Model

| member | source | states |
|---|---|---|
| FeltPoly.FpAddPoly | crates/zkvm-jetpack/src/jets/bp_jets.rs:274-295 | the first max(\|p\|,\|q\|) slots hold q[i] + (p[i] + 0), a missing coefficient read as zero; slots past them are untouched; the copy at fp_jets.rs:302-323 is identical |
| FeltPoly.FpNegPoly | crates/zkvm-jetpack/src/jets/bp_jets.rs:298-302 | slot i holds −p[i] for i < \|p\|, the rest untouched; the copy at fp_jets.rs:326-330 is identical |
| FeltPoly.FpSubPoly | crates/zkvm-jetpack/src/jets/bp_jets.rs:305-328 | the first max(\|p\|,\|q\|) slots hold p[i] + (−q[i]), missing coefficients read as zero; the copy at fp_jets.rs:333-356 is identical |
| FeltPoly.FpScalPoly | crates/zkvm-jetpack/src/jets/bp_jets.rs:331-335 | slot i holds c·p[i] for i < \|p\|, the rest untouched; the copy at fp_jets.rs:359-363 is identical |
| FeltPoly.FpMulPoly | crates/zkvm-jetpack/src/jets/bp_jets.rs:338-360 | an empty operand leaves the buffer untouched; otherwise every slot k holds the sum of p[i]·q[j] over i + j = k (zero past \|p\|+\|q\|−1); the copy at fp_jets.rs:366-388 is identical |
| FeltPoly.FpEvalPoly | crates/zkvm-jetpack/src/jets/bp_jets.rs:363-377 | zero for the empty polynomial, otherwise the Horner fold from the top coefficient down; the copy at fp_jets.rs:391-405 is identical |
| FeltPoly.FpFftPoly | crates/zkvm-jetpack/src/jets/bp_jets.rs:380-386 | the placeholder transform copies its input exactly; the copy at fp_jets.rs:408-414 is identical |
| FeltPoly.FpIfftPoly | crates/zkvm-jetpack/src/jets/bp_jets.rs:389-395 | the placeholder inverse transform copies its input exactly; the copy at fp_jets.rs:417-423 is identical |
| FeltPoly.LagrangeDenom | crates/zkvm-jetpack/src/jets/bp_jets.rs:408-418 | the inner loop leaves the denominator Π_{j≠i}(d[i] − d[j]), taken in order of j, as the specification function Denom states it |
| FeltPoly.InterpolatePoly | crates/zkvm-jetpack/src/jets/bp_jets.rs:398-428 | slot 0 holds the sum of values[i] / Π_{j≠i}(d[i] − d[j]); every other slot below \|domain\| is zero; the copy at fp_jets.rs:426-456 is identical |
| FeltPoly.FpComposePoly | crates/zkvm-jetpack/src/jets/bp_jets.rs:431-471 | an empty operand leaves the buffer untouched; otherwise slot j holds the sum of p[i]·(Q^i)[j], Q^i formed by repeated multiplication; the copy at fp_jets.rs:459-499 is identical |
| FeltPoly.QPowFits | crates/zkvm-jetpack/src/jets/bp_jets.rs:445-469 | every intermediate power Q^i with i < \|p\| fits in the (\|p\|−1)(\|q\|−1)+1 result slots |
| FeltPoly.NextPower | crates/zkvm-jetpack/src/jets/bp_jets.rs:448-461 | the next power is a fresh buffer holding the product of the current power and q |
| FeltPoly.AddScaledInto | crates/zkvm-jetpack/src/jets/bp_jets.rs:463-469 | slot k gains c·Q^i[k] for k below both lengths; every other slot is unchanged |
| FeltAlgebra.EvalOfAdd | crates/zkvm-jetpack/src/jets/bp_jets.rs:274-295 | under the ring laws the sum evaluates to p(x) + q(x) |
| FeltAlgebra.AddCommutes | crates/zkvm-jetpack/src/jets/bp_jets.rs:274-295 | adding p to q and q to p give the same polynomial, whatever the lengths |
| FeltAlgebra.EvalOfNeg | crates/zkvm-jetpack/src/jets/bp_jets.rs:298-302 | the negation evaluates to −p(x) |
| FeltAlgebra.NegNeg | crates/zkvm-jetpack/src/jets/bp_jets.rs:298-302 | negating twice gives back the polynomial |
| FeltAlgebra.SubIsAddNeg | crates/zkvm-jetpack/src/jets/bp_jets.rs:305-328 | subtraction is addition of the negated second operand, coefficient for coefficient |
| FeltAlgebra.EvalOfSub | crates/zkvm-jetpack/src/jets/bp_jets.rs:305-328 | the difference evaluates to p(x) − q(x) |
| FeltAlgebra.EvalOfScal | crates/zkvm-jetpack/src/jets/bp_jets.rs:331-335 | the scaled polynomial evaluates to c·p(x) |
| FeltAlgebra.ScalCompose | crates/zkvm-jetpack/src/jets/bp_jets.rs:331-335 | scaling by d then by c is scaling by c·d |
| FeltAlgebra.MulRowsEval | crates/zkvm-jetpack/src/jets/bp_jets.rs:351-359 | after m rows of the double loop the buffer evaluates to (p[0..m])(x)·q(x) |
| FeltAlgebra.EvalOfMul | crates/zkvm-jetpack/src/jets/bp_jets.rs:338-360 | the product evaluates to p(x)·q(x) |
| FeltAlgebra.HornerIsEval | crates/zkvm-jetpack/src/jets/bp_jets.rs:363-377 | the Horner fold is the value of the polynomial at x |
| FeltAlgebra.QPowEval | crates/zkvm-jetpack/src/jets/bp_jets.rs:445-461 | the i-th power the kernel forms evaluates to q(x)^i |
| FeltAlgebra.ComposeRowsStep | crates/zkvm-jetpack/src/jets/bp_jets.rs:463-469 | adding term k onto the buffer adds p[k]·q(x)^k to the value the buffer evaluates to |
| FeltAlgebra.ComposeRowsEval | crates/zkvm-jetpack/src/jets/bp_jets.rs:441-470 | after m terms the buffer evaluates to (p[0..m])(q(x)) |
| FeltAlgebra.EvalOfCompose | crates/zkvm-jetpack/src/jets/bp_jets.rs:431-471 | for non-empty q the composition evaluates to p(q(x)) |
| FeltAlgebra.InterpolateIsConstant | crates/zkvm-jetpack/src/jets/bp_jets.rs:398-428 | the interpolation result is the constant polynomial whose value is the sum of values[i]/denominator_i |
| FeltAlgebra.InterpolateSinglePoint | crates/zkvm-jetpack/src/jets/bp_jets.rs:398-428 | over a field, through one point (d0, v0) the result is the constant v0 |
| FeltJets.TryFromFelt | crates/zkvm-jetpack/src/jets/bp_jets.rs:474-508 | `as_felt` first; failing that, an atom of exactly four words yields its low three words as coefficients; anything else fails |
| FeltJets.AsFeltOnlyIsStricter | crates/zkvm-jetpack/src/jets/fp_jets.rs:182-194 | what `as_felt` alone accepts, `Felt::try_from` accepts with the same value |
| FeltJets.FeltAtom | crates/zkvm-jetpack/src/jets/bp_jets.rs:169-176 | the atom of the evaluated felt is below 2^192 |
| FeltJets.FeltAtomWords | crates/zkvm-jetpack/src/jets/bp_jets.rs:169-176 | the atom's three 64-bit words are the felt's three coefficients, in little-endian order |
| FeltJets.AddJet | crates/zkvm-jetpack/src/jets/bp_jets.rs:47-64 | a decoding failure is a jet error; otherwise the sum, of length max(\|p\|,\|q\|); the copy at fp_jets.rs:57-92 is identical apart from logging |
| FeltJets.NegJet | crates/zkvm-jetpack/src/jets/bp_jets.rs:67-81 | a decoding failure is a jet error; otherwise the negation, of length \|p\|; the copy at fp_jets.rs:95-109 is identical |
| FeltJets.SubJet | crates/zkvm-jetpack/src/jets/bp_jets.rs:84-101 | a decoding failure is a jet error; otherwise the difference, of length max(\|p\|,\|q\|); the copy at fp_jets.rs:112-129 is identical |
| FeltJets.ScalJet | crates/zkvm-jetpack/src/jets/bp_jets.rs:104-125 | an undecodable scalar (read by `Felt::try_from`) or polynomial is a jet error; otherwise c·p, of length \|p\|; the copy at fp_jets.rs:132-153 is the same, with the scalar read by `as_felt` |
| FeltJets.MulJet | crates/zkvm-jetpack/src/jets/bp_jets.rs:128-151 | a decoding failure is a jet error; otherwise the product, of length 0 for an empty operand and \|p\|+\|q\|−1 otherwise; the copy at fp_jets.rs:156-179 is identical |
| FeltJets.EvalJet | crates/zkvm-jetpack/src/jets/bp_jets.rs:154-177 | a decoding failure (point read by `Felt::try_from`) is a jet error; otherwise the 24-byte atom of p(x) by Horner; the copy at fp_jets.rs:182-205 is the same, with the point read by `as_felt` |
| FeltJets.FftJet | crates/zkvm-jetpack/src/jets/bp_jets.rs:180-198 | a decoding failure is a jet error; otherwise the input unchanged; the copy at fp_jets.rs:208-226 is identical |
| FeltJets.IfftJet | crates/zkvm-jetpack/src/jets/bp_jets.rs:201-216 | a decoding failure is a jet error; otherwise the input unchanged; the copy at fp_jets.rs:229-244 is identical |
| FeltJets.InterpolateJet | crates/zkvm-jetpack/src/jets/bp_jets.rs:219-241 | a decoding failure or a domain/values length mismatch is a jet error; otherwise the interpolation, of length \|domain\|; the copy at fp_jets.rs:247-269 is identical |
| FeltJets.ComposeJet | crates/zkvm-jetpack/src/jets/bp_jets.rs:244-267 | a decoding failure is a jet error; otherwise the composition, of length 0 for an empty operand and (\|p\|−1)(\|q\|−1)+1 otherwise; the copy at fp_jets.rs:272-295 is identical |
| Belts.PowModIsPow | crates/zkvm-jetpack/src/domain_cache.rs:86-91 | the running product `power = power * offset` from one is offset^i reduced modulo P |
| Belts.InversePowers | crates/zkvm-jetpack/src/domain_cache.rs:263-268 | if u inverts c then u^i inverts c^i, so the unshift powers undo the shift powers |
| Belts.PowerOfTwoTest | crates/zkvm-jetpack/src/domain_cache.rs:208-211 | for n ≥ 1, n & (n − 1) == 0 exactly when n is a power of two |
| Belts.Pow2IsPowerOfTwo | crates/zkvm-jetpack/src/domain_cache.rs:62-63 | the sizes 1 << k are powers of two |
| Domains.ComputePowers | crates/zkvm-jetpack/src/domain_cache.rs:84-95 | the pushed powers are offset^0 … offset^(size−1) |
| Domains.PowersOfOne | crates/zkvm-jetpack/src/domain_cache.rs:20-21 | with offset 1 every cached power is 1 |
| Domains.PrecomputedKeysListed | crates/zkvm-jetpack/src/domain_cache.rs:62-66 | the precomputed keys are exactly (32,1), (64,1), … , (4096,1) |
| Domains.ShiftedByOne | crates/zkvm-jetpack/src/domain_cache.rs:164-167 | shifting by the offset 1 leaves the polynomial unchanged |
| Domains.ShiftPathsAgree | crates/zkvm-jetpack/src/domain_cache.rs:155-184 | when `bp_shift` computes p[i]·c^i, the cached and the fallback paths return the same polynomial |
| Domains.Validated | crates/zkvm-jetpack/src/domain_cache.rs:194-216 | a failure to decode the offset, the order or the values rejects; an accepted input holds exactly the decoded offset, order and values |
| Domains.IntercosateArgsAsWritten | crates/zkvm-jetpack/src/domain_cache.rs:188-192 | the as-written read at axes 2, 3, 4 succeeds only when the head of the sample, the offset, is a cell |
| Domains.IntercosateAsWrittenRejects | crates/zkvm-jetpack/src/domain_cache.rs:189-192 | reading the sample at axes 2, 3, 4 fails on every triple whose offset is an atom |
| Domains.IntercosateArgsReadTriple | crates/zkvm-jetpack/src/domain_cache.rs:189-216 | reading at axes 2, 6, 7 recovers offset, order and values and applies the validation |
| Domains.ValidatedOrder | crates/zkvm-jetpack/src/domain_cache.rs:207-216 | validated inputs have a non-zero power-of-two order and exactly that many values |
| Domains.UnshiftUndone | crates/zkvm-jetpack/src/domain_cache.rs:256-268 | multiplying an output coefficient back by n and by c^i recovers the transform's coefficient |
| Domains.ScaleAndUnshift | crates/zkvm-jetpack/src/domain_cache.rs:256-268 | scaling by n⁻¹ and then shifting in place yields t[i]·n⁻¹·(c⁻¹)^i for every i |
| Domains.ShiftInPlace | crates/zkvm-jetpack/src/domain_cache.rs:262-268 | the loop with a running power leaves coefficient i multiplied by c^i, i.e. the coset shift of the old contents |
| Domains.Unshifted | crates/zkvm-jetpack/src/domain_cache.rs:256-268 | output coefficient i is t[i]·n⁻¹·(c⁻¹)^i, the coset shift by c⁻¹ of the transform scaled by n⁻¹ |
| Domains.DomainCache.constructor | crates/zkvm-jetpack/src/domain_cache.rs:51-70 | the fresh cache holds exactly the eight offset-1 domains, each the power table of its key, with all counters zero |
| Domains.DomainCache.PrecomputeDomain | crates/zkvm-jetpack/src/domain_cache.rs:73-110 | a present key changes nothing; an absent key gets its power table as powers and both twiddle tables; no counter moves |
| Domains.DomainCache.Get | crates/zkvm-jetpack/src/domain_cache.rs:113-124 | a hit counts one hit and returns the entry; a miss counts one miss, returns nothing and inserts nothing |
| Domains.DomainCache.ShiftJet | crates/zkvm-jetpack/src/domain_cache.rs:128-185 | undecodable input is a jet error and changes nothing; otherwise one shift call and exactly one hit or miss; a hit returns p[i]·c^i, a miss what `bp_shift` writes |
| Domains.DomainCache.Intercosate | crates/zkvm-jetpack/src/domain_cache.rs:188-323 | the corrected half of the intercosate Findings row: it reads the sample at axes 2, 6, 7 (the code as written reads 2, 3, 4 and never gets past decoding, see `Domains.IntercosateAsWrittenRejects`); failed decoding or validation changes nothing; otherwise only the intercosate counter moves, even when the offset is not a 64-bit word, and the result is the scaled, unshifted transform |
| Domains.DomainCache.CachedRootIsOne | crates/zkvm-jetpack/src/domain_cache.rs:238-241 | a cached domain's first inverse twiddle is offset^0 = 1, so the cached path transforms with root 1 |
| Domains.DomainCache.GetCacheStats | crates/zkvm-jetpack/src/domain_cache.rs:334-337 | the four counters in order hits, misses, shift calls, intercosate calls |
| Domains.CacheHitMissScenario | crates/zkvm-jetpack/src/domain_cache.rs:375-394 | the test's lookups produce one hit and two misses |
| BpParallel.CopyToBuffer | crates/zkvm-jetpack/src/jets/bp_jets_parallel.rs:33-36 | the buffer holds exactly the returned polynomial |
| BpParallel.FftJet | crates/zkvm-jetpack/src/jets/bp_jets_parallel.rs:24-41 | an undecodable sample or a failing `bp_fft` is a jet error; otherwise exactly `bp_fft` of the input |
| BpParallel.NttJet | crates/zkvm-jetpack/src/jets/bp_jets_parallel.rs:44-64 | fails unless the polynomial decodes and the root is an atom below 2^64; otherwise exactly `bp_ntt(input, root)` |
| BpParallel.MulResLen | crates/zkvm-jetpack/src/jets/bp_jets_parallel.rs:76-80 | 1 when either operand is zero, otherwise \|p\|+\|q\|−1, which underflows only for two empty non-zero operands |
| BpParallel.BpmulFftParallel | crates/zkvm-jetpack/src/jets/bp_jets_parallel.rs:146-152 | the "parallel" multiplication writes exactly what `bpmul` writes |
| BpParallel.MulJet | crates/zkvm-jetpack/src/jets/bp_jets_parallel.rs:67-95 | a decoding failure is a jet error, an underflowing length a panic; otherwise the `bpmul` buffer of that length on either side of the 64 threshold |
| BpParallel.HadamardJet | crates/zkvm-jetpack/src/jets/bp_jets_parallel.rs:98-125 | a decoding failure is a jet error, unequal lengths a panic; above 1024 elements the product p[i]·q[i], otherwise what `bp_hadamard` writes |
| BpParallel.HadamardBranchesAgree | crates/zkvm-jetpack/src/jets/bp_jets_parallel.rs:112-120 | when `bp_hadamard` computes the elementwise product, both branches give the same result |
| BpParallel.PointwiseCommutes | crates/zkvm-jetpack/src/jets/bp_jets_parallel.rs:113-117 | the elementwise product does not depend on the order of its operands |
| BpParallel.Lookup | crates/zkvm-jetpack/src/jets/bp_jets_parallel.rs:160-217 | a path resolves to the jet of an entry with that path, and to nothing when no entry has it |
| BpParallel.RegistryResolves | crates/zkvm-jetpack/src/jets/bp_jets_parallel.rs:160-217 | four entries at axis 1; the four arm names under the zeke core resolve to the FFT, NTT, multiplication and Hadamard jets |
| TableJets.OperationOf | crates/zkvm-jetpack/src/jets/table_jets.rs:163-177 | the operation of an entry is a byte |
| TableJets.SkipCount | crates/zkvm-jetpack/src/jets/table_jets.rs:185-192 | operations 0 … 9 skip between 3 and 6 tails; any other operation is an error |
| TableJets.RowsToList | crates/zkvm-jetpack/src/jets/table_jets.rs:246-252 | the reverse consing loop yields the 0-terminated list of the rows in their original order |
| TableJets.CreateOperationRow | crates/zkvm-jetpack/src/jets/table_jets.rs:210-226 | an 11-element list whose only 1 is at position op + 1 for op ≤ 9, all zeros otherwise |
| TableJets.CreatePaddingRow | crates/zkvm-jetpack/src/jets/table_jets.rs:229-243 | the list [1 1 0 0 0 0 0 0 0 0 0] |
| TableJets.PaddingIsNoOperation | crates/zkvm-jetpack/src/jets/table_jets.rs:229-243 | the padding row equals no operation row |
| TableJets.SkipTails | crates/zkvm-jetpack/src/jets/table_jets.rs:194-196 | k tails down the spine, failing on an atom |
| TableJets.ProcessComputeQueue | crates/zkvm-jetpack/src/jets/table_jets.rs:149-207 | a jet error exactly when an entry's operation is above 9 or the queue runs out while skipping; otherwise one row per entry in queue order and then one padding row |
| TableJets.CountQueueEntries | crates/zkvm-jetpack/src/jets/table_jets.rs:70-94 | never fails; the count is the number of three-tail steps taken before the end |
| TableJets.CountBounds | crates/zkvm-jetpack/src/jets/table_jets.rs:70-94 | the count is at most the spine length, and at least a third of it when no entry holds the end marker |
| TableJets.Direct | crates/zkvm-jetpack/src/jets/table_jets.rs:104 | `D(n)` is the atom n exactly when n fits in 63 bits, and a panic otherwise |
| TableJets.TableHeaderAsWritten | crates/zkvm-jetpack/src/jets/table_jets.rs:97-146 | as written, a header is built only when the prime and every width pass through `D()`, and is then the eight-field header; it never gives a jet error |
| TableJets.ComputeTableBuildAsWritten | crates/zkvm-jetpack/src/jets/table_jets.rs:26-50 | as written, an unreachable queue is a jet error, and any result is a cell headed by the compute header |
| TableJets.MemoryTableBuildAsWritten | crates/zkvm-jetpack/src/jets/table_jets.rs:55-67 | as written, any result is the memory header over the empty row list |
| TableJets.HeadersPanicAsWritten | crates/zkvm-jetpack/src/jets/table_jets.rs:104-130 | P needs 64 bits, so `D(P)` panics: as written both headers panic, the compute build panics whenever its queue is reachable, and the memory build always panics |
| TableJets.HeadersReadBack | crates/zkvm-jetpack/src/jets/table_jets.rs:97-146 | the intended headers read back as exactly [name, P, 11, 57, 6, 74, 1, 0] and [name, P, 8, 0, 5, 13, 1, 0], and in each the base, extension and mega-extension widths add up to the full width |
| TableJets.ComputeTableBuild | crates/zkvm-jetpack/src/jets/table_jets.rs:26-50 | the intended build, with the prime stored as a full atom (as written it panics, see Findings): a missing queue or a failing walk is a jet error; otherwise the cell of the compute header and the rows |
| TableJets.MemoryTableBuild | crates/zkvm-jetpack/src/jets/table_jets.rs:55-67 | the intended build, with the prime stored as a full atom (as written it panics, see Findings): the memory header over the empty row list, whatever the subject |
| Mining.OptimalWorkers | crates/nockchain/src/mining.rs:131-138 | no workers exactly when there are no threads; above 16 threads, a quarter of them rounded down |
| Mining.ThreadsPerWorker | crates/nockchain/src/mining.rs:193 | undefined (a division by zero) exactly when there are no threads |
| Mining.WorkersBounded | crates/nockchain/src/mining.rs:131-138 | for t ≥ 1 threads, between 1 and t workers |
| Mining.WorkersMonotone | crates/nockchain/src/mining.rs:131-138 | more threads never mean fewer workers |
| Mining.ThreadsPerWorkerFits | crates/nockchain/src/mining.rs:182-193 | workers × threads per worker ≤ t, and above 16 threads each worker gets at least 4 |
| Mining.Verb | crates/nockchain/src/mining.rs:63-71 | every verb is a non-empty run of lower-case letters |
| Mining.ToWire | crates/nockchain/src/mining.rs:73-81 | source "miner", version 1, and the verb as the single tag |
| Mining.WiresDistinct | crates/nockchain/src/mining.rs:63-82 | different wires have different representations |
| Mining.IndexOf | crates/nockchain/src/mining.rs:96 | the first occurrence of the separator |
| Mining.Split | crates/nockchain/src/mining.rs:96 | at least one piece, none holding the separator |
| Mining.JoinSplit | crates/nockchain/src/mining.rs:96 | joining the pieces of a split gives back the text |
| Mining.SplitJoin | crates/nockchain/src/mining.rs:96 | splitting a join of separator-free pieces gives back the pieces |
| Mining.ParseU64 | crates/nockchain/src/mining.rs:106-107 | a successful parse is below 2^64 |
| Mining.ParseDecimal | crates/nockchain/src/mining.rs:106-107 | every u64 printed in decimal parses back to itself |
| Mining.FromStr | crates/nockchain/src/mining.rs:94-111 | on success at least one key, both numbers below 2^64, and no key holding ',' or ':' |
| Mining.FromStrCases | crates/nockchain/src/mining.rs:94-111 | fails on not two ':' pieces, then on not two ',' pieces, then exactly when a number does not parse; the keys are the second piece split on ',' |
| Mining.FromStrFormat | crates/nockchain/src/mining.rs:94-111 | printing `share,m:k1,…,kn` with keys free of ',' and ':' parses back to the same configuration |
| Mining.SetMiningKeyPoke | crates/nockchain/src/mining.rs:402-424 | the poke reads back as three fields: %command, %set-mining-key and the key as a cord |
| Mining.EnableMiningPoke | crates/nockchain/src/mining.rs:471-487 | the poke reads back as three fields: %command, %enable-mining, and 0 to enable or 1 to disable |
| Mining.BuildKeysList | crates/nockchain/src/mining.rs:438-443 | the keys list holds the keys in reverse order |
| Mining.BuildAdvancedPoke | crates/nockchain/src/mining.rs:426-467 | the poke is `[%command %set-mining-key-advanced list]` with the configurations last-first, each `[share m keys]` with its keys last-first |
| Mining.AdvancedPokeReadsBack | crates/nockchain/src/mining.rs:435-458 | the poke reads back as three fields whose list is the configuration triples in reverse order |
| Mining.ConfigTripleReadsBack | crates/nockchain/src/mining.rs:445-449 | a triple reads back as share, m and the keys in reverse order |
| Mining.ChooseKeyPoke | crates/nockchain/src/mining.rs:159-167 | the simple poke exactly when there is one configuration with share 1, m 1 and one key, carrying that key; otherwise the advanced poke with all configurations |
| Mining.DriverPokes | crates/nockchain/src/mining.rs:147-168 | without configurations a single poke disabling mining; with them a key poke, then enable-mining with the requested flag |
| Mining.CandidateQueue.constructor | crates/nockchain/src/mining.rs:196 | an open, empty queue of the given capacity |
| Mining.CandidateQueue.TrySend | crates/nockchain/src/mining.rs:236-244 | closed refuses; below capacity appends the candidate; full drops it and leaves the queue unchanged |
| Mining.CandidateQueue.TryRecv | crates/nockchain/src/mining.rs:290-299 | the oldest candidate is taken, or nothing from an empty queue |
| Mining.CandidateQueue.HandleEffect | crates/nockchain/src/mining.rs:228-245 | a `[%mine candidate]` effect offers the candidate to the queue; any other effect changes nothing |
| Mining.FillScenario | crates/nockchain/src/mining.rs:122 | with capacity 32, the first 32 candidates are kept in order and the 33rd is dropped |

## Left out

- Concurrency is not modelled: the global `Mutex` around the cache, rayon's parallel
  iterators (modelled as sequential loops), and the mining driver's `tokio::select!`
  loop. Nor are the `JoinSet` workers and their restart, `mining_worker`,
  `mining_attempt_with_worker`, kernel loading and temporary directories. These are
  concurrency and I/O.
- All `handle.poke` calls and all effects I/O are reduced to the nouns and wires they
  carry. Logging (`eprintln!`, `warn!`) is left out, as are `init_domain_cache` and the
  floating-point hit rate of `print_cache_stats`.
- The `MINING_THREADS` environment variable and `available_parallelism` are not read.
  The thread count is a parameter.
- The transforms and arithmetic that the jets call are record fields, not code. They
  are `bp_ntt`, `bp_fft`, `bpmul`, `bp_hadamard`, `bp_shift`, `ordered_root`,
  `Belt::inv`, `is_zero`, the felt operations, and `FPolySlice`/`BPolySlice`/`as_felt`/
  `as_belt` decoding. The model proves nothing about their internals.
  - Consequently the length of the intercosate result follows whatever `bp_ntt`
    returns.
  - Consequently the cached and uncached intercosate paths are not claimed equal. The
    cached path runs the transform with the placeholder root 1
    (`Domains.DomainCache.CachedRootIsOne`).
- `finalize_poly`, `new_handle_mut_slice` and the noun layout of polynomials are left
  out. Jets return the coefficient sequence they would finalize.
  - `fpoly_to_list` and `fpoly_to_list_jet` are left out in both copies. Their
    byte-level noun layout belongs to the library's polynomial format.
- `Felt::try_from`'s raw read of an indirect atom is modelled on the atom's value: four
  words, low three taken as coefficients. The memory layout behind it is not.
- Mining.BuildAdvancedPoke: `D()` panics on values of 2^63 or more, so the source panics
  for a `share` or `m` above 2^63 − 1. The model builds the atom regardless, so it does not
  capture that panic. (The same `D()` panic on the prime in both table headers is a
  Findings row.)
- Domains.DomainCache: the counters are unbounded naturals; the u64 wrap-around after
  2^64 calls is not modelled.
- `precompute_domain` takes `Belt(offset as u64)` without reducing the offset first.
  The model reduces every product modulo P. Keys keep the unreduced offset.
- The `DEFAULT_MINING_THREADS` constant is declared but unused by the code; it is kept
  only as a constant.
- The `%command` tag is built with `tas!`, which is the same cord as the string
  "command"; it is modelled as that cord.
- `hot.rs` (registration tables and thread-pool initialisation), `proof_jets.rs` (a
  stub returning 0) and `crates/kernels/src/lib.rs` (module declarations only) are not
  part of this model.
- Mining.CandidateQueue.TrySend: "closed" stands for every other `try_send` error,
  which the driver only logs.

## Findings

| source | as written | input that shows it | evidently intended | confidence | as-written member | corrected member |
|---|---|---|---|---|---|---|
| crates/zkvm-jetpack/src/domain_cache.rs:189-192 | `bp_intercosate_cached_jet` reads offset, order and values at axes 2, 3 and 4 of the sample `[offset order values]`; axis 3 is the pair `[order values]` and axis 4 is inside the offset | any sample `[offset order values]` whose offset is an atom (every valid field element): the lookup at axis 4 fails, so the jet errors before validating anything | read the triple at axes 2, 6 and 7, then validate and transform | not executed | Domains.IntercosateAsWrittenRejects | Domains.IntercosateArgsReadTriple |
| crates/zkvm-jetpack/src/jets/table_jets.rs:104-130 | `create_compute_header` and `create_memory_header` build the prime with `D(0xffffffff00000001)`, and `D()` accepts only values that fit a 63-bit direct atom | any call: P = 2^64 − 2^32 + 1 is above 2^63 − 1, so both headers panic, and so do `compute_table_build_jet` whenever its queue is reachable and `memory_table_build_jet` on every subject | build the prime as a full (indirect) atom, so the headers carry P | not executed | TableJets.HeadersPanicAsWritten | TableJets.HeadersReadBack |
