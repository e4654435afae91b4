/** The domain cache of the base-field jets: a table from `(size, offset)` to
    the powers of the offset, four counters, and the two jets that consult it
    (the coset shift and the inverse-transform-then-unshift "intercosate").
    The process-wide mutex around the cache is not modelled: the cache is an
    object the jets are methods of. */
module Domains {
  import opened Nouns
  import opened Belts

  /** One cached domain: the offset powers and the two twiddle tables, which
      are (placeholder) copies of the powers. */
  datatype DomainData = DomainData(powers: seq<Belt>, twiddleFactors: seq<Belt>, invTwiddles: seq<Belt>)

  /** offset^0, offset^1, ..., offset^(size-1) in the field. */
  function Powers(offset: nat, size: nat): (r: seq<Belt>)
    ensures |r| == size
  {
    seq(size, i requires 0 <= i < size => PowMod(offset, i))
  }

  /** The entry `precompute_domain` builds for a key. */
  function DomainFor(size: nat, offset: nat): DomainData
  {
    var ps := Powers(offset, size);
    DomainData(ps, ps, ps)
  }

  /** The keys (2^j, 1) for 5 <= j < k. */
  function KeysBelow(k: nat): set<(nat, nat)>
  {
    set j: nat | 5 <= j < k :: (Pow2(j), 1)
  }

  lemma KeysBelowStep(k: nat)
    requires k >= 5
    ensures KeysBelow(k + 1) == KeysBelow(k) + {(Pow2(k), 1)}
  {
    forall key | key in KeysBelow(k + 1)
      ensures key in KeysBelow(k) + {(Pow2(k), 1)}
    {
      var j: nat :| 5 <= j < k + 1 && key == (Pow2(j), 1);
      if j < k {
        assert key in KeysBelow(k);
      }
    }
    assert (Pow2(k), 1) in KeysBelow(k + 1);
  }

  /** The keys a fresh cache holds: sizes 2^5 .. 2^12, offset 1. */
  function PrecomputedKeys(): set<(nat, nat)>
  {
    KeysBelow(13)
  }

  lemma PrecomputedKeysListed()
    ensures PrecomputedKeys() ==
      {(32, 1), (64, 1), (128, 1), (256, 1), (512, 1), (1024, 1), (2048, 1), (4096, 1)}
  {
    assert Pow2(5) == 32 && Pow2(6) == 64 && Pow2(7) == 128 && Pow2(8) == 256;
    assert Pow2(9) == 512 && Pow2(10) == 1024 && Pow2(11) == 2048 && Pow2(12) == 4096;
    var listed := {(32, 1), (64, 1), (128, 1), (256, 1), (512, 1), (1024, 1), (2048, 1), (4096, 1)};
    forall key | key in PrecomputedKeys()
      ensures key in listed
    {
      var k: nat :| 5 <= k < 13 && key == (Pow2(k), 1);
      assert k in {5, 6, 7, 8, 9, 10, 11, 12};
    }
    forall key | key in listed
      ensures key in PrecomputedKeys()
    {
      if key == (32, 1) { assert key == (Pow2(5), 1); }
      else if key == (64, 1) { assert key == (Pow2(6), 1); }
      else if key == (128, 1) { assert key == (Pow2(7), 1); }
      else if key == (256, 1) { assert key == (Pow2(8), 1); }
      else if key == (512, 1) { assert key == (Pow2(9), 1); }
      else if key == (1024, 1) { assert key == (Pow2(10), 1); }
      else if key == (2048, 1) { assert key == (Pow2(11), 1); }
      else { assert key == (Pow2(12), 1); }
    }
  }

  /** With offset 1 every cached power is 1. */
  lemma PowersOfOne(n: nat)
    ensures forall i :: 0 <= i < n ==> Powers(1, n)[i] == 1
  {
    forall i | 0 <= i < n
      ensures Powers(1, n)[i] == 1
    {
      PowModOfOne(i);
    }
  }

  /** The power table, built as the source does: push the running power, then
      multiply it by the offset. */
  method ComputePowers(size: nat, offset: nat) returns (powers: seq<Belt>)
    ensures powers == Powers(offset, size)
  {
    powers := [];
    var power: Belt := 1;
    var i := 0;
    while i < size
      invariant 0 <= i <= size
      invariant powers == Powers(offset, i)
      invariant power == PowMod(offset, i)
    {
      powers := powers + [power];
      power := BMul(power, offset);
      i := i + 1;
    }
  }

  // ---------------------------------------------------------------------------
  // Coset shift
  // ---------------------------------------------------------------------------

  /** The coset shift: coefficient i multiplied by c^i. */
  function Shifted(p: seq<Belt>, c: nat): (r: seq<Belt>)
    ensures |r| == |p|
  {
    seq(|p|, i requires 0 <= i < |p| => BMul(p[i], PowMod(c, i)))
  }

  /** Coefficient i of the buffer `bp_shift` fills. */
  function ShiftCoeff(lib: BeltLib, p: seq<Belt>, c: Belt, i: nat): Belt
  {
    lib.shift(p, c, i)
  }

  /** The buffer `bp_shift` fills. */
  function LibShifted(lib: BeltLib, p: seq<Belt>, c: Belt): (r: seq<Belt>)
    ensures |r| == |p|
  {
    seq(|p|, i requires 0 <= i < |p| => ShiftCoeff(lib, p, c, i))
  }

  /** Shifting by 1 leaves the polynomial unchanged: on a cache holding only
      the precomputed offset-1 domains, the cached path returns its input. */
  lemma ShiftedByOne(p: seq<Belt>)
    ensures Shifted(p, 1) == p
  {
    forall i | 0 <= i < |p|
      ensures Shifted(p, 1)[i] == p[i]
    {
      PowModOfOne(i);
      BMulOne(p[i]);
    }
  }

  /** When `bp_shift` computes the coset shift, the cached and the uncached
      paths of the shift jet return the same polynomial. */
  lemma ShiftPathsAgree(lib: BeltLib, p: seq<Belt>, c: Belt)
    requires forall i :: 0 <= i < |p| ==> lib.shift(p, c, i) == BMul(p[i], PowMod(c, i))
    ensures LibShifted(lib, p, c) == Shifted(p, c)
  {
  }

  /** `[bp c]` at axes 2 and 3 of the sample: a polynomial and a field element. */
  function ShiftArgs(lib: BeltLib, subject: Noun): Option<(seq<Belt>, Belt)>
  {
    match SamplePair(subject)
    case None => None
    case Some((bp, c)) =>
      match (lib.decodePoly(bp), lib.asBelt(c))
      case (Some(p), Some(cb)) => Some((p, cb))
      case _ => None
  }

  // ---------------------------------------------------------------------------
  // Intercosate
  // ---------------------------------------------------------------------------

  /** The validated arguments of the intercosate jet: the offset noun (read
      again as a 64-bit word for the cache key), the offset, the order and the values. */
  datatype IntercosateInput = IntercosateInput(offsetNoun: Noun, offset: Belt, order: nat, values: seq<Belt>)

  /** Decoding and validation: the offset must be a field element, the order a
      64-bit word that is a power of two (`n != 0 && n & (n - 1) == 0`), and
      the values a polynomial of exactly `order` coefficients. */
  function Validated(lib: BeltLib, offset: Noun, order: Noun, values: Noun): (r: Option<IntercosateInput>)
    ensures lib.asBelt(offset).None? || AsU64(order).None? || lib.decodePoly(values).None? ==> r.None?
    ensures r.Some? ==>
      r.value.offsetNoun == offset && lib.asBelt(offset) == Some(r.value.offset) &&
      AsU64(order) == Some(r.value.order) && lib.decodePoly(values) == Some(r.value.values)
  {
    match (lib.asBelt(offset), AsU64(order), lib.decodePoly(values))
    case (Some(c), Some(n), Some(vs)) =>
      if n == 0 || BitAnd(n, n - 1) != 0 || |vs| != n then None
      else Some(IntercosateInput(offset, c, n, vs))
    case _ => None
  }

  /** The sample `[offset order values]`: offset at axis 2, order at axis 6,
      values at axis 7. */
  function IntercosateArgs(lib: BeltLib, subject: Noun): Option<IntercosateInput>
  {
    match Sample(subject)
    case None => None
    case Some(sam) =>
      match (Slot(sam, 2), Slot(sam, 6), Slot(sam, 7))
      case (Some(offset), Some(order), Some(values)) => Validated(lib, offset, order, values)
      case _ => None
  }

  /** The same read with the axes the jet actually uses: 2, 3 and 4. */
  function IntercosateArgsAsWritten(lib: BeltLib, subject: Noun): (r: Option<IntercosateInput>)
    ensures r.Some? ==> Sample(subject).Some? && Sample(subject).value.Cell? && Sample(subject).value.head.Cell?
  {
    match Sample(subject)
    case None => None
    case Some(sam) =>
      match (Slot(sam, 2), Slot(sam, 3), Slot(sam, 4))
      case (Some(offset), Some(order), Some(values)) => Validated(lib, offset, order, values)
      case _ => None
  }

  /** With axes 2, 3, 4 the values are looked up inside the offset, so every
      sample `[offset order values]` whose offset is an atom is rejected. */
  lemma IntercosateAsWrittenRejects(lib: BeltLib, battery: Noun, offset: nat, order: Noun, values: Noun, context: Noun)
    ensures IntercosateArgsAsWritten(lib, Cell(battery, Cell(Cell(Atom(offset), Cell(order, values)), context))) == None
  {
    var sam := Cell(Atom(offset), Cell(order, values));
    assert Sample(Cell(battery, Cell(sam, context))) == Some(sam);
    assert Slot(sam, 2) == Some(Atom(offset));
    assert Slot(sam, 4) == None;
  }

  /** With axes 2, 6, 7 the same sample is read as the triple it is. */
  lemma IntercosateArgsReadTriple(lib: BeltLib, battery: Noun, offset: Noun, order: Noun, values: Noun, context: Noun)
    ensures IntercosateArgs(lib, Cell(battery, Cell(Cell(offset, Cell(order, values)), context))) ==
      Validated(lib, offset, order, values)
  {
    var sam := Cell(offset, Cell(order, values));
    assert Sample(Cell(battery, Cell(sam, context))) == Some(sam);
    assert Slot(sam, 3) == Some(Cell(order, values));
    assert Slot(sam, 6) == Some(order) && Slot(sam, 7) == Some(values);
  }

  /** A validated order is a power of two and the values have that many coefficients. */
  lemma ValidatedOrder(lib: BeltLib, offset: Noun, order: Noun, values: Noun)
    requires Validated(lib, offset, order, values).Some?
    ensures var a := Validated(lib, offset, order, values).value;
      IsPowerOfTwo(a.order) && |a.values| == a.order && Some(a.order) == AsU64(order)
  {
    var a := Validated(lib, offset, order, values).value;
    PowerOfTwoTest(a.order);
  }

  /** The root the inverse transform runs with: the first inverse twiddle of a
      cached domain when it has one, otherwise the inverse of `ordered_root`. */
  function IntercosateRoot(lib: BeltLib, domains: map<(nat, nat), DomainData>, order: nat, offsetWord: nat): Option<Belt>
  {
    var key := (order, offsetWord);
    if key in domains && domains[key].invTwiddles != [] then Some(domains[key].invTwiddles[0])
    else
      match lib.orderedRoot(order)
      case None => None
      case Some(root) => Some(lib.inv(root))
  }

  /** Scaling by n^-1 and undoing the coset shift: coefficient i times n^-1 times (c^-1)^i. */
  function Unshifted(t: seq<Belt>, nInv: Belt, offsetInv: Belt): (r: seq<Belt>)
    ensures |r| == |t|
    ensures forall i :: 0 <= i < |t| ==> r[i] == BMul(BMul(t[i], nInv), PowMod(offsetInv, i))
  {
    Shifted(Scaled(t, nInv), offsetInv)
  }

  /** Every coefficient multiplied by the same scalar. */
  function Scaled(t: seq<Belt>, s: Belt): (r: seq<Belt>)
    ensures |r| == |t|
  {
    seq(|t|, i requires 0 <= i < |t| => BMul(t[i], s))
  }

  /** Multiplying an output coefficient back by n and by c^i recovers the
      transform's coefficient, whenever the two inverses really are inverses. */
  lemma UnshiftUndone(t: seq<Belt>, n: nat, nInv: Belt, offset: nat, offsetInv: Belt, i: nat)
    requires BMul(nInv, n) == 1 && BMul(offsetInv, offset) == 1
    requires i < |t|
    ensures BMul(BMul(Unshifted(t, nInv, offsetInv)[i], n), PowMod(offset, i)) == t[i]
  {
    var w, W := PowMod(offsetInv, i), PowMod(offset, i);
    InversePowers(offset, offsetInv, i);
    calc {
      BMul(BMul(BMul(BMul(t[i], nInv), w), n), W);
      { BMulAssoc(BMul(t[i], nInv), w, n); BMulComm(w, n); BMulAssoc(BMul(t[i], nInv), n, w); }
      BMul(BMul(BMul(BMul(t[i], nInv), n), w), W);
      { BMulAssoc(t[i], nInv, n); BMulOne(t[i]); }
      BMul(BMul(t[i], w), W);
      { BMulAssoc(t[i], w, W); BMulOne(t[i]); }
      t[i];
    }
  }

  /** What the intercosate jet returns once its arguments are validated: the
      offset must read as a 64-bit word, the root must exist, and the
      transform of the values is scaled and unshifted. */
  function IntercosateOutcome(lib: BeltLib, domains: map<(nat, nat), DomainData>, a: IntercosateInput): JetResult<seq<Belt>>
  {
    match AsU64(a.offsetNoun)
    case None => JetError
    case Some(w) =>
      match IntercosateRoot(lib, domains, a.order, w)
      case None => JetError
      case Some(root) => Done(Unshifted(lib.ntt(a.values, root), lib.inv(a.order), lib.inv(a.offset)))
  }

  /** The scale-then-unshift loop over the transform's output, in place. */
  method ScaleAndUnshift(t: seq<Belt>, nInv: Belt, offsetInv: Belt) returns (out: seq<Belt>)
    ensures out == Unshifted(t, nInv, offsetInv)
  {
    var s := Scaled(t, nInv);
    var scaled := new Belt[|s|](i requires 0 <= i < |s| => s[i]);
    assert scaled[..] == s;
    ShiftInPlace(scaled, offsetInv);
    out := scaled[..];
  }

  /** The in-place coset shift: coefficient i multiplied by c^i, keeping the
      running power in a variable. */
  method ShiftInPlace(a: array<Belt>, c: Belt)
    modifies a
    ensures a[..] == Shifted(old(a[..]), c)
  {
    ghost var orig := a[..];
    var power: Belt := 1;
    var i := 0;
    while i < a.Length
      invariant 0 <= i <= a.Length == |orig|
      invariant power == PowMod(c, i)
      invariant forall k :: 0 <= k < i ==> a[k] == BMul(orig[k], PowMod(c, k))
      invariant forall k :: i <= k < a.Length ==> a[k] == orig[k]
    {
      a[i] := BMul(a[i], power);
      power := BMul(power, c);
      i := i + 1;
    }
  }

  /** Every entry of the table is the power table of its own key. */
  ghost predicate ValidTable(domains: map<(nat, nat), DomainData>)
  {
    forall key :: key in domains ==> domains[key] == DomainFor(key.0, key.1)
  }

  // ---------------------------------------------------------------------------
  // The cache object
  // ---------------------------------------------------------------------------

  class DomainCache {
    var domains: map<(nat, nat), DomainData>
    var hits: nat
    var misses: nat
    var shiftCalls: nat
    var intercosateCalls: nat

    /** Every cached entry is the power table of its own key. */
    ghost predicate Valid()
      reads this
    {
      ValidTable(domains)
    }

    /** `DomainCache::new`: the eight offset-1 domains of sizes 32 .. 4096, all counters zero. */
    constructor ()
      ensures Valid()
      ensures domains.Keys == PrecomputedKeys()
      ensures hits == 0 && misses == 0 && shiftCalls == 0 && intercosateCalls == 0
    {
      domains := map[];
      hits, misses, shiftCalls, intercosateCalls := 0, 0, 0, 0;
      new;
      var k := 5;
      while k <= 12
        invariant 5 <= k <= 13
        invariant Valid()
        invariant domains.Keys == KeysBelow(k)
        invariant hits == 0 && misses == 0 && shiftCalls == 0 && intercosateCalls == 0
      {
        PrecomputeDomain(Pow2(k), 1);
        KeysBelowStep(k);
        k := k + 1;
      }
    }

    /** `precompute_domain`: a present key is left alone; an absent one gets
        its power table. Entries are only ever added. */
    method PrecomputeDomain(size: nat, offset: nat)
      modifies this
      ensures (size, offset) in old(domains) ==> domains == old(domains)
      ensures (size, offset) !in old(domains) ==>
        domains == old(domains)[(size, offset) := DomainFor(size, offset)]
      ensures hits == old(hits) && misses == old(misses)
      ensures shiftCalls == old(shiftCalls) && intercosateCalls == old(intercosateCalls)
    {
      if (size, offset) in domains {
        return;
      }
      var powers := ComputePowers(size, offset);
      domains := domains[(size, offset) := DomainData(powers, powers, powers)];
    }

    /** `get`: a hit counts a hit and returns the entry; a miss counts a miss,
        returns nothing and caches nothing. */
    method Get(size: nat, offset: nat) returns (r: Option<DomainData>)
      modifies this
      ensures domains == old(domains)
      ensures shiftCalls == old(shiftCalls) && intercosateCalls == old(intercosateCalls)
      ensures (size, offset) in domains ==>
        r == Some(domains[(size, offset)]) && hits == old(hits) + 1 && misses == old(misses)
      ensures (size, offset) !in domains ==>
        r == None && misses == old(misses) + 1 && hits == old(hits)
    {
      if (size, offset) in domains {
        hits := hits + 1;
        r := Some(domains[(size, offset)]);
      } else {
        misses := misses + 1;
        r := None;
      }
    }

    /** `bp_shift_cached_jet`. After decoding it counts the call and one hit
        or miss; a hit multiplies by the cached powers, a miss defers to `bp_shift`. */
    method ShiftJet(lib: BeltLib, subject: Noun) returns (r: JetResult<seq<Belt>>)
      requires Valid()
      modifies this
      ensures Valid()
      ensures domains == old(domains) && intercosateCalls == old(intercosateCalls)
      ensures ShiftArgs(lib, subject).None? ==>
        r == JetError && hits == old(hits) && misses == old(misses) && shiftCalls == old(shiftCalls)
      ensures ShiftArgs(lib, subject).Some? ==>
        var (p, c) := ShiftArgs(lib, subject).value;
        shiftCalls == old(shiftCalls) + 1 &&
        ((|p|, c) in domains ==>
          hits == old(hits) + 1 && misses == old(misses) && r == Done(Shifted(p, c))) &&
        ((|p|, c) !in domains ==>
          misses == old(misses) + 1 && hits == old(hits) && r == Done(LibShifted(lib, p, c)))
    {
      var args := ShiftArgs(lib, subject);
      if args.None? {
        return JetError;
      }
      var (p, c) := args.value;
      shiftCalls := shiftCalls + 1;
      var cached := Get(|p|, c);
      if cached.Some? {
        var powers := cached.value.powers;
        assert powers == Powers(c, |p|);
        var res := new Belt[|p|];
        for i := 0 to |p|
          modifies res
          invariant forall k :: 0 <= k < i ==> res[k] == BMul(p[k], powers[k])
        {
          res[i] := BMul(p[i], powers[i]);
        }
        assert forall k :: 0 <= k < |p| ==> powers[k] == PowMod(c, k);
        assert res[..] == Shifted(p, c);
        r := Done(res[..]);
      } else {
        r := Done(LibShifted(lib, p, c));
      }
    }

    /** `bp_intercosate_cached_jet` reading its sample at axes 2, 6, 7 (see
        `IntercosateArgsAsWritten` for the axes of the source). Failed
        decoding or validation changes nothing; afterwards only the
        intercosate counter moves, since the cache is read without `get`. */
    method Intercosate(lib: BeltLib, subject: Noun) returns (r: JetResult<seq<Belt>>)
      modifies this
      ensures domains == old(domains) && hits == old(hits) && misses == old(misses)
      ensures shiftCalls == old(shiftCalls)
      ensures IntercosateArgs(lib, subject).None? ==>
        r == JetError && intercosateCalls == old(intercosateCalls)
      ensures IntercosateArgs(lib, subject).Some? ==>
        intercosateCalls == old(intercosateCalls) + 1 &&
        r == IntercosateOutcome(lib, domains, IntercosateArgs(lib, subject).value)
    {
      var args := IntercosateArgs(lib, subject);
      if args.None? {
        return JetError;
      }
      var a := args.value;
      intercosateCalls := intercosateCalls + 1;
      var word := AsU64(a.offsetNoun);
      if word.None? {
        return JetError;
      }
      var key := (a.order, word.value);
      var root: Belt;
      if key in domains && domains[key].invTwiddles != [] {
        root := domains[key].invTwiddles[0];
      } else {
        var ordered := lib.orderedRoot(a.order);
        if ordered.None? {
          return JetError;
        }
        root := lib.inv(ordered.value);
      }
      var out := ScaleAndUnshift(lib.ntt(a.values, root), lib.inv(a.order), lib.inv(a.offset));
      r := Done(out);
    }

    /** On a valid cache, a cached domain's first inverse twiddle is offset^0 = 1:
        the cached path transforms with root 1, not with an inverse root of unity. */
    lemma CachedRootIsOne(lib: BeltLib, order: nat, offsetWord: nat)
      requires Valid()
      requires order >= 1 && (order, offsetWord) in domains
      ensures IntercosateRoot(lib, domains, order, offsetWord) == Some(1)
    {
    }

    /** `get_cache_stats`. */
    method GetCacheStats() returns (stats: (nat, nat, nat, nat))
      ensures stats == (hits, misses, shiftCalls, intercosateCalls)
    {
      stats := (hits, misses, shiftCalls, intercosateCalls);
    }
  }

  /** The lookups of the cache test: (64, 1) once, then (37, 2) twice. `get`
      never inserts, so the second (37, 2) is a second miss: 1 hit, 2 misses. */
  method CacheHitMissScenario() returns (hits: nat, misses: nat)
    ensures hits == 1 && misses == 2
  {
    var cache := new DomainCache();
    PrecomputedKeysListed();
    var first := cache.Get(64, 1);
    var second := cache.Get(37, 2);
    var third := cache.Get(37, 2);
    hits, misses := cache.hits, cache.misses;
  }
}
