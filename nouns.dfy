/** Nock nouns as the jets see them: atoms, cells, axis addressing, cords and
    0-terminated lists, plus the result shape every jet returns. */
module Nouns {

  datatype Option<+T> = None | Some(value: T)

  /** A noun is an unbounded natural number or an ordered pair of nouns. */
  datatype Noun = Atom(value: nat) | Cell(head: Noun, tail: Noun)

  type Byte = b: nat | b < 256

  /** Exclusive upper bound of a 64-bit unsigned integer. */
  const U64_LIMIT: nat := 0x1_0000_0000_0000_0000

  /** What a jet hands back to the interpreter: a value, the jet's typed
      failure (`jet_err`, a failed `slot` or decode), or a Rust panic. */
  datatype JetResult<+T> = Done(value: T) | JetError | Panicked

  /** The atom whose little-endian bytes are `s` (a cord, as
      `Atom::from_value` and `tas!` build from a string). */
  function Cord(s: seq<Byte>): nat
  {
    if s == [] then 0 else s[0] + 256 * Cord(s[1..])
  }

  /** `as_atom()?.as_u64()`: an atom that fits in 64 bits. */
  function AsU64(n: Noun): (r: Option<nat>)
    ensures r.Some? <==> n.Atom? && n.value < U64_LIMIT
    ensures r.Some? ==> r.value == n.value
  {
    match n
    case Atom(v) => if v < U64_LIMIT then Some(v) else None
    case Cell(_, _) => None
  }

  /** Nock axis addressing (`slot`): axis 1 is the noun itself, axis 2a the
      head of axis a, axis 2a+1 its tail; axis 0 and any step through an atom fail. */
  function Slot(n: Noun, axis: nat): Option<Noun>
    decreases axis
  {
    if axis == 0 then None
    else if axis == 1 then Some(n)
    else
      match Slot(n, axis / 2)
      case None => None
      case Some(m) =>
        if m.Cell? then Some(if axis % 2 == 0 then m.head else m.tail) else None
  }

  /** The sample of a gate subject `[battery sample context]` is at axis 6. */
  function Sample(subject: Noun): Option<Noun>
  {
    Slot(subject, 6)
  }

  /** `slot(sam, 2)` and `slot(sam, 3)` of the sample: the two arguments of a binary jet. */
  function SamplePair(subject: Noun): (r: Option<(Noun, Noun)>)
    ensures r.Some? <==> Slot(subject, 12).Some? && Slot(subject, 13).Some?
    ensures r.Some? ==> Slot(subject, 12) == Some(r.value.0) && Slot(subject, 13) == Some(r.value.1)
  {
    match Sample(subject)
    case None => None
    case Some(sam) => if sam.Cell? then Some((sam.head, sam.tail)) else None
  }

  /** A 0-terminated list (`~` is atom 0), built from the last element
      backwards as the jets do with `T(stack, &[x, list])`. */
  function ListNoun(xs: seq<Noun>): Noun
  {
    if xs == [] then Atom(0) else Cell(xs[0], ListNoun(xs[1..]))
  }

  /** Reads a 0-terminated list back; any other terminator is not a list. */
  function ListItems(n: Noun): Option<seq<Noun>>
  {
    match n
    case Atom(v) => if v == 0 then Some([]) else None
    case Cell(h, t) =>
      match ListItems(t)
      case None => None
      case Some(rest) => Some([h] + rest)
  }

  lemma {:induction false} ListRoundTrip(xs: seq<Noun>)
    ensures ListItems(ListNoun(xs)) == Some(xs)
  {
    if xs != [] {
      ListRoundTrip(xs[1..]);
      assert [xs[0]] + xs[1..] == xs;
    }
  }

  /** `T(stack, &[a, b, c, ...])`: a right-nested tuple with no terminator. */
  function Tuple(xs: seq<Noun>): Noun
    requires |xs| >= 1
  {
    if |xs| == 1 then xs[0] else Cell(xs[0], Tuple(xs[1..]))
  }

  /** The elements of an `n`-tuple, if the noun has at least that many cells. */
  function TupleItems(x: Noun, n: nat): Option<seq<Noun>>
    requires n >= 1
  {
    if n == 1 then Some([x])
    else if x.Atom? then None
    else
      match TupleItems(x.tail, n - 1)
      case None => None
      case Some(rest) => Some([x.head] + rest)
  }

  lemma {:induction false} TupleRoundTrip(xs: seq<Noun>)
    requires |xs| >= 1
    ensures TupleItems(Tuple(xs), |xs|) == Some(xs)
  {
    if |xs| > 1 {
      TupleRoundTrip(xs[1..]);
      assert [xs[0]] + xs[1..] == xs;
    } else {
      assert [xs[0]] == xs;
    }
  }

  function Atoms(vs: seq<nat>): (r: seq<Noun>)
    ensures |r| == |vs|
    ensures forall i :: 0 <= i < |vs| ==> r[i] == Atom(vs[i])
  {
    if vs == [] then [] else [Atom(vs[0])] + Atoms(vs[1..])
  }
}
