/** The table-building jets of the prover: a walk over the compute queue that
    emits one one-hot row per operation plus a padding row, the fixed table
    headers, and the placeholder memory table. */
module TableJets {
  import opened Nouns
  import Belts

  // ---------------------------------------------------------------------------
  // Walking a queue
  // ---------------------------------------------------------------------------

  function Size(n: Noun): nat
  {
    match n
    case Atom(_) => 1
    case Cell(h, t) => 1 + Size(h) + Size(t)
  }

  /** k steps down the tail spine, failing on an atom (`as_cell()?.tail()` k times). */
  function Tails(n: Noun, k: nat): (r: Option<Noun>)
    ensures r.Some? && k > 0 ==> Size(r.value) < Size(n)
  {
    if k == 0 then Some(n)
    else match n
      case Atom(_) => None
      case Cell(_, t) => Tails(t, k - 1)
  }

  lemma {:induction false} TailsAdd(n: Noun, k: nat, j: nat)
    ensures Tails(n, k + j) == (match Tails(n, k) case None => None case Some(m) => Tails(m, j))
  {
    if k > 0 && n.Cell? {
      TailsAdd(n.tail, k - 1, j);
    }
  }

  /** The walk stops at a non-cell or at a cell whose head is atom 0; a head atom
      too wide for 64 bits reads as 1 and does not stop it. */
  predicate AtQueueEnd(q: Noun)
  {
    !q.Cell? || q.head == Atom(0)
  }

  /** The operation of an entry, from the formula at its head, truncated to a byte:
      a formula cell gives its head atom (9 if that is wider than 64 bits or a
      cell); a formula atom gives itself (0 if wider than 64 bits). */
  function OperationOf(f: Noun): (op: nat)
    ensures op < 256
  {
    match f
    case Cell(h, _) =>
      if h.Atom? && h.value < U64_LIMIT then h.value % 256 else 9
    case Atom(v) =>
      if v < U64_LIMIT then v % 256 else 0
  }

  /** How many tails an entry of each operation occupies; any other operation is an error. */
  function SkipCount(op: nat): (r: Option<nat>)
    ensures r.Some? <==> op <= 9
    ensures r.Some? ==> 3 <= r.value <= 6
  {
    if op == 0 || op == 1 then Some(3)
    else if op == 2 || op == 8 || op == 9 then Some(5)
    else if op == 3 || op == 4 || op == 7 then Some(4)
    else if op == 5 then Some(5)
    else if op == 6 then Some(6)
    else None
  }

  /** The operations of the queue in order, or None when an entry has an
      unknown operation or the queue runs out of cells while skipping. */
  function QueueOps(q: Noun): Option<seq<nat>>
    decreases Size(q)
  {
    if AtQueueEnd(q) then Some([])
    else
      var op := OperationOf(q.head);
      match SkipCount(op)
      case None => None
      case Some(k) =>
        match Tails(q, k)
        case None => None
        case Some(next) =>
          match QueueOps(next)
          case None => None
          case Some(rest) => Some([op] + rest)
  }

  function Prepend(xs: seq<nat>, o: Option<seq<nat>>): Option<seq<nat>>
  {
    match o
    case None => None
    case Some(ys) => Some(xs + ys)
  }

  // ---------------------------------------------------------------------------
  // Rows and lists
  // ---------------------------------------------------------------------------

  /** `rows_to_list` (and the row builders' loop): cons the items from the last
      one back, onto `~`. */
  method RowsToList(rows: seq<Noun>) returns (list: Noun)
    ensures list == ListNoun(rows)
    ensures ListItems(list) == Some(rows)
  {
    list := Atom(0);
    var i := |rows|;
    while i > 0
      invariant 0 <= i <= |rows|
      invariant list == ListNoun(rows[i..])
    {
      i := i - 1;
      assert rows[i..][1..] == rows[i + 1..];
      list := Cell(rows[i], list);
    }
    assert rows[0..] == rows;
    ListRoundTrip(rows);
  }

  /** The 11 columns of an operation row: pad, then one flag per operation 0..9. */
  function OperationValues(op: nat): (vs: seq<nat>)
    ensures |vs| == 11
  {
    seq(11, i requires 0 <= i < 11 => if op <= 9 && i == op + 1 then 1 else 0)
  }

  function OperationRow(op: nat): Noun
  {
    ListNoun(Atoms(OperationValues(op)))
  }

  const PaddingValues: seq<nat> := [1, 1, 0, 0, 0, 0, 0, 0, 0, 0, 0]

  function PaddingRow(): Noun
  {
    ListNoun(Atoms(PaddingValues))
  }

  /** `create_operation_row`: an 11-element list whose only 1 is at position
      op + 1 when op <= 9, and all zeros otherwise. */
  method CreateOperationRow(op: nat) returns (row: Noun)
    requires op < 256
    ensures row == OperationRow(op)
    ensures ListItems(row).Some? && |ListItems(row).value| == 11
    ensures forall i :: 0 <= i < 11 ==>
      ListItems(row).value[i] == Atom(if op <= 9 && i == op + 1 then 1 else 0)
  {
    var values := seq(11, _ => Atom(0));
    if op <= 9 {
      values := values[op + 1 := Atom(1)];
    }
    assert values == Atoms(OperationValues(op));
    row := RowsToList(values);
  }

  /** `create_padding_row`: `[1 1 0 0 0 0 0 0 0 0 0]`. */
  method CreatePaddingRow() returns (row: Noun)
    ensures row == PaddingRow()
    ensures ListItems(row) == Some(Atoms(PaddingValues))
  {
    row := RowsToList(Atoms(PaddingValues));
  }

  /** The padding row is unlike every operation row: its pad column is 1. */
  lemma PaddingIsNoOperation(op: nat)
    ensures PaddingRow() != OperationRow(op)
  {
    ListRoundTrip(Atoms(PaddingValues));
    ListRoundTrip(Atoms(OperationValues(op)));
    assert Atoms(PaddingValues)[0] != Atoms(OperationValues(op))[0];
  }

  /** One operation row per entry, in queue order. */
  function OperationRows(ops: seq<nat>): (rows: seq<Noun>)
    ensures |rows| == |ops|
    ensures forall i :: 0 <= i < |ops| ==> rows[i] == OperationRow(ops[i])
  {
    if ops == [] then [] else [OperationRow(ops[0])] + OperationRows(ops[1..])
  }

  lemma {:induction false} OperationRowsAppend(ops: seq<nat>, op: nat)
    ensures OperationRows(ops + [op]) == OperationRows(ops) + [OperationRow(op)]
  {
    var lhs, rhs := OperationRows(ops + [op]), OperationRows(ops) + [OperationRow(op)];
    assert |lhs| == |rhs|;
    forall i | 0 <= i < |lhs|
      ensures lhs[i] == rhs[i]
    {
      if i < |ops| {
        assert (ops + [op])[i] == ops[i];
      }
    }
  }

  /** `as_cell()?.tail()` k times. */
  method SkipTails(start: Noun, k: nat) returns (next: Option<Noun>)
    ensures next == Tails(start, k)
  {
    var current := start;
    var i := 0;
    while i < k
      invariant 0 <= i <= k
      invariant Tails(start, i) == Some(current)
    {
      if current.Atom? {
        TailsAdd(start, i, k - i);
        return None;
      }
      TailsAdd(start, i, 1);
      current := current.tail;
      i := i + 1;
    }
    next := Some(current);
  }

  lemma PrependStep(done: seq<nat>, op: nat, rest: Option<seq<nat>>)
    ensures Prepend(done, Prepend([op], rest)) == Prepend(done + [op], rest)
  {
    if rest.Some? {
      assert done + ([op] + rest.value) == (done + [op]) + rest.value;
    }
  }

  /** `process_compute_queue`: walks the queue entry by entry, pushing a row for
      each and skipping the tails its operation occupies; on success the rows
      are followed by one padding row and returned as a list. */
  method ProcessComputeQueue(queue: Noun) returns (r: JetResult<Noun>)
    ensures QueueOps(queue).None? ==> r == JetError
    ensures QueueOps(queue).Some? ==>
      r == Done(ListNoun(OperationRows(QueueOps(queue).value) + [PaddingRow()]))
  {
    var rows: seq<Noun> := [];
    ghost var done: seq<nat> := [];
    var current := queue;
    assert QueueOps(queue).Some? ==> [] + QueueOps(queue).value == QueueOps(queue).value;
    while !AtQueueEnd(current)
      invariant QueueOps(queue) == Prepend(done, QueueOps(current))
      invariant rows == OperationRows(done)
      decreases Size(current)
    {
      var op := OperationOf(current.head);
      var row := CreateOperationRow(op);
      rows := rows + [row];
      var skip := SkipCount(op);
      if skip.None? {
        return JetError;
      }
      var next := SkipTails(current, skip.value);
      if next.None? {
        return JetError;
      }
      assert QueueOps(current) == Prepend([op], QueueOps(next.value));
      PrependStep(done, op, QueueOps(next.value));
      OperationRowsAppend(done, op);
      done := done + [op];
      current := next.value;
    }
    var padding := CreatePaddingRow();
    assert done + [] == done;
    assert QueueOps(queue) == Some(done);
    var list := RowsToList(rows + [padding]);
    r := Done(list);
  }

  // ---------------------------------------------------------------------------
  // Counting
  // ---------------------------------------------------------------------------

  /** Up to k steps down the tail spine, stopping early at an atom. */
  function Advance(n: Noun, k: nat): Noun
  {
    if k == 0 || n.Atom? then n else Advance(n.tail, k - 1)
  }

  function SpineLength(n: Noun): nat
  {
    match n
    case Atom(_) => 0
    case Cell(_, t) => 1 + SpineLength(t)
  }

  lemma {:induction false} AdvanceSpine(n: Noun, k: nat)
    ensures SpineLength(Advance(n, k)) == if SpineLength(n) >= k then SpineLength(n) - k else 0
    ensures n.Cell? && k > 0 ==> SpineLength(Advance(n, k)) < SpineLength(n)
  {
    if k > 0 && n.Cell? {
      AdvanceSpine(n.tail, k - 1);
    }
  }

  /** Entries counted by `count_queue_entries`: one per step of three tails. */
  function CountFrom(q: Noun): nat
    decreases SpineLength(q)
  {
    if AtQueueEnd(q) then 0
    else
      AdvanceSpine(q, 3);
      1 + CountFrom(Advance(q, 3))
  }

  /** `count_queue_entries`: never fails. */
  method CountQueueEntries(queue: Noun) returns (count: nat)
    ensures count == CountFrom(queue)
  {
    count := 0;
    var current := queue;
    while !AtQueueEnd(current)
      invariant count + CountFrom(current) == CountFrom(queue)
      decreases SpineLength(current)
    {
      count := count + 1;
      ghost var start := current;
      var k := 0;
      while k < 3
        invariant 0 <= k <= 3
        invariant Advance(start, k) == current
        invariant k > 0 ==> SpineLength(current) < SpineLength(start)
      {
        if current.Atom? {
          break;
        }
        AdvanceSteps(start, k);
        current := current.tail;
        k := k + 1;
      }
      AdvanceStops(start, k, 3);
    }
  }

  lemma {:induction false} AdvanceSteps(n: Noun, k: nat)
    requires Advance(n, k).Cell?
    ensures Advance(n, k + 1) == Advance(n, k).tail
  {
    if k > 0 && n.Cell? {
      AdvanceSteps(n.tail, k - 1);
    }
  }

  lemma {:induction false} AdvanceStops(n: Noun, k: nat, j: nat)
    requires k <= j
    requires k == j || Advance(n, k).Atom?
    ensures Advance(n, j) == Advance(n, k)
  {
    if k > 0 && n.Cell? {
      AdvanceStops(n.tail, k - 1, j - 1);
    }
  }

  /** No cell of the spine has head atom 0. */
  predicate NoEndMarker(n: Noun)
  {
    match n
    case Atom(_) => true
    case Cell(h, t) => h != Atom(0) && NoEndMarker(t)
  }

  lemma {:induction false} AdvanceKeepsNoEndMarker(n: Noun, k: nat)
    requires NoEndMarker(n)
    ensures NoEndMarker(Advance(n, k))
  {
    if k > 0 && n.Cell? {
      AdvanceKeepsNoEndMarker(n.tail, k - 1);
    }
  }

  /** The count is at most the number of cells on the spine, and when no entry
      marks the end early, every cell is covered by one of the steps of three. */
  lemma {:induction false} CountBounds(q: Noun)
    ensures CountFrom(q) <= SpineLength(q)
    ensures NoEndMarker(q) ==> SpineLength(q) <= 3 * CountFrom(q)
    decreases SpineLength(q)
  {
    if !AtQueueEnd(q) {
      AdvanceSpine(q, 3);
      CountBounds(Advance(q, 3));
      if NoEndMarker(q) {
        AdvanceKeepsNoEndMarker(q, 3);
      }
    }
  }

  // ---------------------------------------------------------------------------
  // Headers and the build jets
  // ---------------------------------------------------------------------------

  const ComputeName: seq<Byte> := [0x63, 0x6f, 0x6d, 0x70, 0x75, 0x74, 0x65]
  const MemoryName: seq<Byte> := [0x6d, 0x65, 0x6d, 0x6f, 0x72, 0x79]

  /** `[name p base-width ext-width mega-ext-width full-width num-randomizers 0]`. */
  function TableHeader(name: seq<Byte>, base: nat, ext: nat, mega: nat, full: nat, randomizers: nat): Noun
  {
    Tuple([Atom(Cord(name)), Atom(Belts.P), Atom(base), Atom(ext), Atom(mega), Atom(full), Atom(randomizers), Atom(0)])
  }

  function ComputeHeader(): Noun
  {
    TableHeader(ComputeName, 11, 57, 6, 74, 1)
  }

  function MemoryHeader(): Noun
  {
    TableHeader(MemoryName, 8, 0, 5, 13, 1)
  }

  /** The largest value a direct atom holds: 63 bits. */
  const DIRECT_MAX: nat := 0x7fff_ffff_ffff_ffff

  /** `D(n)`: a direct atom, or a panic when the value needs more than 63 bits. */
  function Direct(n: nat): (r: JetResult<Noun>)
    ensures r.Done? <==> n <= DIRECT_MAX
    ensures r.Done? ==> r.value == Atom(n)
    ensures r != JetError
  {
    if n <= DIRECT_MAX then Done(Atom(n)) else Panicked
  }

  /** `create_compute_header` / `create_memory_header` as written: the prime
      and every width go through `D()`, the prime first. */
  function TableHeaderAsWritten(name: seq<Byte>, base: nat, ext: nat, mega: nat, full: nat, randomizers: nat): (r: JetResult<Noun>)
    ensures r != JetError
    ensures r.Done? ==> r.value == TableHeader(name, base, ext, mega, full, randomizers)
  {
    var fields := [Direct(Belts.P), Direct(base), Direct(ext), Direct(mega), Direct(full), Direct(randomizers)];
    if forall i :: 0 <= i < |fields| ==> fields[i].Done? then Done(TableHeader(name, base, ext, mega, full, randomizers))
    else Panicked
  }

  /** `compute_table_build_jet` as written: the queue is read, then the
      header is built, then the queue is walked. */
  function ComputeTableBuildAsWritten(subject: Noun): (r: JetResult<Noun>)
    ensures BuildQueue(subject).None? ==> r == JetError
    ensures r.Done? ==> r.value.Cell? && r.value.head == ComputeHeader()
  {
    match BuildQueue(subject)
    case None => JetError
    case Some(queue) =>
      match TableHeaderAsWritten(ComputeName, 11, 57, 6, 74, 1)
      case Done(header) =>
        if QueueOps(queue).None? then JetError
        else Done(Cell(header, ListNoun(OperationRows(QueueOps(queue).value) + [PaddingRow()])))
      case _ => Panicked
  }

  /** `memory_table_build_jet` as written. */
  function MemoryTableBuildAsWritten(subject: Noun): (r: JetResult<Noun>)
    ensures r.Done? ==> r.value == Cell(MemoryHeader(), Atom(0))
  {
    match TableHeaderAsWritten(MemoryName, 8, 0, 5, 13, 1)
    case Done(header) => Done(Cell(header, Atom(0)))
    case _ => Panicked
  }

  /** The prime P needs 64 bits, so as written both headers panic, and with
      them both build jets on every subject whose queue can be reached. */
  lemma HeadersPanicAsWritten(subject: Noun)
    ensures Direct(Belts.P) == Panicked
    ensures TableHeaderAsWritten(ComputeName, 11, 57, 6, 74, 1) == Panicked
    ensures TableHeaderAsWritten(MemoryName, 8, 0, 5, 13, 1) == Panicked
    ensures ComputeTableBuildAsWritten(subject) == (if BuildQueue(subject).None? then JetError else Panicked)
    ensures MemoryTableBuildAsWritten(subject) == Panicked
  {
    var prime := Direct(Belts.P);
    assert !prime.Done?;
    var computeFields := [prime, Direct(11), Direct(57), Direct(6), Direct(74), Direct(1)];
    assert !computeFields[0].Done?;
    var memoryFields := [prime, Direct(8), Direct(0), Direct(5), Direct(13), Direct(1)];
    assert !memoryFields[0].Done?;
  }

  predicate HeaderFields(items: seq<Noun>, name: seq<Byte>)
  {
    |items| == 8 && items[0] == Atom(Cord(name)) && items[1] == Atom(Belts.P) &&
    items[2].Atom? && items[3].Atom? && items[4].Atom? && items[5].Atom? &&
    items[2].value + items[3].value + items[4].value == items[5].value &&
    items[6] == Atom(1) && items[7] == Atom(0)
  }

  /** Both headers, with the prime stored as a full atom, read back as eight
      fields: the table name, the field prime, the base, extension,
      mega-extension and full widths (which add up), one randomizer, and a
      terminating 0. */
  lemma HeadersReadBack()
    ensures TupleItems(ComputeHeader(), 8) ==
      Some([Atom(Cord(ComputeName)), Atom(Belts.P), Atom(11), Atom(57), Atom(6), Atom(74), Atom(1), Atom(0)])
    ensures TupleItems(MemoryHeader(), 8) ==
      Some([Atom(Cord(MemoryName)), Atom(Belts.P), Atom(8), Atom(0), Atom(5), Atom(13), Atom(1), Atom(0)])
    ensures HeaderFields(TupleItems(ComputeHeader(), 8).value, ComputeName)
    ensures HeaderFields(TupleItems(MemoryHeader(), 8).value, MemoryName)
  {
    TupleRoundTrip([Atom(Cord(ComputeName)), Atom(Belts.P), Atom(11), Atom(57), Atom(6), Atom(74), Atom(1), Atom(0)]);
    TupleRoundTrip([Atom(Cord(MemoryName)), Atom(Belts.P), Atom(8), Atom(0), Atom(5), Atom(13), Atom(1), Atom(0)]);
  }

  /** The queue of a compute-table build: axis 2 of the fock-return at axis 6. */
  function BuildQueue(subject: Noun): Option<Noun>
  {
    match Slot(subject, 6)
    case None => None
    case Some(fockReturn) => Slot(fockReturn, 2)
  }

  /** `compute_table_build_jet`: `[header rows]`, failing when the queue cannot
      be reached or processed. */
  method ComputeTableBuild(subject: Noun) returns (r: JetResult<Noun>)
    ensures BuildQueue(subject).None? ==> r == JetError
    ensures BuildQueue(subject).Some? && QueueOps(BuildQueue(subject).value).None? ==> r == JetError
    ensures BuildQueue(subject).Some? && QueueOps(BuildQueue(subject).value).Some? ==>
      r == Done(Cell(ComputeHeader(),
        ListNoun(OperationRows(QueueOps(BuildQueue(subject).value).value) + [PaddingRow()])))
  {
    var queue := BuildQueue(subject);
    if queue.None? {
      return JetError;
    }
    var queueLength := CountQueueEntries(queue.value);
    var header := ComputeHeader();
    var rows := ProcessComputeQueue(queue.value);
    if rows.JetError? {
      return JetError;
    }
    r := Done(Cell(header, rows.value));
  }

  /** `memory_table_build_jet`: the memory header over an empty row list, whatever the subject. */
  method MemoryTableBuild(subject: Noun) returns (r: JetResult<Noun>)
    ensures r == Done(Cell(MemoryHeader(), Atom(0)))
  {
    var header := MemoryHeader();
    r := Done(Cell(header, Atom(0)));
  }
}
