/** The sequential logic of the mining driver: how many workers to run, the
    mining-key configuration parser, the wires and poke nouns the driver
    sends, and the bounded queue that hands candidates to the workers.
    Text is UTF-8 bytes; the separators ':' and ',' are single ASCII bytes,
    which never occur inside a multi-byte character, so splitting bytes is
    splitting characters. */
module Mining {
  import opened Nouns

  datatype Result<+T, +E> = Ok(value: T) | Err(error: E)

  type Text = seq<Byte>

  const COLON: Byte := 58
  const COMMA: Byte := 44
  const PLUS: Byte := 43
  const MINUS: Byte := 45

  /** The bytes of an ASCII literal. */
  function Ascii(s: string): (r: Text)
    ensures |r| == |s|
  {
    seq(|s|, i requires 0 <= i < |s| => (s[i] as int) % 256)
  }

  // ---------------------------------------------------------------------------
  // Workers
  // ---------------------------------------------------------------------------

  const DEFAULT_MINING_THREADS: nat := 4
  const MAX_MINING_QUEUE: nat := 32

  /** `calculate_optimal_workers`: 1 worker up to 4 threads, 2 up to 8, 4 up
      to 16, then a quarter of the threads. */
  function OptimalWorkers(threads: nat): (w: nat)
    ensures w == 0 <==> threads == 0
    ensures threads > 16 ==> 4 * w <= threads < 4 * w + 4
  {
    if 1 <= threads <= 4 then 1
    else if 5 <= threads <= 8 then 2
    else if 9 <= threads <= 16 then 4
    else threads / 4
  }

  /** Threads per worker, `total / workers`; with no threads there are no
      workers and the division panics. */
  function ThreadsPerWorker(threads: nat): (r: Option<nat>)
    ensures r.None? <==> threads == 0
  {
    var workers := OptimalWorkers(threads);
    if workers == 0 then None else Some(threads / workers)
  }

  /** Any positive thread count yields between 1 and that many workers. */
  lemma WorkersBounded(threads: nat)
    requires threads >= 1
    ensures 1 <= OptimalWorkers(threads) <= threads
  {
  }

  /** More threads never mean fewer workers. */
  lemma WorkersMonotone(a: nat, b: nat)
    requires a <= b
    ensures OptimalWorkers(a) <= OptimalWorkers(b)
  {
    if b > 16 && a > 16 {
      assert a / 4 <= b / 4;
    }
  }

  /** Workers times threads per worker never exceeds the pool, and above 16
      threads every worker gets at least 4. */
  lemma ThreadsPerWorkerFits(threads: nat)
    requires threads >= 1
    ensures var w, t := OptimalWorkers(threads), ThreadsPerWorker(threads).value;
      w * t <= threads && (threads > 16 ==> t >= 4)
  {
    var w := OptimalWorkers(threads);
    var t := threads / w;
    assert w * t <= threads;
    if threads > 16 {
      assert w == threads / 4 && 4 * w <= threads;
    }
  }

  // ---------------------------------------------------------------------------
  // Wires
  // ---------------------------------------------------------------------------

  datatype MiningWire = Mined | Candidate | SetPubKey | Enable

  function Verb(w: MiningWire): (v: string)
    ensures |v| > 0
    ensures forall i :: 0 <= i < |v| ==> 'a' <= v[i] <= 'z'
  {
    match w
    case Mined => "mined"
    case SetPubKey => "setpubkey"
    case Candidate => "candidate"
    case Enable => "enable"
  }

  datatype WireRepr = WireRepr(source: string, version: nat, tags: seq<string>)

  /** `to_wire`: source "miner", version 1, the verb as the only tag. */
  function ToWire(w: MiningWire): (r: WireRepr)
    ensures r.source == "miner" && r.version == 1
    ensures |r.tags| == 1 && r.tags[0] == Verb(w)
  {
    WireRepr("miner", 1, [Verb(w)])
  }

  /** Different wires never share a representation. */
  lemma WiresDistinct(a: MiningWire, b: MiningWire)
    ensures ToWire(a) == ToWire(b) ==> a == b
  {
    assert ToWire(a).tags[0] == Verb(a);
    if a != b {
      assert Verb(a)[0] != Verb(b)[0] || |Verb(a)| != |Verb(b)|;
    }
  }

  // ---------------------------------------------------------------------------
  // Splitting and joining
  // ---------------------------------------------------------------------------

  function IndexOf(s: Text, c: Byte): (i: nat)
    requires c in s
    ensures i < |s| && s[i] == c && c !in s[..i]
  {
    if s[0] == c then 0
    else
      var j := IndexOf(s[1..], c);
      assert s[..j + 1] == [s[0]] + s[1..][..j];
      j + 1
  }

  /** `str::split`: the pieces between separators; never empty, and the empty
      string gives one empty piece. */
  function Split(s: Text, sep: Byte): (parts: seq<Text>)
    ensures |parts| >= 1
    ensures forall i :: 0 <= i < |parts| ==> sep !in parts[i]
    decreases |s|
  {
    if sep !in s then [s]
    else
      var i := IndexOf(s, sep);
      [s[..i]] + Split(s[i + 1..], sep)
  }

  function Join(parts: seq<Text>, sep: Byte): Text
    requires |parts| >= 1
  {
    if |parts| == 1 then parts[0] else parts[0] + [sep] + Join(parts[1..], sep)
  }

  lemma IndexOfFirst(s: Text, c: Byte, k: nat)
    requires k < |s| && s[k] == c && c !in s[..k]
    ensures IndexOf(s, c) == k
  {
  }

  /** A byte in no piece and unequal to the separator is not in the joined text. */
  lemma {:induction false} JoinAvoids(parts: seq<Text>, sep: Byte, c: Byte)
    requires |parts| >= 1 && c != sep
    requires forall i :: 0 <= i < |parts| ==> c !in parts[i]
    ensures c !in Join(parts, sep)
  {
    if |parts| > 1 {
      JoinAvoids(parts[1..], sep, c);
    }
  }

  /** Splitting a join recovers the pieces when none holds the separator. */
  lemma {:induction false} SplitJoin(parts: seq<Text>, sep: Byte)
    requires |parts| >= 1
    requires forall i :: 0 <= i < |parts| ==> sep !in parts[i]
    ensures Split(Join(parts, sep), sep) == parts
  {
    if |parts| > 1 {
      var head, k := parts[0], |parts[0]|;
      var rest := Join(parts[1..], sep);
      var s := head + [sep] + rest;
      assert s == Join(parts, sep);
      assert s[k] == sep && s[..k] == head;
      IndexOfFirst(s, sep, k);
      assert s[k + 1..] == rest;
      assert Split(s, sep) == [head] + Split(rest, sep);
      SplitJoin(parts[1..], sep);
      assert [head] + parts[1..] == parts;
    }
  }

  /** Joining the pieces of a split gives back the text. */
  lemma {:induction false} JoinSplit(s: Text, sep: Byte)
    ensures Join(Split(s, sep), sep) == s
    decreases |s|
  {
    if sep in s {
      var i := IndexOf(s, sep);
      JoinSplit(s[i + 1..], sep);
      var parts := Split(s, sep);
      assert parts[1..] == Split(s[i + 1..], sep);
      assert s == s[..i] + [sep] + s[i + 1..];
    }
  }

  // ---------------------------------------------------------------------------
  // Decimal numbers
  // ---------------------------------------------------------------------------

  /** The kinds of `ParseIntError` that parsing a u64 can give. */
  datatype IntErrorKind = EmptyInput | InvalidDigit | PosOverflow

  predicate IsDigit(b: Byte)
  {
    48 <= b <= 57
  }

  /** The left-to-right digit scan of `u64::from_str`: an invalid digit or an
      overflow ends it with that error, whichever comes first. */
  function ScanDigits(acc: nat, s: Text): (r: Result<nat, IntErrorKind>)
    requires acc < U64_LIMIT
    ensures r.Ok? ==> r.value < U64_LIMIT
    decreases |s|
  {
    if s == [] then Ok(acc)
    else if !IsDigit(s[0]) then Err(InvalidDigit)
    else
      var next := acc * 10 + (s[0] - 48);
      if next >= U64_LIMIT then Err(PosOverflow) else ScanDigits(next, s[1..])
  }

  /** `u64::from_str`: empty input, a lone sign, a non-digit or overflow fail;
      one leading '+' is allowed. */
  function ParseU64(s: Text): (r: Result<nat, IntErrorKind>)
    ensures r.Ok? ==> r.value < U64_LIMIT
  {
    if s == [] then Err(EmptyInput)
    else if (s[0] == PLUS || s[0] == MINUS) && |s| == 1 then Err(InvalidDigit)
    else ScanDigits(0, if s[0] == PLUS then s[1..] else s)
  }

  /** The decimal digits of n, most significant first. */
  function Decimal(n: nat): (r: Text)
    ensures |r| >= 1
    ensures forall i :: 0 <= i < |r| ==> IsDigit(r[i])
  {
    if n < 10 then [48 + n] else Decimal(n / 10) + [48 + n % 10]
  }

  lemma {:induction false} ScanAppend(acc: nat, s: Text, d: Byte)
    requires acc < U64_LIMIT && IsDigit(d)
    requires ScanDigits(acc, s).Ok?
    ensures var v := ScanDigits(acc, s).value;
      ScanDigits(acc, s + [d]) == if v * 10 + (d - 48) >= U64_LIMIT then Err(PosOverflow) else Ok(v * 10 + (d - 48))
    decreases |s|
  {
    if s != [] {
      assert (s + [d])[1..] == s[1..] + [d];
      ScanAppend(acc * 10 + (s[0] - 48), s[1..], d);
    }
  }

  /** Every u64 printed in decimal parses back to itself. */
  lemma {:induction false} ParseDecimal(n: nat)
    requires n < U64_LIMIT
    ensures ScanDigits(0, Decimal(n)) == Ok(n)
    ensures ParseU64(Decimal(n)) == Ok(n)
  {
    if n >= 10 {
      ParseDecimal(n / 10);
      ScanAppend(0, Decimal(n / 10), 48 + n % 10);
    }
  }

  // ---------------------------------------------------------------------------
  // Mining-key configuration
  // ---------------------------------------------------------------------------

  datatype MiningKeyConfig = MiningKeyConfig(share: nat, m: nat, keys: seq<Text>)

  datatype ConfigError = InvalidFormat | InvalidShareM | InvalidNumber(kind: IntErrorKind)

  /** `MiningKeyConfig::from_str` on `share,m:key1,key2,...`. */
  function FromStr(s: Text): (r: Result<MiningKeyConfig, ConfigError>)
    ensures r.Ok? ==> |r.value.keys| >= 1 && r.value.share < U64_LIMIT && r.value.m < U64_LIMIT
    ensures r.Ok? ==> forall i :: 0 <= i < |r.value.keys| ==> COMMA !in r.value.keys[i] && COLON !in r.value.keys[i]
  {
    var parts := Split(s, COLON);
    if |parts| != 2 then Err(InvalidFormat)
    else
      var shareM := Split(parts[0], COMMA);
      if |shareM| != 2 then Err(InvalidShareM)
      else
        match ParseU64(shareM[0])
        case Err(e) => Err(InvalidNumber(e))
        case Ok(share) =>
          match ParseU64(shareM[1])
          case Err(e) => Err(InvalidNumber(e))
          case Ok(m) =>
            var keys := Split(parts[1], COMMA);
            SplitPiecesAvoid(parts[1], COMMA, COLON);
            Ok(MiningKeyConfig(share, m, keys))
  }

  /** A byte absent from a text is absent from every piece of its split. */
  lemma {:induction false} SplitPiecesAvoid(s: Text, sep: Byte, c: Byte)
    requires c !in s
    ensures forall i :: 0 <= i < |Split(s, sep)| ==> c !in Split(s, sep)[i]
    decreases |s|
  {
    if sep in s {
      var i := IndexOf(s, sep);
      assert c !in s[..i];
      assert c !in s[i + 1..];
      SplitPiecesAvoid(s[i + 1..], sep, c);
    }
  }

  /** The text `share,m:key1,...,keyn`. */
  function FormatConfig(c: MiningKeyConfig): Text
    requires |c.keys| >= 1
  {
    Decimal(c.share) + [COMMA] + Decimal(c.m) + [COLON] + Join(c.keys, COMMA)
  }

  /** The input fails when it is not exactly two pieces around ':', when the
      first is not exactly two pieces around ',', or when either number is not
      a u64; it succeeds otherwise, with keys the comma-separated second piece. */
  lemma FromStrCases(s: Text)
    ensures |Split(s, COLON)| != 2 ==> FromStr(s) == Err(InvalidFormat)
    ensures |Split(s, COLON)| == 2 && |Split(Split(s, COLON)[0], COMMA)| != 2 ==> FromStr(s) == Err(InvalidShareM)
    ensures |Split(s, COLON)| == 2 && |Split(Split(s, COLON)[0], COMMA)| == 2 ==>
      var shareM := Split(Split(s, COLON)[0], COMMA);
      (FromStr(s).Ok? <==> ParseU64(shareM[0]).Ok? && ParseU64(shareM[1]).Ok?) &&
      (FromStr(s).Ok? ==> FromStr(s).value.keys == Split(Split(s, COLON)[1], COMMA))
  {
  }

  /** Formatting a configuration whose numbers are u64s and whose keys hold
      neither ',' nor ':' parses back to the same configuration. */
  lemma FromStrFormat(c: MiningKeyConfig)
    requires |c.keys| >= 1 && c.share < U64_LIMIT && c.m < U64_LIMIT
    requires forall i :: 0 <= i < |c.keys| ==> COMMA !in c.keys[i] && COLON !in c.keys[i]
    ensures FromStr(FormatConfig(c)) == Ok(c)
  {
    var a, b := Decimal(c.share), Decimal(c.m);
    var head := a + [COMMA] + b;
    var keysText := Join(c.keys, COMMA);
    assert COLON !in a && COLON !in b && COMMA !in a && COMMA !in b by {
      assert forall i :: 0 <= i < |a| ==> IsDigit(a[i]);
      assert forall i :: 0 <= i < |b| ==> IsDigit(b[i]);
    }
    assert head == Join([a, b], COMMA);
    JoinAvoids([a, b], COMMA, COLON);
    JoinAvoids(c.keys, COMMA, COLON);
    assert FormatConfig(c) == Join([head, keysText], COLON);
    SplitJoin([head, keysText], COLON);
    SplitJoin([a, b], COMMA);
    SplitJoin(c.keys, COMMA);
    ParseDecimal(c.share);
    ParseDecimal(c.m);
  }

  // ---------------------------------------------------------------------------
  // Pokes
  // ---------------------------------------------------------------------------

  function CommandTag(): Noun
  {
    Atom(Cord(Ascii("command")))
  }

  /** `[%command %set-mining-key pubkey]`. */
  function SetMiningKeyPoke(pubkey: Text): (poke: Noun)
    ensures TupleItems(poke, 3) == Some([CommandTag(), Atom(Cord(Ascii("set-mining-key"))), Atom(Cord(pubkey))])
  {
    TupleRoundTrip([CommandTag(), Atom(Cord(Ascii("set-mining-key"))), Atom(Cord(pubkey))]);
    Tuple([CommandTag(), Atom(Cord(Ascii("set-mining-key"))), Atom(Cord(pubkey))])
  }

  /** `[%command %enable-mining flag]`, where the flag is 0 to enable and 1 to disable. */
  function EnableMiningPoke(enable: bool): (poke: Noun)
    ensures TupleItems(poke, 3) == Some([CommandTag(), Atom(Cord(Ascii("enable-mining"))), Atom(if enable then 0 else 1)])
  {
    TupleRoundTrip([CommandTag(), Atom(Cord(Ascii("enable-mining"))), Atom(if enable then 0 else 1)]);
    Tuple([CommandTag(), Atom(Cord(Ascii("enable-mining"))), Atom(if enable then 0 else 1)])
  }

  function Reverse<T>(s: seq<T>): (r: seq<T>)
    ensures |r| == |s|
    ensures forall i :: 0 <= i < |s| ==> r[i] == s[|s| - 1 - i]
  {
    if s == [] then [] else [s[|s| - 1]] + Reverse(s[..|s| - 1])
  }

  function KeyAtoms(keys: seq<Text>): (r: seq<Noun>)
    ensures |r| == |keys|
    ensures forall i :: 0 <= i < |keys| ==> r[i] == Atom(Cord(keys[i]))
  {
    if keys == [] then [] else [Atom(Cord(keys[0]))] + KeyAtoms(keys[1..])
  }

  /** `[share m keys]` with the keys list in reverse order. */
  function ConfigTriple(c: MiningKeyConfig): Noun
  {
    Tuple([Atom(c.share), Atom(c.m), ListNoun(Reverse(KeyAtoms(c.keys)))])
  }

  function ConfigTriples(cs: seq<MiningKeyConfig>): (r: seq<Noun>)
    ensures |r| == |cs|
    ensures forall i :: 0 <= i < |cs| ==> r[i] == ConfigTriple(cs[i])
  {
    if cs == [] then [] else [ConfigTriple(cs[0])] + ConfigTriples(cs[1..])
  }

  /** `[%command %set-mining-key-advanced configs]` with the configurations in reverse order. */
  function AdvancedPoke(configs: seq<MiningKeyConfig>): Noun
  {
    Tuple([CommandTag(), Atom(Cord(Ascii("set-mining-key-advanced"))), ListNoun(Reverse(ConfigTriples(configs)))])
  }

  lemma ReverseSnoc<T>(s: seq<T>, x: T)
    ensures Reverse(s + [x]) == [x] + Reverse(s)
  {
    assert (s + [x])[..|s|] == s;
  }

  lemma KeyAtomsSnoc(keys: seq<Text>, j: nat)
    requires j < |keys|
    ensures Reverse(KeyAtoms(keys[..j + 1])) == [Atom(Cord(keys[j]))] + Reverse(KeyAtoms(keys[..j]))
  {
    assert KeyAtoms(keys[..j + 1]) == KeyAtoms(keys[..j]) + [Atom(Cord(keys[j]))];
    ReverseSnoc(KeyAtoms(keys[..j]), Atom(Cord(keys[j])));
  }

  lemma ConfigTriplesSnoc(configs: seq<MiningKeyConfig>, i: nat)
    requires i < |configs|
    ensures Reverse(ConfigTriples(configs[..i + 1])) == [ConfigTriple(configs[i])] + Reverse(ConfigTriples(configs[..i]))
  {
    var pre, c := configs[..i], configs[i];
    assert configs[..i + 1] == pre + [c];
    var whole, front := ConfigTriples(pre + [c]), ConfigTriples(pre);
    assert |whole| == |front| + 1;
    assert forall k :: 0 <= k < |front| ==> whole[k] == front[k];
    assert whole == front + [ConfigTriple(c)];
    ReverseSnoc(front, ConfigTriple(c));
  }

  /** The inner loop of `set_mining_key_advanced`: each key is consed onto
      the front of the list as the loop meets it. */
  method BuildKeysList(keys: seq<Text>) returns (keysNoun: Noun)
    ensures keysNoun == ListNoun(Reverse(KeyAtoms(keys)))
  {
    keysNoun := Atom(0);
    for j := 0 to |keys|
      invariant keysNoun == ListNoun(Reverse(KeyAtoms(keys[..j])))
    {
      KeyAtomsSnoc(keys, j);
      keysNoun := Cell(Atom(Cord(keys[j])), keysNoun);
    }
    assert keys[..|keys|] == keys;
  }

  /** The noun `set_mining_key_advanced` builds: each configuration is consed
      onto the front of the list as the loop meets it. */
  method BuildAdvancedPoke(configs: seq<MiningKeyConfig>) returns (poke: Noun)
    ensures poke == AdvancedPoke(configs)
  {
    var configsList := Atom(0);
    for i := 0 to |configs|
      invariant configsList == ListNoun(Reverse(ConfigTriples(configs[..i])))
    {
      var keysNoun := BuildKeysList(configs[i].keys);
      var triple := Tuple([Atom(configs[i].share), Atom(configs[i].m), keysNoun]);
      assert triple == ConfigTriple(configs[i]);
      ConfigTriplesSnoc(configs, i);
      configsList := Cell(triple, configsList);
    }
    assert configs[..|configs|] == configs;
    poke := Tuple([CommandTag(), Atom(Cord(Ascii("set-mining-key-advanced"))), configsList]);
  }

  /** The advanced poke reads back as three fields whose third is a list of
      the configuration triples, last configuration first. */
  lemma AdvancedPokeReadsBack(configs: seq<MiningKeyConfig>)
    ensures var items := TupleItems(AdvancedPoke(configs), 3);
      items.Some? && |items.value| == 3 && ListItems(items.value[2]) == Some(Reverse(ConfigTriples(configs)))
  {
    var list := Reverse(ConfigTriples(configs));
    TupleRoundTrip([CommandTag(), Atom(Cord(Ascii("set-mining-key-advanced"))), ListNoun(list)]);
    ListRoundTrip(list);
  }

  /** A configuration triple reads back as its share, its m and its keys,
      last key first. */
  lemma ConfigTripleReadsBack(c: MiningKeyConfig)
    ensures var items := TupleItems(ConfigTriple(c), 3);
      items.Some? && |items.value| == 3 && items.value[0] == Atom(c.share) && items.value[1] == Atom(c.m) &&
      ListItems(items.value[2]) == Some(Reverse(KeyAtoms(c.keys)))
  {
    var keys := Reverse(KeyAtoms(c.keys));
    TupleRoundTrip([Atom(c.share), Atom(c.m), ListNoun(keys)]);
    ListRoundTrip(keys);
  }

  /** Which key-setting poke the driver sends. */
  datatype KeyPoke = SimpleKey(key: Text) | AdvancedKeys(configs: seq<MiningKeyConfig>)

  /** One configuration with share 1, m 1 and a single key takes the simple
      poke; anything else takes the advanced one. */
  function ChooseKeyPoke(configs: seq<MiningKeyConfig>): (r: KeyPoke)
    ensures r.SimpleKey? <==>
      |configs| == 1 && configs[0].share == 1 && configs[0].m == 1 && |configs[0].keys| == 1
    ensures r.SimpleKey? ==> r.key == configs[0].keys[0]
    ensures r.AdvancedKeys? ==> r.configs == configs
  {
    if |configs| == 1 && configs[0].share == 1 && configs[0].m == 1 && |configs[0].keys| == 1 then
      SimpleKey(configs[0].keys[0])
    else
      AdvancedKeys(configs)
  }

  function KeyPokeNoun(k: KeyPoke): Noun
  {
    match k
    case SimpleKey(key) => SetMiningKeyPoke(key)
    case AdvancedKeys(configs) => AdvancedPoke(configs)
  }

  /** The pokes the driver sends before it starts mining, with their wires:
      without configurations, mining is disabled; with them, the key is set
      and then mining is enabled or disabled as requested. */
  function DriverPokes(config: Option<seq<MiningKeyConfig>>, mine: bool): (pokes: seq<(MiningWire, Noun)>)
    ensures |pokes| >= 1
    ensures pokes[|pokes| - 1] == (Enable, EnableMiningPoke(config.Some? && mine))
    ensures config.None? <==> |pokes| == 1
  {
    match config
    case None => [(Enable, EnableMiningPoke(false))]
    case Some(configs) => [(SetPubKey, KeyPokeNoun(ChooseKeyPoke(configs))), (Enable, EnableMiningPoke(mine))]
  }

  // ---------------------------------------------------------------------------
  // The candidate queue
  // ---------------------------------------------------------------------------

  datatype SendOutcome = Sent | Full | Closed

  /** The bounded channel between the driver and the workers, seen
      sequentially: a FIFO of candidates with a fixed capacity that can be
      closed from the receiving side. */
  class CandidateQueue {
    var items: seq<Noun>
    const capacity: nat
    var closed: bool

    ghost predicate Valid()
      reads this
    {
      capacity > 0 && |items| <= capacity
    }

    /** `mpsc::channel(capacity)`, which requires a positive capacity. */
    constructor (capacity: nat)
      requires capacity > 0
      ensures Valid()
      ensures items == [] && this.capacity == capacity && !closed
    {
      items := [];
      this.capacity := capacity;
      closed := false;
    }

    /** `try_send`: a closed channel refuses, a full one drops the candidate,
        otherwise it is appended. */
    method TrySend(candidate: Noun) returns (outcome: SendOutcome)
      requires Valid()
      modifies this
      ensures Valid()
      ensures closed == old(closed)
      ensures old(closed) ==> outcome == Closed && items == old(items)
      ensures !old(closed) && |old(items)| < capacity ==> outcome == Sent && items == old(items) + [candidate]
      ensures !old(closed) && |old(items)| >= capacity ==> outcome == Full && items == old(items)
    {
      if closed {
        outcome := Closed;
      } else if |items| < capacity {
        items := items + [candidate];
        outcome := Sent;
      } else {
        outcome := Full;
      }
    }

    /** A worker taking the oldest candidate, if any. */
    method TryRecv() returns (candidate: Option<Noun>)
      requires Valid()
      modifies this
      ensures Valid()
      ensures closed == old(closed)
      ensures old(items) == [] ==> candidate == None && items == []
      ensures old(items) != [] ==> candidate == Some(old(items)[0]) && items == old(items)[1..]
    {
      if items == [] {
        candidate := None;
      } else {
        candidate := Some(items[0]);
        items := items[1..];
      }
    }

    /** The driver's handling of one effect: `[%mine candidate]` is offered to
        the queue (a refusal is only logged); any other effect is ignored. */
    method HandleEffect(effect: Noun)
      requires Valid()
      modifies this
      ensures Valid()
      ensures closed == old(closed)
      ensures IsMineEffect(effect) && !old(closed) && |old(items)| < capacity ==>
        items == old(items) + [effect.tail]
      ensures !(IsMineEffect(effect) && !old(closed) && |old(items)| < capacity) ==>
        items == old(items)
    {
      if IsMineEffect(effect) {
        var outcome := TrySend(effect.tail);
      }
    }
  }

  predicate IsMineEffect(effect: Noun)
  {
    effect.Cell? && effect.head == Atom(Cord(Ascii("mine")))
  }

  /** The driver's queue has capacity `MAX_MINING_QUEUE`; the first 32
      candidates offered to an open, empty queue are all kept, in order,
      and the 33rd is dropped. */
  method FillScenario(candidates: seq<Noun>) returns (kept: seq<Noun>, outcomes: seq<SendOutcome>)
    requires |candidates| == MAX_MINING_QUEUE + 1
    ensures kept == candidates[..MAX_MINING_QUEUE]
    ensures |outcomes| == |candidates|
    ensures forall i :: 0 <= i < MAX_MINING_QUEUE ==> outcomes[i] == Sent
    ensures outcomes[MAX_MINING_QUEUE] == Full
  {
    var queue := new CandidateQueue(MAX_MINING_QUEUE);
    outcomes := [];
    for i := 0 to |candidates|
      invariant queue.Valid() && !queue.closed && queue.capacity == MAX_MINING_QUEUE
      invariant i <= MAX_MINING_QUEUE ==> queue.items == candidates[..i]
      invariant i > MAX_MINING_QUEUE ==> queue.items == candidates[..MAX_MINING_QUEUE]
      invariant |outcomes| == i
      invariant forall k :: 0 <= k < i && k < MAX_MINING_QUEUE ==> outcomes[k] == Sent
      invariant i > MAX_MINING_QUEUE ==> outcomes[MAX_MINING_QUEUE] == Full
    {
      var outcome := queue.TrySend(candidates[i]);
      outcomes := outcomes + [outcome];
    }
    kept := queue.items;
  }
}
