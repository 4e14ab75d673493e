/** The harness driver of fxmark: the run-specification parser, the throughput
    formula, the benchmark descriptor, the per-second report of one worker and
    the sequential plan of rounds that `bench` and `start` carry out. Threads,
    the barrier's waiting side and the workload's own `run` are outside this
    module; a workload's per-second series is an input here. */
module Fxmark {
  import opened Ints
  import opened Text

  /** The page size every workload reads and writes, in bytes. */
  const PAGE_SIZE: nat := 1024

  // ---------------------------------------------------------------------------
  // ARGs::from_str

  /** The run specification `<cores>X<open_files>X<benchmark>X<write_ratio>`. */
  datatype Args = Args(cores: usize, openFiles: usize, benchmark: string, writeRatio: usize)

  /** What `from_str` does with a text: returns the arguments, returns a
      `ParseIntError`, or panics indexing a segment that is not there. */
  datatype FromStrOutcome =
    | Parsed(args: Args)
    | ParseError(kind: IntErrorKind)
    | IndexPanic(index: nat)

  /** The segments are looked up and parsed in source order, so a bad first
      segment is reported before a missing second one is noticed. */
  function ParseArgs(s: string): (r: FromStrOutcome)
    ensures r.IndexPanic? ==> 1 <= r.index <= 3 && r.index == |Split(s, 'X')|
    ensures r.Parsed? ==> |Split(s, 'X')| >= 4 && r.args.benchmark == Split(s, 'X')[2]
    ensures r == ParseError(Empty) ==> [] in Split(s, 'X')
  {
    var coords := Split(s, 'X');
    match ParseUsize(coords[0])
    case Err(e) => ParseError(e)
    case Ok(cores) =>
      if |coords| < 2 then IndexPanic(1)
      else
        match ParseUsize(coords[1])
        case Err(e) => ParseError(e)
        case Ok(openFiles) =>
          if |coords| < 3 then IndexPanic(2)
          else if |coords| < 4 then IndexPanic(3)
          else
            match ParseUsize(coords[3])
            case Err(e) => ParseError(e)
            case Ok(writeRatio) => Parsed(Args(cores, openFiles, coords[2], writeRatio))
  }

  /** The value of a text that `usize::from_str` accepts. */
  function UsizeValue(s: string): nat
    requires ValidUsize(s)
  {
    DigitsValue(Unsigned(s))
  }

  /** Which texts parse, which panic and which report an error, in terms of
      the `X`-separated segments. The third segment is taken verbatim and no
      range is checked on any number. */
  lemma ParseArgsOutcome(s: string)
    ensures var c := Split(s, 'X');
      ParseArgs(s).Parsed? <==> |c| >= 4 && ValidUsize(c[0]) && ValidUsize(c[1]) && ValidUsize(c[3])
    ensures var c := Split(s, 'X');
      ParseArgs(s).Parsed? ==>
        ParseArgs(s).args == Args(UsizeValue(c[0]), UsizeValue(c[1]), c[2], UsizeValue(c[3]))
    ensures var c := Split(s, 'X');
      ParseArgs(s).IndexPanic? <==> |c| < 4 && ValidUsize(c[0]) && (|c| >= 2 ==> ValidUsize(c[1]))
    ensures ParseArgs(s).IndexPanic? ==> ParseArgs(s).index == |Split(s, 'X')|
    ensures var c := Split(s, 'X');
      ParseArgs(s).ParseError? ==>
        || ParseUsize(c[0]) == Err(ParseArgs(s).kind)
        || (ValidUsize(c[0]) && |c| >= 2 && ParseUsize(c[1]) == Err(ParseArgs(s).kind))
        || (ValidUsize(c[0]) && |c| >= 4 && ValidUsize(c[1]) && ParseUsize(c[3]) == Err(ParseArgs(s).kind))
  {
    var c := Split(s, 'X');
    ParseUsizeSpec(c[0]);
    if |c| >= 2 { ParseUsizeSpec(c[1]); }
    if |c| >= 4 { ParseUsizeSpec(c[3]); }
  }

  /** A decimal text contains no letter `X`. */
  lemma SplitDecimal(n: nat)
    ensures Split(Decimal(n), 'X') == [Decimal(n)]
  {
    DecimalValue(n);
    SplitJoin([Decimal(n)], 'X');
  }

  /** `"aXbXnameXc"` parses to exactly those four fields, for any `usize`
      values and any name free of `X`. */
  lemma ParseArgsRoundTrip(a: usize, b: usize, name: string, w: usize)
    requires 'X' !in name
    ensures ParseArgs(Decimal(a) + "X" + Decimal(b) + "X" + name + "X" + Decimal(w))
         == Parsed(Args(a, b, name, w))
  {
    var da, db, dw := Decimal(a), Decimal(b), Decimal(w);
    SplitDecimal(a);
    SplitDecimal(b);
    SplitDecimal(w);
    SplitJoin([name], 'X');
    SplitAround(da, db, 'X');
    SplitAround(da + "X" + db, name, 'X');
    SplitAround(da + "X" + db + "X" + name, dw, 'X');
    assert Split(da + "X" + db + "X" + name + "X" + dw, 'X') == [da, db, name, dw];
    ParseDecimal(a);
    ParseDecimal(b);
    ParseDecimal(w);
  }

  /** Segments after the fourth are never looked at. */
  lemma ParseArgsIgnoresTail(s: string, t: string)
    requires |Split(s, 'X')| >= 4
    ensures ParseArgs(s + "X" + t) == ParseArgs(s)
  {
    SplitAround(s, t, 'X');
    var c, c' := Split(s, 'X'), Split(s + "X" + t, 'X');
    assert c'[0] == c[0] && c'[1] == c[1] && c'[2] == c[2] && c'[3] == c[3];
  }

  // ---------------------------------------------------------------------------
  // _calculate_throughput

  const NANOS_PER_SEC: nat := 1_000_000_000

  /** The result of `_calculate_throughput`: operations per second, or the
      panic of an integer division by zero. */
  datatype Throughput = PerSecond(rate: usize) | DivisionByZero

  /** One second over the whole nanoseconds per operation, from `ops`
      operations that took `nanos` nanoseconds. */
  function CalculateThroughput(ops: u64, nanos: nat): (r: Throughput)
    ensures r.PerSecond? <==> 0 < ops <= nanos
    ensures r.PerSecond? ==> r.rate <= NANOS_PER_SEC
  {
    if ops == 0 then DivisionByZero
    else
      var perOp := nanos / ops;
      if perOp == 0 then DivisionByZero
      else
        assert NANOS_PER_SEC / perOp <= NANOS_PER_SEC;
        PerSecond(NANOS_PER_SEC / perOp)
  }

  lemma MulMono(a: nat, b: nat, d: nat)
    requires a <= b
    ensures a * d <= b * d
  {
  }

  /** `q * d <= n` bounds `q` by the quotient. */
  lemma QuotientBound(n: nat, d: nat, q: nat)
    requires 0 < d && q * d <= n
    ensures q <= n / d
  {
    if q > n / d {
      MulMono(n / d + 1, q, d);
    }
  }

  lemma DivisionAntitone(n: nat, x: nat, y: nat)
    requires 0 < x <= y
    ensures n / y <= n / x
  {
    var q := n / y;
    assert q * y <= n;
    assert q * x <= q * y by { MulMono(x, y, q); }
    QuotientBound(n, x, q);
  }

  /** More operations in the same time never report a lower rate. */
  lemma ThroughputMonotone(ops1: u64, ops2: u64, nanos: nat)
    requires 0 < ops1 <= ops2 <= nanos
    ensures CalculateThroughput(ops1, nanos).rate <= CalculateThroughput(ops2, nanos).rate
  {
    DivisionAntitone(nanos, ops1, ops2);
    DivisionAntitone(NANOS_PER_SEC, nanos / ops2, nanos / ops1);
  }

  /** Rounding the time per operation down can only raise the rate: the
      result is at least the exact rate `ops` per `nanos`, rounded down. */
  lemma ThroughputAtLeastExactRate(ops: u64, nanos: nat)
    requires 0 < ops <= nanos
    ensures CalculateThroughput(ops, nanos).rate >= NANOS_PER_SEC * ops / nanos
  {
    var perOp := nanos / ops;
    var k := NANOS_PER_SEC * ops / nanos;
    assert perOp * ops <= nanos;
    assert k * nanos <= NANOS_PER_SEC * ops;
    assert (k * perOp) * ops <= NANOS_PER_SEC * ops by {
      MulMono(perOp * ops, nanos, k);
      assert k * (perOp * ops) == (k * perOp) * ops;
    }
    assert k * perOp <= NANOS_PER_SEC by {
      if k * perOp > NANOS_PER_SEC {
        MulMono(NANOS_PER_SEC + 1, k * perOp, ops);
      }
    }
    QuotientBound(NANOS_PER_SEC, perOp, k);
  }

  // ---------------------------------------------------------------------------
  // MicroBench::new

  /** How worker indices are laid onto cores. The topology module that defines
      the strategies is not part of this model; the driver uses only
      `Sequential`. */
  datatype ThreadMapping = Sequential

  datatype LogMode = Csv | Stdout

  /** The client parameters the driver reads; the connection and RPC kinds
      are kept as their displayed names. */
  datatype ClientParams = ClientParams(
    connType: string, rpcType: string, logMode: LogMode,
    cid: usize, ccores: usize, nclients: usize)

  /** A benchmark descriptor: the mappings and thread counts to run, with the
      run's parameters. */
  datatype MicroBench = MicroBench(
    threadMappings: seq<ThreadMapping>, threads: seq<usize>,
    benchmark: string, writeRatio: usize, openFiles: usize)

  /** One mapping, sequential, and one thread count, the client's core count. */
  method NewMicroBench(benchmark: string, writeRatio: usize, openFiles: usize, params: ClientParams)
    returns (mb: MicroBench)
    ensures mb.threadMappings == [Sequential]
    ensures mb.threads == [params.ccores]
    ensures mb.benchmark == benchmark && mb.writeRatio == writeRatio && mb.openFiles == openFiles
  {
    var mapping := Sequential;
    var maxCores := params.ccores;
    var threads := [];
    threads := threads + [maxCores];
    var threadMapping := [];
    threadMapping := threadMapping + [mapping];
    mb := MicroBench(threadMapping, threads, benchmark, writeRatio, openFiles);
  }

  // ---------------------------------------------------------------------------
  // The report rows of fxmark_bencher

  /** One report row, field by field, in output order. */
  datatype Row = Row(
    coreIndex: nat, benchmark: string, totalCores: nat, writeRatio: nat,
    openFiles: nat, duration: nat, iteration: nat, ops: nat,
    cid: nat, ccores: nat, nclients: nat, rpcType: string)

  /** The row of second `iteration`: the core numbered globally across
      clients, the core count summed over clients. */
  function RowFor(cores: nat, coreId: nat, benchmark: string, writeRatio: nat, openFiles: nat,
                  duration: nat, params: ClientParams, iteration: nat, ops: nat): (r: Row)
  {
    Row(coreId + params.ccores * params.cid, benchmark, cores * params.nclients, writeRatio,
        openFiles, duration, iteration, ops, params.cid, params.ccores, params.nclients, params.rpcType)
  }

  /** The texts of the twelve fields; the benchmark name is printed with
      `{:?}`, in double quotes. */
  function RowFields(r: Row): (fs: seq<string>)
    ensures |fs| == 12
    ensures forall i :: 0 <= i < |fs| && i != 1 && i != 11 ==> |fs[i]| >= 1 && AllDigits(fs[i])
    ensures |fs[1]| >= 2 && fs[1][0] == '"' && fs[1][|fs[1]| - 1] == '"'
  {
    [Decimal(r.coreIndex), "\"" + r.benchmark + "\"", Decimal(r.totalCores), Decimal(r.writeRatio),
     Decimal(r.openFiles), Decimal(r.duration), Decimal(r.iteration), Decimal(r.ops),
     Decimal(r.cid), Decimal(r.ccores), Decimal(r.nclients), r.rpcType]
  }

  /** The line written for a row: the fields separated by commas, then a newline. */
  function RowLine(r: Row): string
  {
    Join(RowFields(r), ',') + "\n"
  }

  lemma NoCommaInDecimal(n: nat)
    ensures ',' !in Decimal(n)
  {
    DecimalValue(n);
  }

  /** A row line ends in a newline and, when the two names hold no comma,
      splits at its commas back into exactly its twelve fields. */
  lemma RowLineFields(r: Row)
    requires ',' !in r.benchmark && ',' !in r.rpcType
    ensures RowLine(r)[|RowLine(r)| - 1] == '\n'
    ensures Split(RowLine(r)[..|RowLine(r)| - 1], ',') == RowFields(r)
    ensures |Split(RowLine(r)[..|RowLine(r)| - 1], ',')| == 12
  {
    var fs := RowFields(r);
    NoCommaInDecimal(r.coreIndex);
    NoCommaInDecimal(r.totalCores);
    NoCommaInDecimal(r.writeRatio);
    NoCommaInDecimal(r.openFiles);
    NoCommaInDecimal(r.duration);
    NoCommaInDecimal(r.iteration);
    NoCommaInDecimal(r.ops);
    NoCommaInDecimal(r.cid);
    NoCommaInDecimal(r.ccores);
    NoCommaInDecimal(r.nclients);
    assert ',' !in fs[1];
    assert RowLine(r)[..|RowLine(r)| - 1] == Join(fs, ',');
    SplitJoin(fs, ',');
  }

  /** The report loop of one worker: one row per second `1..=duration`, row
      `i` showing `iops[i]`. Indexing past the end of `iops` panics after the
      rows before it were written; a series of exactly `duration` entries
      therefore panics at the last second. */
  method ReportRows(cores: nat, coreId: nat, benchmark: string, writeRatio: nat, openFiles: nat,
                    duration: u64, params: ClientParams, iops: seq<nat>)
    returns (rows: seq<Row>, panicked: bool)
    ensures panicked <==> 1 <= duration && |iops| <= duration
    ensures |rows| == if !panicked then duration else if |iops| == 0 then 0 else |iops| - 1
    ensures forall k :: 0 <= k < |rows| ==>
      rows[k] == RowFor(cores, coreId, benchmark, writeRatio, openFiles, duration, params, k + 1, iops[k + 1])
  {
    rows, panicked := [], false;
    var iteration := 1;
    while iteration < duration + 1
      invariant 1 <= iteration <= duration + 1
      invariant iteration == 1 || iteration <= |iops|
      invariant |rows| == iteration - 1
      invariant forall k :: 0 <= k < |rows| ==>
        rows[k] == RowFor(cores, coreId, benchmark, writeRatio, openFiles, duration, params, k + 1, iops[k + 1])
    {
      if iteration >= |iops| {
        panicked := true;
        return;
      }
      rows := rows + [RowFor(cores, coreId, benchmark, writeRatio, openFiles, duration, params,
                             iteration, iops[iteration])];
      iteration := iteration + 1;
    }
  }

  // ---------------------------------------------------------------------------
  // The plan of bench / start

  /** The steps of a run that the driver takes in order: setting the
      barrier's count, calling the workload's `init`, spawning a worker for
      a core (told the run's core count), and joining a worker. */
  datatype Event =
    | SetBarrier(count: nat)
    | Init(cores: seq<nat>)
    | Spawn(core: nat, clen: nat)
    | JoinThread(core: nat)

  /** For each core of `cs`: `init` with the whole core list, then the spawn. */
  function InitSpawn(all: seq<nat>, cs: seq<nat>): seq<Event>
  {
    if cs == [] then [] else InitSpawn(all, cs[..|cs| - 1]) + [Init(all), Spawn(cs[|cs| - 1], |all|)]
  }

  function Joins(cs: seq<nat>): seq<Event>
  {
    if cs == [] then [] else Joins(cs[..|cs| - 1]) + [JoinThread(cs[|cs| - 1])]
  }

  /** One round on the allocated cores. */
  function Round(cores: seq<nat>): seq<Event>
  {
    [SetBarrier(|cores|)] + InitSpawn(cores, cores) + Joins(cores)
  }

  /** The rounds of one mapping, one per thread count in order. */
  function RoundsFor(tm: ThreadMapping, ts: seq<usize>, allocate: (ThreadMapping, nat) -> seq<nat>): seq<Event>
  {
    if ts == [] then [] else RoundsFor(tm, ts[..|ts| - 1], allocate) + Round(allocate(tm, ts[|ts| - 1]))
  }

  /** The rounds of all mappings, the mapping in the outer loop. */
  function Plan(ms: seq<ThreadMapping>, ts: seq<usize>, allocate: (ThreadMapping, nat) -> seq<nat>): seq<Event>
  {
    if ms == [] then [] else Plan(ms[..|ms| - 1], ts, allocate) + RoundsFor(ms[|ms| - 1], ts, allocate)
  }

  /** One round of `start` on the cores the topology allocated: set the
      barrier to their number, init and spawn per core, then join every
      worker. */
  method RunRound(cores: seq<nat>) returns (steps: seq<Event>)
    ensures steps == Round(cores)
  {
    var clen := |cores|;
    steps := [SetBarrier(clen)];
    for k := 0 to clen
      invariant steps == [SetBarrier(clen)] + InitSpawn(cores, cores[..k])
    {
      assert cores[..k + 1][..k] == cores[..k];
      steps := steps + [Init(cores), Spawn(cores[k], clen)];
    }
    assert cores[..clen] == cores;
    for h := 0 to clen
      invariant steps == [SetBarrier(clen)] + InitSpawn(cores, cores) + Joins(cores[..h])
    {
      assert cores[..h + 1][..h] == cores[..h];
      steps := steps + [JoinThread(cores[h])];
    }
  }

  /** The inner loop of `start`: one round per thread count, on the cores
      the topology allocates for the mapping `tm`. */
  method RunRounds(tm: ThreadMapping, ts: seq<usize>, allocate: (ThreadMapping, nat) -> seq<nat>)
    returns (trace: seq<Event>)
    ensures trace == RoundsFor(tm, ts, allocate)
  {
    trace := [];
    for j := 0 to |ts|
      invariant trace == RoundsFor(tm, ts[..j], allocate)
    {
      var steps := RunRound(allocate(tm, ts[j]));
      assert ts[..j + 1][..j] == ts[..j];
      trace := trace + steps;
    }
    assert ts[..|ts|] == ts;
  }

  /** `start`, with the topology's allocation as a parameter: one round per
      thread count, nested inside one loop per mapping. */
  method Start(mb: MicroBench, openFiles: usize, writeRatio: usize, duration: u64, params: ClientParams,
               allocate: (ThreadMapping, nat) -> seq<nat>)
    returns (trace: seq<Event>)
    ensures trace == Plan(mb.threadMappings, mb.threads, allocate)
  {
    var ms := mb.threadMappings;
    trace := [];
    for i := 0 to |ms|
      invariant trace == Plan(ms[..i], mb.threads, allocate)
    {
      var rounds := RunRounds(ms[i], mb.threads, allocate);
      assert ms[..i + 1][..i] == ms[..i];
      trace := trace + rounds;
    }
    assert ms[..|ms|] == ms;
  }

  /** `bench`: only `"mix"` runs, as one round on the cores allocated
      sequentially for the client's core count; any other name does nothing. */
  method Bench(benchmark: string, openFiles: usize, writeRatio: usize, duration: u64, params: ClientParams,
               allocate: (ThreadMapping, nat) -> seq<nat>)
    returns (trace: seq<Event>)
    ensures benchmark != "mix" ==> trace == []
    ensures benchmark == "mix" ==> trace == Round(allocate(Sequential, params.ccores))
  {
    if benchmark == "mix" {
      var mb := NewMicroBench("mix", writeRatio, openFiles, params);
      trace := Start(mb, openFiles, writeRatio, duration, params, allocate);
      assert [Sequential][..0] == [] && [params.ccores][..0] == [];
      assert RoundsFor(Sequential, [params.ccores], allocate) == Round(allocate(Sequential, params.ccores));
      assert Plan([Sequential], [params.ccores], allocate) == RoundsFor(Sequential, [params.ccores], allocate);
    } else {
      trace := [];
    }
  }

  // ---------------------------------------------------------------------------
  // Properties of the plan

  lemma {:induction false} InitSpawnShape(all: seq<nat>, cs: seq<nat>)
    ensures |InitSpawn(all, cs)| == 2 * |cs|
    ensures forall k :: 0 <= k < |cs| ==>
      InitSpawn(all, cs)[2 * k] == Init(all) && InitSpawn(all, cs)[2 * k + 1] == Spawn(cs[k], |all|)
  {
    if cs != [] {
      InitSpawnShape(all, cs[..|cs| - 1]);
    }
  }

  lemma {:induction false} JoinsShape(cs: seq<nat>)
    ensures |Joins(cs)| == |cs|
    ensures forall k :: 0 <= k < |cs| ==> Joins(cs)[k] == JoinThread(cs[k])
  {
    if cs != [] {
      JoinsShape(cs[..|cs| - 1]);
    }
  }

  /** A round sets the barrier to the number of allocated cores first; then,
      per core in allocation order, `init` with the whole list and the spawn
      of that core's worker; then one join per core, in the same order. */
  lemma RoundShape(cores: seq<nat>)
    ensures |Round(cores)| == 1 + 3 * |cores|
    ensures Round(cores)[0] == SetBarrier(|cores|)
    ensures forall k :: 0 <= k < |cores| ==>
      && Round(cores)[1 + 2 * k] == Init(cores)
      && Round(cores)[2 + 2 * k] == Spawn(cores[k], |cores|)
      && Round(cores)[1 + 2 * |cores| + k] == JoinThread(cores[k])
  {
    InitSpawnShape(cores, cores);
    JoinsShape(cores);
  }

  /** The number of `init` calls in a trace. */
  function InitCount(t: seq<Event>): nat
  {
    if t == [] then 0 else InitCount(t[..|t| - 1]) + (if t[|t| - 1].Init? then 1 else 0)
  }

  lemma {:induction false} InitCountAppend(a: seq<Event>, b: seq<Event>)
    ensures InitCount(a + b) == InitCount(a) + InitCount(b)
    decreases |b|
  {
    if b == [] {
      assert a + b == a;
    } else {
      InitCountAppend(a, b[..|b| - 1]);
      assert (a + b)[..|a + b| - 1] == a + b[..|b| - 1];
    }
  }

  lemma {:induction false} InitCountInitSpawn(all: seq<nat>, cs: seq<nat>)
    ensures InitCount(InitSpawn(all, cs)) == |cs|
  {
    if cs != [] {
      var pre := InitSpawn(all, cs[..|cs| - 1]);
      InitCountInitSpawn(all, cs[..|cs| - 1]);
      var step := [Init(all), Spawn(cs[|cs| - 1], |all|)];
      InitCountAppend(pre, step);
      assert step[..|step| - 1] == [Init(all)] && [Init(all)][..0] == [];
      assert InitCount([Init(all)]) == 1;
    }
  }

  lemma {:induction false} InitCountJoins(cs: seq<nat>)
    ensures InitCount(Joins(cs)) == 0
  {
    if cs != [] {
      InitCountJoins(cs[..|cs| - 1]);
      InitCountAppend(Joins(cs[..|cs| - 1]), [JoinThread(cs[|cs| - 1])]);
    }
  }

  /** A round calls `init` exactly once per allocated core. */
  lemma InitOncePerCore(cores: seq<nat>)
    ensures InitCount(Round(cores)) == |cores|
  {
    InitCountInitSpawn(cores, cores);
    InitCountJoins(cores);
    InitCountAppend([SetBarrier(|cores|)], InitSpawn(cores, cores));
    InitCountAppend([SetBarrier(|cores|)] + InitSpawn(cores, cores), Joins(cores));
  }

  /** The barrier counts a trace sets, in order. */
  function Barriers(t: seq<Event>): seq<nat>
  {
    if t == [] then []
    else Barriers(t[..|t| - 1]) + (if t[|t| - 1].SetBarrier? then [t[|t| - 1].count] else [])
  }

  lemma {:induction false} BarriersAppend(a: seq<Event>, b: seq<Event>)
    ensures Barriers(a + b) == Barriers(a) + Barriers(b)
    decreases |b|
  {
    if b == [] {
      assert a + b == a;
    } else {
      BarriersAppend(a, b[..|b| - 1]);
      assert (a + b)[..|a + b| - 1] == a + b[..|b| - 1];
    }
  }

  lemma {:induction false} BarriersInitSpawn(all: seq<nat>, cs: seq<nat>)
    ensures Barriers(InitSpawn(all, cs)) == []
  {
    if cs != [] {
      BarriersInitSpawn(all, cs[..|cs| - 1]);
      var step := [Init(all), Spawn(cs[|cs| - 1], |all|)];
      BarriersAppend(InitSpawn(all, cs[..|cs| - 1]), step);
      assert step[..|step| - 1] == [Init(all)] && [Init(all)][..0] == [];
      assert Barriers([Init(all)]) == [];
    }
  }

  lemma {:induction false} BarriersJoins(cs: seq<nat>)
    ensures Barriers(Joins(cs)) == []
  {
    if cs != [] {
      BarriersJoins(cs[..|cs| - 1]);
      BarriersAppend(Joins(cs[..|cs| - 1]), [JoinThread(cs[|cs| - 1])]);
    }
  }

  /** A round sets the barrier once, to its core count. */
  lemma BarriersRound(cores: seq<nat>)
    ensures Barriers(Round(cores)) == [|cores|]
  {
    BarriersInitSpawn(cores, cores);
    BarriersJoins(cores);
    BarriersAppend([SetBarrier(|cores|)], InitSpawn(cores, cores));
    BarriersAppend([SetBarrier(|cores|)] + InitSpawn(cores, cores), Joins(cores));
  }

  /** The (mapping, thread count) pairs in the order of the nested loops. */
  function Pairs(ms: seq<ThreadMapping>, ts: seq<usize>): seq<(ThreadMapping, usize)>
  {
    if ms == [] then [] else Pairs(ms[..|ms| - 1], ts) + seq(|ts|, j requires 0 <= j < |ts| => (ms[|ms| - 1], ts[j]))
  }

  /** Entry `j` of row `i` of an `n`-row table with rows of `w` lies before
      the end of the table. */
  lemma IndexBelow(i: nat, j: nat, n: nat, w: nat)
    requires i < n && j < w
    ensures i * w + j < n * w
  {
    MulMono(i + 1, n, w);
    assert (i + 1) * w == i * w + w;
  }

  /** Pair number `i * |ts| + j` is mapping `i` with thread count `j`. */
  lemma {:induction false} PairsIndex(ms: seq<ThreadMapping>, ts: seq<usize>)
    ensures |Pairs(ms, ts)| == |ms| * |ts|
    ensures forall i, j :: 0 <= i < |ms| && 0 <= j < |ts| ==> Pairs(ms, ts)[i * |ts| + j] == (ms[i], ts[j])
  {
    if ms != [] {
      var n := |ms| - 1;
      PairsIndex(ms[..n], ts);
      var pre := Pairs(ms[..n], ts);
      var last := seq(|ts|, j requires 0 <= j < |ts| => (ms[n], ts[j]));
      assert Pairs(ms, ts) == pre + last;
      assert |ms| * |ts| == n * |ts| + |ts|;
      forall i, j | 0 <= i < |ms| && 0 <= j < |ts|
        ensures Pairs(ms, ts)[i * |ts| + j] == (ms[i], ts[j])
      {
        if i < n {
          IndexBelow(i, j, n, |ts|);
          assert ms[..n][i] == ms[i];
          assert Pairs(ms, ts)[i * |ts| + j] == pre[i * |ts| + j];
        } else {
          assert i * |ts| + j == |pre| + j;
          assert Pairs(ms, ts)[|pre| + j] == last[j];
        }
      }
    }
  }

  /** The core counts of the allocations for a list of pairs. */
  function AllocationSizes(ps: seq<(ThreadMapping, usize)>, allocate: (ThreadMapping, nat) -> seq<nat>): (r: seq<nat>)
    ensures |r| == |ps|
  {
    seq(|ps|, k requires 0 <= k < |ps| => |allocate(ps[k].0, ps[k].1)|)
  }

  lemma {:induction false} BarriersRoundsFor(tm: ThreadMapping, ts: seq<usize>, allocate: (ThreadMapping, nat) -> seq<nat>)
    ensures Barriers(RoundsFor(tm, ts, allocate))
         == AllocationSizes(seq(|ts|, j requires 0 <= j < |ts| => (tm, ts[j])), allocate)
  {
    if ts != [] {
      var n := |ts| - 1;
      BarriersRoundsFor(tm, ts[..n], allocate);
      BarriersAppend(RoundsFor(tm, ts[..n], allocate), Round(allocate(tm, ts[n])));
      BarriersRound(allocate(tm, ts[n]));
    }
  }

  /** One round per (mapping, thread count) pair, in nested-loop order: the
      barrier counts of the whole plan are the allocation sizes of the pairs. */
  lemma {:induction false} PlanRounds(ms: seq<ThreadMapping>, ts: seq<usize>, allocate: (ThreadMapping, nat) -> seq<nat>)
    ensures Barriers(Plan(ms, ts, allocate)) == AllocationSizes(Pairs(ms, ts), allocate)
  {
    if ms != [] {
      var n := |ms| - 1;
      PlanRounds(ms[..n], ts, allocate);
      BarriersAppend(Plan(ms[..n], ts, allocate), RoundsFor(ms[n], ts, allocate));
      BarriersRoundsFor(ms[n], ts, allocate);
    }
  }
}
