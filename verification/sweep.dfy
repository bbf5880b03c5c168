/**
 * The sweep in `main`: every point of `itertools.product(cache_sizes, block_sizes, associativities)`
 * is run through the simulator; points whose output is empty or does not parse are skipped; the
 * records that remain are written to the results file in one call.
 */
module Sweep {
  import opened Wrappers
  import opened Invoker
  import opened ReportParser
  import opened ResultStore
  import opened PyText

  // ---------------------------------------------------------------------------
  // The points, in `itertools.product` order: cache size outermost, associativity innermost.
  // ---------------------------------------------------------------------------

  function AssocPoints(cacheSize: int, blockSize: int, assocs: seq<int>): (ps: seq<Config>)
    ensures |ps| == |assocs|
    ensures forall k :: 0 <= k < |assocs| ==> ps[k] == Config(cacheSize, blockSize, assocs[k])
  {
    if assocs == [] then []
    else AssocPoints(cacheSize, blockSize, assocs[..|assocs| - 1]) + [Config(cacheSize, blockSize, assocs[|assocs| - 1])]
  }

  function BlockPoints(cacheSize: int, bs: seq<int>, assocs: seq<int>): (ps: seq<Config>)
    ensures |ps| == |bs| * |assocs|
  {
    if bs == [] then []
    else BlockPoints(cacheSize, bs[..|bs| - 1], assocs) + AssocPoints(cacheSize, bs[|bs| - 1], assocs)
  }

  function Product(cs: seq<int>, bs: seq<int>, assocs: seq<int>): (ps: seq<Config>)
    ensures |ps| == |cs| * (|bs| * |assocs|)
  {
    if cs == [] then []
    else Product(cs[..|cs| - 1], bs, assocs) + BlockPoints(cs[|cs| - 1], bs, assocs)
  }

  lemma {:induction false} BlockPointsLength(cacheSize: int, bs: seq<int>, assocs: seq<int>)
    ensures |BlockPoints(cacheSize, bs, assocs)| == |bs| * |assocs|
  {
    if bs != [] {
      BlockPointsLength(cacheSize, bs[..|bs| - 1], assocs);
      assert (|bs| - 1) * |assocs| + |assocs| == |bs| * |assocs|;
    }
  }

  /** Row `j`, column `k` of the block/associativity grid for one cache size. */
  lemma {:induction false} BlockPointsAt(cacheSize: int, bs: seq<int>, assocs: seq<int>, j: nat, k: nat)
    requires j < |bs| && k < |assocs|
    ensures j * |assocs| + k < |BlockPoints(cacheSize, bs, assocs)|
    ensures BlockPoints(cacheSize, bs, assocs)[j * |assocs| + k] == Config(cacheSize, bs[j], assocs[k])
  {
    var init := bs[..|bs| - 1];
    var m := |assocs|;
    BlockPointsLength(cacheSize, bs, assocs);
    BlockPointsLength(cacheSize, init, assocs);
    MulStep(j, |bs|, m, k);
    if j < |init| {
      BlockPointsAt(cacheSize, init, assocs, j, k);
      assert init[j] == bs[j];
    } else {
      assert j * m == |init| * m;
    }
  }

  /** `j < n` and `k < m` place `j * m + k` inside the first `n * m` slots. */
  lemma MulStep(j: nat, n: nat, m: nat, k: nat)
    requires j < n && k < m
    ensures 0 <= j * m
    ensures j * m + k < n * m
  {
    var d := n - j;
    assert d * m >= m by {
      assert d * m == (d - 1) * m + m;
    }
    assert n * m == (j + d) * m == j * m + d * m;
  }

  /** Position `(i * n + j) * m + k` is slot `j * m + k` of block `i`, blocks being `n * m` long. */
  lemma IndexSplit(i: nat, j: nat, k: nat, n: nat, m: nat)
    ensures (i * n + j) * m + k == i * (n * m) + (j * m + k)
  {
    assert (i * n + j) * m == i * n * m + j * m;
  }

  lemma {:induction false} ProductLength(cs: seq<int>, bs: seq<int>, assocs: seq<int>)
    ensures |Product(cs, bs, assocs)| == |cs| * (|bs| * |assocs|)
  {
    if cs != [] {
      ProductLength(cs[..|cs| - 1], bs, assocs);
      BlockPointsLength(cs[|cs| - 1], bs, assocs);
      var w := |bs| * |assocs|;
      assert (|cs| - 1) * w + w == |cs| * w;
    }
  }

  /** Slot `r` of block `i` of the sweep is slot `r` of the grid for cache size `cs[i]`. */
  lemma {:induction false} ProductBlock(cs: seq<int>, bs: seq<int>, assocs: seq<int>, w: nat, i: nat, r: nat)
    requires w == |bs| * |assocs|
    requires i < |cs| && r < w
    ensures i * w + r < |Product(cs, bs, assocs)|
    ensures Product(cs, bs, assocs)[i * w + r] == BlockPoints(cs[i], bs, assocs)[r]
  {
    var init := cs[..|cs| - 1];
    ProductLength(cs, bs, assocs);
    ProductLength(init, bs, assocs);
    BlockPointsLength(cs[i], bs, assocs);
    MulStep(i, |cs|, w, r);
    if i < |init| {
      ProductBlock(init, bs, assocs, w, i, r);
      assert init[i] == cs[i];
    } else {
      assert i == |init|;
    }
  }

  /** Where the loops put the point of cache index `i`, block index `j` and associativity index `k`. */
  function Position(i: nat, j: nat, k: nat, n: nat, m: nat): nat {
    (i * n + j) * m + k
  }

  /** The point at position `(i * |bs| + j) * |assocs| + k` is `(cs[i], bs[j], assocs[k])`. */
  lemma ProductAt(cs: seq<int>, bs: seq<int>, assocs: seq<int>, i: nat, j: nat, k: nat)
    requires i < |cs| && j < |bs| && k < |assocs|
    ensures Position(i, j, k, |bs|, |assocs|) < |Product(cs, bs, assocs)|
    ensures Product(cs, bs, assocs)[Position(i, j, k, |bs|, |assocs|)] == Config(cs[i], bs[j], assocs[k])
  {
    ProductAtSplit(cs, bs, assocs, |bs|, |assocs|, i, j, k);
  }

  lemma ProductAtSplit(cs: seq<int>, bs: seq<int>, assocs: seq<int>, n: nat, m: nat, i: nat, j: nat, k: nat)
    requires n == |bs| && m == |assocs|
    requires i < |cs| && j < n && k < m
    ensures Position(i, j, k, n, m) < |Product(cs, bs, assocs)|
    ensures Product(cs, bs, assocs)[Position(i, j, k, n, m)] == Config(cs[i], bs[j], assocs[k])
  {
    var w := n * m;
    var r := j * m + k;
    IndexSplit(i, j, k, n, m);
    assert Position(i, j, k, n, m) == i * w + r;
    MulStep(j, n, m, k);
    BlockPointsAt(cs[i], bs, assocs, j, k);
    ProductBlock(cs, bs, assocs, w, i, r);
  }

  /** A point is in the sweep exactly when each of its coordinates is on its axis. */
  lemma {:induction false} ProductMembers(cs: seq<int>, bs: seq<int>, assocs: seq<int>, p: Config)
    ensures p in Product(cs, bs, assocs) <==> p.cacheSize in cs && p.blockSize in bs && p.associativity in assocs
  {
    if cs != [] {
      var init := cs[..|cs| - 1];
      ProductMembers(init, bs, assocs, p);
      BlockMembers(cs[|cs| - 1], bs, assocs, p);
      assert cs == init + [cs[|cs| - 1]];
    }
  }

  lemma {:induction false} BlockMembers(cacheSize: int, bs: seq<int>, assocs: seq<int>, p: Config)
    ensures p in BlockPoints(cacheSize, bs, assocs) <==> p.cacheSize == cacheSize && p.blockSize in bs && p.associativity in assocs
  {
    if bs != [] {
      var init := bs[..|bs| - 1];
      BlockMembers(cacheSize, init, assocs, p);
      assert bs == init + [bs[|bs| - 1]];
      if p.cacheSize == cacheSize && p.blockSize == bs[|bs| - 1] && p.associativity in assocs {
        var k :| 0 <= k < |assocs| && assocs[k] == p.associativity;
        assert AssocPoints(cacheSize, bs[|bs| - 1], assocs)[k] == p;
      }
    }
  }

  // ---------------------------------------------------------------------------
  // One point, and the filter-map over all of them.
  // ---------------------------------------------------------------------------

  /** The simulator run for one point, and the parser applied to its output (`ParseReport` in `main`). */
  datatype Pipeline = Pipeline(sim: Config -> Option<string>, parse: string -> Option<Row>)

  /**
   * One iteration of the loop: the record for point `c`, or `None` when the simulator failed, printed
   * nothing, or printed something the parser rejects or turns into an empty row (both tests are
   * Python truthiness tests).
   */
  function Attempt(run: Pipeline, c: Config): (r: Option<Row>)
    ensures r.Some? <==> && run.sim(c).Some? && run.sim(c).value != []
                         && run.parse(run.sim(c).value).Some? && run.parse(run.sim(c).value).value != []
    ensures r.Some? ==> r == run.parse(run.sim(c).value)
  {
    var output := run.sim(c);
    if output.None? || output.value == [] then None
    else
      match run.parse(output.value)
      case Some(row) => if row == [] then None else Some(row)
      case None => None
  }

  /** Python's truthiness test on the output is subsumed by the parser: empty text never parses. */
  lemma EmptyOutputNeverParses()
    ensures ParseReport("") == None
  {
    assert Strip("") == "";
    assert ReportLines("") == [""];
  }

  /** The records of the points that succeed, in point order. */
  function Collect(run: Pipeline, points: seq<Config>): (results: seq<Row>)
    ensures |results| <= |points|
  {
    if points == [] then []
    else
      var last := points[|points| - 1];
      Collect(run, points[..|points| - 1]) + (match Attempt(run, last) case Some(r) => [r] case None => [])
  }

  lemma {:induction false} CollectAppend(run: Pipeline, a: seq<Config>, b: seq<Config>)
    ensures Collect(run, a + b) == Collect(run, a) + Collect(run, b)
    decreases |b|
  {
    if b == [] {
      assert a + b == a;
    } else {
      var init := b[..|b| - 1];
      CollectAppend(run, a, init);
      assert (a + b)[..|a + b| - 1] == a + init;
      assert (a + b)[|a + b| - 1] == b[|b| - 1];
    }
  }

  /** A point that fails contributes nothing and takes nothing away from its neighbours. */
  lemma FailingPointDropped(run: Pipeline, before: seq<Config>, p: Config, after: seq<Config>)
    requires Attempt(run, p).None?
    ensures Collect(run, before + [p] + after) == Collect(run, before) + Collect(run, after)
  {
    CollectAppend(run, before + [p], after);
    CollectAppend(run, before, [p]);
    CollectOne(run, p);
  }

  lemma CollectOne(run: Pipeline, p: Config)
    ensures Collect(run, [p]) == match Attempt(run, p) case Some(r) => [r] case None => []
  {
    assert [p][..0] == [];
  }

  /** A point that succeeds contributes exactly its own record, at its own place. */
  lemma SucceedingPointKept(run: Pipeline, before: seq<Config>, p: Config, after: seq<Config>)
    requires Attempt(run, p).Some?
    ensures Collect(run, before + [p] + after) == Collect(run, before) + [Attempt(run, p).value] + Collect(run, after)
  {
    CollectAppend(run, before + [p], after);
    CollectAppend(run, before, [p]);
    CollectOne(run, p);
  }

  /** The positions of the points that succeed, in increasing order. */
  function Successes(run: Pipeline, points: seq<Config>): seq<nat> {
    if points == [] then []
    else
      var n := |points| - 1;
      Successes(run, points[..n]) + (if Attempt(run, points[n]).Some? then [n] else [])
  }

  /**
   * `Collect` is the order-preserving subsequence of successful points: its `t`-th record comes from
   * the `t`-th successful position, positions increase, and every successful position is taken.
   */
  lemma {:induction false} CollectIsSubsequence(run: Pipeline, points: seq<Config>)
    ensures var idx := Successes(run, points); var rs := Collect(run, points);
      && |idx| == |rs|
      && (forall t :: 0 <= t < |idx| ==> idx[t] < |points| && Attempt(run, points[idx[t]]) == Some(rs[t]))
      && (forall s, t :: 0 <= s < t < |idx| ==> idx[s] < idx[t])
      && (forall i :: 0 <= i < |points| && Attempt(run, points[i]).Some? ==> i in idx)
  {
    if points != [] {
      var n := |points| - 1;
      var init := points[..n];
      CollectIsSubsequence(run, init);
      var idx0, rs0 := Successes(run, init), Collect(run, init);
      var idx, rs := Successes(run, points), Collect(run, points);
      assert forall i :: 0 <= i < n ==> init[i] == points[i];
      forall t | 0 <= t < |idx|
        ensures idx[t] < |points| && Attempt(run, points[idx[t]]) == Some(rs[t])
      {
        if t < |idx0| {
          assert idx[t] == idx0[t] && rs[t] == rs0[t];
        }
      }
      forall i | 0 <= i < |points| && Attempt(run, points[i]).Some?
        ensures i in idx
      {
        if i < n {
          assert i in idx0;
        } else {
          assert idx[|idx| - 1] == n;
        }
      }
    }
  }

  // ---------------------------------------------------------------------------
  // The loop as written, and the whole of `main`.
  // ---------------------------------------------------------------------------

  /** The three nested loops of `main`, collecting into `results` point by point. */
  method RunSweep(run: Pipeline, cs: seq<int>, bs: seq<int>, assocs: seq<int>) returns (results: seq<Row>)
    ensures results == Collect(run, Product(cs, bs, assocs))
  {
    results := [];
    for i := 0 to |cs|
      invariant results == Collect(run, Product(cs[..i], bs, assocs))
    {
      results := SweepBlocks(run, results, cs[i], bs, assocs);
      StepCache(run, cs, bs, assocs, i);
    }
    assert cs[..|cs|] == cs;
  }

  /** The middle loop, for one cache size: appends what its grid collects. */
  method SweepBlocks(run: Pipeline, before: seq<Row>, cacheSize: int, bs: seq<int>, assocs: seq<int>) returns (results: seq<Row>)
    ensures results == before + Collect(run, BlockPoints(cacheSize, bs, assocs))
  {
    results := before;
    for j := 0 to |bs|
      invariant results == before + Collect(run, BlockPoints(cacheSize, bs[..j], assocs))
    {
      results := SweepAssocs(run, results, cacheSize, bs[j], assocs);
      StepBlock(run, cacheSize, bs, assocs, j);
    }
    assert bs[..|bs|] == bs;
  }

  /** The innermost loop: one attempt per associativity, keeping the successes. */
  method SweepAssocs(run: Pipeline, before: seq<Row>, cacheSize: int, blockSize: int, assocs: seq<int>) returns (results: seq<Row>)
    ensures results == before + Collect(run, AssocPoints(cacheSize, blockSize, assocs))
  {
    results := before;
    for k := 0 to |assocs|
      invariant results == before + Collect(run, AssocPoints(cacheSize, blockSize, assocs[..k]))
    {
      var attempt := Attempt(run, Config(cacheSize, blockSize, assocs[k]));
      StepAssoc(run, cacheSize, blockSize, assocs, k);
      if attempt.Some? {
        results := results + [attempt.value];
      }
    }
    assert assocs[..|assocs|] == assocs;
  }

  lemma StepAssoc(run: Pipeline, c: int, b: int, assocs: seq<int>, k: nat)
    requires k < |assocs|
    ensures Collect(run, AssocPoints(c, b, assocs[..k + 1]))
         == Collect(run, AssocPoints(c, b, assocs[..k])) + (match Attempt(run, Config(c, b, assocs[k])) case Some(r) => [r] case None => [])
  {
    assert assocs[..k + 1][..k] == assocs[..k];
  }

  lemma StepBlock(run: Pipeline, c: int, bs: seq<int>, assocs: seq<int>, j: nat)
    requires j < |bs|
    ensures Collect(run, BlockPoints(c, bs[..j + 1], assocs))
         == Collect(run, BlockPoints(c, bs[..j], assocs)) + Collect(run, AssocPoints(c, bs[j], assocs))
  {
    assert bs[..j + 1][..j] == bs[..j];
    CollectAppend(run, BlockPoints(c, bs[..j], assocs), AssocPoints(c, bs[j], assocs));
  }

  lemma StepCache(run: Pipeline, cs: seq<int>, bs: seq<int>, assocs: seq<int>, i: nat)
    requires i < |cs|
    ensures Collect(run, Product(cs[..i + 1], bs, assocs))
         == Collect(run, Product(cs[..i], bs, assocs)) + Collect(run, BlockPoints(cs[i], bs, assocs))
  {
    assert cs[..i + 1][..i] == cs[..i];
    CollectAppend(run, Product(cs[..i], bs, assocs), BlockPoints(cs[i], bs, assocs));
  }

  /** The sweep's axes as configured. */
  const CacheSizes: seq<int> := [256]
  const BlockSizes: seq<int> := [64]
  const Associativities: seq<int> := [1]

  /** The pipeline of `main`: the given simulator, and the report parser. */
  function MainPipeline(sim: Config -> Option<string>): Pipeline {
    Pipeline(sim, ParseReport)
  }

  /**
   * With the report parser both truthiness tests are moot: empty output never parses and a record is
   * never empty, so a point yields exactly what the parser makes of the simulator's output.
   */
  lemma MainAttempt(sim: Config -> Option<string>, c: Config)
    ensures Attempt(MainPipeline(sim), c) == if sim(c).None? then None else ParseReport(sim(c).value)
  {
    EmptyOutputNeverParses();
  }

  /**
   * One point of `main`'s loop, down to the command: the point yields no record when the simulator
   * exits with a non-zero status or prints nothing, and otherwise the parse of its standard error
   * followed by its standard output.
   */
  lemma SimulatedPoint(exec: seq<string> -> Completed, pinRoot: string, pinTool: string, c: Config)
    ensures var done := exec(CommandVector(pinRoot, pinTool, c));
      && (done.returncode != 0 || (done.stderr == [] && done.stdout == []) ==>
            Attempt(MainPipeline(Simulator(exec, pinRoot, pinTool)), c) == None)
      && (done.returncode == 0 ==>
            Attempt(MainPipeline(Simulator(exec, pinRoot, pinTool)), c) == ParseReport(done.stderr + done.stdout))
  {
    var done := exec(CommandVector(pinRoot, pinTool, c));
    var sim := Simulator(exec, pinRoot, pinTool);
    assert sim(c) == RunCacheSimulator(exec, pinRoot, pinTool, c, None, None);
    MainAttempt(sim, c);
    if done.returncode == 0 {
      assert done.stderr + done.stdout == sim(c).value;
      if done.stderr == [] && done.stdout == [] {
        assert sim(c).value == [];
      }
    }
  }

  /** Every row the sweep collects with the report parser is a well-formed record. */
  lemma CollectedAreRecords(sim: Config -> Option<string>, points: seq<Config>)
    ensures forall t :: 0 <= t < |Collect(MainPipeline(sim), points)| ==> IsRecord(Collect(MainPipeline(sim), points)[t])
  {
    var run := MainPipeline(sim);
    CollectIsSubsequence(run, points);
    var idx, rs := Successes(run, points), Collect(run, points);
    forall t | 0 <= t < |rs|
      ensures IsRecord(rs[t])
    {
      var c := points[idx[t]];
      assert Attempt(run, c) == Some(rs[t]);
      assert ParseReport(sim(c).value) == Some(rs[t]);
    }
  }

  /**
   * `main`: the results file after one sweep over the configured axes; the file gains the header
   * if it had no rows, then the records of the successful points in sweep order, each a record.
   */
  method SweepAndStore(sim: Config -> Option<string>, file: ResultsFile) returns (rows: seq<Row>)
    ensures rows == AppendResults(file, Collect(MainPipeline(sim), Product(CacheSizes, BlockSizes, Associativities)))
    ensures forall t :: |rows| - |Collect(MainPipeline(sim), Product(CacheSizes, BlockSizes, Associativities))| <= t < |rows| ==> IsRecord(rows[t])
  {
    var results := RunSweep(MainPipeline(sim), CacheSizes, BlockSizes, Associativities);
    CollectedAreRecords(sim, Product(CacheSizes, BlockSizes, Associativities));
    rows := AppendResults(file, results);
    assert rows[|rows| - |results|..] == results;
    forall t | |rows| - |results| <= t < |rows|
      ensures IsRecord(rows[t])
    {
      assert rows[t] == results[t - (|rows| - |results|)];
    }
  }

  /** The configured sweep has the single point (256 KB, 64 B, direct-mapped). */
  lemma ConfiguredSweep()
    ensures Product(CacheSizes, BlockSizes, Associativities) == [Config(256, 64, 1)]
  {
    assert AssocPoints(256, 64, [1]) == [Config(256, 64, 1)];
    assert BlockPoints(256, [64], [1]) == AssocPoints(256, 64, [1]);
  }
}
