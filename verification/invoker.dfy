/**
 * `run_cache_simulator`: the argument vector handed to the Pin launcher for one cache
 * configuration, and what the call gives back. The process itself is a parameter: a function from
 * an argument vector to its exit status and captured streams.
 */
module Invoker {
  import opened Wrappers

  /** One point of the sweep: cache size in KB, block size in bytes, associativity. */
  datatype Config = Config(cacheSize: int, blockSize: int, associativity: int)

  /** What a finished process leaves behind. */
  datatype Completed = Completed(returncode: int, stdout: string, stderr: string)

  // ---------------------------------------------------------------------------
  // Python's str() of an integer, and its inverse.
  // ---------------------------------------------------------------------------

  function DigitChar(d: nat): char
    requires d < 10
  {
    "0123456789"[d]
  }

  function DigitValue(c: char): nat {
    if '0' <= c <= '9' then (c - '0') as nat else 0
  }

  predicate AllDigits(s: string) {
    forall i :: 0 <= i < |s| ==> '0' <= s[i] <= '9'
  }

  /** Decimal digits of `n`, most significant first, without leading zeros. */
  function NatString(n: nat): (s: string)
    ensures s != [] && AllDigits(s)
    ensures |s| > 1 ==> s[0] != '0'
    ensures n < 10 <==> |s| == 1
  {
    if n < 10 then [DigitChar(n)] else NatString(n / 10) + [DigitChar(n % 10)]
  }

  /** The value of a digit string. */
  function NatValue(s: string): nat {
    if s == [] then 0 else 10 * NatValue(s[..|s| - 1]) + DigitValue(s[|s| - 1])
  }

  lemma {:induction false} NatStringValue(n: nat)
    ensures NatValue(NatString(n)) == n
  {
    var s := NatString(n);
    if n >= 10 {
      NatStringValue(n / 10);
      assert s[..|s| - 1] == NatString(n / 10);
    }
  }

  /** `str(n)`: an optional minus sign, then the digits of `|n|`. */
  function DecimalString(n: int): (s: string)
    ensures s != []
    ensures s[0] == '-' <==> n < 0
    ensures n >= 0 ==> AllDigits(s)
    ensures n < 0 ==> AllDigits(s[1..]) && |s| >= 2
  {
    if n < 0 then "-" + NatString(-n) else NatString(n)
  }

  /** `int(s)` restricted to what `str` produces; anything else is `None`. */
  function ParseDecimal(s: string): (r: Option<int>) {
    if s == [] then None
    else if s[0] == '-' then
      if |s| >= 2 && AllDigits(s[1..]) then Some(-(NatValue(s[1..]) as int)) else None
    else if AllDigits(s) then Some(NatValue(s) as int)
    else None
  }

  /** Reading back the text of an integer gives the integer. */
  lemma DecimalRoundTrip(n: int)
    ensures ParseDecimal(DecimalString(n)) == Some(n)
  {
    if n < 0 {
      NegativeRoundTrip(n);
    } else {
      NatRoundTrip(n);
    }
  }

  lemma NegativeRoundTrip(n: int)
    requires n < 0
    ensures ParseDecimal("-" + NatString(-n)) == Some(n)
  {
    NatStringValue(-n);
    ParseNegative(NatString(-n));
  }

  /** A minus sign before a digit string reads as the negated value of the digits. */
  lemma ParseNegative(digits: string)
    requires digits != [] && AllDigits(digits)
    ensures ParseDecimal("-" + digits) == Some(-(NatValue(digits) as int))
  {
    var s := "-" + digits;
    assert s[0] == '-' && s[1..] == digits;
  }

  lemma NatRoundTrip(n: nat)
    ensures ParseDecimal(NatString(n)) == Some(n)
  {
    NatStringValue(n);
    assert NatString(n)[0] != '-';
  }

  lemma DecimalRoundTrips(c: Config)
    ensures ParseDecimal(DecimalString(c.cacheSize)) == Some(c.cacheSize)
    ensures ParseDecimal(DecimalString(c.blockSize)) == Some(c.blockSize)
    ensures ParseDecimal(DecimalString(c.associativity)) == Some(c.associativity)
  {
    DecimalRoundTrip(c.cacheSize);
    DecimalRoundTrip(c.blockSize);
    DecimalRoundTrip(c.associativity);
  }

  /** Different integers print differently. */
  lemma DecimalInjective(m: int, n: int)
    requires DecimalString(m) == DecimalString(n)
    ensures m == n
  {
    DecimalRoundTrip(m);
    DecimalRoundTrip(n);
  }

  // ---------------------------------------------------------------------------
  // The command vector and the call.
  // ---------------------------------------------------------------------------

  /** The program the Pin tool instruments. */
  const TargetProgram := "./matrixMultSimple"

  /**
   * `[pin_root/pin, -t, pin_tool, -dl1_c, str(cache), -b, str(block), -dl1_a, str(assoc), --, ./matrixMultSimple]`
   */
  function CommandVector(pinRoot: string, pinTool: string, c: Config): (argv: seq<string>)
    ensures |argv| == 11
    ensures argv[0] == pinRoot + "/pin" && argv[1] == "-t" && argv[2] == pinTool
    ensures argv[3] == "-dl1_c" && argv[5] == "-b" && argv[7] == "-dl1_a"
    ensures argv[9] == "--" && argv[10] == TargetProgram
  {
    [pinRoot + "/pin", "-t", pinTool,
     "-dl1_c", DecimalString(c.cacheSize),
     "-b", DecimalString(c.blockSize),
     "-dl1_a", DecimalString(c.associativity),
     "--", TargetProgram]
  }

  /** Each option's value reads back as the configuration's number. */
  lemma CommandCarriesConfig(pinRoot: string, pinTool: string, c: Config)
    ensures var argv := CommandVector(pinRoot, pinTool, c);
      && ParseDecimal(argv[4]) == Some(c.cacheSize)
      && ParseDecimal(argv[6]) == Some(c.blockSize)
      && ParseDecimal(argv[8]) == Some(c.associativity)
  {
    DecimalRoundTrips(c);
  }

  /** The configuration can be read back from its command vector, so distinct points run distinct commands. */
  lemma CommandDeterminesConfig(pinRoot: string, pinTool: string, c: Config, d: Config)
    requires CommandVector(pinRoot, pinTool, c) == CommandVector(pinRoot, pinTool, d)
    ensures c == d
  {
    CommandCarriesConfig(pinRoot, pinTool, c);
    CommandCarriesConfig(pinRoot, pinTool, d);
  }

  /**
   * `run_cache_simulator(cache_size, block_size, associativity, replacement_policy, prefetcher)`:
   * on a zero exit status, the captured standard error followed by standard output (the
   * statistics go to standard error); on a non-zero status, `None`.
   */
  function RunCacheSimulator(exec: seq<string> -> Completed, pinRoot: string, pinTool: string, c: Config,
                             replacementPolicy: Option<string>, prefetcher: Option<string>): (r: Option<string>)
    ensures var done := exec(CommandVector(pinRoot, pinTool, c));
      && (r.Some? <==> done.returncode == 0)
      && (r.Some? ==> |r.value| == |done.stderr| + |done.stdout|
                      && r.value[..|done.stderr|] == done.stderr && r.value[|done.stderr|..] == done.stdout)
  {
    var done := exec(CommandVector(pinRoot, pinTool, c));
    if done.returncode == 0 then
      var output := done.stderr + done.stdout;
      assert output[..|done.stderr|] == done.stderr && output[|done.stderr|..] == done.stdout;
      Some(output)
    else None
  }

  /** The replacement policy and prefetcher arguments never reach the command. */
  lemma PolicyAndPrefetcherIgnored(exec: seq<string> -> Completed, pinRoot: string, pinTool: string, c: Config,
                                   p1: Option<string>, f1: Option<string>, p2: Option<string>, f2: Option<string>)
    ensures RunCacheSimulator(exec, pinRoot, pinTool, c, p1, f1) == RunCacheSimulator(exec, pinRoot, pinTool, c, p2, f2)
  {
  }

  /** The simulator as the sweep sees it: `run_cache_simulator(c, b, a, None, None)` for each point. */
  function Simulator(exec: seq<string> -> Completed, pinRoot: string, pinTool: string): Config -> Option<string> {
    c => RunCacheSimulator(exec, pinRoot, pinTool, c, None, None)
  }
}
