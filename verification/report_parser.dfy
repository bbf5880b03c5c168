/**
 * `parse_cache_simulator_output`: the positional grammar that turns one simulator report into a
 * 13-field record of strings, or `None`.
 *
 * The report is stripped and split on newlines; line 0 is the configuration line, line 3 the
 * hit/miss line and line 5 the miss breakdown. Every other line is ignored.
 */
module ReportParser {
  import opened Wrappers
  import opened PyText
  import opened LabelSearch

  /** The fewest lines a report may have. */
  const MinLines := 6

  const ConfigIndex := 0
  const HitMissIndex := 3
  const BreakdownIndex := 5

  /** The labels, case-sensitive, as the report prints them. */
  const SizeKey := "Size:"
  const LineSizeKey := "Line size:"
  const AssociativityKey := "Associativity:"
  const NumSetsKey := "Num sets:"
  const InstructionsKey := "Instructions:"
  const ReferencesKey := "References:"
  const MissRateKey := "Miss rate:"
  const MpkiKey := "MPKI:"

  /** Number of fields in a record: 4 configuration, 4 hit/miss, 5 breakdown. */
  const RecordLength := 13
  const BreakdownLength := 5

  /** `output.strip().split('\n')` */
  function ReportLines(output: string): (lines: seq<string>)
    ensures |lines| >= 1
    ensures forall i :: 0 <= i < |lines| ==> '\n' !in lines[i]
  {
    Split(Strip(output), '\n')
  }

  /** What a report must satisfy for the parser to succeed. */
  ghost predicate Parsable(lines: seq<string>) {
    && |lines| >= MinLines
    && Found(lines[ConfigIndex], SizeKey, Digits)
    && Found(lines[ConfigIndex], LineSizeKey, Digits)
    && Found(lines[ConfigIndex], AssociativityKey, Digits)
    && Found(lines[ConfigIndex], NumSetsKey, Digits)
    && Found(lines[HitMissIndex], InstructionsKey, DigitsOrDots)
    && Found(lines[HitMissIndex], ReferencesKey, DigitsOrDots)
    && Found(lines[HitMissIndex], MissRateKey, DigitsOrDots)
    && Found(lines[HitMissIndex], MpkiKey, DigitsOrDots)
    && |Words(Strip(lines[BreakdownIndex]))| == BreakdownLength
  }

  /** A captured value: a non-empty run of the class. */
  predicate Value(v: string, cls: CharClass) {
    v != [] && AllInClass(v, cls)
  }

  /**
   * The shape of every record the parser returns: cache size, block size, associativity and set
   * count are digit strings; instructions, references, miss rate and MPKI are runs of digits and
   * dots; total, cold, capacity, mapping and replacement are whitespace-free tokens, not checked
   * to be numbers.
   */
  predicate IsRecord(rec: seq<string>) {
    && |rec| == RecordLength
    && (forall k :: 0 <= k < 4 ==> Value(rec[k], Digits))
    && (forall k :: 4 <= k < 8 ==> Value(rec[k], DigitsOrDots))
    && (forall k :: 8 <= k < RecordLength ==> IsWord(rec[k]))
  }

  /** The values of four labels on one line, in order, or `None` as soon as one label does not match. */
  function FindFour(line: string, k0: string, k1: string, k2: string, k3: string, cls: CharClass): (r: Option<seq<string>>)
    ensures r.Some? <==> Found(line, k0, cls) && Found(line, k1, cls) && Found(line, k2, cls) && Found(line, k3, cls)
    ensures r.Some? ==> && |r.value| == 4
                        && Search(line, k0, cls) == Some(r.value[0]) && Search(line, k1, cls) == Some(r.value[1])
                        && Search(line, k2, cls) == Some(r.value[2]) && Search(line, k3, cls) == Some(r.value[3])
    ensures r.Some? ==> && Value(r.value[0], cls) && Value(r.value[1], cls) && Value(r.value[2], cls) && Value(r.value[3], cls)
  {
    var v0 :- Search(line, k0, cls);
    var v1 :- Search(line, k1, cls);
    var v2 :- Search(line, k2, cls);
    var v3 :- Search(line, k3, cls);
    Some([v0, v1, v2, v3])
  }

  /** The cache size, block size, associativity and set count of the configuration line. */
  function ConfigValues(line: string): (r: Option<seq<string>>)
    ensures r.Some? ==> |r.value| == 4 && Value(r.value[0], Digits) && Value(r.value[1], Digits) && Value(r.value[2], Digits) && Value(r.value[3], Digits)
  {
    FindFour(line, SizeKey, LineSizeKey, AssociativityKey, NumSetsKey, Digits)
  }

  /** The instruction count, reference count, miss rate and MPKI of the hit/miss line. */
  function HitMissValues(line: string): (r: Option<seq<string>>)
    ensures r.Some? ==> && |r.value| == 4 && Value(r.value[0], DigitsOrDots) && Value(r.value[1], DigitsOrDots)
                        && Value(r.value[2], DigitsOrDots) && Value(r.value[3], DigitsOrDots)
  {
    FindFour(line, InstructionsKey, ReferencesKey, MissRateKey, MpkiKey, DigitsOrDots)
  }

  /** The five whitespace-separated counts of the breakdown line, or `None` when there are not exactly five. */
  function Breakdown(line: string): (r: Option<seq<string>>)
    ensures r.Some? <==> |Words(Strip(line))| == BreakdownLength
    ensures r.Some? ==> |r.value| == BreakdownLength && forall k :: 0 <= k < BreakdownLength ==> IsWord(r.value[k])
  {
    var counts := Words(Strip(line));
    if |counts| != BreakdownLength then None else Some(counts)
  }

  /** Stripping the line first changes nothing: the breakdown is the line's `split()`, when that has five words. */
  lemma BreakdownIsSplit(line: string)
    ensures Breakdown(line) == if |Words(line)| == BreakdownLength then Some(Words(line)) else None
  {
    WordsOfStrip(line);
  }

  /** Five counts in columns, padded and separated by any runs of whitespace, are read back as they are. */
  lemma BreakdownOfSpaced(lead: string, counts: seq<string>, gaps: seq<string>)
    requires AllSpace(lead) && |counts| == BreakdownLength && |gaps| == BreakdownLength && Separating(gaps)
    requires forall k :: 0 <= k < BreakdownLength ==> IsWord(counts[k])
    ensures Breakdown(lead + Spaced(counts, gaps)) == Some(counts)
  {
    WordsOfStrip(lead + Spaced(counts, gaps));
    WordsOfSpaced(lead, counts, gaps);
  }

  /** `parse_cache_simulator_output(output)` */
  function ParseReport(output: string): (r: Option<seq<string>>)
    ensures |ReportLines(output)| < MinLines ==> r == None
    ensures r.Some? <==> Parsable(ReportLines(output))
    ensures r.Some? ==> IsRecord(r.value)
  {
    var lines := ReportLines(output);
    if |lines| < MinLines then None
    else
      var config :- ConfigValues(lines[ConfigIndex]);
      var hitMiss :- HitMissValues(lines[HitMissIndex]);
      var counts :- Breakdown(lines[BreakdownIndex]);
      RecordFromParts(config, hitMiss, counts);
      Some(config + hitMiss + counts)
  }

  lemma RecordFromParts(config: seq<string>, hitMiss: seq<string>, counts: seq<string>)
    requires |config| == 4 && Value(config[0], Digits) && Value(config[1], Digits) && Value(config[2], Digits) && Value(config[3], Digits)
    requires && |hitMiss| == 4 && Value(hitMiss[0], DigitsOrDots) && Value(hitMiss[1], DigitsOrDots)
             && Value(hitMiss[2], DigitsOrDots) && Value(hitMiss[3], DigitsOrDots)
    requires |counts| == BreakdownLength && forall k :: 0 <= k < BreakdownLength ==> IsWord(counts[k])
    ensures IsRecord(config + hitMiss + counts)
  {
    var rec := config + hitMiss + counts;
    assert rec[..4] == config;
    assert forall k :: 4 <= k < 8 ==> rec[k] == hitMiss[k - 4];
    assert forall k :: 8 <= k < RecordLength ==> rec[k] == counts[k - 8];
  }

  /** Only lines 0, 3 and 5 (and whether there are six lines) decide the outcome. */
  lemma ParseSeesOnlyFixedLines(a: string, b: string)
    requires var la, lb := ReportLines(a), ReportLines(b);
      && |la| >= MinLines && |lb| >= MinLines
      && la[ConfigIndex] == lb[ConfigIndex] && la[HitMissIndex] == lb[HitMissIndex] && la[BreakdownIndex] == lb[BreakdownIndex]
    ensures ParseReport(a) == ParseReport(b)
  {
  }

  /** The match is case-sensitive: a configuration line without a capital `S` (only `Line size:`, say) is rejected. */
  lemma SizeLabelIsCaseSensitive(output: string)
    requires |ReportLines(output)| >= MinLines
    requires 'S' !in ReportLines(output)[ConfigIndex]
    ensures ParseReport(output) == None
  {
    AbsentHeadNotFound(ReportLines(output)[ConfigIndex], SizeKey, Digits);
  }

  // ---------------------------------------------------------------------------
  // The report layout the simulator prints, and the round trip through the parser.
  // ---------------------------------------------------------------------------

  /** One labelled value as printed: `key`, a blank, the value, then a unit or separator. */
  datatype Labelled = Labelled(key: string, value: string, tail: string)

  function FieldText(f: Labelled): string {
    f.key + " " + f.value + f.tail
  }

  function FieldsText(fs: seq<Labelled>): string {
    if fs == [] then [] else FieldText(fs[0]) + FieldsText(fs[1..])
  }

  lemma {:induction false} FieldsTextAppend(a: seq<Labelled>, b: seq<Labelled>)
    ensures FieldsText(a + b) == FieldsText(a) + FieldsText(b)
  {
    if a == [] {
      assert a + b == b;
    } else {
      assert (a + b)[0] == a[0];
      assert (a + b)[1..] == a[1..] + b;
      FieldsTextAppend(a[1..], b);
    }
  }

  /**
   * The conditions under which every label of a printed line is found with its own value: keys
   * start outside the value class, values are maximal runs of the class, no key can begin inside
   * the lead text or inside an earlier key, and no key's first character occurs in an earlier tail.
   */
  ghost predicate Separated(lead: string, fs: seq<Labelled>, cls: CharClass) {
    && (forall i :: 0 <= i < |fs| ==> FieldClear(lead, fs[i], cls))
    && (forall i, j :: 0 <= j < i < |fs| ==> Apart(fs[j], fs[i]))
  }

  /** One field on its own: its key starts outside the class and cannot begin in the lead, its value is a run of the class that its tail does not continue. */
  ghost predicate FieldClear(lead: string, f: Labelled, cls: CharClass) {
    && f.key != [] && !InClass(f.key[0], cls)
    && f.value != [] && AllInClass(f.value, cls)
    && (f.tail == [] || !InClass(f.tail[0], cls))
    && NoStart(lead, f.key)
  }

  /** A later field's key cannot begin inside an earlier field's key or tail. */
  ghost predicate Apart(earlier: Labelled, later: Labelled) {
    later.key != [] && NoStart(earlier.key + " ", later.key) && later.key[0] !in earlier.tail
  }

  /** `Separated` for a line of four fields, condition by condition. */
  lemma SeparatedFour(lead: string, fs: seq<Labelled>, cls: CharClass)
    requires |fs| == 4
    requires FieldClear(lead, fs[0], cls) && FieldClear(lead, fs[1], cls) && FieldClear(lead, fs[2], cls) && FieldClear(lead, fs[3], cls)
    requires Apart(fs[0], fs[1]) && Apart(fs[0], fs[2]) && Apart(fs[1], fs[2])
    requires Apart(fs[0], fs[3]) && Apart(fs[1], fs[3]) && Apart(fs[2], fs[3])
    ensures Separated(lead, fs, cls)
  {
  }

  lemma NoStartInField(f: Labelled, key: string, cls: CharClass)
    requires |key| > 0 && !InClass(key[0], cls) && AllInClass(f.value, cls)
    requires NoStart(f.key + " ", key) && key[0] !in f.tail
    ensures NoStart(FieldText(f), key)
  {
    NoStartWithoutHead(f.value, key);
    NoStartWithoutHead(f.tail, key);
    NoStartAppend(f.key + " ", f.value, key);
    NoStartAppend(f.key + " " + f.value, f.tail, key);
  }

  /** No later key `fs[i].key` can begin inside the first `m` fields. */
  lemma {:induction false} NoStartInFieldsBefore(lead: string, fs: seq<Labelled>, m: nat, i: nat, cls: CharClass)
    requires Separated(lead, fs, cls) && m <= i < |fs|
    ensures NoStart(FieldsText(fs[..m]), fs[i].key)
    decreases m
  {
    var key := fs[i].key;
    if m == 0 {
      assert fs[..0] == [];
      NoStartWithoutHead([], key);
    } else {
      var head := fs[..m - 1];
      NoStartInFieldsBefore(lead, fs, m - 1, i, cls);
      assert fs[..m] == head + [fs[m - 1]];
      FieldsTextOne(head, fs[m - 1]);
      NoStartInField(fs[m - 1], key, cls);
      NoStartAppend(FieldsText(head), FieldText(fs[m - 1]), key);
    }
  }

  /** Appending one field appends its text. */
  lemma FieldsTextOne(fs: seq<Labelled>, f: Labelled)
    ensures FieldsText(fs + [f]) == FieldsText(fs) + FieldText(f)
  {
    FieldsTextAppend(fs, [f]);
    assert [f][1..] == [];
  }

  /** A line cut around its `i`-th field. */
  lemma FieldsTextAround(lead: string, fs: seq<Labelled>, i: nat)
    requires i < |fs|
    ensures lead + FieldsText(fs)
         == (lead + FieldsText(fs[..i])) + fs[i].key + " " + fs[i].value + (fs[i].tail + FieldsText(fs[i + 1..]))
  {
    FieldsTextSplit(fs, i);
    Regroup(lead, FieldsText(fs[..i]), fs[i].key, " ", fs[i].value, fs[i].tail, FieldsText(fs[i + 1..]));
  }

  /** A line's fields cut before and after the `i`-th. */
  lemma {:induction false} FieldsTextSplit(fs: seq<Labelled>, i: nat)
    requires i < |fs|
    ensures FieldsText(fs) == FieldsText(fs[..i]) + (FieldText(fs[i]) + FieldsText(fs[i + 1..]))
    decreases i
  {
    if i == 0 {
      assert fs[..0] == [];
    } else {
      var t := fs[1..];
      FieldsTextSplit(t, i - 1);
      assert t[..i - 1] == fs[..i][1..];
      assert t[i - 1] == fs[i] && t[i..] == fs[i + 1..];
      assert FieldsText(fs[..i]) == FieldText(fs[0]) + FieldsText(t[..i - 1]);
    }
  }

  lemma Regroup(p: string, a: string, k: string, sp: string, v: string, t: string, b: string)
    ensures p + (a + ((k + sp + v + t) + b)) == (p + a) + k + sp + v + (t + b)
  {
  }

  /** On a well-separated line, the search for each label returns exactly that label's value. */
  lemma FieldFound(lead: string, fs: seq<Labelled>, i: nat, cls: CharClass)
    requires Separated(lead, fs, cls) && i < |fs|
    ensures Search(lead + FieldsText(fs), fs[i].key, cls) == Some(fs[i].value)
  {
    var f := fs[i];
    var after := fs[i + 1..];
    var pre := lead + FieldsText(fs[..i]);
    var post := f.tail + FieldsText(after);
    FieldsTextAround(lead, fs, i);
    NoStartInFieldsBefore(lead, fs, i, i, cls);
    NoStartAppend(lead, FieldsText(fs[..i]), f.key);
    if f.tail == [] && after != [] {
      assert FieldsText(after)[0] == after[0].key[0];
    }
    SearchFinds(pre, f.key, f.value, post, cls);
  }

  /** `c` occurs in none of the field's key, value and tail. */
  predicate FieldLacks(f: Labelled, c: char) {
    c !in f.key && c !in f.value && c !in f.tail
  }

  lemma {:induction false} NoCharInFields(fs: seq<Labelled>, c: char)
    requires c != ' '
    requires forall i :: 0 <= i < |fs| ==> FieldLacks(fs[i], c)
    ensures c !in FieldsText(fs)
    decreases |fs|
  {
    if fs != [] {
      var f := fs[0];
      assert FieldLacks(f, c);
      NoCharInFields(fs[1..], c);
      assert c !in f.key + " " + f.value + f.tail;
    }
  }

  /** A line of four fields, none holding `c`, after a lead without `c`, does not hold `c`. */
  lemma NoCharInFour(lead: string, fs: seq<Labelled>, c: char)
    requires |fs| == 4 && c != ' ' && c !in lead
    requires FieldLacks(fs[0], c) && FieldLacks(fs[1], c) && FieldLacks(fs[2], c) && FieldLacks(fs[3], c)
    ensures c !in lead + FieldsText(fs)
  {
    NoCharInFields(fs, c);
  }

  // The two labelled lines of the simulator's report.

  const ConfigLead := "L1 Data " + "(config) "
  const HitMissLead := "L1 Data " + "(hit/miss) "

  /** `Size: <cache>(KB) Line size: <block>(B) Associativity: <assoc> Num sets: <sets>` */
  function ConfigFields(cacheSize: string, blockSize: string, associativity: string, numSets: string): seq<Labelled> {
    [Labelled(SizeKey, cacheSize, "(KB) "), Labelled(LineSizeKey, blockSize, "(B) "),
     Labelled(AssociativityKey, associativity, " "), Labelled(NumSetsKey, numSets, "")]
  }

  /** `Instructions: <n> References: <n> Miss rate: <x> MPKI: <x>` */
  function HitMissFields(instructions: string, references: string, missRate: string, mpki: string): seq<Labelled> {
    [Labelled(InstructionsKey, instructions, " "), Labelled(ReferencesKey, references, " "),
     Labelled(MissRateKey, missRate, " "), Labelled(MpkiKey, mpki, "")]
  }

  lemma ConfigSeparated(cacheSize: string, blockSize: string, associativity: string, numSets: string)
    requires cacheSize != [] && AllInClass(cacheSize, Digits)
    requires blockSize != [] && AllInClass(blockSize, Digits)
    requires associativity != [] && AllInClass(associativity, Digits)
    requires numSets != [] && AllInClass(numSets, Digits)
    ensures Separated(ConfigLead, ConfigFields(cacheSize, blockSize, associativity, numSets), Digits)
  {
    var fs := ConfigFields(cacheSize, blockSize, associativity, numSets);
    ConfigLeadClear();
    ConfigKeysApart(fs);
    SeparatedFour(ConfigLead, fs, Digits);
  }

  /** No configuration key can begin inside the configuration line's lead text. */
  lemma ConfigLeadClear()
    ensures NoStart(ConfigLead, SizeKey) && NoStart(ConfigLead, LineSizeKey)
    ensures NoStart(ConfigLead, AssociativityKey) && NoStart(ConfigLead, NumSetsKey)
  {
    NoStartWithoutHead(ConfigLead, SizeKey);
    NoStartSecondDiffers("L1 Data ", LineSizeKey);
    NoStartWithoutHead("(config) ", LineSizeKey);
    NoStartAppend("L1 Data ", "(config) ", LineSizeKey);
    NoStartWithoutHead(ConfigLead, AssociativityKey);
    NoStartWithoutHead(ConfigLead, NumSetsKey);
  }

  /** Each configuration key is kept apart from the keys and tails printed before it. */
  lemma ConfigKeysApart(fs: seq<Labelled>)
    requires |fs| == 4
    requires fs[0].key == SizeKey && fs[1].key == LineSizeKey && fs[2].key == AssociativityKey && fs[3].key == NumSetsKey
    requires fs[0].tail == "(KB) " && fs[1].tail == "(B) " && fs[2].tail == " "
    ensures Apart(fs[0], fs[1]) && Apart(fs[0], fs[2]) && Apart(fs[1], fs[2])
    ensures Apart(fs[0], fs[3]) && Apart(fs[1], fs[3]) && Apart(fs[2], fs[3])
  {
    ConfigKeysNoStart();
    ConfigTailsClear();
  }

  lemma ConfigKeysNoStart()
    ensures NoStart(SizeKey + " ", LineSizeKey) && NoStart(SizeKey + " ", AssociativityKey) && NoStart(LineSizeKey + " ", AssociativityKey)
    ensures NoStart(SizeKey + " ", NumSetsKey) && NoStart(LineSizeKey + " ", NumSetsKey) && NoStart(AssociativityKey + " ", NumSetsKey)
  {
    NoStartWithoutHead(SizeKey + " ", LineSizeKey);
    NoStartWithoutHead(SizeKey + " ", AssociativityKey);
    NoStartWithoutHead(LineSizeKey + " ", AssociativityKey);
    NoStartWithoutHead(SizeKey + " ", NumSetsKey);
    NoStartWithoutHead(LineSizeKey + " ", NumSetsKey);
    NoStartWithoutHead(AssociativityKey + " ", NumSetsKey);
  }

  lemma ConfigTailsClear()
    ensures LineSizeKey[0] !in "(KB) " && AssociativityKey[0] !in "(KB) " && AssociativityKey[0] !in "(B) "
    ensures NumSetsKey[0] !in "(KB) " && NumSetsKey[0] !in "(B) " && NumSetsKey[0] !in " "
  {
  }

  lemma HitMissSeparated(instructions: string, references: string, missRate: string, mpki: string)
    requires instructions != [] && AllInClass(instructions, DigitsOrDots)
    requires references != [] && AllInClass(references, DigitsOrDots)
    requires missRate != [] && AllInClass(missRate, DigitsOrDots)
    requires mpki != [] && AllInClass(mpki, DigitsOrDots)
    ensures Separated(HitMissLead, HitMissFields(instructions, references, missRate, mpki), DigitsOrDots)
  {
    var fs := HitMissFields(instructions, references, missRate, mpki);
    HitMissLeadClear();
    HitMissKeysApart(fs);
    SeparatedFour(HitMissLead, fs, DigitsOrDots);
  }

  /** No hit/miss key can begin inside the hit/miss line's lead text. */
  lemma HitMissLeadClear()
    ensures NoStart(HitMissLead, InstructionsKey) && NoStart(HitMissLead, ReferencesKey)
    ensures NoStart(HitMissLead, MissRateKey) && NoStart(HitMissLead, MpkiKey)
  {
    NoStartWithoutHead(HitMissLead, InstructionsKey);
    NoStartWithoutHead(HitMissLead, ReferencesKey);
    NoStartWithoutHead(HitMissLead, MissRateKey);
    NoStartWithoutHead(HitMissLead, MpkiKey);
  }

  /** Each hit/miss key is kept apart from the keys and tails printed before it. */
  lemma HitMissKeysApart(fs: seq<Labelled>)
    requires |fs| == 4
    requires fs[0].key == InstructionsKey && fs[1].key == ReferencesKey && fs[2].key == MissRateKey && fs[3].key == MpkiKey
    requires fs[0].tail == " " && fs[1].tail == " " && fs[2].tail == " "
    ensures Apart(fs[0], fs[1]) && Apart(fs[0], fs[2]) && Apart(fs[1], fs[2])
    ensures Apart(fs[0], fs[3]) && Apart(fs[1], fs[3]) && Apart(fs[2], fs[3])
  {
    HitMissKeysNoStart();
    assert ReferencesKey[0] !in " " && MissRateKey[0] !in " " && MpkiKey[0] !in " ";
  }

  lemma HitMissKeysNoStart()
    ensures NoStart(InstructionsKey + " ", ReferencesKey) && NoStart(InstructionsKey + " ", MissRateKey) && NoStart(ReferencesKey + " ", MissRateKey)
    ensures NoStart(InstructionsKey + " ", MpkiKey) && NoStart(ReferencesKey + " ", MpkiKey) && NoStart(MissRateKey + " ", MpkiKey)
  {
    NoStartWithoutHead(InstructionsKey + " ", ReferencesKey);
    NoStartWithoutHead(InstructionsKey + " ", MissRateKey);
    NoStartWithoutHead(ReferencesKey + " ", MissRateKey);
    NoStartWithoutHead(InstructionsKey + " ", MpkiKey);
    NoStartWithoutHead(ReferencesKey + " ", MpkiKey);
    NoStartSecondDiffers(MissRateKey + " ", MpkiKey);
  }

  function ConfigText(cacheSize: string, blockSize: string, associativity: string, numSets: string): string {
    ConfigLead + FieldsText(ConfigFields(cacheSize, blockSize, associativity, numSets))
  }

  function HitMissText(instructions: string, references: string, missRate: string, mpki: string): string {
    HitMissLead + FieldsText(HitMissFields(instructions, references, missRate, mpki))
  }

  /** The six lines of a report carrying `rec`; lines 1, 2 and 4 are free text. */
  function RenderLines(rec: seq<string>, line1: string, line2: string, line4: string): (lines: seq<string>)
    requires |rec| == RecordLength
    ensures |lines| == MinLines
  {
    [ConfigText(rec[0], rec[1], rec[2], rec[3]), line1, line2,
     HitMissText(rec[4], rec[5], rec[6], rec[7]), line4, JoinWords(rec[8..])]
  }

  /** A simulator report carrying `rec`, one line after another. */
  function RenderReport(rec: seq<string>, line1: string, line2: string, line4: string): string
    requires |rec| == RecordLength
  {
    Join(RenderLines(rec, line1, line2, line4), '\n')
  }

  /** On a well-separated line of four fields, `FindFour` with their keys returns their values. */
  lemma FourFieldsFound(lead: string, fs: seq<Labelled>, cls: CharClass)
    requires Separated(lead, fs, cls) && |fs| == 4
    ensures FindFour(lead + FieldsText(fs), fs[0].key, fs[1].key, fs[2].key, fs[3].key, cls)
         == Some([fs[0].value, fs[1].value, fs[2].value, fs[3].value])
  {
    var line := lead + FieldsText(fs);
    var v0, v1, v2, v3 := fs[0].value, fs[1].value, fs[2].value, fs[3].value;
    FieldFound(lead, fs, 0, cls);
    FieldFound(lead, fs, 1, cls);
    FieldFound(lead, fs, 2, cls);
    FieldFound(lead, fs, 3, cls);
    FindFourExact(line, fs[0].key, fs[1].key, fs[2].key, fs[3].key, cls, v0, v1, v2, v3);
  }

  /** `FindFour` returns exactly the values the four searches give. */
  lemma FindFourExact(line: string, k0: string, k1: string, k2: string, k3: string, cls: CharClass,
                   v0: string, v1: string, v2: string, v3: string)
    requires Search(line, k0, cls) == Some(v0) && Search(line, k1, cls) == Some(v1)
    requires Search(line, k2, cls) == Some(v2) && Search(line, k3, cls) == Some(v3)
    ensures FindFour(line, k0, k1, k2, k3, cls) == Some([v0, v1, v2, v3])
  {
  }

  /** Four consecutive elements as a display. */
  lemma FourAt(r: seq<string>, i: nat)
    requires i + 4 <= |r|
    ensures r[i..i + 4] == [r[i], r[i + 1], r[i + 2], r[i + 3]]
  {
  }

  lemma FourHead(r: seq<string>)
    requires 4 <= |r|
    ensures r[..4] == [r[0], r[1], r[2], r[3]]
  {
  }

  /** The configuration line of a rendered record yields the record's first four fields. */
  lemma ConfigTextFound(rec: seq<string>)
    requires IsRecord(rec)
    ensures ConfigValues(ConfigText(rec[0], rec[1], rec[2], rec[3])) == Some(rec[..4])
  {
    ConfigSeparated(rec[0], rec[1], rec[2], rec[3]);
    FourFieldsFound(ConfigLead, ConfigFields(rec[0], rec[1], rec[2], rec[3]), Digits);
    FourHead(rec);
  }

  /** The hit/miss line of a rendered record yields the record's fields 4 to 7. */
  lemma HitMissTextFound(rec: seq<string>)
    requires IsRecord(rec)
    ensures HitMissValues(HitMissText(rec[4], rec[5], rec[6], rec[7])) == Some(rec[4..8])
  {
    HitMissSeparated(rec[4], rec[5], rec[6], rec[7]);
    FourFieldsFound(HitMissLead, HitMissFields(rec[4], rec[5], rec[6], rec[7]), DigitsOrDots);
    FourAt(rec, 4);
  }

  /** No newline occurs in a field of a record. */
  lemma RecordHasNoNewline(rec: seq<string>, k: nat)
    requires IsRecord(rec) && k < RecordLength
    ensures '\n' !in rec[k]
  {
    if k >= 8 {
      assert IsWord(rec[k]);
      assert IsSpace('\n');
    }
  }

  lemma ConfigTextHasNoNewline(rec: seq<string>)
    requires IsRecord(rec)
    ensures '\n' !in ConfigText(rec[0], rec[1], rec[2], rec[3])
  {
    var fs := ConfigFields(rec[0], rec[1], rec[2], rec[3]);
    RecordHasNoNewline(rec, 0);
    RecordHasNoNewline(rec, 1);
    RecordHasNoNewline(rec, 2);
    RecordHasNoNewline(rec, 3);
    ConfigLiteralsOneLine(fs);
    NoCharInFour(ConfigLead, fs, '\n');
  }

  /** The configuration line's lead, keys and tails hold no newline. */
  lemma ConfigLiteralsOneLine(fs: seq<Labelled>)
    requires |fs| == 4
    requires fs[0].key == SizeKey && fs[1].key == LineSizeKey && fs[2].key == AssociativityKey && fs[3].key == NumSetsKey
    requires fs[0].tail == "(KB) " && fs[1].tail == "(B) " && fs[2].tail == " " && fs[3].tail == ""
    ensures '\n' !in ConfigLead
    ensures forall i :: 0 <= i < 4 ==> '\n' !in fs[i].key && '\n' !in fs[i].tail
  {
    LeadsOneLine();
    ConfigKeysOneLine();
  }

  lemma HitMissTextHasNoNewline(rec: seq<string>)
    requires IsRecord(rec)
    ensures '\n' !in HitMissText(rec[4], rec[5], rec[6], rec[7])
  {
    var fs := HitMissFields(rec[4], rec[5], rec[6], rec[7]);
    RecordHasNoNewline(rec, 4);
    RecordHasNoNewline(rec, 5);
    RecordHasNoNewline(rec, 6);
    RecordHasNoNewline(rec, 7);
    HitMissLiteralsOneLine(fs);
    NoCharInFour(HitMissLead, fs, '\n');
  }

  /** The hit/miss line's lead, keys and tails hold no newline. */
  lemma HitMissLiteralsOneLine(fs: seq<Labelled>)
    requires |fs| == 4
    requires fs[0].key == InstructionsKey && fs[1].key == ReferencesKey && fs[2].key == MissRateKey && fs[3].key == MpkiKey
    requires fs[0].tail == " " && fs[1].tail == " " && fs[2].tail == " " && fs[3].tail == ""
    ensures '\n' !in HitMissLead
    ensures forall i :: 0 <= i < 4 ==> '\n' !in fs[i].key && '\n' !in fs[i].tail
  {
    LeadsOneLine();
    HitMissKeysOneLine();
  }

  lemma LeadsOneLine()
    ensures '\n' !in ConfigLead && '\n' !in HitMissLead
    ensures '\n' !in "(KB) " && '\n' !in "(B) " && '\n' !in " "
  {
  }

  lemma ConfigKeysOneLine()
    ensures '\n' !in SizeKey && '\n' !in LineSizeKey && '\n' !in AssociativityKey && '\n' !in NumSetsKey
  {
  }

  lemma HitMissKeysOneLine()
    ensures '\n' !in InstructionsKey && '\n' !in ReferencesKey && '\n' !in MissRateKey && '\n' !in MpkiKey
  {
  }

  lemma RenderedHasNoNewline(rec: seq<string>, line1: string, line2: string, line4: string)
    requires IsRecord(rec)
    requires '\n' !in line1 && '\n' !in line2 && '\n' !in line4
    ensures var lines := RenderLines(rec, line1, line2, line4); forall k :: 0 <= k < |lines| ==> '\n' !in lines[k]
  {
    ConfigTextHasNoNewline(rec);
    HitMissTextHasNoNewline(rec);
    BreakdownLineOf(rec);
  }

  /** The breakdown line of a record is a non-empty, trimmed line that splits back into the five counts. */
  lemma BreakdownLineOf(rec: seq<string>)
    requires IsRecord(rec)
    ensures var last := JoinWords(rec[8..]); last != [] && Trimmed(last) && '\n' !in last && Words(Strip(last)) == rec[8..]
  {
    var counts := rec[8..];
    assert forall k :: 0 <= k < |counts| ==> IsWord(counts[k]);
    JoinWordsShape(counts);
    assert IsSpace('\n');
    assert JoinWords(counts) == counts[0] + " " + JoinWords(counts[1..]);
    StripTrimmed(JoinWords(counts));
    WordsJoinWords(counts);
  }

  /** The rendered lines are what the parser splits the report back into. */
  lemma RenderedLines(rec: seq<string>, line1: string, line2: string, line4: string)
    requires IsRecord(rec)
    requires '\n' !in line1 && '\n' !in line2 && '\n' !in line4
    ensures ReportLines(RenderReport(rec, line1, line2, line4)) == RenderLines(rec, line1, line2, line4)
  {
    var lines := RenderLines(rec, line1, line2, line4);
    RenderedHasNoNewline(rec, line1, line2, line4);
    BreakdownLineOf(rec);
    JoinEnds(lines, '\n');
    StripTrimmed(Join(lines, '\n'));
    SplitJoin(lines, '\n');
  }

  /** A report whose labelled lines yield `config` and `hitMiss` and whose breakdown yields `counts` parses to their concatenation. */
  lemma ParseFromParts(output: string, config: seq<string>, hitMiss: seq<string>, counts: seq<string>)
    requires |ReportLines(output)| >= MinLines
    requires ConfigValues(ReportLines(output)[ConfigIndex]) == Some(config)
    requires HitMissValues(ReportLines(output)[HitMissIndex]) == Some(hitMiss)
    requires Breakdown(ReportLines(output)[BreakdownIndex]) == Some(counts)
    ensures ParseReport(output) == Some(config + hitMiss + counts)
  {
  }

  /** Whatever free text sits on lines 1, 2 and 4, parsing a rendered report gives back its record. */
  lemma ParseRenderRoundTrip(rec: seq<string>, line1: string, line2: string, line4: string)
    requires IsRecord(rec)
    requires '\n' !in line1 && '\n' !in line2 && '\n' !in line4
    ensures ParseReport(RenderReport(rec, line1, line2, line4)) == Some(rec)
  {
    var lines := RenderLines(rec, line1, line2, line4);
    RenderedLines(rec, line1, line2, line4);
    ConfigTextFound(rec);
    HitMissTextFound(rec);
    BreakdownLineOf(rec);
    ParseFromParts(RenderReport(rec, line1, line2, line4), rec[..4], rec[4..8], rec[8..]);
    Reassemble(rec, 4, 8);
  }

  /** Lines without newlines whose text neither starts nor ends with whitespace come back from `ReportLines` as they were joined. */
  lemma LinesRoundTrip(lines: seq<string>)
    requires |lines| >= 1 && forall k :: 0 <= k < |lines| ==> '\n' !in lines[k]
    requires lines[0] != [] && !IsSpace(lines[0][0])
    requires var last := lines[|lines| - 1]; last != [] && !IsSpace(last[|last| - 1])
    ensures ReportLines(Join(lines, '\n')) == lines
  {
    JoinEnds(lines, '\n');
    StripTrimmed(Join(lines, '\n'));
    SplitJoin(lines, '\n');
  }

  /** However well-formed its lines, a report of fewer than six lines is rejected. */
  lemma ShortReportRejected(lines: seq<string>)
    requires 1 <= |lines| < MinLines && forall k :: 0 <= k < |lines| ==> '\n' !in lines[k]
    requires lines[0] != [] && !IsSpace(lines[0][0])
    requires var last := lines[|lines| - 1]; last != [] && !IsSpace(last[|last| - 1])
    ensures ParseReport(Join(lines, '\n')) == None
  {
    LinesRoundTrip(lines);
  }

  /**
   * The five-line layout the parser's format comment describes: configuration line, the program's
   * output, hit/miss line, breakdown header, breakdown counts.
   */
  function CommentLayout(rec: seq<string>, programLine: string, header: string): (lines: seq<string>)
    requires |rec| == RecordLength
    ensures |lines| == MinLines - 1
  {
    [ConfigText(rec[0], rec[1], rec[2], rec[3]), programLine,
     HitMissText(rec[4], rec[5], rec[6], rec[7]), header, JoinWords(rec[8..])]
  }

  lemma ConfigTextStart(rec: seq<string>)
    requires |rec| == RecordLength
    ensures var t := ConfigText(rec[0], rec[1], rec[2], rec[3]); t != [] && t[0] == 'L' && !IsSpace(t[0])
  {
  }

  /** A report in the commented five-line layout is rejected, whatever record it carries. */
  lemma CommentLayoutRejected(rec: seq<string>, programLine: string, header: string)
    requires IsRecord(rec) && '\n' !in programLine && '\n' !in header
    ensures ParseReport(Join(CommentLayout(rec, programLine, header), '\n')) == None
  {
    var lines := CommentLayout(rec, programLine, header);
    ConfigTextHasNoNewline(rec);
    HitMissTextHasNoNewline(rec);
    BreakdownLineOf(rec);
    ConfigTextStart(rec);
    ShortReportRejected(lines);
  }

  /** The program's completion message as `split()` sees it. */
  const CompletionWords := ["Matrix", "multiplication", "complete"]

  lemma CompletionMessageWords()
    ensures JoinWords(CompletionWords) == ExampleProgramLine
    ensures forall i :: 0 <= i < |CompletionWords| ==> IsWord(CompletionWords[i])
  {
    CompletionJoined();
    LettersWord("Matrix");
    LettersWord("multiplication");
    LettersWord("complete");
  }

  lemma CompletionJoined()
    ensures JoinWords(CompletionWords) == ExampleProgramLine
  {
    assert JoinWords(CompletionWords[2..]) == "complete";
  }

  /** A non-empty run of ASCII letters is a word. */
  lemma LettersWord(w: string)
    requires w != [] && forall i :: 0 <= i < |w| ==> 'A' <= w[i] <= 'z'
    ensures IsWord(w)
  {
  }

  /**
   * The completion message carries no newline of its own: written straight after a breakdown line that
   * does not end in one, it joins that line, the last count fuses with "Matrix" and seven words remain.
   */
  lemma GluedBreakdownRejected(counts: seq<string>)
    requires |counts| == BreakdownLength && forall k :: 0 <= k < BreakdownLength ==> IsWord(counts[k])
    ensures |Words(JoinWords(counts) + ExampleProgramLine)| == BreakdownLength + 2
    ensures Breakdown(JoinWords(counts) + ExampleProgramLine) == None
  {
    CompletionMessageWords();
    WordsGlued(counts, CompletionWords);
    BreakdownIsSplit(JoinWords(counts) + ExampleProgramLine);
  }

  /** A report whose last line is not newline-terminated, followed directly by the completion message, yields no record. */
  lemma GluedReportRejected(rec: seq<string>, line1: string, line2: string, line4: string)
    requires IsRecord(rec)
    requires '\n' !in line1 && '\n' !in line2 && '\n' !in line4
    ensures ParseReport(RenderReport(rec, line1, line2, line4) + ExampleProgramLine) == None
  {
    var lines := RenderLines(rec, line1, line2, line4);
    var last := JoinWords(rec[8..]) + ExampleProgramLine;
    var glued := lines[..5] + [last];
    JoinAppend(lines, '\n', ExampleProgramLine);
    RenderedHasNoNewline(rec, line1, line2, line4);
    ConfigTextStart(rec);
    BreakdownLineOf(rec);
    GluedLastLine(JoinWords(rec[8..]));
    LinesRoundTrip(glued);
    GluedBreakdownRejected(rec[8..]);
  }

  lemma GluedLastLine(line: string)
    requires '\n' !in line
    ensures var t := line + ExampleProgramLine; '\n' !in t && t != [] && !IsSpace(t[|t| - 1])
  {
    var t := line + ExampleProgramLine;
    assert t[|t| - 1] == 'e';
  }

  lemma Reassemble(r: seq<string>, i: nat, j: nat)
    requires i <= j <= |r|
    ensures r[..i] + r[i..j] + r[j..] == r
  {
  }

  /** The record from the simulator's documented sample run: configuration, hit/miss line, breakdown. */
  const ExampleConfig := ["32", "64", "8", "64"]
  const ExampleHitMiss := ["53572514", "15264597", "0.0044", "1.2592"]
  const ExampleCounts := ["67456", "3170", "16022", "2057", "46207"]
  const ExampleRecord := ExampleConfig + ExampleHitMiss + ExampleCounts

  /** The sample report's free-text lines: the program's own output and the breakdown header. */
  const ExampleProgramLine := "Matrix multiplication complete"
  const ExampleBreakdownHeader := "Total Cold Capacity Mapping Replacement"

  /** The thirteen sample values, in the order the parser returns them. */
  lemma ExampleValues()
    ensures ExampleRecord == ["32", "64", "8", "64", "53572514", "15264597", "0.0044", "1.2592", "67456", "3170", "16022", "2057", "46207"]
  {
  }

  lemma ExampleLinesAreLines()
    ensures '\n' !in ExampleProgramLine && '\n' !in ExampleBreakdownHeader
  {
  }

  lemma ExampleIsRecord()
    ensures IsRecord(ExampleRecord)
  {
    var c, h, k := ExampleConfig, ExampleHitMiss, ExampleCounts;
    assert Value(c[0], Digits) && Value(c[1], Digits) && Value(c[2], Digits) && Value(c[3], Digits);
    assert Value(h[0], DigitsOrDots) && Value(h[1], DigitsOrDots) && Value(h[2], DigitsOrDots) && Value(h[3], DigitsOrDots);
    ExampleCountsAreWords();
    RecordFromParts(c, h, k);
  }

  lemma ExampleCountsAreWords()
    ensures |ExampleCounts| == BreakdownLength && forall k :: 0 <= k < BreakdownLength ==> IsWord(ExampleCounts[k])
  {
    var k := ExampleCounts;
    assert Value(k[0], Digits) && Value(k[1], Digits) && Value(k[2], Digits) && Value(k[3], Digits) && Value(k[4], Digits);
    ValueIsWord(k[0], Digits);
    ValueIsWord(k[1], Digits);
    ValueIsWord(k[2], Digits);
    ValueIsWord(k[3], Digits);
    ValueIsWord(k[4], Digits);
  }

  /** A captured value is also a word: neither class holds whitespace. */
  lemma ValueIsWord(v: string, cls: CharClass)
    requires Value(v, cls)
    ensures IsWord(v)
  {
    forall i | 0 <= i < |v|
      ensures !IsSpace(v[i])
    {
      ClassCharNotSpace(v[i], cls);
    }
  }

  /**
   * The sample report (configuration line, the program's own output, a blank line, the hit/miss
   * line, the breakdown header and the breakdown counts) parses to the thirteen sample values.
   */
  lemma ParseWorkedExample()
    ensures ParseReport(RenderReport(ExampleRecord, ExampleProgramLine, "", ExampleBreakdownHeader)) == Some(ExampleRecord)
  {
    ExampleIsRecord();
    ExampleLinesAreLines();
    ParseRenderRoundTrip(ExampleRecord, ExampleProgramLine, "", ExampleBreakdownHeader);
  }

  // ---------------------------------------------------------------------------
  // The sample report of the parser's format comment, column-aligned as printed there. Each labelled
  // line is written as the comment's text cut just before each label.
  // ---------------------------------------------------------------------------

  const SampleConfigLine := "L1 Data (config)         " + "Size: 32(KB)    " + "Line size: 64(B)        " + "Associativity: 8        " + "Num sets: 64"
  const SampleHitMissLine := "L1 Data (hit/miss)       " + "Instructions: 53572514  " + "References: 15264597    " + "Miss rate: 0.0044       " + "MPKI: 1.2592"
  const SampleHeaderLine := "      Total" + "         Cold" + "     Capacity" + "      Mapping" + "  Replacement"
  const SampleCountsLine := "      " + "67456" + "         " + "3170" + "        " + "16022" + "         " + "2057" + "        " + "46207"

  /** The sample configuration line as a lead text and four labelled fields. */
  const SampleConfigLead := "L1 Data (config)         "
  const SampleConfigFields := [Labelled(SizeKey, "32", "(KB)    "), Labelled(LineSizeKey, "64", "(B)        "),
                               Labelled(AssociativityKey, "8", "        "), Labelled(NumSetsKey, "64", "")]
  const SampleHitMissLead := "L1 Data (hit/miss)       "
  const SampleHitMissFields := [Labelled(InstructionsKey, "53572514", "  "), Labelled(ReferencesKey, "15264597", "    "),
                                Labelled(MissRateKey, "0.0044", "       "), Labelled(MpkiKey, "1.2592", "")]
  const SampleCountGaps := ["         ", "        ", "         ", "        ", ""]

  lemma FieldsTextFour(fs: seq<Labelled>)
    requires |fs| == 4
    ensures FieldsText(fs) == FieldText(fs[0]) + FieldText(fs[1]) + FieldText(fs[2]) + FieldText(fs[3])
  {
    var a1 := FieldText(fs[0]);
    var a2 := a1 + FieldText(fs[1]);
    var a3 := a2 + FieldText(fs[2]);
    FieldsTextStep([], fs);
    FieldsTextStep(a1, fs[1..]);
    FieldsTextStep(a2, fs[2..]);
    FieldsTextStep(a3, fs[3..]);
    FieldsRest(fs);
    EmptyLast(a3 + FieldText(fs[3]));
  }

  /** Peeling one field off a `FieldsText` layout onto the text before it. */
  lemma FieldsTextStep(a: string, fs: seq<Labelled>)
    requires |fs| >= 1
    ensures a + FieldsText(fs) == a + FieldText(fs[0]) + FieldsText(fs[1..])
  {
  }

  lemma FieldsRest(fs: seq<Labelled>)
    requires |fs| == 4
    ensures fs[1..][1..] == fs[2..] && fs[2..][1..] == fs[3..] && fs[3..][1..] == []
    ensures fs[1..][0] == fs[1] && fs[2..][0] == fs[2] && fs[3..][0] == fs[3]
  {
  }

  lemma RegroupFive(a: string, b: string, c: string, d: string, e: string)
    ensures a + (b + c + d + e) == a + b + c + d + e
  {
  }

  lemma SampleConfigPieces()
    ensures var fs := SampleConfigFields;
      && FieldText(fs[0]) == "Size: 32(KB)    " && FieldText(fs[1]) == "Line size: 64(B)        "
      && FieldText(fs[2]) == "Associativity: 8        " && FieldText(fs[3]) == "Num sets: 64"
  {
  }

  lemma SampleHitMissPieces()
    ensures var fs := SampleHitMissFields;
      && FieldText(fs[0]) == "Instructions: 53572514  " && FieldText(fs[1]) == "References: 15264597    "
      && FieldText(fs[2]) == "Miss rate: 0.0044       " && FieldText(fs[3]) == "MPKI: 1.2592"
  {
  }

  lemma SampleConfigLineShape()
    ensures SampleConfigLine == SampleConfigLead + FieldsText(SampleConfigFields)
  {
    var fs := SampleConfigFields;
    FieldsTextFour(fs);
    SampleConfigPieces();
    RegroupFive(SampleConfigLead, FieldText(fs[0]), FieldText(fs[1]), FieldText(fs[2]), FieldText(fs[3]));
  }

  lemma SampleHitMissLineShape()
    ensures SampleHitMissLine == SampleHitMissLead + FieldsText(SampleHitMissFields)
  {
    var fs := SampleHitMissFields;
    FieldsTextFour(fs);
    SampleHitMissPieces();
    RegroupFive(SampleHitMissLead, FieldText(fs[0]), FieldText(fs[1]), FieldText(fs[2]), FieldText(fs[3]));
  }

  lemma SampleCountsLineShape()
    ensures SampleCountsLine == "      " + Spaced(ExampleCounts, SampleCountGaps)
  {
    var k, g := ExampleCounts, SampleCountGaps;
    SpacedFive("      ", k, g);
    EmptyLast(SampleCountsLine);
  }

  lemma EmptyLast(s: string)
    ensures s + "" == s
  {
  }

  /** `Spaced` of five words and gaps, written out left to right after a lead. */
  lemma SpacedFive(lead: string, ws: seq<string>, gaps: seq<string>)
    requires |ws| == 5 && |gaps| == 5
    ensures lead + Spaced(ws, gaps)
         == lead + ws[0] + gaps[0] + ws[1] + gaps[1] + ws[2] + gaps[2] + ws[3] + gaps[3] + ws[4] + gaps[4]
  {
    var a1 := lead + ws[0] + gaps[0];
    var a2 := a1 + ws[1] + gaps[1];
    var a3 := a2 + ws[2] + gaps[2];
    var a4 := a3 + ws[3] + gaps[3];
    var a5 := a4 + ws[4] + gaps[4];
    SpacedStep(lead, ws, gaps);
    SpacedStep(a1, ws[1..], gaps[1..]);
    SpacedStep(a2, ws[2..], gaps[2..]);
    SpacedStep(a3, ws[3..], gaps[3..]);
    SpacedStep(a4, ws[4..], gaps[4..]);
    SpacedRest(ws, gaps);
    EmptyLast(a5);
  }

  /** Peeling one word and its gap off a `Spaced` layout onto the text before it. */
  lemma SpacedStep(a: string, ws: seq<string>, gaps: seq<string>)
    requires |ws| == |gaps| >= 1
    ensures a + Spaced(ws, gaps) == a + ws[0] + gaps[0] + Spaced(ws[1..], gaps[1..])
  {
  }

  lemma SpacedRest(ws: seq<string>, gaps: seq<string>)
    requires |ws| == 5 && |gaps| == 5
    ensures ws[1..][1..] == ws[2..] && ws[2..][1..] == ws[3..] && ws[3..][1..] == ws[4..] && ws[4..][1..] == []
    ensures gaps[1..][1..] == gaps[2..] && gaps[2..][1..] == gaps[3..] && gaps[3..][1..] == gaps[4..] && gaps[4..][1..] == []
    ensures ws[1..][0] == ws[1] && ws[2..][0] == ws[2] && ws[3..][0] == ws[3] && ws[4..][0] == ws[4]
    ensures gaps[1..][0] == gaps[1] && gaps[2..][0] == gaps[2] && gaps[3..][0] == gaps[3] && gaps[4..][0] == gaps[4]
  {
  }

  /** The sample configuration line meets `Separated`: its keys start clear of the lead, the values and of each other. */
  lemma SampleConfigSeparated()
    ensures Separated(SampleConfigLead, SampleConfigFields, Digits)
  {
    var fs := SampleConfigFields;
    SampleConfigLeadClear();
    SampleConfigFieldsClear();
    ConfigKeysNoStart();
    SampleConfigTailsClear();
    SeparatedFour(SampleConfigLead, fs, Digits);
  }

  /** The sample's lead is the one-space lead padded with eight more blanks. */
  lemma SampleConfigLeadPadded()
    ensures SampleConfigLead == ConfigLead + "        "
  {
  }

  lemma SampleConfigLeadClear()
    ensures NoStart(SampleConfigLead, SizeKey) && NoStart(SampleConfigLead, LineSizeKey)
    ensures NoStart(SampleConfigLead, AssociativityKey) && NoStart(SampleConfigLead, NumSetsKey)
  {
    var pad := "        ";
    SampleConfigLeadPadded();
    ConfigLeadClear();
    NoStartWithoutHead(pad, SizeKey);
    NoStartWithoutHead(pad, LineSizeKey);
    NoStartWithoutHead(pad, AssociativityKey);
    NoStartWithoutHead(pad, NumSetsKey);
    NoStartAppend(ConfigLead, pad, SizeKey);
    NoStartAppend(ConfigLead, pad, LineSizeKey);
    NoStartAppend(ConfigLead, pad, AssociativityKey);
    NoStartAppend(ConfigLead, pad, NumSetsKey);
  }

  lemma SampleConfigFieldsClear()
    ensures var fs := SampleConfigFields;
      forall i :: 0 <= i < 4 ==> && fs[i].key != [] && !InClass(fs[i].key[0], Digits)
                                 && fs[i].value != [] && AllInClass(fs[i].value, Digits)
                                 && (fs[i].tail == [] || !InClass(fs[i].tail[0], Digits))
  {
  }

  lemma SampleConfigTailsClear()
    ensures var fs := SampleConfigFields;
      && LineSizeKey[0] !in fs[0].tail && AssociativityKey[0] !in fs[0].tail && AssociativityKey[0] !in fs[1].tail
      && NumSetsKey[0] !in fs[0].tail && NumSetsKey[0] !in fs[1].tail && NumSetsKey[0] !in fs[2].tail
  {
  }

  /** The sample hit/miss line meets `Separated` as well. */
  lemma SampleHitMissSeparated()
    ensures Separated(SampleHitMissLead, SampleHitMissFields, DigitsOrDots)
  {
    var fs := SampleHitMissFields;
    SampleHitMissLeadClear();
    SampleHitMissFieldsClear();
    HitMissKeysNoStart();
    SampleHitMissTailsClear();
    SeparatedFour(SampleHitMissLead, fs, DigitsOrDots);
  }

  /** The sample's lead is the one-space lead padded with six more blanks. */
  lemma SampleHitMissLeadPadded()
    ensures SampleHitMissLead == HitMissLead + "      "
  {
  }

  lemma SampleHitMissLeadClear()
    ensures NoStart(SampleHitMissLead, InstructionsKey) && NoStart(SampleHitMissLead, ReferencesKey)
    ensures NoStart(SampleHitMissLead, MissRateKey) && NoStart(SampleHitMissLead, MpkiKey)
  {
    var pad := "      ";
    SampleHitMissLeadPadded();
    HitMissLeadClear();
    NoStartWithoutHead(pad, InstructionsKey);
    NoStartWithoutHead(pad, ReferencesKey);
    NoStartWithoutHead(pad, MissRateKey);
    NoStartWithoutHead(pad, MpkiKey);
    NoStartAppend(HitMissLead, pad, InstructionsKey);
    NoStartAppend(HitMissLead, pad, ReferencesKey);
    NoStartAppend(HitMissLead, pad, MissRateKey);
    NoStartAppend(HitMissLead, pad, MpkiKey);
  }

  lemma SampleHitMissFieldsClear()
    ensures var fs := SampleHitMissFields;
      forall i :: 0 <= i < 4 ==> && fs[i].key != [] && !InClass(fs[i].key[0], DigitsOrDots)
                                 && fs[i].value != [] && AllInClass(fs[i].value, DigitsOrDots)
                                 && (fs[i].tail == [] || !InClass(fs[i].tail[0], DigitsOrDots))
  {
  }

  lemma SampleHitMissTailsClear()
    ensures var fs := SampleHitMissFields;
      && ReferencesKey[0] !in fs[0].tail && MissRateKey[0] !in fs[0].tail && MissRateKey[0] !in fs[1].tail
      && MpkiKey[0] !in fs[0].tail && MpkiKey[0] !in fs[1].tail && MpkiKey[0] !in fs[2].tail
  {
  }

  /** The column-aligned sample configuration line yields the sample's four configuration values. */
  lemma SampleConfigFound()
    ensures ConfigValues(SampleConfigLine) == Some(ExampleConfig)
  {
    SampleConfigLineShape();
    SampleConfigSeparated();
    FourFieldsFound(SampleConfigLead, SampleConfigFields, Digits);
  }

  /** The column-aligned sample hit/miss line yields the sample's four hit/miss values. */
  lemma SampleHitMissFound()
    ensures HitMissValues(SampleHitMissLine) == Some(ExampleHitMiss)
  {
    SampleHitMissLineShape();
    SampleHitMissSeparated();
    FourFieldsFound(SampleHitMissLead, SampleHitMissFields, DigitsOrDots);
  }

  /** The column-aligned sample counts line yields the five sample counts. */
  lemma SampleCountsFound()
    ensures Breakdown(SampleCountsLine) == Some(ExampleCounts)
  {
    SampleCountsLineShape();
    ExampleCountsAreWords();
    BreakdownOfSpaced("      ", ExampleCounts, SampleCountGaps);
  }

  /** The sample values, column-aligned as documented, in the six-line order the code reads. */
  const SampleLines := [SampleConfigLine, ExampleProgramLine, "", SampleHitMissLine, SampleHeaderLine, SampleCountsLine]

  lemma SampleLinesAreLines()
    ensures forall k :: 0 <= k < |SampleLines| ==> '\n' !in SampleLines[k]
  {
    SampleConfigLineIsLine();
    SampleHitMissLineIsLine();
    SampleBreakdownLinesAreLines();
    ExampleLinesAreLines();
  }

  lemma SampleConfigLineIsLine()
    ensures '\n' !in SampleConfigLine
  {
    var fs := SampleConfigFields;
    SampleConfigLineShape();
    SampleConfigLeadPadded();
    LeadsOneLine();
    ConfigKeysOneLine();
    SampleConfigFieldsClear();
    ClassLacksNewline(fs[0].value, Digits);
    ClassLacksNewline(fs[1].value, Digits);
    ClassLacksNewline(fs[2].value, Digits);
    ClassLacksNewline(fs[3].value, Digits);
    assert '\n' !in "(KB)    " && '\n' !in "(B)        " && '\n' !in "        ";
    NoCharInFour(SampleConfigLead, fs, '\n');
  }

  lemma SampleHitMissLineIsLine()
    ensures '\n' !in SampleHitMissLine
  {
    var fs := SampleHitMissFields;
    SampleHitMissLineShape();
    SampleHitMissLeadPadded();
    LeadsOneLine();
    HitMissKeysOneLine();
    SampleHitMissFieldsClear();
    ClassLacksNewline(fs[0].value, DigitsOrDots);
    ClassLacksNewline(fs[1].value, DigitsOrDots);
    ClassLacksNewline(fs[2].value, DigitsOrDots);
    ClassLacksNewline(fs[3].value, DigitsOrDots);
    assert '\n' !in "      " && '\n' !in "  " && '\n' !in "    " && '\n' !in "       ";
    NoCharInFour(SampleHitMissLead, fs, '\n');
  }

  /** A value of digits, or of digits and dots, holds no newline. */
  lemma ClassLacksNewline(v: string, cls: CharClass)
    requires AllInClass(v, cls)
    ensures '\n' !in v
  {
  }

  lemma SampleBreakdownLinesAreLines()
    ensures '\n' !in SampleHeaderLine && '\n' !in SampleCountsLine
  {
    assert '\n' !in "      Total" && '\n' !in "         Cold" && '\n' !in "     Capacity";
    assert '\n' !in "      Mapping" && '\n' !in "  Replacement";
    assert '\n' !in "      " && '\n' !in "         " && '\n' !in "        ";
    assert '\n' !in "67456" && '\n' !in "3170" && '\n' !in "16022" && '\n' !in "2057" && '\n' !in "46207";
  }

  /** The column-aligned sample, laid out as the six lines the code reads, parses to its values. */
  lemma ParseDocumentedSample()
    ensures ParseReport(Join(SampleLines, '\n')) == Some(ExampleRecord)
  {
    SampleLinesAreLines();
    LinesRoundTrip(SampleLines);
    SampleConfigFound();
    SampleHitMissFound();
    SampleCountsFound();
    ParseFromParts(Join(SampleLines, '\n'), ExampleConfig, ExampleHitMiss, ExampleCounts);
  }

  /** The column-aligned sample exactly as its five documented lines is rejected. */
  lemma DocumentedSampleRejected()
    ensures ParseReport(Join([SampleConfigLine, ExampleProgramLine, SampleHitMissLine, SampleHeaderLine, SampleCountsLine], '\n')) == None
  {
    SampleLinesAreLines();
    var lines := [SampleConfigLine, ExampleProgramLine, SampleHitMissLine, SampleHeaderLine, SampleCountsLine];
    assert lines[0] == SampleLines[0] && lines[1] == SampleLines[1] && lines[2] == SampleLines[3];
    assert lines[3] == SampleLines[4] && lines[4] == SampleLines[5];
    ShortReportRejected(lines);
  }
}
