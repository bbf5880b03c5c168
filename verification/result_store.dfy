/**
 * `write_results_to_csv`: the results file seen as a list of rows. The file is either absent or
 * holds some rows; one call appends a batch, writing the header first only when there was nothing
 * in the file before.
 */
module ResultStore {
  import opened Wrappers

  /** One CSV row: the list of its cells. */
  type Row = seq<string>

  /** The results file: `None` when it does not exist, otherwise its rows. */
  type ResultsFile = Option<seq<Row>>

  /** The thirteen column names, in record order. */
  const Header: Row := [
    "Cache Size (KB)", "Block Size (B)", "Associativity", "Num Sets",
    "Instructions", "References", "Miss Rate", "MPKI",
    "Total", "Cold", "Capacity", "Mapping", "Replacement"
  ]

  /** The rows already in the file; an absent file has none. */
  function Existing(file: ResultsFile): seq<Row> {
    match file
    case None => []
    case Some(rows) => rows
  }

  /** The header is written exactly when the file is absent or has no rows. */
  predicate WritesHeader(file: ResultsFile) {
    Existing(file) == []
  }

  /** One call writing under header row `header`: the file's rows afterwards. */
  function AppendRows(header: Row, file: ResultsFile, results: seq<Row>): seq<Row> {
    (if Existing(file) == [] then [header] else Existing(file)) + results
  }

  /** `write_results_to_csv(results, filename)`: the file's rows after one call. */
  function AppendResults(file: ResultsFile, results: seq<Row>): (rows: seq<Row>)
    ensures WritesHeader(file) ==> |rows| == 1 + |results| && rows[0] == Header && rows[1..] == results
    ensures !WritesHeader(file) ==> |rows| == |Existing(file)| + |results|
    ensures rows[..|Existing(file)|] == Existing(file)
    ensures rows[|rows| - |results|..] == results
    ensures multiset(rows) == multiset(Existing(file)) + multiset(results) + (if WritesHeader(file) then multiset{Header} else multiset{})
  {
    var rows := AppendRows(Header, file, results);
    assert rows[|rows| - |results|..] == results;
    rows
  }

  /** A non-empty file is only appended to: its first row is neither inspected nor rewritten. */
  lemma AppendKeepsFirstRow(header: Row, file: ResultsFile, results: seq<Row>)
    requires Existing(file) != []
    ensures AppendRows(header, file, results)[0] == Existing(file)[0]
    ensures AppendRows(header, file, results) == Existing(file) + results
  {
    var rows := AppendRows(header, file, results);
    assert rows[..|Existing(file)|] == Existing(file);
    assert rows == rows[..|Existing(file)|] + rows[|Existing(file)|..];
  }

  /** An absent file and an empty file are treated alike. */
  lemma AbsentLikeEmpty(header: Row, results: seq<Row>)
    ensures AppendRows(header, None, results) == AppendRows(header, Some([]), results) == [header] + results
  {
    var rows := AppendRows(header, None, results);
    assert rows == [rows[0]] + rows[1..];
  }

  // ---------------------------------------------------------------------------
  // Several runs writing to the same file.
  // ---------------------------------------------------------------------------

  function Flatten(batches: seq<seq<Row>>): seq<Row> {
    if batches == [] then [] else Flatten(batches[..|batches| - 1]) + batches[|batches| - 1]
  }

  /** The file after one call per batch, in order. */
  function Sessions(header: Row, file: ResultsFile, batches: seq<seq<Row>>): (after: ResultsFile)
    decreases |batches|
  {
    if batches == [] then file
    else Some(AppendRows(header, Sessions(header, file, batches[..|batches| - 1]), batches[|batches| - 1]))
  }

  /**
   * Starting from no file, N >= 1 calls leave the header once, at the top, followed by the
   * batches in call order and, within each batch, in batch order (duplicates kept).
   */
  lemma {:induction false} SessionsFromNothing(header: Row, batches: seq<seq<Row>>)
    requires |batches| >= 1
    ensures Sessions(header, None, batches) == Some([header] + Flatten(batches))
    decreases |batches|
  {
    var last := batches[|batches| - 1];
    var init := batches[..|batches| - 1];
    if |batches| == 1 {
      assert init == [];
      assert Sessions(header, None, init) == None;
      assert Flatten(batches) == Flatten(init) + last == last;
      AbsentLikeEmpty(header, last);
    } else {
      SessionsFromNothing(header, init);
      var before := [header] + Flatten(init);
      AppendKeepsFirstRow(header, Some(before), last);
      assert Sessions(header, None, batches) == Some(AppendRows(header, Some(before), last));
      assert Flatten(batches) == Flatten(init) + last;
      assert before + last == [header] + Flatten(batches);
    }
  }

  /** Unless a data row happens to equal the header, the header appears exactly once, as the first row. */
  lemma OneHeader(header: Row, batches: seq<seq<Row>>)
    requires |batches| >= 1
    requires header !in multiset(Flatten(batches))
    ensures var rows := Sessions(header, None, batches).value; rows[0] == header && multiset(rows)[header] == 1
  {
    SessionsFromNothing(header, batches);
    assert multiset([header] + Flatten(batches)) == multiset{header} + multiset(Flatten(batches));
  }

  /** Two runs append two batches after one header: every row of both batches is kept. */
  lemma TwoRunsScenario(header: Row, first: seq<Row>, second: seq<Row>)
    ensures Sessions(header, None, [first, second]) == Some([header] + first + second)
  {
    var batches := [first, second];
    SessionsFromNothing(header, batches);
    assert batches[..1] == [first] && batches[1] == second;
    assert [first][..0] == [];
    assert Flatten([first]) == first;
    assert Flatten(batches) == first + second;
    assert [header] + (first + second) == [header] + first + second;
  }
}
