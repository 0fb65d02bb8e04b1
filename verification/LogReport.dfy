/** The whole reading of a log: the rows are folded, and the result is regrouped for the reports. */
module LogReport {
  import opened AnsiCleaner
  import opened EventFold
  import opened FoldDetails
  import opened LogScanner
  import opened Options
  import opened Regroup
  import opened RowEffect
  import opened Streaming

  /** The scanner as the fold sees it: the chunk is cleaned, and scanned after what was kept. */
  ghost function FeederOf(decode: Decoder): Feeder {
    (kept, chunk) => Batch(decode, kept + Clean(chunk))
  }

  /** The running accumulator of the log: slices, counters and sets updated in place. */
  class LogFold {
    const extractor: Extractor
    var allTests: seq<Detail>
    var allSuites: seq<Suite>
    var suiteStatus: Status
    var testSuiteName: string
    var withEmbedded: set<string>
    var processed: set<string>

    constructor (extractor: Extractor)
      requires extractor.remaining == ""
      ensures this.extractor == extractor && State() == INIT
    {
      this.extractor := extractor;
      allTests, allSuites := [], [];
      suiteStatus, testSuiteName := ZERO, "";
      withEmbedded, processed := {}, {};
    }

    ghost function State(): FoldState
      reads this, extractor
    {
      FoldState(extractor.remaining, allTests, allSuites, suiteStatus, testSuiteName, withEmbedded, processed)
    }

    method AddDetail(d: Detail)
      modifies this
      ensures State() == Add(old(State()), d)
    {
      allTests := allTests + [d];
      match d.status {
        case Failed => suiteStatus := suiteStatus.(failed := suiteStatus.failed + 1);
        case Passed => suiteStatus := suiteStatus.(passed := suiteStatus.passed + 1);
        case Skipped => suiteStatus := suiteStatus.(skipped := suiteStatus.skipped + 1);
      }
    }

    /** The results found in the row's output become details of the row's test. */
    method UpdateTestDetails(row: Row, outs: seq<TestResult>)
      modifies this
      ensures withEmbedded == old(withEmbedded) + (if outs == [] then {} else {row.test})
      ensures old(allTests) <= allTests && AreFound(allTests[|old(allTests)|..], row.test, outs)
      ensures IsSum(suiteStatus, old(suiteStatus), allTests[|old(allTests)|..])
      ensures State() == Record(Embed(old(State()), row.test, outs), row.test, outs, |outs|)
    {
      if |outs| > 0 {
        withEmbedded := withEmbedded + {row.test};
      }
      ghost var start := State();
      for n := 0 to |outs|
        invariant State() == Record(start, row.test, outs, n)
      {
        AddDetail(DetailOf(row.test, outs[n]));
      }
      RecordTests(start, row.test, outs, |outs|);
      RecordPending(start, row.test, outs, |outs|);
      RecordFrame(start, row.test, outs, |outs|);
      DetailsAreFound(row.test, outs);
      PlusIsSum(start.pending, DetailsFor(row.test, outs));
      assert DetailsFor(row.test, outs)[..|outs|] == DetailsFor(row.test, outs);
      assert allTests[|start.tests|..] == DetailsFor(row.test, outs);
    }

    method UpdateTestSuiteDetails(row: Row)
      modifies this`allSuites
      ensures State() == old(State()).(suites := Upsert(old(allSuites), Completed(old(State()), row)))
      ensures IsPut(old(allSuites), Suite(0, testSuiteName, row.elapsed / 60.0, row.action, suiteStatus), allSuites)
    {
      UpsertPuts(allSuites, Completed(State(), row));
      var suite := Suite(0, testSuiteName, row.elapsed / SECONDS_PER_MINUTE, row.action, suiteStatus);
      var i := 0;
      while i < |allSuites|
        invariant i <= |allSuites| && allSuites == old(allSuites)
        invariant FindSuite(allSuites, testSuiteName, 0) == FindSuite(allSuites, testSuiteName, i)
      {
        if allSuites[i].name == testSuiteName {
          allSuites := allSuites[i := suite];
          return;
        }
        i := i + 1;
      }
      allSuites := allSuites + [suite];
    }

    method ProcessRow(row: Row)
      modifies this, extractor
      ensures State() == Step(FeederOf(extractor.decode), old(State()), row)
      ensures IsAfterRow(FeederOf(extractor.decode), old(State()), row, State())
    {
      StepFits(FeederOf(extractor.decode), State(), row);
      ghost var feed, st := FeederOf(extractor.decode), State();
      PreparedFrame(feed, st, row);
      if row.test != "" {
        testSuiteName := row.test;
        var outs := extractor.ExtractTestOutput(row.output);
        assert Fed(outs, extractor.remaining) == feed(st.kept, row.output);
        UpdateTestDetails(row, outs);
        assert State() == TakeOutput(feed, st, row);
        if IsCompletion(row.action) {
          var state := ActionToState(row.action);
          var td := Detail(0, row.test, row.test, row.elapsed, state);
          if row.test !in withEmbedded {
            AddDetail(td);
          } else if state == Failed && suiteStatus.failed == 0 {
            AddDetail(td);
          }
          assert State() == Prepared(feed, st, row);
          UpdateTestSuiteDetails(row);
          processed := processed + {testSuiteName};
          suiteStatus := ZERO;
        }
      } else if IsCompletion(row.action) && testSuiteName !in processed {
        UpdateTestSuiteDetails(row);
        suiteStatus := ZERO;
      }
    }

    method ProcessRows(rows: seq<Row>)
      requires State() == INIT
      modifies this, extractor
      ensures State() == Run(FeederOf(extractor.decode), rows, |rows|)
    {
      for n := 0 to |rows|
        invariant State() == Run(FeederOf(extractor.decode), rows, n)
      {
        ProcessRow(rows[n]);
      }
    }
  }

  /** The report of a log, `None` for a log without rows. The second clause ties it to the fold. The
      others are what the report is for: whatever else the log holds, an included test whose last
      completion is a failure turns the status to FAILED; and the groups hold the details of the included
      suites, each as often as the fold recorded it. */
  method ProcessTestData(decode: Decoder, rows: seq<Row>, product: string, ciArch: string, ids: CaseIds)
    returns (pd: Option<Processed>)
    ensures pd.None? <==> rows == []
    ensures pd.Some? ==>
              var st := Run(FeederOf(decode), rows, |rows|);
              IsRegrouping(pd.value, st.tests, Select(st.suites, product, DefaultArch(ciArch), |st.suites|), ids)
    ensures pd.Some? ==>
              forall i | 0 <= i < |rows| && FailsIncluded(rows, i, product, DefaultArch(ciArch)) ::
                StatusText(pd.value) == "FAILED"
    ensures pd.Some? ==>
              var st := Run(FeederOf(decode), rows, |rows|);
              StatusText(pd.value)
              == if SomeFailed(st.suites, product, if ciArch == "" then "amd64" else ciArch, |st.suites|) then "FAILED"
                 else "PASSED"
    ensures pd.Some? ==>
              var st := Run(FeederOf(decode), rows, |rows|);
              multiset(WithoutIds(AllDetails(pd.value.summary)))
              == multiset(DetailsIn(st.tests, IncludedNames(st.suites, product, DefaultArch(ciArch), |st.suites|),
                                    |st.tests|))
  {
    if rows == [] {
      return None;
    }
    var arch := DefaultArch(ciArch);
    var extractor := new Extractor(decode);
    var fold := new LogFold(extractor);
    fold.ProcessRows(rows);
    var report := ProcessData(fold.allTests, fold.allSuites, product, arch, ids);
    forall i | 0 <= i < |rows| && FailsIncluded(rows, i, product, arch) ensures 0 < report.failed
    {
      FailedTestIsReported(FeederOf(decode), rows, i, product, arch);
    }
    NamesStayUnique(FeederOf(decode), rows, |rows|);
    RunHasNoIds(FeederOf(decode), rows, |rows|);
    StatusMeaning(report, fold.allTests, fold.allSuites, product, arch, ids);
    ReportIsAPartition(report, fold.allTests, fold.allSuites, product, arch, ids);
    return Some(report);
  }

  function DefaultArch(ciArch: string): string { if ciArch == "" then "amd64" else ciArch }

  /** Row `i` is the last completion of an included test, and a failure. */
  ghost predicate FailsIncluded(rows: seq<Row>, i: nat, product: string, arch: string)
    requires i < |rows|
  {
    LastCompletionFails(rows, i, |rows|) && Included(rows[i].test, product, arch)
  }

  lemma FailedTestIsReported(feed: Feeder, rows: seq<Row>, i: nat, product: string, arch: string)
    requires i < |rows| && FailsIncluded(rows, i, product, arch)
    ensures var suites := Run(feed, rows, |rows|).suites;
            0 < Total(Select(suites, product, arch, |suites|), Failed)
  {
    FailureStaysVisible(feed, rows, i, |rows|);
    var suites := Run(feed, rows, |rows|).suites;
    var k :| 0 <= k < |suites| && suites[k].name == rows[i].test && 0 < suites[k].counts.failed;
    FailureReachesTotal(suites, product, arch, k, |suites|);
  }

  ghost predicate AllIncluded(suites: seq<Suite>, product: string, arch: string) {
    forall k :: 0 <= k < |suites| ==> Included(suites[k].name, product, arch)
  }

  /** Where every suite is included, nothing is pending at the end and no counted record was replaced,
      the reported total of a verdict is the number of details with it. */
  lemma TotalsMatchDetails(feed: Feeder, rows: seq<Row>, product: string, arch: string, v: Verdict)
    requires AllIncluded(Run(feed, rows, |rows|).suites, product, arch)
    ensures var st, lost := Run(feed, rows, |rows|), Losses(feed, rows, |rows|, v);
            Total(Select(st.suites, product, arch, |st.suites|), v) == Tally(st.tests, v)
            <==> Of(st.pending, v) == 0 && forall i :: 0 <= i < |lost| ==> lost[i] == 0
  {
    var st := Run(feed, rows, |rows|);
    SelectAllTotal(st.suites, product, arch, v, |st.suites|);
    ExactIffNothingOverwritten(feed, rows, |rows|, v);
  }

  lemma {:induction false} GroupTally(tests: seq<Detail>, name: string, v: Verdict, n: nat)
    requires n <= |tests|
    ensures Tally(DetailsOf(tests, name, n), v) == OwnTo(tests, name, v, n)
  {
    if n > 0 {
      GroupTally(tests, name, v, n - 1);
      var front := DetailsOf(tests, name, n - 1);
      if tests[n - 1].suite == name { TallyStep(front, tests[n - 1], v); } else { assert front + [] == front; }
    }
  }

  /** The first `n` suites count the details of their own groups. */
  ghost predicate AllCountOwn(suites: seq<Suite>, tests: seq<Detail>, v: Verdict) {
    forall k :: 0 <= k < |suites| ==> Of(suites[k].counts, v) == OwnTally(tests, suites[k].name, v)
  }

  lemma {:induction false} TotalOfGroups(suites: seq<Suite>, tests: seq<Detail>, v: Verdict, n: nat)
    requires n <= |suites| && AllCountOwn(suites, tests, v)
    ensures TotalTo(suites, v, n) == Tally(Groups(tests, suites, n), v)
  {
    if n > 0 {
      TotalOfGroups(suites, tests, v, n - 1);
      var front, last := Groups(tests, suites, n - 1), DetailsOf(tests, suites[n - 1].name, |tests|);
      GroupTally(tests, suites[n - 1].name, v, |tests|);
      TallyAppend(front, last, v, |last|);
    }
  }

  lemma {:induction false} SelectCountsOwn(suites: seq<Suite>, tests: seq<Detail>, product: string, arch: string,
                                           v: Verdict, n: nat)
    requires n <= |suites| && AllCountOwn(suites, tests, v)
    ensures AllCountOwn(Select(suites, product, arch, n), tests, v)
  {
    if n > 0 {
      var front, last := Select(suites, product, arch, n - 1), suites[n - 1];
      SelectCountsOwn(suites, tests, product, arch, v, n - 1);
      assert Select(suites, product, arch, n)
          == front + if Included(last.name, product, arch) then [Plan(last, product)] else [];
    }
  }

  /** In a log in which tests run one at a time every reported total is the number of details with that
      verdict in the groups of the report, for every product and architecture. */
  lemma TotalsMatchGroups(feed: Feeder, rows: seq<Row>, product: string, arch: string, v: Verdict)
    requires OneAtATime(rows, |rows|)
    ensures var st := Run(feed, rows, |rows|);
            var r := Select(st.suites, product, arch, |st.suites|);
            Total(r, v) == Tally(Groups(st.tests, r, |r|), v)
  {
    var st := Run(feed, rows, |rows|);
    var r := Select(st.suites, product, arch, |st.suites|);
    forall k | 0 <= k < |st.suites| ensures Of(st.suites[k].counts, v) == OwnTally(st.tests, st.suites[k].name, v) {
      OneAtATimeCountsOwn(feed, rows, k, v);
    }
    SelectCountsOwn(st.suites, st.tests, product, arch, v, |st.suites|);
    TotalOfGroups(r, st.tests, v, |r|);
  }

  // ---- The fold and the scanner ----

  /** The raw chunks that the first `n` rows give the scanner. */
  function OutputsOf(rows: seq<Row>, n: nat): seq<string>
    requires n <= |rows|
  {
    if n == 0 then [] else OutputsOf(rows, n - 1) + if rows[n - 1].test == "" then [] else [rows[n - 1].output]
  }

  /** The details that row `n` adds for the results found in its output. */
  ghost function FromOutput(feed: Feeder, rows: seq<Row>, n: nat): seq<Detail>
    requires n < |rows|
  {
    if rows[n].test == "" then []
    else DetailsFor(rows[n].test, feed(Kept(feed, rows, n), rows[n].output).outs)
  }

  /** The details that the first `n` rows add for the results found in their output. */
  ghost function Found(feed: Feeder, rows: seq<Row>, n: nat): seq<Detail>
    requires n <= |rows|
  {
    if n == 0 then [] else Found(feed, rows, n - 1) + FromOutput(feed, rows, n - 1)
  }

  lemma {:induction false} RunHasNoIds(feed: Feeder, rows: seq<Row>, n: nat)
    requires n <= |rows|
    ensures HaveNoIds(Run(feed, rows, n).tests)
  {
    if n > 0 {
      RunHasNoIds(feed, rows, n - 1);
      RowAdds(feed, Run(feed, rows, n - 1), rows[n - 1]);
    }
  }

  ghost predicate AreFrom(ds: seq<Detail>, outs: seq<TestResult>) {
    |ds| == |outs| && forall k :: 0 <= k < |ds| ==> ds[k] == DetailOf(ds[k].suite, outs[k])
  }

  lemma {:induction false} ConcatLast(chunks: seq<string>, c: string)
    ensures Concat(CleanEach(chunks + [c])) == Concat(CleanEach(chunks)) + Clean(c)
  {
    if chunks == [] {
      TwoChunks(c, "");
      assert chunks + [c] == [c] && [c][1..] == [];
      assert CleanEach([c]) == [Clean(c)] && [Clean(c)][1..] == [];
    } else {
      ConcatLast(chunks[1..], c);
      CleanEachHead(chunks);
      CleanEachHead(chunks + [c]);
      assert (chunks + [c])[1..] == chunks[1..] + [c];
      Assoc(Clean(chunks[0]), Concat(CleanEach(chunks[1..])), Clean(c));
    }
  }

  /** The feeder cleans every chunk and scans it after what was kept. */
  ghost predicate FeedsTo(feed: Feeder, scan: Scanner) {
    forall kept: string, chunk: string :: FeedsAt(feed, scan, kept, chunk)
  }

  ghost predicate FeedsAt(feed: Feeder, scan: Scanner, kept: string, chunk: string) {
    feed(kept, chunk) == scan(kept + Clean(chunk))
  }

  /** One more chunk, scanned after what was kept of the text before it. */
  lemma ScanGrows(feed: Feeder, scan: Scanner, before: string, chunk: string, found: seq<Detail>, suite: string)
    requires Continues(scan) && FeedsTo(feed, scan) && AreFrom(found, scan(before).outs)
    ensures var fed := feed(scan(before).rest, chunk);
            && AreFrom(found + DetailsFor(suite, fed.outs), scan(before + Clean(chunk)).outs)
            && fed.rest == scan(before + Clean(chunk)).rest
  {
    var fed := feed(scan(before).rest, chunk);
    assert FeedsAt(feed, scan, scan(before).rest, chunk) && ContinuesAt(scan, before, Clean(chunk));
  }

  /** What the scanner received with the first `n` rows, cleaned. */
  function Received(rows: seq<Row>, n: nat): string
    requires n <= |rows|
  {
    if n == 0 then ""
    else Received(rows, n - 1) + if rows[n - 1].test == "" then "" else Clean(rows[n - 1].output)
  }

  lemma {:induction false} ReceivedIs(rows: seq<Row>, n: nat)
    requires n <= |rows|
    ensures Received(rows, n) == Concat(CleanEach(OutputsOf(rows, n)))
  {
    if n > 0 {
      ReceivedIs(rows, n - 1);
      var before, c := OutputsOf(rows, n - 1), rows[n - 1].output;
      if rows[n - 1].test == "" {
        assert OutputsOf(rows, n) == before;
        assert Received(rows, n) == Received(rows, n - 1);
      } else {
        ConcatLast(before, c);
        assert OutputsOf(rows, n) == before + [c];
      }
    }
  }

  lemma FoundGrows(feed: Feeder, rows: seq<Row>, n: nat)
    requires n < |rows|
    ensures var row, fed := rows[n], feed(Kept(feed, rows, n), rows[n].output);
            && Kept(feed, rows, n + 1) == (if row.test == "" then Kept(feed, rows, n) else fed.rest)
            && Found(feed, rows, n + 1)
               == Found(feed, rows, n) + (if row.test == "" then [] else DetailsFor(row.test, fed.outs))
            && Received(rows, n + 1) == Received(rows, n) + (if row.test == "" then "" else Clean(row.output))
  {
  }

  /** Up to row `n` the feeder has kept and found what one scan over all it received keeps and finds. */
  ghost predicate IsOneScan(scan: Scanner, received: string, kept: string, found: seq<Detail>) {
    AreFrom(found, scan(received).outs) && kept == scan(received).rest
  }

  lemma RowIsScanned(feed: Feeder, scan: Scanner, received: string, kept: string, found: seq<Detail>, row: Row)
    requires Continues(scan) && FeedsTo(feed, scan) && IsOneScan(scan, received, kept, found)
    ensures var fed := feed(kept, row.output);
            IsOneScan(scan, received + (if row.test == "" then "" else Clean(row.output)),
                      if row.test == "" then kept else fed.rest,
                      found + (if row.test == "" then [] else DetailsFor(row.test, fed.outs)))
  {
    if row.test == "" {
      assert received + "" == received && found + [] == found;
    } else {
      ScanGrows(feed, scan, received, row.output, found, row.test);
    }
  }

  lemma NothingScanned(feed: Feeder, scan: Scanner, rows: seq<Row>)
    requires scan("") == Fed([], "")
    ensures IsOneScan(scan, Received(rows, 0), Kept(feed, rows, 0), Found(feed, rows, 0))
  {
  }

  lemma {:induction false} FeedIsOneScan(feed: Feeder, scan: Scanner, rows: seq<Row>, n: nat)
    requires Continues(scan) && scan("") == Fed([], "") && FeedsTo(feed, scan) && n <= |rows|
    ensures IsOneScan(scan, Received(rows, n), Kept(feed, rows, n), Found(feed, rows, n))
  {
    if n == 0 {
      NothingScanned(feed, scan, rows);
    } else {
      FeedIsOneScan(feed, scan, rows, n - 1);
      FoundGrows(feed, rows, n - 1);
      RowIsScanned(feed, scan, Received(rows, n - 1), Kept(feed, rows, n - 1), Found(feed, rows, n - 1), rows[n - 1]);
    }
  }

  /** The whole log is one scan: the details found in the output of all rows are the results of a single
      scan over the cleaned chunks put together, in order, and what it keeps is what is kept at the end. */
  lemma FoldIsOneScan(decode: Decoder, rows: seq<Row>, n: nat)
    requires n <= |rows|
    ensures AreFrom(Found(FeederOf(decode), rows, n), Batch(decode, Received(rows, n)).outs)
    ensures Kept(FeederOf(decode), rows, n) == Batch(decode, Received(rows, n)).rest
  {
    ScannerContinues(decode);
    var feed, scan := FeederOf(decode), ScannerOf(decode);
    forall kept: string, chunk: string ensures FeedsAt(feed, scan, kept, chunk) {
    }
    FeedIsOneScan(feed, scan, rows, n);
  }

  /** And as long as no row's output ends inside an escape sequence, it is the scan of the cleaned log. */
  lemma FoldIsScanOfLog(decode: Decoder, rows: seq<Row>)
    requires !SomeCutInEscape(OutputsOf(rows, |rows|))
    ensures AreFrom(Found(FeederOf(decode), rows, |rows|),
                    Batch(decode, Clean(Concat(OutputsOf(rows, |rows|)))).outs)
  {
    FoldIsOneScan(decode, rows, |rows|);
    ReceivedIs(rows, |rows|);
    CleanChunks(OutputsOf(rows, |rows|));
  }

  lemma MoreOfBoth(all: seq<Detail>, found: seq<Detail>, owns: seq<Detail>, more: seq<Detail>, own: seq<Detail>)
    requires multiset(all) == multiset(found) + multiset(owns)
    ensures multiset(all + more + own) == multiset(found + more) + multiset(owns + own)
  {
  }

  /** Row `n` adds a detail for the test it completes: no output of the test has held results so far; or it
      fails, nothing pending failed, and no result in its output did. */
  ghost predicate AddsOwnAt(sts: seq<FoldState>, feed: Feeder, rows: seq<Row>, n: nat)
    requires n < |rows| && |sts| == |rows| + 1
  {
    && CompletesTest(rows[n])
    && (|| !HeldResults(feed, rows, n + 1, rows[n].test)
        || (rows[n].action == Fail && sts[n].pending.failed == 0 && NoneFailed(OutsAt(feed, rows, n))))
  }

  /** The details that the first `n` rows add for the tests they complete. */
  ghost function Owns(sts: seq<FoldState>, feed: Feeder, rows: seq<Row>, n: nat): seq<Detail>
    requires n <= |rows| && |sts| == |rows| + 1
  {
    if n == 0 then []
    else Owns(sts, feed, rows, n - 1) + if AddsOwnAt(sts, feed, rows, n - 1) then [OwnDetail(rows[n - 1])] else []
  }

  /** The scanner keeps `kept`, and the details are those found in output together with `owns`. */
  ghost predicate LeftBehind(st: FoldState, kept: string, found: seq<Detail>, owns: seq<Detail>) {
    st.kept == kept && multiset(st.tests) == multiset(found) + multiset(owns)
  }

  lemma RowLeaves(feed: Feeder, st: FoldState, row: Row, kept: string, found: seq<Detail>, owns: seq<Detail>)
    requires LeftBehind(st, kept, found, owns)
    ensures var fed := feed(kept, row.output);
            LeftBehind(Step(feed, st, row), if row.test == "" then kept else fed.rest,
                       found + (if row.test == "" then [] else DetailsFor(row.test, fed.outs)),
                       owns + Own(feed, st, row))
  {
    var more := if row.test == "" then [] else DetailsFor(row.test, feed(kept, row.output).outs);
    RowAdds(feed, st, row);
    MoreOfBoth(st.tests, found, owns, more, Own(feed, st, row));
  }

  /** After `n` rows the details are those found in output and the own ones of the tests. */
  ghost predicate AccountsFor(sts: seq<FoldState>, feed: Feeder, rows: seq<Row>, n: nat)
    requires n <= |rows| && |sts| == |rows| + 1
  {
    LeftBehind(sts[n], Kept(feed, rows, n), Found(feed, rows, n), Owns(sts, feed, rows, n))
  }

  lemma NothingLeftYet(sts: seq<FoldState>, feed: Feeder, rows: seq<Row>)
    requires IsTrace(sts, feed, rows)
    ensures AccountsFor(sts, feed, rows, 0)
  {
  }

  lemma {:induction false} TraceEmbeds(sts: seq<FoldState>, feed: Feeder, rows: seq<Row>, n: nat, name: string)
    requires IsTrace(sts, feed, rows) && n <= |rows|
    ensures sts[n].kept == Kept(feed, rows, n)
    ensures name in sts[n].embedded <==> HeldResults(feed, rows, n, name)
  {
    if n > 0 {
      TraceEmbeds(sts, feed, rows, n - 1, name);
      assert StepsAt(sts, feed, rows, n - 1);
      RowEmbeds(feed, sts[n - 1], rows[n - 1]);
      HeldStep(feed, rows, n - 1, name);
    }
  }

  lemma OwnAtRow(sts: seq<FoldState>, feed: Feeder, rows: seq<Row>, n: nat)
    requires IsTrace(sts, feed, rows) && n < |rows|
    ensures Own(feed, sts[n], rows[n]) == if AddsOwnAt(sts, feed, rows, n) then [OwnDetail(rows[n])] else []
  {
    TraceEmbeds(sts, feed, rows, n, rows[n].test);
    HeldStep(feed, rows, n, rows[n].test);
  }

  lemma RowLeavesAt(sts: seq<FoldState>, feed: Feeder, rows: seq<Row>, n: nat)
    requires IsTrace(sts, feed, rows) && n < |rows| && AccountsFor(sts, feed, rows, n)
    ensures AccountsFor(sts, feed, rows, n + 1)
  {
    assert StepsAt(sts, feed, rows, n);
    RowLeaves(feed, sts[n], rows[n], Kept(feed, rows, n), Found(feed, rows, n), Owns(sts, feed, rows, n));
    OwnAtRow(sts, feed, rows, n);
    FoundGrows(feed, rows, n);
  }

  /** That holds after every row. `sts` are the states of the fold. */
  lemma {:induction false} DetailsAreFoundOrOwn(sts: seq<FoldState>, feed: Feeder, rows: seq<Row>, n: nat)
    requires IsTrace(sts, feed, rows) && n <= |rows|
    ensures AccountsFor(sts, feed, rows, n)
  {
    if n == 0 {
      NothingLeftYet(sts, feed, rows);
    } else {
      DetailsAreFoundOrOwn(sts, feed, rows, n - 1);
      RowLeavesAt(sts, feed, rows, n - 1);
    }
  }

  /** At most one own detail for every completion of a test. */
  lemma {:induction false} OwnsAreFew(sts: seq<FoldState>, feed: Feeder, rows: seq<Row>, n: nat, name: string,
                                      v: Verdict)
    requires n <= |rows| && |sts| == |rows| + 1
    ensures OwnTally(Owns(sts, feed, rows, n), name, v) <= Completions(rows, name, n)
  {
    if n > 0 {
      var front := Owns(sts, feed, rows, n - 1);
      var own := if AddsOwnAt(sts, feed, rows, n - 1) then [OwnDetail(rows[n - 1])] else [];
      OwnsAreFew(sts, feed, rows, n - 1, name, v);
      OwnAppend(front, own, name, v, |own|);
    }
  }

  /** How often the first `n` rows complete this test. */
  function Completions(rows: seq<Row>, name: string, n: nat): nat
    requires n <= |rows|
  {
    if n == 0 then 0
    else Completions(rows, name, n - 1) + if CompletesTest(rows[n - 1]) && rows[n - 1].test == name then 1 else 0
  }
}
