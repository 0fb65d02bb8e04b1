/** The report of an end-to-end run as a whole, from the rows of its log to the calls to Qase. */
module RunReport {
  import opened CaseReport
  import opened EventFold
  import opened FoldDetails
  import opened LogReport
  import opened LogScanner
  import opened Options
  import opened Regroup
  import opened Streaming

  // ---- A failed detail and its case ----

  lemma {:induction false} DetailsOfHas(tests: seq<Detail>, name: string, n: nat, k: nat) returns (j: nat)
    requires k < n <= |tests| && tests[k].suite == name
    ensures j < |DetailsOf(tests, name, n)| && DetailsOf(tests, name, n)[j] == tests[k]
  {
    var front := DetailsOf(tests, name, n - 1);
    if k == n - 1 {
      j := |front|;
    } else {
      j := DetailsOfHas(tests, name, n - 1, k);
    }
  }

  lemma {:induction false} GroupsHave(tests: seq<Detail>, suites: seq<Suite>, n: nat, s: nat, k: nat) returns (j: nat)
    requires s < n <= |suites| && k < |tests| && tests[k].suite == suites[s].name
    ensures j < |Groups(tests, suites, n)| && Groups(tests, suites, n)[j] == tests[k]
  {
    var front := Groups(tests, suites, n - 1);
    if s == n - 1 {
      j := DetailsOfHas(tests, suites[s].name, |tests|, k);
      j := |front| + j;
    } else {
      j := GroupsHave(tests, suites, n - 1, s, k);
    }
  }

  lemma {:induction false} SelectHas(suites: seq<Suite>, product: string, arch: string, n: nat, k: nat) returns (s: nat)
    requires k < n <= |suites| && Included(suites[k].name, product, arch)
    ensures s < |Select(suites, product, arch, n)| && Select(suites, product, arch, n)[s].name == suites[k].name
  {
    if k == n - 1 {
      s := |Select(suites, product, arch, n - 1)|;
    } else {
      s := SelectHas(suites, product, arch, n - 1, k);
    }
  }

  ghost predicate HasSuite(suites: seq<Suite>, name: string) {
    exists k :: 0 <= k < |suites| && suites[k].name == name
  }

  /** A failed detail of an included suite is a failed case of the report, with one of the suite's ids if
      there are any. */
  lemma FailedCase(pd: Processed, tests: seq<Detail>, suites: seq<Suite>, product: string, arch: string, ids: CaseIds,
                   name: string)
    returns (j: nat)
    requires IsRegrouping(pd, tests, Select(suites, product, arch, |suites|), ids)
    requires HasFailed(tests, name) && HasSuite(suites, name) && Included(name, product, arch)
    ensures var ds := AllDetails(pd.summary);
            && j < |ds| && IsFailed(ds[j], name) && (ids(name) != [] ==> ds[j].caseId in ids(name))
  {
    var r := Select(suites, product, arch, |suites|);
    var k :| 0 <= k < |tests| && IsFailed(tests[k], name);
    var m :| 0 <= m < |suites| && suites[m].name == name;
    var s := SelectHas(suites, product, arch, |suites|, m);
    j := GroupsHave(tests, r, |r|, s, k);
    CasesAreGroups(pd.summary, r, tests, ids, |r|);
    assert IdentifiedAs(AllDetails(pd.summary)[j], Groups(tests, r, |r|)[j], ids);
  }

  // ---- The run ----

  predicate AllReal(ids: seq<int>) { ids != [] && forall i :: 0 <= i < |ids| ==> 0 < ids[i] }

  /** The results submitted have a failed one for one of these ids. */
  ghost predicate ReportsOneFailed(call: Call, ids: seq<int>) {
    exists i :: 0 <= i < |ids| && ReportsFailed(call, ids[i])
  }

  /** Row `i` is the last completion of an included test, a failure, and it is not masked. */
  ghost predicate FailsOpenly(decode: Decoder, rows: seq<Row>, i: nat, product: string, arch: string)
    requires i < |rows|
  {
    && FailsIncluded(rows, i, product, arch)
    && (!Masked(FeederOf(decode), rows, i) || OneAtATime(rows, |rows|))
  }

  /** The regrouping of the folded rows. */
  ghost predicate IsReportOf(pd: Processed, decode: Decoder, rows: seq<Row>, product: string, arch: string,
                             ids: CaseIds)
  {
    var st := Run(FeederOf(decode), rows, |rows|);
    IsRegrouping(pd, st.tests, Select(st.suites, product, arch, |st.suites|), ids)
  }

  /** Every test that fails openly and has case ids is submitted as failed for one of them. */
  ghost predicate ReportsOpenFailures(call: Call, decode: Decoder, rows: seq<Row>, product: string, arch: string,
                                      ids: CaseIds)
  {
    forall i | 0 <= i < |rows| && FailsOpenly(decode, rows, i, product, arch) && AllReal(ids(rows[i].test)) ::
      ReportsOneFailed(call, ids(rows[i].test))
  }

  /** A test that fails openly and has case ids is reported as failed for one of them. */
  lemma OpenFailureIsReported(decode: Decoder, rows: seq<Row>, i: nat, product: string, arch: string, ids: CaseIds,
                              pd: Processed, calls: seq<Call>, created: Created, submitted: bool)
    requires i < |rows| && FailsOpenly(decode, rows, i, product, arch) && AllReal(ids(rows[i].test))
    requires IsReportOf(pd, decode, rows, product, arch, ids)
    requires IsReport(calls, AllDetails(pd.summary), created, submitted) && IsUsable(created)
    ensures ReportsOneFailed(calls[1], ids(rows[i].test))
  {
    var feed, name := FeederOf(decode), rows[i].test;
    var st := Run(feed, rows, |rows|);
    if !Masked(feed, rows, i) { FailedDetailStays(feed, rows, i); } else { OneAtATimeShowsFailure(feed, rows, i); }
    FailureStaysVisible(feed, rows, i, |rows|);
    var j := FailedCase(pd, st.tests, st.suites, product, arch, ids, name);
    var id := AllDetails(pd.summary)[j].caseId;
    var k :| 0 <= k < |ids(name)| && ids(name)[k] == id;
    FailedDetailIsReported(calls, AllDetails(pd.summary), created, submitted, j);
    assert ReportsFailed(calls[1], ids(name)[k]);
  }

  lemma OpenFailuresAreReported(decode: Decoder, rows: seq<Row>, product: string, arch: string, ids: CaseIds,
                                pd: Processed, calls: seq<Call>, created: Created, submitted: bool)
    requires IsReportOf(pd, decode, rows, product, arch, ids)
    requires IsReport(calls, AllDetails(pd.summary), created, submitted) && IsUsable(created)
    ensures ReportsOpenFailures(calls[1], decode, rows, product, arch, ids)
  {
    forall i | 0 <= i < |rows| && FailsOpenly(decode, rows, i, product, arch) && AllReal(ids(rows[i].test))
      ensures ReportsOneFailed(calls[1], ids(rows[i].test))
    {
      OpenFailureIsReported(decode, rows, i, product, arch, ids, pd, calls, created, submitted);
    }
  }

  /** `log` is what was read of it, if anything. A run is reported from the regrouped log, and every test
      that fails openly and has case ids is submitted as failed for one of them. */
  method ReportE2ETestRun(decode: Decoder, log: Option<seq<Row>>, product: string, ciArch: string, ids: CaseIds,
                          created: Created, submitted: bool, completed: bool, visit: seq<int> -> seq<int>)
    returns (calls: seq<Call>, outcome: Outcome, ghost pd: Option<Processed>)
    requires Permutes(visit)
    ensures pd.None? <==> log.None? || log.value == []
    ensures pd.None? ==> calls == [] && outcome == Error
    ensures pd.Some? ==> IsReportOf(pd.value, decode, log.value, product, DefaultArch(ciArch), ids)
    ensures pd.Some? ==> IsReport(calls, AllDetails(pd.value.summary), created, submitted)
    ensures pd.Some? && IsUsable(created) ==>
              ReportsOpenFailures(calls[1], decode, log.value, product, DefaultArch(ciArch), ids)
    ensures outcome == Panic <==> pd.Some? && created.WithoutId?
    ensures outcome.Reported? <==> calls != [] && calls[|calls| - 1].CompleteRun? && completed
    ensures outcome.Reported? ==> created == WithId(outcome.runId)
  {
    calls, outcome, pd := [], Error, None;
    if log.None? {
      return;
    }
    var report := ProcessTestData(decode, log.value, product, ciArch, ids);
    pd := report;
    if report.None? {
      return;
    }
    calls, outcome := ReportSummary(report.value.summary, created, submitted, completed, visit);
    if IsUsable(created) {
      OpenFailuresAreReported(decode, log.value, product, DefaultArch(ciArch), ids, report.value, calls, created,
                              submitted);
    }
  }
}
