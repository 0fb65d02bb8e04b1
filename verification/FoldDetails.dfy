/** What the fold records of each row, and how the counters of a suite relate to the details of its own
    group: exactly, row by row; and in logs in which tests run one at a time. */
module FoldDetails {
  import opened EventFold
  import opened Streaming

  // ---- What a row adds ----

  function DetailsFor(suite: string, outs: seq<TestResult>): seq<Detail> {
    seq(|outs|, k requires 0 <= k < |outs| => DetailOf(suite, outs[k]))
  }

  predicate NoneFailed(outs: seq<TestResult>) { forall k :: 0 <= k < |outs| ==> !outs[k].verdict.Failed? }

  /** The row adds a detail for the test it completes: neither this output nor an earlier one of the test
      held results; or it failed, and nothing pending did, the results in this output included. */
  predicate AddsOwn(feed: Feeder, st: FoldState, row: Row) {
    && CompletesTest(row)
    && var outs := feed(st.kept, row.output).outs;
       || (row.test !in st.embedded && outs == [])
       || (row.action.Fail? && st.pending.failed == 0 && NoneFailed(outs))
  }

  function OwnDetail(row: Row): Detail
    requires CompletesTest(row)
  {
    Detail(0, row.test, row.test, row.elapsed, ActionToState(row.action))
  }

  function Own(feed: Feeder, st: FoldState, row: Row): seq<Detail> {
    if AddsOwn(feed, st, row) then [OwnDetail(row)] else []
  }

  lemma {:induction false} RecordTests(st: FoldState, suite: string, outs: seq<TestResult>, n: nat)
    requires n <= |outs|
    ensures Record(st, suite, outs, n).tests == st.tests + DetailsFor(suite, outs)[..n]
    ensures Record(st, suite, outs, n).kept == st.kept
  {
    if n > 0 {
      RecordTests(st, suite, outs, n - 1);
      var ds := DetailsFor(suite, outs);
      assert ds[..n] == ds[..n - 1] + [DetailOf(suite, outs[n - 1])];
    }
  }

  /** Counters with one more for each of the first `n` details. */
  function Plus(s: Status, ds: seq<Detail>, n: nat): Status
    requires n <= |ds|
  {
    Status(s.failed + TallyTo(ds, Failed, n), s.passed + TallyTo(ds, Passed, n), s.skipped + TallyTo(ds, Skipped, n))
  }

  lemma {:induction false} RecordPending(st: FoldState, suite: string, outs: seq<TestResult>, n: nat)
    requires n <= |outs|
    ensures Record(st, suite, outs, n).pending == Plus(st.pending, DetailsFor(suite, outs), n)
  {
    if n > 0 { RecordPending(st, suite, outs, n - 1); }
  }

  lemma {:induction false} NoneFailedTo(suite: string, outs: seq<TestResult>, n: nat)
    requires n <= |outs|
    ensures TallyTo(DetailsFor(suite, outs), Failed, n) == 0 <==> NoneFailed(outs[..n])
  {
    if n > 0 {
      NoneFailedTo(suite, outs, n - 1);
      assert outs[..n] == outs[..n - 1] + [outs[n - 1]];
      assert outs[..n][n - 1] == outs[n - 1];
      assert forall k :: 0 <= k < n - 1 ==> outs[..n - 1][k] == outs[..n][k];
    }
  }

  /** The state in which the row's own detail is decided. */
  lemma OutputTaken(feed: Feeder, st: FoldState, row: Row)
    ensures var fed, a := feed(st.kept, row.output), TakeOutput(feed, st, row);
            && a.tests == st.tests + DetailsFor(row.test, fed.outs)
            && a.pending == Plus(st.pending, DetailsFor(row.test, fed.outs), |fed.outs|)
            && (a.pending.failed == 0 <==> st.pending.failed == 0 && NoneFailed(fed.outs))
            && a.embedded == st.embedded + (if fed.outs == [] then {} else {row.test})
            && a.current == row.test && a.kept == fed.rest
            && a.suites == st.suites && a.processed == st.processed
  {
    var fed := feed(st.kept, row.output);
    var outs, n := fed.outs, |fed.outs|;
    var st' := Embed(st.(current := row.test, kept := fed.rest), row.test, outs);
    RecordTests(st', row.test, outs, n);
    RecordPending(st', row.test, outs, n);
    RecordFrame(st', row.test, outs, n);
    NoneFailedTo(row.test, outs, n);
    assert DetailsFor(row.test, outs)[..n] == DetailsFor(row.test, outs) && outs[..n] == outs;
  }

  /** What one row adds: the details found in its output, then at most one for its test. */
  lemma RowAdds(feed: Feeder, st: FoldState, row: Row)
    ensures var fed, next := feed(st.kept, row.output), Step(feed, st, row);
            && next.tests
               == st.tests + (if row.test == "" then [] else DetailsFor(row.test, fed.outs)) + Own(feed, st, row)
            && next.kept == if row.test == "" then st.kept else fed.rest
  {
    if row.test != "" { OutputTaken(feed, st, row); }
    assert forall x: seq<Detail> :: x + [] == x;
  }

  /** State `i + 1` is what row `i` makes of state `i`. */
  ghost predicate StepsAt(sts: seq<FoldState>, feed: Feeder, rows: seq<Row>, i: nat)
    requires i < |rows| && |sts| == |rows| + 1
  {
    sts[i + 1] == Step(feed, sts[i], rows[i])
  }

  /** The states before the first row and after every row. */
  ghost predicate IsTrace(sts: seq<FoldState>, feed: Feeder, rows: seq<Row>) {
    |sts| == |rows| + 1 && sts[0] == INIT && forall i :: 0 <= i < |rows| ==> StepsAt(sts, feed, rows, i)
  }

  ghost predicate IsRunAt(sts: seq<FoldState>, feed: Feeder, rows: seq<Row>, i: nat)
    requires i <= |rows| && |sts| == |rows| + 1
  {
    sts[i] == Run(feed, rows, i)
  }

  lemma TraceOf(feed: Feeder, rows: seq<Row>) returns (sts: seq<FoldState>)
    ensures IsTrace(sts, feed, rows) && forall i :: 0 <= i <= |rows| ==> IsRunAt(sts, feed, rows, i)
  {
    sts := seq(|rows| + 1, i requires 0 <= i < |rows| + 1 => Run(feed, rows, i));
    forall i | 0 <= i < |rows| ensures StepsAt(sts, feed, rows, i) {
    }
  }

  lemma {:induction false} TraceGrows(sts: seq<FoldState>, feed: Feeder, rows: seq<Row>, m: nat, n: nat)
    requires IsTrace(sts, feed, rows) && m <= n <= |rows|
    ensures sts[m].tests <= sts[n].tests
  {
    if m < n {
      TraceGrows(sts, feed, rows, m, n - 1);
      assert StepsAt(sts, feed, rows, n - 1);
      RowAdds(feed, sts[n - 1], rows[n - 1]);
    }
  }

  lemma TestsGrowOn(feed: Feeder, rows: seq<Row>, m: nat, n: nat)
    requires m <= n <= |rows|
    ensures Run(feed, rows, m).tests <= Run(feed, rows, n).tests
  {
    var sts := TraceOf(feed, rows);
    TraceGrows(sts, feed, rows, m, n);
    assert IsRunAt(sts, feed, rows, m) && IsRunAt(sts, feed, rows, n);
  }

  lemma {:induction false} TallyAppend(ds: seq<Detail>, es: seq<Detail>, v: Verdict, n: nat)
    requires n <= |es|
    ensures TallyTo(ds + es, v, |ds| + n) == Tally(ds, v) + TallyTo(es, v, n)
  {
    if n == 0 { TallyLocal(ds, ds + es, v, |ds|); } else { TallyAppend(ds, es, v, n - 1); }
  }

  /** The details that the row adds. */
  function Added(feed: Feeder, st: FoldState, row: Row): seq<Detail> {
    (if row.test == "" then [] else DetailsFor(row.test, feed(st.kept, row.output).outs)) + Own(feed, st, row)
  }

  lemma AddedAre(feed: Feeder, st: FoldState, row: Row)
    ensures Prepared(feed, st, row).tests == Step(feed, st, row).tests == st.tests + Added(feed, st, row)
    ensures forall k :: 0 <= k < |Added(feed, st, row)| ==>
              row.test != "" && Added(feed, st, row)[k].suite == row.test
  {
    RowAdds(feed, st, row);
    var found := if row.test == "" then [] else DetailsFor(row.test, feed(st.kept, row.output).outs);
    assert st.tests + (found + Own(feed, st, row)) == st.tests + found + Own(feed, st, row);
  }

  /** All of them are pending before the row's flush. */
  lemma AddedArePending(feed: Feeder, st: FoldState, row: Row, v: Verdict, lost: nat)
    requires Balanced(st, v, lost)
    ensures Of(Prepared(feed, st, row).pending, v) == Of(st.pending, v) + Tally(Added(feed, st, row), v)
  {
    var more := Added(feed, st, row);
    AddedAre(feed, st, row);
    PreparedBalances(feed, st, row, v, lost);
    PreparedFrame(feed, st, row);
    TallyAppend(st.tests, more, v, |more|);
  }

  lemma RowRecords(feed: Feeder, rows: seq<Row>, n: nat, v: Verdict)
    requires n < |rows|
    ensures var st, row := Run(feed, rows, n), rows[n];
            Of(Prepared(feed, st, row).pending, v) == Of(st.pending, v) + Tally(Added(feed, st, row), v)
  {
    CountsAreConserved(feed, rows, n, v);
    AddedArePending(feed, Run(feed, rows, n), rows[n], v, Sum(Losses(feed, rows, n, v)));
  }

  // ---- The details of one suite ----

  /** How many of the first `n` details of this suite have this verdict. */
  function OwnTo(ds: seq<Detail>, name: string, v: Verdict, n: nat): nat
    requires n <= |ds|
  {
    if n == 0 then 0
    else OwnTo(ds, name, v, n - 1) + if ds[n - 1].suite == name && ds[n - 1].status == v then 1 else 0
  }

  /** How many details of this suite have this verdict. */
  function OwnTally(ds: seq<Detail>, name: string, v: Verdict): nat { OwnTo(ds, name, v, |ds|) }

  /** The suite has a detail that failed. */
  ghost predicate HasFailed(ds: seq<Detail>, name: string) {
    exists k :: 0 <= k < |ds| && IsFailed(ds[k], name)
  }

  predicate IsFailed(d: Detail, name: string) { d.suite == name && d.status == Failed }

  lemma {:induction false} OwnLocal(ds: seq<Detail>, es: seq<Detail>, name: string, v: Verdict, n: nat)
    requires n <= |ds|
    ensures OwnTo(ds + es, name, v, n) == OwnTo(ds, name, v, n)
  {
    if n > 0 { OwnLocal(ds, es, name, v, n - 1); }
  }

  lemma {:induction false} OwnAppend(ds: seq<Detail>, es: seq<Detail>, name: string, v: Verdict, n: nat)
    requires n <= |es|
    ensures OwnTo(ds + es, name, v, |ds| + n) == OwnTally(ds, name, v) + OwnTo(es, name, v, n)
  {
    if n == 0 { OwnLocal(ds, es, name, v, |ds|); } else { OwnAppend(ds, es, name, v, n - 1); }
  }

  lemma {:induction false} OwnWithin(ds: seq<Detail>, name: string, v: Verdict, m: nat, n: nat)
    requires m <= n <= |ds|
    ensures OwnTo(ds, name, v, m) <= OwnTo(ds, name, v, n) && OwnTo(ds, name, v, n) <= TallyTo(ds, v, n)
    ensures OwnTo(ds, name, v, n) - OwnTo(ds, name, v, m) <= TallyTo(ds, v, n) - TallyTo(ds, v, m)
  {
    if n > 0 { OwnWithin(ds, name, v, if m < n then m else n - 1, n - 1); }
  }

  /** Where all details are of one suite. */
  lemma {:induction false} OwnOfOne(es: seq<Detail>, name: string, other: string, v: Verdict, n: nat)
    requires n <= |es| && forall k :: 0 <= k < |es| ==> es[k].suite == name
    ensures OwnTo(es, other, v, n) == if other == name then TallyTo(es, v, n) else 0
  {
    if n > 0 { OwnOfOne(es, name, other, v, n - 1); }
  }

  lemma {:induction false} OwnFailed(ds: seq<Detail>, name: string, n: nat)
    requires n <= |ds| && 0 < OwnTo(ds, name, Failed, n)
    ensures HasFailed(ds, name)
  {
    if IsFailed(ds[n - 1], name) {
    } else {
      OwnFailed(ds, name, n - 1);
    }
  }

  // ---- What the counters of a suite count ----

  /** How many details there were at the last flush among the first `n` rows. */
  function Mark(feed: Feeder, rows: seq<Row>, n: nat): nat
    requires n <= |rows|
  {
    if n == 0 then 0
    else if Flushes(Run(feed, rows, n - 1), rows[n - 1]) then |Run(feed, rows, n).tests|
    else Mark(feed, rows, n - 1)
  }

  /** The details from `mark` on are the pending ones. */
  ghost predicate IsTail(st: FoldState, mark: nat, v: Verdict) {
    mark <= |st.tests| && Tally(st.tests, v) == TallyTo(st.tests, v, mark) + Of(st.pending, v)
  }

  lemma TailStep(feed: Feeder, st: FoldState, row: Row, mark: nat, v: Verdict, lost: nat)
    requires IsTail(st, mark, v) && Balanced(st, v, lost)
    ensures IsTail(Prepared(feed, st, row), mark, v)
    ensures TallyTo(Prepared(feed, st, row).tests, v, mark) == TallyTo(st.tests, v, mark)
    ensures IsTail(Step(feed, st, row), if Flushes(st, row) then |Step(feed, st, row).tests| else mark, v)
  {
    var more := Added(feed, st, row);
    AddedAre(feed, st, row);
    AddedArePending(feed, st, row, v, lost);
    TallyAppend(st.tests, more, v, |more|);
    TallyLocal(st.tests, st.tests + more, v, mark);
  }

  lemma TailAt(feed: Feeder, rows: seq<Row>, n: nat, v: Verdict)
    requires n < |rows| && IsTail(Run(feed, rows, n), Mark(feed, rows, n), v)
    ensures IsTail(Run(feed, rows, n + 1), Mark(feed, rows, n + 1), v)
  {
    CountsAreConserved(feed, rows, n, v);
    TailStep(feed, Run(feed, rows, n), rows[n], Mark(feed, rows, n), v, Sum(Losses(feed, rows, n, v)));
    assert Run(feed, rows, n + 1) == Step(feed, Run(feed, rows, n), rows[n]);
  }

  /** What is pending is what was recorded since the last flush. */
  lemma {:induction false} PendingIsTail(feed: Feeder, rows: seq<Row>, n: nat, v: Verdict)
    requires n <= |rows|
    ensures IsTail(Run(feed, rows, n), Mark(feed, rows, n), v)
  {
    if n > 0 {
      PendingIsTail(feed, rows, n - 1, v);
      TailAt(feed, rows, n - 1, v);
    }
  }

  /** The record counts the details with this verdict from `lo` to `hi`, of whatever suite. */
  ghost predicate CountsFrom(s: Suite, ds: seq<Detail>, lo: nat, hi: nat, v: Verdict) {
    lo <= hi <= |ds| && Of(s.counts, v) == TallyTo(ds, v, hi) - TallyTo(ds, v, lo)
  }

  /** Every record counts what was recorded between the flush before its own and its own. */
  lemma RecordCountsInterval(feed: Feeder, rows: seq<Row>, k: nat, v: Verdict) returns (i: nat)
    requires k < |Run(feed, rows, |rows|).suites|
    ensures i < |rows| && Makes(feed, rows, i, Run(feed, rows, |rows|).suites[k])
    ensures CountsFrom(Run(feed, rows, |rows|).suites[k], Run(feed, rows, |rows|).tests,
                       Mark(feed, rows, i), |Run(feed, rows, i + 1).tests|, v)
  {
    i := EveryRecordWasFlushed(feed, rows, |rows|, k);
    MadeFromInterval(feed, rows, i, v);
  }

  lemma PreparedIsTail(feed: Feeder, rows: seq<Row>, i: nat, v: Verdict)
    requires i < |rows|
    ensures IsTail(Prepared(feed, Run(feed, rows, i), rows[i]), Mark(feed, rows, i), v)
  {
    PendingIsTail(feed, rows, i, v);
    CountsAreConserved(feed, rows, i, v);
    TailStep(feed, Run(feed, rows, i), rows[i], Mark(feed, rows, i), v, Sum(Losses(feed, rows, i, v)));
  }

  lemma TailIsInterval(a: FoldState, ds: seq<Detail>, lo: nat, v: Verdict)
    requires IsTail(a, lo, v) && a.tests <= ds
    ensures lo <= |a.tests| && Of(a.pending, v) == TallyTo(ds, v, |a.tests|) - TallyTo(ds, v, lo)
  {
    TallyLocal(a.tests, ds, v, |a.tests|);
    TallyLocal(a.tests, ds, v, lo);
  }

  lemma MadeFromInterval(feed: Feeder, rows: seq<Row>, i: nat, v: Verdict)
    requires i < |rows|
    ensures CountsFrom(Completed(Prepared(feed, Run(feed, rows, i), rows[i]), rows[i]), Run(feed, rows, |rows|).tests,
                       Mark(feed, rows, i), |Run(feed, rows, i + 1).tests|, v)
  {
    PreparedIsTail(feed, rows, i, v);
    AddedAre(feed, Run(feed, rows, i), rows[i]);
    TestsGrowOn(feed, rows, i + 1, |rows|);
    TailIsInterval(Prepared(feed, Run(feed, rows, i), rows[i]), Run(feed, rows, |rows|).tests, Mark(feed, rows, i), v);
  }

  /** The details from `lo` to `hi` with this verdict that are not of this suite. */
  function Foreign(ds: seq<Detail>, name: string, v: Verdict, lo: nat, hi: nat): nat
    requires lo <= hi <= |ds|
  {
    OwnWithin(ds, name, v, lo, hi);
    (TallyTo(ds, v, hi) - TallyTo(ds, v, lo)) - (OwnTo(ds, name, v, hi) - OwnTo(ds, name, v, lo))
  }

  /** The details of this suite with this verdict that are not from `lo` to `hi`. */
  function OwnOutside(ds: seq<Detail>, name: string, v: Verdict, lo: nat, hi: nat): nat
    requires lo <= hi <= |ds|
  {
    OwnWithin(ds, name, v, hi, |ds|);
    OwnWithin(ds, name, v, lo, hi);
    OwnTally(ds, name, v) - (OwnTo(ds, name, v, hi) - OwnTo(ds, name, v, lo))
  }

  /** So the counter of a record is the number of details with that verdict in the suite's own group if
      and only if the details of other suites counted with it are as many as the details of its own that
      are not. `i` is the row that made the record. */
  lemma SuiteMatchesIff(feed: Feeder, rows: seq<Row>, k: nat, v: Verdict) returns (i: nat)
    requires k < |Run(feed, rows, |rows|).suites|
    ensures i < |rows| && Makes(feed, rows, i, Run(feed, rows, |rows|).suites[k])
    ensures var s, ds := Run(feed, rows, |rows|).suites[k], Run(feed, rows, |rows|).tests;
            var lo, hi := Mark(feed, rows, i), |Run(feed, rows, i + 1).tests|;
            && lo <= hi <= |ds|
            && (Of(s.counts, v) == OwnTally(ds, s.name, v)
                <==> Foreign(ds, s.name, v, lo, hi) == OwnOutside(ds, s.name, v, lo, hi))
  {
    i := RecordCountsInterval(feed, rows, k, v);
  }

  // ---- Tests that run one at a time ----

  /** One of the first `n` rows makes a record of this name. */
  ghost predicate FlushedBefore(rows: seq<Row>, n: nat, name: string)
    requires n <= |rows|
  {
    exists j :: 0 <= j < n && FlushesAs(rows, j, name)
  }

  predicate FlushesAs(rows: seq<Row>, j: nat, name: string)
    requires j < |rows|
  {
    RowFlushes(rows, j) && CurrentName(rows, j + 1) == name
  }

  /** A row names a test that has no record yet, and the test named before it is the same or has one. */
  ghost predicate InTurn(rows: seq<Row>, k: nat)
    requires k < |rows|
  {
    rows[k].test != "" ==>
      && !FlushedBefore(rows, k, rows[k].test)
      && var last := CurrentName(rows, k);
         last == "" || last == rows[k].test || FlushedBefore(rows, k, last)
  }

  /** Tests run one at a time, and no name makes two records. A condition on the rows alone. */
  ghost predicate OneAtATime(rows: seq<Row>, n: nat)
    requires n <= |rows|
  {
    NoneFlushedAgain(rows, n) && forall k :: 0 <= k < n ==> InTurn(rows, k)
  }

  lemma FlushedStep(rows: seq<Row>, n: nat, name: string)
    requires n < |rows|
    ensures FlushedBefore(rows, n + 1, name) <==> FlushedBefore(rows, n, name) || FlushesAs(rows, n, name)
  {
    if FlushedBefore(rows, n, name) {
      var j :| 0 <= j < n && FlushesAs(rows, j, name);
      assert j < n + 1;
    }
  }

  lemma NotFlushedAgain(rows: seq<Row>, n: nat, name: string)
    requires n < |rows| && NoneFlushedAgain(rows, n + 1) && FlushesAs(rows, n, name)
    ensures !FlushedBefore(rows, n, name)
  {
    forall j | 0 <= j < n ensures !FlushesAs(rows, j, name) { assert !FlushSame(rows, j, n); }
  }

  /** Suite `k` counts the details of its own group, and its name has its record. */
  ghost predicate CountsOwn(st: FoldState, rows: seq<Row>, n: nat, k: nat, v: Verdict)
    requires n <= |rows| && k < |st.suites|
  {
    FlushedBefore(rows, n, st.suites[k].name) && Of(st.suites[k].counts, v) == OwnTally(st.tests, st.suites[k].name, v)
  }

  /** What is recorded of a test without a record. */
  ghost predicate PendingIsOwn(st: FoldState, rows: seq<Row>, n: nat, name: string, v: Verdict)
    requires n <= |rows|
  {
    && (name == "" || (name != st.current && !FlushedBefore(rows, n, name)) ==> OwnTally(st.tests, name, v) == 0)
    && (name == st.current ==>
          Of(st.pending, v) == if FlushedBefore(rows, n, name) then 0 else OwnTally(st.tests, name, v))
  }

  ghost predicate InOrder(st: FoldState, rows: seq<Row>, n: nat, v: Verdict)
    requires n <= |rows|
  {
    && (forall k :: 0 <= k < |st.suites| ==> CountsOwn(st, rows, n, k, v))
    && (forall name: string :: PendingIsOwn(st, rows, n, name, v))
  }

  /** Recording keeps the order: the row's test is the one that is pending. */
  lemma RecordingKeepsOrder(feed: Feeder, rows: seq<Row>, n: nat, v: Verdict)
    requires n < |rows| && InTurn(rows, n) && InOrder(Run(feed, rows, n), rows, n, v)
    ensures InOrder(Prepared(feed, Run(feed, rows, n), rows[n]), rows, n, v)
  {
    var st, row := Run(feed, rows, n), rows[n];
    RowRecords(feed, rows, n, v);
    AddedAre(feed, st, row);
    PreparedFrame(feed, st, row);
    StateFollowsRows(feed, rows, n);
    if row.test != "" {
      AddingKeepsOrder(st, Prepared(feed, st, row), Added(feed, st, row), rows, n, row.test, v);
    }
  }

  lemma AddingKeepsOrder(st: FoldState, a: FoldState, more: seq<Detail>, rows: seq<Row>, n: nat, t: string, v: Verdict)
    requires n <= |rows| && InOrder(st, rows, n, v) && t != "" && !FlushedBefore(rows, n, t)
    requires st.current == "" || st.current == t || FlushedBefore(rows, n, st.current)
    requires a.suites == st.suites && a.current == t && a.tests == st.tests + more
    requires Of(a.pending, v) == Of(st.pending, v) + Tally(more, v)
    requires forall k :: 0 <= k < |more| ==> more[k].suite == t
    ensures InOrder(a, rows, n, v)
  {
    forall name: string ensures OwnTally(a.tests, name, v)
                             == OwnTally(st.tests, name, v) + if name == t then Tally(more, v) else 0 {
      OwnAppend(st.tests, more, name, v, |more|);
      OwnOfOne(more, t, name, v, |more|);
    }
    forall k | 0 <= k < |a.suites| ensures CountsOwn(a, rows, n, k, v) { assert CountsOwn(st, rows, n, k, v); }
    assert PendingIsOwn(st, rows, n, t, v) && PendingIsOwn(st, rows, n, st.current, v);
    forall name: string ensures PendingIsOwn(a, rows, n, name, v) { assert PendingIsOwn(st, rows, n, name, v); }
  }

  /** So does a flush that makes the first record of its name. */
  lemma FlushingKeepsOrder(a: FoldState, row: Row, rows: seq<Row>, n: nat, v: Verdict)
    requires n < |rows| && InOrder(a, rows, n, v)
    requires FlushesAs(rows, n, a.current) && !FlushedBefore(rows, n, a.current)
    ensures InOrder(Flush(a, row), rows, n + 1, v)
  {
    var b, i, m := Flush(a, row), FindSuite(a.suites, a.current, 0), n + 1;
    FindSuiteMeaning(a.suites, a.current, 0);
    assert i < |a.suites| ==> CountsOwn(a, rows, n, i, v);
    assert PendingIsOwn(a, rows, n, a.current, v);
    forall k | 0 <= k < |b.suites| ensures CountsOwn(b, rows, m, k, v) {
      FlushedStep(rows, n, b.suites[k].name);
      if k < |a.suites| { assert CountsOwn(a, rows, n, k, v); }
    }
    forall name: string ensures PendingIsOwn(b, rows, m, name, v) {
      FlushedStep(rows, n, name);
      assert PendingIsOwn(a, rows, n, name, v);
    }
  }

  lemma NothingFlushed(a: FoldState, b: FoldState, rows: seq<Row>, n: nat, v: Verdict)
    requires n < |rows| && InOrder(a, rows, n, v) && !RowFlushes(rows, n)
    requires b == a.(processed := b.processed)
    ensures InOrder(b, rows, n + 1, v)
  {
    var m := n + 1;
    forall k | 0 <= k < |b.suites| ensures CountsOwn(b, rows, m, k, v) {
      FlushedStep(rows, n, b.suites[k].name);
      assert CountsOwn(a, rows, n, k, v);
    }
    forall name: string ensures PendingIsOwn(b, rows, m, name, v) {
      FlushedStep(rows, n, name);
      assert PendingIsOwn(a, rows, n, name, v);
    }
  }

  lemma OrderAsProcessed(a: FoldState, b: FoldState, rows: seq<Row>, n: nat, v: Verdict)
    requires n <= |rows| && InOrder(a, rows, n, v) && b == a.(processed := b.processed)
    ensures InOrder(b, rows, n, v)
  {
    forall k | 0 <= k < |b.suites| ensures CountsOwn(b, rows, n, k, v) { assert CountsOwn(a, rows, n, k, v); }
    forall name: string ensures PendingIsOwn(b, rows, n, name, v) { assert PendingIsOwn(a, rows, n, name, v); }
  }

  lemma OrderStep(feed: Feeder, rows: seq<Row>, n: nat, v: Verdict)
    requires n < |rows| && NoneFlushedAgain(rows, n + 1) && InTurn(rows, n)
    requires InOrder(Run(feed, rows, n), rows, n, v)
    ensures InOrder(Step(feed, Run(feed, rows, n), rows[n]), rows, n + 1, v)
  {
    var st, row := Run(feed, rows, n), rows[n];
    var a, b := Prepared(feed, st, row), Step(feed, st, row);
    RecordingKeepsOrder(feed, rows, n, v);
    FlushesFollowRows(feed, rows, n);
    if RowFlushes(rows, n) {
      NotFlushedAgain(rows, n, a.current);
      FlushingKeepsOrder(a, row, rows, n, v);
      OrderAsProcessed(Flush(a, row), b, rows, n + 1, v);
    } else {
      NothingFlushed(a, b, rows, n, v);
    }
  }

  lemma {:induction false} OneAtATimeIsInOrder(feed: Feeder, rows: seq<Row>, n: nat, v: Verdict)
    requires n <= |rows| && OneAtATime(rows, n)
    ensures InOrder(Run(feed, rows, n), rows, n, v)
  {
    if n == 0 {
      forall name: string ensures PendingIsOwn(INIT, rows, 0, name, v) {
      }
    } else {
      OneAtATimeIsInOrder(feed, rows, n - 1, v);
      assert InTurn(rows, n - 1);
      OrderStep(feed, rows, n - 1, v);
    }
  }

  /** In a log in which tests run one at a time every counter of every suite is the number of details
      with that verdict in the suite's own group, whatever the output holds. */
  lemma OneAtATimeCountsOwn(feed: Feeder, rows: seq<Row>, k: nat, v: Verdict)
    requires OneAtATime(rows, |rows|) && k < |Run(feed, rows, |rows|).suites|
    ensures var st := Run(feed, rows, |rows|); Of(st.suites[k].counts, v) == OwnTally(st.tests, st.suites[k].name, v)
  {
    OneAtATimeIsInOrder(feed, rows, |rows|, v);
    assert CountsOwn(Run(feed, rows, |rows|), rows, |rows|, k, v);
  }

  // ---- Failing tests in their own groups ----

  /** A failure that is pending, and not of this test, stands in for the failure of this test: its output
      has held results, of which none failed, in this row or before. */
  ghost predicate Masked(feed: Feeder, rows: seq<Row>, i: nat)
    requires i < |rows| && rows[i].test != ""
  {
    var st, name := Run(feed, rows, i), rows[i].test;
    && HeldResults(feed, rows, i + 1, name) && NoneFailed(OutsAt(feed, rows, i))
    && 0 < st.pending.failed && !HasFailed(st.tests, name)
  }

  lemma HasFailedPrefix(ds: seq<Detail>, es: seq<Detail>, name: string)
    requires ds <= es && HasFailed(ds, name)
    ensures HasFailed(es, name)
  {
    var k :| 0 <= k < |ds| && IsFailed(ds[k], name);
    assert es[k] == ds[k];
  }

  lemma FoundHasFailed(ds: seq<Detail>, name: string, outs: seq<TestResult>)
    ensures HasFailed(ds + DetailsFor(name, outs), name) <==> HasFailed(ds, name) || !NoneFailed(outs)
  {
    var all := ds + DetailsFor(name, outs);
    if HasFailed(ds, name) { HasFailedPrefix(ds, all, name); }
    if k :| 0 <= k < |outs| && outs[k].verdict.Failed? { assert IsFailed(all[|ds| + k], name); }
  }

  /** What a failing row leaves in the test's group. */
  lemma FailingRowLeaves(feed: Feeder, st: FoldState, row: Row)
    requires CompletesTest(row) && row.action == Fail
    ensures HasFailed(Step(feed, st, row).tests, row.test)
       <==> HasFailed(st.tests, row.test) || !NoneFailed(feed(st.kept, row.output).outs) || AddsOwn(feed, st, row)
  {
    var found := st.tests + DetailsFor(row.test, feed(st.kept, row.output).outs);
    RowAdds(feed, st, row);
    FoundHasFailed(st.tests, row.test, feed(st.kept, row.output).outs);
    var all := Step(feed, st, row).tests;
    if AddsOwn(feed, st, row) {
      assert IsFailed(all[|found|], row.test);
    } else {
      assert all == found;
    }
  }

  /** A test that a row fails has a failed detail in its own group right after the row if and only if its
      failure is not masked. */
  lemma FailedDetailIff(feed: Feeder, rows: seq<Row>, i: nat)
    requires i < |rows| && CompletesTest(rows[i]) && rows[i].action == Fail
    ensures HasFailed(Run(feed, rows, i + 1).tests, rows[i].test) <==> !Masked(feed, rows, i)
  {
    FailingRowLeaves(feed, Run(feed, rows, i), rows[i]);
    EmbeddedFollowRows(feed, rows, i, rows[i].test);
    HeldStep(feed, rows, i, rows[i].test);
    assert Run(feed, rows, i + 1) == Step(feed, Run(feed, rows, i), rows[i]);
  }

  /** And then it has one at the end. */
  lemma FailedDetailStays(feed: Feeder, rows: seq<Row>, i: nat)
    requires i < |rows| && CompletesTest(rows[i]) && rows[i].action == Fail && !Masked(feed, rows, i)
    ensures HasFailed(Run(feed, rows, |rows|).tests, rows[i].test)
  {
    FailedDetailIff(feed, rows, i);
    TestsGrowOn(feed, rows, i + 1, |rows|);
    HasFailedPrefix(Run(feed, rows, i + 1).tests, Run(feed, rows, |rows|).tests, rows[i].test);
  }

  /** Where tests run one at a time no failure is masked for good: a failing test ends up with a failed
      detail in its own group. */
  lemma OneAtATimeShowsFailure(feed: Feeder, rows: seq<Row>, i: nat)
    requires OneAtATime(rows, |rows|) && i < |rows| && LastCompletionFails(rows, i, |rows|)
    ensures HasFailed(Run(feed, rows, |rows|).tests, rows[i].test)
  {
    var st := Run(feed, rows, |rows|);
    FailureStaysVisible(feed, rows, i, |rows|);
    var k :| 0 <= k < |st.suites| && st.suites[k].name == rows[i].test && 0 < st.suites[k].counts.failed;
    OneAtATimeCountsOwn(feed, rows, k, Failed);
    OwnFailed(st.tests, rows[i].test, |st.tests|);
  }

  /** Masked failures exist: a test that has not completed leaves a failure pending, and the test that
      completes with a failure after it shows passed results only. */
  lemma PendingFailureMasks(feed: Feeder, a: string, b: string, x: string, y: string, bad: TestResult, good: TestResult,
                            k1: string, k2: string)
    requires a != "" && b != "" && a != b && bad.verdict == Failed && good.verdict == Passed
    requires feed("", x) == Fed([bad], k1) && feed(k1, y) == Fed([good], k2)
    ensures var rows := [Row(Other, a, x, 0.0), Row(Fail, b, y, 0.0)];
            && Run(feed, rows, 2).tests == [DetailOf(a, bad), DetailOf(b, good)]
            && !HasFailed(Run(feed, rows, 2).tests, b)
  {
    var rows := [Row(Other, a, x, 0.0), Row(Fail, b, y, 0.0)];
    var st1, st2 := Run(feed, rows, 1), Run(feed, rows, 2);
    assert st1 == Step(feed, Run(feed, rows, 0), rows[0]) && Run(feed, rows, 0) == INIT;
    OneResult(INIT, a, bad, k1);
    assert TakeOutput(feed, INIT, rows[0]) == st1;
    OneResult(st1, b, good, k2);
    assert st2 == Step(feed, st1, rows[1]);
    assert st2.tests == [DetailOf(a, bad)] + [DetailOf(b, good)];
  }

  /** One result found in the output of a row. */
  lemma OneResult(st: FoldState, name: string, out: TestResult, kept: string)
    ensures var st' := Embed(st.(current := name, kept := kept), name, [out]);
            Record(st', name, [out], 1) == Add(st', DetailOf(name, out))
  {
  }
}
