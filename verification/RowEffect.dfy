/** What one row of the log does to the running accumulator, in full: a table that does not go through the
    fold's own functions, and determines every field of the state after the row. */
module RowEffect {
  import opened EventFold
  import opened FoldDetails
  import opened Streaming

  predicate Ends(action: Action) { action == Pass || action == Fail || action == Skip }

  /** A detail of a result found in the output; its time is in nanoseconds. */
  predicate IsFoundDetail(d: Detail, test: string, out: TestResult) {
    d == Detail(0, test, out.name, out.time / 60000000000.0, out.verdict)
  }

  ghost predicate AreFound(ds: seq<Detail>, test: string, outs: seq<TestResult>) {
    |ds| == |outs| && forall k :: 0 <= k < |ds| ==> IsFoundDetail(ds[k], test, outs[k])
  }

  /** The test gets a detail of its own. */
  predicate GetsOwn(st: FoldState, row: Row, outs: seq<TestResult>) {
    && Ends(row.action)
    && ((outs == [] && row.test !in st.embedded)
        || (row.action == Fail && st.pending.failed == 0 && forall k :: 0 <= k < |outs| ==> outs[k].verdict != Failed))
  }

  predicate IsOwnDetail(d: Detail, row: Row) {
    && d.caseId == 0 && d.suite == row.test && d.name == row.test && d.elapsed == row.elapsed
    && (row.action == Pass ==> d.status == Passed)
    && (row.action == Fail ==> d.status == Failed)
    && (row.action == Skip ==> d.status == Skipped)
  }

  /** The details that the row adds. */
  ghost predicate AreAdded(ds: seq<Detail>, st: FoldState, row: Row, outs: seq<TestResult>) {
    if GetsOwn(st, row, outs)
    then ds != [] && AreFound(ds[..|ds| - 1], row.test, outs) && IsOwnDetail(ds[|ds| - 1], row)
    else AreFound(ds, row.test, outs)
  }

  /** The indices of the details with this verdict. */
  function With(ds: seq<Detail>, v: Verdict): set<nat> { set k: nat | k < |ds| && ds[k].status == v }

  /** The counters with those of `ds` added. */
  predicate IsSum(counts: Status, before: Status, ds: seq<Detail>) {
    && counts.failed == before.failed + |With(ds, Failed)|
    && counts.passed == before.passed + |With(ds, Passed)|
    && counts.skipped == before.skipped + |With(ds, Skipped)|
  }

  /** The record takes the place of the first one of its name, or comes last if there is none. */
  ghost predicate IsPut(before: seq<Suite>, s: Suite, after: seq<Suite>) {
    || (after == before + [s] && forall k :: 0 <= k < |before| ==> before[k].name != s.name)
    || exists i :: 0 <= i < |before| && IsPutAt(before, s, after, i)
  }

  ghost predicate IsPutAt(before: seq<Suite>, s: Suite, after: seq<Suite>, i: nat)
    requires i < |before|
  {
    before[i].name == s.name && after == before[i := s] && forall k :: 0 <= k < i ==> before[k].name != s.name
  }

  predicate AreCleared(counts: Status) { counts.failed == 0 && counts.passed == 0 && counts.skipped == 0 }

  /** A row of a package. It makes a record if it ends the package and the test named last has none. */
  ghost predicate IsAfterPackageRow(st: FoldState, row: Row, next: FoldState) {
    if Ends(row.action) && st.current !in st.processed
    then
      && next == st.(suites := next.suites, pending := next.pending)
      && AreCleared(next.pending)
      && IsPut(st.suites, Suite(0, st.current, row.elapsed / 60.0, row.action, st.pending), next.suites)
    else next == st
  }

  /** A row of a test. It makes a record if it ends the test. */
  ghost predicate IsAfterTestRow(feed: Feeder, st: FoldState, row: Row, next: FoldState) {
    var fed := feed(st.kept, row.output);
    && next.kept == fed.rest && next.current == row.test
    && next.embedded == st.embedded + (if fed.outs == [] then {} else {row.test})
    && st.tests <= next.tests && AreAdded(next.tests[|st.tests|..], st, row, fed.outs)
    && (if Ends(row.action)
        then
          && next.processed == st.processed + {row.test}
          && AreCleared(next.pending)
          && IsRecorded(st, row, next.tests[|st.tests|..], next.suites)
        else
          && next.processed == st.processed
          && IsSum(next.pending, st.pending, next.tests[|st.tests|..])
          && next.suites == st.suites)
  }

  /** The record made has counted what was pending and what the row added. */
  ghost predicate IsRecorded(st: FoldState, row: Row, added: seq<Detail>, suites: seq<Suite>) {
    exists counts ::
      && IsSum(counts, st.pending, added)
      && IsPut(st.suites, Suite(0, row.test, row.elapsed / 60.0, row.action, counts), suites)
  }

  ghost predicate IsAfterRow(feed: Feeder, st: FoldState, row: Row, next: FoldState) {
    if row.test == "" then IsAfterPackageRow(st, row, next) else IsAfterTestRow(feed, st, row, next)
  }

  // ---- The fold's step is what the table says ----

  lemma WithStep(ds: seq<Detail>, d: Detail, v: Verdict)
    ensures With(ds + [d], v) == if d.status == v then With(ds, v) + {|ds|} else With(ds, v)
  {
  }

  lemma {:induction false} TallyCounts(ds: seq<Detail>, v: Verdict, n: nat)
    requires n <= |ds|
    ensures TallyTo(ds, v, n) == |With(ds[..n], v)|
  {
    if n == 0 {
      assert With(ds[..0], v) == {};
    } else {
      TallyCounts(ds, v, n - 1);
      WithStep(ds[..n - 1], ds[n - 1], v);
      assert ds[..n] == ds[..n - 1] + [ds[n - 1]];
    }
  }

  lemma PlusIsSum(s: Status, ds: seq<Detail>)
    ensures IsSum(Plus(s, ds, |ds|), s, ds)
  {
    assert ds[..|ds|] == ds;
    TallyCounts(ds, Failed, |ds|);
    TallyCounts(ds, Passed, |ds|);
    TallyCounts(ds, Skipped, |ds|);
  }

  lemma UpsertPuts(suites: seq<Suite>, s: Suite)
    ensures IsPut(suites, s, Upsert(suites, s))
  {
    FindSuiteMeaning(suites, s.name, 0);
    var i := FindSuite(suites, s.name, 0);
    if i < |suites| { assert IsPutAt(suites, s, Upsert(suites, s), i); }
  }

  lemma DetailsAreFound(test: string, outs: seq<TestResult>)
    ensures AreFound(DetailsFor(test, outs), test, outs)
  {
  }

  lemma AddedAreAdded(feed: Feeder, st: FoldState, row: Row)
    requires row.test != ""
    ensures AreAdded(Added(feed, st, row), st, row, feed(st.kept, row.output).outs)
  {
    var outs := feed(st.kept, row.output).outs;
    var found := DetailsFor(row.test, outs);
    DetailsAreFound(row.test, outs);
    assert GetsOwn(st, row, outs) <==> AddsOwn(feed, st, row);
    if AddsOwn(feed, st, row) {
      assert Added(feed, st, row) == found + [OwnDetail(row)];
      assert (found + [OwnDetail(row)])[..|found|] == found;
    } else {
      assert Added(feed, st, row) == found;
    }
  }

  lemma PlusOne(s: Status, ds: seq<Detail>, d: Detail)
    ensures Plus(s, ds + [d], |ds| + 1) == Bump(Plus(s, ds, |ds|), d.status)
  {
    TallyStep(ds, d, Failed);
    TallyStep(ds, d, Passed);
    TallyStep(ds, d, Skipped);
  }

  /** The state before the row's flush, if it makes one. */
  lemma PreparedIs(feed: Feeder, st: FoldState, row: Row)
    requires row.test != ""
    ensures var added, fed, a := Added(feed, st, row), feed(st.kept, row.output), Prepared(feed, st, row);
            && a.kept == fed.rest && a.current == row.test && a.tests == st.tests + added
            && a.embedded == st.embedded + (if fed.outs == [] then {} else {row.test})
            && a.pending == Plus(st.pending, added, |added|)
            && a.suites == st.suites && a.processed == st.processed
  {
    var outs := feed(st.kept, row.output).outs;
    var found := DetailsFor(row.test, outs);
    OutputTaken(feed, st, row);
    AddedAre(feed, st, row);
    if AddsOwn(feed, st, row) {
      PlusOne(st.pending, found, OwnDetail(row));
    } else {
      assert found + [] == found;
    }
  }

  lemma StepFits(feed: Feeder, st: FoldState, row: Row)
    ensures IsAfterRow(feed, st, row, Step(feed, st, row))
  {
    var a, next := Prepared(feed, st, row), Step(feed, st, row);
    UpsertPuts(a.suites, Completed(a, row));
    if row.test != "" {
      var added := Added(feed, st, row);
      PreparedIs(feed, st, row);
      AddedAreAdded(feed, st, row);
      PlusIsSum(st.pending, added);
      assert next.tests[|st.tests|..] == added;
    }
  }

  // ---- The table leaves nothing open ----

  lemma FoundUnique(ds: seq<Detail>, es: seq<Detail>, test: string, outs: seq<TestResult>)
    requires AreFound(ds, test, outs) && AreFound(es, test, outs)
    ensures ds == es
  {
    forall k | 0 <= k < |ds| ensures ds[k] == es[k] { assert IsFoundDetail(ds[k], test, outs[k]); }
  }

  lemma AddedUnique(ds: seq<Detail>, es: seq<Detail>, st: FoldState, row: Row, outs: seq<TestResult>)
    requires AreAdded(ds, st, row, outs) && AreAdded(es, st, row, outs)
    ensures ds == es
  {
    if GetsOwn(st, row, outs) {
      FoundUnique(ds[..|ds| - 1], es[..|es| - 1], row.test, outs);
      assert ds == ds[..|ds| - 1] + [ds[|ds| - 1]] && es == es[..|es| - 1] + [es[|es| - 1]];
    } else {
      FoundUnique(ds, es, row.test, outs);
    }
  }

  lemma PutUnique(before: seq<Suite>, s: Suite, after: seq<Suite>, after': seq<Suite>)
    requires IsPut(before, s, after) && IsPut(before, s, after')
    ensures after == after'
  {
    if i: nat :| i < |before| && IsPutAt(before, s, after, i) {
      var j :| 0 <= j < |before| && IsPutAt(before, s, after', j);
    }
  }

  lemma RecordedUnique(st: FoldState, row: Row, added: seq<Detail>, suites: seq<Suite>, suites': seq<Suite>)
    requires IsRecorded(st, row, added, suites) && IsRecorded(st, row, added, suites')
    ensures suites == suites'
  {
    var counts :| IsSum(counts, st.pending, added)
                  && IsPut(st.suites, Suite(0, row.test, row.elapsed / 60.0, row.action, counts), suites);
    PutUnique(st.suites, Suite(0, row.test, row.elapsed / 60.0, row.action, counts), suites, suites');
  }

  lemma TestsUnique(feed: Feeder, st: FoldState, row: Row, next: FoldState, next': FoldState)
    requires IsAfterTestRow(feed, st, row, next) && IsAfterTestRow(feed, st, row, next')
    ensures next.tests == next'.tests
  {
    var n := |st.tests|;
    AddedUnique(next.tests[n..], next'.tests[n..], st, row, feed(st.kept, row.output).outs);
    assert next.tests == next.tests[..n] + next.tests[n..] && next'.tests == next'.tests[..n] + next'.tests[n..];
  }

  lemma EffectUnique(feed: Feeder, st: FoldState, row: Row, next: FoldState, next': FoldState)
    requires IsAfterRow(feed, st, row, next) && IsAfterRow(feed, st, row, next')
    ensures next == next'
  {
    if row.test != "" {
      TestsUnique(feed, st, row, next, next');
      if Ends(row.action) {
        RecordedUnique(st, row, next.tests[|st.tests|..], next.suites, next'.suites);
      }
    } else if Ends(row.action) && st.current !in st.processed {
      PutUnique(st.suites, Suite(0, st.current, row.elapsed / 60.0, row.action, st.pending), next.suites, next'.suites);
    }
  }

  /** Every row does what the table says, and the table leaves nothing open. */
  lemma StepMeaning(feed: Feeder, st: FoldState, row: Row, next: FoldState)
    ensures IsAfterRow(feed, st, row, next) <==> next == Step(feed, st, row)
  {
    StepFits(feed, st, row);
    if IsAfterRow(feed, st, row, next) { EffectUnique(feed, st, row, next, Step(feed, st, row)); }
  }

  /** A log begins with everything empty, and goes on row by row. */
  lemma RunMeaning(feed: Feeder, rows: seq<Row>, n: nat)
    requires n < |rows|
    ensures Run(feed, rows, 0) == FoldState("", [], [], Status(0, 0, 0), "", {}, {})
    ensures IsAfterRow(feed, Run(feed, rows, n), rows[n], Run(feed, rows, n + 1))
  {
    StepFits(feed, Run(feed, rows, n), rows[n]);
  }
}
