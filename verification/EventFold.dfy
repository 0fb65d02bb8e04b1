/** The fold over the `go test -json` rows of a log: one running accumulator, an upsert table of
    suites, and two sets of tests already seen. The scanner of the output is a parameter. */
module EventFold {
  import opened Streaming

  const NANOS_TO_MINUTES := 60000000000.0
  const SECONDS_PER_MINUTE := 60.0

  /** What the scanner reports and keeps, given the text it kept so far and the next raw chunk. */
  type Feeder = (string, string) -> Fed

  /** The actions that end a test or a package, and all the others. */
  datatype Action = Pass | Fail | Skip | Other

  datatype Row = Row(action: Action, test: string, output: string, elapsed: real)

  datatype Status = Status(failed: nat, passed: nat, skipped: nat)

  datatype Detail = Detail(caseId: int, suite: string, name: string, elapsed: real, status: Verdict)

  datatype Suite = Suite(planId: int, name: string, elapsed: real, status: Action, counts: Status)

  const ZERO := Status(0, 0, 0)

  predicate IsCompletion(action: Action) { !action.Other? }

  function ActionToState(action: Action): Verdict
    requires IsCompletion(action)
  {
    match action case Pass => Passed case Fail => Failed case Skip => Skipped
  }

  // ---- Counting ----

  /** The counter of one verdict. */
  function Of(s: Status, v: Verdict): nat {
    match v case Failed => s.failed case Passed => s.passed case Skipped => s.skipped
  }

  /** The counter of this verdict goes up by one. */
  function Bump(s: Status, v: Verdict): Status {
    match v
    case Failed => s.(failed := s.failed + 1)
    case Passed => s.(passed := s.passed + 1)
    case Skipped => s.(skipped := s.skipped + 1)
  }

  /** How many of the first `n` details have this verdict. */
  function TallyTo(ds: seq<Detail>, v: Verdict, n: nat): nat
    requires n <= |ds|
  {
    if n == 0 then 0 else TallyTo(ds, v, n - 1) + if ds[n - 1].status == v then 1 else 0
  }

  function Tally(ds: seq<Detail>, v: Verdict): nat { TallyTo(ds, v, |ds|) }

  /** The sum of the first `n` suites' counters for this verdict. */
  function TotalTo(suites: seq<Suite>, v: Verdict, n: nat): nat
    requires n <= |suites|
  {
    if n == 0 then 0 else TotalTo(suites, v, n - 1) + Of(suites[n - 1].counts, v)
  }

  function Total(suites: seq<Suite>, v: Verdict): nat { TotalTo(suites, v, |suites|) }

  lemma {:induction false} TallyLocal(ds: seq<Detail>, es: seq<Detail>, v: Verdict, n: nat)
    requires n <= |ds| && n <= |es| && forall k :: 0 <= k < n ==> ds[k] == es[k]
    ensures TallyTo(ds, v, n) == TallyTo(es, v, n)
  {
    if n > 0 { TallyLocal(ds, es, v, n - 1); }
  }

  lemma TallyStep(ds: seq<Detail>, d: Detail, v: Verdict)
    ensures Tally(ds + [d], v) == Tally(ds, v) + if d.status == v then 1 else 0
  {
    TallyLocal(ds, ds + [d], v, |ds|);
  }

  lemma {:induction false} TotalLocal(ss: seq<Suite>, ts: seq<Suite>, v: Verdict, n: nat)
    requires n <= |ss| && n <= |ts| && forall k :: 0 <= k < n ==> ss[k] == ts[k]
    ensures TotalTo(ss, v, n) == TotalTo(ts, v, n)
  {
    if n > 0 { TotalLocal(ss, ts, v, n - 1); }
  }

  lemma TotalStep(suites: seq<Suite>, s: Suite, v: Verdict)
    ensures Total(suites + [s], v) == Total(suites, v) + Of(s.counts, v)
  {
    TotalLocal(suites, suites + [s], v, |suites|);
  }

  lemma {:induction false} TotalUpdate(suites: seq<Suite>, i: nat, s: Suite, v: Verdict, n: nat)
    requires i < n <= |suites|
    ensures TotalTo(suites[i := s], v, n) + Of(suites[i].counts, v) == TotalTo(suites, v, n) + Of(s.counts, v)
  {
    if i == n - 1 {
      TotalLocal(suites, suites[i := s], v, i);
    } else {
      TotalUpdate(suites, i, s, v, n - 1);
    }
  }

  // ---- The fold as a function of the rows ----

  datatype FoldState = FoldState(
    kept: string,
    tests: seq<Detail>,
    suites: seq<Suite>,
    pending: Status,
    current: string,
    embedded: set<string>,
    processed: set<string>)

  const INIT := FoldState("", [], [], ZERO, "", {}, {})

  /** One more detail, counted as pending. */
  function Add(st: FoldState, d: Detail): FoldState {
    st.(tests := st.tests + [d], pending := Bump(st.pending, d.status))
  }

  function DetailOf(suite: string, out: TestResult): Detail {
    Detail(0, suite, out.name, out.time / NANOS_TO_MINUTES, out.verdict)
  }

  /** A detail for each of the first `n` results found in a row's output. */
  function Record(st: FoldState, suite: string, outs: seq<TestResult>, n: nat): FoldState
    requires n <= |outs|
  {
    if n == 0 then st else Add(Record(st, suite, outs, n - 1), DetailOf(suite, outs[n - 1]))
  }

  function Embed(st: FoldState, suite: string, outs: seq<TestResult>): FoldState {
    st.(embedded := if outs == [] then st.embedded else st.embedded + {suite})
  }

  function TakeOutput(feed: Feeder, st: FoldState, row: Row): FoldState {
    var fed := feed(st.kept, row.output);
    Record(Embed(st.(current := row.test, kept := fed.rest), row.test, fed.outs), row.test, fed.outs, |fed.outs|)
  }

  /** The detail for the test itself: always when its output held no results, and when it failed
      although nothing pending did. */
  function AddVerdict(st: FoldState, row: Row): FoldState
    requires IsCompletion(row.action)
  {
    var state := ActionToState(row.action);
    if row.test !in st.embedded || (state == Failed && st.pending.failed == 0)
    then Add(st, Detail(0, row.test, row.test, row.elapsed, state))
    else st
  }

  /** The index of the first suite of that name from `i` on, or the length if there is none. */
  function FindSuite(suites: seq<Suite>, name: string, i: nat): (r: nat)
    requires i <= |suites|
    ensures i <= r <= |suites|
    decreases |suites| - i
  {
    if i == |suites| || suites[i].name == name then i else FindSuite(suites, name, i + 1)
  }

  function Upsert(suites: seq<Suite>, s: Suite): seq<Suite> {
    var i := FindSuite(suites, s.name, 0);
    if i < |suites| then suites[i := s] else suites + [s]
  }

  /** The record that the pending counters make up when `row` completes the current suite. */
  function Completed(st: FoldState, row: Row): Suite {
    Suite(0, st.current, row.elapsed / SECONDS_PER_MINUTE, row.action, st.pending)
  }

  function Flush(st: FoldState, row: Row): FoldState {
    st.(suites := Upsert(st.suites, Completed(st, row)), pending := ZERO)
  }

  /** The row completes the test it names. */
  predicate CompletesTest(row: Row) { row.test != "" && IsCompletion(row.action) }

  /** The row completes a package whose last test has not been completed. */
  predicate CompletesPackage(st: FoldState, row: Row) {
    row.test == "" && IsCompletion(row.action) && st.current !in st.processed
  }

  predicate Flushes(st: FoldState, row: Row) { CompletesTest(row) || CompletesPackage(st, row) }

  /** The state in which the row's flush finds the counters, if it makes one. */
  function Prepared(feed: Feeder, st: FoldState, row: Row): FoldState {
    if row.test == "" then st
    else if IsCompletion(row.action) then AddVerdict(TakeOutput(feed, st, row), row)
    else TakeOutput(feed, st, row)
  }

  function Step(feed: Feeder, st: FoldState, row: Row): FoldState {
    var a := Prepared(feed, st, row);
    if CompletesTest(row) then Flush(a, row).(processed := a.processed + {row.test})
    else if CompletesPackage(st, row) then Flush(a, row)
    else a
  }

  /** The state after the first `n` rows. */
  function Run(feed: Feeder, rows: seq<Row>, n: nat): FoldState
    requires n <= |rows|
  {
    if n == 0 then INIT else Step(feed, Run(feed, rows, n - 1), rows[n - 1])
  }

  // ---- Conservation of counts ----

  /** The counter of the record that a flush in this state replaces. */
  function Replaced(a: FoldState, v: Verdict): nat {
    var i := FindSuite(a.suites, a.current, 0);
    if i < |a.suites| then Of(a.suites[i].counts, v) else 0
  }

  function Overwritten(feed: Feeder, st: FoldState, row: Row, v: Verdict): nat {
    if Flushes(st, row) then Replaced(Prepared(feed, st, row), v) else 0
  }

  /** The counters that the first `n` rows overwrite, row by row. */
  function Losses(feed: Feeder, rows: seq<Row>, n: nat, v: Verdict): seq<nat>
    requires n <= |rows|
  {
    if n == 0 then []
    else Losses(feed, rows, n - 1, v) + [Overwritten(feed, Run(feed, rows, n - 1), rows[n - 1], v)]
  }

  function Sum(xs: seq<nat>): nat {
    if xs == [] then 0 else Sum(xs[..|xs| - 1]) + xs[|xs| - 1]
  }

  lemma SumStep(xs: seq<nat>, x: nat)
    ensures Sum(xs + [x]) == Sum(xs) + x
  {
    assert (xs + [x])[..|xs|] == xs;
  }

  lemma {:induction false} SumIsZero(xs: seq<nat>)
    ensures Sum(xs) == 0 <==> forall i :: 0 <= i < |xs| ==> xs[i] == 0
  {
    if xs != [] {
      var front := xs[..|xs| - 1];
      SumIsZero(front);
      assert forall i :: 0 <= i < |front| ==> xs[i] == front[i];
    }
  }

  ghost predicate Balanced(st: FoldState, v: Verdict, lost: nat) {
    Tally(st.tests, v) == Total(st.suites, v) + Of(st.pending, v) + lost
  }

  lemma AddBalances(st: FoldState, d: Detail, v: Verdict, lost: nat)
    requires Balanced(st, v, lost)
    ensures Balanced(Add(st, d), v, lost)
  {
    TallyStep(st.tests, d, v);
  }

  lemma {:induction false} RecordBalances(st: FoldState, suite: string, outs: seq<TestResult>, n: nat, v: Verdict,
                                          lost: nat)
    requires n <= |outs| && Balanced(st, v, lost)
    ensures Balanced(Record(st, suite, outs, n), v, lost)
    ensures Record(st, suite, outs, n).suites == st.suites
  {
    if n > 0 {
      RecordBalances(st, suite, outs, n - 1, v, lost);
      AddBalances(Record(st, suite, outs, n - 1), DetailOf(suite, outs[n - 1]), v, lost);
    }
  }

  lemma PreparedBalances(feed: Feeder, st: FoldState, row: Row, v: Verdict, lost: nat)
    requires Balanced(st, v, lost)
    ensures Balanced(Prepared(feed, st, row), v, lost)
  {
    if row.test != "" {
      var outs := feed(st.kept, row.output).outs;
      var st' := Embed(st.(current := row.test, kept := feed(st.kept, row.output).rest), row.test, outs);
      RecordBalances(st', row.test, outs, |outs|, v, lost);
      var a := TakeOutput(feed, st, row);
      assert Balanced(a, v, lost);
      if IsCompletion(row.action) {
        AddBalances(a, Detail(0, row.test, row.test, row.elapsed, ActionToState(row.action)), v, lost);
      }
    }
  }

  lemma FlushBalances(a: FoldState, row: Row, v: Verdict, lost: nat)
    requires Balanced(a, v, lost)
    ensures Balanced(Flush(a, row), v, lost + Replaced(a, v))
  {
    var s, i := Completed(a, row), FindSuite(a.suites, a.current, 0);
    if i < |a.suites| {
      TotalUpdate(a.suites, i, s, v, |a.suites|);
    } else {
      TotalStep(a.suites, s, v);
    }
  }

  lemma StepBalances(feed: Feeder, st: FoldState, row: Row, v: Verdict, lost: nat)
    requires Balanced(st, v, lost)
    ensures Balanced(Step(feed, st, row), v, lost + Overwritten(feed, st, row, v))
  {
    PreparedBalances(feed, st, row, v, lost);
    FlushBalances(Prepared(feed, st, row), row, v, lost);
  }

  /** Conservation: after every row, the details with a verdict are the ones counted by the suites,
      the ones still pending, and the ones whose count was overwritten. */
  lemma {:induction false} CountsAreConserved(feed: Feeder, rows: seq<Row>, n: nat, v: Verdict)
    requires n <= |rows|
    ensures var st := Run(feed, rows, n);
            Tally(st.tests, v) == Total(st.suites, v) + Of(st.pending, v) + Sum(Losses(feed, rows, n, v))
  {
    if n > 0 {
      var st, before := Run(feed, rows, n - 1), Losses(feed, rows, n - 1, v);
      CountsAreConserved(feed, rows, n - 1, v);
      StepBalances(feed, st, rows[n - 1], v, Sum(before));
      SumStep(before, Overwritten(feed, st, rows[n - 1], v));
    }
  }

  /** So the counters never exceed the details, and are exact for a verdict precisely when no record
      that was replaced had counted any. */
  lemma ExactIffNothingOverwritten(feed: Feeder, rows: seq<Row>, n: nat, v: Verdict)
    requires n <= |rows|
    ensures var st, lost := Run(feed, rows, n), Losses(feed, rows, n, v);
            && Total(st.suites, v) + Of(st.pending, v) <= Tally(st.tests, v)
            && (Total(st.suites, v) + Of(st.pending, v) == Tally(st.tests, v)
                <==> forall i :: 0 <= i < |lost| ==> lost[i] == 0)
  {
    CountsAreConserved(feed, rows, n, v);
    SumIsZero(Losses(feed, rows, n, v));
  }

  // ---- Suites: one record for a name ----

  ghost predicate UniqueNames(suites: seq<Suite>) {
    forall i, j :: 0 <= i < j < |suites| ==> suites[i].name != suites[j].name
  }

  lemma {:induction false} FindSuiteMeaning(suites: seq<Suite>, name: string, i: nat)
    requires i <= |suites|
    ensures var r := FindSuite(suites, name, i);
            && (r < |suites| ==> suites[r].name == name)
            && forall k :: i <= k < r ==> suites[k].name != name
    decreases |suites| - i
  {
    if i < |suites| && suites[i].name != name { FindSuiteMeaning(suites, name, i + 1); }
  }

  /** An upsert keeps names unique, puts the record in, and leaves the others where they were. */
  lemma UpsertKeeps(suites: seq<Suite>, s: Suite)
    requires UniqueNames(suites)
    ensures UniqueNames(Upsert(suites, s)) && s in Upsert(suites, s)
    ensures |suites| <= |Upsert(suites, s)|
    ensures forall k :: 0 <= k < |suites| && suites[k].name != s.name ==> Upsert(suites, s)[k] == suites[k]
    ensures forall k :: 0 <= k < |Upsert(suites, s)| && Upsert(suites, s)[k] != s ==>
              k < |suites| && Upsert(suites, s)[k] == suites[k]
  {
    FindSuiteMeaning(suites, s.name, 0);
    var i := FindSuite(suites, s.name, 0);
    assert Upsert(suites, s)[i] == s;
  }

  lemma {:induction false} RecordFrame(st: FoldState, suite: string, outs: seq<TestResult>, n: nat)
    requires n <= |outs|
    ensures var r := Record(st, suite, outs, n); r == st.(tests := r.tests, pending := r.pending)
  {
    if n > 0 { RecordFrame(st, suite, outs, n - 1); }
  }

  lemma PreparedFrame(feed: Feeder, st: FoldState, row: Row)
    ensures var a := Prepared(feed, st, row);
            && a.suites == st.suites && a.processed == st.processed
            && a.current == if row.test == "" then st.current else row.test
  {
    var fed := feed(st.kept, row.output);
    RecordFrame(Embed(st.(current := row.test, kept := fed.rest), row.test, fed.outs), row.test, fed.outs, |fed.outs|);
  }

  /** Names stay unique in every run. */
  lemma {:induction false} NamesStayUnique(feed: Feeder, rows: seq<Row>, n: nat)
    requires n <= |rows|
    ensures UniqueNames(Run(feed, rows, n).suites)
  {
    if n > 0 {
      var st, row := Run(feed, rows, n - 1), rows[n - 1];
      NamesStayUnique(feed, rows, n - 1);
      PreparedFrame(feed, st, row);
      UpsertKeeps(st.suites, Completed(Prepared(feed, st, row), row));
    }
  }

  lemma RecordOrigin(feed: Feeder, st: FoldState, row: Row, k: nat)
    requires UniqueNames(st.suites) && k < |Step(feed, st, row).suites|
    ensures var s := Step(feed, st, row).suites[k];
            || (Flushes(st, row) && s == Completed(Prepared(feed, st, row), row))
            || (k < |st.suites| && s == st.suites[k])
  {
    PreparedFrame(feed, st, row);
    UpsertKeeps(st.suites, Completed(Prepared(feed, st, row), row));
  }

  /** Row `i` makes the record `s`. */
  ghost predicate Makes(feed: Feeder, rows: seq<Row>, i: nat, s: Suite)
    requires i < |rows|
  {
    var st := Run(feed, rows, i);
    Flushes(st, rows[i]) && s == Completed(Prepared(feed, st, rows[i]), rows[i])
  }

  /** Every record was made by a flush, from the counters pending at that row. */
  lemma {:induction false} EveryRecordWasFlushed(feed: Feeder, rows: seq<Row>, n: nat, k: nat) returns (i: nat)
    requires n <= |rows| && k < |Run(feed, rows, n).suites|
    ensures i < n && Makes(feed, rows, i, Run(feed, rows, n).suites[k])
  {
    NamesStayUnique(feed, rows, n - 1);
    RecordOrigin(feed, Run(feed, rows, n - 1), rows[n - 1], k);
    if Makes(feed, rows, n - 1, Run(feed, rows, n).suites[k]) {
      i := n - 1;
    } else {
      i := EveryRecordWasFlushed(feed, rows, n - 1, k);
    }
  }

  // ---- Rows that flush no name twice ----

  /** The test named last in the first `n` rows. */
  function CurrentName(rows: seq<Row>, n: nat): string
    requires n <= |rows|
  {
    if n == 0 then "" else if rows[n - 1].test != "" then rows[n - 1].test else CurrentName(rows, n - 1)
  }

  /** The tests that the first `n` rows complete. */
  function CompletedNames(rows: seq<Row>, n: nat): set<string>
    requires n <= |rows|
  {
    if n == 0 then {}
    else CompletedNames(rows, n - 1) + if CompletesTest(rows[n - 1]) then {rows[n - 1].test} else {}
  }

  /** Row `i` makes a record: it completes a test, or a package whose last test is not completed. */
  predicate RowFlushes(rows: seq<Row>, i: nat)
    requires i < |rows|
  {
    || CompletesTest(rows[i])
    || (rows[i].test == "" && IsCompletion(rows[i].action) && CurrentName(rows, i) !in CompletedNames(rows, i))
  }

  /** Both rows make a record under the same name. */
  predicate FlushSame(rows: seq<Row>, i: nat, j: nat)
    requires i < |rows| && j < |rows|
  {
    RowFlushes(rows, i) && RowFlushes(rows, j) && CurrentName(rows, i + 1) == CurrentName(rows, j + 1)
  }

  ghost predicate NoneFlushedAgain(rows: seq<Row>, n: nat)
    requires n <= |rows|
  {
    forall i, j :: 0 <= i < j < n ==> !FlushSame(rows, i, j)
  }

  /** The rows alone decide which of them make a record, and under which name. */
  lemma {:induction false} StateFollowsRows(feed: Feeder, rows: seq<Row>, n: nat)
    requires n <= |rows|
    ensures Run(feed, rows, n).current == CurrentName(rows, n)
    ensures Run(feed, rows, n).processed == CompletedNames(rows, n)
  {
    if n > 0 {
      StateFollowsRows(feed, rows, n - 1);
      PreparedFrame(feed, Run(feed, rows, n - 1), rows[n - 1]);
    }
  }

  /** What the scanner keeps after the first `n` rows. */
  ghost function Kept(feed: Feeder, rows: seq<Row>, n: nat): string
    requires n <= |rows|
  {
    if n == 0 then ""
    else if rows[n - 1].test == "" then Kept(feed, rows, n - 1)
    else feed(Kept(feed, rows, n - 1), rows[n - 1].output).rest
  }

  /** The results found in the output of row `i`. */
  ghost function OutsAt(feed: Feeder, rows: seq<Row>, i: nat): seq<TestResult>
    requires i < |rows|
  {
    if rows[i].test == "" then [] else feed(Kept(feed, rows, i), rows[i].output).outs
  }

  /** One of the first `n` rows has this test and results in its output. */
  ghost predicate HeldResults(feed: Feeder, rows: seq<Row>, n: nat, name: string)
    requires n <= |rows|
  {
    exists i :: 0 <= i < n && rows[i].test == name && OutsAt(feed, rows, i) != []
  }

  lemma HeldStep(feed: Feeder, rows: seq<Row>, n: nat, name: string)
    requires n < |rows|
    ensures HeldResults(feed, rows, n + 1, name)
       <==> HeldResults(feed, rows, n, name) || (rows[n].test == name && OutsAt(feed, rows, n) != [])
  {
    if HeldResults(feed, rows, n, name) {
      var i :| 0 <= i < n && rows[i].test == name && OutsAt(feed, rows, i) != [];
      assert i < n + 1;
    }
  }

  /** What a row does to the kept text and to the tests with results. */
  lemma RowEmbeds(feed: Feeder, st: FoldState, row: Row)
    ensures var fed, next := feed(st.kept, row.output), Step(feed, st, row);
            && next.kept == (if row.test == "" then st.kept else fed.rest)
            && next.embedded == st.embedded + if row.test == "" || fed.outs == [] then {} else {row.test}
  {
    var fed := feed(st.kept, row.output);
    RecordFrame(Embed(st.(current := row.test, kept := fed.rest), row.test, fed.outs), row.test, fed.outs, |fed.outs|);
  }

  /** The tests whose output has held results are those of the rows so far, none of them forgotten. */
  lemma {:induction false} EmbeddedFollowRows(feed: Feeder, rows: seq<Row>, n: nat, name: string)
    requires n <= |rows|
    ensures Run(feed, rows, n).kept == Kept(feed, rows, n)
    ensures name in Run(feed, rows, n).embedded <==> HeldResults(feed, rows, n, name)
  {
    if n > 0 {
      EmbeddedFollowRows(feed, rows, n - 1, name);
      RowEmbeds(feed, Run(feed, rows, n - 1), rows[n - 1]);
      HeldStep(feed, rows, n - 1, name);
    }
  }

  lemma FlushesFollowRows(feed: Feeder, rows: seq<Row>, i: nat)
    requires i < |rows|
    ensures Flushes(Run(feed, rows, i), rows[i]) <==> RowFlushes(rows, i)
    ensures Prepared(feed, Run(feed, rows, i), rows[i]).current == CurrentName(rows, i + 1)
  {
    StateFollowsRows(feed, rows, i);
    PreparedFrame(feed, Run(feed, rows, i), rows[i]);
  }

  lemma NothingReplaced(feed: Feeder, rows: seq<Row>, n: nat, v: Verdict)
    requires n < |rows| && NoneFlushedAgain(rows, n + 1)
    ensures Overwritten(feed, Run(feed, rows, n), rows[n], v) == 0
  {
    var st := Run(feed, rows, n);
    var a := Prepared(feed, st, rows[n]);
    var k := FindSuite(a.suites, a.current, 0);
    PreparedFrame(feed, st, rows[n]);
    FindSuiteMeaning(a.suites, a.current, 0);
    FlushesFollowRows(feed, rows, n);
    if Flushes(st, rows[n]) && k < |a.suites| {
      var i := EveryRecordWasFlushed(feed, rows, n, k);
      FlushesFollowRows(feed, rows, i);
      assert FlushSame(rows, i, n);
    }
  }

  /** A condition on the rows alone: when no two of them make a record under the same name, the counters
      are exact for every verdict, whatever the output holds. */
  lemma ExactWhenNoneFlushedAgain(feed: Feeder, rows: seq<Row>, n: nat, v: Verdict)
    requires n <= |rows| && NoneFlushedAgain(rows, n)
    ensures var st := Run(feed, rows, n); Tally(st.tests, v) == Total(st.suites, v) + Of(st.pending, v)
  {
    NothingLost(feed, rows, n, v);
    CountsAreConserved(feed, rows, n, v);
  }

  lemma {:induction false} LossesAt(feed: Feeder, rows: seq<Row>, n: nat, v: Verdict, i: nat)
    requires i < n <= |rows|
    ensures |Losses(feed, rows, n, v)| == n
    ensures Losses(feed, rows, n, v)[i] == Overwritten(feed, Run(feed, rows, i), rows[i], v)
  {
    if n > 1 { LossesAt(feed, rows, n - 1, v, if i < n - 1 then i else 0); }
  }

  lemma NothingLost(feed: Feeder, rows: seq<Row>, n: nat, v: Verdict)
    requires n <= |rows| && NoneFlushedAgain(rows, n)
    ensures Sum(Losses(feed, rows, n, v)) == 0
  {
    var lost := Losses(feed, rows, n, v);
    if n > 0 { LossesAt(feed, rows, n, v, 0); }
    forall i: nat | i < n ensures lost[i] == 0 {
      LossesAt(feed, rows, n, v, i);
      NothingReplaced(feed, rows, i, v);
    }
    SumIsZero(lost);
  }

  // ---- Failures ----

  ghost predicate ShowsFailure(suites: seq<Suite>, name: string) {
    exists k :: 0 <= k < |suites| && suites[k].name == name && 0 < suites[k].counts.failed
  }

  /** A record made for a failing row counts no failure exactly when the row completes a package and
      nothing pending failed: only a failing package can look green, never a failing test. */
  lemma FailureIsCounted(feed: Feeder, st: FoldState, row: Row)
    requires Flushes(st, row) && row.action == Fail
    ensures Completed(Prepared(feed, st, row), row).counts.failed == 0 <==> row.test == "" && st.pending.failed == 0
  {
  }

  lemma FailingTestIsShown(feed: Feeder, st: FoldState, row: Row)
    requires UniqueNames(st.suites) && CompletesTest(row) && row.action == Fail
    ensures ShowsFailure(Step(feed, st, row).suites, row.test) && row.test in Step(feed, st, row).processed
  {
    var a := Prepared(feed, st, row);
    PreparedFrame(feed, st, row);
    FailureIsCounted(feed, st, row);
    UpsertKeeps(st.suites, Completed(a, row));
  }

  lemma ShownFailureStays(feed: Feeder, st: FoldState, row: Row, name: string)
    requires UniqueNames(st.suites) && ShowsFailure(st.suites, name) && name in st.processed
    requires !(CompletesTest(row) && row.test == name)
    ensures ShowsFailure(Step(feed, st, row).suites, name) && name in Step(feed, st, row).processed
  {
    var a := Prepared(feed, st, row);
    PreparedFrame(feed, st, row);
    UpsertKeeps(st.suites, Completed(a, row));
    var k :| 0 <= k < |st.suites| && st.suites[k].name == name && 0 < st.suites[k].counts.failed;
    assert Flushes(st, row) ==> Step(feed, st, row).suites[k] == st.suites[k];
  }

  /** A test whose last completion is a failure has a suite record that counts a failure, whatever
      the rest of the log holds. */
  lemma {:induction false} FailureStaysVisible(feed: Feeder, rows: seq<Row>, i: nat, n: nat)
    requires i < n <= |rows| && LastCompletionFails(rows, i, n)
    ensures ShowsFailure(Run(feed, rows, n).suites, rows[i].test)
    ensures rows[i].test in Run(feed, rows, n).processed
  {
    var st, name := Run(feed, rows, n - 1), rows[i].test;
    NamesStayUnique(feed, rows, n - 1);
    assert Run(feed, rows, n) == Step(feed, st, rows[n - 1]);
    if i == n - 1 {
      FailingTestIsShown(feed, st, rows[i]);
    } else {
      StillFails(rows, i, n);
      FailureStaysVisible(feed, rows, i, n - 1);
      ShownFailureStays(feed, st, rows[n - 1], name);
    }
  }

  lemma StillFails(rows: seq<Row>, i: nat, n: nat)
    requires i < n - 1 < |rows| && LastCompletionFails(rows, i, n)
    ensures LastCompletionFails(rows, i, n - 1) && !(CompletesTest(rows[n - 1]) && rows[n - 1].test == rows[i].test)
  {
  }

  /** Row `i` fails a test that no row from there to `n` completes again. */
  ghost predicate LastCompletionFails(rows: seq<Row>, i: nat, n: nat)
    requires i < n <= |rows|
  {
    && CompletesTest(rows[i]) && rows[i].action == Fail
    && forall j :: i < j < n ==> !(CompletesTest(rows[j]) && rows[j].test == rows[i].test)
  }

  /** A failing record without a counted failure comes from a package row. */
  lemma GreenFailureIsPackageLevel(feed: Feeder, rows: seq<Row>, k: nat) returns (i: nat)
    requires k < |Run(feed, rows, |rows|).suites|
    requires var s := Run(feed, rows, |rows|).suites[k]; s.status == Fail && s.counts.failed == 0
    ensures i < |rows| && rows[i].test == "" && rows[i].action == Fail
  {
    i := EveryRecordWasFlushed(feed, rows, |rows|, k);
    FailureIsCounted(feed, Run(feed, rows, i), rows[i]);
  }

  /** Such records exist: a package that fails before its test is completed. */
  lemma PackageFailureCanLookGreen(feed: Feeder)
    requires feed("", "") == Fed([], "")
    ensures var rows := [Row(Other, "TestX", "", 0.0), Row(Fail, "", "", 0.0)];
            Run(feed, rows, 2).suites == [Suite(0, "TestX", 0.0, Fail, ZERO)]
  {
    var rows := [Row(Other, "TestX", "", 0.0), Row(Fail, "", "", 0.0)];
    assert Run(feed, rows, 0) == INIT;
    assert Run(feed, rows, 1) == INIT.(current := "TestX");
  }

  /** A row without output that completes a test whose output held no results. */
  lemma BareRow(feed: Feeder, st: FoldState, row: Row)
    requires feed(st.kept, "") == Fed([], st.kept) && row.output == "" && CompletesTest(row)
    requires row.test !in st.embedded && st.pending == ZERO
    ensures var d := Detail(0, row.test, row.test, row.elapsed, ActionToState(row.action));
            var s := Suite(0, row.test, row.elapsed / SECONDS_PER_MINUTE, row.action, Bump(ZERO, d.status));
            Step(feed, st, row)
            == st.(tests := st.tests + [d], suites := Upsert(st.suites, s), current := row.test,
                   processed := st.processed + {row.test})
  {
  }

  /** Two bare rows of one test: two details, and the record of the second row alone. */
  lemma BareRowTwice(feed: Feeder, r1: Row, r2: Row)
    requires feed("", "") == Fed([], "") && r1.output == r2.output == "" && r1.test == r2.test
    requires CompletesTest(r1) && CompletesTest(r2)
    ensures var st := Run(feed, [r1, r2], 2);
            && st.tests == [Detail(0, r1.test, r1.test, r1.elapsed, ActionToState(r1.action))]
                         + [Detail(0, r1.test, r1.test, r2.elapsed, ActionToState(r2.action))]
            && st.suites == [Suite(0, r1.test, r2.elapsed / SECONDS_PER_MINUTE, r2.action,
                                   Bump(ZERO, ActionToState(r2.action)))]
            && st.pending == ZERO
  {
    var rows := [r1, r2];
    var st0, st1 := Run(feed, rows, 0), Run(feed, rows, 1);
    assert st0 == INIT && st1 == Step(feed, st0, r1);
    BareRow(feed, st0, r1);
    BareRow(feed, st1, r2);
    assert |st1.suites| == 1 && st1.suites[0].name == r1.test;
  }

  /** And a later pass of the same name hides an earlier failure from the counters. */
  lemma LaterPassHidesFailure(feed: Feeder, name: string, x: real, y: real)
    requires feed("", "") == Fed([], "") && name != ""
    ensures var rows := [Row(Fail, name, "", x), Row(Pass, name, "", y)];
            var st := Run(feed, rows, 2);
            Total(st.suites, Failed) == 0 && Tally(st.tests, Failed) == 1 && Sum(Losses(feed, rows, 2, Failed)) == 1
  {
    var rows := [Row(Fail, name, "", x), Row(Pass, name, "", y)];
    var d1, d2 := Detail(0, name, name, x, Failed), Detail(0, name, name, y, Passed);
    var s2 := Suite(0, name, y / SECONDS_PER_MINUTE, Pass, Status(0, 1, 0));
    BareRowTwice(feed, rows[0], rows[1]);
    CountsAreConserved(feed, rows, 2, Failed);
    TwoTallies(d1, d2, Failed);
    TotalStep([], s2, Failed);
    assert [] + [s2] == [s2];
  }

  lemma TwoTallies(d1: Detail, d2: Detail, v: Verdict)
    ensures Tally([d1] + [d2], v) == (if d1.status == v then 1 else 0) + if d2.status == v then 1 else 0
  {
    TallyStep([], d1, v);
    assert [] + [d1] == [d1];
    TallyStep([d1], d2, v);
  }
}
