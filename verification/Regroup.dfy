/** The regrouping of the folded log for the reports: which suites are included, which details belong
    to each, and the totals. */
module Regroup {
  import opened EventFold
  import opened Streaming
  import opened Text

  datatype Overview = Overview(suite: string, cases: seq<Detail>)

  datatype Processed = Processed(failed: nat, passed: nat, skipped: nat, summary: seq<Overview>, suites: seq<Suite>)

  // ---- Which suites are included ----

  function NormalizeSuiteName(name: string): string {
    ToLower(TrimPrefix(TrimPrefix(name, "Test_"), "E2E"))
  }

  const ARM64_EXCLUDED := [
    "dockerautoimport",
    "dockerdualstack",
    "dockersecretsencryption",
    "dockersnapshotrestore",
    "dockersvcpoliciesandfirewall"
  ]

  /** On arm64 only docker tests run, and not all of them. */
  predicate ShouldIncludeTest(suite: string, arch: string) {
    var name := NormalizeSuiteName(suite);
    arch == "arm64" ==>
      Contains(name, "docker") && forall i :: 0 <= i < |ARM64_EXCLUDED| ==> !Contains(name, ARM64_EXCLUDED[i])
  }

  predicate Included(suite: string, product: string, arch: string) {
    product == "k3s" ==> ShouldIncludeTest(suite, arch)
  }

  function Plan(s: Suite, product: string): Suite {
    s.(planId := if product == "rke2" then 16 else 17)
  }

  /** The included ones among the first `n` suites, in order. */
  function Select(suites: seq<Suite>, product: string, arch: string, n: nat): seq<Suite>
    requires n <= |suites|
  {
    if n == 0 then []
    else
      Select(suites, product, arch, n - 1)
      + if Included(suites[n - 1].name, product, arch) then [Plan(suites[n - 1], product)] else []
  }

  /** The name without a prefix `Test_` and then without a prefix `E2E`. */
  predicate IsBare(suite: string, bare: string) {
    var inner := if "Test_" <= suite then suite[5..] else suite;
    bare == if "E2E" <= inner then inner[3..] else inner
  }

  /** A docker test that is none of the five that need another architecture. */
  ghost predicate RunsOnArm64(low: string) {
    && Has(low, "docker")
    && !Has(low, "dockerautoimport") && !Has(low, "dockerdualstack") && !Has(low, "dockersecretsencryption")
    && !Has(low, "dockersnapshotrestore") && !Has(low, "dockersvcpoliciesandfirewall")
  }

  /** Left out are, of k3s on arm64, the tests that do not run there, and nothing else. */
  lemma IncludedMeaning(suite: string, product: string, arch: string, bare: string)
    requires IsBare(suite, bare)
    ensures !Included(suite, product, arch) <==> product == "k3s" && arch == "arm64" && !RunsOnArm64(ToLower(bare))
  {
    var low := ToLower(bare);
    assert NormalizeSuiteName(suite) == low;
    ContainsMeaning(low, "docker");
    forall i | 0 <= i < |ARM64_EXCLUDED| ensures Contains(low, ARM64_EXCLUDED[i]) <==> Has(low, ARM64_EXCLUDED[i]) {
      ContainsMeaning(low, ARM64_EXCLUDED[i]);
    }
    assert ARM64_EXCLUDED[0] == "dockerautoimport" && ARM64_EXCLUDED[1] == "dockerdualstack"
        && ARM64_EXCLUDED[2] == "dockersecretsencryption" && ARM64_EXCLUDED[3] == "dockersnapshotrestore"
        && ARM64_EXCLUDED[4] == "dockersvcpoliciesandfirewall";
  }

  /** `at` lists the indices of the included suites among the first `n`, in order and all of them. */
  ghost predicate IsSelection(r: seq<Suite>, suites: seq<Suite>, product: string, arch: string, n: nat, at: seq<nat>)
    requires n <= |suites|
  {
    && |at| == |r|
    && (forall j :: 0 <= j < |at| ==> IsPicked(r[j], suites, product, arch, n, at[j]))
    && (forall j :: 0 < j < |at| ==> at[j - 1] < at[j])
    && (forall k: nat :: k < n && Included(suites[k].name, product, arch) ==> k in at)
  }

  predicate IsPicked(p: Suite, suites: seq<Suite>, product: string, arch: string, n: nat, i: nat)
    requires n <= |suites|
  {
    i < n && Included(suites[i].name, product, arch) && IsPlanned(p, suites[i], product)
  }

  /** The same suite under the plan of the product: 16 for rke2, 17 for every other one. */
  predicate IsPlanned(p: Suite, s: Suite, product: string) {
    && p.name == s.name && p.elapsed == s.elapsed && p.status == s.status && p.counts == s.counts
    && (product == "rke2" ==> p.planId == 16)
    && (product != "rke2" ==> p.planId == 17)
  }

  lemma PickedStays(r: seq<Suite>, suites: seq<Suite>, product: string, arch: string, n: nat, at: seq<nat>)
    requires n < |suites| && IsSelection(r, suites, product, arch, n, at)
    ensures forall j :: 0 <= j < |at| ==> at[j] < n && IsPicked(r[j], suites, product, arch, n + 1, at[j])
  {
    forall j | 0 <= j < |at| ensures at[j] < n && IsPicked(r[j], suites, product, arch, n + 1, at[j]) {
      assert IsPicked(r[j], suites, product, arch, n, at[j]);
    }
  }

  lemma OneMore(r: seq<Suite>, suites: seq<Suite>, product: string, arch: string, n: nat, at: seq<nat>)
    requires n < |suites| && IsSelection(r, suites, product, arch, n, at)
    requires Included(suites[n].name, product, arch)
    ensures IsSelection(r + [Plan(suites[n], product)], suites, product, arch, n + 1, at + [n])
  {
    var r', at' := r + [Plan(suites[n], product)], at + [n];
    PickedStays(r, suites, product, arch, n, at);
    forall j | 0 <= j < |at'| ensures IsPicked(r'[j], suites, product, arch, n + 1, at'[j]) {
      if j < |at| { assert IsPicked(r[j], suites, product, arch, n + 1, at[j]); }
    }
    forall k: nat | k < n + 1 && Included(suites[k].name, product, arch) ensures k in at' {
      assert k < n ==> k in at;
      assert at'[|at|] == n;
    }
  }

  lemma NoneMore(r: seq<Suite>, suites: seq<Suite>, product: string, arch: string, n: nat, at: seq<nat>)
    requires n < |suites| && IsSelection(r, suites, product, arch, n, at)
    requires !Included(suites[n].name, product, arch)
    ensures IsSelection(r, suites, product, arch, n + 1, at)
  {
    PickedStays(r, suites, product, arch, n, at);
  }

  lemma SelectStep(suites: seq<Suite>, product: string, arch: string, n: nat, at: seq<nat>) returns (at': seq<nat>)
    requires n < |suites| && IsSelection(Select(suites, product, arch, n), suites, product, arch, n, at)
    ensures IsSelection(Select(suites, product, arch, n + 1), suites, product, arch, n + 1, at')
  {
    var front := Select(suites, product, arch, n);
    if Included(suites[n].name, product, arch) {
      OneMore(front, suites, product, arch, n, at);
      at' := at + [n];
    } else {
      NoneMore(front, suites, product, arch, n, at);
      assert front + [] == front;
      at' := at;
    }
  }

  /** The included suites are taken, in their order and with nothing changed but the plan. */
  lemma {:induction false} SelectMeaning(suites: seq<Suite>, product: string, arch: string, n: nat)
    returns (at: seq<nat>)
    requires n <= |suites|
    ensures IsSelection(Select(suites, product, arch, n), suites, product, arch, n, at)
  {
    if n == 0 {
      at := [];
    } else {
      at := SelectMeaning(suites, product, arch, n - 1);
      at := SelectStep(suites, product, arch, n - 1, at);
    }
  }

  function When(c: bool, d: Detail): seq<Detail> { if c then [d] else [] }

  /** The details of one suite among the first `n`, in order. */
  function DetailsOf(tests: seq<Detail>, suite: string, n: nat): seq<Detail>
    requires n <= |tests|
  {
    if n == 0 then []
    else DetailsOf(tests, suite, n - 1) + When(tests[n - 1].suite == suite, tests[n - 1])
  }

  /** Case ids that a suite name can be given. The source searches a table in no fixed order, so a
      name that matches several entries can be given any of theirs. */
  type CaseIds = string -> seq<int>

  ghost predicate SameButIds(cases: seq<Detail>, plain: seq<Detail>, ids: CaseIds) {
    && |cases| == |plain|
    && forall k :: 0 <= k < |cases| ==> IdentifiedAs(cases[k], plain[k], ids)
  }

  /** The same detail, with a case id if its suite has one. */
  ghost predicate IdentifiedAs(d: Detail, plain: Detail, ids: CaseIds) {
    && d == plain.(caseId := d.caseId)
    && if ids(plain.suite) == [] then d.caseId == plain.caseId else d.caseId in ids(plain.suite)
  }

  ghost predicate AreOverviews(os: seq<Overview>, suites: seq<Suite>, tests: seq<Detail>, ids: CaseIds) {
    |os| == |suites| && forall k :: 0 <= k < |suites| ==> IsOverview(os[k], suites[k], tests, ids)
  }

  ghost predicate IsOverview(o: Overview, s: Suite, tests: seq<Detail>, ids: CaseIds) {
    o.suite == s.name && SameButIds(o.cases, DetailsOf(tests, s.name, |tests|), ids)
  }

  /** The two lists of the report are aligned, every group is the details of its suite in order, and
      the totals are the sums over the included suites. */
  ghost predicate IsRegrouping(pd: Processed, tests: seq<Detail>, suites: seq<Suite>, ids: CaseIds) {
    && pd.suites == suites
    && AreOverviews(pd.summary, suites, tests, ids)
    && pd.failed == Total(suites, Failed)
    && pd.passed == Total(suites, Passed)
    && pd.skipped == Total(suites, Skipped)
  }

  // ---- The loops ----

  /** Any of the ids that match. */
  method ExtractId(matching: seq<int>) returns (found: bool, id: int)
    ensures found <==> matching != []
    ensures found ==> id in matching
  {
    if matching == [] {
      return false, 0;
    }
    assert 0 < |matching|;
    var i: nat :| i < |matching|;
    return true, matching[i];
  }

  method CasesOf(allTests: seq<Detail>, suite: string, ids: CaseIds) returns (cases: seq<Detail>)
    ensures SameButIds(cases, DetailsOf(allTests, suite, |allTests|), ids)
  {
    cases := [];
    for n := 0 to |allTests|
      invariant SameButIds(cases, DetailsOf(allTests, suite, n), ids)
    {
      var td := allTests[n];
      if td.suite == suite {
        var found, id := ExtractId(ids(td.suite));
        if found {
          td := td.(caseId := id);
        }
        cases := cases + [td];
      }
    }
  }

  method ProcessData(allTests: seq<Detail>, allSuites: seq<Suite>, product: string, arch: string, ids: CaseIds)
    returns (pd: Processed)
    ensures IsRegrouping(pd, allTests, Select(allSuites, product, arch, |allSuites|), ids)
    ensures exists at :: IsSelection(pd.suites, allSuites, product, arch, |allSuites|, at)
  {
    var at := SelectMeaning(allSuites, product, arch, |allSuites|);
    pd := Processed(0, 0, 0, [], []);
    for n := 0 to |allSuites|
      invariant IsRegrouping(pd, allTests, Select(allSuites, product, arch, n), ids)
    {
      var suite := allSuites[n];
      if product == "k3s" && !ShouldIncludeTest(suite.name, arch) {
        continue;
      }
      suite := Plan(suite, product);
      var testCases := CasesOf(allTests, suite.name, ids);
      var overview := Overview(suite.name, testCases);
      RegroupStep(pd, allTests, pd.suites, suite, overview, ids);
      pd := Processed(
        pd.failed + suite.counts.failed,
        pd.passed + suite.counts.passed,
        pd.skipped + suite.counts.skipped,
        pd.summary + [overview],
        pd.suites + [suite]);
    }
  }

  lemma RegroupStep(pd: Processed, tests: seq<Detail>, suites: seq<Suite>, s: Suite, o: Overview, ids: CaseIds)
    requires IsRegrouping(pd, tests, suites, ids) && IsOverview(o, s, tests, ids)
    ensures IsRegrouping(
              Processed(pd.failed + s.counts.failed, pd.passed + s.counts.passed, pd.skipped + s.counts.skipped,
                        pd.summary + [o], pd.suites + [s]),
              tests, suites + [s], ids)
  {
    TotalStep(suites, s, Failed);
    TotalStep(suites, s, Passed);
    TotalStep(suites, s, Skipped);
  }

  // ---- Regrouping is a partition ----

  /** The names of the first `n` suites. */
  function Names(suites: seq<Suite>, n: nat): set<string>
    requires n <= |suites|
  {
    if n == 0 then {} else Names(suites, n - 1) + {suites[n - 1].name}
  }

  /** The names of the included ones among the first `n` suites. */
  function IncludedNames(suites: seq<Suite>, product: string, arch: string, n: nat): set<string>
    requires n <= |suites|
  {
    if n == 0 then {}
    else
      IncludedNames(suites, product, arch, n - 1)
      + if Included(suites[n - 1].name, product, arch) then {suites[n - 1].name} else {}
  }

  /** The details among the first `n` whose suite is one of `names`. */
  function DetailsIn(tests: seq<Detail>, names: set<string>, n: nat): seq<Detail>
    requires n <= |tests|
  {
    if n == 0 then []
    else DetailsIn(tests, names, n - 1) + When(tests[n - 1].suite in names, tests[n - 1])
  }

  /** The groups of the first `n` suites, one after the other. */
  function Groups(tests: seq<Detail>, suites: seq<Suite>, n: nat): seq<Detail>
    requires n <= |suites|
  {
    if n == 0 then [] else Groups(tests, suites, n - 1) + DetailsOf(tests, suites[n - 1].name, |tests|)
  }

  lemma {:induction false} NamesHold(suites: seq<Suite>, name: string, n: nat)
    requires n <= |suites| && forall k :: 0 <= k < n ==> suites[k].name != name
    ensures name !in Names(suites, n)
  {
    if n > 0 { NamesHold(suites, name, n - 1); }
  }

  lemma {:induction false} DetailsInSplit(tests: seq<Detail>, names: set<string>, name: string, n: nat)
    requires n <= |tests| && name !in names
    ensures multiset(DetailsIn(tests, names + {name}, n))
         == multiset(DetailsIn(tests, names, n)) + multiset(DetailsOf(tests, name, n))
  {
    if n > 0 {
      DetailsInSplit(tests, names, name, n - 1);
      WhenSplit(names, name, tests[n - 1]);
    }
  }

  lemma WhenSplit(names: set<string>, name: string, d: Detail)
    requires name !in names
    ensures multiset(When(d.suite in names + {name}, d))
         == multiset(When(d.suite in names, d)) + multiset(When(d.suite == name, d))
  {
  }

  lemma {:induction false} DetailsInNone(tests: seq<Detail>, n: nat)
    requires n <= |tests|
    ensures DetailsIn(tests, {}, n) == []
  {
    if n > 0 { DetailsInNone(tests, n - 1); }
  }

  /** Taken together the groups hold every detail of the suites exactly as often as the log does, and
      nothing else. */
  lemma {:induction false} GroupsPartition(tests: seq<Detail>, suites: seq<Suite>, n: nat)
    requires n <= |suites| && UniqueNames(suites)
    ensures multiset(Groups(tests, suites, n)) == multiset(DetailsIn(tests, Names(suites, n), |tests|))
  {
    if n == 0 {
      DetailsInNone(tests, |tests|);
    } else {
      GroupsPartition(tests, suites, n - 1);
      NamesHold(suites, suites[n - 1].name, n - 1);
      DetailsInSplit(tests, Names(suites, n - 1), suites[n - 1].name, |tests|);
    }
  }

  lemma {:induction false} NamesLocal(ss: seq<Suite>, ts: seq<Suite>, n: nat)
    requires n <= |ss| && n <= |ts| && forall k :: 0 <= k < n ==> ss[k] == ts[k]
    ensures Names(ss, n) == Names(ts, n)
  {
    if n > 0 { NamesLocal(ss, ts, n - 1); }
  }

  /** Inclusion keeps exactly the included names. */
  lemma {:induction false} SelectNames(suites: seq<Suite>, product: string, arch: string, n: nat)
    requires n <= |suites|
    ensures var r := Select(suites, product, arch, n); Names(r, |r|) == IncludedNames(suites, product, arch, n)
  {
    if n > 0 {
      SelectNames(suites, product, arch, n - 1);
      var front, last := Select(suites, product, arch, n - 1), suites[n - 1];
      if Included(last.name, product, arch) {
        NamesLocal(front, front + [Plan(last, product)], |front|);
      } else {
        assert Select(suites, product, arch, n) == front;
      }
    }
  }

  /** What is included comes from the suites. */
  ghost predicate ComeFrom(r: seq<Suite>, suites: seq<Suite>, n: nat)
    requires n <= |suites|
  {
    forall j :: 0 <= j < |r| ==> IsNamed(suites, n, r[j].name)
  }

  ghost predicate IsNamed(suites: seq<Suite>, n: nat, name: string)
    requires n <= |suites|
  {
    exists k :: 0 <= k < n && suites[k].name == name
  }

  /** Inclusion keeps names unique. */
  lemma {:induction false} SelectUnique(suites: seq<Suite>, product: string, arch: string, n: nat)
    requires n <= |suites| && UniqueNames(suites)
    ensures UniqueNames(Select(suites, product, arch, n)) && ComeFrom(Select(suites, product, arch, n), suites, n)
  {
    if n > 0 {
      SelectUnique(suites, product, arch, n - 1);
      var front, r, last := Select(suites, product, arch, n - 1), Select(suites, product, arch, n), suites[n - 1];
      forall j | 0 <= j < |r| ensures IsNamed(suites, n, r[j].name) {
        if j < |front| { assert IsNamed(suites, n - 1, front[j].name); }
      }
      forall j | 0 <= j < |front| ensures front[j].name != last.name {
        assert IsNamed(suites, n - 1, front[j].name);
      }
    }
  }

  /** The report's groups partition the details of the included suites. */
  lemma RegroupingIsAPartition(tests: seq<Detail>, suites: seq<Suite>, product: string, arch: string)
    requires UniqueNames(suites)
    ensures var r := Select(suites, product, arch, |suites|);
            multiset(Groups(tests, r, |r|))
            == multiset(DetailsIn(tests, IncludedNames(suites, product, arch, |suites|), |tests|))
  {
    SelectNames(suites, product, arch, |suites|);
    SelectUnique(suites, product, arch, |suites|);
    var r := Select(suites, product, arch, |suites|);
    GroupsPartition(tests, r, |r|);
  }

  // ---- The same of the report ----

  /** The details of the first `n` groups, one group after the other. */
  function DetailsTo(summary: seq<Overview>, n: nat): seq<Detail>
    requires n <= |summary|
  {
    if n == 0 then [] else DetailsTo(summary, n - 1) + summary[n - 1].cases
  }

  function AllDetails(summary: seq<Overview>): seq<Detail> { DetailsTo(summary, |summary|) }

  lemma SameButIdsAppend(a: seq<Detail>, b: seq<Detail>, c: seq<Detail>, d: seq<Detail>, ids: CaseIds)
    requires SameButIds(a, c, ids) && SameButIds(b, d, ids)
    ensures SameButIds(a + b, c + d, ids)
  {
    forall k | 0 <= k < |a + b| ensures IdentifiedAs((a + b)[k], (c + d)[k], ids) {
      if k < |a| {
        assert IdentifiedAs(a[k], c[k], ids);
      } else {
        assert IdentifiedAs(b[k - |a|], d[k - |a|], ids);
      }
    }
  }

  /** The cases of the report are those of the groups, one by one, with ids where there are any. */
  lemma {:induction false} CasesAreGroups(os: seq<Overview>, suites: seq<Suite>, tests: seq<Detail>, ids: CaseIds,
                                          n: nat)
    requires AreOverviews(os, suites, tests, ids) && n <= |os|
    ensures SameButIds(DetailsTo(os, n), Groups(tests, suites, n), ids)
  {
    if n > 0 {
      CasesAreGroups(os, suites, tests, ids, n - 1);
      var o, s := os[n - 1], suites[n - 1];
      assert IsOverview(o, s, tests, ids);
      var group := DetailsOf(tests, s.name, |tests|);
      SameButIdsAppend(DetailsTo(os, n - 1), o.cases, Groups(tests, suites, n - 1), group, ids);
    }
  }

  function WithoutId(d: Detail): Detail { d.(caseId := 0) }

  function WithoutIds(ds: seq<Detail>): seq<Detail> { seq(|ds|, k requires 0 <= k < |ds| => WithoutId(ds[k])) }

  ghost predicate HaveNoIds(ds: seq<Detail>) { forall k :: 0 <= k < |ds| ==> ds[k].caseId == 0 }

  lemma {:induction false} DetailsOfHaveNoIds(tests: seq<Detail>, suite: string, n: nat)
    requires HaveNoIds(tests) && n <= |tests|
    ensures HaveNoIds(DetailsOf(tests, suite, n))
  {
    if n > 0 { DetailsOfHaveNoIds(tests, suite, n - 1); }
  }

  lemma {:induction false} GroupsHaveNoIds(tests: seq<Detail>, suites: seq<Suite>, n: nat)
    requires HaveNoIds(tests) && n <= |suites|
    ensures HaveNoIds(Groups(tests, suites, n))
  {
    if n > 0 {
      GroupsHaveNoIds(tests, suites, n - 1);
      DetailsOfHaveNoIds(tests, suites[n - 1].name, |tests|);
    }
  }

  lemma PlainAgain(ds: seq<Detail>, plain: seq<Detail>, ids: CaseIds)
    requires SameButIds(ds, plain, ids) && HaveNoIds(plain)
    ensures WithoutIds(ds) == plain
  {
    forall k | 0 <= k < |ds| ensures WithoutIds(ds)[k] == plain[k] {
      assert IdentifiedAs(ds[k], plain[k], ids);
    }
  }

  /** The cases of a report are, up to their ids, the details of the included suites, each as often as the
      log holds it. */
  lemma ReportIsAPartition(pd: Processed, tests: seq<Detail>, suites: seq<Suite>, product: string, arch: string,
                           ids: CaseIds)
    requires UniqueNames(suites) && HaveNoIds(tests)
    requires IsRegrouping(pd, tests, Select(suites, product, arch, |suites|), ids)
    ensures multiset(WithoutIds(AllDetails(pd.summary)))
         == multiset(DetailsIn(tests, IncludedNames(suites, product, arch, |suites|), |tests|))
  {
    var r := Select(suites, product, arch, |suites|);
    CasesAreGroups(pd.summary, r, tests, ids, |r|);
    GroupsHaveNoIds(tests, r, |r|);
    PlainAgain(AllDetails(pd.summary), Groups(tests, r, |r|), ids);
    RegroupingIsAPartition(tests, suites, product, arch);
  }

  // ---- What the totals show ----

  /** A counted failure of an included suite makes the total positive. */
  lemma {:induction false} FailureReachesTotal(suites: seq<Suite>, product: string, arch: string, k: nat, n: nat)
    requires k < n <= |suites| && Included(suites[k].name, product, arch)
    ensures suites[k].counts.failed <= Total(Select(suites, product, arch, n), Failed)
  {
    var front := Select(suites, product, arch, n - 1);
    if Included(suites[n - 1].name, product, arch) {
      TotalStep(front, Plan(suites[n - 1], product), Failed);
    } else {
      assert front + [] == front;
    }
    if k < n - 1 { FailureReachesTotal(suites, product, arch, k, n - 1); }
  }

  /** The status in the title of the Slack message. */
  function StatusText(pd: Processed): string { if pd.failed > 0 then "FAILED" else "PASSED" }

  /** An included suite among the first `n` counts a failure. */
  ghost predicate SomeFailed(suites: seq<Suite>, product: string, arch: string, n: nat)
    requires n <= |suites|
  {
    exists k :: 0 <= k < n && Included(suites[k].name, product, arch) && 0 < suites[k].counts.failed
  }

  lemma SomeFailedStep(suites: seq<Suite>, product: string, arch: string, n: nat)
    requires n < |suites|
    ensures SomeFailed(suites, product, arch, n + 1)
       <==> SomeFailed(suites, product, arch, n)
            || (Included(suites[n].name, product, arch) && 0 < suites[n].counts.failed)
  {
    if SomeFailed(suites, product, arch, n) {
      var k :| 0 <= k < n && Included(suites[k].name, product, arch) && 0 < suites[k].counts.failed;
      assert k < n + 1;
    }
  }

  lemma SelectTotalStep(suites: seq<Suite>, product: string, arch: string, n: nat)
    requires n < |suites|
    ensures Total(Select(suites, product, arch, n + 1), Failed)
         == Total(Select(suites, product, arch, n), Failed)
            + if Included(suites[n].name, product, arch) then suites[n].counts.failed else 0
  {
    var front := Select(suites, product, arch, n);
    if Included(suites[n].name, product, arch) {
      TotalStep(front, Plan(suites[n], product), Failed);
    } else {
      assert front + [] == front;
    }
  }

  lemma {:induction false} TotalFailedMeaning(suites: seq<Suite>, product: string, arch: string, n: nat)
    requires n <= |suites|
    ensures 0 < Total(Select(suites, product, arch, n), Failed) <==> SomeFailed(suites, product, arch, n)
  {
    if n > 0 {
      TotalFailedMeaning(suites, product, arch, n - 1);
      SomeFailedStep(suites, product, arch, n - 1);
      SelectTotalStep(suites, product, arch, n - 1);
    }
  }

  /** The title says `FAILED` if an included suite counts a failure, and `PASSED` if none does. */
  lemma StatusMeaning(pd: Processed, tests: seq<Detail>, suites: seq<Suite>, product: string, arch: string,
                      ids: CaseIds)
    requires IsRegrouping(pd, tests, Select(suites, product, arch, |suites|), ids)
    ensures StatusText(pd) == if SomeFailed(suites, product, arch, |suites|) then "FAILED" else "PASSED"
  {
    TotalFailedMeaning(suites, product, arch, |suites|);
  }

  /** Where every suite is included the totals lose nothing. */
  lemma {:induction false} SelectAllTotal(suites: seq<Suite>, product: string, arch: string, v: Verdict, n: nat)
    requires n <= |suites| && forall k :: 0 <= k < n ==> Included(suites[k].name, product, arch)
    ensures Total(Select(suites, product, arch, n), v) == TotalTo(suites, v, n)
  {
    if n > 0 {
      SelectAllTotal(suites, product, arch, v, n - 1);
      TotalStep(Select(suites, product, arch, n - 1), Plan(suites[n - 1], product), v);
    }
  }
}
