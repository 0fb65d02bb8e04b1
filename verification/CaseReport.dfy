/** What is reported to Qase: the cases that a run declares, the results submitted for it, and the
    order of the calls. */
module CaseReport {
  import opened EventFold
  import opened Options
  import opened Regroup
  import opened Streaming

  datatype TestCase = TestCase(name: string, status: Verdict, elapsed: int, caseId: int)

  datatype Request = Request(runId: int, caseId: int, status: Verdict, time: int)

  /** Conversion of a float to an integer, toward zero. */
  function Truncate(x: real): int { if x < 0.0 then -(-x).Floor else x.Floor }

  function CaseOf(d: Detail): TestCase {
    TestCase(d.suite + " " + d.name, d.status, Truncate(d.elapsed), d.caseId)
  }

  /** A whole number not beyond `x` and less than one short of it, on the side of zero. */
  predicate IsTruncation(r: int, x: real) {
    if x < 0.0 then x <= r as real < x + 1.0 && r <= 0 else x - 1.0 < r as real <= x && 0 <= r
  }

  lemma TruncateMeaning(x: real, r: int)
    ensures IsTruncation(r, x) <==> r == Truncate(x)
  {
  }

  /** The case of a detail: the names of its suite and its own, its verdict, its id, and its time in whole
      units. */
  predicate IsCaseOf(c: TestCase, d: Detail) {
    && c.name == d.suite + " " + d.name && c.status == d.status && c.caseId == d.caseId
    && IsTruncation(c.elapsed, d.elapsed)
  }

  ghost predicate AreCasesOf(cases: seq<TestCase>, ds: seq<Detail>) {
    |cases| == |ds| && forall k :: 0 <= k < |ds| ==> cases[k] == CaseOf(ds[k])
  }

  /** No id comes twice. */
  ghost predicate Distinct(ids: seq<int>) {
    forall j :: 0 <= j < |ids| ==> IsNew(ids, j)
  }

  predicate IsNew(ids: seq<int>, j: nat)
    requires j < |ids|
  {
    ids[j] !in ids[..j]
  }

  ghost predicate HasId(all: seq<int>, n: nat, id: int)
    requires n <= |all|
  {
    exists k :: 0 <= k < n && all[k] == id
  }

  /** `ids` lists the real ids among the first `n` of `all`, each once, and nothing else. */
  ghost predicate ListsIds(ids: seq<int>, all: seq<int>, n: nat)
    requires n <= |all|
  {
    && Distinct(ids)
    && (forall i :: 0 <= i < |ids| ==> IsReal(ids, i, all, n))
    && (forall k :: 0 <= k < n ==> IsListed(ids, all, k))
  }

  ghost predicate IsReal(ids: seq<int>, i: nat, all: seq<int>, n: nat)
    requires i < |ids| && n <= |all|
  {
    ids[i] > 0 && HasId(all, n, ids[i])
  }

  predicate IsListed(ids: seq<int>, all: seq<int>, k: nat)
    requires k < |all|
  {
    all[k] > 0 ==> all[k] in ids
  }

  /** The list with one more id, if that is a real one and new. */
  function Extend(ids: seq<int>, id: int): seq<int> { if id > 0 && id !in ids then ids + [id] else ids }

  function SetOf(ids: seq<int>): set<int> { set i | 0 <= i < |ids| :: ids[i] }

  lemma SetOfStep(ids: seq<int>, id: int)
    ensures id in SetOf(ids) <==> id in ids
    ensures SetOf(ids + [id]) == SetOf(ids) + {id}
  {
    forall x | x in SetOf(ids) + {id} ensures x in SetOf(ids + [id]) {
      if x in SetOf(ids) {
        var i :| 0 <= i < |ids| && ids[i] == x;
        assert (ids + [id])[i] == x;
      } else {
        assert (ids + [id])[|ids|] == x;
      }
    }
  }

  lemma ListsLocal(ids: seq<int>, all: seq<int>, more: seq<int>, n: nat)
    requires n <= |all| && n <= |more| && forall k :: 0 <= k < n ==> all[k] == more[k]
    requires ListsIds(ids, all, n)
    ensures ListsIds(ids, more, n)
  {
    forall i | 0 <= i < |ids| ensures IsReal(ids, i, more, n) {
      assert IsReal(ids, i, all, n);
    }
    forall k | 0 <= k < n ensures IsListed(ids, more, k) {
      assert IsListed(ids, all, k);
    }
  }

  lemma ListsStep(ids: seq<int>, all: seq<int>, n: nat)
    requires n < |all| && ListsIds(ids, all, n)
    ensures ListsIds(Extend(ids, all[n]), all, n + 1)
  {
    var more, m := Extend(ids, all[n]), n + 1;
    forall j | 0 <= j < |more| ensures IsNew(more, j) {
      assert more[..j] == ids[..j];
      if j < |ids| {
        assert IsNew(ids, j);
      } else {
        assert ids[..j] == ids;
      }
    }
    forall i | 0 <= i < |more| ensures IsReal(more, i, all, m) {
      if i < |ids| { assert IsReal(ids, i, all, n); }
    }
    forall k | 0 <= k < m ensures IsListed(more, all, k) {
      if k < n { assert IsListed(ids, all, k); }
    }
  }

  lemma {:induction false} DistinctOnce(ids: seq<int>, id: int, n: nat)
    requires n <= |ids| && Distinct(ids)
    ensures multiset(ids[..n])[id] == if id in ids[..n] then 1 else 0
  {
    if n > 0 {
      DistinctOnce(ids, id, n - 1);
      assert IsNew(ids, n - 1);
      assert ids[..n] == ids[..n - 1] + [ids[n - 1]];
    }
  }

  lemma ListedIff(ids: seq<int>, all: seq<int>, id: int)
    requires ListsIds(ids, all, |all|)
    ensures id in ids <==> id > 0 && HasId(all, |all|, id)
  {
    if id in ids {
      var i :| 0 <= i < |ids| && ids[i] == id;
      assert IsReal(ids, i, all, |all|);
    }
    if id > 0 && HasId(all, |all|, id) {
      var k :| 0 <= k < |all| && all[k] == id;
      assert IsListed(ids, all, k);
    }
  }

  /** Two listings of the same ids are the same up to order. */
  lemma ListingsAgree(ids: seq<int>, ids': seq<int>, all: seq<int>)
    requires ListsIds(ids, all, |all|) && ListsIds(ids', all, |all|)
    ensures multiset(ids) == multiset(ids')
  {
    assert ids[..|ids|] == ids && ids'[..|ids'|] == ids';
    forall id: int ensures multiset(ids)[id] == multiset(ids')[id] {
      ListedIff(ids, all, id);
      ListedIff(ids', all, id);
      DistinctOnce(ids, id, |ids|);
      DistinctOnce(ids', id, |ids'|);
    }
  }

  function DetailIds(ds: seq<Detail>): seq<int> { seq(|ds|, k requires 0 <= k < |ds| => ds[k].caseId) }

  function CaseIdsOf(cases: seq<TestCase>): seq<int> { seq(|cases|, k requires 0 <= k < |cases| => cases[k].caseId) }

  // ---- Declaring the cases ----

  method CollectCaseIds(summary: seq<Overview>) returns (ids: seq<int>)
    ensures var all := DetailIds(AllDetails(summary)); ListsIds(ids, all, |all|)
  {
    var seen: set<int> := {};
    ids := [];
    for n := 0 to |summary|
      invariant var all := DetailIds(DetailsTo(summary, n)); ListsIds(ids, all, |all|)
      invariant seen == SetOf(ids)
    {
      ghost var before, all := DetailIds(DetailsTo(summary, n)), DetailIds(DetailsTo(summary, n + 1));
      ListsLocal(ids, before, all, |before|);
      ids, seen := CollectGroup(ids, seen, all, |before|, summary[n].cases);
    }
  }

  /** The cases of one group, whose ids come after the first `n` of `all`. */
  method CollectGroup(ids: seq<int>, seen: set<int>, ghost all: seq<int>, ghost n: nat, cases: seq<Detail>)
    returns (ids': seq<int>, seen': set<int>)
    requires n + |cases| == |all| && forall k :: 0 <= k < |cases| ==> cases[k].caseId == all[n + k]
    requires ListsIds(ids, all, n) && seen == SetOf(ids)
    ensures ListsIds(ids', all, |all|) && seen' == SetOf(ids')
  {
    ids', seen' := ids, seen;
    for k := 0 to |cases|
      invariant ListsIds(ids', all, n + k) && seen' == SetOf(ids')
    {
      ListsStep(ids', all, n + k);
      ids', seen' := AddId(ids', seen', cases[k].caseId);
    }
  }

  method AddId(ids: seq<int>, seen: set<int>, id: int) returns (ids': seq<int>, seen': set<int>)
    requires seen == SetOf(ids)
    ensures ids' == Extend(ids, id) && seen' == SetOf(ids')
  {
    ids', seen' := ids, seen;
    SetOfStep(ids, id);
    if id > 0 && id !in seen {
      seen' := seen + {id};
      ids' := ids + [id];
    }
  }

  // ---- Submitting the results ----

  method TestSuiteDetailsToTestCase(summary: seq<Overview>) returns (cases: seq<TestCase>)
    ensures AreCasesOf(cases, AllDetails(summary))
    ensures forall k :: 0 <= k < |cases| ==> IsCaseOf(cases[k], AllDetails(summary)[k])
  {
    cases := [];
    for n := 0 to |summary|
      invariant AreCasesOf(cases, DetailsTo(summary, n))
    {
      var group := summary[n].cases;
      ghost var before := DetailsTo(summary, n);
      assert before + group[..0] == before;
      for k := 0 to |group|
        invariant AreCasesOf(cases, before + group[..k])
      {
        assert before + group[..k + 1] == before + group[..k] + [group[k]];
        cases := cases + [CaseOf(group[k])];
      }
      assert group[..|group|] == group;
    }
    forall k | 0 <= k < |cases| ensures IsCaseOf(cases[k], AllDetails(summary)[k]) {
      TruncateMeaning(AllDetails(summary)[k].elapsed, cases[k].elapsed);
    }
  }

  /** The cases with this id among the first `n`, in order. */
  function GroupTo(cases: seq<TestCase>, id: int, n: nat): seq<TestCase>
    requires n <= |cases|
  {
    if n == 0 then []
    else GroupTo(cases, id, n - 1) + if cases[n - 1].caseId == id then [cases[n - 1]] else []
  }

  function AnyFailed(group: seq<TestCase>, n: nat): bool
    requires n <= |group|
  {
    n > 0 && (AnyFailed(group, n - 1) || group[n - 1].status == Failed)
  }

  function ElapsedTo(group: seq<TestCase>, n: nat): int
    requires n <= |group|
  {
    if n == 0 then 0 else ElapsedTo(group, n - 1) + group[n - 1].elapsed
  }

  /** The cases with a real id, grouped by it, in the order in which they come. */
  ghost predicate IsGrouping(groups: map<int, seq<TestCase>>, cases: seq<TestCase>, n: nat)
    requires n <= |cases|
  {
    && (forall id :: id in groups ==> id > 0 && groups[id] == GroupTo(cases, id, n) && groups[id] != [])
    && (forall k :: 0 <= k < n && cases[k].caseId > 0 ==> cases[k].caseId in groups)
  }

  method GroupCases(cases: seq<TestCase>) returns (groups: map<int, seq<TestCase>>)
    ensures IsGrouping(groups, cases, |cases|)
  {
    groups := map[];
    for n := 0 to |cases|
      invariant IsGrouping(groups, cases, n)
    {
      var tc := cases[n];
      if tc.caseId <= 0 {
        continue;
      }
      NoGroup(cases, tc.caseId, n);
      var group := if tc.caseId in groups then groups[tc.caseId] else [];
      groups := groups[tc.caseId := group + [tc]];
    }
  }

  lemma {:induction false} NoGroup(cases: seq<TestCase>, id: int, n: nat)
    requires n <= |cases|
    ensures GroupTo(cases, id, n) == [] <==> forall k :: 0 <= k < n ==> cases[k].caseId != id
  {
    if n > 0 { NoGroup(cases, id, n - 1); }
  }

  /** The result that a group of cases comes to: failed if any of them failed, passed otherwise. */
  function RequestOf(runId: int, id: int, group: seq<TestCase>): Request {
    Request(runId, id, if AnyFailed(group, |group|) then Failed else Passed, ElapsedTo(group, |group|))
  }

  method Summarize(runId: int, id: int, group: seq<TestCase>) returns (req: Request)
    ensures req == RequestOf(runId, id, group)
  {
    var finalStatus, totalElapsed := Passed, 0;
    for k := 0 to |group|
      invariant finalStatus == if AnyFailed(group, k) then Failed else Passed
      invariant totalElapsed == ElapsedTo(group, k)
    {
      totalElapsed := totalElapsed + group[k].elapsed;
      if group[k].status == Failed {
        finalStatus := Failed;
      }
    }
    return Request(runId, id, finalStatus, totalElapsed);
  }

  /** One request for each id of `order`, made of its group. */
  ghost predicate AreRequests(reqs: seq<Request>, order: seq<int>, runId: int, cases: seq<TestCase>) {
    && |reqs| == |order|
    && forall i :: 0 <= i < |order| ==> reqs[i] == RequestOf(runId, order[i], GroupTo(cases, order[i], |cases|))
  }

  /** The bulk request. `order` is the order in which the map of groups happens to be visited: any
      listing of its keys. */
  method ParseBulkResults(cases: seq<TestCase>, runId: int, order: seq<int>) returns (reqs: seq<Request>)
    requires ListsIds(order, CaseIdsOf(cases), |cases|)
    ensures AreRequests(reqs, order, runId, cases)
  {
    var groups := GroupCases(cases);
    reqs := [];
    for i := 0 to |order|
      invariant AreRequests(reqs, order[..i], runId, cases)
    {
      HasGroup(cases, groups, order, i);
      var req := Summarize(runId, order[i], groups[order[i]]);
      reqs := reqs + [req];
    }
    assert order[..|order|] == order;
  }

  lemma HasGroup(cases: seq<TestCase>, groups: map<int, seq<TestCase>>, order: seq<int>, i: nat)
    requires ListsIds(order, CaseIdsOf(cases), |cases|) && i < |order|
    requires IsGrouping(groups, cases, |cases|)
    ensures order[i] in groups
  {
    assert IsReal(order, i, CaseIdsOf(cases), |cases|);
    var k :| 0 <= k < |cases| && CaseIdsOf(cases)[k] == order[i];
    assert cases[k].caseId in groups;
  }

  // ---- Meaning of a group ----

  lemma {:induction false} AnyFailedMeaning(cases: seq<TestCase>, id: int, n: nat)
    requires n <= |cases|
    ensures var g := GroupTo(cases, id, n);
            AnyFailed(g, |g|) <==> exists k :: 0 <= k < n && cases[k].caseId == id && cases[k].status == Failed
  {
    if n > 0 {
      AnyFailedMeaning(cases, id, n - 1);
      var front, last := GroupTo(cases, id, n - 1), cases[n - 1];
      if last.caseId == id {
        AnyFailedLocal(front, front + [last], |front|);
      } else {
        assert GroupTo(cases, id, n) == front;
      }
    }
  }

  lemma {:induction false} AnyFailedLocal(g: seq<TestCase>, h: seq<TestCase>, n: nat)
    requires n <= |g| && n <= |h| && forall k :: 0 <= k < n ==> g[k] == h[k]
    ensures AnyFailed(g, n) == AnyFailed(h, n) && ElapsedTo(g, n) == ElapsedTo(h, n)
  {
    if n > 0 { AnyFailedLocal(g, h, n - 1); }
  }

  /** The elapsed time of the cases with this id among the first `n`. */
  function ElapsedOf(cases: seq<TestCase>, id: int, n: nat): int
    requires n <= |cases|
  {
    if n == 0 then 0 else ElapsedOf(cases, id, n - 1) + if cases[n - 1].caseId == id then cases[n - 1].elapsed else 0
  }

  lemma {:induction false} ElapsedMeaning(cases: seq<TestCase>, id: int, n: nat)
    requires n <= |cases|
    ensures var g := GroupTo(cases, id, n); ElapsedTo(g, |g|) == ElapsedOf(cases, id, n)
  {
    if n > 0 {
      ElapsedMeaning(cases, id, n - 1);
      var front, last := GroupTo(cases, id, n - 1), cases[n - 1];
      if last.caseId == id {
        AnyFailedLocal(front, front + [last], |front|);
      } else {
        assert GroupTo(cases, id, n) == front;
      }
    }
  }

  /** The elapsed time of the cases with a real id among the first `n`. */
  function RealElapsed(cases: seq<TestCase>, n: nat): int
    requires n <= |cases|
  {
    if n == 0 then 0 else RealElapsed(cases, n - 1) + if cases[n - 1].caseId > 0 then cases[n - 1].elapsed else 0
  }

  function TimeOf(reqs: seq<Request>, n: nat): int
    requires n <= |reqs|
  {
    if n == 0 then 0 else TimeOf(reqs, n - 1) + reqs[n - 1].time
  }

  /** The elapsed time among the first `n` cases, id by id. */
  function ElapsedById(cases: seq<TestCase>, order: seq<int>, i: nat, n: nat): int
    requires i <= |order| && n <= |cases|
  {
    if i == 0 then 0 else ElapsedById(cases, order, i - 1, n) + ElapsedOf(cases, order[i - 1], n)
  }

  /** One more case adds its time to the one id that is its own. */
  lemma {:induction false} ElapsedByIdStep(cases: seq<TestCase>, order: seq<int>, i: nat, n: nat)
    requires i <= |order| && n < |cases| && Distinct(order)
    ensures ElapsedById(cases, order, i, n + 1)
         == ElapsedById(cases, order, i, n) + if cases[n].caseId in order[..i] then cases[n].elapsed else 0
  {
    if i > 0 {
      ElapsedByIdStep(cases, order, i - 1, n);
      assert IsNew(order, i - 1);
      assert order[..i] == order[..i - 1] + [order[i - 1]];
    }
  }

  lemma {:induction false} ElapsedByIdZero(cases: seq<TestCase>, order: seq<int>, i: nat)
    requires i <= |order|
    ensures ElapsedById(cases, order, i, 0) == 0
  {
    if i > 0 { ElapsedByIdZero(cases, order, i - 1); }
  }

  /** Whatever the order, no time is lost and none is counted twice. */
  lemma {:induction false} TimeIsConserved(cases: seq<TestCase>, order: seq<int>, n: nat)
    requires n <= |cases|
    requires ListsIds(order, CaseIdsOf(cases), |cases|)
    ensures ElapsedById(cases, order, |order|, n) == RealElapsed(cases, n)
  {
    if n == 0 {
      ElapsedByIdZero(cases, order, |order|);
    } else {
      TimeIsConserved(cases, order, n - 1);
      ElapsedByIdStep(cases, order, |order|, n - 1);
      assert order[..|order|] == order;
      assert CaseIdsOf(cases)[n - 1] == cases[n - 1].caseId;
      ListedIff(order, CaseIdsOf(cases), cases[n - 1].caseId);
    }
  }

  lemma {:induction false} TimeById(reqs: seq<Request>, order: seq<int>, runId: int, cases: seq<TestCase>, i: nat)
    requires AreRequests(reqs, order, runId, cases) && i <= |order|
    ensures TimeOf(reqs, i) == ElapsedById(cases, order, i, |cases|)
  {
    if i > 0 {
      TimeById(reqs, order, runId, cases, i - 1);
      ElapsedMeaning(cases, order[i - 1], |cases|);
    }
  }

  // ---- The report as a whole ----

  /** The elapsed time, in whole units, of the details with this id. */
  function TimeWith(ds: seq<Detail>, id: int, n: nat): int
    requires n <= |ds|
  {
    if n == 0 then 0 else TimeWith(ds, id, n - 1) + if ds[n - 1].caseId == id then Truncate(ds[n - 1].elapsed) else 0
  }

  /** The result submitted for an id says what its cases came to, failed exactly if one of them did, and
      how long they took together. */
  ghost predicate SaysWhatHappened(req: Request, ds: seq<Detail>) {
    && req.status == (if exists k :: 0 <= k < |ds| && ds[k].caseId == req.caseId && ds[k].status == Failed
                      then Failed else Passed)
    && req.time == TimeWith(ds, req.caseId, |ds|)
  }

  lemma {:induction false} TimeWithOfCases(cases: seq<TestCase>, ds: seq<Detail>, id: int, n: nat)
    requires AreCasesOf(cases, ds) && n <= |ds|
    ensures ElapsedOf(cases, id, n) == TimeWith(ds, id, n)
  {
    if n > 0 { TimeWithOfCases(cases, ds, id, n - 1); }
  }

  function RequestIds(reqs: seq<Request>): seq<int> { seq(|reqs|, i requires 0 <= i < |reqs| => reqs[i].caseId) }

  /** The elapsed time, in whole units, of the details with a real id. */
  function RealTime(ds: seq<Detail>, n: nat): int
    requires n <= |ds|
  {
    if n == 0 then 0 else RealTime(ds, n - 1) + if ds[n - 1].caseId > 0 then Truncate(ds[n - 1].elapsed) else 0
  }

  lemma {:induction false} RealTimeOfCases(cases: seq<TestCase>, ds: seq<Detail>, n: nat)
    requires AreCasesOf(cases, ds) && n <= |ds|
    ensures RealElapsed(cases, n) == RealTime(ds, n)
  {
    if n > 0 { RealTimeOfCases(cases, ds, n - 1); }
  }

  /** Declared cases equal reported cases, in whatever order the groups are visited: the same ids, each
      once; each result failed exactly if one of its cases did; and no time lost or counted twice. */
  lemma DeclaredEqualsReported(ds: seq<Detail>, declared: seq<int>, cases: seq<TestCase>, order: seq<int>, runId: int,
                               reqs: seq<Request>)
    requires ListsIds(declared, DetailIds(ds), |ds|) && AreCasesOf(cases, ds)
    requires ListsIds(order, CaseIdsOf(cases), |cases|) && AreRequests(reqs, order, runId, cases)
    ensures multiset(declared) == multiset(RequestIds(reqs)) && Distinct(declared)
    ensures forall i :: 0 <= i < |reqs| ==> SaysWhatHappened(reqs[i], ds)
    ensures TimeOf(reqs, |reqs|) == RealTime(ds, |ds|)
  {
    assert CaseIdsOf(cases) == DetailIds(ds);
    ListingsAgree(declared, order, DetailIds(ds));
    assert RequestIds(reqs) == order;
    forall i | 0 <= i < |reqs| ensures SaysWhatHappened(reqs[i], ds) {
      AnyFailedMeaning(cases, order[i], |cases|);
      SameFailures(cases, ds, order[i]);
      ElapsedMeaning(cases, order[i], |cases|);
      TimeWithOfCases(cases, ds, order[i], |cases|);
    }
    TimeById(reqs, order, runId, cases, |order|);
    TimeIsConserved(cases, order, |cases|);
    RealTimeOfCases(cases, ds, |ds|);
  }

  lemma SameFailures(cases: seq<TestCase>, ds: seq<Detail>, id: int)
    requires AreCasesOf(cases, ds)
    ensures (exists k :: 0 <= k < |cases| && cases[k].caseId == id && cases[k].status == Failed)
       <==> (exists k :: 0 <= k < |ds| && ds[k].caseId == id && ds[k].status == Failed)
  {
    if k :| 0 <= k < |cases| && cases[k].caseId == id && cases[k].status == Failed {
      assert ds[k].caseId == id && ds[k].status == Failed;
    }
    if k :| 0 <= k < |ds| && ds[k].caseId == id && ds[k].status == Failed {
      assert cases[k].caseId == id && cases[k].status == Failed;
    }
  }

  datatype Call = CreateRun(cases: seq<int>) | SubmitResults(runId: int, reqs: seq<Request>) | CompleteRun(runId: int)

  predicate IsInt32(id: int) { -0x8000_0000 <= id < 0x8000_0000 }

  /** The answer to the creation of a run. */
  datatype Created = Refused | WithoutId | WithId(id: int)

  datatype Outcome = Error | Panic | Reported(runId: int)

  /** The run can be used. */
  predicate IsUsable(created: Created) { created.WithId? && IsInt32(created.id) }

  /** The results submitted say of every declared case what happened, and lose no time. */
  ghost predicate SubmitsAll(call: Call, declared: seq<int>, ds: seq<Detail>)
    requires call.SubmitResults?
  {
    && multiset(RequestIds(call.reqs)) == multiset(declared)
    && (forall r :: r in call.reqs ==> r.runId == call.runId && SaysWhatHappened(r, ds))
    && TimeOf(call.reqs, |call.reqs|) == RealTime(ds, |ds|)
  }

  /** The calls of a report, of which a failing one is the last: the run declares all cases, results are
      submitted to it if there are any, and it is completed only after that succeeded. */
  ghost predicate IsReport(calls: seq<Call>, ds: seq<Detail>, created: Created, submitted: bool) {
    && 1 <= |calls| <= 3 && calls[0].CreateRun?
    && ListsIds(calls[0].cases, DetailIds(ds), |ds|)
    && (1 < |calls| <==> IsUsable(created))
    && (forall i :: 0 < i < |calls| ==> !calls[i].CreateRun? && calls[i].runId == created.id)
    && (forall i :: 0 <= i < |calls| && calls[i].SubmitResults? ==> i == 1 && SubmitsAll(calls[i], calls[0].cases, ds))
    && (1 < |calls| ==> (calls[1].SubmitResults? <==> calls[0].cases != []))
    && (1 < |calls| ==> (calls[|calls| - 1].CompleteRun? <==> calls[0].cases == [] || submitted))
    && (|calls| == 3 ==> calls[1].SubmitResults?)
  }

  /** The order in which a map of groups is visited, as a rearrangement of any listing of its keys. */
  ghost predicate Permutes(visit: seq<int> -> seq<int>) {
    forall ids: seq<int> :: multiset(visit(ids)) == multiset(ids)
  }

  lemma OnceIsDistinct(ids: seq<int>)
    requires forall id: int :: multiset(ids)[id] <= 1
    ensures Distinct(ids)
  {
    forall j | 0 <= j < |ids| ensures IsNew(ids, j) {
      var id := ids[j];
      assert multiset(ids)[id] <= 1;
      assert ids == ids[..j] + ([id] + ids[j + 1..]);
      assert multiset(ids) == multiset(ids[..j]) + multiset([id] + ids[j + 1..]);
    }
  }

  lemma PermutedLists(ids: seq<int>, order: seq<int>, all: seq<int>)
    requires ListsIds(ids, all, |all|) && multiset(order) == multiset(ids)
    ensures ListsIds(order, all, |all|)
  {
    assert ids[..|ids|] == ids;
    forall id: int ensures multiset(order)[id] <= 1 { DistinctOnce(ids, id, |ids|); }
    OnceIsDistinct(order);
    forall i | 0 <= i < |order| ensures IsReal(order, i, all, |all|) {
      assert order[i] in multiset(order);
      ListedIff(ids, all, order[i]);
    }
    forall k | 0 <= k < |all| ensures IsListed(order, all, k) {
      assert IsListed(ids, all, k);
      assert all[k] in multiset(ids) <==> all[k] in multiset(order);
    }
  }

  /** What follows the reading of the log. `created`, `submitted` and `completed` are the answers of the
      service. */
  method ReportSummary(summary: seq<Overview>, created: Created, submitted: bool, completed: bool,
                       visit: seq<int> -> seq<int>)
    returns (calls: seq<Call>, outcome: Outcome)
    requires Permutes(visit)
    ensures IsReport(calls, AllDetails(summary), created, submitted)
    ensures 1 < |calls| <==> created.WithId? && -2147483648 <= created.id <= 2147483647
    ensures outcome == Panic <==> created.WithoutId?
    ensures outcome.Reported? <==> calls[|calls| - 1].CompleteRun? && completed
    ensures outcome.Reported? ==> created == WithId(outcome.runId)
  {
    var declared := CollectCaseIds(summary);
    calls, outcome := [CreateRun(declared)], Error;
    if !IsUsable(created) {
      return calls, if created.WithoutId? then Panic else Error;
    }
    var cases := TestSuiteDetailsToTestCase(summary);
    assert CaseIdsOf(cases) == DetailIds(AllDetails(summary));
    var order := visit(declared);
    PermutedLists(declared, order, CaseIdsOf(cases));
    var reqs := ParseBulkResults(cases, created.id, order);
    DeclaredEqualsReported(AllDetails(summary), declared, cases, order, created.id, reqs);
    assert declared == [] <==> reqs == [] by {
      assert |multiset(declared)| == |multiset(RequestIds(reqs))|;
    }
    if |reqs| > 0 {
      calls := calls + [SubmitResults(created.id, reqs)];
      if !submitted {
        return;
      }
    }
    calls := calls + [CompleteRun(created.id)];
    if completed {
      outcome := Reported(created.id);
    }
  }

  /** The results submitted have a failed one for this id. */
  ghost predicate ReportsFailed(call: Call, id: int) {
    call.SubmitResults? && exists r :: 0 <= r < |call.reqs| && IsFailedRequest(call.reqs[r], id)
  }

  predicate IsFailedRequest(req: Request, id: int) { req.caseId == id && req.status == Failed }

  /** A failed detail with a real id is reported as failed by every report that gets as far as submitting. */
  lemma FailedDetailIsReported(calls: seq<Call>, ds: seq<Detail>, created: Created, submitted: bool, k: nat)
    requires IsReport(calls, ds, created, submitted) && IsUsable(created)
    requires k < |ds| && ds[k].status == Failed && 0 < ds[k].caseId
    ensures ReportsFailed(calls[1], ds[k].caseId)
  {
    var id, declared := ds[k].caseId, calls[0].cases;
    assert DetailIds(ds)[k] == id;
    ListedIff(declared, DetailIds(ds), id);
    var call := calls[1];
    assert SubmitsAll(call, declared, ds);
    assert id in multiset(declared) && id in multiset(RequestIds(call.reqs));
    var r :| 0 <= r < |call.reqs| && RequestIds(call.reqs)[r] == id;
    assert call.reqs[r] in call.reqs && SaysWhatHappened(call.reqs[r], ds);
    assert IsFailedRequest(call.reqs[r], id);
  }
}
