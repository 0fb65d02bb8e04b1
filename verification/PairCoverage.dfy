/** Checking that every service reaches every other one. */
module PairCoverage {
  /** One check: from the pods of `source`, `target` is called on its own port and has to answer with
      its own text. */
  datatype Check = Check(source: string, target: string, port: string, expected: string)

  datatype Outcome = Passed | CheckFailed | BadLengths | TooFew | Panics

  /** From service `i` to service `j`. */
  datatype Pair = Pair(i: nat, j: nat)

  /** What the checks of some pairs look like. */
  ghost predicate AreChecks(checks: seq<Check>, pairs: seq<Pair>, services: seq<string>, ports: seq<string>,
                            expected: seq<string>)
  {
    && |checks| == |pairs|
    && forall n :: 0 <= n < |pairs| ==> IsCheck(checks[n], pairs[n], services, ports, expected)
  }

  predicate IsCheck(c: Check, p: Pair, services: seq<string>, ports: seq<string>, expected: seq<string>) {
    && p.i < |services| && p.j < |services| && p.j < |ports| && p.j < |expected|
    && c == Check(services[p.i], services[p.j], ports[p.j], expected[p.j])
  }

  // ---- The order of the pairs ----

  /** From service `i`, the services `i + 1` to `j - 1`. */
  function Row(i: nat, j: nat): seq<Pair> { if j <= i + 1 then [] else Row(i, j - 1) + [Pair(i, j - 1)] }

  /** The rows of the services 0 to `k - 1`, towards the later ones. */
  function Forward(n: nat, k: nat): seq<Pair> { if k == 0 then [] else Forward(n, k - 1) + Row(k - 1, n) }

  /** From service `i`, the services before it from `i - 1` down to `i - m`. */
  function Column(i: nat, m: nat): seq<Pair>
    requires m <= i
  {
    if m == 0 then [] else Column(i, m - 1) + [Pair(i, i - m)]
  }

  /** The columns of the services from `n - 1` down to `n - k`. */
  function Backward(n: nat, k: nat): seq<Pair>
    requires k <= n
  {
    if k == 0 then [] else Backward(n, k - 1) + Column(n - k, n - k)
  }

  function AllPairs(n: nat): seq<Pair> { Forward(n, n) + Backward(n, n) }

  // ---- Each ordered pair once ----

  /** How often `p` comes among the first `k`. */
  function TimesTo(s: seq<Pair>, p: Pair, k: nat): nat
    requires k <= |s|
  {
    if k == 0 then 0 else TimesTo(s, p, k - 1) + if s[k - 1] == p then 1 else 0
  }

  function Times(s: seq<Pair>, p: Pair): nat { TimesTo(s, p, |s|) }

  lemma {:induction false} TimesAppendTo(a: seq<Pair>, b: seq<Pair>, p: Pair, k: nat)
    requires k <= |a| + |b|
    ensures TimesTo(a + b, p, k) == if k <= |a| then TimesTo(a, p, k) else TimesTo(a, p, |a|) + TimesTo(b, p, k - |a|)
  {
    if k > 0 { TimesAppendTo(a, b, p, k - 1); }
  }

  lemma TimesAppend(a: seq<Pair>, b: seq<Pair>, p: Pair)
    ensures Times(a + b, p) == Times(a, p) + Times(b, p)
  {
    TimesAppendTo(a, b, p, |a| + |b|);
  }

  lemma TimesOne(q: Pair, p: Pair)
    ensures Times([q], p) == if q == p then 1 else 0
  {
    assert TimesTo([q], p, 0) == 0;
  }

  lemma {:induction false} TimesHit(s: seq<Pair>, p: Pair, k: nat) returns (i: nat)
    requires k <= |s| && TimesTo(s, p, k) > 0
    ensures i < k && s[i] == p
  {
    if s[k - 1] == p { i := k - 1; } else { i := TimesHit(s, p, k - 1); }
  }

  lemma {:induction false} TimesAt(s: seq<Pair>, i: nat, k: nat)
    requires i < k <= |s|
    ensures TimesTo(s, s[i], k) > 0
  {
    if i < k - 1 { TimesAt(s, i, k - 1); }
  }

  lemma {:induction false} RowCounts(i: nat, j: nat, p: Pair)
    ensures Times(Row(i, j), p) == if p.i == i && i < p.j < j then 1 else 0
  {
    if j > i + 1 {
      RowCounts(i, j - 1, p);
      TimesAppend(Row(i, j - 1), [Pair(i, j - 1)], p);
      TimesOne(Pair(i, j - 1), p);
    }
  }

  lemma {:induction false} ForwardCounts(n: nat, k: nat, p: Pair)
    ensures Times(Forward(n, k), p) == if p.i < k && p.i < p.j < n then 1 else 0
  {
    if k > 0 {
      ForwardCounts(n, k - 1, p);
      RowCounts(k - 1, n, p);
      TimesAppend(Forward(n, k - 1), Row(k - 1, n), p);
    }
  }

  lemma {:induction false} ColumnCounts(i: nat, m: nat, p: Pair)
    requires m <= i
    ensures Times(Column(i, m), p) == if p.i == i && i - m <= p.j < i then 1 else 0
  {
    if m > 0 {
      ColumnCounts(i, m - 1, p);
      TimesAppend(Column(i, m - 1), [Pair(i, i - m)], p);
      TimesOne(Pair(i, i - m), p);
    }
  }

  lemma {:induction false} BackwardCounts(n: nat, k: nat, p: Pair)
    requires k <= n
    ensures Times(Backward(n, k), p) == if n - k <= p.i < n && p.j < p.i then 1 else 0
  {
    if k > 0 {
      BackwardCounts(n, k - 1, p);
      ColumnCounts(n - k, n - k, p);
      TimesAppend(Backward(n, k - 1), Column(n - k, n - k), p);
    }
  }

  /** Every ordered pair of different services comes exactly once, and no other pair comes at all. */
  lemma EachPairOnce(n: nat, p: Pair)
    ensures Times(AllPairs(n), p) == if p.i < n && p.j < n && p.i != p.j then 1 else 0
  {
    ForwardCounts(n, n, p);
    BackwardCounts(n, n, p);
    TimesAppend(Forward(n, n), Backward(n, n), p);
  }

  lemma {:induction false} RowLength(i: nat, j: nat)
    ensures |Row(i, j)| == if j <= i + 1 then 0 else j - i - 1
  {
    if j > i + 1 { RowLength(i, j - 1); }
  }

  lemma {:induction false} ForwardLength(n: nat, k: nat)
    requires k <= n
    ensures 2 * |Forward(n, k)| == k * (2 * n - k - 1)
  {
    if k > 0 {
      ForwardLength(n, k - 1);
      RowLength(k - 1, n);
      NextSum(n, k);
    }
  }

  lemma NextSum(n: nat, k: nat)
    requires 0 < k <= n
    ensures (k - 1) * (2 * n - (k - 1) - 1) + 2 * (n - k) == k * (2 * n - k - 1)
  {
  }

  lemma {:induction false} ColumnLength(i: nat, m: nat)
    requires m <= i
    ensures |Column(i, m)| == m
  {
    if m > 0 { ColumnLength(i, m - 1); }
  }

  lemma {:induction false} BackwardLength(n: nat, k: nat)
    requires k <= n
    ensures 2 * |Backward(n, k)| == k * (2 * n - k - 1)
  {
    if k > 0 {
      BackwardLength(n, k - 1);
      ColumnLength(n - k, n - k);
      NextSum(n, k);
    }
  }

  /** There are n(n-1) checks. */
  lemma PairsInAll(n: nat)
    ensures |AllPairs(n)| == n * (n - 1)
  {
    ForwardLength(n, n);
    BackwardLength(n, n);
    assert n * (2 * n - n - 1) == n * (n - 1);
  }

  // ---- The order of the checks ----

  /** Towards later services first, by caller and then by called, both rising; then towards earlier ones,
      both falling. */
  predicate Before(p: Pair, q: Pair) {
    if p.i < p.j then q.i < q.j ==> p.i < q.i || (p.i == q.i && p.j < q.j)
    else q.j < q.i && (q.i < p.i || (q.i == p.i && q.j < p.j))
  }

  ghost predicate InSequence(s: seq<Pair>) { forall a, b :: 0 <= a < b < |s| ==> Before(s[a], s[b]) }

  ghost predicate AllBefore(s: seq<Pair>, t: seq<Pair>) {
    forall a, b :: 0 <= a < |s| && 0 <= b < |t| ==> Before(s[a], t[b])
  }

  lemma SequenceAppend(s: seq<Pair>, t: seq<Pair>)
    requires InSequence(s) && InSequence(t) && AllBefore(s, t)
    ensures InSequence(s + t)
  {
  }

  /** All callers are from `lo` to `hi`, and the later ones are called or the earlier ones. */
  ghost predicate AreFrom(s: seq<Pair>, lo: int, hi: int, later: bool) {
    forall a :: 0 <= a < |s| ==> IsFrom(s[a], lo, hi, later)
  }

  predicate IsFrom(p: Pair, lo: int, hi: int, later: bool) {
    lo <= p.i < hi && if later then p.i < p.j else p.j < p.i
  }

  lemma {:induction false} RowInSequence(i: nat, j: nat)
    ensures InSequence(Row(i, j)) && AreFrom(Row(i, j), i, i + 1, true)
    ensures forall a :: 0 <= a < |Row(i, j)| ==> Row(i, j)[a].j < j
  {
    if j > i + 1 {
      RowInSequence(i, j - 1);
      SequenceAppend(Row(i, j - 1), [Pair(i, j - 1)]);
    }
  }

  lemma {:induction false} ForwardInSequence(n: nat, k: nat)
    ensures InSequence(Forward(n, k)) && AreFrom(Forward(n, k), 0, k, true)
  {
    if k > 0 {
      var front, row := Forward(n, k - 1), Row(k - 1, n);
      ForwardInSequence(n, k - 1);
      RowInSequence(k - 1, n);
      ForwardBefore(front, row, k - 1);
      SequenceAppend(front, row);
      FromAppend(front, row, 0, k, true);
    }
  }

  lemma ForwardBefore(s: seq<Pair>, t: seq<Pair>, k: nat)
    requires AreFrom(s, 0, k, true) && AreFrom(t, k, k + 1, true)
    ensures AllBefore(s, t)
  {
    forall a, b | 0 <= a < |s| && 0 <= b < |t| ensures Before(s[a], t[b]) {
      assert IsFrom(s[a], 0, k, true) && IsFrom(t[b], k, k + 1, true);
    }
  }

  lemma FromAppend(s: seq<Pair>, t: seq<Pair>, lo: int, hi: int, later: bool)
    requires forall a :: 0 <= a < |s| ==> lo <= s[a].i < hi && if later then s[a].i < s[a].j else s[a].j < s[a].i
    requires forall a :: 0 <= a < |t| ==> lo <= t[a].i < hi && if later then t[a].i < t[a].j else t[a].j < t[a].i
    ensures AreFrom(s + t, lo, hi, later)
  {
  }

  lemma {:induction false} ColumnInSequence(i: nat, m: nat)
    requires m <= i
    ensures InSequence(Column(i, m)) && AreFrom(Column(i, m), i, i + 1, false)
    ensures forall a :: 0 <= a < |Column(i, m)| ==> i - m <= Column(i, m)[a].j
  {
    if m > 0 {
      ColumnInSequence(i, m - 1);
      SequenceAppend(Column(i, m - 1), [Pair(i, i - m)]);
    }
  }

  lemma BackwardBefore(s: seq<Pair>, t: seq<Pair>, k: nat, n: nat)
    requires AreFrom(s, k + 1, n, false) && AreFrom(t, k, k + 1, false)
    ensures AllBefore(s, t)
  {
    forall a, b | 0 <= a < |s| && 0 <= b < |t| ensures Before(s[a], t[b]) {
      assert IsFrom(s[a], k + 1, n, false) && IsFrom(t[b], k, k + 1, false);
    }
  }

  lemma {:induction false} BackwardInSequence(n: nat, k: nat)
    requires k <= n
    ensures InSequence(Backward(n, k)) && AreFrom(Backward(n, k), n - k, n, false)
  {
    if k > 0 {
      var front, column := Backward(n, k - 1), Column(n - k, n - k);
      BackwardInSequence(n, k - 1);
      ColumnInSequence(n - k, n - k);
      BackwardBefore(front, column, n - k, n);
      SequenceAppend(front, column);
      FromAppend(front, column, n - k, n, false);
    }
  }

  /** The order in which the pairs come, which with `EachPairOnce` leaves nothing open. */
  lemma PairsInSequence(n: nat)
    ensures InSequence(AllPairs(n))
  {
    ForwardInSequence(n, n);
    BackwardInSequence(n, n);
    forall a, b | 0 <= a < |Forward(n, n)| && 0 <= b < |Backward(n, n)|
      ensures Before(Forward(n, n)[a], Backward(n, n)[b])
    {
      assert IsFrom(Forward(n, n)[a], 0, n, true) && IsFrom(Backward(n, n)[b], 0, n, false);
    }
    SequenceAppend(Forward(n, n), Backward(n, n));
  }

  // ---- The loops ----

  datatype Inputs = Inputs(services: seq<string>, ports: seq<string>, expected: seq<string>)

  predicate InRange(p: Pair, inp: Inputs) { p.j < |inp.ports| && p.j < |inp.expected| }

  /** `fails(n)` says whether check number `n` fails. */
  ghost predicate NoneFailed(fails: nat -> bool, n: nat) { forall k: nat :: k < n ==> !fails(k) }

  /** The checks made are those of the first pairs of `plan`. */
  ghost predicate Follows(checks: seq<Check>, plan: seq<Pair>, inp: Inputs) {
    |checks| <= |plan| && AreChecks(checks, plan[..|checks|], inp.services, inp.ports, inp.expected)
  }

  /** All of the first `n` checks were made, and none of them failed. */
  ghost predicate MadeFirst(n: nat, checks: seq<Check>, plan: seq<Pair>, inp: Inputs, fails: nat -> bool) {
    |checks| == n && Follows(checks, plan, inp) && NoneFailed(fails, n)
  }

  /** Stopped at the first check that fails, or by an index out of range for the pair that comes next. */
  ghost predicate StoppedAt(outcome: Outcome, checks: seq<Check>, plan: seq<Pair>, inp: Inputs, fails: nat -> bool) {
    && Follows(checks, plan, inp)
    && (outcome == CheckFailed ==> checks != [] && NoneFailed(fails, |checks| - 1) && fails(|checks| - 1))
    && (outcome == Panics ==> NoneFailed(fails, |checks|) && |checks| < |plan| && !InRange(plan[|checks|], inp))
    && (outcome == CheckFailed || outcome == Panics)
  }

  method PerformCheck(inp: Inputs, i: nat, j: nat, fails: nat -> bool, checks: seq<Check>, ghost plan: seq<Pair>)
    returns (outcome: Outcome, checks': seq<Check>)
    requires i < |inp.services| && j < |inp.services|
    requires Follows(checks, plan, inp) && NoneFailed(fails, |checks|)
    requires |checks| < |plan| && plan[|checks|] == Pair(i, j)
    ensures outcome == Passed ==> MadeFirst(|checks| + 1, checks', plan, inp, fails)
    ensures outcome != Passed ==> StoppedAt(outcome, checks', plan, inp, fails)
  {
    if j >= |inp.ports| || j >= |inp.expected| {
      return Panics, checks;
    }
    var check := Check(inp.services[i], inp.services[j], inp.ports[j], inp.expected[j]);
    assert plan[..|checks| + 1] == plan[..|checks|] + [plan[|checks|]];
    return if fails(|checks|) then CheckFailed else Passed, checks + [check];
  }

  method CheckRow(inp: Inputs, i: nat, fails: nat -> bool, checks: seq<Check>, ghost plan: seq<Pair>)
    returns (outcome: Outcome, checks': seq<Check>)
    requires i < |inp.services| && Follows(checks, plan, inp) && NoneFailed(fails, |checks|)
    requires plan[..|checks|] + Row(i, |inp.services|) <= plan
    ensures outcome == Passed ==> MadeFirst(|checks| + |Row(i, |inp.services|)|, checks', plan, inp, fails)
    ensures outcome != Passed ==> StoppedAt(outcome, checks', plan, inp, fails)
  {
    checks' := checks;
    for j := i + 1 to |inp.services|
      invariant MadeFirst(|checks| + |Row(i, j)|, checks', plan, inp, fails)
    {
      RowGrows(i, j + 1, |inp.services|);
      assert plan[|checks| + |Row(i, j)|] == Row(i, |inp.services|)[|Row(i, j)|];
      outcome, checks' := PerformCheck(inp, i, j, fails, checks', plan);
      if outcome != Passed {
        return;
      }
    }
    outcome := Passed;
  }

  method CheckColumn(inp: Inputs, i: nat, fails: nat -> bool, checks: seq<Check>, ghost plan: seq<Pair>)
    returns (outcome: Outcome, checks': seq<Check>)
    requires i < |inp.services| && Follows(checks, plan, inp) && NoneFailed(fails, |checks|)
    requires plan[..|checks|] + Column(i, i) <= plan
    ensures outcome == Passed ==> MadeFirst(|checks| + |Column(i, i)|, checks', plan, inp, fails)
    ensures outcome != Passed ==> StoppedAt(outcome, checks', plan, inp, fails)
  {
    checks' := checks;
    for j := 1 to i + 1
      invariant MadeFirst(|checks| + |Column(i, j - 1)|, checks', plan, inp, fails)
    {
      ColumnGrows(i, j, i);
      assert plan[|checks| + |Column(i, j - 1)|] == Column(i, i)[|Column(i, j - 1)|];
      outcome, checks' := PerformCheck(inp, i, i - j, fails, checks', plan);
      if outcome != Passed {
        return;
      }
    }
    outcome := Passed;
  }

  lemma {:induction false} RowGrows(i: nat, j: nat, n: nat)
    requires j <= n
    ensures Row(i, j) <= Row(i, n)
  {
    if j < n { RowGrows(i, j, n - 1); }
  }

  lemma {:induction false} ColumnGrows(i: nat, m: nat, n: nat)
    requires m <= n <= i
    ensures Column(i, m) <= Column(i, n)
  {
    if m < n { ColumnGrows(i, m, n - 1); }
  }

  lemma {:induction false} ForwardGrows(n: nat, k: nat, l: nat)
    requires k <= l
    ensures Forward(n, k) <= Forward(n, l)
  {
    if k < l { ForwardGrows(n, k, l - 1); }
  }

  lemma {:induction false} BackwardGrows(n: nat, k: nat, l: nat)
    requires k <= l <= n
    ensures Backward(n, k) <= Backward(n, l)
  {
    if k < l { BackwardGrows(n, k, l - 1); }
  }

  method CheckForward(inp: Inputs, fails: nat -> bool, ghost plan: seq<Pair>)
    returns (outcome: Outcome, checks: seq<Check>)
    requires Forward(|inp.services|, |inp.services|) <= plan
    ensures outcome == Passed ==> MadeFirst(|Forward(|inp.services|, |inp.services|)|, checks, plan, inp, fails)
    ensures outcome != Passed ==> StoppedAt(outcome, checks, plan, inp, fails)
  {
    checks := [];
    for i := 0 to |inp.services|
      invariant MadeFirst(|Forward(|inp.services|, i)|, checks, plan, inp, fails)
    {
      ForwardGrows(|inp.services|, i + 1, |inp.services|);
      assert plan[..|checks|] == Forward(|inp.services|, i);
      outcome, checks := CheckRow(inp, i, fails, checks, plan);
      if outcome != Passed {
        return;
      }
    }
    outcome := Passed;
  }

  /** What follows a known part of a plan. */
  lemma PlanFollows(plan: seq<Pair>, m: nat, all: seq<Pair>, done: seq<Pair>, next: seq<Pair>)
    requires m <= |plan| && plan[..m] + all <= plan && done + next <= all
    ensures m + |done| <= |plan| && plan[..m + |done|] + next <= plan
  {
    var front := plan[..m];
    assert front + (done + next) == front + done + next;
    assert front + (done + next) <= front + all;
    assert plan[..m + |done|] == front + done;
  }

  lemma ColumnAfter(n: nat, i: nat)
    requires i < n
    ensures Backward(n, n - i - 1) + Column(i, i) <= Backward(n, n)
  {
    BackwardGrows(n, n - i, n);
  }

  /** After the columns of the services above `i` comes the column of `i`. */
  lemma NextColumn(plan: seq<Pair>, m: nat, n: nat, i: nat)
    requires m <= |plan| && i < n && plan[..m] + Backward(n, n) <= plan
    ensures m + |Backward(n, n - i - 1)| <= |plan|
    ensures plan[..m + |Backward(n, n - i - 1)|] + Column(i, i) <= plan
  {
    var done, next, all := Backward(n, n - i - 1), Column(i, i), Backward(n, n);
    ColumnAfter(n, i);
    PlanFollows(plan, m, all, done, next);
  }

  method CheckBackward(inp: Inputs, fails: nat -> bool, checks: seq<Check>, ghost plan: seq<Pair>)
    returns (outcome: Outcome, checks': seq<Check>)
    requires inp.services != [] && Follows(checks, plan, inp) && NoneFailed(fails, |checks|)
    requires plan[..|checks|] + Backward(|inp.services|, |inp.services|) <= plan
    ensures outcome == Passed ==>
              MadeFirst(|checks| + |Backward(|inp.services|, |inp.services|)|, checks', plan, inp, fails)
    ensures outcome != Passed ==> StoppedAt(outcome, checks', plan, inp, fails)
  {
    ghost var n := |inp.services|;
    checks' := checks;
    for i := |inp.services| downto 1
      invariant MadeFirst(|checks| + |Backward(n, n - i)|, checks', plan, inp, fails)
    {
      NextColumn(plan, |checks|, n, i);
      outcome, checks' := CheckColumn(inp, i, fails, checks', plan);
      if outcome != Passed {
        return;
      }
    }
    assert Backward(n, n) == Backward(n, n - 1) + Column(0, 0);
    outcome := Passed;
  }

  /** When no check fails and no index is out of range, the checks are those of all ordered pairs of
      different services. Services, ports and texts in equal numbers never run out of range; but the test
      of the lengths lets other numbers through as well, and then the run panics unless a check fails
      first. */
  method TestCrossNodeService(inp: Inputs, fails: nat -> bool) returns (outcome: Outcome, checks: seq<Check>)
    ensures outcome == BadLengths <==> |inp.services| != |inp.ports| && |inp.ports| != |inp.expected|
    ensures outcome == TooFew
       <==> outcome != BadLengths && (|inp.services| < 2 || |inp.ports| < 2 || |inp.expected| < 2)
    ensures outcome == BadLengths || outcome == TooFew ==> checks == []
    ensures outcome == Passed ==>
              && AreChecks(checks, AllPairs(|inp.services|), inp.services, inp.ports, inp.expected)
              && NoneFailed(fails, |checks|)
              && 2 <= |inp.services| && |inp.services| <= |inp.ports| && |inp.services| <= |inp.expected|
    ensures outcome == CheckFailed || outcome == Panics ==>
              StoppedAt(outcome, checks, AllPairs(|inp.services|), inp, fails)
    ensures |inp.services| <= |inp.ports| && |inp.services| <= |inp.expected| ==> outcome != Panics
    ensures outcome != BadLengths && outcome != TooFew && (forall n: nat :: !fails(n)) ==>
              (outcome == Panics <==> |inp.ports| < |inp.services| || |inp.expected| < |inp.services|)
  {
    checks := [];
    if |inp.services| != |inp.ports| && |inp.ports| != |inp.expected| {
      return BadLengths, checks;
    }
    if |inp.services| < 2 || |inp.ports| < 2 || |inp.expected| < 2 {
      return TooFew, checks;
    }
    ghost var n := |inp.services|;
    ghost var plan := AllPairs(n);
    outcome, checks := CheckForward(inp, fails, plan);
    if outcome == Passed {
      assert plan[..|checks|] == Forward(n, n);
      outcome, checks := CheckBackward(inp, fails, checks, plan);
    }
    if outcome == Passed {
      assert plan[..|checks|] == plan;
      LastIsReached(n, plan);
    } else if outcome == Panics {
      PairsBelow(n, |checks|);
    }
  }

  lemma LastIsReached(n: nat, plan: seq<Pair>)
    requires 2 <= n && plan == AllPairs(n)
    ensures exists k :: 0 <= k < |plan| && plan[k] == Pair(0, n - 1)
  {
    EachPairOnce(n, Pair(0, n - 1));
    var k := TimesHit(plan, Pair(0, n - 1), |plan|);
  }

  lemma PairsBelow(n: nat, k: nat)
    requires k < |AllPairs(n)|
    ensures AllPairs(n)[k].i < n && AllPairs(n)[k].j < n
  {
    EachPairOnce(n, AllPairs(n)[k]);
    TimesAt(AllPairs(n), k, |AllPairs(n)|);
  }
}
