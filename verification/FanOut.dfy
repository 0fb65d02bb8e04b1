/** Fan-out and fan-in over buffered channels: one goroutine for each task, a closer that waits for all
    of them and closes the channels, and a collector that first drains the errors and returns on the
    first one. Goroutines interleave freely; a step is one of their actions. */
module FanOut {
  /** What a task reports: here of an instance, with the number of the worker it comes from. */
  datatype Response = Response(worker: nat, id: string, externalIp: string, privateIp: string)

  /** Creating instances takes three calls and has a result; copying assets takes one and has none. */
  datatype Mode = Instances | Assets

  function Calls(mode: Mode): nat { if mode == Instances then 3 else 1 }

  datatype Worker =
    | Working(calls: nat)
    | WantsError
    | WantsResult(res: Response)
    | Sent(ok: bool)
    | Done(ok: bool)

  datatype Closer = Waiting | ClosedResults | Finished

  /** The three slices as they are appended to, and what is returned. */
  datatype Collector =
    | Errors
    | Results(ids: seq<string>, externalIps: seq<string>, privateIps: seq<string>)
    | Failed
    | Returned(ids: seq<string>, externalIps: seq<string>, privateIps: seq<string>)

  /** `errors` and `results` are everything sent so far; the channels hold what is not taken yet. */
  datatype World = World(
    mode: Mode,
    workers: seq<Worker>,
    errors: seq<nat>,
    takenErrors: nat,
    results: seq<Response>,
    takenResults: nat,
    closer: Closer,
    collector: Collector)

  datatype Step =
    | Succeed(i: nat, res: Response)
    | Fail(i: nat)
    | Send(i: nat)
    | Leave(i: nat)
    | Close
    | Collect

  function Init(mode: Mode, n: nat): World {
    World(mode, seq(n, _ => Working(0)), [], 0, [], 0, Waiting, Errors)
  }

  predicate ErrorsClosed(w: World) { w.closer == Finished }

  predicate ResultsClosed(w: World) { w.closer != Waiting }

  /** Both channels have one place for each worker. A send needs a free place; on a closed channel it
      would panic, so it is not a step then. */
  predicate CanSend(w: World, i: nat)
    requires i < |w.workers|
  {
    match w.workers[i]
    case WantsError => !ErrorsClosed(w) && |w.errors| - w.takenErrors < |w.workers|
    case WantsResult(_) => !ResultsClosed(w) && |w.results| - w.takenResults < |w.workers|
    case _ => false
  }

  predicate AllDone(workers: seq<Worker>) { forall i :: 0 <= i < |workers| ==> workers[i].Done? }

  /** The collector is not waiting on an empty open channel. */
  predicate CanCollect(w: World) {
    match w.collector
    case Errors => w.takenErrors < |w.errors| || ErrorsClosed(w)
    case Results(_, _, _) => w.takenResults < |w.results| || ResultsClosed(w)
    case _ => false
  }

  predicate Enabled(w: World, s: Step) {
    match s
    case Succeed(i, res) => i < |w.workers| && w.workers[i].Working? && res.worker == i
    case Fail(i) => i < |w.workers| && w.workers[i].Working?
    case Send(i) => i < |w.workers| && CanSend(w, i)
    case Leave(i) => i < |w.workers| && w.workers[i].Sent?
    case Close => w.closer != Finished && AllDone(w.workers)
    case Collect => CanCollect(w)
  }

  function Put(w: World, i: nat, p: Worker): World
    requires i < |w.workers|
  {
    w.(workers := w.workers[i := p])
  }

  /** One call succeeded; after the last one the worker has a result, if the mode has results. */
  function AfterCall(mode: Mode, calls: nat, res: Response): Worker {
    if calls + 1 < Calls(mode) then Working(calls + 1)
    else if mode == Instances then WantsResult(res)
    else Sent(true)
  }

  function CollectOne(w: World): World
    requires CanCollect(w)
  {
    match w.collector
    case Errors =>
      if w.takenErrors < |w.errors| then w.(takenErrors := w.takenErrors + 1, collector := Failed)
      else if w.mode == Instances then w.(collector := Results([], [], []))
      else w.(collector := Returned([], [], []))
    case Results(ids, es, ps) =>
      if w.takenResults < |w.results| then
        var r := w.results[w.takenResults];
        w.(takenResults := w.takenResults + 1,
           collector := Results(ids + [r.id], es + [r.externalIp], ps + [r.privateIp]))
      else w.(collector := Returned(ids, es, ps))
  }

  function Next(w: World, s: Step): World
    requires Enabled(w, s)
  {
    match s
    case Succeed(i, res) => Put(w, i, AfterCall(w.mode, w.workers[i].calls, res))
    case Fail(i) => Put(w, i, WantsError)
    case Send(i) =>
      if w.workers[i].WantsError? then Put(w.(errors := w.errors + [i]), i, Sent(false))
      else Put(w.(results := w.results + [w.workers[i].res]), i, Sent(true))
    case Leave(i) => Put(w, i, Done(w.workers[i].ok))
    case Close => w.(closer := if w.closer == Waiting && w.mode == Instances then ClosedResults else Finished)
    case Collect => CollectOne(w)
  }

  /** A run with `n` tasks. An empty list of instances is refused before anything is started. */
  ghost predicate IsRun(ws: seq<World>, steps: seq<Step>, mode: Mode, n: nat) {
    && (mode == Instances ==> 0 < n)
    && |ws| == |steps| + 1 && ws[0] == Init(mode, n)
    && forall k :: 0 <= k < |steps| ==> IsStep(ws, steps, k)
  }

  ghost predicate IsStep(ws: seq<World>, steps: seq<Step>, k: nat)
    requires k < |steps| < |ws|
  {
    Enabled(ws[k], steps[k]) && ws[k + 1] == Next(ws[k], steps[k])
  }

  // ---- The invariant ----

  predicate HasSent(p: Worker, ok: bool) { (p.Sent? || p.Done?) && p.ok == ok }

  /** Every error was sent by a worker that is past sending it, and by each such worker once. */
  ghost predicate ErrorsWell(w: World) {
    && (forall k :: 0 <= k < |w.errors| ==> ErrorWell(w, k))
    && (forall i :: 0 <= i < |w.workers| && HasSent(w.workers[i], false) ==> i in w.errors)
    && Distinct(w.errors)
  }

  predicate ErrorWell(w: World, k: nat)
    requires k < |w.errors|
  {
    w.errors[k] < |w.workers| && HasSent(w.workers[w.errors[k]], false)
  }

  ghost predicate Distinct(s: seq<nat>) { forall k :: 0 <= k < |s| ==> IsNew(s, k) }

  predicate IsNew(s: seq<nat>, k: nat)
    requires k < |s|
  {
    s[k] !in s[..k]
  }

  /** The workers that the results come from. */
  function Senders(rs: seq<Response>): seq<nat> { seq(|rs|, k requires 0 <= k < |rs| => rs[k].worker) }

  ghost predicate ResultsWell(w: World) {
    && (forall k :: 0 <= k < |w.results| ==> ResultWell(w, k))
    && (w.mode == Instances ==>
          forall i :: 0 <= i < |w.workers| && HasSent(w.workers[i], true) ==> i in Senders(w.results))
    && (w.mode == Assets ==> w.results == [])
    && Distinct(Senders(w.results))
  }

  predicate ResultWell(w: World, k: nat)
    requires k < |w.results|
  {
    w.results[k].worker < |w.workers| && HasSent(w.workers[w.results[k].worker], true)
  }

  ghost predicate WorkersWell(w: World) {
    forall i :: 0 <= i < |w.workers| ==> WorkerWell(w, i)
  }

  predicate WorkerWell(w: World, i: nat)
    requires i < |w.workers|
  {
    match w.workers[i]
    case Working(c) => c < Calls(w.mode)
    case WantsResult(res) => w.mode == Instances && res.worker == i
    case _ => true
  }

  /** The slices hold the taken results, index by index. */
  predicate SlicesHold(w: World, ids: seq<string>, es: seq<string>, ps: seq<string>) {
    && |ids| == |es| == |ps| == w.takenResults <= |w.results|
    && forall k :: 0 <= k < |ids| ==>
         ids[k] == w.results[k].id && es[k] == w.results[k].externalIp && ps[k] == w.results[k].privateIp
  }

  ghost predicate CollectorWell(w: World) {
    match w.collector
    case Errors => w.takenErrors == 0 && w.takenResults == 0
    case Results(ids, es, ps) =>
      w.mode == Instances && ErrorsClosed(w) && w.errors == [] && w.takenErrors == 0 && SlicesHold(w, ids, es, ps)
    case Failed => 0 < w.takenErrors <= |w.errors| && w.takenResults == 0
    case Returned(ids, es, ps) =>
      ErrorsClosed(w) && w.errors == [] && w.takenErrors == 0 && SlicesHold(w, ids, es, ps)
      && w.takenResults == |w.results|
  }

  ghost predicate Inv(w: World) {
    && WorkersWell(w) && ErrorsWell(w) && ResultsWell(w) && CollectorWell(w)
    && (w.closer != Waiting ==> AllDone(w.workers))
    && (w.closer == ClosedResults ==> w.mode == Instances)
  }

  lemma DistinctAppend(s: seq<nat>, x: nat)
    requires Distinct(s) && x !in s
    ensures Distinct(s + [x])
  {
    forall k | 0 <= k < |s + [x]| ensures IsNew(s + [x], k) {
      assert (s + [x])[..k] == s[..k];
      if k < |s| { assert IsNew(s, k); } else { assert s[..k] == s; }
    }
  }

  lemma InitWell(mode: Mode, n: nat)
    ensures Inv(Init(mode, n))
  {
  }

  /** A worker that moves, where nothing is sent. */
  lemma MoveWell(w: World, i: nat, p: Worker)
    requires Inv(w) && i < |w.workers| && !w.workers[i].Done? && WorkerWell(Put(w, i, p), i)
    requires HasSent(p, false) <==> HasSent(w.workers[i], false)
    requires HasSent(w.workers[i], true) ==> HasSent(p, true)
    requires HasSent(p, true) && w.mode == Instances ==> HasSent(w.workers[i], true)
    ensures Inv(Put(w, i, p))
  {
    var w' := Put(w, i, p);
    forall j | 0 <= j < |w'.workers| ensures WorkerWell(w', j) { assert WorkerWell(w, j); }
    forall k | 0 <= k < |w'.errors| ensures ErrorWell(w', k) { assert ErrorWell(w, k); }
    forall k | 0 <= k < |w'.results| ensures ResultWell(w', k) { assert ResultWell(w, k); }
  }

  lemma SendErrorWell(w: World, i: nat)
    requires Inv(w) && Enabled(w, Send(i)) && w.workers[i].WantsError?
    ensures Inv(Next(w, Send(i)))
  {
    var w' := Next(w, Send(i));
    forall k | 0 <= k < |w.errors| ensures w.errors[k] != i { assert ErrorWell(w, k); }
    DistinctAppend(w.errors, i);
    forall j | 0 <= j < |w'.workers| ensures WorkerWell(w', j) { assert WorkerWell(w, j); }
    forall k | 0 <= k < |w'.errors| ensures ErrorWell(w', k) {
      if k < |w.errors| { assert ErrorWell(w, k); }
    }
    forall j | 0 <= j < |w'.workers| && HasSent(w'.workers[j], false) ensures j in w'.errors {
      if j == i { assert w'.errors[|w.errors|] == i; }
    }
    forall k | 0 <= k < |w'.results| ensures ResultWell(w', k) { assert ResultWell(w, k); }
  }

  lemma SendResultWell(w: World, i: nat)
    requires Inv(w) && Enabled(w, Send(i)) && w.workers[i].WantsResult?
    ensures Inv(Next(w, Send(i)))
  {
    var w', res := Next(w, Send(i)), w.workers[i].res;
    assert WorkerWell(w, i);
    forall k | 0 <= k < |w.results| ensures w.results[k].worker != i { assert ResultWell(w, k); }
    assert Senders(w'.results) == Senders(w.results) + [i];
    DistinctAppend(Senders(w.results), i);
    forall j | 0 <= j < |w'.workers| ensures WorkerWell(w', j) { assert WorkerWell(w, j); }
    forall k | 0 <= k < |w'.errors| ensures ErrorWell(w', k) { assert ErrorWell(w, k); }
    forall k | 0 <= k < |w'.results| ensures ResultWell(w', k) {
      if k < |w.results| { assert ResultWell(w, k); }
    }
    forall j | 0 <= j < |w'.workers| && HasSent(w'.workers[j], true) ensures j in Senders(w'.results) {
      if j == i { assert Senders(w'.results)[|w.results|] == i; }
    }
  }

  /** Closing or collecting changes no worker and sends nothing. */
  lemma QuietWell(w: World, w': World)
    requires Inv(w) && w'.mode == w.mode && w'.workers == w.workers && w'.errors == w.errors && w'.results == w.results
    requires CollectorWell(w') && (w'.closer != Waiting ==> AllDone(w'.workers))
    requires w'.closer == ClosedResults ==> w'.mode == Instances
    ensures Inv(w')
  {
    forall j | 0 <= j < |w'.workers| ensures WorkerWell(w', j) { assert WorkerWell(w, j); }
    forall k | 0 <= k < |w'.errors| ensures ErrorWell(w', k) { assert ErrorWell(w, k); }
    forall k | 0 <= k < |w'.results| ensures ResultWell(w', k) { assert ResultWell(w, k); }
  }

  lemma StepKeeps(w: World, s: Step)
    requires Inv(w) && Enabled(w, s)
    ensures Inv(Next(w, s)) && |Next(w, s).workers| == |w.workers| && Next(w, s).mode == w.mode
  {
    match s
    case Succeed(i, res) =>
      assert WorkerWell(w, i);
      MoveWell(w, i, AfterCall(w.mode, w.workers[i].calls, res));
    case Fail(i) => MoveWell(w, i, WantsError);
    case Send(i) => if w.workers[i].WantsError? { SendErrorWell(w, i); } else { SendResultWell(w, i); }
    case Leave(i) => MoveWell(w, i, Done(w.workers[i].ok));
    case Close => QuietWell(w, Next(w, s));
    case Collect => QuietWell(w, Next(w, s));
  }

  lemma {:induction false} RunKeeps(ws: seq<World>, steps: seq<Step>, mode: Mode, n: nat, k: nat)
    requires IsRun(ws, steps, mode, n) && k < |ws|
    ensures Inv(ws[k]) && |ws[k].workers| == n && ws[k].mode == mode
  {
    if k == 0 {
      InitWell(mode, n);
    } else {
      RunKeeps(ws, steps, mode, n, k - 1);
      assert IsStep(ws, steps, k - 1);
      StepKeeps(ws[k - 1], steps[k - 1]);
    }
  }

  // ---- Counting workers ----

  function SetTo(s: seq<nat>, k: nat): set<nat>
    requires k <= |s|
  {
    set i | 0 <= i < k :: s[i]
  }

  function Below(n: nat): set<nat> { if n == 0 then {} else Below(n - 1) + {n - 1} }

  lemma {:induction false} BelowIs(n: nat, x: nat)
    ensures x in Below(n) <==> x < n
  {
    if n > 0 { BelowIs(n - 1, x); }
  }

  lemma {:induction false} BelowSize(n: nat)
    ensures |Below(n)| == n
  {
    if n > 0 {
      BelowSize(n - 1);
      BelowIs(n - 1, n - 1);
    }
  }

  lemma {:induction false} DistinctSize(s: seq<nat>, k: nat)
    requires k <= |s| && Distinct(s)
    ensures |SetTo(s, k)| == k
  {
    if k > 0 {
      DistinctSize(s, k - 1);
      assert IsNew(s, k - 1);
      assert SetTo(s, k) == SetTo(s, k - 1) + {s[k - 1]};
      forall i | 0 <= i < k - 1 ensures s[i] != s[k - 1] { assert s[..k - 1][i] == s[i]; }
    }
  }

  lemma SubsetSize(a: set<nat>, b: set<nat>)
    requires a <= b
    ensures |a| <= |b|
  {
    assert b == a + (b - a);
  }

  /** Distinct numbers below `n` of which `i` is not one are fewer than `n`. */
  lemma RoomFor(s: seq<nat>, n: nat, i: nat)
    requires Distinct(s) && (forall k :: 0 <= k < |s| ==> s[k] < n) && i < n && i !in s
    ensures |s| < n
  {
    DistinctSize(s, |s|);
    BelowSize(n);
    forall x | x in SetTo(s, |s|) + {i} ensures x in Below(n) { BelowIs(n, x); }
    SubsetSize(SetTo(s, |s|) + {i}, Below(n));
  }

  /** Distinct numbers below `n` of which every one is there are `n` of them. */
  lemma AllThere(s: seq<nat>, n: nat)
    requires Distinct(s) && (forall k :: 0 <= k < |s| ==> s[k] < n) && forall i: nat :: i < n ==> i in s
    ensures |s| == n
  {
    DistinctSize(s, |s|);
    BelowSize(n);
    forall x | x in SetTo(s, |s|) ensures x in Below(n) { BelowIs(n, x); }
    forall x | x in Below(n) ensures x in SetTo(s, |s|) {
      BelowIs(n, x);
      assert x < n && x in s;
      var i :| 0 <= i < |s| && s[i] == x;
    }
    SubsetSize(SetTo(s, |s|), Below(n));
    SubsetSize(Below(n), SetTo(s, |s|));
  }

  // ---- No send blocks, nothing deadlocks, everything ends ----

  predicate WantsToSend(p: Worker) { p.WantsError? || p.WantsResult? }

  /** A worker that has something to send finds its channel open and a place free in it, at any time:
      also after the collector has returned. */
  lemma NoSendBlocks(w: World, i: nat)
    requires Inv(w) && i < |w.workers| && WantsToSend(w.workers[i])
    ensures CanSend(w, i)
  {
    assert w.closer == Waiting;
    if w.workers[i].WantsError? {
      forall k | 0 <= k < |w.errors| ensures w.errors[k] < |w.workers| && w.errors[k] != i { assert ErrorWell(w, k); }
      RoomFor(w.errors, |w.workers|, i);
    } else {
      var s := Senders(w.results);
      forall k | 0 <= k < |s| ensures s[k] < |w.workers| && s[k] != i { assert ResultWell(w, k); }
      RoomFor(s, |w.workers|, i);
    }
  }

  ghost predicate IsOver(w: World) {
    AllDone(w.workers) && w.closer == Finished && (w.collector.Failed? || w.collector.Returned?)
  }

  /** Until everything is over some step can be taken, and no call has to fail for it. */
  lemma NoDeadlock(w: World) returns (s: Step)
    requires Inv(w) && !IsOver(w)
    ensures Enabled(w, s) && !s.Fail?
  {
    if !AllDone(w.workers) {
      var i :| 0 <= i < |w.workers| && !w.workers[i].Done?;
      if WantsToSend(w.workers[i]) {
        NoSendBlocks(w, i);
        s := Send(i);
      } else {
        s := if w.workers[i].Working? then Succeed(i, Response(i, "", "", "")) else Leave(i);
      }
    } else if w.closer != Finished {
      s := Close;
    } else {
      s := Collect;
    }
  }

  /** How many steps a worker can still take. */
  function StepsOf(p: Worker): nat {
    match p
    case Working(c) => if c < 3 then 6 - c else 3
    case WantsError => 2
    case WantsResult(_) => 2
    case Sent(_) => 1
    case Done(_) => 0
  }

  function WorkLeft(workers: seq<Worker>, n: nat): nat
    requires n <= |workers|
  {
    if n == 0 then 0 else WorkLeft(workers, n - 1) + StepsOf(workers[n - 1])
  }

  function CloserLeft(c: Closer): nat { match c case Waiting => 2 case ClosedResults => 1 case Finished => 0 }

  function CollectorLeft(w: World): nat {
    match w.collector
    case Errors => |w.workers| + 2
    case Results(_, _, _) => 1 + if w.takenResults <= |w.workers| then |w.workers| - w.takenResults else 0
    case _ => 0
  }

  function StepsLeft(w: World): nat {
    WorkLeft(w.workers, |w.workers|) + CloserLeft(w.closer) + CollectorLeft(w)
  }

  lemma {:induction false} WorkUpdate(workers: seq<Worker>, i: nat, p: Worker, n: nat)
    requires i < |workers| && n <= |workers|
    ensures WorkLeft(workers[i := p], n) == WorkLeft(workers, n) + if i < n then StepsOf(p) - StepsOf(workers[i]) else 0
  {
    if n > 0 { WorkUpdate(workers, i, p, n - 1); }
  }

  lemma ResultsFit(w: World)
    requires Inv(w)
    ensures |w.results| <= |w.workers|
  {
    var s := Senders(w.results);
    forall k | 0 <= k < |s| ensures s[k] < |w.workers| { assert ResultWell(w, k); }
    DistinctSize(s, |s|);
    BelowSize(|w.workers|);
    forall x | x in SetTo(s, |s|) ensures x in Below(|w.workers|) { BelowIs(|w.workers|, x); }
    SubsetSize(SetTo(s, |s|), Below(|w.workers|));
  }

  lemma StepsDecrease(w: World, s: Step)
    requires Inv(w) && Enabled(w, s)
    ensures StepsLeft(Next(w, s)) < StepsLeft(w)
  {
    ResultsFit(w);
    if s.Succeed? || s.Fail? || s.Send? || s.Leave? {
      assert WorkerWell(w, s.i);
      WorkUpdate(w.workers, s.i, Next(w, s).workers[s.i], |w.workers|);
    }
  }

  /** Every run ends: no schedule is longer than this. */
  lemma {:induction false} RunsEnd(ws: seq<World>, steps: seq<Step>, mode: Mode, n: nat, k: nat)
    requires IsRun(ws, steps, mode, n) && k < |ws|
    ensures k + StepsLeft(ws[k]) <= StepsLeft(ws[0])
  {
    if k > 0 {
      RunsEnd(ws, steps, mode, n, k - 1);
      RunKeeps(ws, steps, mode, n, k - 1);
      assert IsStep(ws, steps, k - 1);
      StepsDecrease(ws[k - 1], steps[k - 1]);
    }
  }

  // ---- All or nothing ----

  /** What a run comes to when the collector returns: an error exactly if some worker failed; otherwise
      every worker is done, and index by index the three slices hold the results of the workers, each
      worker once. */
  lemma AllOrNothing(ws: seq<World>, steps: seq<Step>, mode: Mode, n: nat, k: nat)
    requires IsRun(ws, steps, mode, n) && k < |ws|
    ensures var w := ws[k];
            && |w.workers| == n
            && (w.collector.Failed? ==> exists i :: 0 <= i < n && HasSent(w.workers[i], false))
            && (w.collector.Returned? ==> forall i :: 0 <= i < n ==> w.workers[i] == Done(true))
            && (w.collector.Returned? && mode == Instances ==>
                  |w.results| == n && Distinct(Senders(w.results))
                  && SlicesHold(w, w.collector.ids, w.collector.externalIps, w.collector.privateIps)
                  && |w.collector.ids| == n)
  {
    RunKeeps(ws, steps, mode, n, k);
    var w := ws[k];
    if w.collector.Failed? {
      assert ErrorWell(w, 0);
    } else if w.collector.Returned? {
      assert AllDone(w.workers);
      forall i | 0 <= i < n ensures w.workers[i] == Done(true) {
        assert w.workers[i].Done?;
        assert i !in w.errors;
      }
      if mode == Instances {
        var s := Senders(w.results);
        forall j | 0 <= j < |s| ensures s[j] < n { assert ResultWell(w, j); }
        AllThere(s, n);
      }
    }
  }

  // ---- What the calls of a run come to ----

  /** A call of worker `i` failed in the first `k` steps. */
  ghost predicate CallFailed(steps: seq<Step>, k: nat, i: nat)
    requires k <= |steps|
  {
    exists j :: 0 <= j < k && steps[j] == Fail(i)
  }

  /** What the calls of worker `i` that succeeded in the first `k` steps answered, in order. */
  function Answers(steps: seq<Step>, k: nat, i: nat): seq<Response>
    requires k <= |steps|
  {
    if k == 0 then []
    else if steps[k - 1].Succeed? && steps[k - 1].i == i then Answers(steps, k - 1, i) + [steps[k - 1].res]
    else Answers(steps, k - 1, i)
  }

  /** Where a worker is after its calls: the first failed call is its last, and it has or sent a result
      exactly if all of them succeeded: three of them for an instance, whose result is the third answer. */
  predicate IsWorkerAfter(mode: Mode, p: Worker, failed: bool, answers: seq<Response>) {
    match p
    case Working(c) => !failed && |answers| == c && (mode.Instances? ==> c < 3) && (mode.Assets? ==> c < 1)
    case WantsError => failed && (mode.Instances? ==> |answers| < 3) && (mode.Assets? ==> answers == [])
    case WantsResult(res) => !failed && mode.Instances? && |answers| == 3 && res == answers[2]
    case Sent(ok) => IsOutcome(mode, ok, failed, answers)
    case Done(ok) => IsOutcome(mode, ok, failed, answers)
  }

  predicate IsOutcome(mode: Mode, ok: bool, failed: bool, answers: seq<Response>) {
    && ok == !failed
    && (mode.Instances? ==> if ok then |answers| == 3 else |answers| < 3)
    && (mode.Assets? ==> if ok then |answers| == 1 else answers == [])
  }

  lemma CallStep(ws: seq<World>, steps: seq<Step>, mode: Mode, n: nat, k: nat, i: nat)
    requires IsRun(ws, steps, mode, n) && 0 < k < |ws| && i < n && |ws[k - 1].workers| == |ws[k].workers| == n
    requires ws[k - 1].mode == mode
    requires IsWorkerAfter(mode, ws[k - 1].workers[i], CallFailed(steps, k - 1, i), Answers(steps, k - 1, i))
    ensures IsWorkerAfter(mode, ws[k].workers[i], CallFailed(steps, k, i), Answers(steps, k, i))
  {
    assert IsStep(ws, steps, k - 1);
    assert CallFailed(steps, k, i) <==> CallFailed(steps, k - 1, i) || steps[k - 1] == Fail(i) by {
      if j :| 0 <= j < k && steps[j] == Fail(i) && j != k - 1 { assert CallFailed(steps, k - 1, i); }
      if steps[k - 1] == Fail(i) { assert CallFailed(steps, k, i); }
    }
  }

  /** In every interleaving a worker is where its own calls have brought it: it has an error to send, or
      has sent it, if and only if one of its calls failed. */
  lemma {:induction false} WorkersFollowCalls(ws: seq<World>, steps: seq<Step>, mode: Mode, n: nat, k: nat, i: nat)
    requires IsRun(ws, steps, mode, n) && k < |ws| && i < n
    ensures |ws[k].workers| == n
    ensures IsWorkerAfter(mode, ws[k].workers[i], CallFailed(steps, k, i), Answers(steps, k, i))
    ensures CallFailed(steps, k, i) <==> ws[k].workers[i].WantsError? || HasSent(ws[k].workers[i], false)
  {
    RunKeeps(ws, steps, mode, n, k);
    if k > 0 {
      WorkersFollowCalls(ws, steps, mode, n, k - 1, i);
      RunKeeps(ws, steps, mode, n, k - 1);
      CallStep(ws, steps, mode, n, k, i);
    }
  }

  /** Result `j` is the third answer of its worker. */
  predicate IsThirdAnswer(steps: seq<Step>, k: nat, r: Response)
    requires k <= |steps|
  {
    |Answers(steps, k, r.worker)| == 3 && r == Answers(steps, k, r.worker)[2]
  }

  /** A worker that has sent its result makes no further call. */
  lemma ResultStays(ws: seq<World>, steps: seq<Step>, mode: Mode, n: nat, k: nat, j: nat)
    requires IsRun(ws, steps, mode, n) && 0 < k < |ws| && j < |ws[k - 1].results|
    requires IsThirdAnswer(steps, k - 1, ws[k - 1].results[j])
    ensures IsThirdAnswer(steps, k, ws[k - 1].results[j])
  {
    RunKeeps(ws, steps, mode, n, k - 1);
    assert IsStep(ws, steps, k - 1) && ResultWell(ws[k - 1], j);
  }

  /** Every result in the channel, or taken from it, is the third answer of its worker. */
  lemma {:induction false} ResultsAreAnswers(ws: seq<World>, steps: seq<Step>, mode: Mode, n: nat, k: nat, j: nat)
    requires IsRun(ws, steps, mode, n) && k < |ws| && j < |ws[k].results|
    ensures IsThirdAnswer(steps, k, ws[k].results[j])
  {
    if k > 0 {
      assert IsStep(ws, steps, k - 1);
      RunKeeps(ws, steps, mode, n, k - 1);
      if j < |ws[k - 1].results| {
        ResultsAreAnswers(ws, steps, mode, n, k - 1, j);
        ResultStays(ws, steps, mode, n, k, j);
      } else {
        var i := steps[k - 1].i;
        assert WorkerWell(ws[k - 1], i);
        WorkersFollowCalls(ws, steps, mode, n, k - 1, i);
      }
    }
  }

  /** No call failed, and every worker made all of its calls: three for an instance, one for assets. */
  ghost predicate AllCallsSucceeded(steps: seq<Step>, k: nat, mode: Mode, n: nat)
    requires k <= |steps|
  {
    && (forall j :: 0 <= j < k ==> !steps[j].Fail?)
    && forall i: nat :: i < n ==> |Answers(steps, k, i)| == if mode.Instances? then 3 else 1
  }

  /** Entry `j` of the three slices is the third answer of a worker. */
  ghost predicate IsEntry(steps: seq<Step>, k: nat, n: nat, senders: seq<nat>, c: Collector, j: nat)
    requires k <= |steps| && c.Returned? && j < |senders|
    requires |c.ids| == |c.externalIps| == |c.privateIps| == |senders|
  {
    && senders[j] < n && |Answers(steps, k, senders[j])| == 3
    && c.ids[j] == Answers(steps, k, senders[j])[2].id
    && c.externalIps[j] == Answers(steps, k, senders[j])[2].externalIp
    && c.privateIps[j] == Answers(steps, k, senders[j])[2].privateIp
  }

  /** The slices list the instances of all workers, each once, in the order of `senders`. */
  ghost predicate ListsAll(steps: seq<Step>, k: nat, n: nat, c: Collector, senders: seq<nat>)
    requires k <= |steps| && c.Returned?
  {
    && |senders| == n && Distinct(senders)
    && |c.ids| == |c.externalIps| == |c.privateIps| == n
    && forall j :: 0 <= j < n ==> IsEntry(steps, k, n, senders, c, j)
  }

  lemma FailedWorker(ws: seq<World>, steps: seq<Step>, mode: Mode, n: nat, k: nat)
    requires IsRun(ws, steps, mode, n) && k < |ws|
    ensures forall j :: 0 <= j < k && steps[j].Fail? ==> steps[j].i < n && CallFailed(steps, k, steps[j].i)
  {
    forall j | 0 <= j < k && steps[j].Fail? ensures steps[j].i < n && CallFailed(steps, k, steps[j].i) {
      assert IsStep(ws, steps, j);
      RunKeeps(ws, steps, mode, n, j);
      assert steps[j] == Fail(steps[j].i);
    }
  }

  /** The collector returns an error only if some call failed. */
  lemma ErrorMeansFailure(ws: seq<World>, steps: seq<Step>, mode: Mode, n: nat, k: nat)
    requires IsRun(ws, steps, mode, n) && k < |ws| && ws[k].collector.Failed?
    ensures exists j :: 0 <= j < k && steps[j].Fail?
  {
    AllOrNothing(ws, steps, mode, n, k);
    var i :| 0 <= i < n && HasSent(ws[k].workers[i], false);
    WorkersFollowCalls(ws, steps, mode, n, k, i);
    var j :| 0 <= j < k && steps[j] == Fail(i);
    assert steps[j].Fail?;
  }

  /** The collector returns without one only if all calls of all workers succeeded. */
  lemma SuccessMeansSuccess(ws: seq<World>, steps: seq<Step>, mode: Mode, n: nat, k: nat)
    requires IsRun(ws, steps, mode, n) && k < |ws| && ws[k].collector.Returned?
    ensures AllCallsSucceeded(steps, k, mode, n)
  {
    AllOrNothing(ws, steps, mode, n, k);
    FailedWorker(ws, steps, mode, n, k);
    forall i: nat | i < n
      ensures !CallFailed(steps, k, i) && |Answers(steps, k, i)| == if mode.Instances? then 3 else 1
    {
      WorkersFollowCalls(ws, steps, mode, n, k, i);
      assert ws[k].workers[i] == Done(true);
    }
  }

  lemma SuccessListsAll(ws: seq<World>, steps: seq<Step>, n: nat, k: nat)
    requires IsRun(ws, steps, Instances, n) && k < |ws| && ws[k].collector.Returned?
    ensures exists senders :: ListsAll(steps, k, n, ws[k].collector, senders)
  {
    AllOrNothing(ws, steps, Instances, n, k);
    RunKeeps(ws, steps, Instances, n, k);
    var w := ws[k];
    var senders, c := Senders(w.results), w.collector;
    forall j | 0 <= j < n ensures IsEntry(steps, k, n, senders, c, j) {
      ResultsAreAnswers(ws, steps, Instances, n, k, j);
      assert ResultWell(w, j);
    }
    assert ListsAll(steps, k, n, c, senders);
  }

  /** What a run returns, by its calls alone: an error only if a call failed; without one only if no call
      failed and each worker made all of its calls, and then the slices list for each worker, once, what
      the last of its three calls answered. */
  lemma ReturnsWhatWasCalled(ws: seq<World>, steps: seq<Step>, mode: Mode, n: nat, k: nat)
    requires IsRun(ws, steps, mode, n) && k < |ws|
    ensures ws[k].collector.Failed? ==> exists j :: 0 <= j < k && steps[j].Fail?
    ensures ws[k].collector.Returned? ==> AllCallsSucceeded(steps, k, mode, n)
    ensures ws[k].collector.Returned? && mode.Instances? ==>
              exists senders :: ListsAll(steps, k, n, ws[k].collector, senders)
    ensures ws[k].collector.Returned? && mode.Assets? ==> ws[k].collector == Returned([], [], [])
  {
    RunKeeps(ws, steps, mode, n, k);
    if ws[k].collector.Failed? {
      ErrorMeansFailure(ws, steps, mode, n, k);
    } else if ws[k].collector.Returned? {
      SuccessMeansSuccess(ws, steps, mode, n, k);
      if mode.Instances? { SuccessListsAll(ws, steps, n, k); }
    }
  }

  /** A run that is over ends in an error if and only if a call failed in it. */
  lemma FailsIffACallFailed(ws: seq<World>, steps: seq<Step>, mode: Mode, n: nat)
    requires IsRun(ws, steps, mode, n) && forall s :: !Enabled(ws[|steps|], s)
    ensures ws[|steps|].collector.Failed? <==> exists j :: 0 <= j < |steps| && steps[j].Fail?
    ensures ws[|steps|].collector.Failed? <==> !ws[|steps|].collector.Returned?
  {
    AlwaysFinishes(ws, steps, mode, n);
    ReturnsWhatWasCalled(ws, steps, mode, n, |steps|);
  }

  /** How often the closer closes a channel in the first `k` steps. */
  function Closes(steps: seq<Step>, k: nat): nat
    requires k <= |steps|
  {
    if k == 0 then 0 else Closes(steps, k - 1) + if steps[k - 1].Close? then 1 else 0
  }

  /** The channels are closed one after the other, the results first; for assets there is only one. */
  lemma {:induction false} ClosedInOrder(ws: seq<World>, steps: seq<Step>, mode: Mode, n: nat, k: nat)
    requires IsRun(ws, steps, mode, n) && k < |ws|
    ensures Closes(steps, k) == 0 <==> ws[k].closer == Waiting
    ensures mode == Instances ==> (Closes(steps, k) == 1 <==> ws[k].closer == ClosedResults)
    ensures mode == Instances ==> (Closes(steps, k) == 2 <==> ws[k].closer == Finished)
    ensures mode == Assets ==> (Closes(steps, k) == 1 <==> ws[k].closer == Finished)
  {
    if k > 0 {
      assert IsStep(ws, steps, k - 1);
      RunKeeps(ws, steps, mode, n, k - 1);
      ClosedInOrder(ws, steps, mode, n, k - 1);
    }
  }

  /** Every run can be brought to its end without another failing call. */
  lemma {:induction false} CanFinish(ws: seq<World>, steps: seq<Step>, mode: Mode, n: nat)
    returns (ws': seq<World>, steps': seq<Step>)
    requires IsRun(ws, steps, mode, n)
    ensures IsRun(ws', steps', mode, n) && IsOver(ws'[|steps'|])
    ensures steps <= steps' && forall k :: |steps| <= k < |steps'| ==> !steps'[k].Fail?
    decreases StepsLeft(ws[|steps|])
  {
    ws', steps' := ws, steps;
    RunKeeps(ws, steps, mode, n, |steps|);
    if !IsOver(ws[|steps|]) {
      var s := NoDeadlock(ws[|steps|]);
      StepsDecrease(ws[|steps|], s);
      var more := steps + [s];
      GoesOn(ws, steps, mode, n, s);
      ws', steps' := CanFinish(ws + [Next(ws[|steps|], s)], more, mode, n);
      assert steps <= more && steps'[|steps|] == more[|steps|] == s;
    }
  }

  lemma GoesOn(ws: seq<World>, steps: seq<Step>, mode: Mode, n: nat, s: Step)
    requires IsRun(ws, steps, mode, n) && Enabled(ws[|steps|], s)
    ensures IsRun(ws + [Next(ws[|steps|], s)], steps + [s], mode, n)
  {
    var ws', steps' := ws + [Next(ws[|steps|], s)], steps + [s];
    forall k | 0 <= k < |steps'| ensures IsStep(ws', steps', k) {
      if k < |steps| { assert IsStep(ws, steps, k); }
    }
  }

  /** So for any number of workers there are runs that return every result. */
  lemma SuccessIsPossible(mode: Mode, n: nat) returns (ws: seq<World>, steps: seq<Step>)
    requires mode == Instances ==> 0 < n
    ensures IsRun(ws, steps, mode, n) && ws[|steps|].collector.Returned? && AllCallsSucceeded(steps, |steps|, mode, n)
  {
    ws, steps := CanFinish([Init(mode, n)], [], mode, n);
    ReturnsWhatWasCalled(ws, steps, mode, n, |steps|);
  }

  lemma ErrorsFit(w: World)
    requires Inv(w)
    ensures |w.errors| <= |w.workers|
  {
    forall k | 0 <= k < |w.errors| ensures w.errors[k] < |w.workers| { assert ErrorWell(w, k); }
    DistinctSize(w.errors, |w.errors|);
    BelowSize(|w.workers|);
    forall x | x in SetTo(w.errors, |w.errors|) ensures x in Below(|w.workers|) { BelowIs(|w.workers|, x); }
    SubsetSize(SetTo(w.errors, |w.errors|), Below(|w.workers|));
  }

  /** Neither channel ever holds more than the one place for each worker that it is made with. */
  lemma BuffersFit(ws: seq<World>, steps: seq<Step>, mode: Mode, n: nat, k: nat)
    requires IsRun(ws, steps, mode, n) && k < |ws|
    ensures |ws[k].errors| <= n && |ws[k].results| <= n
  {
    RunKeeps(ws, steps, mode, n, k);
    ErrorsFit(ws[k]);
    ResultsFit(ws[k]);
  }

  /** A deadlock-free, bounded schedule: from any state of a run either all is over, or there is a next
      step, and at most as many steps follow as `StepsLeft` says. */
  lemma AlwaysFinishes(ws: seq<World>, steps: seq<Step>, mode: Mode, n: nat)
    requires IsRun(ws, steps, mode, n)
    ensures |steps| <= StepsLeft(Init(mode, n))
    ensures (forall s :: !Enabled(ws[|steps|], s)) <==> IsOver(ws[|steps|])
  {
    RunsEnd(ws, steps, mode, n, |steps|);
    RunKeeps(ws, steps, mode, n, |steps|);
    if !IsOver(ws[|steps|]) {
      var s := NoDeadlock(ws[|steps|]);
    }
  }
}
