/** The rerun protocol: poll cycles and reporters that share one state file, as interleaved steps with
    a crash possible between any two of them.

    A poll cycle loads the record, chooses a request, writes the record with the request's timestamp to a
    temporary file, renames it over the state file, and only then executes. A report of a rerun reads the
    record and writes it back with new failed tests; the report of a fresh run writes a new record for
    the thread it has just opened. */
module RerunProtocol {
  import opened Options
  import opened RerunRequest
  import opened StringOrder

  datatype File = NoFile | Garbage | Stored(rec: Record)

  /** A request in its thread. */
  datatype Claim = Claim(thread: string, ts: string)

  /** Where a process stands, and what it holds in memory. */
  datatype Proc =
    | Idle
    | Loaded(rec: Record)
    | Chosen(rec: Record, msg: Message)
    | Staged(rec: Record)
    | Claimed(claim: Claim, failed: seq<string>)
    | Running(tests: seq<string>)
    | Reading(rec: Record)
    | Updated(rec: Record)
    | Posted(thread: string)
    | Opened(rec: Record)

  /** `threads` are the timestamps of all threads opened so far; `claims` are the requests whose
      timestamp reached the state file, and `executed` the requests whose execution was started. */
  datatype World = World(
    file: File,
    tmp: File,
    procs: seq<Proc>,
    threads: set<string>,
    claims: seq<Claim>,
    executed: seq<Claim>)

  datatype Step =
    | Load(i: nat)
    | Choose(i: nat, replies: seq<Message>, pages: seq<seq<Page>>, k: nat)
    | Stage(i: nat)
    | Publish(i: nat)
    | Execute(i: nat)
    | Leave(i: nat)
    | Read(i: nat)
    | Update(i: nat, failed: seq<string>)
    | Post(i: nat, thread: string)
    | Open(i: nat, channel: string, failed: seq<string>)

  function At(w: World, i: nat, p: Proc): World
    requires i < |w.procs|
  {
    w.(procs := w.procs[i := p])
  }

  /** The step can be taken. A process may leave at any point: it crashed, gave up on an error, found
      nothing to do, or finished; whatever it has put into a file stays there. */
  ghost predicate Enabled(w: World, s: Step) {
    && s.i < |w.procs|
    && var p := w.procs[s.i];
       match s
       case Load(_) => p.Idle? && w.file.Stored? && w.file.rec.thread != "" && w.file.rec.channel != ""
       case Choose(_, replies, pages, k) =>
         p.Loaded? && |pages| == |replies| && IsChoice(p.rec, replies, pages, Some(k))
       case Stage(_) => p.Chosen?
       case Publish(_) => p.Staged? || p.Updated? || p.Opened?
       case Execute(_) => p.Claimed? && p.failed != []
       case Leave(_) => !p.Idle?
       case Read(_) => p.Idle? && w.file.Stored?
       case Update(_, _) => p.Reading?
       case Post(_, t) => p.Idle? && t !in w.threads
       case Open(_, _, _) => p.Posted?
  }

  /** What the step does. */
  ghost function Next(w: World, s: Step): World
    requires Enabled(w, s)
  {
    var i, p := s.i, w.procs[s.i];
    match s
    case Load(_) => At(w, i, Loaded(w.file.rec))
    case Choose(_, replies, _, k) => At(w, i, Chosen(p.rec, replies[k]))
    case Stage(_) =>
      var rec := p.rec.(last := p.msg.ts);
      At(w.(tmp := Stored(rec)), i, Staged(rec))
    case Publish(_) =>
      var moved := w.(file := w.tmp, tmp := NoFile);
      if w.tmp == NoFile then At(w, i, Idle)
      else if p.Staged? then
        var claim := Claim(p.rec.thread, p.rec.last);
        At(moved.(claims := w.claims + [claim]), i, Claimed(claim, p.rec.failed))
      else At(moved, i, Idle)
    case Execute(_) => At(w.(executed := w.executed + [p.claim]), i, Running(p.failed))
    case Leave(_) => At(w, i, Idle)
    case Read(_) => At(w, i, Reading(w.file.rec))
    case Update(_, failed) =>
      var rec := p.rec.(failed := failed);
      At(w.(tmp := Stored(rec)), i, Updated(rec))
    case Post(_, t) => At(w.(threads := w.threads + {t}), i, Posted(t))
    case Open(_, channel, failed) =>
      var rec := Record(channel, p.thread, p.thread, failed);
      At(w.(tmp := Stored(rec)), i, Opened(rec))
  }

  /** The process is between reading the state file, or starting to write it, and renaming. */
  predicate InSection(p: Proc) {
    p.Loaded? || p.Chosen? || p.Staged? || p.Reading? || p.Updated? || p.Opened?
  }

  predicate Enters(s: Step) { s.Load? || s.Read? || s.Open? }

  /** The assumption under which the protocol is safe: nobody begins to read or rewrite the state file
      while somebody else is in the middle of it. The lock files of the program do not enforce it. */
  ghost predicate Serial(w: World, s: Step) {
    Enters(s) ==> forall j :: 0 <= j < |w.procs| && j != s.i ==> !InSection(w.procs[j])
  }

  /** The history starts with a state file of some thread, or without one. */
  ghost predicate Init(w: World) {
    && w.claims == [] && w.executed == []
    && (forall i :: 0 <= i < |w.procs| ==> w.procs[i] == Idle)
    && (w.file.Stored? ==> w.file.rec.thread in w.threads)
  }

  /** `ws[n + 1]` is what step `n` makes of `ws[n]`. */
  ghost predicate IsRun(ws: seq<World>, steps: seq<Step>) {
    && |ws| == |steps| + 1 && Init(ws[0])
    && forall n :: 0 <= n < |steps| ==> IsStep(ws, steps, n)
  }

  ghost predicate IsStep(ws: seq<World>, steps: seq<Step>, n: nat)
    requires n < |steps| < |ws|
  {
    Enabled(ws[n], steps[n]) && ws[n + 1] == Next(ws[n], steps[n])
  }

  ghost predicate IsSerial(ws: seq<World>, steps: seq<Step>) {
    |ws| == |steps| + 1 && forall n :: 0 <= n < |steps| ==> Serial(ws[n], steps[n])
  }

  // ---- The invariant ----

  /** No two processes are in the section at once. */
  ghost predicate OneInSection(w: World) {
    forall i, j :: 0 <= i < j < |w.procs| ==> NotBoth(w, i, j)
  }

  predicate NotBoth(w: World, i: nat, j: nat)
    requires i < |w.procs| && j < |w.procs|
  {
    !(InSection(w.procs[i]) && InSection(w.procs[j]))
  }

  /** All claims in this thread are at most `last`. */
  ghost predicate Covers(last: string, thread: string, claims: seq<Claim>) {
    forall k :: 0 <= k < |claims| ==> CoveredBy(claims[k], thread, last)
  }

  ghost predicate CoveredBy(c: Claim, thread: string, last: string) {
    c.thread == thread ==> AtMost(c.ts, last)
  }

  ghost predicate FileCovers(w: World) {
    w.file.Stored? ==> w.file.rec.thread in w.threads && Covers(w.file.rec.last, w.file.rec.thread, w.claims)
  }

  /** Claims belong to known threads, and in one thread come in ascending order. */
  ghost predicate ClaimsAscend(w: World) {
    && (forall k :: 0 <= k < |w.claims| ==> w.claims[k].thread in w.threads)
    && (forall j, k :: 0 <= j < k < |w.claims| ==> InOrder(w.claims, j, k))
  }

  predicate InOrder(claims: seq<Claim>, j: nat, k: nat)
    requires j < |claims| && k < |claims|
  {
    claims[j].thread == claims[k].thread ==> Less(claims[j].ts, claims[k].ts)
  }

  /** What a process holds agrees with the state file. */
  ghost predicate HoldsWell(w: World, i: nat)
    requires i < |w.procs|
  {
    var p := w.procs[i];
    match p
    case Loaded(rec) => w.file == Stored(rec)
    case Chosen(rec, msg) => w.file == Stored(rec) && Less(rec.last, msg.ts)
    case Staged(rec) =>
      w.tmp == Stored(rec) && w.file.Stored? && w.file.rec.thread == rec.thread && Less(w.file.rec.last, rec.last)
    case Reading(rec) => w.file == Stored(rec)
    case Updated(rec) =>
      w.tmp == Stored(rec) && w.file.Stored? && w.file.rec.thread == rec.thread && w.file.rec.last == rec.last
    case Posted(t) => IsUnused(w, i, t)
    case Opened(rec) => w.tmp == Stored(rec) && IsUnused(w, i, rec.thread)
    case _ => true
  }

  /** A thread that exists and that nothing but process `i` knows of. */
  ghost predicate IsUnused(w: World, i: nat, t: string) {
    && t in w.threads
    && (w.file.Stored? ==> w.file.rec.thread != t)
    && (forall k :: 0 <= k < |w.claims| ==> w.claims[k].thread != t)
    && (forall j :: 0 <= j < |w.procs| && j != i ==> !OpensThread(w.procs[j], t))
  }

  predicate OpensThread(p: Proc, t: string) {
    (p.Posted? && p.thread == t) || (p.Opened? && p.rec.thread == t)
  }

  ghost predicate AllHoldWell(w: World) { forall i :: 0 <= i < |w.procs| ==> HoldsWell(w, i) }

  /** A claim waits to be executed by one process at most, and is not executed yet. */
  ghost predicate WaitsOnce(w: World) {
    && (forall i :: 0 <= i < |w.procs| && w.procs[i].Claimed? ==> IsWaiting(w, i))
    && (forall i, j :: 0 <= i < j < |w.procs| ==> WaitApart(w, i, j))
  }

  predicate IsWaiting(w: World, i: nat)
    requires i < |w.procs| && w.procs[i].Claimed?
  {
    w.procs[i].claim in w.claims && w.procs[i].claim !in w.executed
  }

  predicate WaitApart(w: World, i: nat, j: nat)
    requires i < |w.procs| && j < |w.procs|
  {
    w.procs[i].Claimed? && w.procs[j].Claimed? ==> w.procs[i].claim != w.procs[j].claim
  }

  ghost predicate ExecutedOnce(w: World) {
    && (forall k :: 0 <= k < |w.executed| ==> w.executed[k] in w.claims)
    && (forall k :: 0 <= k < |w.executed| ==> IsFirst(w.executed, k))
  }

  predicate IsFirst(cs: seq<Claim>, k: nat)
    requires k < |cs|
  {
    cs[k] !in cs[..k]
  }

  ghost predicate Inv(w: World) {
    OneInSection(w) && FileCovers(w) && ClaimsAscend(w) && AllHoldWell(w) && WaitsOnce(w) && ExecutedOnce(w)
  }

  // ---- Every serial step keeps it ----

  lemma InitHolds(w: World)
    requires Init(w)
    ensures Inv(w)
  {
  }

  lemma SectionStep(w: World, s: Step)
    requires Inv(w) && Enabled(w, s) && Serial(w, s)
    ensures OneInSection(Next(w, s))
  {
    var w' := Next(w, s);
    forall i, j | 0 <= i < j < |w'.procs| ensures NotBoth(w', i, j) {
      assert NotBoth(w, i, j);
    }
  }

  /** Who publishes a claim publishes a timestamp above everything claimed in the thread. */
  lemma NewClaimIsGreatest(w: World, i: nat, k: nat)
    requires Inv(w) && i < |w.procs| && w.procs[i].Staged? && k < |w.claims|
    requires w.claims[k].thread == w.procs[i].rec.thread
    ensures Less(w.claims[k].ts, w.procs[i].rec.last)
  {
    assert HoldsWell(w, i);
    assert CoveredBy(w.claims[k], w.file.rec.thread, w.file.rec.last);
    if w.claims[k].ts != w.file.rec.last {
      LessTransitive(w.claims[k].ts, w.file.rec.last, w.procs[i].rec.last);
    }
  }

  lemma NewClaimIsNew(w: World, i: nat)
    requires Inv(w) && i < |w.procs| && w.procs[i].Staged?
    ensures Claim(w.procs[i].rec.thread, w.procs[i].rec.last) !in w.claims
  {
    forall k | 0 <= k < |w.claims| ensures w.claims[k] != Claim(w.procs[i].rec.thread, w.procs[i].rec.last) {
      if w.claims[k].thread == w.procs[i].rec.thread {
        NewClaimIsGreatest(w, i, k);
        LessIrreflexive(w.claims[k].ts);
      }
    }
  }

  lemma FileStep(w: World, s: Step)
    requires Inv(w) && Enabled(w, s)
    ensures FileCovers(Next(w, s))
  {
    var w', p := Next(w, s), w.procs[s.i];
    assert HoldsWell(w, s.i);
    if s.Publish? {
      forall k | 0 <= k < |w'.claims| ensures CoveredBy(w'.claims[k], p.rec.thread, p.rec.last) {
        if k < |w.claims| {
          assert w'.claims[k] == w.claims[k];
          assert w.file.Stored? ==> CoveredBy(w.claims[k], w.file.rec.thread, w.file.rec.last);
          if p.Staged? && w.claims[k].thread == p.rec.thread { NewClaimIsGreatest(w, s.i, k); }
        }
      }
    } else if w.file.Stored? {
      forall k | 0 <= k < |w'.claims| ensures CoveredBy(w'.claims[k], w.file.rec.thread, w.file.rec.last) {
        assert CoveredBy(w.claims[k], w.file.rec.thread, w.file.rec.last);
      }
    }
  }

  lemma ClaimsStep(w: World, s: Step)
    requires Inv(w) && Enabled(w, s)
    ensures ClaimsAscend(Next(w, s))
    ensures w.claims <= Next(w, s).claims
  {
    var w', p := Next(w, s), w.procs[s.i];
    assert HoldsWell(w, s.i);
    forall j, k | 0 <= j < k < |w'.claims| ensures InOrder(w'.claims, j, k) {
      if k < |w.claims| {
        assert InOrder(w.claims, j, k);
      } else if w.claims[j].thread == p.rec.thread {
        NewClaimIsGreatest(w, s.i, j);
      }
    }
  }

  lemma UnusedStep(w: World, s: Step, j: nat, t: string)
    requires Inv(w) && Enabled(w, s)
    requires j < |w.procs| && j != s.i && OpensThread(w.procs[j], t)
    ensures IsUnused(Next(w, s), j, t)
  {
    var w', p := Next(w, s), w.procs[s.i];
    assert HoldsWell(w, s.i) && HoldsWell(w, j);
    assert IsUnused(w, j, t) && !OpensThread(p, t);
    forall n | 0 <= n < |w'.procs| && n != j ensures !OpensThread(w'.procs[n], t) {
      assert !OpensThread(w.procs[n], t);
    }
    forall k | 0 <= k < |w'.claims| ensures w'.claims[k].thread != t {
      if k < |w.claims| { assert w'.claims[k] == w.claims[k]; }
    }
  }

  lemma OthersHold(w: World, s: Step, j: nat)
    requires Inv(w) && Enabled(w, s) && Serial(w, s) && j < |w.procs| && j != s.i
    ensures HoldsWell(Next(w, s), j)
  {
    assert HoldsWell(w, j);
    assert NotBoth(w, if j < s.i then j else s.i, if j < s.i then s.i else j);
    var p := w.procs[j];
    if p.Posted? {
      UnusedStep(w, s, j, p.thread);
    } else if p.Opened? {
      UnusedStep(w, s, j, p.rec.thread);
    }
  }

  lemma MoverHolds(w: World, s: Step)
    requires Inv(w) && Enabled(w, s) && Serial(w, s)
    ensures HoldsWell(Next(w, s), s.i)
  {
    var w' := Next(w, s);
    assert HoldsWell(w, s.i);
    if s.Post? {
      forall j | 0 <= j < |w'.procs| && j != s.i ensures !OpensThread(w'.procs[j], s.thread) {
        assert HoldsWell(w, j);
      }
    } else if s.Open? {
      forall j | 0 <= j < |w'.procs| && j != s.i ensures !OpensThread(w'.procs[j], w.procs[s.i].thread) {
        assert !OpensThread(w.procs[j], w.procs[s.i].thread);
      }
    }
  }

  /** No poller publishes a claim that was made before. */
  ghost predicate ClaimsAnew(w: World, s: Step)
    requires Enabled(w, s)
  {
    s.Publish? && w.procs[s.i].Staged? && w.tmp != NoFile ==>
      Claim(w.procs[s.i].rec.thread, w.procs[s.i].rec.last) !in w.claims
  }

  lemma WaitingStep(w: World, s: Step, i: nat)
    requires WaitsOnce(w) && ExecutedOnce(w) && Enabled(w, s) && ClaimsAnew(w, s)
    requires i < |w.procs| && Next(w, s).procs[i].Claimed?
    ensures IsWaiting(Next(w, s), i)
  {
    if i != s.i {
      assert IsWaiting(w, i);
      assert WaitApart(w, if i < s.i then i else s.i, if i < s.i then s.i else i);
    }
  }

  lemma WaitApartStep(w: World, s: Step, i: nat, j: nat)
    requires WaitsOnce(w) && Enabled(w, s) && ClaimsAnew(w, s) && i < j < |w.procs|
    ensures WaitApart(Next(w, s), i, j)
  {
    assert WaitApart(w, i, j);
    if w.procs[i].Claimed? { assert IsWaiting(w, i); }
    if w.procs[j].Claimed? { assert IsWaiting(w, j); }
  }

  lemma WaitStep(w: World, s: Step)
    requires WaitsOnce(w) && ExecutedOnce(w) && Enabled(w, s) && ClaimsAnew(w, s)
    ensures WaitsOnce(Next(w, s))
  {
    var w' := Next(w, s);
    forall i | 0 <= i < |w'.procs| && w'.procs[i].Claimed? ensures IsWaiting(w', i) { WaitingStep(w, s, i); }
    forall i, j | 0 <= i < j < |w'.procs| ensures WaitApart(w', i, j) { WaitApartStep(w, s, i, j); }
  }

  lemma ExecuteStep(w: World, s: Step)
    requires WaitsOnce(w) && ExecutedOnce(w) && Enabled(w, s)
    ensures ExecutedOnce(Next(w, s))
  {
    var w' := Next(w, s);
    if s.Execute? { assert IsWaiting(w, s.i); }
    forall k | 0 <= k < |w'.executed| ensures w'.executed[k] in w'.claims && IsFirst(w'.executed, k) {
      assert w'.executed[..k] == w.executed[..k];
      if k < |w.executed| {
        assert IsFirst(w.executed, k);
      } else {
        assert w.executed[..k] == w.executed;
      }
    }
  }

  lemma StepKeeps(w: World, s: Step)
    requires Inv(w) && Enabled(w, s) && Serial(w, s)
    ensures Inv(Next(w, s))
  {
    SectionStep(w, s);
    FileStep(w, s);
    ClaimsStep(w, s);
    forall j | 0 <= j < |w.procs| ensures HoldsWell(Next(w, s), j) {
      if j == s.i { MoverHolds(w, s); } else { OthersHold(w, s, j); }
    }
    assert HoldsWell(w, s.i);
    if w.procs[s.i].Staged? { NewClaimIsNew(w, s.i); }
    WaitStep(w, s);
    ExecuteStep(w, s);
  }
}
