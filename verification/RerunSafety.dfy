/** What the rerun protocol keeps over whole runs, and what becomes of it without the assumption that the
    sections of the state file do not overlap. */
module RerunSafety {
  import opened Options
  import opened RerunProtocol
  import opened RerunRequest
  import opened StringOrder

  // ---- Safety of whole runs ----

  lemma {:induction false} RunKeeps(ws: seq<World>, steps: seq<Step>, n: nat)
    requires IsRun(ws, steps) && IsSerial(ws, steps) && n < |ws|
    ensures Inv(ws[n])
  {
    if n == 0 {
      InitHolds(ws[0]);
    } else {
      RunKeeps(ws, steps, n - 1);
      assert IsStep(ws, steps, n - 1);
      StepKeeps(ws[n - 1], steps[n - 1]);
    }
  }

  /** At most once: in every serial run, with processes crashing at any point, each request of a thread
      starts at most one execution. */
  lemma ExecutedAtMostOnce(ws: seq<World>, steps: seq<Step>, n: nat, j: nat, k: nat)
    requires IsRun(ws, steps) && IsSerial(ws, steps) && n < |ws|
    requires j < k < |ws[n].executed|
    ensures ws[n].executed[j] != ws[n].executed[k]
  {
    SerialNeverRepeats(ws, steps);
    OnceWithoutRepeats(ws, steps, n);
    assert IsFirst(ws[n].executed, k);
    assert ws[n].executed[..k][j] == ws[n].executed[j];
  }

  ghost predicate NeverRepeats(ws: seq<World>, steps: seq<Step>) {
    |ws| == |steps| + 1 && forall n :: 0 <= n < |steps| ==> StepsAnew(ws, steps, n)
  }

  ghost predicate StepsAnew(ws: seq<World>, steps: seq<Step>, n: nat)
    requires n < |steps| < |ws|
  {
    IsStep(ws, steps, n) && ClaimsAnew(ws[n], steps[n])
  }

  /** All that at-most-once needs: in every run, serial or not, in which no poller publishes a claim made
      before, each request of a thread starts at most one execution. */
  lemma {:induction false} OnceWithoutRepeats(ws: seq<World>, steps: seq<Step>, n: nat)
    requires IsRun(ws, steps) && NeverRepeats(ws, steps) && n < |ws|
    ensures WaitsOnce(ws[n]) && ExecutedOnce(ws[n])
  {
    if n == 0 {
      InitHolds(ws[0]);
    } else {
      OnceWithoutRepeats(ws, steps, n - 1);
      assert StepsAnew(ws, steps, n - 1);
      WaitStep(ws[n - 1], steps[n - 1]);
      ExecuteStep(ws[n - 1], steps[n - 1]);
    }
  }

  /** Serial runs are of that kind. */
  lemma SerialNeverRepeats(ws: seq<World>, steps: seq<Step>)
    requires IsRun(ws, steps) && IsSerial(ws, steps)
    ensures NeverRepeats(ws, steps)
  {
    forall n | 0 <= n < |steps| ensures StepsAnew(ws, steps, n) {
      RunKeeps(ws, steps, n);
      assert IsStep(ws, steps, n);
      if ws[n].procs[steps[n].i].Staged? { NewClaimIsNew(ws[n], steps[n].i); }
    }
  }

  lemma {:induction false} ClaimsGrow(ws: seq<World>, steps: seq<Step>, m: nat, n: nat)
    requires IsRun(ws, steps) && IsSerial(ws, steps) && m <= n < |ws|
    ensures ws[m].claims <= ws[n].claims
  {
    if m < n {
      ClaimsGrow(ws, steps, m, n - 1);
      RunKeeps(ws, steps, n - 1);
      assert IsStep(ws, steps, n - 1);
      ClaimsStep(ws[n - 1], steps[n - 1]);
    }
  }

  /** Superseded for good: once a request of a thread is claimed, no request of that thread that is not
      newer, and was not claimed before, is executed at any later time. */
  lemma SupersededIsNeverExecuted(ws: seq<World>, steps: seq<Step>, m: nat, n: nat, k: nat, ts: string)
    requires IsRun(ws, steps) && IsSerial(ws, steps) && m <= n < |ws| && k < |ws[m].claims|
    requires AtMost(ts, ws[m].claims[k].ts) && Claim(ws[m].claims[k].thread, ts) !in ws[m].claims
    ensures Claim(ws[m].claims[k].thread, ts) !in ws[n].executed
  {
    var c := Claim(ws[m].claims[k].thread, ts);
    ClaimsGrow(ws, steps, m, n);
    RunKeeps(ws, steps, n);
    forall j | 0 <= j < |ws[n].claims| ensures ws[n].claims[j] != c {
      if j < |ws[m].claims| {
        assert ws[n].claims[j] == ws[m].claims[j];
      } else {
        assert InOrder(ws[n].claims, k, j);
        assert ws[n].claims[k] == ws[m].claims[k];
        NotAtMost(ws[n].claims[j].ts, ws[n].claims[k].ts);
      }
    }
  }

  // ---- Only what comes after the thread's own message ----

  /** A record says that its thread's own message was processed. */
  predicate IsSane(rec: Record) { AtMost(rec.thread, rec.last) }

  predicate HoldsSane(p: Proc) {
    match p
    case Loaded(rec) => IsSane(rec)
    case Chosen(rec, _) => IsSane(rec)
    case Staged(rec) => Less(rec.thread, rec.last)
    case Reading(rec) => IsSane(rec)
    case Updated(rec) => IsSane(rec)
    case Opened(rec) => IsSane(rec)
    case _ => true
  }

  predicate IsReply(c: Claim) { Less(c.thread, c.ts) }

  ghost predicate AllSane(w: World) {
    && (w.file.Stored? ==> IsSane(w.file.rec))
    && (forall i :: 0 <= i < |w.procs| ==> HoldsSane(w.procs[i]))
    && (forall k :: 0 <= k < |w.claims| ==> IsReply(w.claims[k]))
  }

  lemma SaneStep(w: World, s: Step)
    requires Inv(w) && AllSane(w) && Enabled(w, s)
    ensures AllSane(Next(w, s))
  {
    var p := w.procs[s.i];
    assert HoldsWell(w, s.i) && HoldsSane(p);
    if s.Stage? && p.rec.thread != p.rec.last {
      LessTransitive(p.rec.thread, p.rec.last, p.msg.ts);
    }
  }

  /** In a serial run from a state file that says so, every request executed is newer than the message
      that opened its thread. */
  lemma {:induction false} ExecutedAreReplies(ws: seq<World>, steps: seq<Step>, n: nat)
    requires IsRun(ws, steps) && IsSerial(ws, steps) && n < |ws|
    requires ws[0].file.Stored? ==> IsSane(ws[0].file.rec)
    ensures AllSane(ws[n])
    ensures forall k :: 0 <= k < |ws[n].executed| ==> IsReply(ws[n].executed[k])
  {
    if n > 0 {
      ExecutedAreReplies(ws, steps, n - 1);
      RunKeeps(ws, steps, n - 1);
      assert IsStep(ws, steps, n - 1);
      SaneStep(ws[n - 1], steps[n - 1]);
      RunKeeps(ws, steps, n);
    }
  }

  // ---- Only what was asked for ----

  /** A record with a thread and a channel was loaded, and message `k` of its thread was chosen. */
  ghost predicate Took(rec: Record, replies: seq<Message>, pages: seq<seq<Page>>, k: nat) {
    && rec.thread != "" && rec.channel != "" && |pages| == |replies| && k < |replies|
    && IsChoice(rec, replies, pages, Some(k))
  }

  ghost predicate IsChosen(rec: Record, msg: Message) {
    exists replies, pages, k :: Took(rec, replies, pages, k) && replies[k] == msg
  }

  /** Somebody asked for this rerun, of these tests. */
  ghost predicate IsAskedFor(c: Claim, tests: seq<string>) {
    exists rec, msg :: IsChosen(rec, msg) && c == Claim(rec.thread, msg.ts) && tests == rec.failed
  }

  ghost predicate HoldsAsked(p: Proc) {
    match p
    case Loaded(rec) => rec.thread != "" && rec.channel != ""
    case Chosen(rec, msg) => IsChosen(rec, msg)
    case Staged(rec) => IsAskedFor(Claim(rec.thread, rec.last), rec.failed)
    case Claimed(c, failed) => IsAskedFor(c, failed)
    case Running(tests) => tests != []
    case _ => true
  }

  /** There are tests to run, somebody asked for it, and the claim reached the state file before. */
  ghost predicate WasAskedFor(w: World, c: Claim) {
    c in w.claims && exists tests :: tests != [] && IsAskedFor(c, tests)
  }

  ghost predicate AllAsked(w: World) {
    && (forall i :: 0 <= i < |w.procs| ==> HoldsAsked(w.procs[i]))
    && (forall i :: 0 <= i < |w.procs| && w.procs[i].Claimed? ==> w.procs[i].claim in w.claims)
    && (forall k :: 0 <= k < |w.executed| ==> WasAskedFor(w, w.executed[k]))
  }

  lemma MoverAsked(w: World, s: Step)
    requires AllAsked(w) && Enabled(w, s)
    ensures HoldsAsked(Next(w, s).procs[s.i])
    ensures Next(w, s).procs[s.i].Claimed? ==> Next(w, s).procs[s.i].claim in Next(w, s).claims
  {
    var p := w.procs[s.i];
    assert HoldsAsked(p);
    if s.Choose? {
      assert Took(p.rec, s.replies, s.pages, s.k);
      assert IsChosen(p.rec, s.replies[s.k]);
    }
  }

  lemma AskedStep(w: World, s: Step)
    requires AllAsked(w) && Enabled(w, s)
    ensures AllAsked(Next(w, s))
  {
    var w', p := Next(w, s), w.procs[s.i];
    MoverAsked(w, s);
    assert w.claims <= w'.claims;
    if s.Execute? { assert HoldsAsked(p) && IsAskedFor(p.claim, p.failed); }
    forall k | 0 <= k < |w'.executed| ensures WasAskedFor(w', w'.executed[k]) {
      if k < |w.executed| { assert WasAskedFor(w, w.executed[k]); }
    }
  }

  /** In every run, serial or not: whatever is executed was asked for. A record with a thread and a channel was
      loaded; in it the last eligible reply was chosen; the claim was stored before; and there were failed
      tests to run. */
  lemma {:induction false} ExecutedWereAskedFor(ws: seq<World>, steps: seq<Step>, n: nat)
    requires IsRun(ws, steps) && n < |ws|
    ensures AllAsked(ws[n])
    ensures forall k :: 0 <= k < |ws[n].executed| ==> WasAskedFor(ws[n], ws[n].executed[k])
  {
    if n > 0 {
      ExecutedWereAskedFor(ws, steps, n - 1);
      assert IsStep(ws, steps, n - 1);
      AskedStep(ws[n - 1], steps[n - 1]);
    }
  }

  // ---- Why the assumption is needed ----

  /** A run goes on with any enabled step, and a serial one with a step that is serial. */
  lemma Take(ws: seq<World>, steps: seq<Step>, s: Step) returns (ws': seq<World>, steps': seq<Step>)
    requires IsRun(ws, steps) && Enabled(ws[|ws| - 1], s)
    ensures IsRun(ws', steps') && ws'[|ws'| - 1] == Next(ws[|ws| - 1], s)
    ensures IsSerial(ws, steps) && Serial(ws[|ws| - 1], s) ==> IsSerial(ws', steps')
  {
    ws', steps' := ws + [Next(ws[|ws| - 1], s)], steps + [s];
    forall n | 0 <= n < |steps'| ensures IsStep(ws', steps', n) {
      if n < |steps| { assert IsStep(ws, steps, n); }
    }
  }

  /** No process but `i` has anything to do with the state file. */
  predicate AllOthersOut(w: World, i: nat) { forall j :: 0 <= j < |w.procs| && j != i ==> IsOut(w.procs[j]) }

  predicate IsOut(p: Proc) { p.Idle? || p.Claimed? || p.Running? || p.Posted? }

  /** A poll cycle can begin, and the message is one that it takes. */
  ghost predicate CanPoll(w: World, i: nat, msg: Message, pages: seq<Page>) {
    && i < |w.procs| && w.procs[i].Idle? && w.file.Stored?
    && w.file.rec.thread != "" && w.file.rec.channel != "" && w.file.rec.failed != []
    && Eligible(w.file.rec, msg, pages)
  }

  /** A poll cycle of process `i`, undisturbed, up to the execution: the timestamp is in the state file and
      nothing else in it has changed, and the tests run are those that the record says failed. */
  lemma PollExecutes(ws: seq<World>, steps: seq<Step>, i: nat, msg: Message, pages: seq<Page>)
    returns (ws': seq<World>, steps': seq<Step>)
    requires IsRun(ws, steps) && CanPoll(ws[|ws| - 1], i, msg, pages)
    ensures IsRun(ws', steps')
    ensures IsSerial(ws, steps) && AllOthersOut(ws[|ws| - 1], i) ==> IsSerial(ws', steps')
    ensures var w, w' := ws[|ws| - 1], ws'[|ws'| - 1];
            var rec := w.file.rec;
            var claim := Claim(rec.thread, msg.ts);
            w' == w.(file := Stored(Record(rec.channel, rec.thread, msg.ts, rec.failed)), tmp := NoFile,
                     procs := w.procs[i := Running(rec.failed)],
                     claims := w.claims + [claim], executed := w.executed + [claim])
  {
    ws', steps' := Take(ws, steps, Load(i));
    ws', steps' := Take(ws', steps', Choose(i, [msg], [pages], 0));
    ws', steps' := Take(ws', steps', Stage(i));
    ws', steps' := Take(ws', steps', Publish(i));
    ws', steps' := Take(ws', steps', Execute(i));
    assert ws'[|ws'| - 1].procs == ws[|ws| - 1].procs[i := Running(ws[|ws| - 1].file.rec.failed)];
  }

  /** The whole cycle. */
  lemma PollCycle(ws: seq<World>, steps: seq<Step>, i: nat, msg: Message, pages: seq<Page>)
    returns (ws': seq<World>, steps': seq<Step>)
    requires IsRun(ws, steps) && CanPoll(ws[|ws| - 1], i, msg, pages)
    ensures IsRun(ws', steps')
    ensures IsSerial(ws, steps) && AllOthersOut(ws[|ws| - 1], i) ==> IsSerial(ws', steps')
    ensures var w, w' := ws[|ws| - 1], ws'[|ws'| - 1];
            var claim := Claim(w.file.rec.thread, msg.ts);
            w' == w.(file := Stored(w.file.rec.(last := msg.ts)), tmp := NoFile,
                     claims := w.claims + [claim], executed := w.executed + [claim])
  {
    ws', steps' := PollExecutes(ws, steps, i, msg, pages);
    ws', steps' := Take(ws', steps', Leave(i));
    assert ws'[|ws'| - 1].procs == ws[|ws| - 1].procs;
  }

  /** The report of a rerun, undisturbed: the record has the new failed tests, and keeps its channel, its
      thread and its timestamp. */
  lemma ReportCycle(ws: seq<World>, steps: seq<Step>, i: nat, failed: seq<string>)
    returns (ws': seq<World>, steps': seq<Step>)
    requires IsRun(ws, steps)
    requires i < |ws[|ws| - 1].procs| && ws[|ws| - 1].procs[i].Idle? && ws[|ws| - 1].file.Stored?
    ensures IsRun(ws', steps')
    ensures IsSerial(ws, steps) && AllOthersOut(ws[|ws| - 1], i) ==> IsSerial(ws', steps')
    ensures var w, w' := ws[|ws| - 1], ws'[|ws'| - 1];
            var rec := w.file.rec;
            w' == w.(file := Stored(Record(rec.channel, rec.thread, rec.last, failed)), tmp := NoFile)
  {
    ws', steps' := Take(ws, steps, Read(i));
    ws', steps' := Take(ws', steps', Update(i, failed));
    ws', steps' := Take(ws', steps', Publish(i));
    assert ws'[|ws'| - 1].procs == ws[|ws| - 1].procs;
  }

  /** The report of a fresh run, undisturbed, whatever the state file held before: a record of the new
      thread, of which the thread's own message counts as processed. */
  lemma FreshReport(ws: seq<World>, steps: seq<Step>, i: nat, thread: string, channel: string, failed: seq<string>)
    returns (ws': seq<World>, steps': seq<Step>)
    requires IsRun(ws, steps)
    requires i < |ws[|ws| - 1].procs| && ws[|ws| - 1].procs[i].Idle? && thread !in ws[|ws| - 1].threads
    ensures IsRun(ws', steps')
    ensures IsSerial(ws, steps) && AllOthersOut(ws[|ws| - 1], i) ==> IsSerial(ws', steps')
    ensures var w, w' := ws[|ws| - 1], ws'[|ws'| - 1];
            w' == w.(file := Stored(Record(channel, thread, thread, failed)), tmp := NoFile,
                     threads := w.threads + {thread})
  {
    ws', steps' := Take(ws, steps, Post(i, thread));
    ws', steps' := Take(ws', steps', Open(i, channel, failed));
    ws', steps' := Take(ws', steps', Publish(i));
    assert ws'[|ws'| - 1].procs == ws[|ws| - 1].procs;
  }

  /** A process can crash at any point: it is idle again, and everything else stays as it is. */
  lemma CrashAnywhere(ws: seq<World>, steps: seq<Step>, i: nat) returns (ws': seq<World>, steps': seq<Step>)
    requires IsRun(ws, steps) && i < |ws[|ws| - 1].procs| && !ws[|ws| - 1].procs[i].Idle?
    ensures IsRun(ws', steps')
    ensures ws'[|ws'| - 1] == ws[|ws| - 1].(procs := ws[|ws| - 1].procs[i := Idle])
  {
    ws', steps' := Take(ws, steps, Leave(i));
  }

  /** Without the assumption a request can be executed twice: a report of a rerun reads the record, a
      whole poll cycle goes by, and the report writes the old timestamp back. */
  lemma OverlappingReportExecutesTwice(rec: Record, msg: Message, pages: seq<Page>)
    returns (ws: seq<World>, steps: seq<Step>)
    requires rec.thread != "" && rec.channel != "" && rec.failed != [] && Eligible(rec, msg, pages)
    ensures IsRun(ws, steps) && !IsSerial(ws, steps)
    ensures ws[|ws| - 1].executed == [Claim(rec.thread, msg.ts), Claim(rec.thread, msg.ts)]
  {
    var claim := Claim(rec.thread, msg.ts);
    var w := World(Stored(rec), NoFile, [Idle, Idle], {rec.thread}, [], []);
    ws, steps := [w], [];
    ws, steps := Take(ws, steps, Read(1));
    ws, steps := PollCycle(ws, steps, 0, msg, pages);
    ws, steps := Take(ws, steps, Update(1, rec.failed));
    ws, steps := Take(ws, steps, Publish(1));
    assert ws[|ws| - 1].file == Stored(rec);
    ws, steps := PollCycle(ws, steps, 0, msg, pages);
    assert ws[|ws| - 1].executed == [claim] + [claim];
    if IsSerial(ws, steps) {
      ExecutedAtMostOnce(ws, steps, |ws| - 1, 0, 1);
    }
  }

  /** Conversely, whenever a poller is about to publish a claim that was executed, the run can go on and
      execute it once more. */
  lemma RepeatExecutesAgain(ws: seq<World>, steps: seq<Step>, i: nat) returns (ws': seq<World>, steps': seq<Step>)
    requires IsRun(ws, steps)
    requires var w := ws[|ws| - 1];
             && i < |w.procs| && w.procs[i].Staged? && w.procs[i].rec.failed != [] && w.tmp != NoFile
             && Claim(w.procs[i].rec.thread, w.procs[i].rec.last) in w.executed
    ensures IsRun(ws', steps')
    ensures var w := ws[|ws| - 1];
            ws'[|ws'| - 1].executed == w.executed + [Claim(w.procs[i].rec.thread, w.procs[i].rec.last)]
  {
    ws', steps' := Take(ws, steps, Publish(i));
    ws', steps' := Take(ws', steps', Execute(i));
  }

  /** And whenever the stored timestamp is below a request of its thread that was executed and is still
      eligible, one more poll cycle executes it once more. */
  lemma LowTimestampExecutesAgain(ws: seq<World>, steps: seq<Step>, i: nat, msg: Message, pages: seq<Page>)
    returns (ws': seq<World>, steps': seq<Step>)
    requires IsRun(ws, steps)
    requires CanPoll(ws[|ws| - 1], i, msg, pages)
    requires Claim(ws[|ws| - 1].file.rec.thread, msg.ts) in ws[|ws| - 1].executed
    ensures IsRun(ws', steps')
    ensures var w, w' := ws[|ws| - 1], ws'[|ws'| - 1];
            w'.executed == w.executed + [Claim(w.file.rec.thread, msg.ts)]
  {
    ws', steps' := PollCycle(ws, steps, i, msg, pages);
  }

  /** Two poll cycles that overlap execute a request twice: both load the record before either of them
      publishes. */
  lemma OverlappingPollersExecuteTwice(rec: Record, msg: Message, pages: seq<Page>)
    returns (ws: seq<World>, steps: seq<Step>)
    requires rec.thread != "" && rec.channel != "" && rec.failed != [] && Eligible(rec, msg, pages)
    ensures IsRun(ws, steps) && !IsSerial(ws, steps)
    ensures ws[|ws| - 1].executed == [Claim(rec.thread, msg.ts), Claim(rec.thread, msg.ts)]
  {
    var claim := Claim(rec.thread, msg.ts);
    var w := World(Stored(rec), NoFile, [Idle, Idle], {rec.thread}, [], []);
    ws, steps := [w], [];
    ws, steps := Take(ws, steps, Load(1));
    ws, steps := Take(ws, steps, Choose(1, [msg], [pages], 0));
    ws, steps := PollCycle(ws, steps, 0, msg, pages);
    ws, steps := Take(ws, steps, Stage(1));
    ws, steps := RepeatExecutesAgain(ws, steps, 1);
    assert ws[|ws| - 1].executed == [claim] + [claim];
    if IsSerial(ws, steps) {
      ExecutedAtMostOnce(ws, steps, |ws| - 1, 0, 1);
    }
  }
}
