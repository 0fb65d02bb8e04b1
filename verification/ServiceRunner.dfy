/** Running a list of service actions on a node: what commands are issued, how often, and where the run
    stops. */
module ServiceRunner {
  import opened Options
  import opened Text

  datatype Action = Rotate | Stop | Status | Restart | Start | Enable | Unknown(name: string)

  datatype ServiceAction = ServiceAction(service: string, action: Action, nodeType: string)

  datatype Command = CertRotate(product: string) | SystemCtl(action: Action, service: string)

  /** A command was issued for the action of this index, and succeeded or not. */
  datatype Entry = Entry(index: nat, cmd: Command, ok: bool)

  datatype Outcome = Rejected | Failed | Done(output: string)

  // ---- The command of an action ----

  /** The unit name of a product on a node of this type. */
  function ProductService(product: string, nodeType: string): Option<string> {
    if product == "k3s" && nodeType == "server" then Some("k3s")
    else if product == "k3s" && nodeType == "agent" then Some("k3s-agent")
    else if product == "rke2" && nodeType == "server" then Some("rke2-server")
    else if product == "rke2" && nodeType == "agent" then Some("rke2-agent")
    else None
  }

  function ServiceName(act: ServiceAction): Option<string> {
    if Contains(act.service, "rke2") || Contains(act.service, "k3s") then ProductService(act.service, act.nodeType)
    else Some(act.service)
  }

  function SystemCtlCmd(service: string, action: Action): Option<Command> {
    if action.Rotate? || action.Unknown? then None else Some(SystemCtl(action, service))
  }

  /** The command of an action, if there is one: certificates are rotated on a node with an address only,
      and a product's service needs a known node type. */
  function CommandOf(act: ServiceAction, ip: string): Option<Command> {
    if act.action.Rotate? then if ip == "" then None else Some(CertRotate(act.service))
    else match ServiceName(act)
      case None => None
      case Some(name) => SystemCtlCmd(name, act.action)
  }

  /** The unit of a service: of a product by its name and the node's type, of any other its own name. */
  ghost predicate IsUnit(service: string, nodeType: string, unit: string) {
    || (!Has(service, "rke2") && !Has(service, "k3s") && unit == service)
    || (service == "k3s" && nodeType == "server" && unit == "k3s")
    || (service == "k3s" && nodeType == "agent" && unit == "k3s-agent")
    || (service == "rke2" && nodeType == "server" && unit == "rke2-server")
    || (service == "rke2" && nodeType == "agent" && unit == "rke2-agent")
  }

  ghost predicate IsCommand(act: ServiceAction, ip: string, cmd: Command) {
    match act.action
    case Unknown(_) => false
    case Rotate => ip != "" && cmd == CertRotate(act.service)
    case _ => cmd.SystemCtl? && cmd.action == act.action && IsUnit(act.service, act.nodeType, cmd.service)
  }

  lemma ProductNames()
    ensures Has("k3s", "k3s") && Has("rke2", "rke2")
  {
    assert IsAround("k3s", "", "k3s", "") && IsAround("rke2", "", "rke2", "");
  }

  /** The command of an action, and no other one. */
  lemma CommandMeaning(act: ServiceAction, ip: string, cmd: Command)
    ensures CommandOf(act, ip) == Some(cmd) <==> IsCommand(act, ip, cmd)
  {
    ContainsMeaning(act.service, "rke2");
    ContainsMeaning(act.service, "k3s");
    ProductNames();
  }

  /** How often the command of an action may be issued. */
  function Limit(action: Action, maxRetries: nat): nat {
    if action.Start? || action.Restart? || action.Rotate? then 1 else maxRetries
  }

  // ---- What a run leaves behind ----

  /** Failing tries, and a successful one at the end if the action succeeds. */
  function Tries(index: nat, cmd: Command, fails: nat, ok: bool): seq<Entry> {
    if fails > 0 then [Entry(index, cmd, false)] + Tries(index, cmd, fails - 1, ok)
    else if ok then [Entry(index, cmd, true)] else []
  }

  /** The first actions, as many as `fails` has entries, each run to success after so many failures. */
  function LogOf(actions: seq<ServiceAction>, ip: string, fails: seq<nat>): seq<Entry>
    requires |fails| <= |actions| && forall k :: 0 <= k < |fails| ==> CommandOf(actions[k], ip).Some?
  {
    if fails == [] then []
    else
      var k := |fails| - 1;
      LogOf(actions, ip, fails[..k]) + Tries(k, CommandOf(actions[k], ip).value, fails[k], true)
  }

  /** The first actions succeeded within their limits, and none of them ended the run. */
  ghost predicate RanThrough(log: seq<Entry>, actions: seq<ServiceAction>, ip: string, maxRetries: nat,
                             fails: seq<nat>)
  {
    && |fails| <= |actions|
    && (forall k :: 0 <= k < |fails| ==> SucceededWithin(actions[k], ip, maxRetries, fails[k]))
    && log == LogOf(actions, ip, fails)
  }

  ghost predicate SucceededWithin(act: ServiceAction, ip: string, maxRetries: nat, fails: nat) {
    CommandOf(act, ip).Some? && fails < Limit(act.action, maxRetries)
  }

  /** No status query among the first `n` actions. */
  ghost predicate NoStatus(actions: seq<ServiceAction>, n: nat)
    requires n <= |actions|
  {
    forall k :: 0 <= k < n ==> !actions[k].action.Status?
  }

  /** The action that comes next used up its tries, or has no command. */
  ghost predicate FailedAt(log: seq<Entry>, actions: seq<ServiceAction>, ip: string, maxRetries: nat, fails: seq<nat>) {
    && |fails| < |actions| && NoStatus(actions, |fails|)
    && (forall k :: 0 <= k < |fails| ==> SucceededWithin(actions[k], ip, maxRetries, fails[k]))
    && var act := actions[|fails|];
       match CommandOf(act, ip)
       case None => log == LogOf(actions, ip, fails)
       case Some(cmd) => log == LogOf(actions, ip, fails) + Tries(|fails|, cmd, Limit(act.action, maxRetries), false)
  }

  /** The run ended with its first status query, or with the last action. */
  ghost predicate EndedAt(log: seq<Entry>, actions: seq<ServiceAction>, ip: string, maxRetries: nat, fails: seq<nat>) {
    && RanThrough(log, actions, ip, maxRetries, fails) && fails != [] && NoStatus(actions, |fails| - 1)
    && (|fails| == |actions| || actions[|fails| - 1].action.Status?)
  }

  predicate AllValid(actions: seq<ServiceAction>) { forall k :: 0 <= k < |actions| ==> !actions[k].action.Unknown? }

  // ---- The runner ----

  class ManageService {
    const maxRetries: nat
    /** What the n-th command answers: its output, or nothing if it fails. */
    const answers: nat -> Option<string>
    var log: seq<Entry>

    constructor (maxRetries: nat, answers: nat -> Option<string>)
      ensures Valid() && this.maxRetries == maxRetries && this.answers == answers && log == []
    {
      this.maxRetries, this.answers := maxRetries, answers;
      log := [];
    }

    /** The log says of every command what it answered. */
    ghost predicate Valid()
      reads this
    {
      forall n :: 0 <= n < |log| ==> (log[n].ok <==> answers(n).Some?)
    }

    method RunCommand(index: nat, cmd: Command) returns (answer: Option<string>)
      requires Valid()
      modifies this
      ensures Valid()
      ensures answer == answers(|old(log)|) && log == old(log) + [Entry(index, cmd, answer.Some?)]
    {
      answer := answers(|log|);
      log := log + [Entry(index, cmd, answer.Some?)];
    }

    method ValidateActions(actions: seq<ServiceAction>) returns (ok: bool)
      ensures ok <==> actions != [] && AllValid(actions)
    {
      for k := 0 to |actions|
        invariant forall j :: 0 <= j < k ==> !actions[j].action.Unknown?
      {
        if actions[k].action.Unknown? {
          return false;
        }
      }
      return |actions| > 0;
    }

    /** `start` and `restart` are tried once, as is a rotation; any other command up to the limit. */
    method Execute(index: nat, cmd: Command, action: Action) returns (answer: Option<string>, ghost fails: nat)
      requires Valid()
      modifies this
      ensures Valid()
      ensures log == old(log) + Tries(index, cmd, fails, answer.Some?)
      ensures if answer.Some? then fails < Limit(action, maxRetries) else fails == Limit(action, maxRetries)
      ensures answer.None? && (action.Start? || action.Restart? || action.Rotate?) ==> fails == 1
      ensures answer.None? && (action.Stop? || action.Status? || action.Enable?) ==> fails == maxRetries
      ensures answer.Some? ==> log != [] && answer == answers(|log| - 1)
    {
      answer, fails := None, 0;
      var n, attempts := 0, if action.Start? || action.Restart? || action.Rotate? then 1 else maxRetries;
      while n < attempts
        invariant Valid() && n <= attempts && fails == n
        invariant log == old(log) + Tries(index, cmd, n, false)
      {
        TriesSnoc(index, cmd, n);
        answer := RunCommand(index, cmd);
        if answer.Some? {
          return;
        }
        n, fails := n + 1, fails + 1;
      }
      answer := None;
    }

    /** The action that comes next is run to success, or fails. */
    method RunAction(ip: string, actions: seq<ServiceAction>, k: nat, ghost fails: seq<nat>)
      returns (answer: Option<string>, ghost fails': seq<nat>)
      requires Valid() && k == |fails| < |actions| && NoStatus(actions, k)
      requires RanThrough(log, actions, ip, maxRetries, fails)
      modifies this
      ensures Valid()
      ensures answer.None? ==> fails' == fails && FailedAt(log, actions, ip, maxRetries, fails)
      ensures answer.Some? ==> |fails'| == k + 1 && RanThrough(log, actions, ip, maxRetries, fails')
      ensures answer.Some? ==> log != [] && answer == answers(|log| - 1)
    {
      var act := actions[k];
      var cmd := CommandOf(act, ip);
      if cmd.None? {
        FailsThere(log, actions, ip, maxRetries, fails, log);
        return None, fails;
      }
      ghost var f, before := 0, log;
      answer, f := Execute(k, cmd.value, act.action);
      if answer.None? {
        FailsThere(before, actions, ip, maxRetries, fails, log);
        return None, fails;
      }
      RanOneMore(before, actions, ip, maxRetries, fails, f);
      fails' := fails + [f];
    }

    /** The actions in order, up to the first that fails or the first status query. */
    method RunActions(ip: string, actions: seq<ServiceAction>) returns (outcome: Outcome, ghost fails: seq<nat>)
      requires Valid() && log == [] && actions != []
      modifies this
      ensures Valid() && outcome != Rejected
      ensures outcome == Failed ==> FailedAt(log, actions, ip, maxRetries, fails)
      ensures outcome.Done? ==> EndedAt(log, actions, ip, maxRetries, fails)
      ensures outcome.Done? ==>
                outcome.output
                == if actions[|fails| - 1].action.Status? then TrimSpace(answers(|log| - 1).GetOr("")) else ""
    {
      fails := [];
      for k := 0 to |actions|
        invariant Valid() && |fails| == k && NoStatus(actions, k)
        invariant RanThrough(log, actions, ip, maxRetries, fails)
      {
        var answer: Option<string>;
        answer, fails := RunAction(ip, actions, k, fails);
        if answer.None? {
          return Failed, fails;
        }
        if actions[k].action.Status? {
          return Done(TrimSpace(answer.value)), fails;
        }
      }
      return Done(""), fails;
    }

    /** An empty list, or one with an unknown action, runs nothing. Otherwise the actions are run in
        order, up to the first that fails or the first status query, whose output is returned. */
    method Manage(ip: string, actions: seq<ServiceAction>) returns (outcome: Outcome, ghost fails: seq<nat>)
      requires Valid() && log == []
      modifies this
      ensures Valid()
      ensures outcome == Rejected <==> actions == [] || !AllValid(actions)
      ensures outcome != Rejected ==>
                forall j: nat :: j < |actions| ==> IsIssuedWithin(log, actions, maxRetries, fails, j)
      ensures outcome == Rejected ==> log == []
      ensures outcome == Failed ==> IsUsedUp(log, actions, ip, maxRetries, |fails|)
      ensures outcome == Failed ==> FailedAt(log, actions, ip, maxRetries, fails)
      ensures outcome.Done? ==> EndedAt(log, actions, ip, maxRetries, fails)
      ensures outcome.Done? ==>
                outcome.output
                == if actions[|fails| - 1].action.Status? then TrimSpace(answers(|log| - 1).GetOr("")) else ""
    {
      var ok := ValidateActions(actions);
      if !ok {
        return Rejected, [];
      }
      outcome, fails := RunActions(ip, actions);
      forall j: nat | j < |actions| ensures IsIssuedWithin(log, actions, maxRetries, fails, j) {
        IssuedWithinLimits(log, actions, ip, maxRetries, fails, j);
      }
      if outcome == Failed { UsedUp(log, actions, ip, maxRetries, fails); }
    }
  }

  /** Action `j` was issued at most as often as its limit says, and a `start` or `restart` that succeeded
      exactly once. */
  predicate IsIssuedWithin(log: seq<Entry>, actions: seq<ServiceAction>, maxRetries: nat, fails: seq<nat>, j: nat)
    requires j < |actions|
  {
    var act := actions[j].action;
    && (act.Start? || act.Restart? || act.Rotate? ==> Issued(log, j) <= 1)
    && (act.Stop? || act.Status? || act.Enable? ==> Issued(log, j) <= maxRetries)
    && (j < |fails| ==> 1 <= Issued(log, j))
  }

  /** Action `j` has no command, or was issued as often as it may be. */
  ghost predicate IsUsedUp(log: seq<Entry>, actions: seq<ServiceAction>, ip: string, maxRetries: nat, j: nat) {
    && j < |actions|
    && var act := actions[j];
       if exists cmd :: IsCommand(act, ip, cmd)
       then Issued(log, j) == if act.action.Start? || act.action.Restart? || act.action.Rotate? then 1 else maxRetries
       else Issued(log, j) == 0
  }

  lemma UsedUp(log: seq<Entry>, actions: seq<ServiceAction>, ip: string, maxRetries: nat, fails: seq<nat>)
    requires FailedAt(log, actions, ip, maxRetries, fails)
    ensures IsUsedUp(log, actions, ip, maxRetries, |fails|)
  {
    var act := actions[|fails|];
    IssuedWhenFailing(log, actions, ip, maxRetries, fails, |fails|);
    forall cmd ensures CommandOf(act, ip) == Some(cmd) <==> IsCommand(act, ip, cmd) { CommandMeaning(act, ip, cmd); }
    match CommandOf(act, ip)
    case None => assert forall cmd :: IsCommand(act, ip, cmd) ==> CommandOf(act, ip) == Some(cmd);
    case Some(cmd) => assert IsCommand(act, ip, cmd);
  }

  /** The next action has no command, or used up its tries. */
  lemma FailsThere(before: seq<Entry>, actions: seq<ServiceAction>, ip: string, maxRetries: nat, fails: seq<nat>,
                   log: seq<Entry>)
    requires |fails| < |actions| && RanThrough(before, actions, ip, maxRetries, fails) && NoStatus(actions, |fails|)
    requires var act := actions[|fails|];
             match CommandOf(act, ip)
             case None => log == before
             case Some(cmd) => log == before + Tries(|fails|, cmd, Limit(act.action, maxRetries), false)
    ensures FailedAt(log, actions, ip, maxRetries, fails)
  {
  }

  lemma RanOneMore(log: seq<Entry>, actions: seq<ServiceAction>, ip: string, maxRetries: nat, fails: seq<nat>, f: nat)
    requires |fails| < |actions| && RanThrough(log, actions, ip, maxRetries, fails)
    requires SucceededWithin(actions[|fails|], ip, maxRetries, f)
    ensures RanThrough(log + Tries(|fails|, CommandOf(actions[|fails|], ip).value, f, true),
                       actions, ip, maxRetries, fails + [f])
  {
    assert (fails + [f])[..|fails|] == fails;
    forall k | 0 <= k < |fails + [f]| ensures SucceededWithin(actions[k], ip, maxRetries, (fails + [f])[k]) {
      if k < |fails| { assert SucceededWithin(actions[k], ip, maxRetries, fails[k]); }
    }
  }

  lemma {:induction false} TriesSnoc(index: nat, cmd: Command, n: nat)
    ensures Tries(index, cmd, n + 1, false) == Tries(index, cmd, n, false) + [Entry(index, cmd, false)]
    ensures Tries(index, cmd, n, true) == Tries(index, cmd, n, false) + [Entry(index, cmd, true)]
  {
    if n > 0 { TriesSnoc(index, cmd, n - 1); }
  }

  // ---- How often an action's command is issued ----

  function IssuedTo(log: seq<Entry>, index: nat, k: nat): nat
    requires k <= |log|
  {
    if k == 0 then 0 else IssuedTo(log, index, k - 1) + if log[k - 1].index == index then 1 else 0
  }

  /** How many commands were issued for the action of this index. */
  function Issued(log: seq<Entry>, index: nat): nat { IssuedTo(log, index, |log|) }

  lemma {:induction false} IssuedAppendTo(a: seq<Entry>, b: seq<Entry>, index: nat, k: nat)
    requires k <= |a| + |b|
    ensures IssuedTo(a + b, index, k)
         == if k <= |a| then IssuedTo(a, index, k) else IssuedTo(a, index, |a|) + IssuedTo(b, index, k - |a|)
  {
    if k > 0 { IssuedAppendTo(a, b, index, k - 1); }
  }

  lemma {:induction false} IssuedTries(index: nat, cmd: Command, fails: nat, ok: bool, j: nat)
    ensures Issued(Tries(index, cmd, fails, ok), j) == if j == index then fails + (if ok then 1 else 0) else 0
  {
    if fails > 0 {
      IssuedTries(index, cmd, fails - 1, ok, j);
      var one, rest := [Entry(index, cmd, false)], Tries(index, cmd, fails - 1, ok);
      IssuedAppendTo(one, rest, j, |one| + |rest|);
      assert IssuedTo(one, j, 0) == 0;
    } else if ok {
      assert IssuedTo([Entry(index, cmd, true)], j, 0) == 0;
    }
  }

  lemma {:induction false} IssuedLog(actions: seq<ServiceAction>, ip: string, fails: seq<nat>, j: nat)
    requires |fails| <= |actions| && forall k :: 0 <= k < |fails| ==> CommandOf(actions[k], ip).Some?
    ensures Issued(LogOf(actions, ip, fails), j) == if j < |fails| then fails[j] + 1 else 0
  {
    if fails != [] {
      var k := |fails| - 1;
      IssuedLog(actions, ip, fails[..k], j);
      var cmd := CommandOf(actions[k], ip).value;
      IssuedTries(k, cmd, fails[k], true, j);
      var a, b := LogOf(actions, ip, fails[..k]), Tries(k, cmd, fails[k], true);
      IssuedAppendTo(a, b, j, |a| + |b|);
    }
  }

  lemma IssuedIfRun(actions: seq<ServiceAction>, ip: string, maxRetries: nat, fails: seq<nat>, j: nat)
    requires |fails| <= |actions|
    requires forall k :: 0 <= k < |fails| ==> SucceededWithin(actions[k], ip, maxRetries, fails[k])
    ensures (forall k :: 0 <= k < |fails| ==> CommandOf(actions[k], ip).Some?)
    ensures Issued(LogOf(actions, ip, fails), j) == if j < |fails| then fails[j] + 1 else 0
    ensures j < |fails| ==> fails[j] + 1 <= Limit(actions[j].action, maxRetries)
  {
    forall k | 0 <= k < |fails| ensures CommandOf(actions[k], ip).Some? {
      assert SucceededWithin(actions[k], ip, maxRetries, fails[k]);
    }
    IssuedLog(actions, ip, fails, j);
    if j < |fails| { assert SucceededWithin(actions[j], ip, maxRetries, fails[j]); }
  }

  /** The action at which a run fails was issued as often as its limit says, or not at all if it has no
      command; the ones after it were not issued, and the ones before it as if it had not been there. */
  lemma IssuedWhenFailing(log: seq<Entry>, actions: seq<ServiceAction>, ip: string, maxRetries: nat, fails: seq<nat>,
                          j: nat)
    requires FailedAt(log, actions, ip, maxRetries, fails)
    ensures j < |fails| ==> Issued(log, j) == fails[j] + 1 <= Limit(actions[j].action, maxRetries)
    ensures |fails| <= j ==>
              Issued(log, j)
              == if j == |fails| && CommandOf(actions[j], ip).Some? then Limit(actions[j].action, maxRetries) else 0
  {
    IssuedIfRun(actions, ip, maxRetries, fails, j);
    match CommandOf(actions[|fails|], ip)
    case None =>
    case Some(cmd) =>
      var n := Limit(actions[|fails|].action, maxRetries);
      IssuedTries(|fails|, cmd, n, false, j);
      var a, b := LogOf(actions, ip, fails), Tries(|fails|, cmd, n, false);
      IssuedAppendTo(a, b, j, |a| + |b|);
  }

  /** In every run, whether it ends well or fails: of the actions that succeeded, every `start` and
      `restart` was issued exactly once, every other one at least once and at most as often as its limit;
      no action at all was issued more often than that, and none after the one at which the run ended. */
  lemma IssuedWithinLimits(log: seq<Entry>, actions: seq<ServiceAction>, ip: string, maxRetries: nat, fails: seq<nat>,
                           j: nat)
    requires RanThrough(log, actions, ip, maxRetries, fails) || FailedAt(log, actions, ip, maxRetries, fails)
    ensures j < |fails| ==> 1 <= Issued(log, j) == fails[j] + 1 <= Limit(actions[j].action, maxRetries)
    ensures j < |fails| && (actions[j].action.Start? || actions[j].action.Restart?) ==> Issued(log, j) == 1
    ensures j < |actions| ==> Issued(log, j) <= Limit(actions[j].action, maxRetries)
    ensures |fails| < j ==> Issued(log, j) == 0
  {
    if FailedAt(log, actions, ip, maxRetries, fails) {
      IssuedWhenFailing(log, actions, ip, maxRetries, fails, j);
    } else {
      IssuedIfRun(actions, ip, maxRetries, fails, j);
    }
  }
}
