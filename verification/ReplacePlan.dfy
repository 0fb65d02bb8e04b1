/** Replacing the nodes of a cluster one by one: the joins and deletions in the order in which the
    upgrade performs them, stopping at the first that fails. */
module ReplacePlan {
  import FanOut

  datatype Kind = Master | Agent

  datatype Op =
    | Join(kind: Kind, externalIp: string, privateIp: string)
    | Delete(ip: string)
    | Repoint(ip: string)
    | Validate(ip: string)

  /** The addresses of created nodes, as two parallel lists. */
  datatype Nodes = Nodes(externalIps: seq<string>, privateIps: seq<string>)

  predicate SameLength(nodes: Nodes, n: nat) { |nodes.externalIps| == |nodes.privateIps| == n }

  // ---- The plan, as a function of the addresses ----

  function JoinOf(kind: Kind, nodes: Nodes, i: nat): Op
    requires i < |nodes.externalIps| && i < |nodes.privateIps|
  {
    Join(kind, nodes.externalIps[i], nodes.privateIps[i])
  }

  /** The first new server joins, and the last but one of the old servers is deleted. */
  function FirstPlan(servers: seq<string>, created: Nodes): seq<Op>
    requires 2 <= |servers| && SameLength(created, |servers|)
  {
    var ip := created.externalIps[0];
    [JoinOf(Master, created, 0), Delete(servers[|servers| - 2]), Repoint(ip), Validate(ip)]
  }

  /** Server `i` joins. Before all but the last join, the last of the old servers is deleted. */
  function OneJoin(servers: seq<string>, created: Nodes, i: nat): seq<Op>
    requires 2 <= |servers| && SameLength(created, |servers|) && i < |servers|
  {
    (if i < |servers| - 1 then [Delete(servers[|servers| - 1])] else [])
    + [JoinOf(Master, created, i), Validate(created.externalIps[i])]
  }

  /** The joins of the servers 1 to `k - 1`. */
  function RestPlan(servers: seq<string>, created: Nodes, k: nat): seq<Op>
    requires 2 <= |servers| && SameLength(created, |servers|) && 1 <= k <= |servers|
  {
    if k == 1 then [] else RestPlan(servers, created, k - 1) + OneJoin(servers, created, k - 1)
  }

  function ServerPlan(servers: seq<string>, created: Nodes): seq<Op>
    requires 2 <= |servers| && SameLength(created, |servers|)
  {
    FirstPlan(servers, created) + RestPlan(servers, created, |servers|)
  }

  function Deletions(ips: seq<string>, k: nat): seq<Op>
    requires k <= |ips|
  {
    if k == 0 then [] else Deletions(ips, k - 1) + [Delete(ips[k - 1])]
  }

  function Joins(nodes: Nodes, k: nat): seq<Op>
    requires k <= |nodes.externalIps| && k <= |nodes.privateIps|
  {
    if k == 0 then [] else Joins(nodes, k - 1) + [JoinOf(Agent, nodes, k - 1)]
  }

  function AgentPlan(agents: seq<string>, createdAgents: Nodes): seq<Op>
    requires SameLength(createdAgents, |agents|)
  {
    Deletions(agents, |agents|) + Joins(createdAgents, |agents|)
  }

  /** The whole upgrade: the servers, the agents, and the leader last. */
  function Plan(servers: seq<string>, created: Nodes, agents: seq<string>, createdAgents: Nodes): seq<Op>
    requires 2 <= |servers| && SameLength(created, |servers|) && SameLength(createdAgents, |agents|)
  {
    ServerPlan(servers, created) + AgentPlan(agents, createdAgents) + [Delete(servers[0])]
  }

  // ---- The upgrade as it is performed ----

  datatype Outcome = Completed | Stopped | Panicked

  predicate SucceededAt(fails: (nat, Op) -> bool, ops: seq<Op>, n: nat)
    requires n < |ops|
  {
    !fails(n, ops[n])
  }

  /** `fails(n, op)` says whether operation `op`, performed as the n-th one, reports an error. */
  class Upgrade {
    const fails: (nat, Op) -> bool
    /** The operations that succeeded, in order. */
    var performed: seq<Op>

    constructor (fails: (nat, Op) -> bool)
      ensures this.fails == fails && performed == []
    {
      this.fails := fails;
      performed := [];
    }

    /** The plan was followed to its end, or up to an operation that failed. */
    ghost predicate Followed(plan: seq<Op>, ok: bool)
      reads this
    {
      AllSucceeded() && if ok then performed == plan else performed < plan && fails(|performed|, plan[|performed|])
    }

    ghost predicate AllSucceeded()
      reads this
    {
      forall n :: 0 <= n < |performed| ==> SucceededAt(fails, performed, n)
    }

    method Perform(op: Op, ghost plan: seq<Op>) returns (ok: bool)
      requires AllSucceeded() && performed + [op] <= plan
      modifies this
      ensures ok <==> !fails(|old(performed)|, op)
      ensures performed == if ok then old(performed) + [op] else old(performed)
      ensures AllSucceeded()
      ensures !ok ==> Followed(plan, false)
    {
      ok := !fails(|performed|, op);
      if ok {
        ghost var before := performed;
        performed := performed + [op];
        forall n | 0 <= n < |performed| ensures SucceededAt(fails, performed, n) {
          if n < |before| { assert SucceededAt(fails, before, n); }
        }
      }
    }

    method PerformAll(ops: seq<Op>, ghost plan: seq<Op>) returns (ok: bool)
      requires performed + ops <= plan
      requires AllSucceeded()
      modifies this
      ensures ok ==> AllSucceeded() && performed == old(performed) + ops
      ensures !ok ==> Followed(plan, false)
    {
      ok := true;
      for n := 0 to |ops|
        invariant AllSucceeded() && performed == old(performed) + ops[..n]
      {
        assert ops[..n + 1] == ops[..n] + [ops[n]];
        assert performed + [ops[n]] <= old(performed) + ops;
        ok := Perform(ops[n], plan);
        if !ok {
          return;
        }
      }
      assert ops[..|ops|] == ops;
      ok := true;
    }

    method JoinOne(servers: seq<string>, created: Nodes, i: nat, ghost plan: seq<Op>) returns (ok: bool)
      requires 2 <= |servers| && SameLength(created, |servers|) && i < |servers|
      requires performed + OneJoin(servers, created, i) <= plan
      requires AllSucceeded()
      modifies this
      ensures ok ==> AllSucceeded() && performed == old(performed) + OneJoin(servers, created, i)
      ensures !ok ==> Followed(plan, false)
    {
      if i < |servers| - 1 {
        ok := Perform(Delete(servers[|servers| - 1]), plan);
        if !ok {
          return;
        }
      }
      ok := Perform(JoinOf(Master, created, i), plan);
      if !ok {
        return;
      }
      ok := Perform(Validate(created.externalIps[i]), plan);
    }

    method JoinRemainServers(servers: seq<string>, created: Nodes, ghost plan: seq<Op>) returns (ok: bool)
      requires 2 <= |servers| && SameLength(created, |servers|)
      requires performed + RestPlan(servers, created, |servers|) <= plan
      requires AllSucceeded()
      modifies this
      ensures ok ==> AllSucceeded() && performed == old(performed) + RestPlan(servers, created, |servers|)
      ensures !ok ==> Followed(plan, false)
    {
      for i := 1 to |servers|
        invariant AllSucceeded() && performed == old(performed) + RestPlan(servers, created, i)
      {
        RestGrows(servers, created, i + 1, |servers|);
        assert performed + OneJoin(servers, created, i) == old(performed) + RestPlan(servers, created, i + 1);
        ok := JoinOne(servers, created, i, plan);
        if !ok {
          return;
        }
      }
      ok := true;
    }

    method DeleteAgents(agents: seq<string>, ghost plan: seq<Op>) returns (ok: bool)
      requires performed + Deletions(agents, |agents|) <= plan
      requires AllSucceeded()
      modifies this
      ensures ok ==> AllSucceeded() && performed == old(performed) + Deletions(agents, |agents|)
      ensures !ok ==> Followed(plan, false)
    {
      ghost var before, all := performed, Deletions(agents, |agents|);
      assert before + [] == before;
      for n := 0 to |agents|
        invariant AllSucceeded() && performed == before + Deletions(agents, n)
      {
        ghost var deleted := Deletions(agents, n);
        DeletionsGrow(agents, n + 1, |agents|);
        NextOp(before, deleted, Delete(agents[n]), all, plan);
        ok := Perform(Delete(agents[n]), plan);
        if !ok {
          return;
        }
      }
      ok := true;
    }

    method JoinAgents(created: Nodes, ghost plan: seq<Op>) returns (ok: bool)
      requires SameLength(created, |created.externalIps|)
      requires performed + Joins(created, |created.externalIps|) <= plan
      requires AllSucceeded()
      modifies this
      ensures ok ==> AllSucceeded() && performed == old(performed) + Joins(created, |created.externalIps|)
      ensures !ok ==> Followed(plan, false)
    {
      ghost var before := performed;
      assert before + [] == before;
      for n := 0 to |created.externalIps|
        invariant AllSucceeded() && performed == before + Joins(created, n)
      {
        NextJoin(before, created, n, plan);
        ok := Perform(JoinOf(Agent, created, n), plan);
        if !ok {
          return;
        }
      }
      ok := true;
    }

    method ReplaceAgents(agents: seq<string>, created: Nodes, ghost plan: seq<Op>) returns (ok: bool)
      requires SameLength(created, |agents|) && performed + AgentPlan(agents, created) <= plan
      requires AllSucceeded()
      modifies this
      ensures ok ==> AllSucceeded() && performed == old(performed) + AgentPlan(agents, created)
      ensures !ok ==> Followed(plan, false)
    {
      var deletions, joins := Deletions(agents, |agents|), Joins(created, |agents|);
      assert performed + (deletions + joins) == performed + deletions + joins;
      ok := DeleteAgents(agents, plan);
      if ok {
        ok := JoinAgents(created, plan);
      }
    }

    /** The upgrade of two servers or more follows the plan, and stops at the first operation that fails. */
    method ReplaceNodes(servers: seq<string>, created: Nodes, agents: seq<string>, createdAgents: Nodes)
      returns (ok: bool)
      requires 2 <= |servers| && SameLength(created, |servers|) && SameLength(createdAgents, |agents|)
      requires performed == []
      modifies this
      ensures Followed(Plan(servers, created, agents, createdAgents), ok)
    {
      ghost var plan := Plan(servers, created, agents, createdAgents);
      ghost var first, rest := FirstPlan(servers, created), RestPlan(servers, created, |servers|);
      ghost var tail := AgentPlan(agents, createdAgents);
      assert plan == first + (rest + (tail + [Delete(servers[0])]));
      assert [] + first == first;
      ok := PerformAll(FirstPlan(servers, created), plan);
      if !ok {
        return;
      }
      ok := JoinRemainServers(servers, created, plan);
      if !ok {
        return;
      }
      assert performed + tail <= plan;
      if |agents| > 0 {
        ok := ReplaceAgents(agents, createdAgents, plan);
        if !ok {
          return;
        }
      }
      assert performed + [Delete(servers[0])] == plan;
      ok := Perform(Delete(servers[0]), plan);
    }

    /** The upgrade follows the plan, and stops at the first operation that fails. Without servers the
        creation of the new ones is refused before anything is done; with a single one the upgrade fails
        on the index of the last but one as soon as the new server has joined. */
    method TestUpgradeReplaceNode(servers: seq<string>, created: Nodes, agents: seq<string>, createdAgents: Nodes)
      returns (outcome: Outcome)
      requires SameLength(created, |servers|) && SameLength(createdAgents, |agents|)
      requires performed == []
      modifies this
      ensures 2 <= |servers| ==>
                outcome != Panicked && Followed(Plan(servers, created, agents, createdAgents), outcome == Completed)
      ensures |servers| == 1 ==> outcome != Completed && Followed([JoinOf(Master, created, 0)], outcome == Panicked)
      ensures |servers| == 0 ==> outcome == Stopped && performed == []
      ensures outcome == Completed && FailsTheSecondTime(fails, Plan(servers, created, agents, createdAgents)) ==>
                |servers| == 3
    {
      if |servers| == 0 {
        return Stopped;
      }
      if |servers| == 1 {
        var joined := Perform(JoinOf(Master, created, 0), [JoinOf(Master, created, 0)]);
        return if joined then Panicked else Stopped;
      }
      var ok := ReplaceNodes(servers, created, agents, createdAgents);
      if ok && |servers| != 3 {
        ghost var j, k := DeletesTwice(servers, created, agents, createdAgents);
        assert SucceededAt(fails, performed, k);
      }
      return if ok then Completed else Stopped;
    }
  }

  /** The next operation of a part of the plan is the next one of the plan. */
  lemma NextOp(before: seq<Op>, done: seq<Op>, op: Op, part: seq<Op>, plan: seq<Op>)
    requires before + part <= plan && done + [op] <= part
    ensures before + done + [op] <= plan && before + done + [op] == before + (done + [op])
  {
    assert before + (done + [op]) <= before + part;
  }

  lemma NextJoin(before: seq<Op>, created: Nodes, n: nat, plan: seq<Op>)
    requires n < |created.externalIps| == |created.privateIps|
    requires before + Joins(created, |created.externalIps|) <= plan
    ensures before + Joins(created, n) + [JoinOf(Agent, created, n)] <= plan
    ensures before + Joins(created, n) + [JoinOf(Agent, created, n)] == before + Joins(created, n + 1)
  {
    JoinsGrow(created, n + 1, |created.externalIps|);
    NextOp(before, Joins(created, n), JoinOf(Agent, created, n), Joins(created, |created.externalIps|), plan);
  }

  lemma {:induction false} RestGrows(servers: seq<string>, created: Nodes, k: nat, n: nat)
    requires 2 <= |servers| && SameLength(created, |servers|) && 1 <= k <= n <= |servers|
    ensures RestPlan(servers, created, k) <= RestPlan(servers, created, n)
  {
    if k < n { RestGrows(servers, created, k, n - 1); }
  }

  lemma {:induction false} DeletionsGrow(ips: seq<string>, k: nat, n: nat)
    requires k <= n <= |ips|
    ensures Deletions(ips, k) <= Deletions(ips, n)
  {
    if k < n { DeletionsGrow(ips, k, n - 1); }
  }

  lemma {:induction false} JoinsGrow(nodes: Nodes, k: nat, n: nat)
    requires k <= n <= |nodes.externalIps| && n <= |nodes.privateIps|
    ensures Joins(nodes, k) <= Joins(nodes, n)
  {
    if k < n { JoinsGrow(nodes, k, n - 1); }
  }

  // ---- The plan, operation by operation ----

  lemma {:induction false} RestLength(servers: seq<string>, created: Nodes, k: nat)
    requires 2 <= |servers| && SameLength(created, |servers|) && 1 <= k <= |servers|
    ensures |RestPlan(servers, created, k)| == if k < |servers| then 3 * (k - 1) else 3 * (k - 2) + 2
  {
    if k > 1 { RestLength(servers, created, k - 1); }
  }

  lemma {:induction false} RestAt(servers: seq<string>, created: Nodes, k: nat, i: nat)
    requires 2 <= |servers| && SameLength(created, |servers|) && 1 <= i < k <= |servers|
    ensures var rest, one := RestPlan(servers, created, k), OneJoin(servers, created, i);
            3 * (i - 1) + |one| <= |rest| && rest[3 * (i - 1)..3 * (i - 1) + |one|] == one
  {
    RestLength(servers, created, k - 1);
    if i < k - 1 { RestAt(servers, created, k - 1, i); }
  }

  /** These operations are those from `b` on. */
  ghost predicate ComeAt(ops: seq<Op>, plan: seq<Op>, b: nat) {
    b + |ops| <= |plan| && forall j :: 0 <= j < |ops| ==> plan[b + j] == ops[j]
  }

  lemma ComeInFirst(ops: seq<Op>, x: seq<Op>, y: seq<Op>, b: nat)
    requires ComeAt(ops, x, b)
    ensures ComeAt(ops, x + y, b)
  {
  }

  lemma ComeInSecond(ops: seq<Op>, x: seq<Op>, y: seq<Op>, b: nat)
    requires ComeAt(ops, y, b)
    ensures ComeAt(ops, x + y, |x| + b)
  {
    forall j | 0 <= j < |ops| ensures (x + y)[|x| + b + j] == ops[j] { assert y[b + j] == ops[j]; }
  }

  lemma PartOfPart(ops: seq<Op>, part: seq<Op>, plan: seq<Op>, m: nat, b: nat)
    requires ComeAt(part, plan, b) && m + |ops| <= |part| && part[m..m + |ops|] == ops
    ensures ComeAt(ops, plan, b + m)
  {
    forall j | 0 <= j < |ops| ensures plan[b + m + j] == ops[j] {
      assert ops[j] == part[m..m + |ops|][j] == part[m + j];
      assert plan[b + (m + j)] == part[m + j];
    }
  }

  lemma PartsCome(a: seq<Op>, b: seq<Op>, c: seq<Op>, d: seq<Op>, e: seq<Op>)
    ensures var plan := a + b + (c + d) + e;
            && ComeAt(a, plan, 0) && ComeAt(b, plan, |a|) && ComeAt(c, plan, |a| + |b|)
            && ComeAt(d, plan, |a| + |b| + |c|) && ComeAt(e, plan, |a| + |b| + |c| + |d|)
            && |plan| == |a| + |b| + |c| + |d| + |e|
  {
    ComeInFirst(a, a, b, 0);
    ComeInFirst(a, a + b, c + d, 0);
    ComeInFirst(a, a + b + (c + d), e, 0);
    ComeInSecond(b, a, b, 0);
    ComeInFirst(b, a + b, c + d, |a|);
    ComeInFirst(b, a + b + (c + d), e, |a|);
    ComeInFirst(c, c, d, 0);
    ComeInSecond(c, a + b, c + d, 0);
    ComeInFirst(c, a + b + (c + d), e, |a + b|);
    ComeInSecond(d, c, d, 0);
    ComeInSecond(d, a + b, c + d, |c|);
    ComeInFirst(d, a + b + (c + d), e, |a + b| + |c|);
    ComeInSecond(e, a + b + (c + d), e, 0);
  }

  /** Where the parts of the plan are. */
  lemma PlanParts(servers: seq<string>, created: Nodes, agents: seq<string>, createdAgents: Nodes)
    requires 2 <= |servers| && SameLength(created, |servers|) && SameLength(createdAgents, |agents|)
    ensures var n, m, plan := |servers|, |agents|, Plan(servers, created, agents, createdAgents);
            && |plan| == 3 * n + 2 * m + 1
            && ComeAt(FirstPlan(servers, created), plan, 0)
            && ComeAt(RestPlan(servers, created, n), plan, 4)
            && ComeAt(Deletions(agents, m), plan, 3 * n)
            && ComeAt(Joins(createdAgents, m), plan, 3 * n + m)
            && ComeAt([Delete(servers[0])], plan, 3 * n + 2 * m)
  {
    var n, m := |servers|, |agents|;
    RestLength(servers, created, n);
    AgentLengths(agents, createdAgents, m);
    PartsCome(FirstPlan(servers, created), RestPlan(servers, created, n), Deletions(agents, m),
              Joins(createdAgents, m), [Delete(servers[0])]);
  }

  lemma {:induction false} AgentLengths(agents: seq<string>, nodes: Nodes, k: nat)
    requires SameLength(nodes, |agents|) && k <= |agents|
    ensures |Deletions(agents, k)| == k && |Joins(nodes, k)| == k
  {
    if k > 0 { AgentLengths(agents, nodes, k - 1); }
  }

  /** The first new server joins, and the last but one of the old servers is deleted. */
  lemma FirstAt(servers: seq<string>, created: Nodes, agents: seq<string>, createdAgents: Nodes)
    requires 2 <= |servers| && SameLength(created, |servers|) && SameLength(createdAgents, |agents|)
    ensures var ext, priv := created.externalIps, created.privateIps;
            ComeAt([Join(Master, ext[0], priv[0]), Delete(servers[|servers| - 2]), Repoint(ext[0]), Validate(ext[0])],
                   Plan(servers, created, agents, createdAgents), 0)
  {
    PlanParts(servers, created, agents, createdAgents);
  }

  /** Server `i` joins. Before all but the last join, the last of the old servers is deleted. */
  ghost predicate IsJoining(ops: seq<Op>, servers: seq<string>, created: Nodes, i: nat)
    requires 2 <= |servers| && SameLength(created, |servers|) && i < |servers|
  {
    var n, ip := |servers|, created.externalIps[i];
    && (i < n - 1 ==> ops == [Delete(servers[n - 1]), Join(Master, ip, created.privateIps[i]), Validate(ip)])
    && (i == n - 1 ==> ops == [Join(Master, ip, created.privateIps[i]), Validate(ip)])
  }

  lemma OneJoinIs(servers: seq<string>, created: Nodes, i: nat)
    requires 2 <= |servers| && SameLength(created, |servers|) && i < |servers|
    ensures IsJoining(OneJoin(servers, created, i), servers, created, i)
  {
  }

  lemma RestInPlan(servers: seq<string>, created: Nodes, i: nat, plan: seq<Op>)
    requires 2 <= |servers| && SameLength(created, |servers|) && 1 <= i < |servers|
    requires ComeAt(RestPlan(servers, created, |servers|), plan, 4)
    ensures ComeAt(OneJoin(servers, created, i), plan, 3 * i + 1)
  {
    var rest, one := RestPlan(servers, created, |servers|), OneJoin(servers, created, i);
    RestAt(servers, created, |servers|, i);
    PartOfPart(one, rest, plan, 3 * (i - 1), 4);
    assert 4 + 3 * (i - 1) == 3 * i + 1;
  }

  /** So do the others, for any number of servers: each at its place in the order of creation, and validated
      right after. */
  lemma ServerAt(servers: seq<string>, created: Nodes, agents: seq<string>, createdAgents: Nodes, i: nat)
    returns (ops: seq<Op>)
    requires 2 <= |servers| && SameLength(created, |servers|) && SameLength(createdAgents, |agents|)
    requires 1 <= i < |servers|
    ensures IsJoining(ops, servers, created, i)
    ensures ComeAt(ops, Plan(servers, created, agents, createdAgents), 3 * i + 1)
  {
    ops := OneJoin(servers, created, i);
    OneJoinIs(servers, created, i);
    PlanParts(servers, created, agents, createdAgents);
    RestInPlan(servers, created, i, Plan(servers, created, agents, createdAgents));
  }

  /** All old agents are deleted, then all new ones join, and the old leader is deleted last. */
  lemma AgentsAt(servers: seq<string>, created: Nodes, agents: seq<string>, createdAgents: Nodes, i: nat)
    requires 2 <= |servers| && SameLength(created, |servers|) && SameLength(createdAgents, |agents|)
    ensures var n, m, plan := |servers|, |agents|, Plan(servers, created, agents, createdAgents);
            && |plan| == 3 * n + 2 * m + 1
            && (i < m ==> plan[3 * n + i] == Delete(agents[i]))
            && (i < m ==> plan[3 * n + m + i]
                          == Join(Agent, createdAgents.externalIps[i], createdAgents.privateIps[i]))
            && plan[3 * n + 2 * m] == Delete(servers[0])
  {
    var n, m, plan := |servers|, |agents|, Plan(servers, created, agents, createdAgents);
    PlanParts(servers, created, agents, createdAgents);
    assert plan[3 * n + 2 * m + 0] == Delete(servers[0]);
    if i < m {
      AgentPartsAt(agents, createdAgents, m, i);
      assert plan[3 * n + i] == Deletions(agents, m)[i];
      assert plan[3 * n + m + i] == Joins(createdAgents, m)[i];
    }
  }

  lemma {:induction false} AgentPartsAt(agents: seq<string>, nodes: Nodes, k: nat, i: nat)
    requires SameLength(nodes, |agents|) && i < k <= |agents|
    ensures |Deletions(agents, k)| == |Joins(nodes, k)| == k
    ensures Deletions(agents, k)[i] == Delete(agents[i]) && Joins(nodes, k)[i] == JoinOf(Agent, nodes, i)
  {
    AgentLengths(agents, nodes, k - 1);
    if i < k - 1 { AgentPartsAt(agents, nodes, k - 1, i); }
  }

  // ---- Which old servers are deleted ----

  /** How often the first `k` operations delete `ip`. */
  function TimesDeleted(ops: seq<Op>, ip: string, k: nat): nat
    requires k <= |ops|
  {
    if k == 0 then 0 else TimesDeleted(ops, ip, k - 1) + if ops[k - 1] == Delete(ip) then 1 else 0
  }

  function Count(ops: seq<Op>, ip: string): nat { TimesDeleted(ops, ip, |ops|) }

  lemma {:induction false} TimesLocal(ops: seq<Op>, more: seq<Op>, ip: string, k: nat)
    requires k <= |ops|
    ensures TimesDeleted(ops + more, ip, k) == TimesDeleted(ops, ip, k)
  {
    if k > 0 { TimesLocal(ops, more, ip, k - 1); }
  }

  lemma {:induction false} CountAppend(a: seq<Op>, b: seq<Op>, ip: string)
    ensures Count(a + b, ip) == Count(a, ip) + Count(b, ip)
  {
    if b == [] {
      assert a + b == a;
    } else {
      var front, last := b[..|b| - 1], b[|b| - 1];
      CountAppend(a, front, ip);
      assert front + [last] == b && (a + front) + [last] == a + b;
      TimesLocal(front, [last], ip, |front|);
      TimesLocal(a + front, [last], ip, |a + front|);
    }
  }

  lemma {:induction false} NoDeletion(ops: seq<Op>, ip: string, k: nat)
    requires k <= |ops| && forall j :: 0 <= j < k ==> ops[j] != Delete(ip)
    ensures TimesDeleted(ops, ip, k) == 0
  {
    if k > 0 { NoDeletion(ops, ip, k - 1); }
  }

  ghost predicate Apart(ips: seq<string>, ip: string) { forall k :: 0 <= k < |ips| ==> ips[k] != ip }

  lemma {:induction false} AgentsApart(agents: seq<string>, nodes: Nodes, ip: string, k: nat)
    requires k <= |agents| && SameLength(nodes, |agents|) && Apart(agents, ip)
    ensures Count(Deletions(agents, k), ip) == 0 && Count(Joins(nodes, k), ip) == 0
  {
    if k > 0 {
      AgentsApart(agents, nodes, ip, k - 1);
      CountAppend(Deletions(agents, k - 1), [Delete(agents[k - 1])], ip);
      CountAppend(Joins(nodes, k - 1), [JoinOf(Agent, nodes, k - 1)], ip);
      NoDeletion([Delete(agents[k - 1])], ip, 1);
      NoDeletion([JoinOf(Agent, nodes, k - 1)], ip, 1);
    }
  }

  lemma {:induction false} RestDeletes(servers: seq<string>, created: Nodes, ip: string, k: nat)
    requires 2 <= |servers| && SameLength(created, |servers|) && 1 <= k <= |servers|
    ensures Count(RestPlan(servers, created, k), ip)
         == if ip == servers[|servers| - 1] then (if k < |servers| then k - 1 else k - 2) else 0
  {
    if k > 1 {
      RestDeletes(servers, created, ip, k - 1);
      CountAppend(RestPlan(servers, created, k - 1), OneJoin(servers, created, k - 1), ip);
      var last := [JoinOf(Master, created, k - 1), Validate(created.externalIps[k - 1])];
      NoDeletion(last, ip, 2);
      if k - 1 < |servers| - 1 {
        var d := [Delete(servers[|servers| - 1])];
        CountAppend(d, last, ip);
        assert TimesDeleted(d, ip, 0) == 0;
      } else {
        assert OneJoin(servers, created, k - 1) == last;
      }
    }
  }

  /** How often the plan deletes an address that is no agent's. */
  lemma PlanDeletes(servers: seq<string>, created: Nodes, agents: seq<string>, createdAgents: Nodes, ip: string)
    requires 2 <= |servers| && SameLength(created, |servers|) && SameLength(createdAgents, |agents|)
    requires Apart(agents, ip)
    ensures var n := |servers|;
            Count(Plan(servers, created, agents, createdAgents), ip)
            == (if ip == servers[n - 2] then 1 else 0) + (if ip == servers[n - 1] then n - 2 else 0)
             + (if ip == servers[0] then 1 else 0)
  {
    var first, rest := FirstPlan(servers, created), RestPlan(servers, created, |servers|);
    var tail, last := AgentPlan(agents, createdAgents), [Delete(servers[0])];
    CountAppend(first + rest + tail, last, ip);
    CountAppend(first + rest, tail, ip);
    CountAppend(first, rest, ip);
    CountAppend(Deletions(agents, |agents|), Joins(createdAgents, |agents|), ip);
    AgentsApart(agents, createdAgents, ip, |agents|);
    RestDeletes(servers, created, ip, |servers|);
    assert TimesDeleted(last, ip, 0) == 0;
    FirstDeletes(servers, created, ip);
  }

  lemma FirstDeletes(servers: seq<string>, created: Nodes, ip: string)
    requires 2 <= |servers| && SameLength(created, |servers|)
    ensures Count(FirstPlan(servers, created), ip) == if ip == servers[|servers| - 2] then 1 else 0
  {
    var f := FirstPlan(servers, created);
    assert TimesDeleted(f, ip, 1) == 0;
    assert TimesDeleted(f, ip, 2) == if ip == servers[|servers| - 2] then 1 else 0;
    assert TimesDeleted(f, ip, 3) == TimesDeleted(f, ip, 2);
  }

  ghost predicate AllApart(ips: seq<string>) {
    forall i, j :: 0 <= i < j < |ips| ==> ips[i] != ips[j]
  }

  ghost predicate NoAgent(servers: seq<string>, agents: seq<string>) {
    forall k :: 0 <= k < |servers| ==> Apart(agents, servers[k])
  }

  /** The plan deletes each old server exactly once precisely when there are three of them: with two the
      second is kept and the leader deleted twice, with more the second is kept and the last deleted
      over and over. */
  lemma DeletesEachOnceIffThree(servers: seq<string>, created: Nodes, agents: seq<string>, createdAgents: Nodes)
    requires 2 <= |servers| && SameLength(created, |servers|) && SameLength(createdAgents, |agents|)
    requires AllApart(servers) && NoAgent(servers, agents)
    ensures (forall k :: 0 <= k < |servers| ==> Count(Plan(servers, created, agents, createdAgents), servers[k]) == 1)
       <==> |servers| == 3
  {
    forall k | 0 <= k < |servers|
      ensures Count(Plan(servers, created, agents, createdAgents), servers[k])
           == (if k == |servers| - 2 then 1 else 0) + (if k == |servers| - 1 then |servers| - 2 else 0)
            + (if k == 0 then 1 else 0)
    {
      assert Apart(agents, servers[k]);
      PlanDeletes(servers, created, agents, createdAgents, servers[k]);
    }
    assert |servers| != 3 ==> Count(Plan(servers, created, agents, createdAgents), servers[1]) == 0;
  }

  /** An instance cannot be deleted twice: the second time there is no running instance of that address. */
  ghost predicate FailsTheSecondTime(fails: (nat, Op) -> bool, plan: seq<Op>) {
    forall j: nat, k: nat :: j < k < |plan| && plan[j].Delete? && plan[j] == plan[k] ==> fails(k, plan[k])
  }

  /** Unless there are three servers the plan deletes one of them a second time. */
  lemma DeletesTwice(servers: seq<string>, created: Nodes, agents: seq<string>, createdAgents: Nodes)
    returns (j: nat, k: nat)
    requires 2 <= |servers| && |servers| != 3 && SameLength(created, |servers|) && SameLength(createdAgents, |agents|)
    ensures var plan := Plan(servers, created, agents, createdAgents);
            j < k < |plan| && plan[j].Delete? && plan[j] == plan[k]
  {
    var plan := Plan(servers, created, agents, createdAgents);
    if |servers| == 2 {
      j, k := 1, |plan| - 1;
    } else {
      var two := RestPlan(servers, created, 3);
      assert RestPlan(servers, created, 2) == OneJoin(servers, created, 1);
      assert two == OneJoin(servers, created, 1) + OneJoin(servers, created, 2);
      assert two[0] == two[3] == Delete(servers[|servers| - 1]);
      RestGrows(servers, created, 3, |servers|);
      j, k := 4, 7;
    }
  }

  // ---- The servers that are members, operation by operation ----

  /** The control-plane members after the first `k` operations. */
  function Members(start: set<string>, ops: seq<Op>, k: nat): set<string>
    requires k <= |ops|
  {
    if k == 0 then start
    else
      var before := Members(start, ops, k - 1);
      match ops[k - 1]
      case Join(kind, ip, _) => if kind == Master then before + {ip} else before
      case Delete(ip) => before - {ip}
      case _ => before
  }

  /** The operation changes whether this address is a member. */
  predicate Moves(op: Op, ip: string) { op == Delete(ip) || (op.Join? && op.kind == Master && op.externalIp == ip) }

  /** A member is who joined as a server after it was last deleted, or was there at the start and never
      deleted. `i` is the last operation that changes it, or -1. */
  lemma {:induction false} MembersMeaning(start: set<string>, ops: seq<Op>, ip: string, i: int, k: nat)
    requires -1 <= i < k <= |ops| && (0 <= i ==> Moves(ops[i], ip)) && forall j :: i < j < k ==> !Moves(ops[j], ip)
    ensures ip in Members(start, ops, k) <==> if i < 0 then ip in start else ops[i].Join?
  {
    if i < k - 1 {
      if k == 1 { assert Members(start, ops, 0) == start; } else { MembersMeaning(start, ops, ip, i, k - 1); }
    }
  }

  /** A member stays one until it is deleted. */
  lemma {:induction false} MemberStays(start: set<string>, ops: seq<Op>, ip: string, j: nat, k: nat)
    requires j <= k <= |ops| && ip in Members(start, ops, j) && forall i :: j <= i < k ==> ops[i] != Delete(ip)
    ensures ip in Members(start, ops, k)
  {
    if j < k { MemberStays(start, ops, ip, j, k - 1); }
  }

  /** The server part of the plan for three servers, written out. */
  function ThreePlan(s: seq<string>, c: Nodes): seq<Op>
    requires |s| == 3 && SameLength(c, 3)
  {
    [ JoinOf(Master, c, 0), Delete(s[1]), Repoint(c.externalIps[0]), Validate(c.externalIps[0]),
      Delete(s[2]), JoinOf(Master, c, 1), Validate(c.externalIps[1]),
      JoinOf(Master, c, 2), Validate(c.externalIps[2]) ]
  }

  lemma ThreePlanIs(s: seq<string>, c: Nodes)
    requires |s| == 3 && SameLength(c, 3)
    ensures ServerPlan(s, c) == ThreePlan(s, c)
  {
    assert RestPlan(s, c, 1) == [];
    assert RestPlan(s, c, 2) == OneJoin(s, c, 1);
    assert RestPlan(s, c, 3) == OneJoin(s, c, 1) + OneJoin(s, c, 2);
  }

  lemma {:induction false} AgentParts(agents: seq<string>, nodes: Nodes, k: nat)
    requires SameLength(nodes, |agents|) && k <= |agents|
    ensures |Deletions(agents, k)| == k && forall j :: 0 <= j < k ==> Deletions(agents, k)[j] == Delete(agents[j])
    ensures |Joins(nodes, k)| == k && forall j :: 0 <= j < k ==> Joins(nodes, k)[j] == JoinOf(Agent, nodes, j)
  {
    if k > 0 { AgentParts(agents, nodes, k - 1); }
  }

  /** The operations for three servers, one by one. */
  lemma OpOfThree(s: seq<string>, c: Nodes, agents: seq<string>, a: Nodes, j: nat)
    requires |s| == 3 && SameLength(c, 3) && SameLength(a, |agents|) && j < |Plan(s, c, agents, a)|
    ensures var plan, n := Plan(s, c, agents, a), |agents|;
            && |plan| == 10 + 2 * n
            && plan[j] == if j < 9 then ThreePlan(s, c)[j]
                          else if j < 9 + n then Delete(agents[j - 9])
                          else if j < 9 + 2 * n then JoinOf(Agent, a, j - 9 - n)
                          else Delete(s[0])
  {
    ThreePlanIs(s, c);
    AgentParts(agents, a, |agents|);
  }

  /** Six addresses that all differ, none of them an agent's. */
  ghost predicate SixApart(s: seq<string>, c: Nodes, agents: seq<string>)
    requires |s| == 3 && SameLength(c, 3)
  {
    AllApart(s + c.externalIps) && NoAgent(s + c.externalIps, agents)
  }

  /** Of the leader and the new servers, only the leader is ever deleted, and only by the last
      operation. */
  lemma DeletedLast(s: seq<string>, c: Nodes, agents: seq<string>, a: Nodes, j: nat, m: nat)
    requires |s| == 3 && SameLength(c, 3) && SameLength(a, |agents|) && SixApart(s, c, agents)
    requires j < |Plan(s, c, agents, a)| && m < 6 && m != 1 && m != 2
    ensures Plan(s, c, agents, a)[j] == Delete((s + c.externalIps)[m]) <==> m == 0 && j == |Plan(s, c, agents, a)| - 1
  {
    OpOfThree(s, c, agents, a, j);
    var all := s + c.externalIps;
    assert all[0] == s[0] && all[1] == s[1] && all[2] == s[2];
    assert Apart(agents, all[m]);
  }

  /** The m-th of the six addresses, once a member, is one before every later operation. */
  lemma StaysMember(s: seq<string>, c: Nodes, agents: seq<string>, a: Nodes, m: nat, j: nat, k: nat)
    requires |s| == 3 && SameLength(c, 3) && SameLength(a, |agents|) && SixApart(s, c, agents)
    requires m < 6 && m != 1 && m != 2 && j <= k <= |Plan(s, c, agents, a)|
    requires m == 0 ==> k < |Plan(s, c, agents, a)|
    requires (s + c.externalIps)[m] in Members({s[0], s[1], s[2]}, Plan(s, c, agents, a), j)
    ensures (s + c.externalIps)[m] in Members({s[0], s[1], s[2]}, Plan(s, c, agents, a), k)
  {
    var plan := Plan(s, c, agents, a);
    forall i | j <= i < k ensures plan[i] != Delete((s + c.externalIps)[m]) {
      DeletedLast(s, c, agents, a, i, m);
    }
    MemberStays({s[0], s[1], s[2]}, plan, (s + c.externalIps)[m], j, k);
  }

  /** A server that joins by operation `j` is a member after it. */
  lemma JoinsAt(s: seq<string>, c: Nodes, agents: seq<string>, a: Nodes, j: nat, i: nat)
    requires |s| == 3 && SameLength(c, 3) && SameLength(a, |agents|) && ((j == 0 && i == 0) || (j == 5 && i == 1))
    ensures j + 1 <= |Plan(s, c, agents, a)|
    ensures (s + c.externalIps)[3 + i] in Members({s[0], s[1], s[2]}, Plan(s, c, agents, a), j + 1)
  {
    PlanLength(s, c, agents, a);
    OpOfThree(s, c, agents, a, j);
    assert (s + c.externalIps)[3 + i] == c.externalIps[i];
  }

  lemma PlanLength(s: seq<string>, c: Nodes, agents: seq<string>, a: Nodes)
    requires |s| == 3 && SameLength(c, 3) && SameLength(a, |agents|)
    ensures |Plan(s, c, agents, a)| == 10 + 2 * |agents|
  {
    ThreePlanIs(s, c);
    AgentParts(agents, a, |agents|);
  }

  /** With three servers and any number of agents, at every point of the upgrade, and so of every upgrade
      that stops early, at least two servers are members. */
  lemma TwoServersStay(s: seq<string>, c: Nodes, agents: seq<string>, a: Nodes, k: nat)
    requires |s| == 3 && SameLength(c, 3) && SameLength(a, |agents|) && SixApart(s, c, agents)
    requires k <= |Plan(s, c, agents, a)|
    ensures 2 <= |Members({s[0], s[1], s[2]}, Plan(s, c, agents, a), k)|
  {
    var n, all := |Plan(s, c, agents, a)|, s + c.externalIps;
    var members := Members({s[0], s[1], s[2]}, Plan(s, c, agents, a), k);
    PlanLength(s, c, agents, a);
    if k < n { LeaderStays(s, c, agents, a, k); }
    if k == 0 {
      assert all[0] == s[0] && all[1] == s[1];
      TwoMembers(members, s[0], s[1]);
    } else {
      JoinsAt(s, c, agents, a, 0, 0);
      StaysMember(s, c, agents, a, 3, 1, k);
      if k < n {
        assert all[0] == s[0];
        TwoMembers(members, all[0], all[3]);
      } else {
        JoinsAt(s, c, agents, a, 5, 1);
        StaysMember(s, c, agents, a, 4, 6, k);
        TwoMembers(members, all[3], all[4]);
      }
    }
  }

  /** And before every operation the leader is a member, so that whoever joins finds it; it is deleted
      by the last operation only. */
  lemma LeaderStays(s: seq<string>, c: Nodes, agents: seq<string>, a: Nodes, k: nat)
    requires |s| == 3 && SameLength(c, 3) && SameLength(a, |agents|) && SixApart(s, c, agents)
    requires k < |Plan(s, c, agents, a)|
    ensures s[0] in Members({s[0], s[1], s[2]}, Plan(s, c, agents, a), k)
    ensures Plan(s, c, agents, a)[k] == Delete(s[0]) <==> k == |Plan(s, c, agents, a)| - 1
  {
    assert (s + c.externalIps)[0] == s[0];
    StaysMember(s, c, agents, a, 0, 0, k);
    DeletedLast(s, c, agents, a, k, 0);
  }

  lemma TwoMembers(x: set<string>, a: string, b: string)
    requires a in x && b in x && a != b
    ensures 2 <= |x|
  {
    assert x == {a, b} + (x - {a, b});
  }

  // ---- The addresses of a join ----

  /** Whoever joins does so as this kind, with the two addresses of one of the created instances. */
  ghost predicate JoinsAs(op: Op, kind: Kind, results: seq<FanOut.Response>) {
    op.Join? ==> op.kind == kind && exists r :: 0 <= r < |results| && IsAt(op, results[r])
  }

  predicate IsAt(op: Op, r: FanOut.Response)
    requires op.Join?
  {
    r.externalIp == op.externalIp && r.privateIp == op.privateIp
  }

  /** These nodes are what the creation of `n` instances returned at the end of this run. */
  ghost predicate IsCreation(ws: seq<FanOut.World>, steps: seq<FanOut.Step>, n: nat, nodes: Nodes) {
    && FanOut.IsRun(ws, steps, FanOut.Instances, n)
    && var w := ws[|ws| - 1];
       w.collector.Returned? && nodes == Nodes(w.collector.externalIps, w.collector.privateIps)
  }

  ghost predicate Aligned(nodes: Nodes, results: seq<FanOut.Response>, n: nat) {
    && SameLength(nodes, n) && |results| == n
    && forall i :: 0 <= i < n ==> IsAt(Join(Master, nodes.externalIps[i], nodes.privateIps[i]), results[i])
  }

  lemma CreatedAligned(ws: seq<FanOut.World>, steps: seq<FanOut.Step>, n: nat, nodes: Nodes)
    requires IsCreation(ws, steps, n, nodes)
    ensures Aligned(nodes, ws[|ws| - 1].results, n)
  {
    FanOut.AllOrNothing(ws, steps, FanOut.Instances, n, |ws| - 1);
  }

  lemma JoinOfOne(nodes: Nodes, results: seq<FanOut.Response>, n: nat, kind: Kind, i: nat)
    requires Aligned(nodes, results, n) && i < n
    ensures JoinsAs(JoinOf(kind, nodes, i), kind, results)
  {
    assert IsAt(Join(Master, nodes.externalIps[i], nodes.privateIps[i]), results[i]);
    assert IsAt(JoinOf(kind, nodes, i), results[i]);
  }

  lemma {:induction false} RestJoinsAs(servers: seq<string>, created: Nodes, results: seq<FanOut.Response>, k: nat,
                                       j: nat)
    requires Aligned(created, results, |servers|) && 2 <= |servers| && 1 <= k <= |servers|
    requires j < |RestPlan(servers, created, k)|
    ensures JoinsAs(RestPlan(servers, created, k)[j], Master, results)
  {
    var front := RestPlan(servers, created, k - 1);
    if j < |front| {
      RestJoinsAs(servers, created, results, k - 1, j);
    } else {
      JoinOfOne(created, results, |servers|, Master, k - 1);
    }
  }

  lemma ServersJoinAs(servers: seq<string>, created: Nodes, results: seq<FanOut.Response>, j: nat)
    requires Aligned(created, results, |servers|) && 2 <= |servers| && j < |ServerPlan(servers, created)|
    ensures JoinsAs(ServerPlan(servers, created)[j], Master, results)
  {
    if j < 4 {
      JoinOfOne(created, results, |servers|, Master, 0);
    } else {
      RestJoinsAs(servers, created, results, |servers|, j - 4);
    }
  }

  lemma AgentsJoinAs(agents: seq<string>, created: Nodes, results: seq<FanOut.Response>, j: nat)
    requires SameLength(created, |agents|) && j < |AgentPlan(agents, created)|
    requires agents != [] ==> Aligned(created, results, |agents|)
    ensures JoinsAs(AgentPlan(agents, created)[j], Agent, results)
  {
    AgentParts(agents, created, |agents|);
    if |agents| <= j {
      JoinOfOne(created, results, |agents|, Agent, j - |agents|);
    }
  }

  /** Whatever the order in which the two creations returned their instances, every server and every agent
      that joins in the upgrade does so with the private address of the created instance whose external
      address it is reached by. */
  lemma JoinsAsCreated(servers: seq<string>, ws: seq<FanOut.World>, steps: seq<FanOut.Step>, created: Nodes,
                       agents: seq<string>, ws': seq<FanOut.World>, steps': seq<FanOut.Step>, createdAgents: Nodes,
                       j: nat)
    requires 2 <= |servers| && IsCreation(ws, steps, |servers|, created)
    requires if agents == [] then createdAgents == Nodes([], [])
             else IsCreation(ws', steps', |agents|, createdAgents)
    ensures SameLength(created, |servers|) && SameLength(createdAgents, |agents|)
    ensures j < |Plan(servers, created, agents, createdAgents)| ==>
              var op := Plan(servers, created, agents, createdAgents)[j];
              || JoinsAs(op, Master, ws[|ws| - 1].results)
              || (agents != [] && JoinsAs(op, Agent, ws'[|ws'| - 1].results))
  {
    CreatedAligned(ws, steps, |servers|, created);
    if agents != [] { CreatedAligned(ws', steps', |agents|, createdAgents); }
    var first, rest := ServerPlan(servers, created), AgentPlan(agents, createdAgents);
    if j < |first| {
      ServersJoinAs(servers, created, ws[|ws| - 1].results, j);
    } else if j < |first| + |rest| && agents != [] {
      AgentsJoinAs(agents, createdAgents, ws'[|ws'| - 1].results, j - |first|);
    }
  }
}
