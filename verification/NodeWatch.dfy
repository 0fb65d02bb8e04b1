/** Waiting for cluster nodes to become ready: a counter kept up to date event by event stands for the
    number of nodes whose last seen status is ready. */
module NodeWatch {
  import opened Options

  datatype Condition = Condition(kind: string, status: string)

  /** A listed object; `Malformed` is one that does not convert to a node. */
  datatype Item = Malformed | Node(name: string, conditions: seq<Condition>)

  /** What the watch delivers next. A deleted node comes as `Seen` with its last status: the kind of
      the event is not looked at. */
  datatype Event = TimedOut | Closed | NotAnObject | NotANode | Seen(name: string, conditions: seq<Condition>)

  datatype Outcome = Ready | Failed(cause: Event) | ListFailed | WatchFailed

  // ---- Status of one node ----

  ghost predicate IsReady(conditions: seq<Condition>) {
    exists k :: 0 <= k < |conditions| && conditions[k] == Condition("Ready", "True")
  }

  method NodeReady(conditions: seq<Condition>) returns (ready: bool)
    ensures ready <==> IsReady(conditions)
  {
    for k := 0 to |conditions|
      invariant forall j :: 0 <= j < k ==> conditions[j] != Condition("Ready", "True")
    {
      if conditions[k].kind == "Ready" && conditions[k].status == "True" {
        assert conditions[k] == Condition("Ready", "True");
        return true;
      }
    }
    return false;
  }

  // ---- Last seen status ----

  type Statuses = map<string, bool>

  function ReadyNames(m: Statuses): set<string> { set x | x in m && m[x] }

  ghost function See(m: Statuses, name: string, conditions: seq<Condition>): Statuses {
    m[name := IsReady(conditions)]
  }

  /** What one more status does to the number of ready names. */
  lemma ReadyNamesStep(m: Statuses, name: string, ready: bool)
    ensures |ReadyNames(m[name := ready])|
         == |ReadyNames(m)| - (if name in m && m[name] then 1 else 0) + (if ready then 1 else 0)
  {
    var others := ReadyNames(m) - {name};
    assert ReadyNames(m) == if name in m && m[name] then others + {name} else others;
    assert ReadyNames(m[name := ready]) == if ready then others + {name} else others;
  }

  // ---- The initial listing ----

  ghost predicate AllNodes(items: seq<Item>, n: nat)
    requires n <= |items|
  {
    forall k :: 0 <= k < n ==> items[k].Node?
  }

  ghost function LastSeen(items: seq<Item>, n: nat): Statuses
    requires n <= |items| && AllNodes(items, n)
  {
    if n == 0 then map[] else See(LastSeen(items, n - 1), items[n - 1].name, items[n - 1].conditions)
  }

  ghost function CountReady(items: seq<Item>, n: nat): nat
    requires n <= |items| && AllNodes(items, n)
  {
    if n == 0 then 0 else CountReady(items, n - 1) + if IsReady(items[n - 1].conditions) then 1 else 0
  }

  /** A ready node is listed at `i`, and again under the same name at `j`. */
  ghost predicate ListedAgain(items: seq<Item>, i: nat, j: nat)
    requires i < |items| && j < |items|
  {
    items[i].Node? && items[j].Node? && items[i].name == items[j].name && IsReady(items[i].conditions)
  }

  ghost predicate NoneListedAgain(items: seq<Item>, n: nat)
    requires n <= |items|
  {
    forall i, j :: 0 <= i < j < n ==> !ListedAgain(items, i, j)
  }

  lemma {:induction false} ReadyComesFromItem(items: seq<Item>, n: nat, name: string) returns (i: nat)
    requires n <= |items| && AllNodes(items, n) && name in ReadyNames(LastSeen(items, n))
    ensures i < n && items[i].name == name && IsReady(items[i].conditions)
  {
    if items[n - 1].name == name { i := n - 1; } else { i := ReadyComesFromItem(items, n - 1, name); }
  }

  lemma {:induction false} ReadyItemStays(items: seq<Item>, n: nat, i: nat)
    requires i < n <= |items| && AllNodes(items, n) && IsReady(items[i].conditions) && NoneListedAgain(items, n)
    ensures items[i].name in ReadyNames(LastSeen(items, n))
  {
    if i < n - 1 {
      ReadyItemStays(items, n - 1, i);
      assert !ListedAgain(items, i, n - 1);
    }
  }

  /** The initial count is the number of ready names exactly if no ready node is listed again. */
  lemma {:induction false} InitialCount(items: seq<Item>, n: nat)
    requires n <= |items| && AllNodes(items, n)
    ensures |ReadyNames(LastSeen(items, n))| <= CountReady(items, n)
    ensures |ReadyNames(LastSeen(items, n))| == CountReady(items, n) <==> NoneListedAgain(items, n)
  {
    if n == 0 {
      assert ReadyNames(map[]) == {};
    } else {
      var m, item := LastSeen(items, n - 1), items[n - 1];
      InitialCount(items, n - 1);
      ReadyNamesStep(m, item.name, IsReady(item.conditions));
      if item.name in ReadyNames(m) {
        var i := ReadyComesFromItem(items, n - 1, item.name);
        assert ListedAgain(items, i, n - 1);
      } else if NoneListedAgain(items, n - 1) {
        forall i, j | 0 <= i < j < n ensures !ListedAgain(items, i, j) {
          if j < n - 1 {
            assert !ListedAgain(items, i, j);
          } else if IsReady(items[i].conditions) && items[i].name == item.name {
            ReadyItemStays(items, n - 1, i);
          }
        }
      } else {
        var i, j :| 0 <= i < j < n - 1 && ListedAgain(items, i, j);
        assert ListedAgain(items, i, j);
      }
    }
  }

  /** The status of a name is that of the last item of that name. */
  lemma {:induction false} LastSeenMeaning(items: seq<Item>, n: nat, name: string, i: nat)
    requires i < n <= |items| && AllNodes(items, n)
    requires items[i].name == name && forall j :: i < j < n ==> items[j].name != name
    ensures name in LastSeen(items, n) && (LastSeen(items, n)[name] <==> IsReady(items[i].conditions))
  {
    if i < n - 1 { LastSeenMeaning(items, n - 1, name, i); }
  }

  lemma {:induction false} NeverSeen(items: seq<Item>, n: nat, name: string)
    requires n <= |items| && AllNodes(items, n) && forall j :: 0 <= j < n ==> items[j].name != name
    ensures name !in LastSeen(items, n)
  {
    if n > 0 { NeverSeen(items, n - 1, name); }
  }

  // ---- The watch ----

  /** The first `n` events are all nodes seen. */
  ghost predicate AllSeen(events: seq<Event>, n: nat)
    requires n <= |events|
  {
    forall k :: 0 <= k < n ==> events[k].Seen?
  }

  ghost function After(m: Statuses, events: seq<Event>, n: nat): Statuses
    requires n <= |events| && AllSeen(events, n)
  {
    if n == 0 then m else See(After(m, events, n - 1), events[n - 1].name, events[n - 1].conditions)
  }

  /** After the events, the status of a name is that of the last event of that name, if there is one. */
  lemma {:induction false} AfterMeaning(m: Statuses, events: seq<Event>, n: nat, name: string, i: int)
    requires n <= |events| && AllSeen(events, n) && -1 <= i < n
    requires (0 <= i ==> events[i].name == name) && forall j :: i < j < n ==> events[j].name != name
    ensures name in After(m, events, n) <==> 0 <= i || name in m
    ensures name in After(m, events, n) ==>
              (After(m, events, n)[name] <==> if 0 <= i then IsReady(events[i].conditions) else m[name])
  {
    if i < n - 1 { AfterMeaning(m, events, n - 1, name, i); }
  }

  ghost function ReadyAfter(m: Statuses, events: seq<Event>, n: nat): nat
    requires n <= |events| && AllSeen(events, n)
  {
    |ReadyNames(After(m, events, n))|
  }

  /** None of the first `n` events brought the number of ready nodes, plus `offset`, up to `min`. */
  ghost predicate TooFew(m: Statuses, events: seq<Event>, n: nat, offset: int, min: int)
    requires n <= |events| && AllSeen(events, n)
  {
    forall k :: 0 < k <= n ==> AllSeen(events, k) && ReadyAfter(m, events, k) + offset < min
  }

  /** The watch stops at event `n` with this outcome: success at the first event after which enough
      nodes are ready, or the failure that came before that. */
  ghost predicate StopsAt(m: Statuses, events: seq<Event>, n: nat, offset: int, min: int, outcome: Outcome)
    requires n < |events|
  {
    && AllSeen(events, n) && TooFew(m, events, n, offset, min)
    && if events[n].Seen? then outcome == Ready && min <= ReadyAfter(m, events, n + 1) + offset
       else outcome == Failed(events[n])
  }

  class Watcher {
    var readyNodes: Statuses
    var nodesReady: int

    constructor ()
      ensures readyNodes == map[] && nodesReady == 0
    {
      readyNodes, nodesReady := map[], 0;
    }

    /** How far the counter is off the number of ready names. */
    ghost function Offset(): int
      reads this
    {
      nodesReady - |ReadyNames(readyNodes)|
    }

    /** The nodes as first listed, `None` if listing fails, and the threshold to be used. */
    method CheckInitialNodesReady(listing: Option<seq<Item>>, minReadyNodes: int) returns (ok: bool, min: int)
      requires readyNodes == map[] && nodesReady == 0
      modifies this
      ensures ok <==> listing.Some? && listing.value != [] && AllNodes(listing.value, |listing.value|)
      ensures ok ==> readyNodes == LastSeen(listing.value, |listing.value|)
      ensures ok ==> nodesReady == CountReady(listing.value, |listing.value|)
      ensures ok ==> min == Threshold(minReadyNodes, |listing.value|)
      ensures ok ==> IsThreshold(min, minReadyNodes, |listing.value|)
      ensures ok ==> Offset() >= 0 && (Offset() == 0 <==> NoneListedAgain(listing.value, |listing.value|))
    {
      ok, min := false, minReadyNodes;
      if listing.None? || listing.value == [] {
        return;
      }
      var items := listing.value;
      if minReadyNodes == 0 || minReadyNodes > |items| {
        min := |items|;
      }
      for n := 0 to |items|
        invariant AllNodes(items, n)
        invariant readyNodes == LastSeen(items, n) && nodesReady == CountReady(items, n)
      {
        if items[n].Malformed? {
          return;
        }
        var ready := NodeReady(items[n].conditions);
        readyNodes := readyNodes[items[n].name := ready];
        if ready {
          nodesReady := nodesReady + 1;
        }
      }
      InitialCount(items, |items|);
      ok := true;
    }

    /** `events` is what the watch delivers, up to the time-out at the latest, if it can be set up. */
    method WatchNodesReady(watching: bool, events: seq<Event>, minReadyNodes: int)
      returns (outcome: Outcome, ghost stop: nat)
      requires events != [] && events[|events| - 1].TimedOut?
      modifies this
      ensures outcome == WatchFailed <==> !watching
      ensures !watching ==> readyNodes == old(readyNodes) && nodesReady == old(nodesReady)
      ensures stop < |events|
      ensures watching ==> StopsAt(old(readyNodes), events, stop, old(Offset()), minReadyNodes, outcome)
      ensures Offset() == old(Offset())
      ensures watching ==>
                readyNodes == After(old(readyNodes), events, if events[stop].Seen? then stop + 1 else stop)
    {
      stop := 0;
      if !watching {
        return WatchFailed, stop;
      }
      var n := 0;
      while true
        invariant n < |events| && stop == n && AllSeen(events, n)
        invariant readyNodes == After(old(readyNodes), events, n) && Offset() == old(Offset())
        invariant TooFew(old(readyNodes), events, n, old(Offset()), minReadyNodes)
        decreases |events| - n
      {
        var event := events[n];
        if !event.Seen? {
          return Failed(event), stop;
        }
        var previous := event.name in readyNodes && readyNodes[event.name];
        var current := NodeReady(event.conditions);
        ReadyNamesStep(readyNodes, event.name, current);
        readyNodes := readyNodes[event.name := current];
        if !previous && current {
          nodesReady := nodesReady + 1;
        } else if previous && !current {
          nodesReady := nodesReady - 1;
        }
        if nodesReady >= minReadyNodes {
          return Ready, stop;
        }
        n, stop := n + 1, stop + 1;
      }
    }
  }

  function Threshold(minReadyNodes: int, total: nat): int {
    if minReadyNodes == 0 || minReadyNodes > total then total else minReadyNodes
  }

  /** All nodes, if 0 or more than there are were asked for. */
  predicate IsThreshold(min: int, asked: int, total: nat) {
    && (asked == 0 ==> min == total)
    && (asked > total ==> min == total)
    && (asked != 0 && asked <= total ==> min == asked)
  }

  /** How often a ready node was counted that does not count by its last status. */
  ghost function CountedTwice(items: seq<Item>): nat
    requires AllNodes(items, |items|)
  {
    InitialCount(items, |items|);
    CountReady(items, |items|) - |ReadyNames(LastSeen(items, |items|))|
  }

  /** The number of nodes whose last seen status is ready reaches `min` after the first `n` events. */
  ghost predicate ReachesAt(items: seq<Item>, events: seq<Event>, n: nat, min: int)
    requires AllNodes(items, |items|) && n <= |events|
  {
    AllSeen(events, n) && min <= ReadyAfter(LastSeen(items, |items|), events, n)
  }

  ghost predicate Reaches(items: seq<Item>, events: seq<Event>, min: int)
    requires AllNodes(items, |items|)
  {
    exists n :: 0 <= n <= |events| && ReachesAt(items, events, n, min)
  }

  /** The wait succeeds exactly if the number of nodes whose last seen status is ready reaches the
      threshold, less the nodes that the listing made count too often: at once, or before the watch breaks
      off. The watch is not set up if enough nodes count at once. */
  method WaitForNodesReady(listing: Option<seq<Item>>, minReadyNodes: int, watching: bool, events: seq<Event>)
    returns (outcome: Outcome)
    requires events != [] && events[|events| - 1].TimedOut?
    ensures outcome == ListFailed <==> listing.None? || listing.value == [] || !AllNodes(listing.value, |listing.value|)
    ensures outcome != ListFailed ==>
              var items, min := listing.value, Threshold(minReadyNodes, |listing.value|) - CountedTwice(listing.value);
              && (outcome == WatchFailed <==> !watching && !ReachesAt(items, events, 0, min))
              && (outcome == Ready
                  <==> if watching then Reaches(items, events, min) else ReachesAt(items, events, 0, min))
    ensures outcome != ListFailed ==>
              IsThreshold(Threshold(minReadyNodes, |listing.value|), minReadyNodes, |listing.value|)
    ensures outcome != ListFailed ==>
              (CountedTwice(listing.value) == 0 <==> NoneListedAgain(listing.value, |listing.value|))
  {
    var watcher := new Watcher();
    var ok, min := watcher.CheckInitialNodesReady(listing, minReadyNodes);
    if !ok {
      return ListFailed;
    }
    ghost var m, offset, items := watcher.readyNodes, watcher.Offset(), listing.value;
    assert offset == CountedTwice(items);
    if watcher.nodesReady >= min {
      assert ReachesAt(items, events, 0, min - offset);
      return Ready;
    }
    assert !ReachesAt(items, events, 0, min - offset);
    ghost var stop: nat;
    outcome, stop := watcher.WatchNodesReady(watching, events, min);
    if watching {
      StopMeaning(items, events, stop, offset, min, outcome);
    }
  }

  lemma StopMeaning(items: seq<Item>, events: seq<Event>, stop: nat, offset: int, min: int, outcome: Outcome)
    requires AllNodes(items, |items|) && stop < |events|
    requires StopsAt(LastSeen(items, |items|), events, stop, offset, min, outcome)
    requires !ReachesAt(items, events, 0, min - offset)
    ensures outcome == Ready <==> Reaches(items, events, min - offset)
  {
    if events[stop].Seen? {
      assert ReachesAt(items, events, stop + 1, min - offset);
    } else {
      forall n | 0 <= n <= |events| && AllSeen(events, n) ensures !ReachesAt(items, events, n, min - offset) {
        assert n <= stop;
      }
    }
  }
}
