/** Finding the request to rerun the failed tests in a Slack thread. */
module RerunRequest {
  import opened Options
  import opened StringOrder
  import opened Text
  import opened Timestamps

  datatype Message = Message(ts: string, user: string, text: string)

  datatype Record = Record(channel: string, thread: string, last: string, failed: seq<string>)

  // ---- What a request looks like ----

  function ParseRerunRequest(text: string): string {
    var trimmed := TrimSpace(text);
    if !("rerun:" <= ToLower(trimmed)) then ""
    else
      var tests := ToLower(TrimSpace(trimmed[6..]));
      if tests == "failed" then tests else ""
  }

  /** In lower case: `rerun:` and `failed`, with nothing but white space around and between. */
  ghost predicate AsksForFailed(text: string) {
    exists a, w, b :: IsRequestText(ToLower(text), a, w, b)
  }

  ghost predicate IsRequestText(s: string, a: string, w: string, b: string) {
    AllSpace(a) && AllSpace(w) && AllSpace(b) && s == a + "rerun:" + w + "failed" + b
  }

  lemma {:induction false} LowerTrimLeft(s: string)
    ensures TrimLeft(ToLower(s)) == ToLower(TrimLeft(s))
  {
    if s != [] && IsSpace(s[0]) {
      assert ToLower(s)[1..] == ToLower(s[1..]);
      LowerTrimLeft(s[1..]);
    }
  }

  lemma {:induction false} LowerTrimRight(s: string)
    ensures TrimRight(ToLower(s)) == ToLower(TrimRight(s))
  {
    if s != [] && IsSpace(s[|s| - 1]) {
      assert ToLower(s)[..|s| - 1] == ToLower(s[..|s| - 1]);
      LowerTrimRight(s[..|s| - 1]);
    }
  }

  /** Changing to lower case and trimming can be done in either order. */
  lemma LowerTrim(s: string)
    ensures TrimSpace(ToLower(s)) == ToLower(TrimSpace(s))
  {
    LowerTrimLeft(s);
    LowerTrimRight(TrimLeft(s));
  }

  /** A message is taken for a request exactly if it asks for the failed tests. */
  lemma ParseMeaning(text: string)
    ensures ParseRerunRequest(text) == if AsksForFailed(text) then "failed" else ""
  {
    var low, trimmed := ToLower(text), TrimSpace(text);
    LowerTrim(text);
    var core := TrimSpace(low);
    assert core == ToLower(trimmed);
    if "rerun:" <= core {
      assert ToLower(trimmed[6..]) == core[6..];
      LowerTrim(trimmed[6..]);
      if ToLower(TrimSpace(trimmed[6..])) == "failed" {
        ParsedAsks(low);
      }
    }
    if AsksForFailed(text) {
      var a, w, b :| IsRequestText(low, a, w, b);
      AskedParses(low, a, w, b);
      assert ToLower(trimmed[6..]) == core[6..];
      LowerTrim(trimmed[6..]);
    }
  }

  lemma ParsedAsks(low: string)
    requires "rerun:" <= TrimSpace(low) && TrimSpace(TrimSpace(low)[6..]) == "failed"
    ensures exists a, w, b :: IsRequestText(low, a, w, b)
  {
    var core := TrimSpace(low);
    var a, b := TrimSplits(low);
    var w, b' := TrimSplits(core[6..]);
    assert core == "rerun:" + core[6..];
    assert low == a + "rerun:" + w + "failed" + (b' + b);
    assert IsRequestText(low, a, w, b' + b);
  }

  lemma AskedParses(low: string, a: string, w: string, b: string)
    requires IsRequestText(low, a, w, b)
    ensures TrimSpace(low) == "rerun:" + w + "failed"
    ensures TrimSpace(TrimSpace(low)[6..]) == "failed"
  {
    var core := "rerun:" + w + "failed";
    assert low == a + core + b;
    TrimOff(a, core, b);
    assert core[6..] == w + "failed" + "";
    TrimOff(w, "failed", "");
  }

  // ---- Who may ask ----

  /** One answer of the service to a request for members. */
  datatype Page = Error | Page(members: seq<string>, nextCursor: string)

  datatype Membership = Member | NotMember | CheckFailed

  /** The answers of one conversation, to its end: the last one fails or has no next page. */
  predicate IsConversation(pages: seq<Page>) {
    && pages != []
    && (pages[|pages| - 1].Page? ==> pages[|pages| - 1].nextCursor == "")
    && forall k :: 0 <= k < |pages| - 1 ==> pages[k].Page? && pages[k].nextCursor != ""
  }

  /** The user is on one of the pages. */
  ghost predicate IsOnPages(pages: seq<Page>, user: string) {
    exists k :: 0 <= k < |pages| && pages[k].Page? && user in pages[k].members
  }

  ghost function MembershipOf(pages: seq<Page>, user: string): Membership {
    if IsOnPages(pages, user) then Member
    else if pages != [] && pages[|pages| - 1].Error? then CheckFailed
    else NotMember
  }

  method IsChannelMember(pages: seq<Page>, user: string) returns (r: Membership)
    requires IsConversation(pages)
    ensures r == MembershipOf(pages, user)
  {
    var n := 0;
    while true
      invariant n < |pages| && forall k :: 0 <= k < n ==> pages[k].Page? && user !in pages[k].members
      decreases |pages| - n
    {
      var page := pages[n];
      if page.Error? {
        return CheckFailed;
      }
      for m := 0 to |page.members|
        invariant user !in page.members[..m]
      {
        if page.members[m] == user {
          return Member;
        }
      }
      if page.nextCursor == "" {
        break;
      }
      n := n + 1;
    }
    return NotMember;
  }

  // ---- Which request is taken ----

  /** A request by a member, newer than what was processed last, and not the thread's own message. */
  ghost predicate Eligible(state: Record, msg: Message, pages: seq<Page>) {
    && msg.ts != state.thread
    && Less(state.last, msg.ts)
    && AsksForFailed(msg.text)
    && MembershipOf(pages, msg.user) == Member
  }

  /** The last eligible message, or none if there is none. */
  ghost predicate IsChoice(state: Record, replies: seq<Message>, pages: seq<seq<Page>>, choice: Option<nat>)
    requires |pages| == |replies|
  {
    match choice
    case None => forall i :: 0 <= i < |replies| ==> !Eligible(state, replies[i], pages[i])
    case Some(k) =>
      && k < |replies| && Eligible(state, replies[k], pages[k])
      && forall i :: k < i < |replies| ==> !Eligible(state, replies[i], pages[i])
  }

  /** The timestamps that are compared are of one shape, with the dot at `m`, and the replies come in the
      order of their times. */
  ghost predicate InTime(state: Record, replies: seq<Message>, m: nat) {
    && IsStamp(state.last, m)
    && (forall i :: 0 <= i < |replies| ==> IsLike(replies[i].ts, state.last, m))
    && (forall i, j :: 0 <= i < j < |replies| ==> IsEarlier(replies[i], replies[j], m))
  }

  predicate IsLike(ts: string, last: string, m: nat) { IsStamp(ts, m) && |ts| == |last| }

  predicate IsEarlier(a: Message, b: Message, m: nat) {
    m < |a.ts| && m < |b.ts| && TimeOf(a.ts, m) < TimeOf(b.ts, m)
  }

  /** A member asks for the failed tests, in a reply that is later than what was processed last. */
  ghost predicate AsksLater(state: Record, msg: Message, pages: seq<Page>, m: nat)
    requires m < |state.last| && m < |msg.ts|
  {
    && msg.ts != state.thread
    && TimeOf(state.last, m) < TimeOf(msg.ts, m)
    && AsksForFailed(msg.text)
    && IsOnPages(pages, msg.user)
  }

  /** The choice is the latest such reply, and there is none only if no reply is one. */
  ghost predicate TakesLatest(state: Record, replies: seq<Message>, pages: seq<seq<Page>>, m: nat, choice: Option<nat>)
    requires |pages| == |replies| && InTime(state, replies, m)
  {
    && (choice.Some? ==> choice.value < |replies| && IsLike(replies[choice.value].ts, state.last, m)
                         && AsksLater(state, replies[choice.value], pages[choice.value], m))
    && forall i :: 0 <= i < |replies| ==> IsNoLater(state, replies, pages, m, choice, i)
  }

  /** Reply `i` is no such reply, or not later than the choice. */
  ghost predicate IsNoLater(state: Record, replies: seq<Message>, pages: seq<seq<Page>>, m: nat, choice: Option<nat>,
                            i: nat)
    requires |pages| == |replies| && i < |replies| && m < |state.last|
    requires choice.Some? ==> choice.value < |replies|
  {
    && IsLike(replies[i].ts, state.last, m)
    && (AsksLater(state, replies[i], pages[i], m) ==>
          && choice.Some? && m < |replies[choice.value].ts|
          && TimeOf(replies[i].ts, m) <= TimeOf(replies[choice.value].ts, m))
  }

  lemma EligibleInTime(state: Record, msg: Message, pages: seq<Page>, m: nat)
    requires IsStamp(state.last, m) && IsLike(msg.ts, state.last, m)
    ensures Eligible(state, msg, pages) <==> AsksLater(state, msg, pages, m)
  {
    StampOrder(state.last, msg.ts, m);
  }

  /** In time the choice is the latest request. */
  lemma ChoiceIsLatest(state: Record, replies: seq<Message>, pages: seq<seq<Page>>, m: nat, choice: Option<nat>)
    requires |pages| == |replies| && IsChoice(state, replies, pages, choice) && InTime(state, replies, m)
    ensures TakesLatest(state, replies, pages, m, choice)
  {
    forall i | 0 <= i < |replies| ensures IsNoLater(state, replies, pages, m, choice, i) {
      assert IsLike(replies[i].ts, state.last, m);
      EligibleInTime(state, replies[i], pages[i], m);
      if choice.Some? && i < choice.value { assert IsEarlier(replies[i], replies[choice.value], m); }
    }
    if choice.Some? {
      assert IsLike(replies[choice.value].ts, state.last, m);
      EligibleInTime(state, replies[choice.value], pages[choice.value], m);
    }
  }

  lemma TakesTheLatest(state: Record, replies: seq<Message>, pages: seq<seq<Page>>, choice: Option<nat>)
    requires |pages| == |replies| && IsChoice(state, replies, pages, choice)
    ensures forall m: nat :: InTime(state, replies, m) ==> TakesLatest(state, replies, pages, m, choice)
  {
    forall m: nat | InTime(state, replies, m) ensures TakesLatest(state, replies, pages, m, choice) {
      ChoiceIsLatest(state, replies, pages, m, choice);
    }
  }

  /** `pages[i]` is what the service answers when asked about the author of `replies[i]`. */
  method FindRerunRequest(state: Record, replies: seq<Message>, pages: seq<seq<Page>>) returns (choice: Option<nat>)
    requires |pages| == |replies| && forall i :: 0 <= i < |pages| ==> IsConversation(pages[i])
    ensures IsChoice(state, replies, pages, choice)
    ensures forall m: nat :: InTime(state, replies, m) ==> TakesLatest(state, replies, pages, m, choice)
  {
    for i := |replies| downto 0
      invariant forall k :: i <= k < |replies| ==> !Eligible(state, replies[k], pages[k])
    {
      var msg := replies[i];
      NotAtMost(msg.ts, state.last);
      ParseMeaning(msg.text);
      if msg.ts == state.thread {
        continue;
      }
      if AtMost(msg.ts, state.last) {
        continue;
      }
      var tests := ParseRerunRequest(msg.text);
      if tests != "" {
        var member := IsChannelMember(pages[i], msg.user);
        if !member.Member? {
          continue;
        }
        TakesTheLatest(state, replies, pages, Some(i));
        return Some(i);
      }
    }
    TakesTheLatest(state, replies, pages, None);
    return None;
  }

  ghost predicate Ascending(replies: seq<Message>) {
    forall i, j :: 0 <= i < j < |replies| ==> Less(replies[i].ts, replies[j].ts)
  }

  /** No eligible message is newer than message `k`. */
  ghost predicate IsNewest(state: Record, replies: seq<Message>, pages: seq<seq<Page>>, k: nat)
    requires |pages| == |replies| && k < |replies|
  {
    forall i :: 0 <= i < |replies| && Eligible(state, replies[i], pages[i]) ==> AtMost(replies[i].ts, replies[k].ts)
  }

  /** In a thread ordered by time the newest eligible request wins, and no other one can. */
  lemma NewestRequestWins(state: Record, replies: seq<Message>, pages: seq<seq<Page>>, k: nat)
    requires |pages| == |replies| && Ascending(replies) && k < |replies|
    ensures IsChoice(state, replies, pages, Some(k))
       <==> Eligible(state, replies[k], pages[k]) && IsNewest(state, replies, pages, k)
  {
    if Eligible(state, replies[k], pages[k]) && IsNewest(state, replies, pages, k) {
      forall i | k < i < |replies| ensures !Eligible(state, replies[i], pages[i]) {
        NotAtMost(replies[i].ts, replies[k].ts);
      }
    }
  }
}
