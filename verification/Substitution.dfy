/** Filling in a template file: every key of a map is replaced by its value, key after key, in the
    order in which the map happens to be visited. */
module Substitution {
  import opened Options
  import opened Text

  type Bindings = map<string, string>

  /** `order` visits every key exactly once, and nothing else. */
  ghost predicate IsOrder(order: seq<string>, kv: Bindings) {
    && (forall i :: 0 <= i < |order| ==> order[i] in kv)
    && (forall k :: k in kv ==> Visits(order, k))
    && NoRepeats(order)
  }

  ghost predicate NoRepeats(order: seq<string>) {
    forall i :: 0 <= i < |order| ==> IsNew(order, i)
  }

  predicate IsNew(order: seq<string>, i: nat)
    requires i < |order|
  {
    order[i] !in order[..i]
  }

  ghost predicate Visits(order: seq<string>, k: string) { exists i :: 0 <= i < |order| && order[i] == k }

  /** The text after the first `n` replacements. */
  function ReplaceInOrder(t: string, kv: Bindings, order: seq<string>, n: nat): string
    requires n <= |order| && forall i :: 0 <= i < |order| ==> order[i] in kv
  {
    if n == 0 then t else ReplaceAll(ReplaceInOrder(t, kv, order, n - 1), order[n - 1], kv[order[n - 1]])
  }

  /** `file` is what can be read, if anything; `writable` says whether it can be written. `None` is an
      error. */
  method ReplaceFileContents(file: Option<string>, writable: bool, kv: Bindings, order: seq<string>)
    returns (written: Option<string>)
    requires IsOrder(order, kv)
    ensures written.Some? <==> file.Some? && writable
    ensures written.Some? ==> written.value == ReplaceInOrder(file.value, kv, order, |order|)
    ensures written.Some? && AreKeys(kv) && NoneInterfere(kv) && DollarsAreKeys(file.value, kv) ==>
              written.value == Simultaneous(file.value, kv)
  {
    if file.None? {
      return None;
    }
    var contents := file.value;
    for n := 0 to |order|
      invariant contents == ReplaceInOrder(file.value, kv, order, n)
    {
      var key, value := order[n], kv[order[n]];
      if Contains(contents, key) {
        contents := ReplaceAll(contents, key, value);
      } else {
        AbsentKey(contents, key, value);
      }
    }
    if AreKeys(kv) && NoneInterfere(kv) && DollarsAreKeys(file.value, kv) {
      OrderDoesNotMatter(file.value, kv, order);
    }
    return if writable then Some(contents) else None;
  }

  lemma AbsentKey(s: string, key: string, value: string)
    requires !Contains(s, key)
    ensures ReplaceAll(s, key, value) == s
  {
    if key == [] {
      assert OccursAt(s, key, 0);
    } else {
      RewriteAbsent(s, key, value);
    }
  }

  // ---- Templates for which the order does not matter ----

  ghost predicate NoDollar(s: string) { forall i :: 0 <= i < |s| ==> s[i] != '$' }

  /** A dollar sign, and none after it. */
  ghost predicate IsKey(k: string) { k != [] && k[0] == '$' && NoDollar(k[1..]) }

  /** Keys of that form, none the beginning of another. */
  ghost predicate AreKeys(kv: Bindings) {
    && (forall k :: k in kv ==> IsKey(k))
    && (forall k, k' :: k in kv && k' in kv && k <= k' ==> k == k')
  }

  /** At the dollar sign at `i` the key begins in `v`, or `v` ends before it can be told. */
  predicate BeginsIn(key: string, v: string, i: nat)
    requires i < |v|
  {
    v[i] == '$' && (key <= v[i..] || v[i..] <= key)
  }

  predicate Touches(v: string, key: string) { exists i :: 0 <= i < |v| && BeginsIn(key, v, i) }

  /** What replaces `k0` may be changed again when `k1` is replaced. A key that stands for itself
      changes nothing. */
  predicate Interferes(kv: Bindings, k0: string, k1: string)
    requires k0 in kv && k1 in kv
  {
    k0 != k1 && kv[k1] != k1 && Touches(kv[k0], k1)
  }

  ghost predicate NoneInterfere(kv: Bindings) {
    forall k0, k1 :: k0 in kv && k1 in kv ==> !Interferes(kv, k0, k1)
  }

  /** `t` begins with a key. */
  ghost predicate StartsKey(t: string, kv: Bindings) { exists k :: k in kv && k <= t }

  /** Every dollar sign of `t` begins a key. */
  ghost predicate DollarsAreKeys(t: string, kv: Bindings) {
    forall i :: 0 <= i < |t| && t[i] == '$' ==> StartsKey(t[i..], kv)
  }

  ghost predicate IsTemplate(t: string, kv: Bindings) { AreKeys(kv) && DollarsAreKeys(t, kv) }

  /** All keys replaced at once, in one pass over the template. */
  ghost function Simultaneous(t: string, kv: Bindings): string
    requires IsTemplate(t, kv)
    decreases |t|
  {
    if t == [] then []
    else if t[0] == '$' then
      assert t[0..] == t;
      var k :| k in kv && k <= t;
      DollarsAfter(t, kv, |k|);
      kv[k] + Simultaneous(t[|k|..], kv)
    else
      DollarsAfter(t, kv, 1);
      [t[0]] + Simultaneous(t[1..], kv)
  }

  lemma DollarsAfter(t: string, kv: Bindings, n: nat)
    requires n <= |t| && DollarsAreKeys(t, kv)
    ensures DollarsAreKeys(t[n..], kv)
  {
    forall i | 0 <= i < |t[n..]| && t[n..][i] == '$' ensures StartsKey(t[n..][i..], kv) {
      assert t[n..][i..] == t[n + i..];
    }
  }

  /** A template as a sequence of plain characters and keys. */
  datatype Token = Plain(c: char) | Key(k: string)

  ghost predicate AreTokens(ts: seq<Token>, kv: Bindings) {
    forall i :: 0 <= i < |ts| ==> IsToken(ts[i], kv)
  }

  ghost predicate IsToken(t: Token, kv: Bindings) {
    match t case Plain(c) => c != '$' case Key(k) => k in kv
  }

  /** The text in which the keys in `done` are replaced already. */
  ghost function Render(ts: seq<Token>, kv: Bindings, done: set<string>): string
    requires AreTokens(ts, kv)
  {
    if ts == [] then []
    else
      assert IsToken(ts[0], kv);
      var head := match ts[0] case Plain(c) => [c] case Key(k) => if k in done then kv[k] else k;
      head + Render(ts[1..], kv, done)
  }

  /** Every template is made of tokens; replacing all of them is the simultaneous substitution. */
  lemma {:induction false} Tokenize(t: string, kv: Bindings) returns (ts: seq<Token>)
    requires IsTemplate(t, kv)
    ensures AreTokens(ts, kv)
    ensures Render(ts, kv, {}) == t && Render(ts, kv, kv.Keys) == Simultaneous(t, kv)
    decreases |t|
  {
    if t == [] {
      ts := [];
    } else if t[0] == '$' {
      assert t[0..] == t;
      var k := FirstKey(t, kv);
      DollarsAfter(t, kv, |k|);
      var rest := Tokenize(t[|k|..], kv);
      ts := [Key(k)] + rest;
      assert ts[1..] == rest;
      assert t == k + t[|k|..];
    } else {
      DollarsAfter(t, kv, 1);
      var rest := Tokenize(t[1..], kv);
      ts := [Plain(t[0])] + rest;
      assert ts[1..] == rest;
      assert t == [t[0]] + t[1..];
    }
  }

  /** The key with which the simultaneous substitution begins. */
  lemma FirstKey(t: string, kv: Bindings) returns (k: string)
    requires IsTemplate(t, kv) && t != [] && t[0] == '$'
    ensures k in kv && k <= t
    ensures DollarsAreKeys(t[|k|..], kv) && Simultaneous(t, kv) == kv[k] + Simultaneous(t[|k|..], kv)
  {
    assert t[0..] == t;
    assert StartsKey(t, kv);
    k :| k in kv && k <= t;
    DollarsAfter(t, kv, |k|);
    forall k' | k' in kv && k' <= t ensures k' == k { OneKey(t, kv, k, k'); }
  }

  lemma OneKey(t: string, kv: Bindings, k: string, k': string)
    requires AreKeys(kv) && k in kv && k' in kv && k <= t && k' <= t
    ensures k == k'
  {
    assert k <= k' || k' <= k;
  }

  /** One replacement replaces the tokens of its key and nothing else. */
  lemma {:induction false} ReplaceOneKey(ts: seq<Token>, kv: Bindings, done: set<string>, key: string)
    requires AreKeys(kv) && NoneInterfere(kv) && AreTokens(ts, kv) && key in kv && key !in done
    ensures ReplaceAll(Render(ts, kv, done), key, kv[key]) == Render(ts, kv, done + {key})
  {
    assert IsKey(key);
    if kv[key] == key {
      RewriteSelf(Render(ts, kv, done), key);
      RenderSelf(ts, kv, done, key);
    } else if ts != [] {
      ReplaceOneKey(ts[1..], kv, done, key);
      assert IsToken(ts[0], kv);
      var rest := Render(ts[1..], kv, done);
      match ts[0]
      case Plain(c) => RewriteStep([c], rest, key, kv[key]);
      case Key(k) =>
        if k in done {
          SkipValue(kv, k, key, rest);
        } else if k == key {
          assert (k + rest)[|k|..] == rest;
        } else {
          SkipKey(kv, k, key, rest);
        }
    }
  }

  /** A key that stands for itself. */
  lemma {:induction false} RewriteSelf(s: string, key: string)
    requires key != []
    ensures Rewrite(s, key, key) == s
    decreases |s|
  {
    if s == [] {
    } else if key <= s {
      RewriteSelf(s[|key|..], key);
      assert s == key + s[|key|..];
    } else {
      RewriteSelf(s[1..], key);
      assert s == [s[0]] + s[1..];
    }
  }

  lemma {:induction false} RenderSelf(ts: seq<Token>, kv: Bindings, done: set<string>, key: string)
    requires AreTokens(ts, kv) && key in kv && kv[key] == key
    ensures Render(ts, kv, done + {key}) == Render(ts, kv, done)
  {
    if ts != [] {
      assert IsToken(ts[0], kv);
      RenderSelf(ts[1..], kv, done, key);
    }
  }

  /** No key that does not interfere begins in a value. */
  lemma SkipValue(kv: Bindings, k: string, key: string, rest: string)
    requires AreKeys(kv) && k in kv && key in kv && k != key && kv[key] != key && !Interferes(kv, k, key)
    ensures Rewrite(kv[k] + rest, key, kv[key]) == kv[k] + Rewrite(rest, key, kv[key])
  {
    var v := kv[k];
    assert IsKey(key);
    forall i | 0 <= i < |v| ensures !OccursAt(v + rest, key, i) {
      assert !BeginsIn(key, v, i);
      assert (v + rest)[i..] == v[i..] + rest && (v[i..] + rest)[0] == v[i];
    }
    RewriteOver(v, rest, key, kv[key]);
  }

  lemma SkipKey(kv: Bindings, k: string, key: string, rest: string)
    requires AreKeys(kv) && k in kv && key in kv && k != key
    ensures Rewrite(k + rest, key, kv[key]) == k + Rewrite(rest, key, kv[key])
  {
    assert IsKey(k) && IsKey(key);
    if key <= k + rest { OneKey(k + rest, kv, key, k); }
    assert (k + rest)[1..] == k[1..] + rest;
    RewriteStep(k[1..], rest, key, kv[key]);
    assert k == [k[0]] + k[1..];
  }

  function Visited(order: seq<string>, n: nat): set<string>
    requires n <= |order|
  {
    if n == 0 then {} else Visited(order, n - 1) + {order[n - 1]}
  }

  lemma {:induction false} VisitedIs(order: seq<string>, n: nat, k: string)
    requires n <= |order|
    ensures k in Visited(order, n) <==> exists i :: 0 <= i < n && order[i] == k
  {
    if n > 0 { VisitedIs(order, n - 1, k); }
  }

  lemma {:induction false} ReplaceTokens(ts: seq<Token>, kv: Bindings, order: seq<string>, n: nat)
    requires AreKeys(kv) && NoneInterfere(kv) && AreTokens(ts, kv) && IsOrder(order, kv) && n <= |order|
    ensures ReplaceInOrder(Render(ts, kv, {}), kv, order, n) == Render(ts, kv, Visited(order, n))
  {
    if n > 0 {
      ReplaceTokens(ts, kv, order, n - 1);
      VisitedIs(order, n - 1, order[n - 1]);
      assert IsNew(order, n - 1);
      ReplaceOneKey(ts, kv, Visited(order, n - 1), order[n - 1]);
    }
  }

  lemma VisitedAll(kv: Bindings, order: seq<string>)
    requires IsOrder(order, kv)
    ensures Visited(order, |order|) == kv.Keys
  {
    forall k ensures k in Visited(order, |order|) <==> k in kv.Keys {
      VisitedIs(order, |order|, k);
      if k in kv { assert Visits(order, k); }
    }
  }

  /** When no two keys interfere, the outcome is the simultaneous substitution, whatever the order in
      which the map is visited. */
  lemma OrderDoesNotMatter(t: string, kv: Bindings, order: seq<string>)
    requires IsTemplate(t, kv) && NoneInterfere(kv) && IsOrder(order, kv)
    ensures ReplaceInOrder(t, kv, order, |order|) == Simultaneous(t, kv)
  {
    var ts := Tokenize(t, kv);
    ReplaceTokens(ts, kv, order, |order|);
    VisitedAll(kv, order);
  }

  // ---- When two keys interfere the order does matter ----

  /** Two orders of visiting the map give two outcomes for this template. */
  ghost predicate Differs(kv: Bindings, t: string, o: seq<string>, o': seq<string>) {
    && DollarsAreKeys(t, kv) && IsOrder(o, kv) && IsOrder(o', kv)
    && ReplaceInOrder(t, kv, o, |o|) != ReplaceInOrder(t, kv, o', |o'|)
  }

  ghost predicate OrderMatters(kv: Bindings) { exists t, o, o' :: Differs(kv, t, o, o') }

  lemma {:induction false} RewriteLength(s: string, key: string, value: string)
    requires key != []
    ensures |key| <= |value| ==> |s| <= |Rewrite(s, key, value)|
    ensures |value| <= |key| ==> |Rewrite(s, key, value)| <= |s|
    decreases |s|
  {
    if s != [] { RewriteLength(if key <= s then s[|key|..] else s[1..], key, value); }
  }

  /** Replacing a key that occurs by something else is not without effect. */
  lemma {:induction false} RewriteChanges(s: string, key: string, value: string, i: nat)
    requires key != [] && value != key && i <= |s| && OccursAt(s, key, i)
    ensures Rewrite(s, key, value) != s
    decreases |s|
  {
    if key <= s {
      var rest := s[|key|..];
      assert s == key + rest;
      RewriteLength(rest, key, value);
      if |value| == |key| {
        assert (value + Rewrite(rest, key, value))[..|key|] == value;
        assert s[..|key|] == key;
      }
    } else {
      assert 0 < i by { assert s[0..] == s; }
      assert s[1..][i - 1..] == s[i..];
      RewriteChanges(s[1..], key, value, i - 1);
      assert s == [s[0]] + s[1..];
      assert Rewrite(s, key, value)[1..] == Rewrite(s[1..], key, value);
    }
  }

  /** A key followed by text without a dollar sign holds no other key. */
  lemma OnlyKey(kv: Bindings, k: string, w: string, key: string)
    requires AreKeys(kv) && k in kv && key in kv && k != key && NoDollar(w)
    ensures !Contains(k + w, key)
  {
    var t := k + w;
    assert IsKey(k) && IsKey(key);
    assert forall i :: 0 < i < |k| ==> k[1..][i - 1] == t[i];
    forall i | 0 <= i <= |t| ensures !OccursAt(t, key, i) {
      if OccursAt(t, key, i) {
        assert t[i..][0] == t[i] == '$';
        assert t[0..] == t;
        OneKey(t, kv, k, key);
      }
    }
  }

  /** Such a text is a template, and its key is replaced alone. */
  lemma KeyAndText(kv: Bindings, k: string, w: string)
    requires AreKeys(kv) && k in kv && NoDollar(w)
    ensures DollarsAreKeys(k + w, kv) && ReplaceAll(k + w, k, kv[k]) == kv[k] + w
  {
    var t := k + w;
    assert IsKey(k);
    assert forall i :: 0 < i < |k| ==> k[1..][i - 1] == t[i];
    forall i | 0 <= i < |t| && t[i] == '$' ensures StartsKey(t[i..], kv) {
      assert i == 0 && t[0..] == t && k <= t;
    }
    assert t[|k|..] == w && w + [] == w;
    RewriteStep(w, [], k, kv[k]);
  }

  /** The first `n` of the keys visited, without `k0` and `k1`. */
  function Others(order: seq<string>, k0: string, k1: string, n: nat): seq<string>
    requires n <= |order|
  {
    if n == 0 then []
    else
      Others(order, k0, k1, n - 1)
      + if order[n - 1] == k0 || order[n - 1] == k1 then [] else [order[n - 1]]
  }

  lemma {:induction false} OthersAre(order: seq<string>, k0: string, k1: string, n: nat, k: string)
    requires n <= |order|
    ensures k in Others(order, k0, k1, n) <==> k != k0 && k != k1 && k in order[..n]
  {
    if n > 0 {
      OthersAre(order, k0, k1, n - 1, k);
      assert order[..n] == order[..n - 1] + [order[n - 1]];
    }
  }

  lemma RepeatsNone(s: seq<string>, x: string)
    requires NoRepeats(s) && x !in s
    ensures NoRepeats(s + [x])
  {
    var t := s + [x];
    forall i | 0 <= i < |t| ensures IsNew(t, i) {
      assert t[..i] == s[..i];
      if i < |s| { assert IsNew(s, i); } else { assert s[..i] == s; }
    }
  }

  lemma {:induction false} OthersOnce(order: seq<string>, k0: string, k1: string, n: nat)
    requires n <= |order| && NoRepeats(order)
    ensures NoRepeats(Others(order, k0, k1, n))
  {
    if n > 0 {
      var k, front := order[n - 1], Others(order, k0, k1, n - 1);
      OthersOnce(order, k0, k1, n - 1);
      OthersAre(order, k0, k1, n - 1, k);
      assert IsNew(order, n - 1);
      if k != k0 && k != k1 { RepeatsNone(front, k); } else { assert front + [] == front; }
    }
  }

  lemma VisitsIs(order: seq<string>, k: string)
    ensures Visits(order, k) <==> k in order
  {
  }

  /** Two more keys after the others. */
  lemma AndTwo(kv: Bindings, os: seq<string>, a: string, b: string)
    requires NoRepeats(os) && a !in os && b !in os && a != b
    requires forall k :: k in kv <==> k in os || k == a || k == b
    ensures IsOrder(os + [a, b], kv)
  {
    var o := os + [a, b];
    assert o == (os + [a]) + [b];
    RepeatsNone(os, a);
    RepeatsNone(os + [a], b);
    forall k | k in kv ensures Visits(o, k) { VisitsIs(o, k); }
  }

  /** The other keys first, and these two in either order. */
  lemma OthersFirst(kv: Bindings, order: seq<string>, k0: string, k1: string, a: string, b: string)
    requires IsOrder(order, kv) && k0 in kv && k1 in kv && k0 != k1
    requires (a == k0 && b == k1) || (a == k1 && b == k0)
    ensures IsOrder(Others(order, k0, k1, |order|) + [a, b], kv)
  {
    var os := Others(order, k0, k1, |order|);
    OthersOnce(order, k0, k1, |order|);
    OthersAre(order, k0, k1, |order|, a);
    OthersAre(order, k0, k1, |order|, b);
    forall k ensures k in kv <==> k in os || k == a || k == b { SameKeys(kv, order, k0, k1, os, k); }
    AndTwo(kv, os, a, b);
  }

  lemma SameKeys(kv: Bindings, order: seq<string>, k0: string, k1: string, os: seq<string>, k: string)
    requires IsOrder(order, kv) && k0 in kv && k1 in kv && os == Others(order, k0, k1, |order|)
    ensures k in os || k == k0 || k == k1 <==> k in kv
  {
    assert order[..|order|] == order;
    OthersAre(order, k0, k1, |order|, k);
    VisitsIs(order, k);
  }

  /** Visiting keys that do not occur leaves the text alone. */
  lemma {:induction false} NoneOccurs(t: string, kv: Bindings, order: seq<string>, n: nat)
    requires n <= |order| && forall i :: 0 <= i < |order| ==> order[i] in kv
    requires forall i :: 0 <= i < n ==> !Contains(t, order[i])
    ensures ReplaceInOrder(t, kv, order, n) == t
  {
    if n > 0 {
      NoneOccurs(t, kv, order, n - 1);
      AbsentKey(t, order[n - 1], kv[order[n - 1]]);
    }
  }

  lemma OtherIsAbsent(kv: Bindings, order: seq<string>, k0: string, k1: string, w: string, i: nat)
    requires AreKeys(kv) && IsOrder(order, kv) && k0 in kv && NoDollar(w) && i < |Others(order, k0, k1, |order|)|
    ensures !Contains(k0 + w, Others(order, k0, k1, |order|)[i])
  {
    var k := Others(order, k0, k1, |order|)[i];
    OthersAre(order, k0, k1, |order|, k);
    assert order[..|order|] == order;
    OnlyKey(kv, k0, w, k);
  }

  /** The outcome of a key followed by text, when `a` and `b` are visited after all others. */
  lemma LastTwo(kv: Bindings, order: seq<string>, k0: string, k1: string, a: string, b: string, w: string)
    requires AreKeys(kv) && IsOrder(order, kv) && k0 in kv && k1 in kv && k0 != k1 && NoDollar(w)
    requires (a == k0 && b == k1) || (a == k1 && b == k0)
    ensures var o := Others(order, k0, k1, |order|) + [a, b];
            && IsOrder(o, kv)
            && ReplaceInOrder(k0 + w, kv, o, |o|) == ReplaceAll(ReplaceAll(k0 + w, a, kv[a]), b, kv[b])
  {
    var os, t := Others(order, k0, k1, |order|), k0 + w;
    var o, n := os + [a, b], |os|;
    OthersFirst(kv, order, k0, k1, a, b);
    forall i | 0 <= i < n ensures !Contains(t, o[i]) {
      OtherIsAbsent(kv, order, k0, k1, w, i);
      assert o[i] == os[i];
    }
    NoneOccurs(t, kv, o, n);
    TwoMore(t, kv, o, n, a, b);
  }

  lemma TwoMore(t: string, kv: Bindings, o: seq<string>, n: nat, a: string, b: string)
    requires |o| == n + 2 && (forall i :: 0 <= i < |o| ==> o[i] in kv) && o[n] == a && o[n + 1] == b
    requires ReplaceInOrder(t, kv, o, n) == t
    ensures ReplaceInOrder(t, kv, o, |o|) == ReplaceAll(ReplaceAll(t, a, kv[a]), b, kv[b])
  {
    assert ReplaceInOrder(t, kv, o, n + 1) == ReplaceAll(t, a, kv[a]);
  }

  /** What `k1` still needs behind the value of `k0`. */
  function MissingEnd(key: string, v: string, i: nat): (w: string)
    requires i < |v| && BeginsIn(key, v, i)
    ensures key <= v[i..] + w
  {
    if key <= v[i..] then [] else key[|v| - i..]
  }

  lemma MissingEndIsPlain(key: string, v: string, i: nat)
    requires IsKey(key) && i < |v| && BeginsIn(key, v, i)
    ensures NoDollar(MissingEnd(key, v, i))
  {
    var w := MissingEnd(key, v, i);
    assert forall j :: 0 <= j < |w| ==> w[j] == key[1..][|v| - i + j - 1];
  }

  /** With `k1` replaced before `k0` the value stays, and with `k1` replaced after it does not. */
  lemma TwoOutcomes(kv: Bindings, k0: string, k1: string, i: nat, w: string)
    requires AreKeys(kv) && k0 in kv && k1 in kv && k0 != k1 && kv[k1] != k1
    requires i < |kv[k0]| && BeginsIn(k1, kv[k0], i) && w == MissingEnd(k1, kv[k0], i)
    ensures ReplaceAll(ReplaceAll(k0 + w, k1, kv[k1]), k0, kv[k0])
         != ReplaceAll(ReplaceAll(k0 + w, k0, kv[k0]), k1, kv[k1])
  {
    var v := kv[k0];
    assert IsKey(k1);
    MissingEndIsPlain(k1, v, i);
    KeyAndText(kv, k0, w);
    OnlyKey(kv, k0, w, k1);
    AbsentKey(k0 + w, k1, kv[k1]);
    assert (v + w)[i..] == v[i..] + w;
    RewriteChanges(v + w, k1, kv[k1], i);
  }

  /** Interfering keys tell two orders apart: on the first of them, with what the second one misses. */
  lemma OrdersDiffer(kv: Bindings, order: seq<string>, k0: string, k1: string)
    requires AreKeys(kv) && IsOrder(order, kv) && k0 in kv && k1 in kv && Interferes(kv, k0, k1)
    ensures OrderMatters(kv)
  {
    var i :| 0 <= i < |kv[k0]| && BeginsIn(k1, kv[k0], i);
    var w, os := MissingEnd(k1, kv[k0], i), Others(order, k0, k1, |order|);
    assert IsKey(k1);
    MissingEndIsPlain(k1, kv[k0], i);
    LastTwo(kv, order, k0, k1, k1, k0, w);
    LastTwo(kv, order, k0, k1, k0, k1, w);
    TwoOutcomes(kv, k0, k1, i, w);
    KeyAndText(kv, k0, w);
    assert Differs(kv, k0 + w, os + [k1, k0], os + [k0, k1]);
  }

  /** The order in which the map is visited matters for some template if and only if two of its keys
      interfere. `order` is any order of visiting it. */
  lemma OrderMattersIff(kv: Bindings, order: seq<string>)
    requires AreKeys(kv) && IsOrder(order, kv)
    ensures OrderMatters(kv) <==> !NoneInterfere(kv)
  {
    if !NoneInterfere(kv) {
      var k0, k1 :| k0 in kv && k1 in kv && Interferes(kv, k0, k1);
      OrdersDiffer(kv, order, k0, k1);
    }
    if OrderMatters(kv) && NoneInterfere(kv) {
      var t, o, o' :| Differs(kv, t, o, o');
      OrderDoesNotMatter(t, kv, o);
      OrderDoesNotMatter(t, kv, o');
    }
  }

  /** The shortest case: a value that is another key. */
  lemma DollarInValueMatters()
    ensures var kv := map["$A" := "$B", "$B" := "x"];
            && ReplaceInOrder("$A", kv, ["$A", "$B"], 2) == "x"
            && ReplaceInOrder("$A", kv, ["$B", "$A"], 2) == "$B"
  {
    var kv := map["$A" := "$B", "$B" := "x"];
    assert AreKeys(kv) && "$A" + "" == "$A" && "$B" + "" == "$B" && "x" + "" == "x";
    KeyAndText(kv, "$A", "");
    KeyAndText(kv, "$B", "");
    OnlyKey(kv, "$A", "", "$B");
    AbsentKey("$A", "$B", "x");
    assert ReplaceInOrder("$A", kv, ["$A", "$B"], 1) == "$B";
    assert ReplaceInOrder("$A", kv, ["$B", "$A"], 1) == "$A";
  }

  // ---- The registry file ----

  const REGISTRY_KEYS := ["$PRIVATE_REG", "$USERNAME", "$PASSWORD", "$HOMEDIR"]

  /** The values of the four keys, in that order. */
  function RegistryBindings(values: seq<string>): Bindings
    requires |values| == 4
  {
    map["$PRIVATE_REG" := values[0], "$USERNAME" := values[1], "$PASSWORD" := values[2], "$HOMEDIR" := values[3]]
  }

  /** Value `a` has a dollar sign at which key `b` begins, or could with the text behind the value. */
  predicate Clash(values: seq<string>, a: nat, b: nat)
    requires |values| == 4 && a < 4 && b < 4
  {
    a != b && values[b] != REGISTRY_KEYS[b] && Touches(values[a], REGISTRY_KEYS[b])
  }

  lemma RegistryKeys()
    ensures forall a :: 0 <= a < 4 ==> IsKey(REGISTRY_KEYS[a])
    ensures "$PRIVATE_REG"[1] == 'P' && "$PRIVATE_REG"[2] == 'R' && "$USERNAME"[1] == 'U'
    ensures "$PASSWORD"[1] == 'P' && "$PASSWORD"[2] == 'A' && "$HOMEDIR"[1] == 'H'
  {
    assert IsKey("$PRIVATE_REG") && IsKey("$USERNAME") && IsKey("$PASSWORD") && IsKey("$HOMEDIR");
  }

  lemma RegistryOrder(kv: Bindings)
    requires kv.Keys == {"$PRIVATE_REG", "$USERNAME", "$PASSWORD", "$HOMEDIR"}
    ensures IsOrder(REGISTRY_KEYS, kv)
  {
    RegistryKeys();
    forall k | k in kv ensures Visits(REGISTRY_KEYS, k) {
      assert k == REGISTRY_KEYS[0] || k == REGISTRY_KEYS[1] || k == REGISTRY_KEYS[2] || k == REGISTRY_KEYS[3];
    }
    assert IsNew(REGISTRY_KEYS, 0) && IsNew(REGISTRY_KEYS, 1) && IsNew(REGISTRY_KEYS, 2) && IsNew(REGISTRY_KEYS, 3);
  }

  lemma RegistryMap(values: seq<string>)
    requires |values| == 4
    ensures var kv := RegistryBindings(values);
            && AreKeys(kv) && IsOrder(REGISTRY_KEYS, kv)
            && forall a :: 0 <= a < 4 ==> kv[REGISTRY_KEYS[a]] == values[a]
  {
    var kv := RegistryBindings(values);
    RegistryKeys();
    RegistryOrder(kv);
    forall k, k' | k in kv && k' in kv && k <= k' ensures k == k' {
      assert k[1] == k'[1] && k[2] == k'[2];
    }
  }

  /** For the registry file the order matters for some template exactly if one of the four values clashes
      with the key of another. */
  lemma RegistryOrderMatters(values: seq<string>)
    requires |values| == 4
    ensures OrderMatters(RegistryBindings(values))
       <==> exists a, b :: 0 <= a < 4 && 0 <= b < 4 && Clash(values, a, b)
  {
    var kv := RegistryBindings(values);
    RegistryMap(values);
    OrderMattersIff(kv, REGISTRY_KEYS);
    if a, b :| 0 <= a < 4 && 0 <= b < 4 && Clash(values, a, b) {
      assert IsNew(REGISTRY_KEYS, if a < b then b else a);
      assert Interferes(kv, REGISTRY_KEYS[a], REGISTRY_KEYS[b]);
    }
    if !NoneInterfere(kv) {
      var k0, k1 :| k0 in kv && k1 in kv && Interferes(kv, k0, k1);
      var a := PlaceOf(kv, k0);
      var b := PlaceOf(kv, k1);
      assert Clash(values, a, b);
    }
  }

  lemma PlaceOf(kv: Bindings, k: string) returns (a: nat)
    requires IsOrder(REGISTRY_KEYS, kv) && k in kv
    ensures a < 4 && REGISTRY_KEYS[a] == k
  {
    assert Visits(REGISTRY_KEYS, k);
    a :| a < 4 && REGISTRY_KEYS[a] == k;
  }

  /** A dollar sign that another letter than the second one of the key follows is harmless. */
  lemma HarmlessDollar(v: string, b: nat)
    requires b < 4
    requires forall i :: 0 <= i < |v| && v[i] == '$' ==> i + 1 < |v| && v[i + 1] != REGISTRY_KEYS[b][1]
    ensures !Touches(v, REGISTRY_KEYS[b])
  {
    RegistryKeys();
    forall i | 0 <= i < |v| ensures !BeginsIn(REGISTRY_KEYS[b], v, i) {
      if v[i] == '$' { assert v[i..][1] == v[i + 1]; }
    }
  }
}
