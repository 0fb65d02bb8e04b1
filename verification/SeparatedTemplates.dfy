/** Templates in which no key runs into the text after it, as in the registry configuration, where a quote,
    a slash or a line break follows every key. What a value ends in does no harm there. */
module SeparatedTemplates {
  import opened Options
  import opened Substitution
  import opened Text

  /** A character that is in no key. */
  ghost predicate IsSeparator(c: char, kv: Bindings) { forall k :: k in kv ==> c !in k }

  /** Every key in `t` ends the text, or a separator comes after it. */
  ghost predicate IsSeparated(t: string, kv: Bindings) {
    forall k, i :: k in kv && 0 <= i <= |t| && OccursAt(t, k, i) ==> EndsThere(t, i + |k|, kv)
  }

  ghost predicate EndsThere(t: string, i: nat, kv: Bindings) { i < |t| ==> IsSeparator(t[i], kv) }

  /** A value has another key in it, one that does not stand for itself. */
  predicate HoldsKey(kv: Bindings, k0: string, k1: string)
    requires k0 in kv && k1 in kv
  {
    k0 != k1 && kv[k1] != k1 && Contains(kv[k0], k1)
  }

  ghost predicate NoneHolds(kv: Bindings) { forall k0, k1 :: k0 in kv && k1 in kv ==> !HoldsKey(kv, k0, k1) }

  // ---- The tokens of a separated template ----

  /** A separator, or nothing, comes after every key. */
  ghost predicate AreSeparated(ts: seq<Token>, kv: Bindings) {
    forall i :: 0 <= i < |ts| - 1 && ts[i].Key? ==> IsPlainSeparator(ts[i + 1], kv)
  }

  ghost predicate IsPlainSeparator(t: Token, kv: Bindings) { t.Plain? && IsSeparator(t.c, kv) }

  lemma IsSeparatedTail(t: string, kv: Bindings, n: nat)
    requires n <= |t| && IsSeparated(t, kv)
    ensures IsSeparated(t[n..], kv)
  {
    var s := t[n..];
    forall k, i | k in kv && 0 <= i <= |s| && OccursAt(s, k, i) ensures EndsThere(s, i + |k|, kv) {
      assert s[i..] == t[n + i..];
      assert OccursAt(t, k, n + i) && EndsThere(t, n + i + |k|, kv);
    }
  }

  /** What a token looks like in the template. */
  function TextOf(t: Token): string { match t case Plain(c) => [c] case Key(k) => k }

  lemma {:induction false} TokensAreSeparated(ts: seq<Token>, kv: Bindings)
    requires AreKeys(kv) && AreTokens(ts, kv) && IsSeparated(Render(ts, kv, {}), kv)
    ensures AreSeparated(ts, kv)
  {
    if ts != [] {
      var head, rest := TextOf(ts[0]), Render(ts[1..], kv, {});
      assert IsToken(ts[0], kv) && Render(ts, kv, {}) == head + rest && (head + rest)[|head|..] == rest;
      IsSeparatedTail(head + rest, kv, |head|);
      TokensAreSeparated(ts[1..], kv);
      if ts[0].Key? && 1 < |ts| {
        SeparatorAfter(kv, ts, rest);
      }
      forall i | 0 <= i < |ts| - 1 && ts[i].Key? ensures IsPlainSeparator(ts[i + 1], kv) {
        if i > 0 { assert ts[1..][i - 1] == ts[i] && ts[1..][i] == ts[i + 1]; }
      }
    }
  }

  lemma SeparatorAfter(kv: Bindings, ts: seq<Token>, rest: string)
    requires AreKeys(kv) && AreTokens(ts, kv) && 1 < |ts| && ts[0].Key? && rest == Render(ts[1..], kv, {})
    requires IsSeparated(ts[0].k + rest, kv)
    ensures IsPlainSeparator(ts[1], kv)
  {
    var k, t := ts[0].k, ts[0].k + rest;
    assert IsToken(ts[0], kv) && IsToken(ts[1], kv);
    assert ts[1].Key? ==> IsKey(ts[1].k);
    assert ts[1..][0] == ts[1] && rest == TextOf(ts[1]) + Render(ts[1..][1..], kv, {});
    var c := t[|k|];
    assert c == rest[0] == TextOf(ts[1])[0] && c in TextOf(ts[1]);
    assert t[0..] == t && OccursAt(t, k, 0) && EndsThere(t, |k|, kv);
  }

  // ---- Replacing one key after the other ----

  /** A key that no value holds does not begin in one either, with a separator behind the value. */
  lemma SkipSeparated(kv: Bindings, k: string, key: string, rest: string)
    requires AreKeys(kv) && k in kv && key in kv && !Contains(kv[k], key)
    requires rest != [] ==> IsSeparator(rest[0], kv)
    ensures Rewrite(kv[k] + rest, key, kv[key]) == kv[k] + Rewrite(rest, key, kv[key])
  {
    var v := kv[k];
    assert IsKey(key);
    forall i | 0 <= i < |v| ensures !OccursAt(v + rest, key, i) {
      assert !OccursAt(v, key, i) && (v + rest)[i..] == v[i..] + rest;
      if |v| - i < |key| && rest != [] {
        assert key[|v| - i] in key && rest[0] !in key;
        assert (v[i..] + rest)[|v| - i] == rest[0];
      }
    }
    RewriteOver(v, rest, key, kv[key]);
  }

  /** What comes after the first token begins with a separator if that is a key. */
  lemma RestSeparated(ts: seq<Token>, kv: Bindings, done: set<string>)
    requires AreTokens(ts, kv) && AreSeparated(ts, kv) && ts != [] && ts[0].Key?
    ensures var rest := Render(ts[1..], kv, done); rest != [] ==> IsSeparator(rest[0], kv)
  {
    if 1 < |ts| {
      assert IsPlainSeparator(ts[1], kv) && ts[1..][0] == ts[1];
    }
  }

  lemma {:induction false} ReplaceOneSeparated(ts: seq<Token>, kv: Bindings, done: set<string>, key: string)
    requires AreKeys(kv) && NoneHolds(kv) && AreTokens(ts, kv) && AreSeparated(ts, kv) && key in kv && key !in done
    ensures ReplaceAll(Render(ts, kv, done), key, kv[key]) == Render(ts, kv, done + {key})
  {
    assert IsKey(key);
    if kv[key] == key {
      RewriteSelf(Render(ts, kv, done), key);
      RenderSelf(ts, kv, done, key);
    } else if ts != [] {
      SeparatedTail(ts, kv);
      ReplaceOneSeparated(ts[1..], kv, done, key);
      assert IsToken(ts[0], kv);
      var rest := Render(ts[1..], kv, done);
      match ts[0]
      case Plain(c) => RewriteStep([c], rest, key, kv[key]);
      case Key(k) =>
        if k in done {
          RestSeparated(ts, kv, done);
          assert !HoldsKey(kv, k, key);
          SkipSeparated(kv, k, key, rest);
        } else if k == key {
          assert (k + rest)[|k|..] == rest;
        } else {
          SkipKey(kv, k, key, rest);
        }
    }
  }

  lemma SeparatedTail(ts: seq<Token>, kv: Bindings)
    requires AreSeparated(ts, kv) && ts != []
    ensures AreSeparated(ts[1..], kv)
  {
    forall i | 0 <= i < |ts[1..]| - 1 && ts[1..][i].Key? ensures IsPlainSeparator(ts[1..][i + 1], kv) {
      assert ts[1..][i] == ts[i + 1] && ts[1..][i + 1] == ts[i + 2];
    }
  }

  lemma {:induction false} ReplaceSeparated(ts: seq<Token>, kv: Bindings, order: seq<string>, n: nat)
    requires AreKeys(kv) && NoneHolds(kv) && AreTokens(ts, kv) && AreSeparated(ts, kv)
    requires IsOrder(order, kv) && n <= |order|
    ensures ReplaceInOrder(Render(ts, kv, {}), kv, order, n) == Render(ts, kv, Visited(order, n))
  {
    if n > 0 {
      ReplaceSeparated(ts, kv, order, n - 1);
      VisitedIs(order, n - 1, order[n - 1]);
      assert IsNew(order, n - 1);
      ReplaceOneSeparated(ts, kv, Visited(order, n - 1), order[n - 1]);
    }
  }

  /** For a given separated template: when no value holds another key, every order gives the simultaneous
      substitution, whatever the values end in. */
  lemma SeparatedOrderDoesNotMatter(t: string, kv: Bindings, order: seq<string>)
    requires IsTemplate(t, kv) && IsSeparated(t, kv) && NoneHolds(kv) && IsOrder(order, kv)
    ensures ReplaceInOrder(t, kv, order, |order|) == Simultaneous(t, kv)
  {
    var ts := Tokenize(t, kv);
    TokensAreSeparated(ts, kv);
    ReplaceSeparated(ts, kv, order, |order|);
    VisitedAll(kv, order);
  }

  // ---- And no less will do ----

  ghost predicate SeparatedOrderMatters(kv: Bindings) {
    exists t, o, o' :: Differs(kv, t, o, o') && IsSeparated(t, kv)
  }

  lemma KeyIsSeparated(kv: Bindings, k0: string)
    requires AreKeys(kv) && k0 in kv
    ensures IsSeparated(k0, kv)
  {
    assert k0 + "" == k0;
    forall k, i | k in kv && 0 <= i <= |k0| && OccursAt(k0, k, i) ensures EndsThere(k0, i + |k|, kv) {
      if k != k0 { OnlyKey(kv, k0, "", k); }
    }
  }

  lemma HeldKeyTells(kv: Bindings, order: seq<string>, k0: string, k1: string)
    requires AreKeys(kv) && IsOrder(order, kv) && k0 in kv && k1 in kv && HoldsKey(kv, k0, k1)
    ensures SeparatedOrderMatters(kv)
  {
    var v, os := kv[k0], Others(order, k0, k1, |order|);
    assert IsKey(k1);
    var i :| 0 <= i <= |v| && OccursAt(v, k1, i);
    assert v[i..] != [] && v[i] == v[i..][0] == '$';
    LastTwo(kv, order, k0, k1, k1, k0, "");
    LastTwo(kv, order, k0, k1, k0, k1, "");
    TwoOutcomes(kv, k0, k1, i, "");
    KeyAndText(kv, k0, "");
    assert k0 + "" == k0;
    KeyIsSeparated(kv, k0);
    assert Differs(kv, k0, os + [k1, k0], os + [k0, k1]);
  }

  /** The order in which the map is visited matters for some separated template if and only if a value
      holds another key. */
  lemma SeparatedOrderMattersIff(kv: Bindings, order: seq<string>)
    requires AreKeys(kv) && IsOrder(order, kv)
    ensures SeparatedOrderMatters(kv) <==> !NoneHolds(kv)
  {
    if !NoneHolds(kv) {
      var k0, k1 :| k0 in kv && k1 in kv && HoldsKey(kv, k0, k1);
      HeldKeyTells(kv, order, k0, k1);
    }
    if SeparatedOrderMatters(kv) && NoneHolds(kv) {
      var t, o, o' :| Differs(kv, t, o, o') && IsSeparated(t, kv);
      SeparatedOrderDoesNotMatter(t, kv, o);
      SeparatedOrderDoesNotMatter(t, kv, o');
    }
  }

  // ---- The registry file ----

  /** For a separated template of the registry configuration the order does not matter unless one of the
      four values holds the key of another. */
  lemma RegistryTemplate(values: seq<string>, t: string, order: seq<string>)
    requires |values| == 4 && IsOrder(order, RegistryBindings(values))
    requires DollarsAreKeys(t, RegistryBindings(values)) && IsSeparated(t, RegistryBindings(values))
    requires forall a, b :: 0 <= a < 4 && 0 <= b < 4 ==> !HoldsOther(values, a, b)
    ensures AreKeys(RegistryBindings(values))
    ensures ReplaceInOrder(t, RegistryBindings(values), order, |order|) == Simultaneous(t, RegistryBindings(values))
  {
    var kv := RegistryBindings(values);
    RegistryMap(values);
    forall k0, k1 | k0 in kv && k1 in kv ensures !HoldsKey(kv, k0, k1) {
      var a := PlaceOf(kv, k0);
      var b := PlaceOf(kv, k1);
      assert !HoldsOther(values, a, b);
    }
    SeparatedOrderDoesNotMatter(t, kv, order);
  }

  /** Value `a` has key `b` in it. */
  predicate HoldsOther(values: seq<string>, a: nat, b: nat)
    requires |values| == 4 && a < 4 && b < 4
  {
    a != b && values[b] != REGISTRY_KEYS[b] && Contains(values[a], REGISTRY_KEYS[b])
  }

  /** A quote, a slash and a line break are separators there. */
  lemma RegistrySeparators(values: seq<string>)
    requires |values| == 4
    ensures var kv := RegistryBindings(values);
            IsSeparator('"', kv) && IsSeparator('/', kv) && IsSeparator('\n', kv)
  {
    var kv := RegistryBindings(values);
    forall k | k in kv ensures '"' !in k && '/' !in k && '\n' !in k {
      assert k == REGISTRY_KEYS[0] || k == REGISTRY_KEYS[1] || k == REGISTRY_KEYS[2] || k == REGISTRY_KEYS[3];
    }
  }
}
