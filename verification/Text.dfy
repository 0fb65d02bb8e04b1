/** Go's string searching, splitting, joining and replacing. */
module Text {
  import opened Options

  /** The first index at which `p` occurs in `s`. */
  function IndexOf(s: string, p: string): (r: Option<nat>)
    ensures r.Some? ==> r.value + |p| <= |s|
  {
    if p <= s then Some(0)
    else if s == [] then None
    else match IndexOf(s[1..], p)
      case None => None
      case Some(i) => Some(i + 1)
  }

  predicate OccursAt(s: string, p: string, i: nat)
    requires i <= |s|
  {
    p <= s[i..]
  }

  predicate Contains(s: string, p: string) { exists i :: 0 <= i <= |s| && OccursAt(s, p, i) }

  predicate IsAround(s: string, a: string, p: string, b: string) { s == a + p + b }

  /** Some text, `p`, and some text. */
  ghost predicate Has(s: string, p: string) { exists a, b :: IsAround(s, a, p, b) }

  lemma ContainsMeaning(s: string, p: string)
    ensures Contains(s, p) <==> Has(s, p)
  {
    if i :| 0 <= i <= |s| && OccursAt(s, p, i) {
      assert s == s[..i] + s[i..] && s[i..] == p + s[i..][|p|..];
      assert IsAround(s, s[..i], p, s[i..][|p|..]);
    }
    if a, b :| IsAround(s, a, p, b) {
      assert s[|a|..] == p + b;
      assert OccursAt(s, p, |a|);
    }
  }

  // ---- Splitting, joining and replacing ----

  /** The parts of `s` between the leftmost, non-overlapping occurrences of `sep`. */
  function Split(s: string, sep: string): (parts: seq<string>)
    requires sep != []
    ensures parts != []
    decreases |s|
  {
    match IndexOf(s, sep)
    case None => [s]
    case Some(i) => [s[..i]] + Split(s[i + |sep|..], sep)
  }

  function Join(parts: seq<string>, sep: string): string {
    if parts == [] then [] else if |parts| == 1 then parts[0] else parts[0] + sep + Join(parts[1..], sep)
  }

  /** Leftmost, non-overlapping replacement of a non-empty key. */
  function Rewrite(s: string, key: string, value: string): string
    requires key != []
    decreases |s|
  {
    if s == [] then []
    else if key <= s then value + Rewrite(s[|key|..], key, value)
    else [s[0]] + Rewrite(s[1..], key, value)
  }

  /** An empty key stands before every character and at the end. */
  function Intersperse(s: string, value: string): string {
    if s == [] then value else value + [s[0]] + Intersperse(s[1..], value)
  }

  function ReplaceAll(s: string, key: string, value: string): string {
    if key == [] then Intersperse(s, value) else Rewrite(s, key, value)
  }

  lemma {:induction false} IndexOfMeaning(s: string, p: string)
    ensures IndexOf(s, p).Some? ==> OccursAt(s, p, IndexOf(s, p).value)
    ensures forall i :: 0 <= i <= |s| && (IndexOf(s, p).Some? ==> i < IndexOf(s, p).value) ==> !OccursAt(s, p, i)
  {
    assert s[0..] == s;
    if !(p <= s) && s != [] {
      IndexOfMeaning(s[1..], p);
      forall i | 0 < i <= |s| ensures OccursAt(s, p, i) <==> OccursAt(s[1..], p, i - 1) {
        assert s[i..] == s[1..][i - 1..];
      }
    }
  }

  /** What is first is found. */
  lemma IndexOfIs(s: string, p: string, i: nat)
    requires i <= |s| && OccursAt(s, p, i) && forall k :: 0 <= k < i ==> !OccursAt(s, p, k)
    ensures IndexOf(s, p) == Some(i)
  {
    IndexOfMeaning(s, p);
  }

  lemma {:induction false} RewriteAbsent(s: string, key: string, value: string)
    requires key != [] && !Contains(s, key)
    ensures Rewrite(s, key, value) == s
  {
    if s != [] {
      assert s[0..] == s && !OccursAt(s, key, 0);
      forall i | 0 <= i <= |s[1..]| ensures !OccursAt(s[1..], key, i) {
        assert s[1..][i..] == s[i + 1..];
        assert !OccursAt(s, key, i + 1);
      }
      RewriteAbsent(s[1..], key, value);
    }
  }

  /** Text in which the key does not begin is passed over. */
  lemma {:induction false} RewriteOver(a: string, s: string, key: string, value: string)
    requires key != [] && forall i :: 0 <= i < |a| ==> !OccursAt(a + s, key, i)
    ensures Rewrite(a + s, key, value) == a + Rewrite(s, key, value)
  {
    if a == [] {
      assert a + s == s;
    } else {
      var t := a[1..] + s;
      assert (a + s)[0] == a[0] && (a + s)[1..] == t && (a + s)[0..] == a + s;
      assert !OccursAt(a + s, key, 0);
      forall i | 0 <= i < |a[1..]| ensures !OccursAt(t, key, i) {
        assert t[i..] == (a + s)[i + 1..];
        assert !OccursAt(a + s, key, i + 1);
      }
      RewriteOver(a[1..], s, key, value);
      assert a == [a[0]] + a[1..];
    }
  }

  lemma RewriteStep(a: string, s: string, key: string, value: string)
    requires key != [] && forall i :: 0 <= i < |a| ==> a[i] != key[0]
    ensures Rewrite(a + s, key, value) == a + Rewrite(s, key, value)
  {
    forall i | 0 <= i < |a| ensures !OccursAt(a + s, key, i) {
      assert (a + s)[i..][0] == a[i];
    }
    RewriteOver(a, s, key, value);
  }

  // ---- What splitting and replacing mean ----

  /** Text before the separator, of which no occurrence begins in it. */
  ghost predicate EndsAtFirst(part: string, sep: string) {
    forall k :: 0 <= k < |part| ==> !OccursAt(part + sep, sep, k)
  }

  /** The text is cut at the leftmost, non-overlapping occurrences of `sep`: the parts joined by it are
      the text, it begins in none of them and is not in the last one. */
  ghost predicate IsCut(s: string, sep: string, parts: seq<string>) {
    && parts != [] && Join(parts, sep) == s && !Contains(parts[|parts| - 1], sep)
    && forall i :: 0 <= i < |parts| - 1 ==> EndsAtFirst(parts[i], sep)
  }

  /** What comes after the first `p` has no part in an occurrence that begins before it. */
  lemma SameBefore(a: string, p: string, b: string, b': string, i: nat)
    requires i < |a| && !OccursAt(a + p + b, p, i)
    ensures !OccursAt(a + p + b', p, i)
  {
    var s, s' := a + p + b, a + p + b';
    assert s[i..][..|p|] == s'[i..][..|p|];
  }

  lemma FirstInFront(a: string, sep: string, b: string)
    ensures EndsAtFirst(a, sep) <==> forall i :: 0 <= i < |a| ==> !OccursAt(a + sep + b, sep, i)
  {
    assert a + sep + [] == a + sep;
    forall i | 0 <= i < |a| ensures OccursAt(a + sep + b, sep, i) <==> OccursAt(a + sep, sep, i) {
      if !OccursAt(a + sep + b, sep, i) { SameBefore(a, sep, b, [], i); }
      if !OccursAt(a + sep, sep, i) { SameBefore(a, sep, [], b, i); }
    }
  }

  lemma SplitAt(a: string, sep: string, b: string)
    requires sep != [] && forall i :: 0 <= i < |a| ==> !OccursAt(a + sep + b, sep, i)
    ensures Split(a + sep + b, sep) == [a] + Split(b, sep)
  {
    var s := a + sep + b;
    assert s[|a|..] == sep + b;
    assert OccursAt(s, sep, |a|);
    IndexOfIs(s, sep, |a|);
    assert s[..|a|] == a && s[|a| + |sep|..] == b;
  }

  lemma SplitWhole(s: string, sep: string)
    requires sep != [] && !Contains(s, sep)
    ensures Split(s, sep) == [s]
  {
    IndexOfMeaning(s, sep);
  }

  /** One cut, and no other: the parts that `Split` gives. */
  lemma {:induction false} CutIsSplit(s: string, sep: string, parts: seq<string>)
    requires sep != [] && IsCut(s, sep, parts)
    ensures parts == Split(s, sep)
    decreases |parts|
  {
    if |parts| == 1 {
      SplitWhole(s, sep);
    } else {
      var a, rest := parts[0], parts[1..];
      var b := Join(rest, sep);
      assert EndsAtFirst(a, sep);
      FirstInFront(a, sep, b);
      SplitAt(a, sep, b);
      assert forall i :: 0 <= i < |rest| - 1 ==> EndsAtFirst(rest[i], sep) by {
        forall i | 0 <= i < |rest| - 1 ensures EndsAtFirst(rest[i], sep) { assert EndsAtFirst(parts[i + 1], sep); }
      }
      CutIsSplit(b, sep, rest);
    }
  }

  lemma CutLonger(a: string, b: string, sep: string, rest: seq<string>)
    requires IsCut(b, sep, rest) && EndsAtFirst(a, sep)
    ensures IsCut(a + sep + b, sep, [a] + rest)
  {
    var parts := [a] + rest;
    assert parts[1..] == rest;
    forall i | 0 <= i < |parts| - 1 ensures EndsAtFirst(parts[i], sep) {
      if i > 0 { assert EndsAtFirst(rest[i - 1], sep); }
    }
  }

  lemma {:induction false} SplitIsCut(s: string, sep: string)
    requires sep != []
    ensures IsCut(s, sep, Split(s, sep))
    decreases |s|
  {
    IndexOfMeaning(s, sep);
    match IndexOf(s, sep)
    case None =>
    case Some(i) =>
      var a, b := s[..i], s[i + |sep|..];
      assert s == a + sep + b;
      SplitIsCut(b, sep);
      FirstInFront(a, sep, b);
      CutLonger(a, b, sep, Split(b, sep));
  }

  /** What `Split` gives is the cut of the text, and there is no other cut. */
  lemma SplitMeaning(s: string, sep: string, parts: seq<string>)
    requires sep != []
    ensures IsCut(s, sep, parts) <==> parts == Split(s, sep)
  {
    SplitIsCut(s, sep);
    if IsCut(s, sep, parts) { CutIsSplit(s, sep, parts); }
  }

  lemma RewriteHere(s: string, key: string, value: string)
    requires key != [] && key <= s
    ensures Rewrite(s, key, value) == value + Rewrite(s[|key|..], key, value)
  {
  }

  lemma Associate(a: string, b: string, c: string)
    ensures a + (b + c) == a + b + c
  {
  }

  lemma RewriteFound(s: string, key: string, value: string, i: nat)
    requires key != [] && i + |key| <= |s| && OccursAt(s, key, i) && forall k :: 0 <= k < i ==> !OccursAt(s, key, k)
    ensures Rewrite(s, key, value) == s[..i] + value + Rewrite(s[i + |key|..], key, value)
  {
    var a, b := s[..i], s[i..];
    assert s == a + b;
    RewriteOver(a, b, key, value);
    RewriteHere(b, key, value);
    assert b[|key|..] == s[i + |key|..];
    Associate(a, value, Rewrite(s[i + |key|..], key, value));
  }

  lemma JoinCons(a: string, parts: seq<string>, sep: string)
    requires parts != []
    ensures Join([a] + parts, sep) == a + sep + Join(parts, sep)
  {
    assert ([a] + parts)[1..] == parts;
  }

  lemma SplitFound(s: string, sep: string, i: nat)
    requires sep != [] && i + |sep| <= |s| && OccursAt(s, sep, i) && forall k :: 0 <= k < i ==> !OccursAt(s, sep, k)
    ensures Split(s, sep) == [s[..i]] + Split(s[i + |sep|..], sep)
  {
    var a, b := s[..i], s[i + |sep|..];
    assert s[i..] == sep + b;
    assert s == a + sep + b;
    SplitAt(a, sep, b);
  }

  /** The cut of the text joined by the value: every occurrence of the key is replaced, and nothing else. */
  lemma {:induction false} RewriteJoins(s: string, key: string, value: string)
    requires key != []
    ensures Rewrite(s, key, value) == Join(Split(s, key), value)
    decreases |s|
  {
    match IndexOf(s, key)
    case None =>
      IndexOfMeaning(s, key);
      RewriteAbsent(s, key, value);
    case Some(i) =>
      IndexOfMeaning(s, key);
      SplitFound(s, key, i);
      RewriteFound(s, key, value, i);
      RewriteJoins(s[i + |key|..], key, value);
      JoinCons(s[..i], Split(s[i + |key|..], key), value);
  }

  /** Each character by itself. */
  function Singles(s: string): seq<string> { seq(|s|, i requires 0 <= i < |s| => [s[i]]) }

  lemma {:induction false} IntersperseJoins(s: string, value: string)
    ensures Intersperse(s, value) == value + Join(Singles(s) + [""], value)
  {
    if s == [] {
      assert Singles(s) + [""] == [""];
    } else {
      var rest := Singles(s[1..]) + [""];
      assert (Singles(s) + [""])[1..] == rest;
      IntersperseJoins(s[1..], value);
    }
  }

  /** Replacing all occurrences: the cut of the text at the key, joined by the value. The empty key
      stands before each character and at the end. */
  lemma ReplaceMeaning(s: string, key: string, value: string)
    ensures key != "" ==> IsCut(s, key, Split(s, key)) && ReplaceAll(s, key, value) == Join(Split(s, key), value)
    ensures key == "" ==> ReplaceAll(s, key, value) == Join([""] + Singles(s) + [""], value)
  {
    if key != "" {
      SplitIsCut(s, key);
      RewriteJoins(s, key, value);
    } else {
      IntersperseJoins(s, value);
      var parts := [""] + Singles(s) + [""];
      assert parts[1..] == Singles(s) + [""];
    }
  }

  /** Lower case, as far as a comparison with ASCII text can tell: besides the ASCII letters the dotted
      capital I and the Kelvin sign have ASCII lower-case forms, and no other character has. */
  function LowerChar(c: char): char {
    if 'A' <= c <= 'Z' then c + ('a' - 'A')
    else if c == '\U{130}' then 'i'
    else if c == '\U{212A}' then 'k'
    else c
  }

  function ToLower(s: string): string {
    seq(|s|, i requires 0 <= i < |s| => LowerChar(s[i]))
  }

  /** Each of the capital letters becomes its small one. */
  lemma CapitalsMeaning(i: nat)
    ensures i < 26 ==> LowerChar("ABCDEFGHIJKLMNOPQRSTUVWXYZ"[i]) == "abcdefghijklmnopqrstuvwxyz"[i]
  {
  }

  /** So do two other characters, and every other one stays. */
  lemma LowerMeaning(c: char)
    ensures LowerChar('\U{130}') == 'i' && LowerChar('\U{212A}') == 'k'
    ensures c !in "ABCDEFGHIJKLMNOPQRSTUVWXYZ" && c != '\U{130}' && c != '\U{212A}' ==> LowerChar(c) == c
  {
    if 'A' <= c <= 'Z' {
      assert "ABCDEFGHIJKLMNOPQRSTUVWXYZ"[(c - 'A') as int] == c;
    }
  }

  function TrimPrefix(s: string, p: string): string { if p <= s then s[|p|..] else s }

  // ---- Trimming white space ----

  /** Unicode white space. */
  predicate IsSpace(c: char) {
    || c == ' ' || '\t' <= c <= '\r' || c == '\U{85}' || c == '\U{A0}' || c == '\U{1680}'
    || '\U{2000}' <= c <= '\U{200A}' || c == '\U{2028}' || c == '\U{2029}' || c == '\U{202F}'
    || c == '\U{205F}' || c == '\U{3000}'
  }

  /** All white space there is. */
  lemma SpaceMeaning(c: char)
    ensures IsSpace(c) <==>
              c in "\t\n\U{B}\U{C}\r \U{85}\U{A0}\U{1680}" || c in "\U{2028}\U{2029}\U{202F}\U{205F}\U{3000}"
              || c in "\U{2000}\U{2001}\U{2002}\U{2003}\U{2004}\U{2005}\U{2006}\U{2007}\U{2008}\U{2009}\U{200A}"
  {
  }

  predicate AllSpace(s: string) { forall i :: 0 <= i < |s| ==> IsSpace(s[i]) }

  function TrimLeft(s: string): string {
    if s != [] && IsSpace(s[0]) then TrimLeft(s[1..]) else s
  }

  function TrimRight(s: string): string {
    if s != [] && IsSpace(s[|s| - 1]) then TrimRight(s[..|s| - 1]) else s
  }

  function TrimSpace(s: string): string { TrimRight(TrimLeft(s)) }

  /** It neither begins nor ends with white space. */
  predicate IsTrimmed(s: string) { s != [] ==> !IsSpace(s[0]) && !IsSpace(s[|s| - 1]) }

  lemma {:induction false} TrimLeftSplits(s: string) returns (a: string)
    ensures s == a + TrimLeft(s) && AllSpace(a)
    ensures TrimLeft(s) != [] ==> !IsSpace(TrimLeft(s)[0])
  {
    a := [];
    if s != [] && IsSpace(s[0]) {
      a := TrimLeftSplits(s[1..]);
      a := [s[0]] + a;
    }
  }

  lemma {:induction false} TrimRightSplits(s: string) returns (b: string)
    ensures s == TrimRight(s) + b && AllSpace(b)
    ensures TrimRight(s) != [] ==> !IsSpace(TrimRight(s)[|TrimRight(s)| - 1])
  {
    b := [];
    if s != [] && IsSpace(s[|s| - 1]) {
      b := TrimRightSplits(s[..|s| - 1]);
      b := b + [s[|s| - 1]];
    }
  }

  /** Trimming takes white space off both ends and leaves none there. */
  lemma TrimSplits(s: string) returns (a: string, b: string)
    ensures s == a + TrimSpace(s) + b && AllSpace(a) && AllSpace(b) && IsTrimmed(TrimSpace(s))
  {
    a := TrimLeftSplits(s);
    b := TrimRightSplits(TrimLeft(s));
    var t := TrimSpace(s);
    assert t != [] ==> t[0] == TrimLeft(s)[0];
  }

  lemma {:induction false} TrimLeftOff(a: string, c: string)
    requires AllSpace(a) && (c != [] ==> !IsSpace(c[0]))
    ensures TrimLeft(a + c) == c
  {
    if a == [] {
      assert a + c == c;
    } else {
      assert (a + c)[1..] == a[1..] + c;
      TrimLeftOff(a[1..], c);
    }
  }

  lemma {:induction false} TrimRightOff(c: string, b: string)
    requires AllSpace(b) && (c != [] ==> !IsSpace(c[|c| - 1]))
    ensures TrimRight(c + b) == c
  {
    if b == [] {
      assert c + b == c;
    } else {
      var n := |b| - 1;
      assert (c + b)[..|c + b| - 1] == c + b[..n];
      TrimRightOff(c, b[..n]);
    }
  }

  /** Whatever is between the white space comes out. */
  lemma TrimOff(a: string, c: string, b: string)
    requires AllSpace(a) && AllSpace(b) && c != [] && IsTrimmed(c)
    ensures TrimSpace(a + c + b) == c
  {
    assert a + c + b == a + (c + b);
    TrimLeftOff(a, c + b);
    TrimRightOff(c, b);
  }
}
