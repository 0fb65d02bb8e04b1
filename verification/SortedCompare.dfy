/** Comparing two listings of nodes regardless of order: the lines are cut down to their first field,
    sorted, and compared place by place. */
module SortedCompare {
  import opened StringOrder
  import opened Text

  // ---- The key of a line ----

  /** The characters up to the first white space. */
  function Word(s: string): string {
    if s == [] || IsSpace(s[0]) then [] else [s[0]] + Word(s[1..])
  }

  /** The first field of a line, or the line itself if it has none. */
  function KeyOf(line: string): string {
    var field := Word(TrimLeft(line));
    if field == [] then line else field
  }

  /** White space, a word, and nothing or white space and more. */
  predicate IsField(line: string, a: string, w: string, b: string) {
    && line == a + w + b && AllSpace(a) && w != [] && (forall k :: 0 <= k < |w| ==> !IsSpace(w[k]))
    && (b != [] ==> IsSpace(b[0]))
  }

  ghost predicate IsFirstField(line: string, w: string) { exists a, b :: IsField(line, a, w, b) }

  lemma {:induction false} WordSplits(s: string) returns (b: string)
    ensures s == Word(s) + b && (b != [] ==> IsSpace(b[0]))
    ensures forall k :: 0 <= k < |Word(s)| ==> !IsSpace(Word(s)[k])
  {
    b := s;
    if s != [] && !IsSpace(s[0]) { b := WordSplits(s[1..]); }
  }

  lemma {:induction false} WordOf(w: string, b: string)
    requires (forall k :: 0 <= k < |w| ==> !IsSpace(w[k])) && (b != [] ==> IsSpace(b[0]))
    ensures Word(w + b) == w
  {
    if w == [] {
      assert w + b == b;
    } else {
      assert (w + b)[1..] == w[1..] + b;
      WordOf(w[1..], b);
    }
  }

  lemma FieldIsKey(line: string, a: string, w: string, b: string)
    requires IsField(line, a, w, b)
    ensures KeyOf(line) == w
  {
    assert line == a + (w + b);
    TrimLeftOff(a, w + b);
    WordOf(w, b);
  }

  /** The key of a line is its first field, and a line that has none is its own key. */
  lemma KeyMeaning(line: string, w: string)
    ensures KeyOf(line) == w <==> if AllSpace(line) then w == line else IsFirstField(line, w)
  {
    var a := TrimLeftSplits(line);
    var b := WordSplits(TrimLeft(line));
    var first := Word(TrimLeft(line));
    if AllSpace(line) {
      NothingLeft(line);
    } else {
      assert first != [];
      assert line == a + first + b;
      assert IsField(line, a, first, b);
      if IsFirstField(line, w) {
        var x, y :| IsField(line, x, w, y);
        FieldIsKey(line, x, w, y);
      }
    }
  }

  lemma {:induction false} NothingLeft(s: string)
    requires AllSpace(s)
    ensures TrimLeft(s) == []
  {
    if s != [] { NothingLeft(s[1..]); }
  }

  function KeysOf(lines: seq<string>): seq<string> {
    seq(|lines|, i requires 0 <= i < |lines| => KeyOf(lines[i]))
  }

  function Keys(text: string): seq<string> { KeysOf(Split(text, "\n")) }

  // ---- Sorting ----

  ghost predicate Sorted(s: seq<string>) {
    forall i, j :: 0 <= i < j < |s| ==> InOrder(s, i, j)
  }

  predicate InOrder(s: seq<string>, i: nat, j: nat)
    requires i < |s| && j < |s|
  {
    AtMost(s[i], s[j])
  }

  lemma AtMostTransitive(a: string, b: string, c: string)
    requires AtMost(a, b) && AtMost(b, c)
    ensures AtMost(a, c)
  {
    if a != b && b != c { LessTransitive(a, b, c); }
  }

  lemma AtMostAntisymmetric(a: string, b: string)
    requires AtMost(a, b) && AtMost(b, a)
    ensures a == b
  {
    if a != b {
      LessTransitive(a, b, a);
      LessIrreflexive(a);
    }
  }

  /** The place of `x` in a sorted list. */
  method FindPlace(s: seq<string>, x: string) returns (p: nat)
    requires Sorted(s)
    ensures p <= |s|
    ensures forall i :: 0 <= i < p ==> AtMost(s[i], x)
    ensures forall i :: p <= i < |s| ==> AtMost(x, s[i])
  {
    p := |s|;
    while p > 0 && Less(x, s[p - 1])
      invariant p <= |s| && forall i :: p <= i < |s| ==> AtMost(x, s[i])
    {
      p := p - 1;
    }
    forall i | 0 <= i < p ensures AtMost(s[i], x) {
      NotAtMost(s[p - 1], x);
      if i < p - 1 {
        assert InOrder(s, i, p - 1);
        AtMostTransitive(s[i], s[p - 1], x);
      }
    }
  }

  lemma InsertSorted(s: seq<string>, x: string, p: nat)
    requires Sorted(s) && p <= |s|
    requires (forall i :: 0 <= i < p ==> AtMost(s[i], x)) && forall i :: p <= i < |s| ==> AtMost(x, s[i])
    ensures Sorted(s[..p] + [x] + s[p..]) && multiset(s[..p] + [x] + s[p..]) == multiset(s) + multiset{x}
  {
    var r := s[..p] + [x] + s[p..];
    forall i, j | 0 <= i < j < |r| ensures InOrder(r, i, j) {
      if i != p && j != p { assert InOrder(s, if i < p then i else i - 1, if j < p then j else j - 1); }
    }
    assert s[..p] + s[p..] == s;
  }

  method SortStrings(s: seq<string>) returns (r: seq<string>)
    ensures Sorted(r) && multiset(r) == multiset(s)
  {
    r := [];
    for n := 0 to |s|
      invariant Sorted(r) && multiset(r) == multiset(s[..n])
    {
      var p := FindPlace(r, s[n]);
      InsertSorted(r, s[n], p);
      assert s[..n + 1] == s[..n] + [s[n]];
      r := r[..p] + [s[n]] + r[p..];
    }
    assert s[..|s|] == s;
  }

  /** A multiset has one sorted listing only. */
  lemma {:induction false} SortedUnique(a: seq<string>, b: seq<string>)
    requires Sorted(a) && Sorted(b) && multiset(a) == multiset(b)
    ensures a == b
  {
    assert |a| == |multiset(a)| == |multiset(b)| == |b|;
    if a != [] {
      FirstIsLeast(a, b);
      FirstIsLeast(b, a);
      AtMostAntisymmetric(a[0], b[0]);
      assert a == [a[0]] + a[1..] && b == [b[0]] + b[1..];
      TailSorted(a);
      TailSorted(b);
      assert multiset(a[1..]) == multiset(a) - multiset{a[0]};
      assert multiset(b[1..]) == multiset(b) - multiset{b[0]};
      SortedUnique(a[1..], b[1..]);
    }
  }

  lemma FirstIsLeast(a: seq<string>, b: seq<string>)
    requires Sorted(a) && multiset(a) == multiset(b) && a != [] && b != []
    ensures AtMost(a[0], b[0])
  {
    assert b[0] in multiset(a);
    var i :| 0 <= i < |a| && a[i] == b[0];
    if i > 0 { assert InOrder(a, 0, i); }
  }

  lemma TailSorted(a: seq<string>)
    requires Sorted(a) && a != []
    ensures Sorted(a[1..])
  {
    forall i, j | 0 <= i < j < |a[1..]| ensures InOrder(a[1..], i, j) {
      assert InOrder(a, i + 1, j + 1);
    }
  }

  // ---- The comparison ----

  /** The lines, each overwritten by its key. */
  method CutToKeys(lines: seq<string>) returns (s: seq<string>)
    ensures s == KeysOf(lines)
  {
    s := lines;
    for i := 0 to |lines|
      invariant |s| == |lines|
      invariant forall k :: 0 <= k < i ==> s[k] == KeyOf(lines[k])
      invariant forall k :: i <= k < |lines| ==> s[k] == lines[k]
    {
      var field := Word(TrimLeft(s[i]));
      if |field| > 0 {
        s := s[i := field];
      }
    }
  }

  /** The listings agree exactly if they hold the same keys, each as often. */
  method ValidateNodesEqual(taints: string, nodeNames: string) returns (equal: bool)
    ensures equal <==> multiset(Keys(taints)) == multiset(Keys(nodeNames))
  {
    var s1 := CutToKeys(Split(taints, "\n"));
    var s2 := CutToKeys(Split(nodeNames, "\n"));
    if |s1| != |s2| {
      assert |multiset(s1)| == |s1| && |multiset(s2)| == |s2|;
      return false;
    }
    var r1 := SortStrings(s1);
    var r2 := SortStrings(s2);
    assert |multiset(r1)| == |r1| && |multiset(r2)| == |r2|;
    if multiset(s1) == multiset(s2) { SortedUnique(r1, r2); }
    equal := SamePlaceByPlace(r1, r2);
  }

  method SamePlaceByPlace(r1: seq<string>, r2: seq<string>) returns (same: bool)
    requires |r1| == |r2|
    ensures same <==> r1 == r2
  {
    for i := 0 to |r1|
      invariant forall k :: 0 <= k < i ==> r1[k] == r2[k]
    {
      if r1[i] != r2[i] {
        return false;
      }
    }
    return true;
  }
}
