/** Removal of terminal escape sequences, `\x1b\[[0-9;]*[mK]` replaced by nothing, and what happens
    to it when the text arrives in chunks that are cleaned one at a time. */
module AnsiCleaner {
  import opened Options

  const ESC: char := '\U{1B}'

  predicate IsParam(c: char) { '0' <= c <= '9' || c == ';' }

  predicate IsFinal(c: char) { c == 'm' || c == 'K' }

  /** An escape sequence of length `n` stands at index `i` of `s`. */
  predicate EscapeAt(s: string, i: nat, n: nat) {
    && 3 <= n && i + n <= |s|
    && s[i] == ESC && s[i + 1] == '['
    && IsFinal(s[i + n - 1])
    && forall k :: i + 2 <= k < i + n - 1 ==> IsParam(s[k])
  }

  /** One past the final character that ends the run of parameter characters from `i`. */
  function FinalAt(s: string, i: nat): (end: Option<nat>)
    requires i <= |s|
    ensures end.Some? ==> i < end.value <= |s| && IsFinal(s[end.value - 1])
    ensures end.Some? ==> forall k :: i <= k < end.value - 1 ==> IsParam(s[k])
    ensures end.None? ==> forall m :: i <= m < |s| && IsFinal(s[m]) ==> exists k :: i <= k < m && !IsParam(s[k])
    decreases |s| - i
  {
    if i == |s| then None
    else if IsFinal(s[i]) then Some(i + 1)
    else if IsParam(s[i]) then FinalAt(s, i + 1)
    else None
  }

  /** The length of the escape sequence that `s` begins with. */
  function EscapeLength(s: string): (n: Option<nat>)
    ensures n.Some? ==> EscapeAt(s, 0, n.value)
    ensures n.None? ==> forall k: nat :: !EscapeAt(s, 0, k)
  {
    if 2 <= |s| && s[0] == ESC && s[1] == '[' then FinalAt(s, 2) else None
  }

  /** Leftmost, non-overlapping removal. */
  function Clean(s: string): string {
    if s == [] then []
    else match EscapeLength(s)
      case Some(n) => Clean(s[n..])
      case None => [s[0]] + Clean(s[1..])
  }

  /** The cut between `a` and `b` falls inside an escape sequence of `a + b`. */
  ghost predicate CutsEscape(a: string, b: string) {
    exists i: nat, n: nat :: i < |a| < i + n && EscapeAt(a + b, i, n)
  }

  /** Two sequences that start at the same place are the same one. */
  lemma EscapeLengthUnique(s: string, k: nat)
    requires EscapeAt(s, 0, k)
    ensures EscapeLength(s) == Some(k)
  {
    var n := EscapeLength(s).value;
    assert IsFinal(s[n - 1]) && IsFinal(s[k - 1]);
  }

  /** Text without the escape character is left alone. */
  lemma {:induction false} CleanPlain(p: string, t: string)
    requires ESC !in p
    ensures Clean(p + t) == p + Clean(t)
  {
    if p == [] {
      assert p + t == t;
    } else {
      assert (p + t)[1..] == p[1..] + t;
      CleanPlain(p[1..], t);
    }
  }

  /** The escape character, a bracket, any digits and semicolons, and `m` or `K`. */
  predicate IsEscape(e: string, params: string, end: char) {
    && e == "\U{1B}[" + params + [end]
    && (end == 'm' || end == 'K')
    && forall k :: 0 <= k < |params| ==> params[k] in "0123456789;"
  }

  ghost predicate IsAnEscape(e: string) { exists params, end :: IsEscape(e, params, end) }

  lemma EscapeIsThere(s: string, i: nat, n: nat, params: string, end: char)
    requires i + n <= |s| && IsEscape(s[i..i + n], params, end)
    ensures EscapeAt(s, i, n)
  {
    var e := s[i..i + n];
    assert forall k :: 0 <= k < n ==> e[k] == s[i + k];
    forall k | i + 2 <= k < i + n - 1 ensures IsParam(s[k]) {
      assert s[k] == e[k - i] == params[k - i - 2];
    }
  }

  lemma EscapeMeaning(s: string, i: nat, n: nat)
    requires i + n <= |s|
    ensures EscapeAt(s, i, n) <==> IsAnEscape(s[i..i + n])
  {
    if EscapeAt(s, i, n) {
      var params := s[i + 2..i + n - 1];
      assert s[i..i + n] == "\U{1B}[" + params + [s[i + n - 1]];
      assert forall k :: 0 <= k < |params| ==> IsParam(params[k]);
      assert IsEscape(s[i..i + n], params, s[i + n - 1]);
    }
    var e := s[i..i + n];
    if params, end :| IsEscape(e, params, end) { EscapeIsThere(s, i, n, params, end); }
  }

  /** No escape sequence begins the text. */
  ghost predicate BeginsPlain(s: string) { forall k: nat :: k <= |s| ==> !IsAnEscape(s[..k]) }

  /** An escape sequence at the front goes. */
  lemma EscapeGoes(s: string, n: nat)
    requires n <= |s| && IsAnEscape(s[..n])
    ensures Clean(s) == Clean(s[n..])
  {
    assert s[0..0 + n] == s[..n];
    EscapeMeaning(s, 0, n);
    EscapeLengthUnique(s, n);
  }

  lemma LengthIsEscape(s: string)
    requires EscapeLength(s).Some?
    ensures IsAnEscape(s[..EscapeLength(s).value])
  {
    var n := EscapeLength(s).value;
    EscapeMeaning(s, 0, n);
    assert s[0..0 + n] == s[..n];
  }

  /** A character at which none begins stays. With the other one, this is all there is to cleaning. */
  lemma PlainStays(s: string)
    requires s != [] && BeginsPlain(s)
    ensures Clean(s) == [s[0]] + Clean(s[1..])
  {
    if EscapeLength(s).Some? { LengthIsEscape(s); }
  }

  /** The part of an escape sequence before a cut is no escape sequence, nor the part after it the
      beginning of one. */
  lemma TornEscape(s: string, n: nat, m: nat)
    requires EscapeAt(s, 0, n) && 0 < m < n
    ensures ESC !in s[1..m] && ESC !in s[m..n] && EscapeLength(s[..m]).None?
  {
    assert forall k :: 0 <= k < m ==> s[..m][k] == s[k];
  }

  /** A cut inside the escape sequence that starts at the first character of `a`. */
  lemma CutAtFront(a: string, b: string, n: nat)
    requires a != [] && EscapeAt(a + b, 0, n) && |a| < n
    ensures CutsEscape(a, b)
    ensures Clean(a) == a && |Clean(a + b)| < |Clean(a)| + |Clean(b)|
  {
    var s, j := a + b, n - |a|;
    EscapeLengthUnique(s, n);
    TornEscape(s, n, |a|);
    assert s[..|a|] == a && s[1..|a|] == a[1..] && s[|a|..n] == b[..j] && s[n..] == b[j..];
    CleanPlain(a[1..], []);
    assert a[1..] + [] == a[1..];
    CleanPlain(b[..j], b[j..]);
    assert b[..j] + b[j..] == b;
  }

  /** Peeling off the front of `a` a stretch in which no cut escape sequence starts. */
  lemma CutsEscapeTail(a: string, b: string, p: nat)
    requires 0 < p <= |a|
    requires forall i: nat, n: nat :: i < p && |a| < i + n ==> !EscapeAt(a + b, i, n)
    ensures CutsEscape(a, b) <==> CutsEscape(a[p..], b)
  {
    var t := a[p..] + b;
    assert t == (a + b)[p..];
    if CutsEscape(a, b) {
      var i: nat, n: nat :| i < |a| < i + n && EscapeAt(a + b, i, n);
      assert p <= i;
      assert EscapeAt(t, i - p, n);
    }
    if CutsEscape(a[p..], b) {
      var i: nat, n: nat :| i < |a| - p < i + n && EscapeAt(t, i, n);
      assert forall k :: i <= k < |t| ==> t[k] == (a + b)[p + k];
      assert forall k :: p + i <= k < |a + b| ==> (a + b)[k] == t[k - p];
      assert EscapeAt(a + b, p + i, n);
    }
  }

  /** Both ways of cleaning treat the first `p` characters of `a` alike. */
  lemma CleanPeel(a: string, b: string, p: nat)
    requires a != []
    requires p == (match EscapeLength(a + b) case Some(n) => n case None => 1)
    requires p <= |a|
    ensures (a + b)[p..] == a[p..] + b
    ensures EscapeLength(a) == EscapeLength(a + b)
    ensures CutsEscape(a, b) <==> CutsEscape(a[p..], b)
  {
    var s := a + b;
    assert forall k :: 0 <= k < |a| ==> a[k] == s[k];
    match EscapeLength(s) {
      case Some(n) =>
        assert EscapeAt(a, 0, n);
        EscapeLengthUnique(a, n);
      case None =>
        assert forall n: nat :: EscapeAt(a, 0, n) ==> EscapeAt(s, 0, n);
    }
    forall i: nat, n: nat | i < p && |a| < i + n ensures !EscapeAt(s, i, n) {
      if i == 0 && EscapeAt(s, 0, n) {
        EscapeLengthUnique(s, n);
      }
    }
    CutsEscapeTail(a, b, p);
  }

  /** Cleaning in two pieces equals cleaning the whole exactly when the cut is not inside an escape
      sequence; a cut that is leaves characters behind. */
  lemma {:induction false} CleanSplit(a: string, b: string)
    ensures CutsEscape(a, b) ==> |Clean(a + b)| < |Clean(a)| + |Clean(b)|
    ensures !CutsEscape(a, b) ==> Clean(a + b) == Clean(a) + Clean(b)
    decreases |a|
  {
    if a == [] {
      assert a + b == b;
    } else {
      var p := match EscapeLength(a + b) case Some(n) => n case None => 1;
      if |a| < p {
        CutAtFront(a, b, p);
      } else {
        CleanPeel(a, b, p);
        CleanSplit(a[p..], b);
      }
    }
  }

  function Concat(chunks: seq<string>): string {
    if chunks == [] then [] else chunks[0] + Concat(chunks[1..])
  }

  function CleanEach(chunks: seq<string>): seq<string> {
    if chunks == [] then [] else [Clean(chunks[0])] + CleanEach(chunks[1..])
  }

  /** Some boundary between two chunks falls inside an escape sequence of the text they make up. */
  ghost predicate SomeCutInEscape(chunks: seq<string>) {
    chunks != [] && (CutsEscape(chunks[0], Concat(chunks[1..])) || SomeCutInEscape(chunks[1..]))
  }

  lemma {:induction false} CleanChunksLength(chunks: seq<string>)
    ensures SomeCutInEscape(chunks) ==> |Clean(Concat(chunks))| < |Concat(CleanEach(chunks))|
    ensures !SomeCutInEscape(chunks) ==> Clean(Concat(chunks)) == Concat(CleanEach(chunks))
  {
    if chunks != [] {
      CleanSplit(chunks[0], Concat(chunks[1..]));
      CleanChunksLength(chunks[1..]);
      assert CleanEach(chunks)[1..] == CleanEach(chunks[1..]);
    }
  }

  /** Chunk-wise cleaning agrees with cleaning the whole log exactly when no chunk boundary falls
      inside an escape sequence. */
  lemma CleanChunks(chunks: seq<string>)
    ensures Clean(Concat(chunks)) == Concat(CleanEach(chunks)) <==> !SomeCutInEscape(chunks)
  {
    CleanChunksLength(chunks);
  }
}
