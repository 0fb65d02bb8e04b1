/** The streaming scanner that finds the test-result blocks `{...}` in the output of a test run.
    Text arrives in chunks; what is not consumed by one call is kept for the next one.

    What a text holds is stated by its parse: noise and brace-balanced blocks in turn, then a rest in
    which no block is complete. A text has exactly one parse, and the scanner's loops compute it. */
module LogScanner {
  import opened Options
  import opened AnsiCleaner
  import opened Streaming
  import opened Text

  // ---- Blocks ----

  function Weight(c: char): int { if c == '{' then 1 else if c == '}' then -1 else 0 }

  /** Opening minus closing braces among the first `k` characters. */
  function Depth(s: string, k: nat): int
    requires k <= |s|
  {
    if k == 0 then 0 else Depth(s, k - 1) + Weight(s[k - 1])
  }

  /** So many opening braces, and so many fewer closing ones. */
  lemma {:induction false} DepthMeaning(s: string, k: nat)
    requires k <= |s|
    ensures Depth(s, k) + multiset(s[..k])['}'] == multiset(s[..k])['{']
  {
    if k > 0 {
      DepthMeaning(s, k - 1);
      assert s[..k] == s[..k - 1] + [s[k - 1]];
    }
  }

  predicate OpenAt(s: string, k: nat)
    requires k <= |s|
  {
    Depth(s, k) > 0
  }

  /** Every non-empty prefix of up to `n` characters leaves a brace open. */
  ghost predicate StaysOpen(s: string, n: nat)
    requires n <= |s|
  {
    forall k :: 0 < k <= n ==> OpenAt(s, k)
  }

  /** One brace-balanced block: it opens at once and closes at its last character, not before. */
  ghost predicate IsBlock(b: string) {
    b != [] && b[0] == '{' && Depth(b, |b|) == 0 && StaysOpen(b, |b| - 1)
  }

  ghost predicate NoOpen(s: string) { forall k :: 0 <= k < |s| ==> s[k] != '{' }

  /** Text in which no block is complete yet: the first brace that opens, if any, is never closed. */
  ghost predicate Unfinished(t: string) {
    NoOpen(t) || exists p :: 0 <= p < |t| && OpensForGood(t, p)
  }

  ghost predicate OpensForGood(t: string, p: nat)
    requires p < |t|
  {
    NoOpen(t[..p]) && t[p] == '{' && StaysOpen(t[p..], |t| - p)
  }

  lemma {:induction false} DepthPrefix(s: string, n: nat, k: nat)
    requires k <= n <= |s|
    ensures Depth(s[..n], k) == Depth(s, k)
  {
    if k > 0 {
      DepthPrefix(s, n, k - 1);
    }
  }

  lemma StaysOpenPrefix(s: string, n: nat, k: nat)
    requires k <= n <= |s|
    ensures StaysOpen(s[..n], k) <==> StaysOpen(s, k)
  {
    forall i: nat | i <= k ensures OpenAt(s[..n], i) <==> OpenAt(s, i) {
      DepthPrefix(s, n, i);
    }
  }

  /** A text that opens at once either stays open or begins with a block. */
  lemma {:induction false} FindBlock(s: string, k: nat) returns (n: Option<nat>)
    requires s != [] && s[0] == '{' && 0 < k <= |s| && StaysOpen(s, k)
    ensures n.None? ==> StaysOpen(s, |s|)
    ensures n.Some? ==> 0 < n.value <= |s| && IsBlock(s[..n.value])
    decreases |s| - k
  {
    if k == |s| {
      n := None;
    } else if Depth(s, k + 1) == 0 {
      DepthPrefix(s, k + 1, k + 1);
      StaysOpenPrefix(s, k + 1, k);
      n := Some(k + 1);
    } else {
      assert OpenAt(s, k);
      n := FindBlock(s, k + 1);
    }
  }

  /** Of two blocks that a text begins with, neither is longer, and a text that stays open has none. */
  lemma BlockEndsOnce(s: string, m: nat, n: nat)
    requires 0 < m <= n <= |s| && IsBlock(s[..m])
    requires IsBlock(s[..n]) || StaysOpen(s, n)
    ensures m == n && IsBlock(s[..n])
  {
    DepthPrefix(s, m, m);
    if IsBlock(s[..n]) {
      StaysOpenPrefix(s, n, n - 1);
    }
    assert !OpenAt(s, m);
  }

  // ---- Parses ----

  datatype Piece = Piece(noise: string, block: string)

  datatype Parse = Parse(pieces: seq<Piece>, rest: string)

  function Render(ps: seq<Piece>): string {
    if ps == [] then [] else ps[0].noise + ps[0].block + Render(ps[1..])
  }

  ghost predicate IsPiece(p: Piece) { NoOpen(p.noise) && IsBlock(p.block) }

  ghost predicate AllPieces(ps: seq<Piece>) { forall i :: 0 <= i < |ps| ==> IsPiece(ps[i]) }

  ghost predicate IsParse(s: string, r: Parse) {
    AllPieces(r.pieces) && Unfinished(r.rest) && s == Render(r.pieces) + r.rest
  }

  lemma RenderCons(p: Piece, ps: seq<Piece>)
    ensures Render([p] + ps) == p.noise + p.block + Render(ps)
  {
    assert ([p] + ps)[1..] == ps;
  }

  lemma {:induction false} RenderAppend(ps: seq<Piece>, qs: seq<Piece>)
    ensures Render(ps + qs) == Render(ps) + Render(qs)
  {
    if ps == [] {
      assert ps + qs == qs;
    } else {
      RenderAppend(ps[1..], qs);
      RenderCons(ps[0], ps[1..] + qs);
      assert ps + qs == [ps[0]] + (ps[1..] + qs);
      Assoc(ps[0].noise + ps[0].block, Render(ps[1..]), Render(qs));
    }
  }

  lemma FirstOpen(s: string) returns (p: nat)
    ensures p <= |s| && NoOpen(s[..p])
    ensures p < |s| ==> s[p] == '{'
  {
    p := 0;
    while p < |s| && s[p] != '{'
      invariant p <= |s| && NoOpen(s[..p])
    {
      p := p + 1;
    }
  }

  /** Every text has a parse. */
  lemma {:induction false} FindParse(s: string) returns (r: Parse)
    ensures IsParse(s, r)
    decreases |s|
  {
    r := Parse([], s);
    var p := FirstOpen(s);
    if p == |s| {
      assert s[..p] == s;
    } else {
      assert Depth(s[p..], 1) == 1 && OpenAt(s[p..], 1);
      var n := FindBlock(s[p..], 1);
      match n
      case None =>
        assert OpensForGood(s, p);
      case Some(n) =>
        var t := FindParse(s[p + n..]);
        var piece := Piece(s[..p], s[p..][..n]);
        RenderCons(piece, t.pieces);
        r := Parse([piece] + t.pieces, t.rest);
        assert s == piece.noise + piece.block + s[p + n..];
    }
  }

  lemma ParseExists(s: string)
    ensures exists r :: IsParse(s, r)
  {
    var r := FindParse(s);
  }

  lemma NoiseEndsOnce(s: string, m: nat, n: nat)
    requires m < |s| && NoOpen(s[..m]) && s[m] == '{'
    requires n < |s| && NoOpen(s[..n]) && s[n] == '{'
    ensures m == n
  {
    assert forall k :: 0 <= k < m ==> s[..m][k] == s[k];
    assert forall k :: 0 <= k < n ==> s[..n][k] == s[k];
  }

  /** A text that begins with a piece is not unfinished. */
  lemma PieceIsNotUnfinished(p: Piece, t: string)
    requires IsPiece(p)
    ensures !Unfinished(p.noise + p.block + t)
  {
    var s, m := p.noise + p.block + t, |p.noise|;
    assert s[..m] == p.noise && s[m] == p.block[0];
    assert s[m..][..|p.block|] == p.block;
    DepthPrefix(s[m..], |p.block|, |p.block|);
    assert !OpenAt(s[m..], |p.block|);
    if q: nat :| q < |s| && OpensForGood(s, q) {
      NoiseEndsOnce(s, m, q);
    }
  }

  /** Two ways of splitting off a first piece are the same. */
  lemma PieceUnique(p: Piece, t: string, q: Piece, u: string)
    requires IsPiece(p) && IsPiece(q) && p.noise + p.block + t == q.noise + q.block + u
    ensures p == q && t == u
  {
    var s := p.noise + p.block + t;
    var m, n := |p.noise|, |q.noise|;
    assert s[..m] == p.noise && s[m] == p.block[0];
    assert s[..n] == q.noise && s[n] == q.block[0];
    NoiseEndsOnce(s, m, n);
    var b := s[m..];
    assert b == p.block + t && b == q.block + u;
    assert b[..|p.block|] == p.block && b[..|q.block|] == q.block;
    if |p.block| <= |q.block| {
      BlockEndsOnce(b, |p.block|, |q.block|);
    } else {
      BlockEndsOnce(b, |q.block|, |p.block|);
    }
    assert t == b[|p.block|..] && u == b[|q.block|..];
  }

  /** No text has two parses. */
  lemma {:induction false} ParseUnique(s: string, r: Parse, r': Parse)
    requires IsParse(s, r) && IsParse(s, r')
    ensures r == r'
    decreases |r.pieces|
  {
    var ps, qs := r.pieces, r'.pieces;
    SplitFirst(s, r);
    SplitFirst(s, r');
    if ps == [] {
      if qs != [] {
        PieceIsNotUnfinished(qs[0], Render(qs[1..]) + r'.rest);
      }
    } else if qs == [] {
      PieceIsNotUnfinished(ps[0], Render(ps[1..]) + r.rest);
    } else {
      PieceUnique(ps[0], Render(ps[1..]) + r.rest, qs[0], Render(qs[1..]) + r'.rest);
      ParseUnique(Render(ps[1..]) + r.rest, Parse(ps[1..], r.rest), Parse(qs[1..], r'.rest));
      assert ps == [ps[0]] + ps[1..] && qs == [qs[0]] + qs[1..];
    }
  }

  lemma SplitFirst(s: string, r: Parse)
    requires IsParse(s, r)
    ensures r.pieces == [] ==> s == r.rest
    ensures r.pieces != [] ==>
              var t := Render(r.pieces[1..]) + r.rest;
              s == r.pieces[0].noise + r.pieces[0].block + t && IsParse(t, Parse(r.pieces[1..], r.rest))
  {
    if r.pieces == [] {
      assert s == [] + r.rest;
    } else {
      var p, more := r.pieces[0], Render(r.pieces[1..]);
      assert s == p.noise + p.block + more + r.rest;
      assert s == p.noise + p.block + (more + r.rest);
    }
  }

  /** The parse of a text. */
  ghost function ParseOf(s: string): Parse {
    ParseExists(s);
    var r :| IsParse(s, r);
    r
  }

  /** Every character is accounted for: a text is the noise and blocks consumed, then what is kept. */
  lemma NothingIsLost(s: string)
    ensures IsParse(s, ParseOf(s))
    ensures s == Render(ParseOf(s).pieces) + ParseOf(s).rest
  {
    ParseExists(s);
  }

  /** Whatever blocks are put into a text, with whatever noise between them, come out again. */
  lemma RoundTrip(ps: seq<Piece>, rest: string)
    requires AllPieces(ps) && Unfinished(rest)
    ensures ParseOf(Render(ps) + rest) == Parse(ps, rest)
  {
    NothingIsLost(Render(ps) + rest);
    ParseUnique(Render(ps) + rest, ParseOf(Render(ps) + rest), Parse(ps, rest));
  }

  lemma PiecesAppend(ps: seq<Piece>, qs: seq<Piece>)
    requires AllPieces(ps) && AllPieces(qs)
    ensures AllPieces(ps + qs)
  {
  }

  /** Scanning the kept text together with what arrives next continues the scan. */
  lemma ParseContinues(a: string, b: string)
    ensures var r := ParseOf(a); var t := ParseOf(r.rest + b);
            ParseOf(a + b) == Parse(r.pieces + t.pieces, t.rest)
  {
    var r := ParseOf(a);
    var t := ParseOf(r.rest + b);
    NothingIsLost(a);
    NothingIsLost(r.rest + b);
    RenderAppend(r.pieces, t.pieces);
    Assoc(Render(r.pieces), r.rest, b);
    Assoc(Render(r.pieces), Render(t.pieces), t.rest);
    PiecesAppend(r.pieces, t.pieces);
    RoundTrip(r.pieces + t.pieces, t.rest);
  }

  // ---- What is reported of a parse ----

  /** The fields that a decoded block carries. */
  datatype Output = Output(state: string, name: string, kind: string, time: real)

  /** JSON decoding of one block; `None` is a decoding error. */
  type Decoder = string -> Option<Output>

  function ValidState(state: string): Option<Verdict> {
    if state == "failed" then Some(Failed)
    else if state == "passed" then Some(Passed)
    else if state == "skipped" then Some(Skipped)
    else None
  }

  /** A block counts as a test result if it is of a known kind and in a valid state. */
  function Accept(out: Output): Option<TestResult> {
    var verdict := ValidState(out.state);
    if (Contains(out.kind, "k3s test") || Contains(out.kind, "rke2 test")) && verdict.Some?
    then Some(TestResult(verdict.value, out.name, out.kind, out.time))
    else None
  }

  /** The test result that a block stands for, if it stands for one. */
  function Reported(decode: Decoder, block: string): seq<TestResult> {
    var out := decode(block);
    if out.Some? then AsSeq(Accept(out.value)) else []
  }

  /** The block decodes, is of a kind that names one of the two products, and its state is the verdict of
      the result, which has the block's name, kind and time. */
  ghost predicate StandsFor(decode: Decoder, block: string, r: TestResult) {
    && decode(block).Some?
    && var out := decode(block).value;
       && (Has(out.kind, "k3s test") || Has(out.kind, "rke2 test"))
       && (|| (out.state == "failed" && r.verdict == Failed)
           || (out.state == "passed" && r.verdict == Passed)
           || (out.state == "skipped" && r.verdict == Skipped))
       && r.name == out.name && r.kind == out.kind && r.time == out.time
  }

  /** The one result that the block stands for, and nothing if it stands for none. */
  ghost predicate IsResultOf(rs: seq<TestResult>, decode: Decoder, block: string) {
    |rs| <= 1 && forall r :: r in rs <==> StandsFor(decode, block, r)
  }

  /** What is reported of a block. */
  lemma ReportedMeaning(decode: Decoder, block: string)
    ensures IsResultOf(Reported(decode, block), decode, block)
  {
    var out := decode(block);
    if out.Some? {
      ContainsMeaning(out.value.kind, "k3s test");
      ContainsMeaning(out.value.kind, "rke2 test");
    }
  }

  /** The test results among the blocks, in order. */
  function Results(decode: Decoder, ps: seq<Piece>): seq<TestResult> {
    if ps == [] then [] else Reported(decode, ps[0].block) + Results(decode, ps[1..])
  }

  lemma Assoc<T>(a: seq<T>, b: seq<T>, c: seq<T>)
    ensures a + (b + c) == a + b + c
  {
  }

  lemma ResultsCons(decode: Decoder, p: Piece, ps: seq<Piece>)
    ensures Results(decode, [p] + ps) == Reported(decode, p.block) + Results(decode, ps)
  {
    assert ([p] + ps)[1..] == ps;
  }

  lemma {:induction false} ResultsAppend(decode: Decoder, ps: seq<Piece>, qs: seq<Piece>)
    ensures Results(decode, ps + qs) == Results(decode, ps) + Results(decode, qs)
  {
    if ps == [] {
      assert ps + qs == qs;
    } else {
      ResultsAppend(decode, ps[1..], qs);
      ResultsCons(decode, ps[0], ps[1..] + qs);
      assert ps + qs == [ps[0]] + (ps[1..] + qs);
      Assoc(Reported(decode, ps[0].block), Results(decode, ps[1..]), Results(decode, qs));
    }
  }

  /** What one scan over `s` reports and keeps. */
  ghost function Batch(decode: Decoder, s: string): Fed {
    Fed(Results(decode, ParseOf(s).pieces), ParseOf(s).rest)
  }

  ghost function ScannerOf(decode: Decoder): Scanner { s => Batch(decode, s) }

  lemma BatchContinues(decode: Decoder, a: string, b: string)
    ensures Batch(decode, a + b) == Then(Batch(decode, a).outs, Batch(decode, Batch(decode, a).rest + b))
  {
    ParseContinues(a, b);
    ResultsAppend(decode, ParseOf(a).pieces, ParseOf(ParseOf(a).rest + b).pieces);
  }

  lemma BatchStop(decode: Decoder, t: string)
    requires Unfinished(t)
    ensures Batch(decode, t) == Fed([], t)
  {
    assert [] + t == t;
    RoundTrip([], t);
  }

  lemma ScannerContinues(decode: Decoder)
    ensures Continues(ScannerOf(decode)) && ScannerOf(decode)("") == Fed([], "")
  {
    var scan := ScannerOf(decode);
    forall a: string, b: string ensures ContinuesAt(scan, a, b) {
      BatchContinues(decode, a, b);
    }
    BatchStop(decode, "");
  }

  /** Streaming equals batch: however the cleaned text is cut into chunks, the results and the text
      kept are those of one scan over all of it. */
  lemma StreamingEqualsBatch(decode: Decoder, chunks: seq<string>)
    ensures Stream(ScannerOf(decode), "", chunks) == Batch(decode, Concat(CleanEach(chunks)))
  {
    ScannerContinues(decode);
    StreamIsBatch(ScannerOf(decode), chunks);
  }

  /** Chunks of the raw log: as long as no cut falls inside an escape sequence, the outcome is that of
      cleaning and scanning the log as a whole. */
  lemma ChunkingDoesNotMatter(decode: Decoder, chunks: seq<string>)
    requires !SomeCutInEscape(chunks)
    ensures Stream(ScannerOf(decode), "", chunks) == Batch(decode, Clean(Concat(chunks)))
  {
    ScannerContinues(decode);
    StreamIsCleanedBatch(ScannerOf(decode), chunks);
  }

  /** Over any number of calls no text is lost: what was received is the consumed pieces, from which
      the results come, and what is kept. */
  lemma RunLosesNothing(decode: Decoder, chunks: seq<string>)
    ensures var all, end := Concat(CleanEach(chunks)), Stream(ScannerOf(decode), "", chunks);
            && all == Render(ParseOf(all).pieces) + end.rest && Unfinished(end.rest)
            && end.outs == Results(decode, ParseOf(all).pieces)
  {
    StreamingEqualsBatch(decode, chunks);
    NothingIsLost(Concat(CleanEach(chunks)));
  }

  lemma OneBlock(decode: Decoder, b: string)
    requires IsBlock(b)
    ensures Batch(decode, b) == Fed(Reported(decode, b), "")
  {
    var p := Piece("", b);
    RenderOne(p);
    RoundTrip([p], "");
    assert Render([p]) + "" == b;
    ResultsOne(decode, p);
  }

  lemma ResultsOne(decode: Decoder, p: Piece)
    ensures Results(decode, [p]) == Reported(decode, p.block)
  {
    assert Results(decode, [p][1..]) == [];
  }

  lemma RenderOne(p: Piece)
    ensures Render([p]) == p.noise + p.block
  {
    RenderCons(p, []);
    assert [p] + [] == [p];
  }

  // ---- The scanner ----

  /** The index of the next opening brace from `i` on, or -1. */
  method FindOpen(text: string, i: nat) returns (index: int)
    requires i <= |text|
    ensures index < 0 ==> NoOpen(text[i..])
    ensures 0 <= index ==> i <= index < |text| && text[index] == '{' && NoOpen(text[i..index])
  {
    for j := i to |text|
      invariant forall k :: i <= k < j ==> text[k] != '{'
    {
      if text[j] == '{' { return j; }
    }
    return -1;
  }

  /** The index of the brace that closes the block opening at `start`. */
  method FindClose(text: string, start: nat) returns (found: bool, end: nat)
    requires start < |text| && text[start] == '{'
    ensures !found ==> StaysOpen(text[start..], |text| - start)
    ensures found ==> start <= end < |text| && IsBlock(text[start..end + 1])
  {
    ghost var s := text[start..];
    var braceCount := 0;
    for j := start to |text|
      invariant braceCount == Depth(s, j - start)
      invariant StaysOpen(s, j - start)
    {
      if text[j] == '{' {
        braceCount := braceCount + 1;
      } else if text[j] == '}' {
        braceCount := braceCount - 1;
        if braceCount == 0 {
          assert text[start..j + 1] == s[..j + 1 - start];
          DepthPrefix(s, j + 1 - start, j + 1 - start);
          StaysOpenPrefix(s, j + 1 - start, j - start);
          return true, j;
        }
      }
      assert j > start ==> OpenAt(s, j - start);
    }
    return false, start;
  }

  /** From `i` on the next complete block starts at `start` and ends before `end`, or there is none. */
  ghost predicate IsNextBlock(text: string, i: nat, found: bool, start: nat, end: nat)
    requires i <= |text|
  {
    if found then i <= start < end <= |text| && NoOpen(text[i..start]) && IsBlock(text[start..end])
    else Unfinished(text[i..])
  }

  /** The next complete block from `i` on. */
  method NextBlock(text: string, i: nat) returns (found: bool, start: nat, end: nat)
    requires i <= |text|
    ensures IsNextBlock(text, i, found, start, end)
  {
    var index := FindOpen(text, i);
    if index < 0 {
      return false, 0, 0;
    }
    found, end := FindClose(text, index);
    if !found {
      RestStaysOpen(text, i, index);
    }
    start, end := index, end + 1;
  }

  /** Scan `text` block by block. `current` is the result that is not emitted yet; `stop` is where the
      scan found no further block. */
  method ScanBlocks(decode: Decoder, text: string) returns (results: seq<TestResult>, stop: nat)
    ensures stop <= |text| && Unfinished(text[stop..])
    ensures Batch(decode, text) == Fed(results, text[stop..])
  {
    ghost var all := Batch(decode, text);
    var current: Option<TestResult> := None;
    results, stop := [], 0;
    var found, start, end := NextBlock(text, stop);
    assert text[0..] == text;
    assert [] + all.outs == all.outs;
    while found
      invariant stop <= |text| && IsNextBlock(text, stop, found, start, end)
      invariant all == Then(results + AsSeq(current), Batch(decode, text[stop..]))
      decreases |text| - stop, found
    {
      var block := text[start..end];
      ghost var before := results + AsSeq(current);
      results, current := Emit(decode, block, results, current);
      ScanStep(decode, text, stop, start, end, all, before);
      stop := end;
      found, start, end := NextBlock(text, stop);
    }
    if current.Some? {
      results := results + [current.value];
    }
    BatchStop(decode, text[stop..]);
  }

  /** Decode a block. An accepted one becomes the current result, and the one before it is emitted. */
  method Emit(decode: Decoder, block: string, results: seq<TestResult>, current: Option<TestResult>)
    returns (results': seq<TestResult>, current': Option<TestResult>)
    ensures results' + AsSeq(current') == results + AsSeq(current) + Reported(decode, block)
    ensures IsResultOf(Reported(decode, block), decode, block)
  {
    ReportedMeaning(decode, block);
    results', current' := results, current;
    var out := decode(block);
    if out.Some? {
      var accepted := Accept(out.value);
      if accepted.Some? {
        if current.Some? {
          results' := results + [current.value];
        }
        current' := accepted;
      }
    }
  }

  class Extractor {
    const decode: Decoder
    /** Text received and not consumed yet. */
    var remaining: string

    constructor (decode: Decoder)
      ensures this.decode == decode && remaining == "" && Unfinished(remaining)
    {
      this.decode := decode;
      remaining := "";
    }

    /** One call of the scanner: the kept text and the cleaned chunk are scanned together. */
    method ExtractTestOutput(res: string) returns (results: seq<TestResult>)
      modifies this
      ensures Fed(results, remaining) == Batch(decode, old(remaining) + Clean(res))
      ensures Unfinished(remaining)
    {
      remaining := remaining + Clean(res);
      var i: nat;
      results, i := ScanBlocks(decode, remaining);
      remaining := if i < |remaining| then remaining[i..] else "";
    }
  }

  function AsSeq<T>(o: Option<T>): seq<T> { if o.Some? then [o.value] else [] }

  lemma ThenThen(outs: seq<TestResult>, more: seq<TestResult>, later: Fed)
    ensures Then(outs, Then(more, later)) == Then(outs + more, later)
  {
    assert outs + (more + later.outs) == outs + more + later.outs;
  }

  lemma BatchStep(decode: Decoder, text: string, i: nat, start: nat, end: nat)
    requires i <= start < end <= |text|
    requires NoOpen(text[i..start]) && IsBlock(text[start..end])
    ensures Batch(decode, text[i..]) == Then(Reported(decode, text[start..end]), Batch(decode, text[end..]))
  {
    var p, t := Piece(text[i..start], text[start..end]), ParseOf(text[end..]);
    NothingIsLost(text[end..]);
    RenderCons(p, t.pieces);
    assert text[i..] == p.noise + p.block + text[end..];
    assert text[i..] == Render([p] + t.pieces) + t.rest;
    RoundTrip([p] + t.pieces, t.rest);
    ResultsAppend(decode, [p], t.pieces);
    ResultsOne(decode, p);
  }

  /** One more block scanned. */
  lemma ScanStep(decode: Decoder, text: string, i: nat, start: nat, end: nat, all: Fed, before: seq<TestResult>)
    requires i <= start < end <= |text|
    requires NoOpen(text[i..start]) && IsBlock(text[start..end])
    requires all == Then(before, Batch(decode, text[i..]))
    ensures all == Then(before + Reported(decode, text[start..end]), Batch(decode, text[end..]))
  {
    BatchStep(decode, text, i, start, end);
    ThenThen(before, Reported(decode, text[start..end]), Batch(decode, text[end..]));
  }

  lemma RestStaysOpen(text: string, i: nat, start: nat)
    requires i <= start < |text| && NoOpen(text[i..start]) && text[start] == '{'
    requires StaysOpen(text[start..], |text| - start)
    ensures Unfinished(text[i..])
  {
    assert text[i..][start - i..] == text[start..];
    assert text[i..][..start - i] == text[i..start];
    assert OpensForGood(text[i..], start - i);
  }
}
