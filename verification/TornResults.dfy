/** What becomes of a test result when the boundary between two chunks falls inside an escape sequence
    inside its block. */
module TornResults {
  import opened AnsiCleaner
  import opened LogScanner
  import opened Options
  import opened Streaming

  /** Characters that are no braces, put into a text after `x`, leave the depths alone. */
  lemma {:induction false} DepthAround(x: string, e: string, y: string, k: nat)
    requires '{' !in e && '}' !in e && k <= |x + e + y|
    ensures Depth(x + e + y, k)
         == Depth(x + y, if k <= |x| then k else if k <= |x| + |e| then |x| else k - |e|)
  {
    if k > 0 {
      DepthAround(x, e, y, k - 1);
      var s, i := x + e + y, k - 1;
      assert s[i] == if i < |x| then x[i] else if i < |x| + |e| then e[i - |x|] else y[i - |x| - |e|];
      if |x| <= i < |x| + |e| {
        assert Weight(s[i]) == 0;
      } else {
        var j := if i < |x| then i else i - |e|;
        assert (x + y)[j] == s[i];
      }
    }
  }

  /** Such characters inside a block leave it a block. */
  lemma BlockAround(x: string, e: string, y: string)
    requires x != [] && y != [] && IsBlock(x + y) && '{' !in e && '}' !in e
    ensures IsBlock(x + e + y)
  {
    var s := x + e + y;
    DepthAround(x, e, y, |s|);
    assert s[0] == x[0] == (x + y)[0];
    forall k | 0 < k <= |s| - 1 ensures OpenAt(s, k) {
      DepthAround(x, e, y, k);
      assert OpenAt(x + y, if k <= |x| then k else if k <= |x| + |e| then |x| else k - |e|);
    }
  }

  lemma EscapeHasNoBrace(e: string)
    requires EscapeAt(e, 0, |e|)
    ensures '{' !in e && '}' !in e
  {
    forall k | 0 <= k < |e| ensures e[k] != '{' && e[k] != '}' {
      if 2 <= k < |e| - 1 { assert IsParam(e[k]); }
    }
  }

  /** No escape sequence reaches into text that begins with the escape character. */
  lemma NotIntoEscape(x: string, t: string)
    requires t != [] && t[0] == ESC
    ensures Clean(x + t) == Clean(x) + Clean(t)
  {
    var s := x + t;
    assert s[|x|] == ESC && !IsParam(s[|x|]) && !IsFinal(s[|x|]);
    forall i: nat, n: nat | i < |x| < i + n ensures !EscapeAt(s, i, n) {
    }
    CleanSplit(x, t);
  }

  lemma CleanFront(x: string, e: string, m: nat)
    requires EscapeAt(e, 0, |e|) && 0 < m < |e|
    ensures Clean(x + e[..m]) == Clean(x) + e[..m]
  {
    var front := e[..m];
    TornEscape(e, |e|, m);
    assert front[1..] == e[1..m];
    CleanPlain(front[1..], []);
    assert front[1..] + [] == front[1..];
    assert Clean(front) == [front[0]] + front[1..] == front;
    NotIntoEscape(x, front);
  }

  lemma CleanWhole(x: string, e: string, y: string)
    requires EscapeAt(e, 0, |e|)
    ensures Clean(x + (e + y)) == Clean(x) + Clean(y)
  {
    assert EscapeAt(e + y, 0, |e|);
    EscapeLengthUnique(e + y, |e|);
    assert (e + y)[|e|..] == y;
    NotIntoEscape(x, e + y);
  }

  lemma CleanBack(e: string, y: string, m: nat)
    requires EscapeAt(e, 0, |e|) && 0 < m < |e|
    ensures Clean(e[m..] + y) == e[m..] + Clean(y)
  {
    TornEscape(e, |e|, m);
    assert e[m..] == e[m..|e|];
    CleanPlain(e[m..], y);
  }

  lemma Rejoin(x: string, e: string, y: string, m: nat)
    requires m <= |e|
    ensures (x + e[..m]) + (e[m..] + y) == x + e + y
  {
    assert e[..m] + e[m..] == e;
  }

  /** What the scanner receives when the sequence is torn: all of it. */
  lemma TornReceived(x: string, e: string, y: string, m: nat)
    requires EscapeAt(e, 0, |e|) && 0 < m < |e|
    ensures Concat(CleanEach([x + e[..m], e[m..] + y])) == Clean(x) + e + Clean(y)
  {
    TwoChunks(x + e[..m], e[m..] + y);
    CleanFront(x, e, m);
    CleanBack(e, y, m);
    Rejoin(Clean(x), e, Clean(y), m);
  }

  /** And what it would receive of the whole: none of it. */
  lemma TornWhole(x: string, e: string, y: string, m: nat)
    requires EscapeAt(e, 0, |e|) && 0 < m < |e|
    ensures Clean((x + e[..m]) + (e[m..] + y)) == Clean(x) + Clean(y)
  {
    Rejoin(x, e, y, m);
    assert x + e + y == x + (e + y);
    CleanWhole(x, e, y);
  }

  /** Every cut inside an escape sequence inside a block that stands for a result loses that result,
      if the decoder accepts the cleaned block and does not accept control characters in it, as no JSON
      decoder does. Cleaned as a whole the same log reports it. */
  lemma CutInEscapeLosesResult(decode: Decoder, x: string, e: string, y: string, m: nat, out: Output)
    requires Clean(x) != [] && Clean(y) != [] && IsBlock(Clean(x) + Clean(y))
    requires EscapeAt(e, 0, |e|) && 0 < m < |e|
    requires decode(Clean(x) + Clean(y)) == Some(out) && Accept(out).Some?
    requires decode(Clean(x) + e + Clean(y)) == None
    ensures Stream(ScannerOf(decode), "", [x + e[..m], e[m..] + y]) == Fed([], "")
    ensures Batch(decode, Clean((x + e[..m]) + (e[m..] + y))) == Fed([Accept(out).value], "")
  {
    StreamingEqualsBatch(decode, [x + e[..m], e[m..] + y]);
    TornReceived(x, e, y, m);
    TornWhole(x, e, y, m);
    EscapeHasNoBrace(e);
    BlockAround(Clean(x), e, Clean(y));
    OneBlock(decode, Clean(x) + Clean(y));
    OneBlock(decode, Clean(x) + e + Clean(y));
  }

  // ---- A torn sequence anywhere in a run of any number of chunks ----

  /** Where a boundary between `a` and `b` lies, after some complete pieces. */
  datatype Place =
    | InNoise(x: string, y: string, block: string, more: string)
    | InBlock(noise: string, x: string, y: string, more: string)
    | InRest(x: string, y: string)

  ghost predicate IsPlace(a: string, b: string, ps: seq<Piece>, p: Place) {
    && AllPieces(ps)
    && match p
       case InNoise(x, y, block, more) =>
         NoOpen(x) && NoOpen(y) && IsBlock(block) && a == Render(ps) + x && b == y + block + more
       case InBlock(noise, x, y, more) =>
         && NoOpen(noise) && x != [] && y != [] && IsBlock(x + y)
         && a == Render(ps) + (noise + x) && b == y + more
       case InRest(x, y) => Unfinished(x + y) && a == Render(ps) + x && b == y
  }

  /** Behind one more piece a place is the same. */
  lemma PlaceBehind(first: Piece, a: string, b: string, ps: seq<Piece>, p: Place)
    requires IsPiece(first) && IsPlace(a, b, ps, p)
    ensures IsPlace(first.noise + first.block + a, b, [first] + ps, p)
  {
    RenderCons(first, ps);
    var x := match p case InNoise(x, _, _, _) => x case InBlock(noise, x, _, _) => noise + x case InRest(x, _) => x;
    Assoc(first.noise + first.block, Render(ps), x);
  }

  /** Every boundary has a place. */
  lemma {:induction false} Locate(a: string, b: string, r: Parse) returns (ps: seq<Piece>, p: Place)
    requires IsParse(a + b, r)
    ensures IsPlace(a, b, ps, p)
    decreases |r.pieces|
  {
    SplitFirst(a + b, r);
    if r.pieces == [] {
      ps, p := [], InRest(a, b);
    } else {
      var first, t := r.pieces[0], Render(r.pieces[1..]) + r.rest;
      var m := |first.noise + first.block|;
      assert a + b == first.noise + first.block + t && IsPiece(first);
      if |a| < m {
        ps, p := LocateFirst(a, b, first, t);
      } else {
        PastFirst(a, b, first.noise + first.block, t);
        ps, p := Locate(a[m..], b, Parse(r.pieces[1..], r.rest));
        PlaceBehind(first, a[m..], b, ps, p);
        ps := [first] + ps;
      }
    }
  }

  /** The first of two texts that make up `head` and `t` reaches past `head`, or ends within it. */
  lemma PastFirst(a: string, b: string, head: string, t: string)
    requires a + b == head + t
    ensures |head| <= |a| ==> a == head + a[|head|..] && a[|head|..] + b == t
    ensures |a| <= |head| ==> head == a + head[|a|..] && b == head[|a|..] + t
  {
    var s := a + b;
    assert s[..|head|] == head && s[|head|..] == t && s[..|a|] == a && s[|a|..] == b;
    if |head| <= |a| {
      assert a[..|head|] == s[..|head|];
      assert a[|head|..] + b == s[|head|..];
    } else {
      assert head[..|a|] == s[..|a|];
      assert head[|a|..] + t == s[|a|..];
    }
  }

  lemma LocateFirst(a: string, b: string, first: Piece, t: string) returns (ps: seq<Piece>, p: Place)
    requires IsPiece(first) && a + b == first.noise + first.block + t && |a| < |first.noise + first.block|
    ensures IsPlace(a, b, ps, p)
  {
    var n := |first.noise|;
    assert a + b == first.noise + (first.block + t);
    PastFirst(a, b, first.noise, first.block + t);
    ps := [];
    if |a| <= n {
      var y := first.noise[|a|..];
      p := InNoise(a, y, first.block, t);
      assert y + (first.block + t) == y + first.block + t;
      assert a == Render([]) + a;
    } else {
      var x := a[n..];
      PastFirst(x, b, first.block, t);
      p := InBlock(first.noise, x, first.block[|x|..], t);
      assert a == Render([]) + (first.noise + x);
    }
  }

  /** Complete pieces are reported first. */
  lemma PiecesThen(decode: Decoder, ps: seq<Piece>, z: string)
    requires AllPieces(ps)
    ensures Batch(decode, Render(ps) + z) == Then(Results(decode, ps), Batch(decode, z))
  {
    assert Unfinished("");
    RoundTrip(ps, "");
    assert Render(ps) + "" == Render(ps) && "" + z == z;
    BatchContinues(decode, Render(ps), z);
  }

  lemma BlockThen(decode: Decoder, noise: string, b: string, more: string)
    requires NoOpen(noise) && IsBlock(b)
    ensures Batch(decode, noise + b + more) == Then(Reported(decode, b), Batch(decode, more))
  {
    var p := Piece(noise, b);
    RenderOne(p);
    ResultsOne(decode, p);
    PiecesThen(decode, [p], more);
  }

  /** Characters that are no braces leave unfinished text unfinished. */
  lemma UnfinishedAround(x: string, e: string, y: string)
    requires Unfinished(x + y) && '{' !in e && '}' !in e
    ensures Unfinished(x + e + y)
  {
    var s, t := x + y, x + e + y;
    if NoOpen(s) {
      NoOpenAround(x, e, y);
    } else {
      var p :| 0 <= p < |s| && OpensForGood(s, p);
      if p < |x| {
        OpensBefore(x, e, y, p);
      } else {
        OpensBehind(x, e, y, p);
      }
    }
  }

  lemma NoOpenAround(x: string, e: string, y: string)
    requires NoOpen(x + y) && '{' !in e
    ensures NoOpen(x + e + y)
  {
    forall k | 0 <= k < |x + e + y| ensures (x + e + y)[k] != '{' {
      if k < |x| {
        assert (x + y)[k] == x[k];
      } else if k >= |x| + |e| {
        assert (x + y)[k - |e|] == y[k - |x| - |e|];
      }
    }
  }

  lemma OpensBefore(x: string, e: string, y: string, p: nat)
    requires p < |x| && OpensForGood(x + y, p) && '{' !in e && '}' !in e
    ensures OpensForGood(x + e + y, p)
  {
    var s, t := x + y, x + e + y;
    assert s[..p] == t[..p] && s[p] == t[p] == x[p];
    assert s[p..] == x[p..] + y && t[p..] == x[p..] + e + y;
    forall k | 0 < k <= |t| - p ensures OpenAt(t[p..], k) {
      var n := |x[p..]|;
      DepthAround(x[p..], e, y, k);
      assert OpenAt(s[p..], if k <= n then k else if k <= n + |e| then n else k - |e|);
    }
  }

  lemma OpensBehind(x: string, e: string, y: string, p: nat)
    requires |x| <= p < |x + y| && OpensForGood(x + y, p) && '{' !in e
    ensures OpensForGood(x + e + y, p + |e|)
  {
    var s, t, q := x + y, x + e + y, p + |e|;
    assert s[p..] == y[p - |x|..] == t[q..];
    assert s[..p] == x + y[..p - |x|] && t[..q] == x + e + y[..p - |x|];
    NoOpenAround(x, e, y[..p - |x|]);
  }

  lemma PutInNoise(decode: Decoder, e: string, ps: seq<Piece>, x: string, y: string, block: string, more: string)
    requires AllPieces(ps) && NoOpen(x) && NoOpen(y) && IsBlock(block) && '{' !in e
    ensures Batch(decode, (Render(ps) + x) + (y + block + more)).outs
         == Batch(decode, (Render(ps) + x) + e + (y + block + more)).outs
  {
    var r := Render(ps);
    assert (r + x) + (y + block + more) == r + ((x + y) + block + more);
    assert (r + x) + e + (y + block + more) == r + ((x + e + y) + block + more);
    NoOpenAround(x, e, y);
    PiecesThen(decode, ps, (x + y) + block + more);
    PiecesThen(decode, ps, (x + e + y) + block + more);
    BlockThen(decode, x + y, block, more);
    BlockThen(decode, x + e + y, block, more);
  }

  lemma PutInBlock(decode: Decoder, e: string, ps: seq<Piece>, noise: string, x: string, y: string, more: string)
    requires AllPieces(ps) && NoOpen(noise) && x != [] && y != [] && IsBlock(x + y) && '{' !in e && '}' !in e
    ensures Batch(decode, (Render(ps) + (noise + x)) + (y + more)).outs
         == Results(decode, ps) + (Reported(decode, x + y) + Batch(decode, more).outs)
    ensures Batch(decode, (Render(ps) + (noise + x)) + e + (y + more)).outs
         == Results(decode, ps) + (Reported(decode, x + e + y) + Batch(decode, more).outs)
  {
    var r := Render(ps);
    assert (r + (noise + x)) + (y + more) == r + (noise + (x + y) + more);
    assert (r + (noise + x)) + e + (y + more) == r + (noise + (x + e + y) + more);
    BlockAround(x, e, y);
    PiecesThen(decode, ps, noise + (x + y) + more);
    PiecesThen(decode, ps, noise + (x + e + y) + more);
    BlockThen(decode, noise, x + y, more);
    BlockThen(decode, noise, x + e + y, more);
  }

  lemma PutInRest(decode: Decoder, e: string, ps: seq<Piece>, x: string, y: string)
    requires AllPieces(ps) && Unfinished(x + y) && '{' !in e && '}' !in e
    ensures Batch(decode, (Render(ps) + x) + y).outs == Batch(decode, (Render(ps) + x) + e + y).outs
  {
    var r := Render(ps);
    assert (r + x) + y == r + (x + y) && (r + x) + e + y == r + (x + e + y);
    UnfinishedAround(x, e, y);
    PiecesThen(decode, ps, x + y);
    PiecesThen(decode, ps, x + e + y);
    BatchStop(decode, x + y);
    BatchStop(decode, x + e + y);
  }

  /** With characters that are no braces put in at a place, only the block there becomes another one. */
  lemma PutIn(decode: Decoder, a: string, e: string, b: string, ps: seq<Piece>, p: Place)
    requires IsPlace(a, b, ps, p) && '{' !in e && '}' !in e
    ensures var plain, torn := Batch(decode, a + b).outs, Batch(decode, a + e + b).outs;
            match p
            case InNoise(_, _, _, _) => plain == torn
            case InBlock(_, x, y, more) =>
              && plain == Results(decode, ps) + (Reported(decode, x + y) + Batch(decode, more).outs)
              && torn == Results(decode, ps) + (Reported(decode, x + e + y) + Batch(decode, more).outs)
            case InRest(_, _) => plain == torn
  {
    match p
    case InNoise(x, y, block, more) => PutInNoise(decode, e, ps, x, y, block, more);
    case InBlock(noise, x, y, more) => PutInBlock(decode, e, ps, noise, x, y, more);
    case InRest(x, y) => PutInRest(decode, e, ps, x, y);
  }

  /** Between `a` and `b` lies the block of a result. */
  ghost predicate CutsResult(decode: Decoder, a: string, b: string) {
    exists ps, p :: IsPlace(a, b, ps, p) && p.InBlock? && Reported(decode, p.x + p.y) != []
  }

  /** The decoder accepts no text with an escape character in it, as no JSON decoder does. */
  ghost predicate RejectsEscape(decode: Decoder) { forall b: string :: ESC in b ==> decode(b) == None }

  /** What the chunks before a boundary come to, and the ones after it. */
  function Before(cs: seq<string>, x: string): string { Concat(CleanEach(cs)) + Clean(x) }

  function Behind(y: string, ds: seq<string>): string { Clean(y) + Concat(CleanEach(ds)) }

  lemma {:induction false} ConcatAppend(cs: seq<string>, ds: seq<string>)
    ensures Concat(CleanEach(cs + ds)) == Concat(CleanEach(cs)) + Concat(CleanEach(ds))
  {
    if cs == [] {
      assert cs + ds == ds;
    } else {
      ConcatAppend(cs[1..], ds);
      CleanEachHead(cs);
      CleanEachHead(cs + ds);
      assert (cs + ds)[1..] == cs[1..] + ds;
      Assoc(Clean(cs[0]), Concat(CleanEach(cs[1..])), Concat(CleanEach(ds)));
    }
  }

  lemma AroundBoundary(cs: seq<string>, a: string, b: string, ds: seq<string>)
    ensures Concat(CleanEach(cs + [a, b] + ds)) == Concat(CleanEach(cs)) + (Clean(a) + Clean(b)) + Concat(CleanEach(ds))
  {
    ConcatAppend(cs + [a, b], ds);
    ConcatAppend(cs, [a, b]);
    TwoChunks(a, b);
  }

  lemma Regroup(c: string, x: string, e: string, y: string, d: string)
    ensures c + (x + e + y) + d == c + x + e + (y + d)
  {
  }

  lemma RegroupPlain(c: string, x: string, y: string, d: string)
    ensures c + (x + y) + d == c + x + (y + d)
  {
  }

  /** The text received when the boundary tears the sequence. */
  lemma TornText(cs: seq<string>, x: string, e: string, m: nat, y: string, ds: seq<string>)
    requires EscapeAt(e, 0, |e|) && 0 < m < |e|
    ensures Concat(CleanEach(cs + [x + e[..m], e[m..] + y] + ds)) == Before(cs, x) + e + Behind(y, ds)
  {
    AroundBoundary(cs, x + e[..m], e[m..] + y, ds);
    CleanFront(x, e, m);
    CleanBack(e, y, m);
    Rejoin(Clean(x), e, Clean(y), m);
    Regroup(Concat(CleanEach(cs)), Clean(x), e, Clean(y), Concat(CleanEach(ds)));
  }

  /** And when it comes after it. */
  lemma WholeText(cs: seq<string>, x: string, e: string, y: string, ds: seq<string>)
    requires EscapeAt(e, 0, |e|)
    ensures Concat(CleanEach(cs + [x + e, y] + ds)) == Before(cs, x) + Behind(y, ds)
  {
    AroundBoundary(cs, x + e, y, ds);
    CleanWhole(x, e, []);
    assert e + [] == e && Clean(x) + Clean([]) == Clean(x);
    RegroupPlain(Concat(CleanEach(cs)), Clean(x), Clean(y), Concat(CleanEach(ds)));
  }

  /** In a run over any number of chunks, a boundary inside an escape sequence changes what is reported,
      compared with the same boundary behind the sequence, if and only if the sequence lies inside the
      block of a result. */
  lemma TearMattersIff(decode: Decoder, cs: seq<string>, x: string, e: string, m: nat, y: string, ds: seq<string>)
    requires EscapeAt(e, 0, |e|) && 0 < m < |e| && RejectsEscape(decode)
    ensures var torn := Stream(ScannerOf(decode), "", cs + [x + e[..m], e[m..] + y] + ds);
            var whole := Stream(ScannerOf(decode), "", cs + [x + e, y] + ds);
            torn.outs != whole.outs <==> CutsResult(decode, Before(cs, x), Behind(y, ds))
  {
    var a, b := Before(cs, x), Behind(y, ds);
    StreamingEqualsBatch(decode, cs + [x + e[..m], e[m..] + y] + ds);
    StreamingEqualsBatch(decode, cs + [x + e, y] + ds);
    TornText(cs, x, e, m, y, ds);
    WholeText(cs, x, e, y, ds);
    if CutsResult(decode, a, b) {
      var ps, p :| IsPlace(a, b, ps, p) && p.InBlock? && Reported(decode, p.x + p.y) != [];
      TornLoses(decode, a, e, b, ps, p);
    } else {
      NothingIsLost(a + b);
      var ps, p := Locate(a, b, ParseOf(a + b));
      EscapeHasNoBrace(e);
      PutIn(decode, a, e, b, ps, p);
      if p.InBlock? { TornBlock(decode, p.x, e, p.y); }
    }
  }

  lemma TornBlock(decode: Decoder, x: string, e: string, y: string)
    requires EscapeAt(e, 0, |e|) && RejectsEscape(decode)
    ensures Reported(decode, x + e + y) == []
  {
    assert (x + e + y)[|x|] == e[0] == ESC;
  }

  /** That result is lost, and nothing else is. */
  lemma TornLoses(decode: Decoder, a: string, e: string, b: string, ps: seq<Piece>, p: Place)
    requires EscapeAt(e, 0, |e|) && RejectsEscape(decode)
    requires IsPlace(a, b, ps, p) && p.InBlock? && Reported(decode, p.x + p.y) != []
    ensures var out := decode(p.x + p.y);
            && out.Some? && Accept(out.value).Some?
            && Batch(decode, a + b).outs
               == Results(decode, ps) + [Accept(out.value).value] + Batch(decode, p.more).outs
            && Batch(decode, a + e + b).outs == Results(decode, ps) + Batch(decode, p.more).outs
            && Batch(decode, a + b).outs != Batch(decode, a + e + b).outs
  {
    EscapeHasNoBrace(e);
    PutIn(decode, a, e, b, ps, p);
    TornBlock(decode, p.x, e, p.y);
    var u, w, one := Results(decode, ps), Batch(decode, p.more).outs, Reported(decode, p.x + p.y);
    assert u + (one + w) == u + one + w && [] + w == w;
    assert |u + one + w| == |u + w| + 1;
  }
}
