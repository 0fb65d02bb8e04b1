/** What a scanner reports and keeps, and what that comes to when its text arrives in chunks. */
module Streaming {
  import opened AnsiCleaner

  datatype Verdict = Failed | Passed | Skipped

  /** One test result, as found in a block of the output. */
  datatype TestResult = TestResult(verdict: Verdict, name: string, kind: string, time: real)

  /** The results reported, and the text kept for later. */
  datatype Fed = Fed(outs: seq<TestResult>, rest: string)

  /** `later`, with `outs` reported first. */
  function Then(outs: seq<TestResult>, later: Fed): Fed { Fed(outs + later.outs, later.rest) }

  type Scanner = string -> Fed

  /** Scanning what was kept together with what arrives next continues the scan. */
  ghost predicate Continues(scan: Scanner) {
    forall a: string, b: string :: ContinuesAt(scan, a, b)
  }

  ghost predicate ContinuesAt(scan: Scanner, a: string, b: string) {
    scan(a + b) == Then(scan(a).outs, scan(scan(a).rest + b))
  }

  /** What is reported and kept when the chunks arrive one by one, each cleaned on its own. */
  function Stream(scan: Scanner, kept: string, chunks: seq<string>): Fed
    decreases |chunks|
  {
    if chunks == [] then Fed([], kept)
    else
      var now := scan(kept + Clean(chunks[0]));
      Then(now.outs, Stream(scan, now.rest, chunks[1..]))
  }

  lemma CleanEachHead(chunks: seq<string>)
    requires chunks != []
    ensures Concat(CleanEach(chunks)) == Clean(chunks[0]) + Concat(CleanEach(chunks[1..]))
  {
    assert CleanEach(chunks)[1..] == CleanEach(chunks[1..]);
  }

  lemma TwoChunks(a: string, b: string)
    ensures Concat(CleanEach([a, b])) == Clean(a) + Clean(b)
  {
    assert [a, b][1..] == [b];
    assert CleanEach([b][1..]) == [];
    assert CleanEach([b]) == [Clean(b)];
    assert CleanEach([a, b]) == [Clean(a), Clean(b)];
    assert [Clean(a), Clean(b)][1..] == [Clean(b)];
    assert Concat([Clean(b)][1..]) == [];
    assert Concat([Clean(b)]) == Clean(b);
  }

  lemma {:induction false} StreamFrom(scan: Scanner, a: string, chunks: seq<string>)
    requires Continues(scan)
    ensures Then(scan(a).outs, Stream(scan, scan(a).rest, chunks)) == scan(a + Concat(CleanEach(chunks)))
    decreases |chunks|
  {
    if chunks == [] {
      assert a + [] == a;
      assert scan(a).outs + [] == scan(a).outs;
    } else {
      var now, c, more := scan(a), Clean(chunks[0]), Concat(CleanEach(chunks[1..]));
      CleanEachHead(chunks);
      assert a + (c + more) == (a + c) + more;
      StreamFrom(scan, a + c, chunks[1..]);
      assert ContinuesAt(scan, a, c);
      var next := scan(now.rest + c);
      var later := Stream(scan, next.rest, chunks[1..]);
      assert now.outs + next.outs + later.outs == now.outs + (next.outs + later.outs);
    }
  }

  /** Streaming equals batch: however the text is cut into chunks, what is reported and what is kept
      are those of one scan over all of it. */
  lemma StreamIsBatch(scan: Scanner, chunks: seq<string>)
    requires Continues(scan) && scan("") == Fed([], "")
    ensures Stream(scan, "", chunks) == scan(Concat(CleanEach(chunks)))
  {
    StreamFrom(scan, "", chunks);
    var s := Stream(scan, "", chunks);
    assert [] + s.outs == s.outs;
    assert "" + Concat(CleanEach(chunks)) == Concat(CleanEach(chunks));
  }

  /** On the raw log: the cuts change nothing as long as none falls inside an escape sequence, for then
      the scanner receives exactly the cleaned log. */
  lemma StreamIsCleanedBatch(scan: Scanner, chunks: seq<string>)
    requires Continues(scan) && scan("") == Fed([], "")
    requires !SomeCutInEscape(chunks)
    ensures Stream(scan, "", chunks) == scan(Clean(Concat(chunks)))
  {
    StreamIsBatch(scan, chunks);
    CleanChunks(chunks);
  }
}
