/** Slack's timestamps: digits, a dot and digits. They are compared as strings; among timestamps of one
    shape that is the order of the times they denote. */
module Timestamps {
  import opened StringOrder

  predicate IsDigit(c: char) { '0' <= c <= '9' }

  predicate AllDigits(s: string) { forall i :: 0 <= i < |s| ==> IsDigit(s[i]) }

  function DigitOf(c: char): nat { if IsDigit(c) then (c - '0') as nat else 0 }

  /** The number that a string of digits denotes. */
  function Num(s: string): nat { if s == [] then 0 else Num(s[..|s| - 1]) * 10 + DigitOf(s[|s| - 1]) }

  function Pow10(n: nat): nat { if n == 0 then 1 else Pow10(n - 1) * 10 }

  lemma {:induction false} NumBound(s: string)
    ensures Num(s) < Pow10(|s|)
  {
    if s != [] { NumBound(s[..|s| - 1]); }
  }

  lemma {:induction false} NumFront(c: char, t: string)
    ensures Num([c] + t) == DigitOf(c) * Pow10(|t|) + Num(t)
  {
    if t == [] {
      assert [c] + t == [c] && [c][..0] == [];
    } else {
      var front := t[..|t| - 1];
      assert ([c] + t)[..|t|] == [c] + front;
      NumFront(c, front);
    }
  }

  lemma {:induction false} Times(d: nat, e: nat, p: nat)
    requires d < e
    ensures d * p + p <= e * p
  {
    if e == d + 1 {
      assert e * p == d * p + p;
    } else {
      Times(d, e - 1, p);
      assert e * p == (e - 1) * p + p;
    }
  }

  /** Among strings of digits of one length, the smaller string is the smaller number. */
  lemma {:induction false} NumOrder(x: string, y: string)
    requires |x| == |y| && AllDigits(x) && AllDigits(y)
    ensures Less(x, y) <==> Num(x) < Num(y)
  {
    if x != [] {
      var s, t := x[1..], y[1..];
      assert x == [x[0]] + s && y == [y[0]] + t;
      NumFront(x[0], s);
      NumFront(y[0], t);
      NumBound(s);
      NumBound(t);
      NumOrder(s, t);
      if DigitOf(x[0]) < DigitOf(y[0]) {
        Times(DigitOf(x[0]), DigitOf(y[0]), Pow10(|s|));
      } else if DigitOf(y[0]) < DigitOf(x[0]) {
        Times(DigitOf(y[0]), DigitOf(x[0]), Pow10(|s|));
      }
    }
  }

  /** Digits, a dot at `m`, and digits. */
  predicate IsStamp(ts: string, m: nat) {
    m < |ts| && ts[m] == '.' && AllDigits(ts[..m]) && AllDigits(ts[m + 1..])
  }

  /** The time, in units of the last decimal place. */
  function TimeOf(ts: string, m: nat): nat
    requires m < |ts|
  {
    Num(ts[..m] + ts[m + 1..])
  }

  lemma CutAt(ts: string, m: nat)
    requires m < |ts|
    ensures ts == ts[..m] + ([ts[m]] + ts[m + 1..])
  {
  }

  lemma DigitsJoin(x: string, u: string)
    requires AllDigits(x) && AllDigits(u)
    ensures AllDigits(x + u)
  {
  }

  /** The dot changes nothing. */
  lemma DotIsCommon(x: string, u: string, y: string, v: string)
    requires |x| == |y|
    ensures Less(x + (['.'] + u), y + (['.'] + v)) <==> Less(x + u, y + v)
  {
    LessBehind(x, ['.'] + u, y, ['.'] + v);
    LessBehind(['.'], u, ['.'], v);
    LessIrreflexive(['.']);
    LessBehind(x, u, y, v);
  }

  /** Comparing the strings is comparing the times. */
  lemma StampOrder(a: string, b: string, m: nat)
    requires |a| == |b| && IsStamp(a, m) && IsStamp(b, m)
    ensures Less(a, b) <==> TimeOf(a, m) < TimeOf(b, m)
  {
    CutAt(a, m);
    CutAt(b, m);
    DotIsCommon(a[..m], a[m + 1..], b[..m], b[m + 1..]);
    DigitsJoin(a[..m], a[m + 1..]);
    DigitsJoin(b[..m], b[m + 1..]);
    NumOrder(a[..m] + a[m + 1..], b[..m] + b[m + 1..]);
  }

  /** Different timestamps are different times. */
  lemma StampsDiffer(a: string, b: string, m: nat)
    requires |a| == |b| && IsStamp(a, m) && IsStamp(b, m)
    ensures a == b <==> TimeOf(a, m) == TimeOf(b, m)
  {
    LessTotal(a, b);
    StampOrder(a, b, m);
    StampOrder(b, a, m);
  }

  /** A time, and a later one that is less as a string: the shape matters. */
  lemma StampExamples()
    ensures TimeOf("12.05", 2) == 1205
    ensures Less("10.0", "9.0")
  {
    var digits := "12.05"[..2] + "12.05"[3..];
    assert digits == "1205";
    assert digits[..3] == "120" && "120"[..2] == "12" && "12"[..1] == "1" && "1"[..0] == [];
    assert Num("1") == 1;
    assert Num("12") == 12;
    assert Num("120") == 120;
    assert SmallerAt("10.0", "9.0", 0);
    SmallerIsLess("10.0", "9.0", 0);
  }
}
