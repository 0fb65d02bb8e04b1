/** The server address in a kubeconfig: reading it out, and replacing it by another one. */
module Kubeconfig {
  import opened Options
  import opened Text

  const SERVER := "server: "
  const HTTPS := "https://"

  /** The address between `https://` and the port, after the first `server: `; `None` where the source
      indexes past the end of the parts and panics. */
  function ExtractServerIp(content: string): Option<string> {
    var parts := Split(content, SERVER);
    if |parts| < 2 then None
    else
      var line := Split(parts[1], "\n")[0];
      var host := Join(Split(line, HTTPS)[1..], "");
      Some(Split(host, ":")[0])
  }

  datatype Update = Rejected | Panics | Written(text: string)

  /** The kubeconfig with every occurrence of the old address replaced. `None` is a file that cannot be
      read. */
  function UpdateKubeConfig(content: Option<string>, newIp: string, product: string): Update {
    if newIp == "" || product == "" || content.None? then Rejected
    else
      match ExtractServerIp(content.value)
      case None => Panics
      case Some(oldIp) => Written(ReplaceAll(content.value, oldIp, newIp))
  }

  // ---- Splitting at what is known to come first ----

  /** Text in which `sep` does not begin stays in the first part. */
  lemma SplitHead(a: string, b: string, sep: string) returns (y: string)
    requires sep != [] && forall i :: 0 <= i < |a| ==> !OccursAt(a + b, sep, i)
    ensures Split(a + b, sep)[0] == a + y && y <= b
  {
    IndexOfMeaning(a + b, sep);
    match IndexOf(a + b, sep)
    case None => y := b;
    case Some(i) =>
      assert i >= |a|;
      y := b[..i - |a|];
      assert (a + b)[..i] == a + y;
  }

  lemma {:induction false} JoinHead(parts: seq<string>)
    requires parts != []
    ensures parts[0] <= Join(parts, "")
  {
  }

  /** The source panics exactly on a text without `server: `. */
  lemma ExtractPanicsIff(content: string)
    ensures ExtractServerIp(content).None? <==> !Contains(content, SERVER)
  {
    IndexOfMeaning(content, SERVER);
  }

  /** The four cuts of the extraction: the text behind the first `server: ` as far as the second one, its
      first line, what is behind the first `https://` in that with all others taken out, and that as far as
      the first colon. */
  ghost predicate IsExtracted(ip: string, content: string, parts: seq<string>, lines: seq<string>, hosts: seq<string>,
                              fields: seq<string>)
  {
    && IsCut(content, "server: ", parts) && 2 <= |parts|
    && IsCut(parts[1], "\n", lines)
    && IsCut(lines[0], "https://", hosts)
    && IsCut(Join(hosts[1..], ""), ":", fields)
    && ip == fields[0]
  }

  /** What is read out of any text at all. */
  lemma ExtractMeaning(content: string, ip: string)
    ensures ExtractServerIp(content) == Some(ip)
       <==> exists parts, lines, hosts, fields :: IsExtracted(ip, content, parts, lines, hosts, fields)
  {
    var parts := Split(content, "server: ");
    SplitIsCut(content, "server: ");
    if 2 <= |parts| {
      var lines := Split(parts[1], "\n");
      var hosts := Split(lines[0], "https://");
      var rest := Join(hosts[1..], "");
      SplitIsCut(parts[1], "\n");
      SplitIsCut(lines[0], "https://");
      SplitIsCut(rest, ":");
      assert IsExtracted(Split(rest, ":")[0], content, parts, lines, hosts, Split(rest, ":"));
    }
    if ps, ls, hs, fs :| IsExtracted(ip, content, ps, ls, hs, fs) { ExtractedIs(ip, content, ps, ls, hs, fs); }
  }

  lemma ExtractedIs(ip: string, content: string, parts: seq<string>, lines: seq<string>, hosts: seq<string>,
                    fields: seq<string>)
    requires IsExtracted(ip, content, parts, lines, hosts, fields)
    ensures ExtractServerIp(content) == Some(ip)
  {
    CutIsSplit(content, "server: ", parts);
    CutIsSplit(parts[1], "\n", lines);
    CutIsSplit(lines[0], "https://", hosts);
    CutIsSplit(Join(hosts[1..], ""), ":", fields);
  }

  // ---- Reading the address out ----

  /** With the colon between them, the end of the address and the text after the colon make up a
      `server: ` or an `https://` of their own. A port after the colon rules this out. */
  predicate RunsInto(ip: string, post: string) {
    || (EndsIn(ip, "server") && " " <= post)
    || (EndsIn(ip, "https") && "//" <= post)
  }

  predicate EndsIn(s: string, p: string) { |p| <= |s| && s[|s| - |p|..] == p }

  /** No colon, no line break, and no text of its own made with what follows. */
  predicate IsHost(ip: string, post: string) { ':' !in ip && '\n' !in ip && !RunsInto(ip, post) }

  /** One differing character is enough. */
  lemma Mismatch(s: string, p: string, i: nat, j: nat)
    requires i + j < |s| && j < |p| && s[i + j] != p[j]
    ensures !OccursAt(s, p, i)
  {
    assert s[i..][j] == s[i + j];
  }

  /** What an occurrence says of the characters. */
  lemma Matches(s: string, p: string, i: nat)
    requires i <= |s| && OccursAt(s, p, i)
    ensures i + |p| <= |s| && s[i..i + |p|] == p
  {
    assert s[i..][..|p|] == p;
  }

  /** `p` ends in a colon and `q`. If it begins before the colon of `a + ":" + b`, where `a` has no
      colon, then `a` ends in the part of `p` before its colon and `b` begins with `q`. */
  lemma OccursAcross(a: string, b: string, p: string, q: string, i: nat)
    requires ':' !in a && ':' !in p && i <= |a| && OccursAt(a + ":" + b, p + ":" + q, i)
    ensures i + |p| == |a| && EndsIn(a, p) && q <= b
  {
    var s, pattern := a + ":" + b, p + ":" + q;
    Matches(s, pattern, i);
    assert s[i + |p|] == s[i..i + |pattern|][|p|] == ':';
    assert forall k :: 0 <= k < |a| ==> s[k] != ':';
    forall k | i <= k < i + |p| ensures s[k] != ':' {
      assert s[k] == s[i..i + |pattern|][k - i] == p[k - i];
    }
    assert s[|a|] == ':';
    assert a[i..] == s[i..i + |pattern|][..|p|] == p;
    assert b[..|q|] == s[i..i + |pattern|][|p| + 1..] == q;
  }

  lemma ServerNotInside(ip: string, post: string, i: nat)
    requires IsHost(ip, post) && i < |HTTPS + ip + ":"|
    ensures !OccursAt(HTTPS + ip + ":" + post, SERVER, i)
  {
    var s, t := HTTPS + ip + ":" + post, ("//" + ip) + ":" + post;
    if i < 6 {
      assert s[5] == ':';
      Mismatch(s, SERVER, i, 5 - i);
    } else {
      AfterScheme(ip, post, i);
      if OccursAt(t, SERVER, i - 6) {
        assert SERVER == "server" + ":" + " ";
        OccursAcross("//" + ip, post, "server", " ", i - 6);
        SlashesDoNotMatter(ip, "server");
      }
    }
  }

  lemma AfterScheme(ip: string, post: string, i: nat)
    requires 6 <= i < |HTTPS + ip + ":"|
    ensures i - 6 <= |("//" + ip) + ":" + post|
    ensures (HTTPS + ip + ":" + post)[i..] == (("//" + ip) + ":" + post)[i - 6..]
  {
    var s, t := HTTPS + ip + ":" + post, ("//" + ip) + ":" + post;
    assert HTTPS == "https:" + "//";
    assert s == "https:" + t;
  }

  lemma SlashesDoNotMatter(ip: string, p: string)
    requires '/' !in p && EndsIn("//" + ip, p)
    ensures EndsIn(ip, p)
  {
    var t := "//" + ip;
    assert t[1] == '/';
    forall k | |t| - |p| <= k < |t| ensures t[k] != '/' {
      assert t[k] == p[k - (|t| - |p|)];
    }
    assert t[|t| - |p|..] == ip[|ip| - |p|..];
  }

  lemma HttpsNotInside(ip: string, z: string, i: nat)
    requires ':' !in ip && !(EndsIn(ip, "https") && "//" <= z) && i < |ip + ":"|
    ensures !OccursAt(ip + ":" + z, HTTPS, i)
  {
    assert HTTPS == "https" + ":" + "//";
    if OccursAt(ip + ":" + z, HTTPS, i) {
      OccursAcross(ip, z, "https", "//", i);
    }
  }

  lemma NoNewline(ip: string, y: string, i: nat)
    requires '\n' !in ip && i < |HTTPS + ip + ":"|
    ensures !OccursAt(HTTPS + ip + ":" + y, "\n", i)
  {
    var head := HTTPS + ip + ":";
    assert head[i] == if i < |HTTPS| then HTTPS[i] else if i < |HTTPS| + |ip| then ip[i - |HTTPS|] else ':';
    Mismatch(head + y, "\n", i, 0);
  }

  /** What stands between the first `server: https://` and the colon after it is read out. */
  lemma ExtractReads(pre: string, ip: string, post: string)
    requires IsHost(ip, post)
    requires forall i :: 0 <= i < |pre| ==> !OccursAt(pre + SERVER + (HTTPS + ip + ":" + post), SERVER, i)
    ensures ExtractServerIp(pre + SERVER + (HTTPS + ip + ":" + post)) == Some(ip)
  {
    var head := HTTPS + ip + ":";
    SplitAt(pre, SERVER, head + post);
    forall i | 0 <= i < |head| ensures !OccursAt(head + post, SERVER, i) { ServerNotInside(ip, post, i); }
    var y := SplitHead(head, post, SERVER);
    forall i | 0 <= i < |head| ensures !OccursAt(head + y, "\n", i) { NoNewline(ip, y, i); }
    var z := SplitHead(head, y, "\n");
    LineReads(ip, z, post);
  }

  /** The address in the rest of the line, of which `z` comes after the colon. */
  lemma LineReads(ip: string, z: string, post: string)
    requires IsHost(ip, post) && z <= post
    ensures var parts := Split(HTTPS + ip + ":" + z, HTTPS);
            Split(Join(parts[1..], ""), ":")[0] == ip
  {
    assert HTTPS + ip + ":" + z == [] + HTTPS + (ip + ":" + z);
    SplitAt([], HTTPS, ip + ":" + z);
    forall i | 0 <= i < |ip + ":"| ensures !OccursAt(ip + ":" + z, HTTPS, i) { HttpsNotInside(ip, z, i); }
    var u := SplitHead(ip + ":", z, HTTPS);
    var parts := Split(ip + ":" + z, HTTPS);
    assert parts[0] == ip + ":" + u;
    HostReads(ip, u, parts);
    assert Split(HTTPS + ip + ":" + z, HTTPS)[1..] == parts;
  }

  lemma HostReads(ip: string, u: string, parts: seq<string>)
    requires ':' !in ip && parts != [] && parts[0] == ip + ":" + u
    ensures Split(Join(parts, ""), ":")[0] == ip
  {
    JoinHead(parts);
    var j := Join(parts, "");
    assert ip + ":" <= j;
    var b := j[|ip| + 1..];
    assert j == ip + ":" + b;
    forall i | 0 <= i < |ip| ensures !OccursAt(ip + ":" + b, ":", i) {
      assert (ip + ":" + b)[i..][0] == ip[i];
    }
    SplitAt(ip, ":", b);
  }

  // ---- Replacing the address ----

  predicate IsAddressChar(c: char) { '0' <= c <= '9' || c == '.' }

  /** A non-empty string of digits and dots. */
  predicate IsAddress(s: string) { s != [] && forall i :: 0 <= i < |s| ==> IsAddressChar(s[i]) }

  /** A non-empty string with no digit and no dot in it. */
  predicate IsForeign(s: string) { s != [] && forall i :: 0 <= i < |s| ==> !IsAddressChar(s[i]) }

  /** An address cannot reach across foreign text. */
  lemma AddressStopsAt(addr: string, a: string, sep: string, b: string)
    requires IsAddress(addr) && IsForeign(sep) && addr <= a + sep + b
    ensures addr <= a
  {
    var s := a + sep + b;
    assert s[|a|] == sep[0] && forall k :: 0 <= k < |addr| ==> addr[k] == s[k];
  }

  lemma DropFront(a: string, p: string, b: string, n: nat)
    requires n <= |a|
    ensures (a + p + b)[n..] == a[n..] + p + b
  {
  }

  /** One round of the replacement takes `n` characters off the front and puts `head` there. */
  lemma RewriteRound(s: string, addr: string, value: string) returns (n: nat, head: string)
    requires s != [] && addr != []
    ensures 0 < n <= |s| && Rewrite(s, addr, value) == head + Rewrite(s[n..], addr, value)
    ensures if addr <= s then n == |addr| && head == value else n == 1 && head == [s[0]]
  {
    n, head := if addr <= s then |addr| else 1, if addr <= s then value else [s[0]];
  }

  lemma PutFront(head: string, x: string, sep: string, y: string)
    ensures head + (x + sep + y) == head + x + sep + y
  {
  }

  /** With foreign text behind it the replacement takes the same first round. */
  lemma SameRound(a: string, sep: string, b: string, addr: string, value: string) returns (n: nat, head: string)
    requires IsAddress(addr) && IsForeign(sep) && a != []
    ensures 0 < n <= |a|
    ensures Rewrite(a, addr, value) == head + Rewrite(a[n..], addr, value)
    ensures Rewrite(a + sep + b, addr, value) == head + Rewrite(a[n..] + sep + b, addr, value)
  {
    var s := a + sep + b;
    if addr <= s { AddressStopsAt(addr, a, sep, b); }
    n, head := RewriteRound(a, addr, value);
    var n', head' := RewriteRound(s, addr, value);
    assert addr <= a ==> addr <= s;
    DropFront(a, sep, b, n);
  }

  lemma {:induction false} RewriteAround(a: string, sep: string, b: string, addr: string, value: string)
    requires IsAddress(addr) && IsForeign(sep)
    ensures Rewrite(a + sep + b, addr, value) == Rewrite(a, addr, value) + sep + Rewrite(b, addr, value)
    decreases |a|
  {
    var s := a + sep + b;
    if a == [] {
      assert s == sep + b;
      RewriteStep(sep, b, addr, value);
    } else {
      var n, head := SameRound(a, sep, b, addr, value);
      RewriteAround(a[n..], sep, b, addr, value);
      PutFront(head, Rewrite(a[n..], addr, value), sep, Rewrite(b, addr, value));
    }
  }

  lemma RewriteStarts(a: string, addr: string, value: string)
    requires addr != [] && value != [] && addr <= a
    ensures value <= Rewrite(a, addr, value)
  {
  }

  /** Where foreign text begins after the replacement, it began before. */
  lemma {:induction false} ForeignWasThere(q: string, a: string, p: string, b: string, b': string, addr: string,
                                           value: string)
    requires IsAddress(addr) && IsAddress(value) && (q == [] || IsForeign(q)) && |q| <= |p|
    requires q <= Rewrite(a, addr, value) + p + b'
    ensures q <= a + p + b
    decreases |a|
  {
    if q != [] {
      var s := Rewrite(a, addr, value) + p + b';
      assert q[0] == s[0];
      if a == [] {
        assert s == p + b' && a + p + b == p + b;
      } else if addr <= a {
        RewriteStarts(a, addr, value);
      } else {
        assert s == [a[0]] + (Rewrite(a[1..], addr, value) + p + b');
        assert q[1..] <= s[1..];
        ForeignWasThere(q[1..], a[1..], p, b, b', addr, value);
        assert a + p + b == [a[0]] + (a[1..] + p + b);
        assert q == [q[0]] + q[1..];
      }
    }
  }

  /** One round of the replacement: a piece of `n` characters becomes one of `m`. */
  function PieceOf(a: string, addr: string, value: string): (nm: (nat, nat))
    requires a != [] && addr != []
    ensures 0 < nm.0 <= |a|
  {
    if addr <= a then (|addr|, |value|) else (1, 1)
  }

  lemma RewritePiece(a: string, addr: string, value: string)
    requires a != [] && addr != []
    ensures var nm, r := PieceOf(a, addr, value), Rewrite(a, addr, value);
            nm.1 <= |r| && r[nm.1..] == Rewrite(a[nm.0..], addr, value)
  {
    var nm, r := PieceOf(a, addr, value), Rewrite(a, addr, value);
    var head := if addr <= a then value else [a[0]];
    assert r == head + Rewrite(a[nm.0..], addr, value);
  }

  lemma LaterPieces(a: string, p: string, b: string, n: nat)
    requires n <= |a| && forall k :: 0 <= k < |a| ==> !OccursAt(a + p + b, p, k)
    ensures forall k :: 0 <= k < |a[n..]| ==> !OccursAt(a[n..] + p + b, p, k)
  {
    forall k | 0 <= k < |a[n..]| ensures !OccursAt(a[n..] + p + b, p, k) {
      DropFront(a, p, b, n);
      assert (a[n..] + p + b)[k..] == (a + p + b)[n + k..];
      assert !OccursAt(a + p + b, p, n + k);
    }
  }

  /** No foreign text begins in the piece that comes first. */
  lemma NotInFirstPiece(a: string, p: string, b: string, b': string, addr: string, value: string, i: nat)
    requires IsAddress(addr) && IsAddress(value) && IsForeign(p) && a != []
    requires !OccursAt(a + p + b, p, 0) && i < PieceOf(a, addr, value).1
    ensures !OccursAt(Rewrite(a, addr, value) + p + b', p, i)
  {
    var s' := Rewrite(a, addr, value) + p + b';
    if addr <= a {
      RewriteStarts(a, addr, value);
      assert s'[i] == value[i];
      Mismatch(s', p, i, 0);
    } else {
      assert (a + p + b)[0..] == a + p + b && s'[0..] == s';
      if p <= s' {
        ForeignWasThere(p, a, p, b, b', addr, value);
      }
    }
  }

  /** The first `p` stays the first: replacing an address by an address makes no foreign text. */
  lemma {:induction false} FirstStaysFirst(a: string, p: string, b: string, b': string, addr: string, value: string,
                                           i: nat)
    requires IsAddress(addr) && IsAddress(value) && IsForeign(p)
    requires forall k :: 0 <= k < |a| ==> !OccursAt(a + p + b, p, k)
    requires i < |Rewrite(a, addr, value)|
    ensures !OccursAt(Rewrite(a, addr, value) + p + b', p, i)
    decreases |a|
  {
    var nm := PieceOf(a, addr, value);
    if i < nm.1 {
      NotInFirstPiece(a, p, b, b', addr, value, i);
    } else {
      var r, t' := Rewrite(a, addr, value), Rewrite(a[nm.0..], addr, value) + p + b';
      RewritePiece(a, addr, value);
      DropFront(r, p, b', nm.1);
      LaterPieces(a, p, b, nm.0);
      FirstStaysFirst(a[nm.0..], p, b, b', addr, value, i - nm.1);
      assert (r + p + b')[i..] == t'[i - nm.1..];
    }
  }

  /** The first `server: ` is followed by `https://`, the address and a colon. */
  ghost predicate IsKubeconfig(content: string, pre: string, ip: string, post: string) {
    && content == pre + SERVER + (HTTPS + ip + ":" + post)
    && forall i :: 0 <= i < |pre| ==> !OccursAt(content, SERVER, i)
  }

  /** The old address, where it is followed by a colon, becomes the new one. */
  lemma HostRewrites(oldIp: string, post: string, newIp: string)
    requires IsAddress(oldIp)
    ensures Rewrite(oldIp + ":" + post, oldIp, newIp) == newIp + ":" + Rewrite(post, oldIp, newIp)
  {
    var s := oldIp + ":" + post;
    assert oldIp <= s && s[|oldIp|..] == ":" + post;
    RewriteStep(":", post, oldIp, newIp);
    assert newIp + (":" + Rewrite(post, oldIp, newIp)) == newIp + ":" + Rewrite(post, oldIp, newIp);
  }

  lemma TailRewrites(oldIp: string, post: string, newIp: string)
    requires IsAddress(oldIp)
    ensures Rewrite(HTTPS + oldIp + ":" + post, oldIp, newIp) == HTTPS + newIp + ":" + Rewrite(post, oldIp, newIp)
  {
    HostRewrites(oldIp, post, newIp);
    PutFront(HTTPS, oldIp, ":", post);
    RewriteStep(HTTPS, oldIp + ":" + post, oldIp, newIp);
    PutFront(HTTPS, newIp, ":", Rewrite(post, oldIp, newIp));
  }

  /** The text around the address after the replacement. */
  lemma UpdateKeepsShape(pre: string, oldIp: string, post: string, newIp: string)
    requires IsAddress(oldIp)
    ensures ReplaceAll(pre + SERVER + (HTTPS + oldIp + ":" + post), oldIp, newIp)
         == Rewrite(pre, oldIp, newIp) + SERVER + (HTTPS + newIp + ":" + Rewrite(post, oldIp, newIp))
  {
    RewriteAround(pre, SERVER, HTTPS + oldIp + ":" + post, oldIp, newIp);
    TailRewrites(oldIp, post, newIp);
  }

  lemma LastOf(s: string, p: string)
    requires p != []
    ensures EndsIn(s, p) ==> s != [] && s[|s| - 1] == p[|p| - 1]
  {
  }

  lemma AddressIsHost(ip: string, post: string)
    requires IsAddress(ip)
    ensures IsHost(ip, post)
  {
    LastOf(ip, "server");
    LastOf(ip, "https");
  }

  /** Round trip: whatever else is in the file, and wherever else the old address occurs in it, after the
      update the address read out is the new one. */
  lemma UpdateThenExtract(content: string, pre: string, oldIp: string, post: string, newIp: string, product: string)
    requires IsKubeconfig(content, pre, oldIp, post) && IsAddress(oldIp) && IsAddress(newIp) && product != ""
    ensures var updated := UpdateKubeConfig(Some(content), newIp, product);
            updated.Written? && ExtractServerIp(updated.text) == Some(newIp)
  {
    AddressIsHost(oldIp, post);
    AddressIsHost(newIp, Rewrite(post, oldIp, newIp));
    ExtractReads(pre, oldIp, post);
    UpdateKeepsShape(pre, oldIp, post, newIp);
    var pre', post' := Rewrite(pre, oldIp, newIp), Rewrite(post, oldIp, newIp);
    var tail, tail' := HTTPS + oldIp + ":" + post, HTTPS + newIp + ":" + post';
    forall i | 0 <= i < |pre'| ensures !OccursAt(pre' + SERVER + tail', SERVER, i) {
      FirstStaysFirst(pre, SERVER, tail, tail', oldIp, newIp, i);
    }
    ExtractReads(pre', newIp, Rewrite(post, oldIp, newIp));
  }

  // ---- What is written ----

  /** The text is the old one with every occurrence of the address, and nothing else, replaced. An empty
      address stands before each character and at the end. */
  ghost predicate IsReplaced(text: string, content: string, oldIp: string, newIp: string) {
    && (oldIp != "" ==> exists parts :: IsCut(content, oldIp, parts) && text == Join(parts, newIp))
    && (oldIp == "" ==> text == Join([""] + Singles(content) + [""], newIp))
  }

  /** When the update is refused, when it panics, and what it writes otherwise. */
  lemma UpdateMeaning(content: Option<string>, newIp: string, product: string)
    ensures var updated := UpdateKubeConfig(content, newIp, product);
            && (updated.Rejected? <==> newIp == "" || product == "" || content.None?)
            && (updated.Panics? <==> newIp != "" && product != "" && content.Some?
                                     && !Contains(content.value, "server: "))
            && (updated.Written? ==> content.Some? && ExtractServerIp(content.value).Some?
                                     && IsReplaced(updated.text, content.value, ExtractServerIp(content.value).value,
                                                   newIp))
  {
    if content.Some? && newIp != "" && product != "" {
      ExtractPanicsIff(content.value);
      match ExtractServerIp(content.value)
      case None =>
      case Some(oldIp) => ReplaceMeaning(content.value, oldIp, newIp);
    }
  }

  /** If the old address stands in the server line only, that line has the new one afterwards and the
      rest of the file is what it was. */
  lemma UpdateChangesServerOnly(content: string, pre: string, oldIp: string, post: string, newIp: string,
                                product: string)
    requires IsKubeconfig(content, pre, oldIp, post) && IsAddress(oldIp) && newIp != "" && product != ""
    requires !Contains(pre, oldIp) && !Contains(post, oldIp)
    ensures content == pre + "server: " + ("https://" + oldIp + ":" + post)
    ensures UpdateKubeConfig(Some(content), newIp, product)
         == Written(pre + "server: " + ("https://" + newIp + ":" + post))
  {
    AddressIsHost(oldIp, post);
    ExtractReads(pre, oldIp, post);
    UpdateKeepsShape(pre, oldIp, post, newIp);
    RewriteAbsent(pre, oldIp, newIp);
    RewriteAbsent(post, oldIp, newIp);
  }

  // ---- Addresses of any other form ----

  /** What is read out never holds a colon or a line break. */
  lemma {:induction false} SplitPartsLack(s: string, sep: string)
    requires |sep| == 1
    ensures forall i :: 0 <= i < |Split(s, sep)| ==> sep[0] !in Split(s, sep)[i]
    decreases |s|
  {
    IndexOfMeaning(s, sep);
    var n := match IndexOf(s, sep) case None => |s| case Some(k) => k;
    forall i | 0 <= i < n ensures s[i] != sep[0] {
      assert !OccursAt(s, sep, i);
      assert s[i..][0] == s[i];
    }
    if IndexOf(s, sep).Some? {
      SplitPartsLack(s[n + 1..], sep);
    }
  }

  lemma {:induction false} SplitPartsWithin(s: string, sep: string, i: nat, c: char)
    requires sep != [] && i < |Split(s, sep)| && c in Split(s, sep)[i]
    ensures c in s
    decreases |s|
  {
    match IndexOf(s, sep)
    case None =>
    case Some(n) => if i > 0 { SplitPartsWithin(s[n + |sep|..], sep, i - 1, c); }
  }

  lemma {:induction false} JoinWithin(parts: seq<string>, c: char) returns (i: nat)
    requires c in Join(parts, "")
    ensures i < |parts| && c in parts[i]
  {
    if |parts| == 1 || c in parts[0] {
      i := 0;
    } else {
      i := JoinWithin(parts[1..], c);
      i := i + 1;
    }
  }

  lemma ExtractLacks(content: string)
    requires ExtractServerIp(content).Some?
    ensures ':' !in ExtractServerIp(content).value && '\n' !in ExtractServerIp(content).value
  {
    var line := Split(Split(content, SERVER)[1], "\n")[0];
    var hosts := Split(line, HTTPS)[1..];
    var host := Join(hosts, "");
    SplitPartsLack(Split(content, SERVER)[1], "\n");
    SplitPartsLack(host, ":");
    if '\n' in Split(host, ":")[0] {
      SplitPartsWithin(host, ":", 0, '\n');
      var i := JoinWithin(hosts, '\n');
      SplitPartsWithin(line, HTTPS, i + 1, '\n');
    }
  }

  /** No `server: ` begins in `a` when one follows it. */
  ghost predicate IsBeforeFirst(a: string) {
    forall i :: 0 <= i < |a| ==> !OccursAt(a + SERVER, SERVER, i)
  }

  /** As long as the replacement makes no `server: ` before the first one and none with the text after
      the address, the round trip gives back exactly those new addresses that have no colon and no line
      break in them: it fails for every IPv6 address. */
  lemma RoundTripExactly(content: string, pre: string, oldIp: string, post: string, newIp: string, product: string)
    requires IsKubeconfig(content, pre, oldIp, post) && IsAddress(oldIp) && newIp != "" && product != ""
    requires IsBeforeFirst(Rewrite(pre, oldIp, newIp)) && !RunsInto(newIp, Rewrite(post, oldIp, newIp))
    ensures var updated := UpdateKubeConfig(Some(content), newIp, product);
            updated.Written? && (ExtractServerIp(updated.text) == Some(newIp) <==> ':' !in newIp && '\n' !in newIp)
  {
    AddressIsHost(oldIp, post);
    ExtractReads(pre, oldIp, post);
    UpdateKeepsShape(pre, oldIp, post, newIp);
    ExtractAfter(Rewrite(pre, oldIp, newIp), newIp, Rewrite(post, oldIp, newIp));
  }

  /** The new address is read back exactly if it has no colon and no line break in it. */
  lemma ExtractAfter(pre: string, newIp: string, post: string)
    requires IsBeforeFirst(pre) && !RunsInto(newIp, post)
    ensures ExtractServerIp(pre + SERVER + (HTTPS + newIp + ":" + post)) == Some(newIp)
       <==> ':' !in newIp && '\n' !in newIp
  {
    var tail := HTTPS + newIp + ":" + post;
    var s := pre + SERVER + tail;
    if ':' !in newIp && '\n' !in newIp {
      forall i | 0 <= i < |pre| ensures !OccursAt(s, SERVER, i) {
        assert pre + SERVER + [] == pre + SERVER;
        SameBefore(pre, SERVER, [], tail, i);
      }
      ExtractReads(pre, newIp, post);
    } else if ExtractServerIp(s).Some? {
      ExtractLacks(s);
    }
  }

  /** The first guard holds in particular if the old address does not occur before the server line. */
  lemma AbsentBeforeFirst(content: string, pre: string, oldIp: string, post: string, newIp: string)
    requires IsKubeconfig(content, pre, oldIp, post) && oldIp != "" && !Contains(pre, oldIp)
    ensures IsBeforeFirst(Rewrite(pre, oldIp, newIp))
  {
    RewriteAbsent(pre, oldIp, newIp);
    forall i | 0 <= i < |pre| ensures !OccursAt(pre + SERVER, SERVER, i) {
      assert !OccursAt(content, SERVER, i);
      SameBefore(pre, SERVER, HTTPS + oldIp + ":" + post, [], i);
      assert pre + SERVER + [] == pre + SERVER;
    }
  }
}
