/**
 * The post-processing of generated answers (`quitar_urls_duplicadas`), as the
 * code does it: collect every `https?://\S+` match of the whole text (repeats
 * included), then walk the lines; for each line and each collected URL that
 * the line contains, either record the URL as seen or, if it was seen
 * already, delete every occurrence of it from the line. Blank lines are
 * dropped and the others stripped and joined again with line feeds.
 */
module Sanitizer {
  import opened Text

  // ---------------------------------------------------------------------
  // The URL scanner standing in for `re.findall(r'https?://\S+', texto)`
  // ---------------------------------------------------------------------

  /** `p` occurs in `s` at position `i`. */
  predicate StartsAt(s: string, i: nat, p: string) {
    i + |p| <= |s| && s[i..i + |p|] == p
  }

  /** The end of the run of non-whitespace characters of `s` that starts at `k`. */
  function RunEnd(s: string, k: nat): (e: nat)
    requires k <= |s|
    ensures k <= e <= |s|
    ensures forall j :: k <= j < e ==> !IsSpace(s[j])
    ensures e == |s| || IsSpace(s[e])
    decreases |s| - k
  {
    if k == |s| || IsSpace(s[k]) then k else RunEnd(s, k + 1)
  }

  /**
   * The length of the match of `https?://\S+` at position `i`, or 0 when
   * there is none: the scheme prefix followed by the longest non-empty run of
   * non-whitespace characters. (After "https://" followed by whitespace the
   * pattern cannot fall back to "http", because the next character is 's'.)
   */
  function UrlLenAt(s: string, i: nat): nat
    requires i <= |s|
  {
    var p := if StartsAt(s, i, "https://") then 8 else if StartsAt(s, i, "http://") then 7 else 0;
    if p > 0 && i + p < |s| && !IsSpace(s[i + p]) then RunEnd(s, i + p) - i else 0
  }

  /** A string of the shape `https?://\S+`. */
  predicate IsUrl(u: string) {
    && ((StartsAt(u, 0, "http://") && |u| > 7) || (StartsAt(u, 0, "https://") && |u| > 8))
    && forall j :: 0 <= j < |u| ==> !IsSpace(u[j])
  }

  /** A match at `i` is a URL that sits in `s` at `i`. */
  lemma UrlAt(s: string, i: nat)
    requires i <= |s| && UrlLenAt(s, i) > 0
    ensures i + UrlLenAt(s, i) <= |s|
    ensures IsUrl(s[i..i + UrlLenAt(s, i)])
    ensures OccursAt(s, s[i..i + UrlLenAt(s, i)], i)
  {
    var n := UrlLenAt(s, i);
    var u := s[i..i + n];
    if StartsAt(s, i, "https://") {
      assert u[..8] == s[i..i + 8];
      assert StartsAt(u, 0, "https://");
    } else {
      assert u[..7] == s[i..i + 7];
      assert StartsAt(u, 0, "http://");
    }
    assert forall j :: 0 <= j < |u| ==> u[j] == s[i + j];
  }

  /** The matches of the scanner from position `i` on, left to right, without overlap. */
  function ScanUrls(s: string, i: nat): seq<string>
    requires i <= |s|
    decreases |s| - i
  {
    if i == |s| then []
    else
      var n := UrlLenAt(s, i);
      if n > 0 then [s[i..i + n]] + ScanUrls(s, i + n) else ScanUrls(s, i + 1)
  }

  /** Every match of the scanner is a URL that occurs in the text. */
  lemma {:induction false} ScanUrlsFound(s: string, i: nat)
    requires i <= |s|
    ensures forall k :: 0 <= k < |ScanUrls(s, i)| ==> IsUrl(ScanUrls(s, i)[k]) && Contains(s, ScanUrls(s, i)[k])
    decreases |s| - i
  {
    if i < |s| {
      var n := UrlLenAt(s, i);
      if n > 0 {
        UrlAt(s, i);
        ScanUrlsFound(s, i + n);
      } else {
        ScanUrlsFound(s, i + 1);
      }
    }
  }

  /** `re.findall(r'https?://\S+', texto)`: every URL of the text, repeats included. */
  function FindUrls(texto: string): seq<string> {
    ScanUrls(texto, 0)
  }

  /** The scanner finds nothing exactly when no position of the text starts a match. */
  lemma {:induction false} ScanUrlsEmpty(s: string, i: nat)
    requires i <= |s|
    ensures ScanUrls(s, i) == [] <==> forall j :: i <= j < |s| ==> UrlLenAt(s, j) == 0
    decreases |s| - i
  {
    if i < |s| && UrlLenAt(s, i) == 0 {
      ScanUrlsEmpty(s, i + 1);
    }
  }

  // ---------------------------------------------------------------------
  // The nested loops, as functions of the state they update
  // ---------------------------------------------------------------------

  /**
   * One pass of the inner loop: `url` against the line as it stands. A line
   * without the URL is left alone; one with it records the URL as seen, or
   * deletes every occurrence when it had been seen before.
   */
  function Step(linea: string, vistos: set<string>, url: string): (r: (string, set<string>))
    ensures vistos <= r.1 <= vistos + {url}
    ensures r.0 != linea ==> url in vistos && r.1 == vistos && r.0 == ReplaceAll(linea, url, "")
    ensures url in r.1 <==> url in vistos || Contains(linea, url)
    ensures Contains(linea, url) ==> url in vistos || r.0 == linea
  {
    if Contains(linea, url) then
      if url in vistos then (ReplaceAll(linea, url, ""), vistos) else (linea, vistos + {url})
    else
      (linea, vistos)
  }

  /** The whole inner loop: one line against every collected URL, in order. */
  function ProcessLine(linea: string, urls: seq<string>, vistos: set<string>): (r: (string, set<string>))
    ensures vistos <= r.1
    ensures forall u :: u in r.1 ==> u in vistos || u in urls
    decreases |urls|
  {
    if urls == [] then (linea, vistos)
    else
      var (l, v) := Step(linea, vistos, urls[0]);
      ProcessLine(l, urls[1..], v)
  }

  /** The outer loop without the final filtering: every line rewritten, in order, threading the seen set. */
  function Rewrite(lineas: seq<string>, urls: seq<string>, vistos: set<string>): (r: (seq<string>, set<string>))
    ensures |r.0| == |lineas|
    ensures vistos <= r.1
    decreases |lineas|
  {
    if lineas == [] then ([], vistos)
    else
      var (l, v) := ProcessLine(lineas[0], urls, vistos);
      var (rest, v') := Rewrite(lineas[1..], urls, v);
      ([l] + rest, v')
  }

  /** The lines kept in `resultado`: each non-blank line, stripped, in order. */
  function KeepNonBlank(lineas: seq<string>): (r: seq<string>)
    ensures |r| <= |lineas|
    decreases |lineas|
  {
    if lineas == [] then []
    else if IsBlank(lineas[0]) then KeepNonBlank(lineas[1..])
    else [Strip(lineas[0])] + KeepNonBlank(lineas[1..])
  }

  /** Every kept line is non-empty and has no whitespace at either end. */
  lemma {:induction false} KeepNonBlankClean(lineas: seq<string>)
    ensures forall k :: 0 <= k < |KeepNonBlank(lineas)| ==> KeepNonBlank(lineas)[k] != [] && IsStripped(KeepNonBlank(lineas)[k])
    decreases |lineas|
  {
    if lineas != [] {
      KeepNonBlankClean(lineas[1..]);
      if !IsBlank(lineas[0]) {
        CleanCons(Strip(lineas[0]), KeepNonBlank(lineas[1..]));
      }
    }
  }

  /** A clean line in front of clean lines. */
  lemma CleanCons(x: string, rest: seq<string>)
    requires x != [] && IsStripped(x)
    requires forall k :: 0 <= k < |rest| ==> rest[k] != [] && IsStripped(rest[k])
    ensures forall k :: 0 <= k < |rest| + 1 ==> ([x] + rest)[k] != [] && IsStripped(([x] + rest)[k])
  {
    forall k | 0 <= k < |rest| + 1 ensures ([x] + rest)[k] != [] && IsStripped(([x] + rest)[k]) {
      if k > 0 {
        assert ([x] + rest)[k] == rest[k - 1];
      }
    }
  }

  /** The result of `quitar_urls_duplicadas(texto)`. */
  function Sanitize(texto: string): string {
    Strip(Join(KeepNonBlank(Rewrite(Split(texto), FindUrls(texto), {}).0)))
  }

  /**
   * `quitar_urls_duplicadas(texto)`: the nested loops over lines and
   * collected URLs, updating the line, the seen set and the kept lines.
   */
  method QuitarUrlsDuplicadas(texto: string) returns (r: string)
    ensures r == Sanitize(texto)
  {
    var urls := FindUrls(texto);
    var urlsVistos: set<string> := {};
    var resultado: seq<string> := [];
    var lineas := Split(texto);
    var i := 0;
    assert lineas[i..] == lineas;
    while i < |lineas|
      invariant 0 <= i <= |lineas|
      invariant resultado + KeepNonBlank(Rewrite(lineas[i..], urls, urlsVistos).0)
             == KeepNonBlank(Rewrite(lineas, urls, {}).0)
    {
      ghost var vistosAntes := urlsVistos;
      var nuevaLinea := lineas[i];
      var j := 0;
      while j < |urls|
        invariant 0 <= j <= |urls|
        invariant ProcessLine(nuevaLinea, urls[j..], urlsVistos) == ProcessLine(lineas[i], urls, vistosAntes)
      {
        var url := urls[j];
        ProcessLineUnfold(nuevaLinea, urls, j, urlsVistos);
        if Contains(nuevaLinea, url) {
          if url in urlsVistos {
            nuevaLinea := ReplaceAll(nuevaLinea, url, "");
          } else {
            urlsVistos := urlsVistos + {url};
          }
        }
        j := j + 1;
      }
      assert urls[j..] == [];
      KeepLineStep(lineas, urls, i, vistosAntes);
      ghost var resto := KeepNonBlank(Rewrite(lineas[i + 1..], urls, urlsVistos).0);
      if !IsBlank(nuevaLinea) {
        AppendAssoc(resultado, [Strip(nuevaLinea)], resto);
        resultado := resultado + [Strip(nuevaLinea)];
      } else {
        AppendAssoc(resultado, [], resto);
      }
      i := i + 1;
    }
    assert lineas[i..] == [];
    ghost var kept := KeepNonBlank(Rewrite(lineas, urls, {}).0);
    assert resultado == kept;
    r := Strip(Join(resultado));
    assert r == Strip(Join(kept));
    assert Sanitize(texto) == Strip(Join(kept));
  }

  /** Running the inner loop from URL `j` on is one step on URL `j`, then the rest. */
  lemma ProcessLineUnfold(linea: string, urls: seq<string>, j: nat, vistos: set<string>)
    requires j < |urls|
    ensures var (l, v) := Step(linea, vistos, urls[j]);
      ProcessLine(linea, urls[j..], vistos) == ProcessLine(l, urls[j + 1..], v)
  {
    assert urls[j..][0] == urls[j];
    assert urls[j..][1..] == urls[j + 1..];
  }

  /** Rewriting the lines from `i` on is rewriting line `i`, then the lines after it. */
  lemma RewriteUnfold(lineas: seq<string>, i: nat, urls: seq<string>, vistos: set<string>)
    requires i < |lineas|
    ensures var (l, v) := ProcessLine(lineas[i], urls, vistos);
      Rewrite(lineas[i..], urls, vistos).0 == [l] + Rewrite(lineas[i + 1..], urls, v).0
  {
    assert lineas[i..][0] == lineas[i];
    assert lineas[i..][1..] == lineas[i + 1..];
  }

  /** The kept lines from line `i` on: line `i` if it is not blank, then those after it. */
  lemma KeepLineStep(lineas: seq<string>, urls: seq<string>, i: nat, vistos: set<string>)
    requires i < |lineas|
    ensures var (l, v) := ProcessLine(lineas[i], urls, vistos);
      KeepNonBlank(Rewrite(lineas[i..], urls, vistos).0)
      == (if IsBlank(l) then [] else [Strip(l)]) + KeepNonBlank(Rewrite(lineas[i + 1..], urls, v).0)
  {
    var (l, v) := ProcessLine(lineas[i], urls, vistos);
    RewriteUnfold(lineas, i, urls, vistos);
    KeepNonBlankAppend([l], Rewrite(lineas[i + 1..], urls, v).0);
    assert [l][1..] == [];
  }

  /** Concatenation regrouped. */
  lemma AppendAssoc(a: seq<string>, b: seq<string>, c: seq<string>)
    ensures a + (b + c) == (a + b) + c
    ensures b == [] ==> a + (b + c) == a + c
  {
  }

  /** Filtering distributes over concatenation. */
  lemma {:induction false} KeepNonBlankAppend(a: seq<string>, b: seq<string>)
    ensures KeepNonBlank(a + b) == KeepNonBlank(a) + KeepNonBlank(b)
    decreases |a|
  {
    if a != [] {
      assert (a + b)[0] == a[0];
      assert (a + b)[1..] == a[1..] + b;
      KeepNonBlankAppend(a[1..], b);
      if !IsBlank(a[0]) {
        AppendAssoc([Strip(a[0])], KeepNonBlank(a[1..]), KeepNonBlank(b));
      }
    } else {
      assert a + b == b;
    }
  }

  // ---------------------------------------------------------------------
  // What the sanitiser promises
  // ---------------------------------------------------------------------

  /** No string of `lineas` holds a line feed. */
  predicate NoLineFeed(lineas: seq<string>) {
    forall k :: 0 <= k < |lineas| ==> '\n' !in lineas[k]
  }

  /** The inner loop only deletes characters from the line. */
  lemma {:induction false} ProcessLineChars(linea: string, urls: seq<string>, vistos: set<string>, c: char)
    requires c in ProcessLine(linea, urls, vistos).0
    ensures c in linea
    decreases |urls|
  {
    if urls != [] {
      var (l, v) := Step(linea, vistos, urls[0]);
      ProcessLineChars(l, urls[1..], v, c);
      if l != linea {
        DeleteChars(linea, urls[0], c);
      }
    }
  }

  /** Rewriting lines without line feeds gives lines without line feeds. */
  lemma {:induction false} RewriteNoLineFeed(lineas: seq<string>, urls: seq<string>, vistos: set<string>)
    requires NoLineFeed(lineas)
    ensures NoLineFeed(Rewrite(lineas, urls, vistos).0)
    decreases |lineas|
  {
    if lineas != [] {
      var (l, v) := ProcessLine(lineas[0], urls, vistos);
      if '\n' in l {
        ProcessLineChars(lineas[0], urls, vistos, '\n');
      }
      assert NoLineFeed(lineas[1..]) by {
        forall k | 0 <= k < |lineas| - 1 ensures '\n' !in lineas[1..][k] {
          assert lineas[1..][k] == lineas[k + 1];
        }
      }
      RewriteNoLineFeed(lineas[1..], urls, v);
    }
  }

  /** Keeping the stripped non-blank lines adds no line feed. */
  lemma {:induction false} KeepNonBlankNoLineFeed(lineas: seq<string>)
    requires NoLineFeed(lineas)
    ensures NoLineFeed(KeepNonBlank(lineas))
    decreases |lineas|
  {
    if lineas != [] {
      NoLineFeedTail(lineas);
      KeepNonBlankNoLineFeed(lineas[1..]);
      if !IsBlank(lineas[0]) {
        if '\n' in Strip(lineas[0]) {
          StripChars(lineas[0], '\n');
        }
        NoLineFeedCons(Strip(lineas[0]), KeepNonBlank(lineas[1..]));
      }
    }
  }

  lemma NoLineFeedTail(lineas: seq<string>)
    requires lineas != [] && NoLineFeed(lineas)
    ensures '\n' !in lineas[0] && NoLineFeed(lineas[1..])
  {
    forall k | 0 <= k < |lineas| - 1 ensures '\n' !in lineas[1..][k] {
      assert lineas[1..][k] == lineas[k + 1];
    }
  }

  lemma NoLineFeedCons(x: string, rest: seq<string>)
    requires '\n' !in x && NoLineFeed(rest)
    ensures NoLineFeed([x] + rest)
  {
    forall k | 0 <= k < |rest| + 1 ensures '\n' !in ([x] + rest)[k] {
      if k > 0 {
        assert ([x] + rest)[k] == rest[k - 1];
      }
    }
  }

  /**
   * The lines of the result are the kept lines: each non-empty and without
   * whitespace at either end, no more of them than there were input lines,
   * and splitting the result on line feeds gives them back. The final
   * `strip()` of the joined text changes nothing.
   */
  lemma SanitizeLines(texto: string)
    ensures var lineas := Split(texto);
      var kept := KeepNonBlank(Rewrite(lineas, FindUrls(texto), {}).0);
      && Sanitize(texto) == Join(kept)
      && |kept| <= |lineas|
      && (forall k :: 0 <= k < |kept| ==> kept[k] != [] && IsStripped(kept[k]))
      && (kept == [] ==> Sanitize(texto) == [])
      && (kept != [] ==> Split(Sanitize(texto)) == kept)
  {
    var lineas := Split(texto);
    var rewritten := Rewrite(lineas, FindUrls(texto), {}).0;
    var kept := KeepNonBlank(rewritten);
    assert Sanitize(texto) == Strip(Join(kept));
    KeepNonBlankClean(rewritten);
    JoinKeptStripped(kept);
    RewriteNoLineFeed(lineas, FindUrls(texto), {});
    KeepNonBlankNoLineFeed(rewritten);
    JoinKeptSplit(kept);
  }

  /** The final `strip()` of joined kept lines changes nothing. */
  lemma JoinKeptStripped(kept: seq<string>)
    requires forall k :: 0 <= k < |kept| ==> kept[k] != [] && IsStripped(kept[k])
    ensures Strip(Join(kept)) == Join(kept)
  {
    JoinStripped(kept);
    StripStripped(Join(kept));
  }

  /** Splitting joined kept lines gives them back. */
  lemma JoinKeptSplit(kept: seq<string>)
    requires NoLineFeed(kept)
    ensures kept != [] ==> Split(Join(kept)) == kept
  {
    if kept != [] {
      SplitJoin(kept);
    }
  }

  /** The positions of the non-blank lines of `lineas`, in increasing order: one per kept line. */
  function Origins(lineas: seq<string>): (idx: seq<nat>)
    decreases |lineas|
  {
    if lineas == [] then []
    else if IsBlank(lineas[0]) then Shift(Origins(lineas[1..]))
    else [0] + Shift(Origins(lineas[1..]))
  }

  /** Every position moved one place on. */
  function Shift(idx: seq<nat>): (r: seq<nat>)
    ensures |r| == |idx| && forall k :: 0 <= k < |r| ==> r[k] == idx[k] + 1
  {
    seq(|idx|, k requires 0 <= k < |idx| => idx[k] + 1)
  }

  /**
   * Where each kept line comes from: kept line `k` is line `Origins(lineas)[k]`
   * stripped, the positions increase, and a position is missing exactly when
   * its line is blank.
   */
  lemma OriginsSpec(lineas: seq<string>)
    ensures var idx := Origins(lineas);
      && |idx| == |KeepNonBlank(lineas)|
      && (forall k :: 0 <= k < |idx| ==> idx[k] < |lineas| && KeepNonBlank(lineas)[k] == Strip(lineas[idx[k]]))
      && (forall k, m :: 0 <= k < m < |idx| ==> idx[k] < idx[m])
      && (forall j :: 0 <= j < |lineas| ==> (j in idx <==> !IsBlank(lineas[j])))
  {
    OriginsLength(lineas);
    forall k | 0 <= k < |Origins(lineas)|
      ensures Origins(lineas)[k] < |lineas| && KeepNonBlank(lineas)[k] == Strip(lineas[Origins(lineas)[k]])
    {
      OriginsPick(lineas, k);
    }
    OriginsIncrease(lineas);
    OriginsComplete(lineas);
  }

  /** There is one position per kept line. */
  lemma {:induction false} OriginsLength(lineas: seq<string>)
    ensures |Origins(lineas)| == |KeepNonBlank(lineas)|
    decreases |lineas|
  {
    if lineas != [] {
      OriginsLength(lineas[1..]);
    }
  }

  /** Kept line `k` is the stripped line at position `Origins(lineas)[k]`. */
  lemma {:induction false} OriginsPick(lineas: seq<string>, k: nat)
    requires k < |Origins(lineas)|
    ensures Origins(lineas)[k] < |lineas| && |Origins(lineas)| == |KeepNonBlank(lineas)|
    ensures KeepNonBlank(lineas)[k] == Strip(lineas[Origins(lineas)[k]])
    decreases |lineas|, 1
  {
    OriginsLength(lineas);
    if IsBlank(lineas[0]) {
      OriginsPickBlank(lineas, k);
    } else if k == 0 {
      assert Origins(lineas)[0] == 0;
    } else {
      OriginsPickKept(lineas, k);
    }
  }

  lemma {:induction false} OriginsPickBlank(lineas: seq<string>, k: nat)
    requires lineas != [] && IsBlank(lineas[0])
    requires k < |Origins(lineas)| && |Origins(lineas)| == |KeepNonBlank(lineas)|
    ensures Origins(lineas)[k] < |lineas|
    ensures KeepNonBlank(lineas)[k] == Strip(lineas[Origins(lineas)[k]])
    decreases |lineas|, 0
  {
    var tail := lineas[1..];
    var rest := Origins(tail);
    OriginsPick(tail, k);
    assert lineas[rest[k] + 1] == tail[rest[k]];
  }

  lemma {:induction false} OriginsPickKept(lineas: seq<string>, k: nat)
    requires lineas != [] && !IsBlank(lineas[0])
    requires 0 < k < |Origins(lineas)| && |Origins(lineas)| == |KeepNonBlank(lineas)|
    ensures Origins(lineas)[k] < |lineas|
    ensures KeepNonBlank(lineas)[k] == Strip(lineas[Origins(lineas)[k]])
    decreases |lineas|, 0
  {
    var tail := lineas[1..];
    var rest := Origins(tail);
    OriginsKeptStep(lineas, k);
    OriginsPick(tail, k - 1);
    assert lineas[rest[k - 1] + 1] == tail[rest[k - 1]];
  }

  /** Past a kept first line, position `k` is position `k - 1` of the tail, moved one on. */
  lemma OriginsKeptStep(lineas: seq<string>, k: nat)
    requires lineas != [] && !IsBlank(lineas[0])
    requires 0 < k < |Origins(lineas)| && |Origins(lineas)| == |KeepNonBlank(lineas)|
    ensures k - 1 < |Origins(lineas[1..])| && k - 1 < |KeepNonBlank(lineas[1..])|
    ensures Origins(lineas)[k] == Origins(lineas[1..])[k - 1] + 1
    ensures KeepNonBlank(lineas)[k] == KeepNonBlank(lineas[1..])[k - 1]
  {
  }

  /** The positions strictly increase. */
  lemma {:induction false} OriginsIncrease(lineas: seq<string>)
    ensures Increasing(Origins(lineas))
    decreases |lineas|
  {
    if lineas != [] {
      var rest := Origins(lineas[1..]);
      OriginsIncrease(lineas[1..]);
      ShiftIncreasing(rest);
      if !IsBlank(lineas[0]) {
        IncreasingCons(0, Shift(rest));
      }
    }
  }

  /** `idx` strictly increases. */
  predicate Increasing(idx: seq<nat>) {
    forall k, m :: 0 <= k < m < |idx| ==> idx[k] < idx[m]
  }

  lemma ShiftIncreasing(idx: seq<nat>)
    requires Increasing(idx)
    ensures Increasing(Shift(idx))
  {
  }

  lemma IncreasingCons(x: nat, idx: seq<nat>)
    requires Increasing(idx) && forall k :: 0 <= k < |idx| ==> x < idx[k]
    ensures Increasing([x] + idx)
  {
    var s := [x] + idx;
    forall k, m | 0 <= k < m < |s| ensures s[k] < s[m] {
      assert s[m] == idx[m - 1];
      if k > 0 {
        assert s[k] == idx[k - 1];
      }
    }
  }

  /** A position is listed exactly when its line is not blank. */
  lemma {:induction false} OriginsComplete(lineas: seq<string>)
    ensures forall j :: 0 <= j < |lineas| ==> (j in Origins(lineas) <==> !IsBlank(lineas[j]))
    decreases |lineas|
  {
    if lineas != [] {
      var tail := lineas[1..];
      OriginsComplete(tail);
      var rest := Origins(tail);
      var head: seq<nat> := if IsBlank(lineas[0]) then [] else [0];
      var shifted := Shift(rest);
      var idx := head + shifted;
      forall j | 0 <= j < |lineas| ensures (j in idx <==> !IsBlank(lineas[j])) {
        if j > 0 {
          assert lineas[j] == tail[j - 1];
          if j - 1 in rest {
            var p :| 0 <= p < |rest| && rest[p] == j - 1;
            assert shifted[p] == j;
          }
          assert j in shifted ==> j - 1 in rest;
        }
      }
    }
  }

  /** Rewriting a concatenation rewrites the first part, then the second from the seen set the first leaves. */
  lemma {:induction false} RewriteAppend(a: seq<string>, b: seq<string>, urls: seq<string>, vistos: set<string>)
    ensures var (ra, va) := Rewrite(a, urls, vistos);
      Rewrite(a + b, urls, vistos) == (ra + Rewrite(b, urls, va).0, Rewrite(b, urls, va).1)
    decreases |a|
  {
    if a == [] {
      assert a + b == b;
      assert [] + Rewrite(b, urls, vistos).0 == Rewrite(b, urls, vistos).0;
    } else {
      assert (a + b)[0] == a[0];
      assert (a + b)[1..] == a[1..] + b;
      var (l, v) := ProcessLine(a[0], urls, vistos);
      RewriteAppend(a[1..], b, urls, v);
      var (ra, va) := Rewrite(a[1..], urls, v);
      var rb := Rewrite(b, urls, va).0;
      assert Rewrite(a, urls, vistos) == ([l] + ra, va);
      assert Rewrite(a + b, urls, vistos).0 == [l] + (ra + rb);
      AppendAssoc([l], ra, rb);
    }
  }

  /**
   * Line `j` of the rewrite is input line `j` after the inner loop, run with
   * the seen set that the lines before it left behind.
   */
  lemma RewriteAt(lineas: seq<string>, urls: seq<string>, vistos: set<string>, j: nat)
    requires j < |lineas|
    ensures Rewrite(lineas, urls, vistos).0[j]
         == ProcessLine(lineas[j], urls, Rewrite(lineas[..j], urls, vistos).1).0
  {
    assert lineas == lineas[..j] + lineas[j..];
    RewriteAppend(lineas[..j], lineas[j..], urls, vistos);
    assert lineas[j..][0] == lineas[j];
  }

  /**
   * The output keeps the order of the input: kept line `k` is input line
   * `Origins(...)[k]` after URL deletion and stripping, those positions
   * increase, and the dropped lines are exactly the ones left blank.
   */
  lemma SanitizeKeepsOrder(texto: string, k: nat)
    requires k < |KeepNonBlank(Rewrite(Split(texto), FindUrls(texto), {}).0)|
    ensures var lineas := Split(texto);
      var rewritten := Rewrite(lineas, FindUrls(texto), {}).0;
      && |Origins(rewritten)| == |KeepNonBlank(rewritten)|
      && var j := Origins(rewritten)[k];
        && j < |lineas|
        && KeepNonBlank(rewritten)[k] == Strip(ProcessLine(lineas[j], FindUrls(texto), Rewrite(lineas[..j], FindUrls(texto), {}).1).0)
        && (forall m :: 0 <= m < k ==> Origins(rewritten)[m] < j)
  {
    var lineas := Split(texto);
    var rewritten := Rewrite(lineas, FindUrls(texto), {}).0;
    OriginsSpec(rewritten);
    RewriteAt(lineas, FindUrls(texto), {}, Origins(rewritten)[k]);
  }

  /** With no URL to look for, the inner loop leaves every line as it is. */
  lemma {:induction false} RewriteNoUrls(lineas: seq<string>, vistos: set<string>)
    ensures Rewrite(lineas, [], vistos).0 == lineas
    decreases |lineas|
  {
    if lineas != [] {
      RewriteNoUrls(lineas[1..], vistos);
    }
  }

  /**
   * A text without any `https?://` match only has its lines stripped and its
   * blank lines dropped.
   */
  lemma SanitizeWithoutUrls(texto: string)
    requires forall i :: 0 <= i < |texto| ==> UrlLenAt(texto, i) == 0
    ensures Sanitize(texto) == Join(KeepNonBlank(Split(texto)))
  {
    ScanUrlsEmpty(texto, 0);
    RewriteNoUrls(Split(texto), {});
    SanitizeLines(texto);
  }

  /** A line none of whose URLs occurs in it goes through the inner loop unchanged. */
  lemma {:induction false} ProcessLineUntouched(linea: string, urls: seq<string>, vistos: set<string>)
    requires forall k :: 0 <= k < |urls| ==> !Contains(linea, urls[k])
    ensures ProcessLine(linea, urls, vistos).0 == linea
    decreases |urls|
  {
    if urls != [] {
      ProcessLineUntouched(linea, urls[1..], vistos);
    }
  }

  /**
   * A URL still to be met at least twice (once if it is already seen) is
   * deleted from the line, provided no other URL of the list occurs in the
   * line and the deletion leaves no occurrence of any of them.
   */
  lemma {:induction false} RepeatedUrlDeleted(linea: string, urls: seq<string>, vistos: set<string>, u: string)
    requires u != [] && Contains(linea, u)
    requires multiset(urls)[u] >= (if u in vistos then 1 else 2)
    requires forall k :: 0 <= k < |urls| && urls[k] != u ==> !Contains(linea, urls[k])
    requires forall k :: 0 <= k < |urls| ==> !Contains(ReplaceAll(linea, u, ""), urls[k])
    ensures ProcessLine(linea, urls, vistos).0 == ReplaceAll(linea, u, "")
    ensures u in ProcessLine(linea, urls, vistos).1
    decreases |urls|
  {
    assert urls == [urls[0]] + urls[1..];
    assert multiset(urls) == multiset{urls[0]} + multiset(urls[1..]);
    var x := urls[0];
    if x != u {
      RepeatedUrlDeleted(linea, urls[1..], vistos, u);
    } else if u !in vistos {
      RepeatedUrlDeleted(linea, urls[1..], vistos + {u}, u);
    } else {
      ProcessLineUntouched(ReplaceAll(linea, u, ""), urls[1..], vistos);
    }
  }

  /**
   * A URL that the scanner matched two or more times is deleted from every
   * line that contains it, the line of its first occurrence included, as
   * long as no other URL of the text occurs in that line and the deletion
   * leaves no occurrence of any of them.
   */
  lemma RepeatedUrlDeletedEverywhere(texto: string, u: string, j: nat)
    requires multiset(FindUrls(texto))[u] >= 2
    requires j < |Split(texto)| && Contains(Split(texto)[j], u)
    requires forall k :: 0 <= k < |FindUrls(texto)| && FindUrls(texto)[k] != u ==> !Contains(Split(texto)[j], FindUrls(texto)[k])
    requires forall k :: 0 <= k < |FindUrls(texto)| ==> !Contains(ReplaceAll(Split(texto)[j], u, ""), FindUrls(texto)[k])
    ensures Rewrite(Split(texto), FindUrls(texto), {}).0[j] == ReplaceAll(Split(texto)[j], u, "")
  {
    var lineas, urls := Split(texto), FindUrls(texto);
    var k :| 0 <= k < |urls| && urls[k] == u;
    ScanUrlsFound(texto, 0);
    assert IsUrl(urls[k]);
    RewriteAt(lineas, urls, {}, j);
    RepeatedUrlDeleted(lineas[j], urls, Rewrite(lineas[..j], urls, {}).1, u);
  }
}
