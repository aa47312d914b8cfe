/**
 * The few Python `str` operations the chatbot relies on, written out as
 * functions on `string` (a `seq<char>`): `strip`, `split('\n')`,
 * `'\n'.join`, the substring test `in` and `replace`.
 */
module Text {

  /**
   * Whitespace, as read by `str.strip()` and by the regular-expression class
   * `\S`: the ASCII whitespace characters (space, tab, line feed, carriage
   * return, vertical tab, form feed).
   */
  predicate IsSpace(c: char) {
    c == ' ' || c == '\t' || c == '\n' || c == '\r' || c == '\U{000B}' || c == '\U{000C}'
  }

  /** Every character of `s` is whitespace (this includes the empty string). */
  predicate AllSpace(s: string) {
    forall i :: 0 <= i < |s| ==> IsSpace(s[i])
  }

  /** `s` has no whitespace at either end: what `strip()` leaves behind. */
  predicate IsStripped(s: string) {
    s == [] || (!IsSpace(s[0]) && !IsSpace(s[|s| - 1]))
  }

  /** `s.lstrip()`: `s` without its leading whitespace. */
  function TrimLeft(s: string): (r: string)
    ensures |r| <= |s| && r == s[|s| - |r|..]
    ensures AllSpace(s[..|s| - |r|])
    ensures r == [] || !IsSpace(r[0])
    decreases |s|
  {
    if s != [] && IsSpace(s[0]) then TrimLeft(s[1..]) else s
  }

  /** `s.rstrip()`: `s` without its trailing whitespace. */
  function TrimRight(s: string): (r: string)
    ensures |r| <= |s| && r == s[..|r|]
    ensures AllSpace(s[|r|..])
    ensures r == [] || !IsSpace(r[|r| - 1])
    decreases |s|
  {
    if s != [] && IsSpace(s[|s| - 1]) then TrimRight(s[..|s| - 1]) else s
  }

  /**
   * `s.strip()`: the slice of `s` left once the whitespace at both ends is
   * removed. It is empty exactly when `s` is all whitespace.
   */
  function Strip(s: string): (r: string)
    ensures IsStripped(r)
    ensures r == [] <==> AllSpace(s)
  {
    var left := TrimLeft(s);
    var r := TrimRight(left);
    StripSlice(s, left, r, |s| - |left|);
    r
  }

  /** `strip()` keeps a slice of `s` and removes only whitespace around it. */
  lemma StripIsSlice(s: string)
    ensures exists k :: TrimmedAt(s, Strip(s), k)
  {
    var left := TrimLeft(s);
    assert Strip(s) == TrimRight(left);
    StripSlice(s, left, TrimRight(left), |s| - |left|);
  }

  /** `r` is the slice of `s` starting at `k`, and all of `s` around it is whitespace. */
  predicate TrimmedAt(s: string, r: string, k: int) {
    0 <= k <= |s| - |r| && r == s[k..k + |r|] && AllSpace(s[..k]) && AllSpace(s[k + |r|..])
  }

  /** What `lstrip()` then `rstrip()` leave: `left` is `s` from `k` on, `r` a prefix of `left`, whitespace around. */
  predicate TrimSteps(s: string, left: string, r: string, k: int) {
    && 0 <= k <= |s| && |r| <= |left| && k == |s| - |left|
    && left == s[k..] && AllSpace(s[..k])
    && r == left[..|r|] && AllSpace(left[|r|..])
    && (r == [] || !IsSpace(r[|r| - 1]))
  }

  lemma StripSlice(s: string, left: string, r: string, k: int)
    requires left == TrimLeft(s) && r == TrimRight(left) && k == |s| - |left|
    ensures TrimmedAt(s, r, k)
    ensures r == [] <==> AllSpace(s)
  {
    assert TrimSteps(s, left, r, k);
    StripHead(s, left, r, k);
    StripTail(s, left, r, k);
    StripEmpty(s, left, r, k);
  }

  lemma StripHead(s: string, left: string, r: string, k: int)
    requires TrimSteps(s, left, r, k)
    ensures 0 <= k <= |s| - |r| && r == s[k..k + |r|] && AllSpace(s[..k])
  {
    assert left[..|r|] == s[k..k + |r|];
  }

  lemma StripTail(s: string, left: string, r: string, k: int)
    requires TrimSteps(s, left, r, k)
    ensures AllSpace(s[k + |r|..])
  {
    var tail, rest := s[k + |r|..], left[|r|..];
    forall i | 0 <= i < |tail| ensures IsSpace(tail[i]) {
      assert tail[i] == rest[i];
    }
  }

  lemma StripEmpty(s: string, left: string, r: string, k: int)
    requires TrimSteps(s, left, r, k)
    ensures r == [] <==> AllSpace(s)
  {
    if r == [] {
      assert left[|r|..] == left;
      assert s == s[..k] + left;
      AllSpaceConcat(s[..k], left);
    } else {
      assert r[|r| - 1] == s[k + |r| - 1];
    }
  }

  lemma AllSpaceConcat(a: string, b: string)
    requires AllSpace(a) && AllSpace(b)
    ensures AllSpace(a + b)
  {
  }

  /**
   * `s` is blank: all whitespace, so that `s.strip()` is empty and false in a
   * Python `if` (see the last postcondition of `Strip`).
   */
  predicate IsBlank(s: string) {
    AllSpace(s)
  }

  /** A string with no whitespace at either end is left unchanged by `strip()`. */
  lemma {:induction false} StripStripped(s: string)
    requires IsStripped(s)
    ensures Strip(s) == s
  {
    assert TrimLeft(s) == s;
    assert TrimRight(s) == s;
  }

  /** Every character of `Strip(s)` occurs in `s`. */
  lemma StripChars(s: string, c: char)
    requires c in Strip(s)
    ensures c in s
  {
    StripIsSlice(s);
    var k :| TrimmedAt(s, Strip(s), k);
    SliceChars(s, Strip(s), k, c);
  }

  lemma SliceChars(s: string, r: string, k: int, c: char)
    requires TrimmedAt(s, r, k) && c in r
    ensures c in s
  {
    var i :| 0 <= i < |r| && r[i] == c;
    assert s[k + i] == c;
  }

  /** The position of the first `c` in `s`, or `|s|` when there is none (`str.find`). */
  function IndexOf(s: string, c: char): (k: nat)
    ensures k <= |s|
    ensures k < |s| ==> s[k] == c
    ensures c !in s[..k]
    decreases |s|
  {
    if s == [] then 0
    else if s[0] == c then 0
    else
      var k := 1 + IndexOf(s[1..], c);
      assert s[..k] == [s[0]] + s[1..][..k - 1];
      k
  }

  /** `s.split('\n')`: the pieces between line feeds; always at least one piece. */
  function Split(s: string): (r: seq<string>)
    ensures |r| >= 1
    ensures forall k :: 0 <= k < |r| ==> '\n' !in r[k]
    decreases |s|
  {
    var k := IndexOf(s, '\n');
    if k == |s| then [s] else [s[..k]] + Split(s[k + 1..])
  }

  /** `'\n'.join(lines)`. */
  function Join(lines: seq<string>): string
    decreases |lines|
  {
    if |lines| == 0 then []
    else if |lines| == 1 then lines[0]
    else lines[0] + "\n" + Join(lines[1..])
  }

  /** Joining the pieces of a split gives back the string. */
  lemma {:induction false} JoinSplit(s: string)
    ensures Join(Split(s)) == s
    decreases |s|
  {
    var k := IndexOf(s, '\n');
    if k < |s| {
      JoinSplit(s[k + 1..]);
      assert s == s[..k] + "\n" + s[k + 1..];
    }
  }

  /** Splitting a join of lines without line feeds gives back the lines. */
  lemma {:induction false} SplitJoin(lines: seq<string>)
    requires |lines| >= 1
    requires forall k :: 0 <= k < |lines| ==> '\n' !in lines[k]
    ensures Split(Join(lines)) == lines
    decreases |lines|
  {
    var s := Join(lines);
    if |lines| == 1 {
      assert IndexOf(s, '\n') == |s|;
    } else {
      var head := lines[0];
      assert s == head + "\n" + Join(lines[1..]);
      assert s[|head|] == '\n';
      assert s[..|head|] == head;
      var k := IndexOf(s, '\n');
      assert k == |head|;
      assert s[k + 1..] == Join(lines[1..]);
      SplitJoin(lines[1..]);
    }
  }

  /** A join of non-empty, stripped lines starts and ends without whitespace. */
  lemma {:induction false} JoinStripped(lines: seq<string>)
    requires forall k :: 0 <= k < |lines| ==> lines[k] != [] && IsStripped(lines[k])
    ensures IsStripped(Join(lines))
    ensures |lines| > 0 ==> Join(lines) != [] && Join(lines)[0] == lines[0][0]
    ensures |lines| > 0 ==> Join(lines)[|Join(lines)| - 1] == lines[|lines| - 1][|lines[|lines| - 1]| - 1]
    decreases |lines|
  {
    if |lines| > 1 {
      JoinStripped(lines[1..]);
    }
  }

  /** The Python expression `u in s`: `u` occurs in `s` as a contiguous substring. */
  predicate Contains(s: string, u: string) {
    exists i | 0 <= i <= |s| - |u| :: OccursAt(s, u, i)
  }

  /** `u` occurs in `s` starting at position `i`. */
  predicate OccursAt(s: string, u: string, i: int) {
    0 <= i <= |s| - |u| && s[i..i + |u|] == u
  }

  /** A string contains whatever sits between two other pieces of it. */
  lemma {:induction false} ContainsMiddle(a: string, u: string, b: string)
    ensures Contains(a + u + b, u)
  {
    assert OccursAt(a + u + b, u, |a|);
  }

  /**
   * `s.replace(u, r)`: every non-overlapping occurrence of `u`, scanned from
   * the left, replaced by `r`. For an empty `u`, Python puts `r` before every
   * character and at the end.
   */
  function ReplaceAll(s: string, u: string, r: string): string
    decreases |s|
  {
    if u == [] then
      r + (if s == [] then [] else [s[0]] + ReplaceAll(s[1..], u, r))
    else if |u| <= |s| && s[..|u|] == u then
      r + ReplaceAll(s[|u|..], u, r)
    else if s == [] then
      []
    else
      [s[0]] + ReplaceAll(s[1..], u, r)
  }

  /** Deleting occurrences (replacing by "") only removes characters. */
  lemma {:induction false} DeleteChars(s: string, u: string, c: char)
    requires c in ReplaceAll(s, u, "")
    ensures c in s
    decreases |s|
  {
    if u == [] {
      if s != [] && c != s[0] {
        DeleteChars(s[1..], u, c);
      }
    } else if |u| <= |s| && s[..|u|] == u {
      DeleteChars(s[|u|..], u, c);
    } else if s != [] && c != s[0] {
      DeleteChars(s[1..], u, c);
    }
  }

  /** Deleting occurrences never lengthens a string. */
  lemma {:induction false} DeleteShortens(s: string, u: string)
    ensures |ReplaceAll(s, u, "")| <= |s|
    decreases |s|
  {
    if u == [] {
      if s != [] {
        DeleteShortens(s[1..], u);
      }
    } else if |u| <= |s| && s[..|u|] == u {
      DeleteShortens(s[|u|..], u);
    } else if s != [] {
      DeleteShortens(s[1..], u);
    }
  }

  /** A string that does not contain `u` is left unchanged by `replace(u, r)`, for a non-empty `u`. */
  lemma {:induction false} ReplaceAbsent(s: string, u: string, r: string)
    requires u != [] && !Contains(s, u)
    ensures ReplaceAll(s, u, r) == s
    decreases |s|
  {
    assert !OccursAt(s, u, 0);
    if s != [] {
      forall i | 0 <= i <= |s| - 1 - |u| ensures !OccursAt(s[1..], u, i) {
        assert !OccursAt(s, u, i + 1);
        assert s[1..][i..i + |u|] == s[i + 1..i + 1 + |u|];
      }
      ReplaceAbsent(s[1..], u, r);
    }
  }
}
