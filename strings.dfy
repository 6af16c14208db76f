/**
 * The handful of Python `str` operations the node's protocol is built from:
 * `strip()`, `lower()`, `startswith(...)`, `split(":")` and
 * `split(":", n)`, together with the inverse of splitting (joining on ":").
 */
module Strings {

  /** Python's `str.isspace()` for a single character. */
  predicate IsSpace(c: char) {
    var n := c as int;
    (9 <= n <= 13) || (28 <= n <= 32) || n == 0x85 || n == 0xA0 || n == 0x1680
    || (0x2000 <= n <= 0x200A) || n == 0x2028 || n == 0x2029 || n == 0x202F
    || n == 0x205F || n == 0x3000
  }

  /** Removes the leading whitespace (Python's `lstrip()`). */
  function TrimLeft(s: string): (r: string)
    ensures |r| <= |s| && r == s[|s| - |r|..]
    ensures r == [] || !IsSpace(r[0])
    ensures forall i :: 0 <= i < |s| - |r| ==> IsSpace(s[i])
  {
    if s != [] && IsSpace(s[0]) then TrimLeft(s[1..]) else s
  }

  /** Removes the trailing whitespace (Python's `rstrip()`). */
  function TrimRight(s: string): (r: string)
    ensures |r| <= |s| && r == s[..|r|]
    ensures r == [] || !IsSpace(r[|r| - 1])
    ensures forall i :: |r| <= i < |s| ==> IsSpace(s[i])
  {
    if s != [] && IsSpace(s[|s| - 1]) then TrimRight(s[..|s| - 1]) else s
  }

  /** Python's `strip()`: whitespace removed at both ends. */
  function Strip(s: string): (r: string)
    ensures |r| <= |s|
    ensures r == [] || (!IsSpace(r[0]) && !IsSpace(r[|r| - 1]))
    ensures exists i, j ::
      (0 <= i <= j <= |s| && r == s[i..j] &&
       (forall k :: 0 <= k < i ==> IsSpace(s[k])) &&
       (forall k :: j <= k < |s| ==> IsSpace(s[k])))
  {
    var t := TrimLeft(s);
    var r := TrimRight(t);
    PrefixOfSuffix(s, t, r);
    SpacesAfterPrefix(s, t, r);
    r
  }

  /** A prefix `r` of a suffix `t` of `s` is the slice of `s` between the two cuts. */
  lemma PrefixOfSuffix(s: string, t: string, r: string)
    requires |t| <= |s| && t == s[|s| - |t|..]
    requires |r| <= |t| && r == t[..|r|]
    ensures r == s[|s| - |t|..|s| - |t| + |r|]
  {
  }

  /** What cutting `t` down to its prefix `r` removed is whitespace in `s` too. */
  lemma SpacesAfterPrefix(s: string, t: string, r: string)
    requires |t| <= |s| && t == s[|s| - |t|..]
    requires |r| <= |t| && forall k :: |r| <= k < |t| ==> IsSpace(t[k])
    ensures forall k :: |s| - |t| + |r| <= k < |s| ==> IsSpace(s[k])
  {
    var i := |s| - |t|;
    forall k | i + |r| <= k < |s|
      ensures IsSpace(s[k])
    {
      assert s[k] == t[k - i];
    }
  }

  /** No whitespace at the end (so `strip()` cannot shorten it from the right). */
  predicate NoTrailingSpace(s: string) {
    s == [] || !IsSpace(s[|s| - 1])
  }

  /**
   * Stripping a string that begins with a non-space character keeps every
   * character up to any later non-space character: only a tail of
   * whitespace is lost.
   */
  lemma StripKeepsThrough(s: string, k: nat)
    requires k < |s| && !IsSpace(s[0]) && !IsSpace(s[k])
    ensures k < |Strip(s)| && Strip(s) == s[..|Strip(s)|]
  {
    assert TrimLeft(s) == s;
  }

  /** A string without whitespace at either end is left alone by `strip()`. */
  lemma StripNoop(s: string)
    requires s == [] || (!IsSpace(s[0]) && !IsSpace(s[|s| - 1]))
    ensures Strip(s) == s
  {
    if s != [] {
      StripKeepsThrough(s, |s| - 1);
    }
  }

  /** Python's `lower()` on the ASCII letters; every other character is kept. */
  function Lower(s: string): (r: string)
    ensures |r| == |s|
    ensures forall i :: 0 <= i < |r| ==> !('A' <= r[i] <= 'Z')
    ensures forall i :: 0 <= i < |s| ==>
      r[i] == s[i] || ('A' <= s[i] <= 'Z' && r[i] as int == s[i] as int + 32)
  {
    seq(|s|, i requires 0 <= i < |s| => LowerChar(s[i]))
  }

  function LowerChar(c: char): char {
    if 'A' <= c <= 'Z' then (c as int - 'A' as int + 'a' as int) as char else c
  }

  /** Python's `s.startswith(prefix)`. */
  predicate StartsWith(s: string, prefix: string) {
    |prefix| <= |s| && s[..|prefix|] == prefix
  }

  /** The number of ':' delimiters in `s`. */
  function Colons(s: string): nat {
    if s == [] then 0 else (if s[0] == ':' then 1 else 0) + Colons(s[1..])
  }

  /** Index of the first ':' in `s`, or `|s|` when there is none. */
  function FindColon(s: string): (i: nat)
    ensures i <= |s| && forall j :: 0 <= j < i ==> s[j] != ':'
    ensures i < |s| ==> s[i] == ':'
  {
    if s == [] || s[0] == ':' then 0 else 1 + FindColon(s[1..])
  }

  /** Counting colons distributes over concatenation. */
  lemma {:induction false} ColonsAppend(a: string, b: string)
    ensures Colons(a + b) == Colons(a) + Colons(b)
  {
    if a != [] {
      assert (a + b)[1..] == a[1..] + b;
      ColonsAppend(a[1..], b);
    } else {
      assert a + b == b;
    }
  }

  /** A colon-free string has no colons to count. */
  lemma {:induction false} ColonsNone(a: string)
    requires ':' !in a
    ensures Colons(a) == 0
  {
    if a != [] {
      ColonsNone(a[1..]);
    }
  }

  /** Counting colons from the first one on: it is one of them. */
  lemma {:induction false} ColonsFromFirst(s: string)
    ensures FindColon(s) == |s| ==> Colons(s) == 0
    ensures FindColon(s) < |s| ==> Colons(s) == 1 + Colons(s[FindColon(s) + 1..])
  {
    if s != [] && s[0] != ':' {
      ColonsFromFirst(s[1..]);
      if FindColon(s) < |s| {
        assert s[1..][FindColon(s[1..]) + 1..] == s[FindColon(s) + 1..];
      }
    }
  }

  /** The first ':' of `a + ":" + b` is the one after `a` when `a` has none. */
  lemma FindColonAfter(a: string, b: string)
    requires ':' !in a
    ensures FindColon(a + ":" + b) == |a|
  {
    var s := a + ":" + b;
    assert s[|a|] == ':';
    assert forall j :: 0 <= j < |a| ==> s[j] == a[j];
  }

  lemma FindColonNone(a: string)
    requires ':' !in a
    ensures FindColon(a) == |a|
  {
  }

  /** The fields of `parts` written one after another, separated by ':'. */
  function Join(parts: seq<string>): string
    requires |parts| >= 1
    decreases |parts|
  {
    if |parts| == 1 then parts[0] else parts[0] + ":" + Join(parts[1..])
  }

  /** The colon-free field before the first ':' joined to the fields after it gives `s` back. */
  lemma JoinFirstField(s: string, i: nat, rest: seq<string>)
    requires i < |s| && s[i] == ':' && forall j :: 0 <= j < i ==> s[j] != ':'
    requires |rest| >= 1 && Join(rest) == s[i + 1..]
    ensures ':' !in s[..i]
    ensures Join([s[..i]] + rest) == s
  {
    PrefixWithoutColon(s, i);
    JoinFront(s[..i], rest);
    CutAt(s, i);
  }

  lemma PrefixWithoutColon(s: string, i: nat)
    requires i <= |s| && forall j :: 0 <= j < i ==> s[j] != ':'
    ensures ':' !in s[..i]
  {
    assert forall j :: 0 <= j < i ==> s[..i][j] == s[j];
  }

  /** Joining a field in front of other fields puts one ':' between them. */
  lemma JoinFront(head: string, rest: seq<string>)
    requires |rest| >= 1
    ensures Join([head] + rest) == head + ":" + Join(rest)
  {
    assert ([head] + rest)[1..] == rest;
  }

  lemma CutAt(s: string, i: nat)
    requires i < |s| && s[i] == ':'
    ensures s == s[..i] + ":" + s[i + 1..]
  {
  }

  /**
   * Python's `s.split(":")`: the maximal colon-free fields of `s`, one more
   * than there are colons, that join back to `s`.
   */
  function SplitAll(s: string): (parts: seq<string>)
    ensures |parts| == Colons(s) + 1
    ensures forall i :: 0 <= i < |parts| ==> ':' !in parts[i]
    ensures Join(parts) == s
    decreases |s|
  {
    var i := FindColon(s);
    if i == |s| then
      ColonsFromFirst(s);
      assert s[..i] == s;
      [s]
    else
      var rest := SplitAll(s[i + 1..]);
      ColonsFromFirst(s);
      JoinFirstField(s, i, rest);
      [s[..i]] + rest
  }

  /**
   * Python's `s.split(":", n)`: at most `n` splits, taken from the left; the
   * last field keeps any colons that were not split off.
   */
  function SplitAtMost(s: string, n: nat): (parts: seq<string>)
    ensures |parts| == (if Colons(s) < n then Colons(s) else n) + 1
    ensures forall i :: 0 <= i < |parts| - 1 ==> ':' !in parts[i]
    ensures |parts| <= n ==> ':' !in parts[|parts| - 1]
    ensures Join(parts) == s
    decreases n
  {
    var i := FindColon(s);
    ColonsFromFirst(s);
    if i == |s| || n == 0 then
      assert i == |s| ==> s[..i] == s;
      [s]
    else
      var rest := SplitAtMost(s[i + 1..], n - 1);
      JoinFirstField(s, i, rest);
      [s[..i]] + rest
  }

  /** A colon-free string splits into itself alone. */
  lemma SplitAllAtom(a: string)
    requires ':' !in a
    ensures SplitAll(a) == [a]
  {
    FindColonNone(a);
    assert a[..|a|] == a;
  }

  /** Splitting peels off the colon-free field in front of the first ':'. */
  lemma SplitAllCons(a: string, b: string)
    requires ':' !in a
    ensures SplitAll(a + ":" + b) == [a] + SplitAll(b)
  {
    var s := a + ":" + b;
    FindColonAfter(a, b);
    assert s[..|a|] == a;
    assert s[|a| + 1..] == b;
  }

  lemma SplitAtMostCons(a: string, b: string, n: nat)
    requires ':' !in a
    ensures SplitAtMost(a + ":" + b, n + 1) == [a] + SplitAtMost(b, n)
  {
    var s := a + ":" + b;
    FindColonAfter(a, b);
    assert s[..|a|] == a;
    assert s[|a| + 1..] == b;
  }

  /** One step of joining. */
  lemma JoinCons(parts: seq<string>)
    requires |parts| >= 2
    ensures Join(parts) == parts[0] + ":" + Join(parts[1..])
  {
  }

  /** Splitting zero times leaves the string whole. */
  lemma SplitAtMostNone(s: string)
    ensures SplitAtMost(s, 0) == [s]
  {
    if FindColon(s) == |s| {
      assert s[..|s|] == s;
    }
  }

  /** Splitting a join of colon-free fields gives the fields back. */
  lemma {:induction false} SplitAllJoin(parts: seq<string>)
    requires |parts| >= 1
    requires forall i :: 0 <= i < |parts| ==> ':' !in parts[i]
    ensures SplitAll(Join(parts)) == parts
    decreases |parts|
  {
    if |parts| == 1 {
      FindColonNone(parts[0]);
      assert parts[0][..|parts[0]|] == parts[0];
    } else {
      SplitAllJoin(parts[1..]);
      SplitAllCons(parts[0], Join(parts[1..]));
      assert [parts[0]] + parts[1..] == parts;
    }
  }

  /**
   * Splitting at most `n` times a join of `n + 1` fields whose first `n`
   * are colon-free gives the fields back, whatever the last one holds.
   */
  lemma {:induction false} SplitAtMostJoin(parts: seq<string>, n: nat)
    requires |parts| == n + 1
    requires forall i :: 0 <= i < n ==> ':' !in parts[i]
    ensures SplitAtMost(Join(parts), n) == parts
    decreases n
  {
    if n == 0 {
      assert Join(parts) == parts[0];
      SplitAtMostNone(parts[0]);
    } else {
      var rest := parts[1..];
      assert forall i :: 0 <= i < n - 1 ==> rest[i] == parts[i + 1];
      SplitAtMostJoin(rest, n - 1);
      SplitAtMostJoinStep(parts, n);
    }
  }

  /** The inductive step: a colon-free first field in front of fields that split back. */
  lemma SplitAtMostJoinStep(parts: seq<string>, n: nat)
    requires |parts| == n + 1 && n >= 1 && ':' !in parts[0]
    requires SplitAtMost(Join(parts[1..]), n - 1) == parts[1..]
    ensures SplitAtMost(Join(parts), n) == parts
  {
    JoinCons(parts);
    SplitAtMostCons(parts[0], Join(parts[1..]), n - 1);
    assert [parts[0]] + parts[1..] == parts;
  }
}
