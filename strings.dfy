/** The JavaScript string operations the application relies on, over `seq<char>`:
    `trim`, `split` on one character, `toLowerCase` (restricted to ASCII), `includes`, `startsWith`. */
module Strings {

  /** The code points of ECMAScript's WhiteSpace and LineTerminator productions: what `trim` removes. */
  predicate IsWhitespace(c: char) {
    || c == '\t' || c == '\n' || c == '\U{B}' || c == '\U{C}' || c == '\r' || c == ' '
    || c == '\U{A0}' || c == '\U{1680}' || ('\U{2000}' <= c <= '\U{200A}')
    || c == '\U{2028}' || c == '\U{2029}' || c == '\U{202F}' || c == '\U{205F}'
    || c == '\U{3000}' || c == '\U{FEFF}'
  }

  /** Neither starts nor ends with whitespace. */
  predicate IsTrimmed(s: string) {
    s == [] || (!IsWhitespace(s[0]) && !IsWhitespace(s[|s| - 1]))
  }

  /** The end of the whitespace run of `s` that starts at `i`. */
  function WhitespaceEnd(s: string, i: nat): (j: nat)
    requires i <= |s|
    ensures i <= j <= |s|
    ensures forall k :: i <= k < j ==> IsWhitespace(s[k])
    ensures j < |s| ==> !IsWhitespace(s[j])
    decreases |s| - i
  {
    if i < |s| && IsWhitespace(s[i]) then WhitespaceEnd(s, i + 1) else i
  }

  /** The start of the whitespace run of `s` that ends at `j`, not going below `lo`. */
  function WhitespaceStart(s: string, lo: nat, j: nat): (r: nat)
    requires lo <= j <= |s|
    ensures lo <= r <= j
    ensures forall k :: r <= k < j ==> IsWhitespace(s[k])
    ensures lo < r ==> !IsWhitespace(s[r - 1])
    decreases j
  {
    if lo < j && IsWhitespace(s[j - 1]) then WhitespaceStart(s, lo, j - 1) else j
  }

  /** Where the trim of `s` starts: after its leading whitespace. */
  function TrimOffset(s: string): nat {
    WhitespaceEnd(s, 0)
  }

  /** `trim`: the slice of `s` between its leading and its trailing whitespace. */
  function Trim(s: string): (r: string)
    ensures IsTrimmed(r)
    ensures var i := TrimOffset(s);
            && i + |r| <= |s| && r == s[i..i + |r|]
            && (forall k :: 0 <= k < i ==> IsWhitespace(s[k]))
            && (forall k :: i + |r| <= k < |s| ==> IsWhitespace(s[k]))
  {
    var i := WhitespaceEnd(s, 0);
    var j := WhitespaceStart(s, i, |s|);
    s[i..j]
  }

  /** A trimmed string is its own trim, so `trim` is idempotent. */
  lemma TrimTrimmed(s: string)
    requires IsTrimmed(s)
    ensures Trim(s) == s
  {
    if s != [] {
      assert WhitespaceEnd(s, 0) == 0;
      assert WhitespaceStart(s, 0, |s|) == |s|;
      assert s[0..|s|] == s;
    }
  }

  /** `trim` only removes characters, so a character absent from `s` is absent from its trim. */
  lemma TrimAvoids(s: string, c: char)
    requires c !in s
    ensures c !in Trim(s)
  {
    var i := TrimOffset(s);
    assert Trim(s) == s[i..i + |Trim(s)|];
  }

  /** `split(d)` on a one-character separator: the pieces between the occurrences of `d`. */
  function Split(s: string, d: char): (r: seq<string>)
    ensures |r| == multiset(s)[d] + 1
    ensures forall k :: 0 <= k < |r| ==> d !in r[k]
    decreases |s|
  {
    if s == [] then [""]
    else
      assert s == [s[0]] + s[1..];
      var rest := Split(s[1..], d);
      if s[0] == d then [""] + rest else [[s[0]] + rest[0]] + rest[1..]
  }

  /** `join(d)`, the inverse of `Split`. */
  function Join(parts: seq<string>, d: char): string
  {
    if |parts| == 0 then ""
    else if |parts| == 1 then parts[0]
    else parts[0] + [d] + Join(parts[1..], d)
  }

  /** Joining a first piece in front of at least one more. */
  lemma JoinCons(p: string, rest: seq<string>, d: char)
    requires |rest| >= 1
    ensures Join([p] + rest, d) == p + [d] + Join(rest, d)
  {
    assert ([p] + rest)[1..] == rest;
  }

  /** Prepending a character to the first piece prepends it to the join. */
  lemma JoinPrepend(c: char, rest: seq<string>, d: char)
    requires |rest| >= 1
    ensures Join([[c] + rest[0]] + rest[1..], d) == [c] + Join(rest, d)
  {
    var parts := [[c] + rest[0]] + rest[1..];
    if |rest| > 1 {
      assert parts[1..] == rest[1..];
    }
  }

  /** Splitting loses nothing: joining the pieces gives back the string. */
  lemma {:induction false} JoinSplit(s: string, d: char)
    ensures Join(Split(s, d), d) == s
    decreases |s|
  {
    if s != [] {
      JoinSplit(s[1..], d);
      var rest := Split(s[1..], d);
      assert s == [s[0]] + s[1..];
      if s[0] == d {
        JoinCons("", rest, d);
      } else {
        JoinPrepend(s[0], rest, d);
      }
    }
  }

  /** A piece free of `d` followed by `d` splits off as the first piece. */
  lemma {:induction false} SplitPiece(a: string, t: string, d: char)
    requires d !in a
    ensures Split(a + [d] + t, d) == [a] + Split(t, d)
    decreases |a|
  {
    var s := a + [d] + t;
    if a == [] {
      assert s[0] == d && s[1..] == t;
    } else {
      assert s[0] == a[0] && s[1..] == a[1..] + [d] + t;
      SplitPiece(a[1..], t, d);
      assert [a[0]] + a[1..] == a;
    }
  }

  /** A string free of `d` is a single piece. */
  lemma {:induction false} SplitWhole(a: string, d: char)
    requires d !in a
    ensures Split(a, d) == [a]
    decreases |a|
  {
    if a != [] {
      SplitWhole(a[1..], d);
      assert [a[0]] + a[1..] == a;
    }
  }

  /** Joining pieces free of `d` and splitting again gives back the pieces. */
  lemma {:induction false} SplitJoin(parts: seq<string>, d: char)
    requires |parts| >= 1
    requires forall k :: 0 <= k < |parts| ==> d !in parts[k]
    ensures Split(Join(parts, d), d) == parts
    decreases |parts|
  {
    if |parts| == 1 {
      SplitWhole(parts[0], d);
    } else {
      SplitJoin(parts[1..], d);
      SplitPiece(parts[0], Join(parts[1..], d), d);
      assert [parts[0]] + parts[1..] == parts;
    }
  }

  /** The last piece of a join follows the last separator. */
  lemma {:induction false} JoinLast(parts: seq<string>, d: char)
    requires |parts| >= 2
    ensures Join(parts, d) == Join(parts[..|parts| - 1], d) + [d] + parts[|parts| - 1]
    decreases |parts|
  {
    if |parts| > 2 {
      JoinLast(parts[1..], d);
      assert parts[1..][..|parts| - 2] == parts[..|parts| - 1][1..];
    }
  }

  /** `r` is the final piece of `s` when split on `d`: a `d`-free suffix preceded by `d` or by nothing. */
  ghost predicate IsLastSegment(r: string, s: string, d: char) {
    && |r| <= |s| && r == s[|s| - |r|..] && d !in r
    && (|r| == |s| || s[|s| - |r| - 1] == d)
  }

  /** The text after the last `d` (`split(d).pop()`), computed from the end of the string. */
  function LastSegment(s: string, d: char): (r: string)
    ensures IsLastSegment(r, s, d)
    decreases |s|
  {
    if s == [] || s[|s| - 1] == d then ""
    else LastSegment(s[..|s| - 1], d) + [s[|s| - 1]]
  }

  /** A string has exactly one last segment. */
  lemma LastSegmentUnique(r1: string, r2: string, s: string, d: char)
    requires IsLastSegment(r1, s, d) && IsLastSegment(r2, s, d)
    ensures r1 == r2
  {
  }

  /** `LastSegment` is the last piece that `Split` produces. */
  lemma LastSegmentIsLastPiece(s: string, d: char)
    ensures LastSegment(s, d) == Split(s, d)[|Split(s, d)| - 1]
  {
    var parts := Split(s, d);
    var p := parts[|parts| - 1];
    JoinSplit(s, d);
    if |parts| >= 2 {
      JoinLast(parts, d);
      var front := Join(parts[..|parts| - 1], d);
      assert s == front + [d] + p;
      assert s[|s| - |p|..] == p;
      assert s[|s| - |p| - 1] == d;
    }
    assert IsLastSegment(p, s, d);
    LastSegmentUnique(LastSegment(s, d), p, s, d);
  }

  /** ASCII `toLowerCase` of one character. */
  function LowerChar(c: char): char {
    if 'A' <= c <= 'Z' then (c as int + 32) as char else c
  }

  /** ASCII `toUpperCase` of one character. */
  function UpperChar(c: char): char {
    if 'a' <= c <= 'z' then (c as int - 32) as char else c
  }

  function ToLower(s: string): (r: string)
    ensures |r| == |s| && forall k :: 0 <= k < |s| ==> r[k] == LowerChar(s[k])
  {
    seq(|s|, k requires 0 <= k < |s| => LowerChar(s[k]))
  }

  function ToUpper(s: string): (r: string)
    ensures |r| == |s| && forall k :: 0 <= k < |s| ==> r[k] == UpperChar(s[k])
  {
    seq(|s|, k requires 0 <= k < |s| => UpperChar(s[k]))
  }

  /** Lower-casing forgets the case a string was written in. */
  lemma ToLowerForgetsCase(s: string)
    ensures ToLower(ToLower(s)) == ToLower(s)
    ensures ToLower(ToUpper(s)) == ToLower(s)
  {
  }

  /** `s.includes(sub)`: `sub` occurs in `s` at some position. */
  predicate Contains(s: string, sub: string)
    decreases |s|
  {
    sub <= s || (s != [] && Contains(s[1..], sub))
  }

  /** An occurrence at position `i` makes `includes` true. */
  lemma {:induction false} ContainsAt(s: string, sub: string, i: nat)
    requires i <= |s| && sub <= s[i..]
    ensures Contains(s, sub)
    decreases i
  {
    if i > 0 {
      assert s[1..][i - 1..] == s[i..];
      ContainsAt(s[1..], sub, i - 1);
    }
  }

  /** `includes` holds exactly when `sub` occurs at some position of `s`. */
  lemma {:induction false} ContainsIffOccurs(s: string, sub: string)
    ensures Contains(s, sub) <==> exists i :: 0 <= i <= |s| && sub <= s[i..]
    decreases |s|
  {
    if Contains(s, sub) {
      if sub <= s {
        assert s[0..] == s;
      } else {
        ContainsIffOccurs(s[1..], sub);
        var i :| 0 <= i <= |s[1..]| && sub <= s[1..][i..];
        assert s[1..][i..] == s[i + 1..];
      }
    }
    if exists i :: 0 <= i <= |s| && sub <= s[i..] {
      var i :| 0 <= i <= |s| && sub <= s[i..];
      ContainsAt(s, sub, i);
    }
  }

  /** `s.startsWith(p)`. */
  predicate StartsWith(s: string, p: string) {
    p <= s
  }
}
