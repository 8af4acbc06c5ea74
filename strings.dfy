/** The pieces of Python's `str` that the modelled code relies on: whitespace as
    `str.isspace()` and the `\s` regex class see it, `lower()`, `strip()`,
    `startswith`/`endswith`, `in`, `replace`, `split`, `join`, `rfind`,
    prefix slicing `s[:k]` and `str(int)`. */
module Strings {

  /** The characters for which Python's `str.isspace()` holds; `\s` in a `str` regex
      and the argument-less `strip()` use the same set. */
  predicate IsSpace(c: char)
  {
    || c == ' '
    || ('\t' <= c <= '\r')
    || ('\U{1c}' <= c <= '\U{1f}')
    || c == '\U{85}' || c == '\U{a0}' || c == '\U{1680}'
    || ('\U{2000}' <= c <= '\U{200a}')
    || c == '\U{2028}' || c == '\U{2029}' || c == '\U{202f}' || c == '\U{205f}' || c == '\U{3000}'
  }

  predicate IsUpper(c: char)
  {
    'A' <= c <= 'Z'
  }

  /** `str.lower()` on one character (ASCII letters only; see README). */
  function LowerChar(c: char): (d: char)
    ensures !IsUpper(d)
    ensures IsSpace(d) <==> IsSpace(c)
    ensures !IsUpper(c) ==> d == c
  {
    if IsUpper(c) then (c as int + 32) as char else c
  }

  function Lower(s: string): (r: string)
    ensures |r| == |s|
    ensures forall i :: 0 <= i < |s| ==> r[i] == LowerChar(s[i])
  {
    seq(|s|, i requires 0 <= i < |s| => LowerChar(s[i]))
  }

  predicate HasUpper(s: string)
  {
    exists i :: 0 <= i < |s| && IsUpper(s[i])
  }

  predicate StartsWith(s: string, p: string)
  {
    |p| <= |s| && s[..|p|] == p
  }

  predicate EndsWith(s: string, p: string)
  {
    |p| <= |s| && s[|s| - |p|..] == p
  }

  /** Python's `p in s` for strings. */
  predicate Contains(s: string, p: string)
  {
    exists i :: 0 <= i <= |s| && StartsWith(s[i..], p)
  }

  predicate ContainsChar(s: string, c: char)
  {
    exists i :: 0 <= i < |s| && s[i] == c
  }

  /** The first position at or after `i` that does not hold whitespace (`|s|` if none). */
  function SkipSpace(s: string, i: nat): (j: nat)
    requires i <= |s|
    ensures i <= j <= |s|
    ensures forall k :: i <= k < j ==> IsSpace(s[k])
    ensures j < |s| ==> !IsSpace(s[j])
    decreases |s| - i
  {
    if i < |s| && IsSpace(s[i]) then SkipSpace(s, i + 1) else i
  }

  /** Moving down from `j` towards `lo`, the position just after the last character that
      is not whitespace (`lo` if none). */
  function SkipSpaceBack(s: string, lo: nat, j: nat): (e: nat)
    requires lo <= j <= |s|
    ensures lo <= e <= j
    ensures forall k :: e <= k < j ==> IsSpace(s[k])
    ensures e > lo ==> !IsSpace(s[e - 1])
  {
    if j > lo && IsSpace(s[j - 1]) then SkipSpaceBack(s, lo, j - 1) else j
  }

  /** `lstrip()`: drops the leading whitespace. */
  function TrimStart(s: string): (r: string)
    ensures |r| <= |s| && r == s[|s| - |r|..]
    ensures r != [] ==> !IsSpace(r[0])
    ensures forall i :: 0 <= i < |s| - |r| ==> IsSpace(s[i])
  {
    s[SkipSpace(s, 0)..]
  }

  /** `rstrip()`: drops the trailing whitespace. */
  function TrimEnd(s: string): (r: string)
    ensures |r| <= |s| && r == s[..|r|]
    ensures r != [] ==> !IsSpace(r[|r| - 1])
    ensures forall i :: |r| <= i < |s| ==> IsSpace(s[i])
  {
    s[..SkipSpaceBack(s, 0, |s|)]
  }

  /** How many characters `strip()` removes at the front. */
  function StripOffset(s: string): (o: nat)
    ensures o <= |s|
  {
    SkipSpace(s, 0)
  }

  /** `strip()`: the slice of `s` left once the whitespace at both ends is removed. */
  function Strip(s: string): (r: string)
    ensures StripOffset(s) + |r| <= |s|
    ensures r == s[StripOffset(s)..StripOffset(s) + |r|]
    ensures r != [] ==> !IsSpace(r[0]) && !IsSpace(r[|r| - 1])
    ensures forall i :: 0 <= i < StripOffset(s) ==> IsSpace(s[i])
    ensures forall i :: StripOffset(s) + |r| <= i < |s| ==> IsSpace(s[i])
  {
    var o := StripOffset(s);
    s[o..SkipSpaceBack(s, o, |s|)]
  }

  /** A text that begins with `w + rest` begins with `w`, and `rest` follows it. */
  lemma StartsWithConcat(s: string, w: string, rest: string)
    requires StartsWith(s, w + rest)
    ensures StartsWith(s, w) && StartsWith(s[|w|..], rest)
  {
    assert s[..|w|] == (w + rest)[..|w|];
    assert s[|w|..][..|rest|] == (w + rest)[|w|..];
  }

  /** A string with no whitespace at either end is its own `strip()`. */
  lemma StripUnchanged(t: string)
    requires t == [] || (!IsSpace(t[0]) && !IsSpace(t[|t| - 1]))
    ensures Strip(t) == t
  {
    if t != [] {
      assert SkipSpace(t, 0) == 0;
      assert SkipSpaceBack(t, 0, |t|) == |t|;
    }
  }

  /** Stripping removes characters and adds none. */
  lemma StripKeepsAbsent(s: string, c: char)
    requires !ContainsChar(s, c)
    ensures !ContainsChar(Strip(s), c)
  {
    var r, o := Strip(s), StripOffset(s);
    forall j | 0 <= j < |r| ensures r[j] != c { assert r[j] == s[o + j]; }
  }

  /** The characters of a slice are characters of the whole. */
  lemma SliceKeepsAbsent(s: string, i: nat, j: nat, c: char)
    requires i <= j <= |s| && !ContainsChar(s, c)
    ensures !ContainsChar(s[i..j], c)
  {
    forall k | 0 <= k < j - i ensures s[i..j][k] != c { assert s[i..j][k] == s[i + k]; }
  }

  /** A concatenation holds only the characters of its two halves. */
  lemma ConcatKeepsAbsent(x: string, y: string, c: char)
    requires !ContainsChar(x, c) && !ContainsChar(y, c)
    ensures !ContainsChar(x + y, c)
  {
    forall i | 0 <= i < |x + y| ensures (x + y)[i] != c {
      if i >= |x| { assert (x + y)[i] == y[i - |x|]; }
    }
  }

  /** Python's `str.replace(pat, rep)`: leftmost, non-overlapping occurrences. */
  function ReplaceAll(s: string, pat: string, rep: string): string
    requires |pat| > 0
    decreases |s|
  {
    if |s| < |pat| then s
    else if s[..|pat|] == pat then rep + ReplaceAll(s[|pat|..], pat, rep)
    else [s[0]] + ReplaceAll(s[1..], pat, rep)
  }

  /** Python's `s.find(p)`: the first position where `p` occurs, or -1. */
  function IndexOf(s: string, p: string): (i: int)
    ensures -1 <= i <= |s|
    ensures i >= 0 ==> StartsWith(s[i..], p)
    ensures forall j {:trigger StartsWith(s[j..], p)} :: 0 <= j <= |s| && (i < 0 || j < i) ==> !StartsWith(s[j..], p)
  {
    IndexFrom(s, p, 0)
  }

  /** The first position at or after `k` where `p` occurs, or -1. */
  function IndexFrom(s: string, p: string, k: nat): (i: int)
    requires k <= |s|
    ensures i == -1 || k <= i <= |s|
    ensures i >= 0 ==> StartsWith(s[i..], p)
    ensures forall j {:trigger StartsWith(s[j..], p)} :: k <= j <= |s| && (i < 0 || j < i) ==> !StartsWith(s[j..], p)
    decreases |s| - k
  {
    if StartsWith(s[k..], p) then k
    else if k == |s| then -1
    else IndexFrom(s, p, k + 1)
  }

  /** Python's `s.split(sep)` for a non-empty separator. */
  function Split(s: string, sep: string): (parts: seq<string>)
    requires |sep| > 0
    ensures |parts| >= 1
    decreases |s|
  {
    var i := IndexOf(s, sep);
    if i < 0 then [s] else [s[..i]] + Split(s[i + |sep|..], sep)
  }

  /** One step of `Split` when the separator occurs. */
  lemma SplitStep(s: string, sep: string)
    requires |sep| > 0 && IndexOf(s, sep) >= 0
    ensures Split(s, sep) == [s[..IndexOf(s, sep)]] + Split(s[IndexOf(s, sep) + |sep|..], sep)
  {
  }

  /** Python's `sep.join(parts)`. */
  function JoinSep(sep: string, parts: seq<string>): string
  {
    if |parts| == 0 then ""
    else if |parts| == 1 then parts[0]
    else parts[0] + sep + JoinSep(sep, parts[1..])
  }

  /** Joining the pieces of a split with the same separator gives the string back. */
  lemma {:induction false} JoinSplit(s: string, sep: string)
    requires |sep| > 0
    ensures JoinSep(sep, Split(s, sep)) == s
    decreases |s|
  {
    var i := IndexOf(s, sep);
    if i >= 0 {
      var rest := s[i + |sep|..];
      SplitStep(s, sep);
      JoinSplit(rest, sep);
      JoinCons(sep, s[..i], Split(rest, sep));
      SliceAround(s, sep, i);
    }
  }

  /** A join ends with its last piece. */
  lemma {:induction false} JoinSepEndsWithLast(sep: string, parts: seq<string>)
    requires parts != []
    ensures EndsWith(JoinSep(sep, parts), parts[|parts| - 1])
  {
    if |parts| > 1 {
      JoinSepEndsWithLast(sep, parts[1..]);
      var rest := JoinSep(sep, parts[1..]);
      var last := parts[|parts| - 1];
      var j := parts[0] + sep + rest;
      assert j[|j| - |last|..] == rest[|rest| - |last|..];
    }
  }

  lemma JoinCons(sep: string, h: string, t: seq<string>)
    requires t != []
    ensures JoinSep(sep, [h] + t) == h + sep + JoinSep(sep, t)
  {
    assert ([h] + t)[1..] == t;
  }

  /** A string is what precedes an occurrence of `p`, then `p`, then what follows it. */
  lemma SliceAround(s: string, p: string, i: nat)
    requires i <= |s| && StartsWith(s[i..], p)
    ensures s == s[..i] + p + s[i + |p|..]
  {
    assert s[i..][..|p|] == s[i..i + |p|];
  }

  function CountChar(s: string, c: char): nat
  {
    if s == [] then 0 else (if s[0] == c then 1 else 0) + CountChar(s[1..], c)
  }

  lemma {:induction false} CountCharAppend(a: string, b: string, c: char)
    ensures CountChar(a + b, c) == CountChar(a, c) + CountChar(b, c)
  {
    if a == [] {
      assert a + b == b;
    } else {
      assert (a + b)[0] == a[0];
      assert (a + b)[1..] == a[1..] + b;
      CountCharAppend(a[1..], b, c);
    }
  }

  lemma {:induction false} CountCharAbsent(s: string, c: char)
    requires !ContainsChar(s, c)
    ensures CountChar(s, c) == 0
  {
    if s != [] {
      assert !ContainsChar(s[1..], c) by {
        forall i | 0 <= i < |s[1..]| ensures s[1..][i] != c { assert s[1..][i] == s[i + 1]; }
      }
      CountCharAbsent(s[1..], c);
    }
  }

  /** Splitting on one character gives one piece more than there are occurrences of it,
      and no piece contains the separator. */
  lemma {:induction false} SplitCharCount(s: string, c: char)
    ensures |Split(s, [c])| == CountChar(s, c) + 1
    ensures forall k :: 0 <= k < |Split(s, [c])| ==> !ContainsChar(Split(s, [c])[k], c)
    decreases |s|
  {
    var i := IndexOf(s, [c]);
    if i < 0 {
      assert !ContainsChar(s, c) by {
        forall j | 0 <= j < |s| ensures s[j] != c { assert !StartsWith(s[j..], [c]); }
      }
      CountCharAbsent(s, c);
    } else {
      var head, rest := s[..i], s[i + 1..];
      SplitCharCount(rest, c);
      assert !ContainsChar(head, c) by {
        forall j | 0 <= j < |head| ensures head[j] != c { assert !StartsWith(s[j..], [c]); }
      }
      CountCharAbsent(head, c);
      assert s == head + [c] + rest;
      CountCharAppend(head + [c], rest, c);
      CountCharAppend(head, [c], c);
      assert CountChar([c], c) == 1;
    }
  }

  /** Python's `s.rfind(c)`: the last position of `c`, or -1. */
  function LastIndexOf(s: string, c: char): (i: int)
    ensures -1 <= i < |s|
    ensures i >= 0 ==> s[i] == c
    ensures forall j :: i < j < |s| ==> s[j] != c
  {
    if s == [] then -1
    else if s[|s| - 1] == c then |s| - 1
    else LastIndexOf(s[..|s| - 1], c)
  }

  /** Python's prefix slice `s[:k]`, where a negative `k` counts from the end. */
  function PyTake(s: string, k: int): (r: string)
    ensures |r| <= |s| && r == s[..|r|]
    ensures k >= 0 ==> |r| == if k <= |s| then k else |s|
    ensures k < 0 ==> |r| == if -k <= |s| then |s| + k else 0
  {
    if k >= 0 then (if k <= |s| then s[..k] else s)
    else if -k <= |s| then s[..|s| + k] else []
  }

  function DigitChar(d: nat): char
    requires d < 10
  {
    ('0' as int + d) as char
  }

  /** `str(n)` for a natural number. */
  function NatToString(n: nat): string
  {
    if n < 10 then [DigitChar(n)] else NatToString(n / 10) + [DigitChar(n % 10)]
  }

  /** `str(n)` for a Python `int`. */
  function IntToString(n: int): string
  {
    if n < 0 then "-" + NatToString(-n) else NatToString(n)
  }
}
