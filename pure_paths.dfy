/** The part of Python's `pathlib.PurePosixPath` that the storage services use:
    parsing a string into a root and its parts, `str(path)`, the `/` operator,
    `.name`, `.suffix` and `.stem`. */
module PurePaths {
  import opened Strings

  /** A parsed path: its root ("", "/" or "//") and its parts, with empty and "."
      parts already dropped. */
  datatype PurePath = PurePath(root: string, parts: seq<string>)

  /** POSIX root: exactly two leading slashes are kept, one or three and more give "/". */
  function RootOf(s: string): string
  {
    if StartsWith(s, "//") && !StartsWith(s, "///") then "//"
    else if StartsWith(s, "/") then "/"
    else ""
  }

  /** Drops the empty and "." pieces of a split path. */
  function Keep(pieces: seq<string>): (r: seq<string>)
    ensures forall k :: 0 <= k < |r| ==> r[k] != "" && r[k] != "."
  {
    if pieces == [] then []
    else if pieces[0] == "" || pieces[0] == "." then Keep(pieces[1..])
    else [pieces[0]] + Keep(pieces[1..])
  }

  function PartsOf(s: string): seq<string>
  {
    Keep(Split(s, "/"))
  }

  /** `PurePosixPath(s)`. */
  function Parse(s: string): PurePath
  {
    PurePath(RootOf(s), PartsOf(s))
  }

  /** `str(path)`: an empty relative path prints as ".". */
  function Str(p: PurePath): string
  {
    if p.root == "" && p.parts == [] then "." else p.root + JoinSep("/", p.parts)
  }

  /** `path / s`: an absolute right operand replaces the left one. */
  function Div(p: PurePath, s: string): PurePath
  {
    var q := Parse(s);
    if q.root != "" then q else PurePath(p.root, p.parts + q.parts)
  }

  /** `.name`: the last part, or "" when there is none. */
  function Name(p: PurePath): string
  {
    if p.parts == [] then "" else p.parts[|p.parts| - 1]
  }

  /** `.suffix` of a final component: from its last "." on, unless that dot is the
      first or the last character. */
  function NameSuffix(name: string): (r: string)
    ensures r == "" || (r[0] == '.' && EndsWith(name, r) && |r| < |name|)
  {
    var i := LastIndexOf(name, '.');
    if 0 < i < |name| - 1 then name[i..] else ""
  }

  /** `.stem` of a final component: what precedes its suffix. */
  function NameStem(name: string): (r: string)
    ensures r + NameSuffix(name) == name
  {
    var i := LastIndexOf(name, '.');
    if 0 < i < |name| - 1 then name[..i] else name
  }

  function Suffix(p: PurePath): string
  {
    NameSuffix(Name(p))
  }

  function Stem(p: PurePath): string
  {
    NameStem(Name(p))
  }

  /** The position `IndexOf` reports is the first occurrence. */
  lemma IndexOfIs(s: string, p: string, i: int)
    requires 0 <= i <= |s| && StartsWith(s[i..], p)
    requires forall j :: 0 <= j < i ==> !StartsWith(s[j..], p)
    ensures IndexOf(s, p) == i
  {
  }

  /** Where `a` has no `c`, the first `c` of `a + [c] + b` is the one after `a`. */
  lemma FirstAfter(a: string, b: string, c: char)
    requires IndexOf(a, [c]) < 0
    ensures IndexOf(a + [c] + b, [c]) == |a|
  {
    var s := a + [c] + b;
    forall j | 0 <= j < |a| ensures !StartsWith(s[j..], [c]) {
      assert !StartsWith(a[j..], [c]);
      assert s[j..][..1] == [s[j]] && a[j..][..1] == [a[j]];
    }
    assert s[|a|..][..1] == [c];
    IndexOfIs(s, [c], |a|);
  }

  /** A `c` inside `a` stays the first one once more text is appended. */
  lemma FirstWithin(a: string, t: string, c: char)
    requires IndexOf(a, [c]) >= 0
    ensures IndexOf(a + t, [c]) == IndexOf(a, [c])
  {
    var s := a + t;
    var i := IndexOf(a, [c]);
    forall j | 0 <= j < i ensures !StartsWith(s[j..], [c]) {
      assert !StartsWith(a[j..], [c]);
      assert s[j..][..1] == [s[j]] && a[j..][..1] == [a[j]];
    }
    assert s[i..][..1] == a[i..][..1];
    IndexOfIs(s, [c], i);
  }

  /** Splitting on a character distributes over a concatenation around that character. */
  lemma {:induction false} SplitAround(a: string, b: string, c: char)
    ensures Split(a + [c] + b, [c]) == Split(a, [c]) + Split(b, [c])
    decreases |a|
  {
    var i := IndexOf(a, [c]);
    if i < 0 {
      SplitAroundNone(a, b, c);
    } else {
      var rest := a[i + 1..];
      SplitStep(a, [c]);
      SplitAroundStep(a, b, c, i);
      SplitAround(rest, b, c);
      ConsAppend(a[..i], Split(rest, [c]), Split(b, [c]));
    }
  }

  lemma ConsAppend<T>(h: T, y: seq<T>, v: seq<T>)
    ensures [h] + (y + v) == ([h] + y) + v
  {
  }

  /** `SplitAround` when `a` holds no `c`. */
  lemma SplitAroundNone(a: string, b: string, c: char)
    requires IndexOf(a, [c]) < 0
    ensures Split(a + [c] + b, [c]) == Split(a, [c]) + Split(b, [c])
  {
    var s := a + [c] + b;
    FirstAfter(a, b, c);
    SplitStep(s, [c]);
    assert s[..|a|] == a && s[|a| + 1..] == b;
  }

  /** The first step of `SplitAround` when `a` holds its first `c` at `i`. */
  lemma SplitAroundStep(a: string, b: string, c: char, i: nat)
    requires IndexOf(a, [c]) == i
    ensures i < |a|
    ensures Split(a + [c] + b, [c]) == [a[..i]] + Split(a[i + 1..] + [c] + b, [c])
  {
    var t := [c] + b;
    var s := a + t;
    FirstWithin(a, t, c);
    AppendSlices(a, t, i);
    SplitStep(s, [c]);
    var rest := s[i + 1..];
    assert a + [c] + b == s;
    assert rest == a[i + 1..] + [c] + b;
  }

  lemma AppendSlices(a: string, t: string, i: nat)
    requires i < |a|
    ensures (a + t)[..i] == a[..i] && (a + t)[i + 1..] == a[i + 1..] + t
  {
  }

  lemma {:induction false} KeepAppend(x: seq<string>, y: seq<string>)
    ensures Keep(x + y) == Keep(x) + Keep(y)
  {
    if x == [] {
      assert x + y == y;
    } else {
      assert (x + y)[0] == x[0];
      assert (x + y)[1..] == x[1..] + y;
      KeepAppend(x[1..], y);
    }
  }

  /** The parts of `a + "/" + b` are those of `a` followed by those of `b`. */
  lemma PartsAppend(a: string, b: string)
    ensures PartsOf(a + "/" + b) == PartsOf(a) + PartsOf(b)
  {
    SplitAround(a, b, '/');
    KeepAppend(Split(a, "/"), Split(b, "/"));
  }

  /** Joining a relative, non-empty `x` and then `y` is joining `x + "/" + y` at once. */
  lemma DivTwice(p: PurePath, x: string, y: string)
    requires x != [] && x[0] != '/'
    requires y == [] || y[0] != '/'
    ensures Div(Div(p, x), y) == Div(p, x + "/" + y)
  {
    var xy := x + "/" + y;
    PartsAppend(x, y);
    assert xy[0] == x[0];
    RelativeRoot(x);
    RelativeRoot(y);
    RelativeRoot(xy);
    assert p.parts + PartsOf(x) + PartsOf(y) == p.parts + (PartsOf(x) + PartsOf(y));
  }

  /** A string that does not start with "/" parses to a relative path. */
  lemma RelativeRoot(s: string)
    requires s == [] || s[0] != '/'
    ensures RootOf(s) == ""
  {
    if s != [] {
      assert !StartsWith(s, "/") by { assert s[..1][0] == s[0]; }
      assert !StartsWith(s, "//") by { if |s| >= 2 { assert s[..2][0] == s[0]; } }
    }
  }

  /** A name with no slash that is neither "" nor "." is a one-part relative path. */
  lemma ParseSingle(name: string)
    requires name != "" && name != "." && !ContainsChar(name, '/')
    ensures Parse(name) == PurePath("", [name])
    ensures Name(Parse(name)) == name
  {
    forall j | 0 <= j <= |name| ensures !StartsWith(name[j..], "/") {
      if j < |name| { assert name[j..][0] == name[j]; }
    }
    assert IndexOf(name, "/") == -1;
    assert Split(name, "/") == [name];
    assert !StartsWith(name, "/") by { assert name[..1][0] == name[0]; }
    assert !StartsWith(name, "//") by { if |name| >= 2 { assert name[..2][0] == name[0]; } }
    assert RootOf(name) == "";
    assert [name][1..] == [];
    assert Keep([name]) == [name];
  }

  lemma {:induction false} KeepLacking(pieces: seq<string>, c: char)
    requires forall k :: 0 <= k < |pieces| ==> !ContainsChar(pieces[k], c)
    ensures forall k :: 0 <= k < |Keep(pieces)| ==> !ContainsChar(Keep(pieces)[k], c)
  {
    if pieces != [] {
      KeepLacking(pieces[1..], c);
      assert forall k :: 1 <= k < |pieces| ==> pieces[k] == pieces[1..][k - 1];
    }
  }

  /** The name of a parsed path holds no slash. */
  lemma NameHasNoSlash(s: string)
    ensures !ContainsChar(Name(Parse(s)), '/')
  {
    SplitCharCount(s, '/');
    KeepLacking(Split(s, "/"), '/');
  }

  /** No part of a parsed path holds a slash, and none is empty. */
  lemma PartsLackSlash(s: string)
    ensures forall k :: 0 <= k < |PartsOf(s)| ==> PartsOf(s)[k] != "" && !ContainsChar(PartsOf(s)[k], '/')
  {
    SplitCharCount(s, '/');
    KeepLacking(Split(s, "/"), '/');
  }

  /** The text of a relative path does not start with a slash. */
  lemma RelativeStr(p: PurePath)
    requires p.root == ""
    requires forall k :: 0 <= k < |p.parts| ==> p.parts[k] != "" && !ContainsChar(p.parts[k], '/')
    ensures !StartsWith(Str(p), "/")
  {
    if p.parts != [] {
      var j := JoinSep("/", p.parts);
      var first := p.parts[0];
      assert j[0] == first[0] by {
        if |p.parts| > 1 { assert j == first + "/" + JoinSep("/", p.parts[1..]); }
      }
      assert first[0] != '/';
      assert Str(p) == j;
      assert Str(p)[..1] == [j[0]];
    } else {
      assert Str(p) == ".";
      assert Str(p)[..1] == ".";
    }
  }

  /** Joining a one-part name onto any path gives a path whose text ends in that name. */
  lemma StrEndsWithName(p: PurePath, name: string)
    requires name != "" && name != "." && !ContainsChar(name, '/')
    ensures EndsWith(Str(Div(p, name)), name)
  {
    ParseSingle(name);
    var parts := p.parts + [name];
    assert Div(p, name) == PurePath(p.root, parts);
    JoinSepEndsWithLast("/", parts);
    var j := JoinSep("/", parts);
    var t := p.root + j;
    assert t[|t| - |name|..] == j[|j| - |name|..];
  }
}
