/** The prompt-injection guard: `sanitize_text` screens a document before it is put into
    a prompt, `validate_findings` screens the lists the language model sends back. */
module PromptInjection {
  import opened Wrappers
  import opened Strings
  import opened Http

  // ---------------------------------------------------------------------------
  // The dangerous patterns
  // ---------------------------------------------------------------------------

  /** One piece of a pattern: a literal word, or a run of whitespace (`\s+` when
      `atLeastOne`, `\s*` otherwise). */
  datatype Token = Lit(word: string) | Spaces(atLeastOne: bool)

  /** A regular expression without alternation or optional groups. */
  type Shape = seq<Token>

  /** One of the source's regular expressions, with each `( ... )?` group and each
      `a|b` alternation spelled out, so that it matches exactly when one of its shapes
      does. */
  datatype Pattern = Pattern(shapes: seq<Shape>)

  const S1: Token := Spaces(true)
  const S0: Token := Spaces(false)

  /** Does `p` match some prefix of `s`? Backtracking over how much whitespace each
      `\s` run takes. */
  function MatchPrefix(p: Shape, s: string): bool
    decreases |p|, |s|
  {
    if p == [] then true
    else match p[0]
      case Lit(w) => StartsWith(s, w) && MatchPrefix(p[1..], s[|w|..])
      case Spaces(atLeastOne) =>
        if atLeastOne then s != [] && IsSpace(s[0]) && MatchPrefix([S0] + p[1..], s[1..])
        else MatchPrefix(p[1..], s) || (s != [] && IsSpace(s[0]) && MatchPrefix(p, s[1..]))
  }

  /** `re.search(shape, s)`: a match starts somewhere in `s`. */
  predicate Search(p: Shape, s: string)
  {
    exists i :: 0 <= i <= |s| && MatchPrefix(p, s[i..])
  }

  predicate PatternFound(pat: Pattern, s: string)
  {
    exists k :: 0 <= k < |pat.shapes| && Search(pat.shapes[k], s)
  }

  /** `DANGEROUS_PATTERNS`, in the source's order. */
  const DangerousPatterns: seq<Pattern> := [
    // ignore \s+ (all \s+)? previous \s+ instruction(s)?
    Pattern([[Lit("ignore"), S1, Lit("previous"), S1, Lit("instruction")],
             [Lit("ignore"), S1, Lit("previous"), S1, Lit("instructions")],
             [Lit("ignore"), S1, Lit("all"), S1, Lit("previous"), S1, Lit("instruction")],
             [Lit("ignore"), S1, Lit("all"), S1, Lit("previous"), S1, Lit("instructions")]]),
    // ignore \s+ (all \s+)? above
    Pattern([[Lit("ignore"), S1, Lit("above")],
             [Lit("ignore"), S1, Lit("all"), S1, Lit("above")]]),
    // disregard \s+ (all \s+)? previous
    Pattern([[Lit("disregard"), S1, Lit("previous")],
             [Lit("disregard"), S1, Lit("all"), S1, Lit("previous")]]),
    // forget \s+ (all \s+)? previous
    Pattern([[Lit("forget"), S1, Lit("previous")],
             [Lit("forget"), S1, Lit("all"), S1, Lit("previous")]]),
    // you \s+ are \s+ now
    Pattern([[Lit("you"), S1, Lit("are"), S1, Lit("now")]]),
    // new \s+ instruction(s)?
    Pattern([[Lit("new"), S1, Lit("instruction")],
             [Lit("new"), S1, Lit("instructions")]]),
    // system \s* : \s*
    Pattern([[Lit("system"), S0, Lit(":"), S0]]),
    // the chat-markup start token
    Pattern([[Lit("<|im_start|>")]]),
    // the chat-markup end token
    Pattern([[Lit("<|im_end|>")]]),
    // ### \s* instruction
    Pattern([[Lit("###"), S0, Lit("instruction")]]),
    // the upper-case marker
    Pattern([[Lit("ENDOFINPUT")]]),
    // roleplay \s+ as
    Pattern([[Lit("roleplay"), S1, Lit("as")]]),
    // pretend \s+ (you \s+ are | to \s+ be)
    Pattern([[Lit("pretend"), S1, Lit("you"), S1, Lit("are")],
             [Lit("pretend"), S1, Lit("to"), S1, Lit("be")]]),
    // act \s+ as \s+ (if | though)
    Pattern([[Lit("act"), S1, Lit("as"), S1, Lit("if")],
             [Lit("act"), S1, Lit("as"), S1, Lit("though")]])
  ]

  /** Index of the upper-case marker pattern in `DangerousPatterns`. */
  const EndOfInputIndex := 10

  /** Some dangerous pattern matches the lower-cased text. */
  predicate Suspicious(text: string)
  {
    var lowered := Lower(text);
    exists k :: 0 <= k < |DangerousPatterns| && PatternFound(DangerousPatterns[k], lowered)
  }

  // ---------------------------------------------------------------------------
  // Whitespace collapsing: re.sub(r'\s+', ' ', text).strip()
  // ---------------------------------------------------------------------------

  /** `re.sub(r'\s+', ' ', s)`: every maximal whitespace run becomes one blank. */
  function CollapseRuns(s: string): string
    decreases |s|
  {
    if s == [] then []
    else if IsSpace(s[0]) then
      var rest := TrimStart(s);
      [' '] + CollapseRuns(rest)
    else [s[0]] + CollapseRuns(s[1..])
  }

  function Collapse(s: string): string
  {
    Strip(CollapseRuns(s))
  }

  predicate OnlyBlanks(s: string)
  {
    forall i :: 0 <= i < |s| && IsSpace(s[i]) ==> s[i] == ' '
  }

  predicate NoDoubleSpace(s: string)
  {
    forall i :: 0 < i < |s| && IsSpace(s[i - 1]) ==> !IsSpace(s[i])
  }

  predicate NoEdgeSpace(s: string)
  {
    s == [] || (!IsSpace(s[0]) && !IsSpace(s[|s| - 1]))
  }

  /** The shape `sanitize_text`'s output always has. */
  predicate Normalized(s: string)
  {
    OnlyBlanks(s) && NoDoubleSpace(s) && NoEdgeSpace(s)
  }

  /** The non-whitespace characters of `s`, in order. */
  function NonSpace(s: string): string
  {
    if s == [] then []
    else if IsSpace(s[0]) then NonSpace(s[1..])
    else [s[0]] + NonSpace(s[1..])
  }

  lemma {:induction false} NonSpaceAppend(a: string, b: string)
    ensures NonSpace(a + b) == NonSpace(a) + NonSpace(b)
  {
    if a == [] {
      assert a + b == b;
    } else {
      assert (a + b)[0] == a[0];
      assert (a + b)[1..] == a[1..] + b;
      NonSpaceAppend(a[1..], b);
    }
  }

  lemma {:induction false} NonSpaceOfSpaces(s: string)
    requires forall i :: 0 <= i < |s| ==> IsSpace(s[i])
    ensures NonSpace(s) == []
  {
    if s != [] {
      NonSpaceOfSpaces(s[1..]);
    }
  }

  /** What `CollapseRuns` does to a string: only blanks remain as whitespace, never two
      in a row, the non-whitespace characters are kept, nothing gets longer, and a
      leading non-whitespace character stays in front. */
  lemma {:induction false} CollapseRunsShape(s: string)
    ensures OnlyBlanks(CollapseRuns(s))
    ensures NoDoubleSpace(CollapseRuns(s))
    ensures NonSpace(CollapseRuns(s)) == NonSpace(s)
    ensures |CollapseRuns(s)| <= |s|
    ensures s != [] && !IsSpace(s[0]) ==> CollapseRuns(s) != [] && CollapseRuns(s)[0] == s[0]
    decreases |s|
  {
    if s != [] {
      var r := CollapseRuns(s);
      if IsSpace(s[0]) {
        var rest := TrimStart(s);
        CollapseRunsShape(rest);
        var t := CollapseRuns(rest);
        assert r == [' '] + t;
        assert rest != [] ==> !IsSpace(rest[0]);
        assert forall i :: 0 < i < |r| ==> r[i] == t[i - 1];
        CollapseRunKeepsNonSpace(s, rest, t);
      } else {
        CollapseRunsShape(s[1..]);
        var t := CollapseRuns(s[1..]);
        assert r == [s[0]] + t;
        assert forall i :: 0 < i < |r| ==> r[i] == t[i - 1];
        assert NonSpace(r) == [s[0]] + NonSpace(t) by { assert r[1..] == t; }
      }
    }
  }

  /** Replacing a leading whitespace run by one blank keeps the non-whitespace characters. */
  lemma CollapseRunKeepsNonSpace(s: string, rest: string, t: string)
    requires s != [] && IsSpace(s[0]) && rest == TrimStart(s) && NonSpace(t) == NonSpace(rest)
    ensures NonSpace([' '] + t) == NonSpace(s)
  {
    var lead := s[..|s| - |rest|];
    assert s == lead + rest;
    NonSpaceOfSpaces(lead);
    NonSpaceAppend(lead, rest);
    NonSpaceAppend([' '], t);
    assert NonSpace([' ']) == [] by { assert IsSpace(' '); assert [' '][1..] == []; }
  }

  /** `strip()` keeps blanks-only and no-double-space, removes edge whitespace and only
      whitespace. */
  lemma StripShape(s: string)
    requires OnlyBlanks(s) && NoDoubleSpace(s)
    ensures Normalized(Strip(s))
    ensures NonSpace(Strip(s)) == NonSpace(s)
    ensures |Strip(s)| <= |s|
  {
    StripKeepsBlanks(s);
    StripKeepsNonSpace(s);
  }

  lemma StripKeepsBlanks(s: string)
    requires OnlyBlanks(s) && NoDoubleSpace(s)
    ensures OnlyBlanks(Strip(s)) && NoDoubleSpace(Strip(s)) && NoEdgeSpace(Strip(s))
  {
    var r := Strip(s);
    var a := StripOffset(s);
    assert forall i :: 0 <= i < |r| ==> r[i] == s[a + i];
  }

  lemma StripKeepsNonSpace(s: string)
    ensures NonSpace(Strip(s)) == NonSpace(s)
  {
    var r, a := Strip(s), StripOffset(s);
    var lead, tail := s[..a], s[a + |r|..];
    assert s == lead + r + tail;
    NonSpaceOfSpaces(lead);
    assert forall i :: 0 <= i < |tail| ==> IsSpace(tail[i]) by {
      forall i | 0 <= i < |tail| ensures IsSpace(tail[i]) { assert tail[i] == s[a + |r| + i]; }
    }
    NonSpaceOfSpaces(tail);
    NonSpaceAppend(lead, r);
    NonSpaceAppend(lead + r, tail);
  }

  /** On success, `sanitize_text`'s collapsing leaves no leading or trailing whitespace,
      no two adjacent whitespace characters, and only blanks as whitespace; it keeps the
      sequence of non-whitespace characters and never lengthens the text. */
  lemma CollapseNormalizes(s: string)
    ensures Normalized(Collapse(s))
    ensures NonSpace(Collapse(s)) == NonSpace(s)
    ensures |Collapse(s)| <= |s|
  {
    CollapseRunsShape(s);
    StripShape(CollapseRuns(s));
  }

  lemma {:induction false} CollapseRunsFixes(t: string)
    requires OnlyBlanks(t) && NoDoubleSpace(t)
    ensures CollapseRuns(t) == t
    decreases |t|
  {
    if t != [] {
      var tail := t[1..];
      assert OnlyBlanks(tail) && NoDoubleSpace(tail) by {
        assert forall i :: 0 <= i < |tail| ==> tail[i] == t[i + 1];
      }
      if IsSpace(t[0]) {
        assert tail != [] ==> !IsSpace(tail[0]) by { assert tail != [] ==> tail[0] == t[1]; }
        assert TrimStart(t) == tail by {
          assert TrimStart(t) == TrimStart(tail);
        }
        CollapseRunsFixes(tail);
      } else {
        CollapseRunsFixes(tail);
      }
    }
  }

  /** Collapsing is idempotent: a normalized text is its own collapse. */
  lemma CollapseIdempotent(s: string)
    ensures Collapse(Collapse(s)) == Collapse(s)
  {
    var t := Collapse(s);
    CollapseNormalizes(s);
    CollapseRunsFixes(t);
    StripUnchanged(t);
  }

  // ---------------------------------------------------------------------------
  // sanitize_text
  // ---------------------------------------------------------------------------

  const MaxTextLength := 100000

  const EmptyTextError := HttpError(400, "Text content cannot be empty")
  const TooLongError := HttpError(413, "Text too long. Maximum 100000 characters allowed")
  const InjectionError :=
    HttpError(400, "Document contains suspicious content that may indicate a prompt injection attack")

  /** What `sanitize_text` returns or raises, as one guard chain: emptiness first, then
      the length cap, then the patterns, then whitespace collapsing. */
  function SanitizeSpec(text: string): Result<string, HttpError>
  {
    if |text| == 0 then Failure(EmptyTextError)
    else if |text| > MaxTextLength then Failure(TooLongError)
    else if Suspicious(text) then Failure(InjectionError)
    else Success(Collapse(text))
  }

  /** `sanitize_text`: the checks in order, the patterns one at a time with an early
      exit on the first that matches. */
  method SanitizeText(text: string) returns (r: Result<string, HttpError>)
    ensures r == SanitizeSpec(text)
  {
    if |text| == 0 {
      return Failure(EmptyTextError);
    }
    if |text| > MaxTextLength {
      return Failure(TooLongError);
    }
    var lowered := Lower(text);
    var k := 0;
    while k < |DangerousPatterns|
      invariant 0 <= k <= |DangerousPatterns|
      invariant forall j :: 0 <= j < k ==> !PatternFound(DangerousPatterns[j], lowered)
    {
      if PatternFound(DangerousPatterns[k], lowered) {
        return Failure(InjectionError);
      }
      k := k + 1;
    }
    r := Success(Collapse(text));
  }

  /** Empty text is rejected with 400 whatever its other properties: the length and
      pattern checks are never reached. */
  lemma EmptyRejectedFirst(text: string)
    requires text == ""
    ensures SanitizeSpec(text) == Failure(EmptyTextError)
    ensures SanitizeSpec(text).error.status == 400
  {
  }

  /** Text over 100 000 characters is rejected with 413, before any pattern is tried;
      exactly 100 000 characters passes the length check. */
  lemma LengthCap(text: string)
    ensures |text| > MaxTextLength ==> SanitizeSpec(text) == Failure(TooLongError)
    ensures 0 < |text| <= MaxTextLength ==> SanitizeSpec(text) != Failure(TooLongError)
  {
  }

  /** Among texts of allowed length, rejection with 400 happens exactly when a pattern
      matches the lower-cased text; otherwise the collapsed text is returned. */
  lemma PatternRejection(text: string)
    requires 0 < |text| <= MaxTextLength
    ensures SanitizeSpec(text).Failure? <==> Suspicious(text)
    ensures Suspicious(text) ==> SanitizeSpec(text) == Failure(InjectionError)
    ensures !Suspicious(text) ==> SanitizeSpec(text) == Success(Collapse(text))
  {
  }

  /** The verdict depends on the text only through its length and its lower-cased form:
      `IGNORE ALL PREVIOUS INSTRUCTIONS` is treated like its lower-case spelling. */
  lemma CaseInsensitive(t1: string, t2: string)
    requires |t1| == |t2| && Lower(t1) == Lower(t2)
    ensures SanitizeSpec(t1).Failure? <==> SanitizeSpec(t2).Failure?
    ensures SanitizeSpec(t1).Failure? ==> SanitizeSpec(t1) == SanitizeSpec(t2)
  {
  }

  /** No shape made of one upper-case literal matches a lower-cased string. */
  lemma UpperLiteralNeverMatches(w: string, s: string)
    requires HasUpper(w)
    requires forall i :: 0 <= i < |s| ==> !IsUpper(s[i])
    ensures !Search([Lit(w)], s)
  {
  }

  /** The `ENDOFINPUT` pattern is tried against lower-cased text only, so it never fires,
      neither in `sanitize_text` nor in `validate_findings`. */
  lemma EndOfInputNeverFires(text: string)
    ensures !PatternFound(DangerousPatterns[EndOfInputIndex], Lower(text))
  {
    var lowered := Lower(text);
    assert HasUpper("ENDOFINPUT") by { assert IsUpper("ENDOFINPUT"[0]); }
    UpperLiteralNeverMatches("ENDOFINPUT", lowered);
    assert DangerousPatterns[EndOfInputIndex].shapes == [[Lit("ENDOFINPUT")]];
  }

  lemma LitStep(w: string, p: Shape, s: string)
    requires StartsWith(s, w) && MatchPrefix(p, s[|w|..])
    ensures MatchPrefix([Lit(w)] + p, s)
  {
    assert ([Lit(w)] + p)[1..] == p;
  }

  lemma BlankStep(p: Shape, s: string)
    requires s != [] && IsSpace(s[0]) && MatchPrefix(p, s[1..])
    ensures MatchPrefix([S1] + p, s)
  {
    assert ([S1] + p)[1..] == p;
    assert ([S0] + p)[1..] == p;
  }

  const IgnoreAllPrevious := "ignore" + (" " + ("all" + (" " + ("previous" + (" " + "instructions")))))

  /** The third alternative of the first pattern matches at the start of any text that
      begins with "ignore all previous instructions". */
  lemma IgnoreAllPreviousMatches(s: string)
    requires StartsWith(s, IgnoreAllPrevious)
    ensures MatchPrefix(DangerousPatterns[0].shapes[2], s)
  {
    StartsWithConcat(s, "ignore", " " + ("all" + (" " + ("previous" + (" " + "instructions")))));
    var s1 := s[6..];
    StartsWithConcat(s1, " ", "all" + (" " + ("previous" + (" " + "instructions"))));
    var s2 := s1[1..];
    StartsWithConcat(s2, "all", " " + ("previous" + (" " + "instructions")));
    var s3 := s2[3..];
    StartsWithConcat(s3, " ", "previous" + (" " + "instructions"));
    var s4 := s3[1..];
    StartsWithConcat(s4, "previous", " " + "instructions");
    var s5 := s4[8..];
    StartsWithConcat(s5, " ", "instructions");
    var s6 := s5[1..];
    StartsWithConcat(s6, "instruction", "s");
    LitStep("instruction", [], s6);
    assert [Lit("instruction")] + [] == [Lit("instruction")];
    BlankStep([Lit("instruction")], s5);
    LitStep("previous", [S1, Lit("instruction")], s4);
    BlankStep([Lit("previous"), S1, Lit("instruction")], s3);
    LitStep("all", [S1, Lit("previous"), S1, Lit("instruction")], s2);
    BlankStep([Lit("all"), S1, Lit("previous"), S1, Lit("instruction")], s1);
    LitStep("ignore", [S1, Lit("all"), S1, Lit("previous"), S1, Lit("instruction")], s);
  }

  /** A text of allowed length whose lower-cased form contains "ignore all previous
      instructions", in any capitalisation, is rejected with 400 before any model call. */
  lemma IgnoreAllPreviousRejected(text: string, i: nat)
    requires 0 < |text| <= MaxTextLength
    requires i <= |text| && StartsWith(Lower(text)[i..], IgnoreAllPrevious)
    ensures SanitizeSpec(text) == Failure(InjectionError)
  {
    IgnoreAllPreviousMatches(Lower(text)[i..]);
    assert Search(DangerousPatterns[0].shapes[2], Lower(text));
    assert PatternFound(DangerousPatterns[0], Lower(text));
  }

  // ---------------------------------------------------------------------------
  // validate_findings
  // ---------------------------------------------------------------------------

  const MaxFindings := 50

  const OutputRejectedError := HttpError(500, "AI response contained suspicious content. Analysis rejected.")

  /** Some item of the list is suspicious. */
  predicate AnySuspicious(items: seq<string>)
  {
    exists i :: 0 <= i < |items| && Suspicious(items[i])
  }

  /** A list holds a suspicious item iff its head is one or its tail holds one. */
  lemma SuspiciousCons(items: seq<string>)
    requires items != []
    ensures AnySuspicious(items) <==> Suspicious(items[0]) || AnySuspicious(items[1..])
  {
    if AnySuspicious(items) && !Suspicious(items[0]) {
      var i :| 0 <= i < |items| && Suspicious(items[i]);
      assert items[1..][i - 1] == items[i];
    }
  }

  /** The first `MaxFindings` items, as `findings[:50]` keeps them. */
  function Kept(findings: seq<string>): seq<string>
  {
    if |findings| > MaxFindings then findings[..MaxFindings] else findings
  }

  /** What `validate_findings` returns or raises. */
  function CheckFindings(findings: seq<string>): Result<seq<string>, HttpError>
  {
    var kept := Kept(findings);
    if AnySuspicious(kept) then Failure(OutputRejectedError)
    else Success(kept)
  }

  /** `validate_findings`: truncate, then examine the kept items in order and stop at
      the first suspicious one. */
  method ValidateFindings(findings: seq<string>) returns (r: Result<seq<string>, HttpError>)
    ensures r == CheckFindings(findings)
  {
    var kept := findings;
    if |kept| > MaxFindings {
      kept := kept[..MaxFindings];
    }
    var i := 0;
    while i < |kept|
      invariant 0 <= i <= |kept|
      invariant kept == Kept(findings)
      invariant forall j :: 0 <= j < i ==> !Suspicious(kept[j])
    {
      if Suspicious(kept[i]) {
        return Failure(OutputRejectedError);
      }
      i := i + 1;
    }
    r := Success(kept);
  }

  /** On success the result is exactly the first min(50, n) items, unchanged and in
      order; the failure is always the 500 rejection. */
  lemma FindingsResultShape(findings: seq<string>)
    ensures var n := if |findings| < MaxFindings then |findings| else MaxFindings;
      CheckFindings(findings).Success? ==> CheckFindings(findings).value == findings[..n]
    ensures CheckFindings(findings).Failure? ==> CheckFindings(findings).error.status == 500
  {
  }

  /** The 500 rejection happens exactly when one of the first 50 items is suspicious. */
  lemma FindingsRejectionIff(findings: seq<string>)
    ensures CheckFindings(findings).Failure? <==>
      exists i :: 0 <= i < |findings| && i < MaxFindings && Suspicious(findings[i])
  {
    var kept := Kept(findings);
    if exists i :: 0 <= i < |findings| && i < MaxFindings && Suspicious(findings[i]) {
      var i :| 0 <= i < |findings| && i < MaxFindings && Suspicious(findings[i]);
      assert kept[i] == findings[i];
    }
  }

  /** Items after index 49 are never inspected: changing them does not change whether
      the list is rejected, and a success keeps none of them. */
  lemma FindingsTailIgnored(f: seq<string>, g: seq<string>)
    requires |f| >= MaxFindings && |g| >= MaxFindings && f[..MaxFindings] == g[..MaxFindings]
    ensures CheckFindings(f) == CheckFindings(g)
  {
    assert Kept(f) == f[..MaxFindings] && Kept(g) == g[..MaxFindings];
  }

  /** Validating an accepted list again accepts it unchanged. */
  lemma FindingsIdempotent(findings: seq<string>)
    requires CheckFindings(findings).Success?
    ensures CheckFindings(CheckFindings(findings).value) == CheckFindings(findings)
  {
  }
}
