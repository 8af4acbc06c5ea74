/** The store of comprehensive assessments: one JSON file per assessment under a
    directory per vendor, named after the assessment's timestamp, and the summary built
    from a vendor's files. Reading a directory, the sort by modification time and the
    file contents are inputs; `datetime.fromisoformat` and `datetime.now` are
    parameters. */
module AssessmentStorage {
  import opened Wrappers
  import opened Strings
  import opened Json
  import opened Models
  import opened PurePaths
  import opened PyInt

  const DefaultStoragePath := "./assessments"

  // ---------------------------------------------------------------------------
  // _generate_filename
  // ---------------------------------------------------------------------------

  type Year = n: nat | 1 <= n <= 9999 witness 1
  type Month = n: nat | 1 <= n <= 12 witness 1
  type Day = n: nat | 1 <= n <= 31 witness 1
  type Hour = n: nat | n < 24
  type Minute = n: nat | n < 60
  type Second = n: nat | n < 60
  type Microsecond = n: nat | n < 1000000

  /** A `datetime`, to the microsecond. Its time-zone is not used here. */
  datatype DateTime = DateTime(
    year: Year, month: Month, day: Day, hour: Hour, minute: Minute, second: Second, microsecond: Microsecond)

  function Pow10(w: nat): nat
  {
    if w == 0 then 1 else 10 * Pow10(w - 1)
  }

  /** `n` in decimal, zero-padded to exactly `w` digits. */
  function Pad(n: nat, w: nat): (r: string)
    requires n < Pow10(w)
    ensures |r| == w
  {
    if w == 0 then "" else Pad(n / 10, w - 1) + [DigitChar(n % 10)]
  }

  /** A padded number reads back as that number. */
  lemma {:induction false} PadValue(n: nat, w: nat)
    requires n < Pow10(w)
    ensures AllDigits(Pad(n, w)) && DigitsValue(Pad(n, w)) == n
  {
    if w > 0 {
      var front := Pad(n / 10, w - 1);
      PadValue(n / 10, w - 1);
      var d := DigitChar(n % 10);
      var r := front + [d];
      assert Pad(n, w) == r;
      assert r[..|r| - 1] == front;
      assert IsDigit(d) && d as int - '0' as int == n % 10;
      assert forall i :: 0 <= i < |front| ==> r[i] == front[i];
      assert DigitsValue(r) == DigitsValue(front) * 10 + n % 10;
    }
  }

  function Concat(pieces: seq<string>): string
  {
    if pieces == [] then "" else pieces[0] + Concat(pieces[1..])
  }

  /** Pieces of the same lengths that concatenate to the same text are the same pieces. */
  lemma {:induction false} ConcatInjective(p: seq<string>, q: seq<string>)
    requires |p| == |q| && forall k :: 0 <= k < |p| ==> |p[k]| == |q[k]|
    requires Concat(p) == Concat(q)
    ensures p == q
  {
    if p != [] {
      var restP, restQ := Concat(p[1..]), Concat(q[1..]);
      var cp := p[0] + restP;
      assert cp == q[0] + restQ;
      assert cp[..|p[0]|] == p[0] && cp[..|q[0]|] == q[0];
      assert cp[|p[0]|..] == restP && cp[|q[0]|..] == restQ;
      ConcatInjective(p[1..], q[1..]);
      assert p == [p[0]] + p[1..];
      assert q == [q[0]] + q[1..];
    }
  }

  /** The pieces of `strftime("%Y-%m-%d_%H-%M-%S.json")`. */
  function FilenamePieces(dt: DateTime): seq<string>
  {
    [Pad(dt.year, 4), "-", Pad(dt.month, 2), "-", Pad(dt.day, 2), "_",
     Pad(dt.hour, 2), "-", Pad(dt.minute, 2), "-", Pad(dt.second, 2), ".json"]
  }

  function Filename(dt: DateTime): string
  {
    Concat(FilenamePieces(dt))
  }

  /** `_generate_filename`: the timestamp of the analysis date, or of the current time
      when the date does not parse. */
  function GenerateFilename(analysisDate: string, fromIso: string -> Option<DateTime>, now: DateTime): (r: string)
    ensures fromIso(analysisDate).Some? ==> r == Filename(fromIso(analysisDate).value)
    ensures fromIso(analysisDate).None? ==> r == Filename(now)
  {
    match fromIso(analysisDate)
    case Some(dt) => Filename(dt)
    case None => Filename(now)
  }

  lemma ConcatFrom(ps: seq<string>, k: nat)
    requires k < |ps|
    ensures Concat(ps[k..]) == ps[k] + Concat(ps[k + 1..])
  {
    assert ps[k..][1..] == ps[k + 1..];
  }

  /** A text ending in ".json" still does after something is put in front of it. */
  lemma PrependKeepsJson(a: string, b: string)
    requires EndsWith(b, ".json")
    ensures EndsWith(a + b, ".json")
  {
    assert (a + b)[|a + b| - 5..] == b[|b| - 5..];
  }

  /** Every name has the fixed 24-character shape and the ".json" extension. */
  lemma FilenameShape(dt: DateTime)
    ensures |Filename(dt)| == 24 && EndsWith(Filename(dt), ".json")
  {
    var p := FilenamePieces(dt);
    assert Concat(p[12..]) == "";
    ConcatFrom(p, 11);
    var tail := Concat(p[11..]);
    assert tail == ".json";
    ConcatFrom(p, 10); PrependKeepsJson(p[10], tail);
    ConcatFrom(p, 9); PrependKeepsJson(p[9], Concat(p[10..]));
    ConcatFrom(p, 8); PrependKeepsJson(p[8], Concat(p[9..]));
    ConcatFrom(p, 7); PrependKeepsJson(p[7], Concat(p[8..]));
    ConcatFrom(p, 6); PrependKeepsJson(p[6], Concat(p[7..]));
    ConcatFrom(p, 5); PrependKeepsJson(p[5], Concat(p[6..]));
    ConcatFrom(p, 4); PrependKeepsJson(p[4], Concat(p[5..]));
    ConcatFrom(p, 3); PrependKeepsJson(p[3], Concat(p[4..]));
    ConcatFrom(p, 2); PrependKeepsJson(p[2], Concat(p[3..]));
    ConcatFrom(p, 1); PrependKeepsJson(p[1], Concat(p[2..]));
    ConcatFrom(p, 0); PrependKeepsJson(p[0], Concat(p[1..]));
    assert p[0..] == p;
  }

  /** Sub-second precision is dropped: dates in the same second share a name. */
  lemma SameSecondSameFilename(a: DateTime, b: DateTime)
    requires a.(microsecond := 0) == b.(microsecond := 0)
    ensures Filename(a) == Filename(b)
  {
    assert FilenamePieces(a) == FilenamePieces(b);
  }

  lemma PadInjective(n: nat, m: nat, w: nat)
    requires n < Pow10(w) && m < Pow10(w) && Pad(n, w) == Pad(m, w)
    ensures n == m
  {
    PadValue(n, w);
    PadValue(m, w);
  }

  /** Conversely, the name determines the date down to the second. */
  lemma FilenameDeterminesSecond(a: DateTime, b: DateTime)
    requires Filename(a) == Filename(b)
    ensures a.(microsecond := 0) == b.(microsecond := 0)
  {
    var pa, pb := FilenamePieces(a), FilenamePieces(b);
    assert forall k :: 0 <= k < |pa| ==> |pa[k]| == |pb[k]|;
    ConcatInjective(pa, pb);
    assert pa[0] == pb[0] && pa[2] == pb[2] && pa[4] == pb[4];
    assert pa[6] == pb[6] && pa[8] == pb[8] && pa[10] == pb[10];
    PadInjective(a.year, b.year, 4);
    PadInjective(a.month, b.month, 2);
    PadInjective(a.day, b.day, 2);
    PadInjective(a.hour, b.hour, 2);
    PadInjective(a.minute, b.minute, 2);
    PadInjective(a.second, b.second, 2);
  }

  // ---------------------------------------------------------------------------
  // save_assessment
  // ---------------------------------------------------------------------------

  function StrList(items: seq<string>): (v: JsonValue)
    ensures v.JList? && |v.items| == |items|
    ensures forall k :: 0 <= k < |items| ==> v.items[k] == JStr(items[k])
  {
    JList(seq(|items|, k requires 0 <= k < |items| => JStr(items[k])))
  }

  /** The dictionary written to disk: the model's fields, with the two enumerations
      replaced by their string values. The processing time is left out. */
  function SavedDict(a: ComprehensiveResult, analysisDate: string): (d: Analysis)
    ensures "overall_risk_level" in d && d["overall_risk_level"] == JStr(RiskLevelValue(a.overallRiskLevel))
    ensures "decision" in d && d["decision"] == JStr(DecisionValue(a.decision))
    ensures "overall_risk_score" in d && d["overall_risk_score"] == JInt(a.overallRiskScore)
    ensures "analysis_date" in d && d["analysis_date"] == JStr(analysisDate)
  {
    map[
      "vendor_id" := JStr(a.vendorId),
      "vendor_name" := JStr(a.vendorName),
      "overall_risk_score" := JInt(a.overallRiskScore),
      "overall_risk_level" := JStr(RiskLevelValue(a.overallRiskLevel)),
      "decision" := JStr(DecisionValue(a.decision)),
      "decision_justification" := JStr(a.decisionJustification),
      "documents_analyzed" := JInt(a.documentsAnalyzed),
      "individual_analyses" :=
        JList(seq(|a.individualAnalyses|, k requires 0 <= k < |a.individualAnalyses| => JObject(a.individualAnalyses[k]))),
      "consolidated_findings" := StrList(a.consolidatedFindings),
      "cross_document_insights" := StrList(a.crossDocumentInsights),
      "contradictions" := StrList(a.contradictions),
      "recommendations" := StrList(a.recommendations),
      "analysis_date" := JStr(analysisDate)]
  }

  /** The enumerations survive the trip through their string values. */
  lemma SavedEnumsReadBack(a: ComprehensiveResult, analysisDate: string)
    ensures ParseRiskLevel(SavedDict(a, analysisDate)["overall_risk_level"].s) == Some(a.overallRiskLevel)
    ensures ParseDecision(SavedDict(a, analysisDate)["decision"].s) == Some(a.decision)
  {
    EnumValuesRoundTrip(a.overallRiskLevel, a.decision);
  }

  /** `save_assessment`: the path written to, storage path / vendor id / timestamp name,
      and what is written there. */
  function SaveAssessment(
    storagePath: string, a: ComprehensiveResult, analysisDate: string,
    fromIso: string -> Option<DateTime>, now: DateTime): (r: (string, Analysis))
    ensures r.0 == Str(Div(Div(Parse(storagePath), a.vendorId), GenerateFilename(analysisDate, fromIso, now)))
    ensures EndsWith(r.0, GenerateFilename(analysisDate, fromIso, now)) && EndsWith(r.0, ".json")
    ensures r.1 == SavedDict(a, analysisDate)
  {
    var name := GenerateFilename(analysisDate, fromIso, now);
    var path := Str(Div(Div(Parse(storagePath), a.vendorId), name));
    SavedPathEnds(Div(Parse(storagePath), a.vendorId), if fromIso(analysisDate).Some? then fromIso(analysisDate).value else now);
    (path, SavedDict(a, analysisDate))
  }

  /** The pieces of a filename hold no slash, so neither does the name. */
  lemma FilenameLacksSlash(dt: DateTime)
    ensures !ContainsChar(Filename(dt), '/')
  {
    PadLacksSlash(dt.year, 4);
    PadLacksSlash(dt.month, 2);
    PadLacksSlash(dt.day, 2);
    PadLacksSlash(dt.hour, 2);
    PadLacksSlash(dt.minute, 2);
    PadLacksSlash(dt.second, 2);
    ConcatLacking(FilenamePieces(dt), '/');
  }

  lemma PadLacksSlash(n: nat, w: nat)
    requires n < Pow10(w)
    ensures !ContainsChar(Pad(n, w), '/')
  {
    PadValue(n, w);
    var r := Pad(n, w);
    forall i | 0 <= i < |r| ensures r[i] != '/' { assert IsDigit(r[i]); }
  }

  lemma {:induction false} ConcatLacking(ps: seq<string>, c: char)
    requires forall k :: 0 <= k < |ps| ==> !ContainsChar(ps[k], c)
    ensures !ContainsChar(Concat(ps), c)
  {
    if ps != [] {
      ConcatLacking(ps[1..], c);
      assert ps[1..][0..] == ps[1..];
      assert !ContainsChar(ps[0], c);
      ConcatKeepsAbsent(ps[0], Concat(ps[1..]), c);
    }
  }

  /** The path an assessment is saved to ends in its filename, and so in ".json". */
  lemma SavedPathEnds(dir: PurePath, dt: DateTime)
    ensures EndsWith(Str(Div(dir, Filename(dt))), Filename(dt))
    ensures EndsWith(Str(Div(dir, Filename(dt))), ".json")
  {
    var name := Filename(dt);
    FilenameShape(dt);
    FilenameLacksSlash(dt);
    StrEndsWithName(dir, name);
    var t := Str(Div(dir, name));
    assert t[|t| - 5..] == name[|name| - 5..];
  }

  // ---------------------------------------------------------------------------
  // get_all_assessments
  // ---------------------------------------------------------------------------

  /** A file of the vendor's directory, in newest-first order: its path, and its text
      or the reason it could not be read. */
  datatype StoredFile = StoredFile(path: string, contents: Result<string, string>)

  function Tag(d: Analysis, path: string): (r: Analysis)
    ensures r.Keys == d.Keys + {"file_path"}
    ensures r["file_path"] == JStr(path)
    ensures forall k :: k in d && k != "file_path" ==> r[k] == d[k]
  {
    d["file_path" := JStr(path)]
  }

  /** One file: unreadable text, text that does not decode, and a decoded value that is
      not an object (the tagging assignment raises) are all skipped. */
  function Load(f: StoredFile, parse: Parser): (r: Option<Analysis>)
    ensures r.Some? <==>
      f.contents.Success? && parse(f.contents.value).Success? && parse(f.contents.value).value.JObject?
    ensures r.Some? ==> "file_path" in r.value && r.value["file_path"] == JStr(f.path)
    ensures r.Some? ==> var d := parse(f.contents.value).value.fields;
      r.value.Keys == d.Keys + {"file_path"} &&
      forall k :: k in d && k != "file_path" ==> r.value[k] == d[k]
  {
    match f.contents
    case Failure(_) => None
    case Success(text) =>
      match parse(text)
      case Success(JObject(d)) => Some(Tag(d, f.path))
      case _ => None
  }

  function OptionSeq(o: Option<Analysis>): seq<Analysis>
  {
    if o.Some? then [o.value] else []
  }

  /** What `get_all_assessments` returns for the files in the order given. */
  function Loaded(files: seq<StoredFile>, parse: Parser): (r: seq<Analysis>)
    ensures |r| <= |files|
    ensures forall k :: 0 <= k < |r| ==> "file_path" in r[k]
  {
    if files == [] then []
    else Loaded(files[..|files| - 1], parse) + OptionSeq(Load(files[|files| - 1], parse))
  }

  method GetAllAssessments(files: seq<StoredFile>, parse: Parser) returns (r: seq<Analysis>)
    ensures r == Loaded(files, parse)
  {
    r := [];
    var i := 0;
    while i < |files|
      invariant 0 <= i <= |files|
      invariant r == Loaded(files[..i], parse)
    {
      assert files[..i + 1][..i] == files[..i];
      match files[i].contents {
        case Failure(_) =>
        case Success(text) =>
          var decoded := parse(text);
          if decoded.Success? && decoded.value.JObject? {
            r := r + [Tag(decoded.value.fields, files[i].path)];
          }
      }
      i := i + 1;
    }
    assert files[..i] == files;
  }

  /** Loading is an order-preserving filter: it distributes over concatenation. */
  lemma {:induction false} LoadedAppend(a: seq<StoredFile>, b: seq<StoredFile>, parse: Parser)
    ensures Loaded(a + b, parse) == Loaded(a, parse) + Loaded(b, parse)
    decreases |b|
  {
    if b == [] {
      assert a + b == a;
    } else {
      var b' := b[..|b| - 1];
      assert (a + b)[..|a + b| - 1] == a + b';
      LoadedAppend(a, b', parse);
    }
  }

  /** When every file loads, each is kept, in place, tagged with its own path. */
  lemma {:induction false} LoadedAllReadable(files: seq<StoredFile>, parse: Parser)
    requires forall k :: 0 <= k < |files| ==> Load(files[k], parse).Some?
    ensures |Loaded(files, parse)| == |files|
    ensures forall k :: 0 <= k < |files| ==> Loaded(files, parse)[k] == Load(files[k], parse).value
  {
    if files != [] {
      var init := files[..|files| - 1];
      assert forall k :: 0 <= k < |init| ==> init[k] == files[k];
      LoadedAllReadable(init, parse);
    }
  }

  /** A file that does not load leaves no trace. */
  lemma UnreadableSkipped(before: seq<StoredFile>, f: StoredFile, after: seq<StoredFile>, parse: Parser)
    requires Load(f, parse).None?
    ensures Loaded(before + [f] + after, parse) == Loaded(before + after, parse)
  {
    assert (before + [f])[..|before|] == before;
    assert Loaded(before + [f], parse) == Loaded(before, parse);
    LoadedAppend(before + [f], after, parse);
    LoadedAppend(before, after, parse);
  }

  // ---------------------------------------------------------------------------
  // get_assessment_summary
  // ---------------------------------------------------------------------------

  /** A missing key, or a subtraction on something that is not an integer. */
  datatype SummaryError = KeyError(key: string) | TypeError

  /** The "latest_assessment" entry, copied from the newest assessment. */
  datatype Latest = Latest(date: JsonValue, riskScore: JsonValue, riskLevel: JsonValue, decision: JsonValue)

  /** The summary dictionary; an empty list gives one without "assessment_dates", which
      is `dates == None`. */
  datatype Summary = Summary(
    vendorId: string, total: nat, latest: Option<Latest>, trend: Option<string>, dates: Option<seq<JsonValue>>)

  function Lookup(d: Analysis, key: string): (r: Result<JsonValue, SummaryError>)
    ensures r.Success? <==> key in d
    ensures r.Success? ==> r.value == d[key]
    ensures r.Failure? ==> r.error == KeyError(key)
  {
    if key in d then Success(d[key]) else Failure(KeyError(key))
  }

  /** The trend rule: more than 10 points up is "increasing", more than 10 down is
      "decreasing", anything in between, ±10 included, is "stable". */
  function RiskTrend(diff: int): (r: string)
    ensures r == "increasing" <==> diff > 10
    ensures r == "decreasing" <==> diff < -10
    ensures r == "stable" <==> -10 <= diff <= 10
  {
    if diff > 10 then "increasing" else if diff < -10 then "decreasing" else "stable"
  }

  /** Swapping newest and oldest swaps the two directions and keeps "stable". */
  lemma TrendAntisymmetric(diff: int)
    ensures RiskTrend(diff) == "increasing" <==> RiskTrend(-diff) == "decreasing"
    ensures RiskTrend(diff) == "stable" <==> RiskTrend(-diff) == "stable"
  {
  }

  /** The assessment holds a score that `-` can subtract: an integer, or a boolean. */
  predicate HasIntScore(d: Analysis)
  {
    "overall_risk_score" in d && ArithInt(d["overall_risk_score"]).Some?
  }

  /** The trend of a list of at least two assessments, newest first. Both scores are
      looked up before the subtraction. */
  function Trend(assessments: seq<Analysis>): (r: Result<Option<string>, SummaryError>)
    ensures r.Success? && r.value.Some? ==> |assessments| > 1
    ensures |assessments| <= 1 ==> r == Success(None)
    ensures |assessments| > 1 ==>
      (r.Success? <==> HasIntScore(assessments[0]) && HasIntScore(assessments[|assessments| - 1]))
    ensures |assessments| > 1 && r.Success? ==>
      r.value == Some(RiskTrend(ArithInt(assessments[0]["overall_risk_score"]).value
        - ArithInt(assessments[|assessments| - 1]["overall_risk_score"]).value))
    ensures |assessments| > 1 && r.Failure? ==>
      if "overall_risk_score" in assessments[0] && "overall_risk_score" in assessments[|assessments| - 1]
      then r.error == TypeError
      else r.error == KeyError("overall_risk_score")
  {
    if |assessments| <= 1 then Success(None)
    else
      match Lookup(assessments[0], "overall_risk_score")
      case Failure(e) => Failure(e)
      case Success(newest) =>
        match Lookup(assessments[|assessments| - 1], "overall_risk_score")
        case Failure(e) => Failure(e)
        case Success(oldest) =>
          if ArithInt(newest).Some? && ArithInt(oldest).Some? then
            Success(Some(RiskTrend(ArithInt(newest).value - ArithInt(oldest).value)))
          else Failure(TypeError)
  }

  /** `[a['analysis_date'] for a in assessments]`. */
  function Dates(assessments: seq<Analysis>): (r: Result<seq<JsonValue>, SummaryError>)
    ensures r.Success? <==> forall k :: 0 <= k < |assessments| ==> "analysis_date" in assessments[k]
    ensures r.Success? ==> |r.value| == |assessments|
    ensures r.Success? ==> forall k :: 0 <= k < |assessments| ==> r.value[k] == assessments[k]["analysis_date"]
    ensures r.Failure? ==> r.error == KeyError("analysis_date")
  {
    if assessments == [] then Success([])
    else
      match Lookup(assessments[0], "analysis_date")
      case Failure(e) => Failure(e)
      case Success(d) =>
        match Dates(assessments[1..])
        case Failure(e) => Failure(e)
        case Success(ds) => Success([d] + ds)
  }

  function LatestOf(d: Analysis): (r: Result<Latest, SummaryError>)
    ensures r.Success? <==> "analysis_date" in d && "overall_risk_score" in d && "overall_risk_level" in d && "decision" in d
    ensures r.Success? ==> r.value == Latest(d["analysis_date"], d["overall_risk_score"], d["overall_risk_level"], d["decision"])
    ensures r.Failure? ==> r.error.KeyError?
  {
    match Lookup(d, "analysis_date")
    case Failure(e) => Failure(e)
    case Success(date) =>
      match Lookup(d, "overall_risk_score")
      case Failure(e) => Failure(e)
      case Success(score) =>
        match Lookup(d, "overall_risk_level")
        case Failure(e) => Failure(e)
        case Success(level) =>
          match Lookup(d, "decision")
          case Failure(e) => Failure(e)
          case Success(decision) => Success(Latest(date, score, level, decision))
  }

  /** `get_assessment_summary` over the vendor's assessments, newest first. */
  function GetAssessmentSummary(vendorId: string, assessments: seq<Analysis>): (r: Result<Summary, SummaryError>)
    ensures assessments == [] ==> r == Success(Summary(vendorId, 0, None, None, None))
    ensures r.Success? ==> r.value.vendorId == vendorId && r.value.total == |assessments|
    ensures r.Success? && assessments != [] ==>
      LatestOf(assessments[0]).Success? && r.value.latest == Some(LatestOf(assessments[0]).value)
    ensures r.Success? && assessments != [] ==>
      r.value.dates.Some? && Dates(assessments) == Success(r.value.dates.value)
    ensures r.Success? ==> (r.value.trend.None? <==> |assessments| <= 1)
    ensures assessments != [] ==>
      (r.Success? <==> Trend(assessments).Success? && LatestOf(assessments[0]).Success? && Dates(assessments).Success?)
    ensures r.Success? && assessments != [] ==> r.value.trend == Trend(assessments).value
    ensures assessments != [] && Trend(assessments).Failure? ==> r == Failure(Trend(assessments).error)
    ensures assessments != [] && Trend(assessments).Success? && LatestOf(assessments[0]).Failure? ==>
      r == Failure(LatestOf(assessments[0]).error)
    ensures (assessments != [] && Trend(assessments).Success? && LatestOf(assessments[0]).Success? &&
      Dates(assessments).Failure?) ==> r == Failure(Dates(assessments).error)
  {
    if assessments == [] then Success(Summary(vendorId, 0, None, None, None))
    else
      match Trend(assessments)
      case Failure(e) => Failure(e)
      case Success(trend) =>
        match LatestOf(assessments[0])
        case Failure(e) => Failure(e)
        case Success(latest) =>
          match Dates(assessments)
          case Failure(e) => Failure(e)
          case Success(dates) => Success(Summary(vendorId, |assessments|, Some(latest), trend, Some(dates)))
  }

  /** A saved assessment, as read back and tagged. */
  function Reloaded(a: ComprehensiveResult, analysisDate: string, path: string): Analysis
  {
    Tag(SavedDict(a, analysisDate), path)
  }

  lemma ReloadedFields(a: ComprehensiveResult, analysisDate: string, path: string)
    ensures var d := Reloaded(a, analysisDate, path);
      "analysis_date" in d && "overall_risk_score" in d && "overall_risk_level" in d && "decision" in d
    ensures var d := Reloaded(a, analysisDate, path);
      d["analysis_date"] == JStr(analysisDate) && d["overall_risk_score"] == JInt(a.overallRiskScore)
    ensures var d := Reloaded(a, analysisDate, path);
      d["overall_risk_level"] == JStr(RiskLevelValue(a.overallRiskLevel)) && d["decision"] == JStr(DecisionValue(a.decision))
  {
  }

  /** The newest-first list of saved assessments as `get_all_assessments` reads it back. */
  function ReloadedList(saved: seq<ComprehensiveResult>, dates: seq<string>, paths: seq<string>): (r: seq<Analysis>)
    requires |saved| == |dates| == |paths|
    ensures |r| == |saved|
    ensures forall k :: 0 <= k < |r| ==> r[k] == Reloaded(saved[k], dates[k], paths[k])
  {
    seq(|saved|, k requires 0 <= k < |saved| => Reloaded(saved[k], dates[k], paths[k]))
  }

  /** The summary of assessments this service saved: it always succeeds; the latest entry
      carries the newest one's date, score and string-valued level and decision; the
      dates keep the newest-first order; and with two or more the trend compares the
      newest score with the oldest. */
  lemma SummaryOfSaved(vendorId: string, saved: seq<ComprehensiveResult>, dates: seq<string>, paths: seq<string>)
    requires |saved| == |dates| == |paths| > 0
    ensures GetAssessmentSummary(vendorId, ReloadedList(saved, dates, paths)).Success?
    ensures GetAssessmentSummary(vendorId, ReloadedList(saved, dates, paths)).value.latest ==
      Some(Latest(JStr(dates[0]), JInt(saved[0].overallRiskScore),
        JStr(RiskLevelValue(saved[0].overallRiskLevel)), JStr(DecisionValue(saved[0].decision))))
    ensures GetAssessmentSummary(vendorId, ReloadedList(saved, dates, paths)).value.dates ==
      Some(seq(|dates|, k requires 0 <= k < |dates| => JStr(dates[k])))
    ensures |saved| > 1 ==>
      GetAssessmentSummary(vendorId, ReloadedList(saved, dates, paths)).value.trend ==
      Some(RiskTrend(saved[0].overallRiskScore - saved[|saved| - 1].overallRiskScore))
  {
    var list := ReloadedList(saved, dates, paths);
    var first, last := list[0], list[|list| - 1];
    ReloadedFields(saved[0], dates[0], paths[0]);
    ReloadedFields(saved[|saved| - 1], dates[|saved| - 1], paths[|saved| - 1]);
    var trend := if |saved| > 1 then Some(RiskTrend(saved[0].overallRiskScore - saved[|saved| - 1].overallRiskScore)) else None;
    assert Trend(list) == Success(trend);
    assert LatestOf(first) == Success(Latest(JStr(dates[0]), JInt(saved[0].overallRiskScore),
      JStr(RiskLevelValue(saved[0].overallRiskLevel)), JStr(DecisionValue(saved[0].decision))));
    ReloadedDates(saved, dates, paths);
  }

  /** The dates of the reloaded list are the saving dates, in order. */
  lemma ReloadedDates(saved: seq<ComprehensiveResult>, dates: seq<string>, paths: seq<string>)
    requires |saved| == |dates| == |paths|
    ensures Dates(ReloadedList(saved, dates, paths)) == Success(seq(|dates|, k requires 0 <= k < |dates| => JStr(dates[k])))
  {
    var list := ReloadedList(saved, dates, paths);
    forall k | 0 <= k < |list|
      ensures "analysis_date" in list[k] && list[k]["analysis_date"] == JStr(dates[k])
    {
      ReloadedFields(saved[k], dates[k], paths[k]);
    }
    var ds := Dates(list).value;
    assert ds == seq(|dates|, k requires 0 <= k < |dates| => JStr(dates[k]));
  }
}
